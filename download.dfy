/**
 * URL and date bookkeeping of the granule downloader (pysif download helpers): the
 * GOSIF product URL on the UNH store, the OpenDAP-to-archive URL rewrite, the
 * .html / .dmr suffix stripping, and the date list, per-year grouping and not-found
 * set of a time-range download.
 *
 * Dates are integer day numbers; the calendar year of a day is a parameter (yearOf),
 * and so are the directory listings the downloader fetches (listing), each entry
 * carrying the date its file name encodes when it names a granule.
 */
module Download {
  import opened Wrappers
  import DayLoop

  // ---------------------------------------------------------------------------
  // Strings

  predicate StartsWith(s: string, p: string)
  {
    |p| <= |s| && s[..|p|] == p
  }

  predicate EndsWith(s: string, p: string)
  {
    |p| <= |s| && s[|s| - |p|..] == p
  }

  /** s without the suffix suf when it ends with it, s itself otherwise. */
  function StripSuffix(s: string, suf: string): (r: string)
    ensures EndsWith(s, suf) ==> r + suf == s
    ensures !EndsWith(s, suf) ==> r == s
  {
    if EndsWith(s, suf) then s[..|s| - |suf|] else s
  }

  /** The OpenDAP URL of a listed granule: its .html suffix removed, then its .dmr suffix. */
  function GranuleUrl(link: string): string
  {
    StripSuffix(StripSuffix(link, ".html"), ".dmr")
  }

  /**
   * Only a trailing .html and then a trailing .dmr are removed: a link is its granule
   * URL followed by ".dmr.html", ".html", ".dmr" or nothing, and a link with neither
   * suffix is kept whole.
   */
  lemma GranuleUrlSuffixes(link: string)
    ensures var u := GranuleUrl(link);
      link == u + ".dmr.html" || link == u + ".html" || link == u + ".dmr" || link == u
    ensures !EndsWith(link, ".html") && !EndsWith(link, ".dmr") ==> GranuleUrl(link) == link
  {
    var a := StripSuffix(link, ".html");
    var u := StripSuffix(a, ".dmr");
    if EndsWith(link, ".html") && EndsWith(a, ".dmr") {
      assert u + ".dmr" + ".html" == link;
      assert u + ".dmr.html" == u + ".dmr" + ".html";
    }
  }

  /** The URL the downloader opens for a listed granule: every "https" turned into "dap4", then the suffixes stripped. */
  function DapGranuleUrl(link: string): string
  {
    GranuleUrl(ReplaceAll(link, "https", "dap4"))
  }

  /**
   * Each "https" replaced shortens the link by one character, and what is left after
   * the replacement is the opened URL followed by at most ".dmr.html".
   */
  lemma DapGranuleUrlShape(link: string)
    ensures var t := ReplaceAll(link, "https", "dap4");
      |t| == |link| - Replaced(link, "https") &&
      (t == DapGranuleUrl(link) + ".dmr.html" || t == DapGranuleUrl(link) + ".html" ||
       t == DapGranuleUrl(link) + ".dmr" || t == DapGranuleUrl(link))
  {
    ReplaceAllLength(link, "https", "dap4");
    GranuleUrlSuffixes(ReplaceAll(link, "https", "dap4"));
  }

  /** s[i..] starts with t. */
  predicate OccursAt(s: string, t: string, i: int)
  {
    0 <= i && i + |t| <= |s| && s[i..i + |t|] == t
  }

  /** str.replace(pat, rep): occurrences of pat replaced left to right, without overlaps. */
  function ReplaceAll(s: string, pat: string, rep: string): string
    requires |pat| > 0
    decreases |s|
  {
    if |s| < |pat| then s
    else if s[..|pat|] == pat then rep + ReplaceAll(s[|pat|..], pat, rep)
    else [s[0]] + ReplaceAll(s[1..], pat, rep)
  }

  /** The number of occurrences str.replace replaces. */
  function Replaced(s: string, pat: string): nat
    requires |pat| > 0
    decreases |s|
  {
    if |s| < |pat| then 0
    else if s[..|pat|] == pat then 1 + Replaced(s[|pat|..], pat)
    else Replaced(s[1..], pat)
  }

  /** Each replaced occurrence changes the length by |rep| - |pat|. */
  lemma {:induction false} ReplaceAllLength(s: string, pat: string, rep: string)
    requires |pat| > 0
    ensures |ReplaceAll(s, pat, rep)| == |s| + Replaced(s, pat) * (|rep| - |pat|)
    decreases |s|
  {
    if |s| >= |pat| {
      var d := |rep| - |pat|;
      if s[..|pat|] == pat {
        var t := s[|pat|..];
        ReplaceAllLength(t, pat, rep);
        assert |ReplaceAll(s, pat, rep)| == |rep| + |t| + Replaced(t, pat) * d;
        assert (1 + Replaced(t, pat)) * d == d + Replaced(t, pat) * d;
      } else {
        ReplaceAllLength(s[1..], pat, rep);
      }
    }
  }

  /** A string in which pat does not occur is returned unchanged. */
  lemma {:induction false} ReplaceAllAbsent(s: string, pat: string, rep: string)
    requires |pat| > 0
    requires forall i :: !OccursAt(s, pat, i)
    ensures Replaced(s, pat) == 0 && ReplaceAll(s, pat, rep) == s
    decreases |s|
  {
    if |s| >= |pat| {
      assert !OccursAt(s, pat, 0);
      forall i
        ensures !OccursAt(s[1..], pat, i)
      {
        if 0 <= i && i + |pat| <= |s| - 1 {
          assert s[1..][i..i + |pat|] == s[i + 1..i + 1 + |pat|];
          assert !OccursAt(s, pat, i + 1);
        }
      }
      ReplaceAllAbsent(s[1..], pat, rep);
    }
  }

  /** A first character that cannot start pat is copied. */
  lemma ReplaceAllSkip(c: char, s: string, pat: string, rep: string)
    requires |pat| > 0 && c != pat[0]
    ensures ReplaceAll([c] + s, pat, rep) == [c] + ReplaceAll(s, pat, rep)
  {
    var t := [c] + s;
    assert t[1..] == s;
    if |t| >= |pat| {
      assert t[..|pat|][0] != pat[0];
    }
  }

  // ---------------------------------------------------------------------------
  // Integer formatting

  predicate IsDigit(c: char)
  {
    48 <= c as int <= 57
  }

  predicate AllDigits(s: string)
  {
    forall k :: 0 <= k < |s| ==> IsDigit(s[k])
  }

  function DigitChar(d: int): (c: char)
    requires 0 <= d < 10
    ensures IsDigit(c) && c as int - 48 == d
  {
    (48 + d) as char
  }

  function Zeros(z: nat): (r: string)
    ensures |r| == z && forall k :: 0 <= k < z ==> r[k] == '0'
  {
    seq(z, k => '0')
  }

  /** The decimal digits of n, without leading zeros. */
  function NatToString(n: nat): (s: string)
    ensures |s| >= 1 && AllDigits(s)
  {
    if n < 10 then [DigitChar(n)] else NatToString(n / 10) + [DigitChar(n % 10)]
  }

  /** str(n): a minus sign before the digits of a negative n. */
  function IntToString(n: int): string
  {
    if n < 0 then "-" + NatToString(-n) else NatToString(n)
  }

  /** Zeros in front of s up to width characters. */
  function PadLeft(s: string, width: int): (r: string)
    ensures |r| == if |s| >= width then |s| else width
    ensures |s| <= |r| && r[|r| - |s|..] == s && forall k :: 0 <= k < |r| - |s| ==> r[k] == '0'
  {
    if |s| >= width then s else Zeros(width - |s|) + s
  }

  /** format(n, "0{width}d"): the sign counts towards the width, zeros go after it. */
  function ZeroPad(n: int, width: nat): string
  {
    if n < 0 then "-" + PadLeft(NatToString(-n), width - 1) else PadLeft(NatToString(n), width)
  }

  /** The value of a string of decimal digits. */
  function ParseNat(s: string): nat
    requires AllDigits(s)
  {
    if s == [] then 0 else 10 * ParseNat(s[..|s| - 1]) + (s[|s| - 1] as int - 48)
  }

  lemma {:induction false} ParseNatToString(n: nat)
    ensures ParseNat(NatToString(n)) == n
  {
    if n >= 10 {
      var s := NatToString(n);
      ParseNatToString(n / 10);
      assert s[..|s| - 1] == NatToString(n / 10);
    }
  }

  lemma {:induction false} ParseNatAllZeros(z: nat)
    ensures ParseNat(Zeros(z)) == 0
  {
    if z > 0 {
      ParseNatAllZeros(z - 1);
      assert Zeros(z)[..z - 1] == Zeros(z - 1);
    }
  }

  /** Leading zeros do not change the value of a digit string. */
  lemma {:induction false} ParseNatZeros(z: nat, s: string)
    requires AllDigits(s)
    ensures AllDigits(Zeros(z) + s)
    ensures ParseNat(Zeros(z) + s) == ParseNat(s)
    decreases |s|
  {
    var t := Zeros(z) + s;
    assert forall k :: 0 <= k < |t| ==> t[k] == if k < z then '0' else s[k - z];
    if s == [] {
      ParseNatAllZeros(z);
      assert t == Zeros(z);
    } else {
      ParseNatZeros(z, s[..|s| - 1]);
      assert t[..|t| - 1] == Zeros(z) + s[..|s| - 1];
    }
  }

  function Pow10(k: nat): (p: nat)
    ensures p >= 1
  {
    if k == 0 then 1 else 10 * Pow10(k - 1)
  }

  lemma {:induction false} NatToStringShort(n: nat, width: nat)
    requires width >= 1 && n < Pow10(width)
    ensures |NatToString(n)| <= width
  {
    if n >= 10 {
      assert width >= 2;
      NatToStringShort(n / 10, width - 1);
    }
  }

  /**
   * A non-negative field below 10^width is written in exactly width digits, and
   * reading them back gives the value.
   */
  lemma ZeroPadRoundTrip(n: nat, width: nat)
    requires width >= 1 && n < Pow10(width)
    ensures |ZeroPad(n, width)| == width
    ensures AllDigits(ZeroPad(n, width))
    ensures ParseNat(ZeroPad(n, width)) == n
  {
    var s := NatToString(n);
    NatToStringShort(n, width);
    ParseNatToString(n);
    if |s| < width {
      ParseNatZeros(width - |s|, s);
    }
  }

  // ---------------------------------------------------------------------------
  // Calendar

  predicate Leap(y: int)
  {
    (y % 4 == 0 && y % 100 != 0) || y % 400 == 0
  }

  function DaysInMonth(y: int, m: int): (n: int)
    requires 1 <= m <= 12
    ensures 28 <= n <= 31
  {
    if m == 2 then (if Leap(y) then 29 else 28)
    else if m == 4 || m == 6 || m == 9 || m == 11 then 30
    else 31
  }

  /** A date datetime accepts: years 1 to 9999, months 1 to 12, days within the month. */
  predicate ValidDate(y: int, m: int, d: int)
  {
    1 <= y <= 9999 && 1 <= m <= 12 && 1 <= d <= DaysInMonth(y, m)
  }

  /** The days of the months before month m. */
  function DaysBefore(y: int, m: int): int
    requires 1 <= m <= 13
  {
    if m == 1 then 0 else DaysBefore(y, m - 1) + DaysInMonth(y, m - 1)
  }

  /** The day of the year, counting 1 January as day 1 (strftime %j). */
  function DayOfYear(y: int, m: int, d: int): int
    requires ValidDate(y, m, d)
  {
    DaysBefore(y, m) + d
  }

  lemma YearLength(y: int)
    ensures DaysBefore(y, 13) == if Leap(y) then 366 else 365
  {
    assert DaysBefore(y, 2) == 31;
    assert DaysBefore(y, 3) == 31 + DaysInMonth(y, 2);
    assert DaysBefore(y, 4) == 62 + DaysInMonth(y, 2);
    assert DaysBefore(y, 5) == 92 + DaysInMonth(y, 2);
    assert DaysBefore(y, 6) == 123 + DaysInMonth(y, 2);
    assert DaysBefore(y, 7) == 153 + DaysInMonth(y, 2);
    assert DaysBefore(y, 8) == 184 + DaysInMonth(y, 2);
    assert DaysBefore(y, 9) == 215 + DaysInMonth(y, 2);
    assert DaysBefore(y, 10) == 245 + DaysInMonth(y, 2);
    assert DaysBefore(y, 11) == 276 + DaysInMonth(y, 2);
    assert DaysBefore(y, 12) == 306 + DaysInMonth(y, 2);
  }

  lemma {:induction false} DaysBeforeNonNegative(y: int, m: int)
    requires 1 <= m <= 13
    ensures DaysBefore(y, m) >= 0
  {
    if m > 1 {
      DaysBeforeNonNegative(y, m - 1);
    }
  }

  lemma {:induction false} MonthInYear(y: int, m: int)
    requires 1 <= m <= 12
    ensures DaysBefore(y, m) + DaysInMonth(y, m) <= DaysBefore(y, 13)
    decreases 13 - m
  {
    if m < 12 {
      MonthInYear(y, m + 1);
    }
  }

  /** Day-of-year of a valid date runs from 1 to 365, or 366 in a leap year. */
  lemma DayOfYearRange(y: int, m: int, d: int)
    requires ValidDate(y, m, d)
    ensures 1 <= DayOfYear(y, m, d) <= (if Leap(y) then 366 else 365)
  {
    DaysBeforeNonNegative(y, m);
    MonthInYear(y, m);
    YearLength(y);
  }

  /** The first day of the 8-day period holding day-of-year doy: periods start on days 1, 9, 17, ... */
  function NearestEightDay(doy: int): int
  {
    1 + 8 * ((doy - 1) / 8)
  }

  /** The period's first day is at most doy, at most seven days earlier, and is 1 modulo 8. */
  lemma EightDayPeriod(doy: int)
    ensures NearestEightDay(doy) <= doy <= NearestEightDay(doy) + 7
    ensures NearestEightDay(doy) % 8 == 1
  {
  }

  /** Within a year the periods start on days 1 to 361. */
  lemma EightDayInYear(doy: int)
    requires 1 <= doy <= 366
    ensures 1 <= NearestEightDay(doy) <= 361
  {
    var q := (doy - 1) / 8;
    assert 0 <= q <= 45;
  }

  // ---------------------------------------------------------------------------
  // URLs

  /** Index of the last occurrence of c in s, or -1. */
  function LastIndexOf(s: string, c: char): (i: int)
    ensures -1 <= i < |s|
    ensures i >= 0 ==> s[i] == c
    ensures forall k :: i < k < |s| ==> s[k] != c
  {
    if s == [] then -1 else if s[|s| - 1] == c then |s| - 1 else LastIndexOf(s[..|s| - 1], c)
  }

  /**
   * urljoin for a relative reference made of plain path segments: the reference
   * replaces whatever follows the last '/' of the base.
   */
  function UrlJoin(base: string, rel: string): string
  {
    base[..LastIndexOf(base, '/') + 1] + rel
  }

  /** On a base ending in '/', urljoin appends. */
  lemma UrlJoinAppends(base: string, rel: string)
    requires EndsWith(base, "/")
    ensures UrlJoin(base, rel) == base + rel
  {
    assert base[|base| - 1] == '/';
  }

  /** s cut at every sep (str.split with a one-character separator). */
  function Split(s: string, sep: char): (parts: seq<string>)
    ensures |parts| >= 1
    ensures forall i, k :: 0 <= i < |parts| && 0 <= k < |parts[i]| ==> parts[i][k] != sep
    decreases |s|
  {
    var i := LastIndexOf(s, sep);
    if i < 0 then [s] else Split(s[..i], sep) + [s[i + 1..]]
  }

  /** The parts joined with sep in between (sep.join). */
  function JoinWith(parts: seq<string>, sep: char): string
  {
    if parts == [] then "" else if |parts| == 1 then parts[0]
    else JoinWith(parts[..|parts| - 1], sep) + [sep] + parts[|parts| - 1]
  }

  /** Splitting and joining back gives the string. */
  lemma {:induction false} SplitJoin(s: string, sep: char)
    ensures JoinWith(Split(s, sep), sep) == s
    decreases |s|
  {
    var i := LastIndexOf(s, sep);
    if i >= 0 {
      var parts := Split(s, sep);
      SplitJoin(s[..i], sep);
      assert parts[..|parts| - 1] == Split(s[..i], sep);
      assert s == s[..i] + [sep] + s[i + 1..];
    }
  }

  /** The last part of a split is the text after the last separator. */
  lemma SplitLast(a: string, b: string, sep: char)
    requires forall k :: 0 <= k < |b| ==> b[k] != sep
    ensures Split(a + [sep] + b, sep) == Split(a, sep) + [b]
  {
    var s := a + [sep] + b;
    assert s[|a|] == sep;
    assert s[..|a|] == a;
    assert s[|a| + 1..] == b;
  }

  const GESDISC_DOWNLOAD_URL: string := "https://oco2.gesdisc.eosdis.nasa.gov/data/"

  /** The archive directory of a dataset: OCO-2 products by their name, everything else OCO-3. */
  function DataDir(dataset: string): (d: string)
    ensures d == "OCO2_DATA" <==> StartsWith(dataset, "OCO2")
    ensures d == "OCO3_DATA" <==> !StartsWith(dataset, "OCO2")
  {
    if StartsWith(dataset, "OCO2") then "OCO2_DATA" else "OCO3_DATA"
  }

  /**
   * _opendap_to_archive_url: the data portal URL of the file an OpenDAP URL names, taking
   * the year directory and the file name from its last two '/'-parts.  Fails like the
   * source (an index error) when the URL has no '/'.
   */
  function ArchiveUrl(dataset: string, url: string): (r: Result<string>)
    ensures r.Failure? <==> forall k :: 0 <= k < |url| ==> url[k] != '/'
  {
    var parts := Split(url, '/');
    if LastIndexOf(url, '/') < 0 then Failure("list index out of range")
    else
      assert |parts| >= 2;
      Success(UrlJoin(GESDISC_DOWNLOAD_URL,
        DataDir(dataset) + "/" + dataset + "/" + parts[|parts| - 2] + "/" + parts[|parts| - 1]))
  }

  /** An OpenDAP URL .../year/file becomes data/<archive dir>/<dataset>/year/file. */
  lemma ArchiveUrlPath(dataset: string, prefix: string, year: string, file: string)
    requires forall k :: 0 <= k < |year| ==> year[k] != '/'
    requires forall k :: 0 <= k < |file| ==> file[k] != '/'
    ensures ArchiveUrl(dataset, prefix + "/" + year + "/" + file) ==
      Success(GESDISC_DOWNLOAD_URL + (DataDir(dataset) + "/" + dataset + "/" + year + "/" + file))
  {
    var a := prefix + "/" + year;
    var url := a + "/" + file;
    assert a == prefix + ['/'] + year;
    SplitLast(prefix, year, '/');
    assert url == a + ['/'] + file;
    SplitLast(a, file, '/');
    assert url[|a|] == '/';
    var rest := DataDir(dataset) + "/" + dataset + "/" + year + "/" + file;
    UrlJoinAppends(GESDISC_DOWNLOAD_URL, rest);
  }

  // ---------------------------------------------------------------------------
  // The UNH GOSIF store

  /** Python's `x or 1` on an integer: 0 reads as 1. */
  function OrOne(x: int): int
  {
    if x == 0 then 1 else x
  }

  /** A month and a day given together must form a calendar date (datetime raises otherwise). */
  predicate RequestValid(year: int, month: Option<int>, day: Option<int>)
  {
    month.Some? && day.Some? ==> ValidDate(year, OrOne(month.value), OrOne(day.value))
  }

  /**
   * The product directory and file name of a request: Annual/ with neither month nor
   * day, Monthly/ with a month only (".M" and two month digits), 8day/ with a day (three
   * digits naming the first day of the 8-day period; a day alone is a day-of-year, a day
   * with a month a calendar date).
   */
  function ProductPath(name: string, year: int, month: Option<int>, day: Option<int>): (p: (string, string))
    requires RequestValid(year, month, day)
    ensures p.0 == "Annual/" <==> month.None? && day.None?
    ensures p.0 == "Monthly/" <==> month.Some? && day.None?
    ensures p.0 == "8day/" <==> day.Some?
    ensures StartsWith(p.1, name + "_" + IntToString(year)) && EndsWith(p.1, ".tif.gz")
  {
    var stem := name + "_" + IntToString(year);
    var stamp :=
      match (month, day)
      case (None, None) => ""
      case (Some(m), None) => ".M" + ZeroPad(m, 2)
      case (None, Some(d)) => ZeroPad(NearestEightDay(d), 3)
      case (Some(m), Some(d)) => ZeroPad(NearestEightDay(DayOfYear(year, OrOne(m), OrOne(d))), 3);
    var dir := if day.Some? then "8day/" else if month.Some? then "Monthly/" else "Annual/";
    var file := stem + stamp + ".tif.gz";
    assert file[..|stem|] == stem;
    assert file[|file| - 7..] == ".tif.gz";
    (dir, file)
  }

  /**
   * construct_unh_url: the dataset directory under the base, the product directory and
   * the file name built from the dataset with every "_v2" removed.  An invalid calendar
   * date fails as datetime does.
   */
  function ConstructUnhUrl(base: string, dataset: string, year: int, month: Option<int>, day: Option<int>): (r: Result<string>)
    ensures r.Failure? <==> !RequestValid(year, month, day)
  {
    if !RequestValid(year, month, day) then Failure("day is out of range for month")
    else
      var p := ProductPath(ReplaceAll(dataset, "_v2", ""), year, month, day);
      Success(UrlJoin(UrlJoin(base, dataset + "/"), p.0 + p.1))
  }

  /** Concatenation regrouped; kept apart so the solver sees it without the URL's context. */
  lemma Regroup(a: string, b: string, c: string, d: string, e: string)
    ensures a + (b + c) + (d + e) == a + b + c + d + e
  {
  }

  /**
   * On a base ending in '/', the URL is the base, the full dataset name as directory,
   * then the product directory and file.
   */
  lemma UnhUrlLayout(base: string, dataset: string, year: int, month: Option<int>, day: Option<int>)
    requires EndsWith(base, "/")
    requires RequestValid(year, month, day)
    ensures var p := ProductPath(ReplaceAll(dataset, "_v2", ""), year, month, day);
      ConstructUnhUrl(base, dataset, year, month, day) == Success(base + dataset + "/" + p.0 + p.1)
  {
    var p := ProductPath(ReplaceAll(dataset, "_v2", ""), year, month, day);
    UrlJoinAppends(base, dataset + "/");
    var dir := base + (dataset + "/");
    assert dir[|dir| - 1..] == "/";
    UrlJoinAppends(dir, p.0 + p.1);
    assert ConstructUnhUrl(base, dataset, year, month, day) == Success(dir + (p.0 + p.1));
    Regroup(base, dataset, "/", p.0, p.1);
  }

  /**
   * The 8-day field of a valid calendar date is three digits naming a period start
   * between 1 and 361 that is at most seven days before the date.
   */
  lemma EightDayField(y: int, m: int, d: int)
    requires ValidDate(y, m, d)
    ensures var n := NearestEightDay(DayOfYear(y, m, d));
      1 <= n <= 361 && n <= DayOfYear(y, m, d) <= n + 7 &&
      |ZeroPad(n, 3)| == 3 && AllDigits(ZeroPad(n, 3)) && ParseNat(ZeroPad(n, 3)) == n
  {
    var doy := DayOfYear(y, m, d);
    DayOfYearRange(y, m, d);
    EightDayPeriod(doy);
    EightDayInYear(doy);
    assert Pow10(3) == 1000 by {
      assert Pow10(1) == 10;
      assert Pow10(2) == 100;
    }
    ZeroPadRoundTrip(NearestEightDay(doy), 3);
  }

  /** A month from 1 to 12 is written in two digits that read back as the month. */
  lemma MonthField(m: int)
    requires 1 <= m <= 12
    ensures |ZeroPad(m, 2)| == 2 && AllDigits(ZeroPad(m, 2)) && ParseNat(ZeroPad(m, 2)) == m
  {
    assert Pow10(2) == 100 by {
      assert Pow10(1) == 10;
    }
    ZeroPadRoundTrip(m, 2);
  }

  /** n lies in 1..361 and is written in three digits that read back as n. */
  predicate ThreeDigits(n: int)
  {
    1 <= n <= 361 && |ZeroPad(n, 3)| == 3 && AllDigits(ZeroPad(n, 3)) && ParseNat(ZeroPad(n, 3)) == n
  }

  /** The day-of-year a request's day names: the day itself alone, the calendar date's with a month. */
  function RequestDayOfYear(year: int, month: Option<int>, d: int): int
    requires RequestValid(year, month, Some(d))
  {
    if month.None? then d else DayOfYear(year, OrOne(month.value), OrOne(d))
  }

  /**
   * The file name of a request is name_year, then the stamp, then .tif.gz.  The stamp is
   * empty for an annual request and ".M" with the month's two digits for a monthly one.
   * With a day it is the first day n of the day's 8-day period (n is 1 modulo 8 and at
   * most seven days before the day), written in three digits that read back as n when
   * the day-of-year lies in 1..366, as it always does with a month.
   */
  lemma ProductFileName(name: string, year: int, month: Option<int>, day: Option<int>)
    requires RequestValid(year, month, day)
    ensures var p := ProductPath(name, year, month, day);
      var stem := name + "_" + IntToString(year);
      && (month.None? && day.None? ==> p.1 == stem + ".tif.gz")
      && (month.Some? && day.None? ==> p.1 == stem + ".M" + ZeroPad(month.value, 2) + ".tif.gz")
      && (month.Some? && day.None? && 1 <= month.value <= 12 ==>
            |ZeroPad(month.value, 2)| == 2 && AllDigits(ZeroPad(month.value, 2)) &&
            ParseNat(ZeroPad(month.value, 2)) == month.value)
      && (day.Some? ==>
            var doy := RequestDayOfYear(year, month, day.value);
            exists n :: p.1 == stem + ZeroPad(n, 3) + ".tif.gz" && n % 8 == 1 && n <= doy <= n + 7 &&
              (1 <= doy <= 366 ==> ThreeDigits(n)))
    ensures month.Some? && day.Some? ==> 1 <= RequestDayOfYear(year, month, day.value) <= 366
  {
    if month.Some? && day.None? && 1 <= month.value <= 12 {
      MonthField(month.value);
    }
    if day.Some? {
      var doy := RequestDayOfYear(year, month, day.value);
      var n := NearestEightDay(doy);
      EightDayPeriod(doy);
      if month.Some? {
        DayOfYearRange(year, OrOne(month.value), OrOne(day.value));
      }
      if 1 <= doy <= 366 {
        EightDayInYear(doy);
        assert Pow10(3) == 1000 by {
          assert Pow10(1) == 10;
          assert Pow10(2) == 100;
        }
        ZeroPadRoundTrip(n, 3);
      }
      assert ProductPath(name, year, month, day).1 == name + "_" + IntToString(year) + ZeroPad(n, 3) + ".tif.gz";
    }
  }

  /** A prefix free of pat's first character is copied unchanged. */
  lemma {:induction false} ReplaceAllPrefix(a: string, t: string, pat: string, rep: string)
    requires |pat| > 0 && pat[0] !in a
    ensures ReplaceAll(a + t, pat, rep) == a + ReplaceAll(t, pat, rep)
    decreases |a|
  {
    if a != [] {
      ReplaceAllPrefix(a[1..], t, pat, rep);
      assert a + t == [a[0]] + (a[1..] + t);
      ReplaceAllSkip(a[0], a[1..] + t, pat, rep);
      assert [a[0]] + (a[1..] + ReplaceAll(t, pat, rep)) == a + ReplaceAll(t, pat, rep);
    } else {
      assert a + t == t;
      assert a + ReplaceAll(t, pat, rep) == ReplaceAll(t, pat, rep);
    }
  }

  /** The store names GOSIF_v2 files GOSIF_... */
  lemma GosifFileName()
    ensures ReplaceAll("GOSIF_v2", "_v2", "") == "GOSIF"
  {
    var a, pat := "GOSIF", "_v2";
    ReplaceAllPrefix(a, pat, pat, "");
    assert pat[3..] == [];
    assert a + pat == "GOSIF_v2";
  }

  // ---------------------------------------------------------------------------
  // Time-range downloads

  /** A file the year's directory lists, with the date its name encodes when it names a granule. */
  datatype Entry = Entry(url: string, date: Option<int>)

  /** What a time-range download collected before the download step. */
  datatype Plan = Plan(requested: seq<int>, granules: seq<(int, string)>, notFound: set<int>)

  /** The distinct years of the dates, in the order they first appear. */
  function YearsInOrder(dates: seq<int>, yearOf: int -> int): seq<int>
  {
    if dates == [] then []
    else
      var init := YearsInOrder(dates[..|dates| - 1], yearOf);
      var y := yearOf(dates[|dates| - 1]);
      if y in init then init else init + [y]
  }

  /** The dates of year y, in their order. */
  function Bucket(dates: seq<int>, yearOf: int -> int, y: int): seq<int>
  {
    if dates == [] then []
    else
      var last := dates[|dates| - 1];
      Bucket(dates[..|dates| - 1], yearOf, y) + (if yearOf(last) == y then [last] else [])
  }

  /** Some date falls in year y. */
  predicate HasYear(dates: seq<int>, yearOf: int -> int, y: int)
  {
    exists k :: 0 <= k < |dates| && yearOf(dates[k]) == y
  }

  /** The years listed are distinct, and they are exactly the years of the dates. */
  lemma {:induction false} YearsInOrderKeys(dates: seq<int>, yearOf: int -> int)
    ensures var ys := YearsInOrder(dates, yearOf); forall i, j :: 0 <= i < j < |ys| ==> ys[i] != ys[j]
    ensures forall y :: y in YearsInOrder(dates, yearOf) <==> HasYear(dates, yearOf, y)
  {
    if dates != [] {
      var init := dates[..|dates| - 1];
      var last := dates[|dates| - 1];
      YearsInOrderKeys(init, yearOf);
      assert dates == init + [last];
      YearsSnoc(init, last, yearOf);
      forall y
        ensures HasYear(dates, yearOf, y) <==> HasYear(init, yearOf, y) || yearOf(last) == y
      {
        if yearOf(last) == y {
          assert dates[|dates| - 1] == last;
        }
        if HasYear(dates, yearOf, y) {
          var k :| 0 <= k < |dates| && yearOf(dates[k]) == y;
          if k < |init| {
            assert init[k] == dates[k];
          }
        }
        if HasYear(init, yearOf, y) {
          var k :| 0 <= k < |init| && yearOf(init[k]) == y;
          assert dates[k] == init[k];
        }
      }
    }
  }

  /** The bucket of year y holds exactly the dates of that year. */
  lemma {:induction false} BucketMembers(dates: seq<int>, yearOf: int -> int, y: int)
    ensures forall d :: d in Bucket(dates, yearOf, y) <==> d in dates && yearOf(d) == y
  {
    if dates != [] {
      var last := dates[|dates| - 1];
      assert dates == dates[..|dates| - 1] + [last];
      BucketMembers(dates[..|dates| - 1], yearOf, y);
    }
  }

  lemma YearsSnoc(init: seq<int>, x: int, yearOf: int -> int)
    ensures YearsInOrder(init + [x], yearOf) ==
      if yearOf(x) in YearsInOrder(init, yearOf) then YearsInOrder(init, yearOf)
      else YearsInOrder(init, yearOf) + [yearOf(x)]
  {
    assert (init + [x])[..|init|] == init;
  }

  lemma BucketSnoc(init: seq<int>, x: int, yearOf: int -> int, y: int)
    ensures Bucket(init + [x], yearOf, y) == Bucket(init, yearOf, y) + (if yearOf(x) == y then [x] else [])
  {
    assert (init + [x])[..|init|] == init;
  }

  /** A year none of the dates fall in has an empty bucket. */
  lemma {:induction false} BucketEmpty(dates: seq<int>, yearOf: int -> int, y: int)
    requires y !in YearsInOrder(dates, yearOf)
    ensures Bucket(dates, yearOf, y) == []
  {
    if dates != [] {
      var init := dates[..|dates| - 1];
      assert dates == init + [dates[|dates| - 1]];
      YearsSnoc(init, dates[|dates| - 1], yearOf);
      BucketSnoc(init, dates[|dates| - 1], yearOf, y);
      BucketEmpty(init, yearOf, y);
    }
  }

  /** Buckets keep the order of the dates: increasing dates give increasing buckets. */
  lemma {:induction false} BucketIncreasing(dates: seq<int>, yearOf: int -> int, y: int)
    requires forall i, j :: 0 <= i < j < |dates| ==> dates[i] < dates[j]
    ensures var b := Bucket(dates, yearOf, y); forall i, j :: 0 <= i < j < |b| ==> b[i] < b[j]
  {
    if dates != [] {
      var init := dates[..|dates| - 1];
      var last := dates[|dates| - 1];
      assert dates == init + [last];
      BucketIncreasing(init, yearOf, y);
      BucketSnoc(init, last, yearOf, y);
      BucketMembers(init, yearOf, y);
      var b0 := Bucket(init, yearOf, y);
      forall i | 0 <= i < |b0|
        ensures b0[i] < last
      {
        assert b0[i] in b0;
        var k :| 0 <= k < |init| && init[k] == b0[i];
        assert dates[k] == init[k];
      }
    }
  }

  /** The buckets of the years ys one after the other. */
  function Gather(ys: seq<int>, dates: seq<int>, yearOf: int -> int): seq<int>
  {
    if ys == [] then [] else Gather(ys[..|ys| - 1], dates, yearOf) + Bucket(dates, yearOf, ys[|ys| - 1])
  }

  /** The dates of all buckets, as all_requested_dates collects them. */
  function Requested(dates: seq<int>, yearOf: int -> int): seq<int>
  {
    Gather(YearsInOrder(dates, yearOf), dates, yearOf)
  }

  lemma GatherSnoc(ys: seq<int>, y: int, dates: seq<int>, yearOf: int -> int)
    ensures Gather(ys + [y], dates, yearOf) == Gather(ys, dates, yearOf) + Bucket(dates, yearOf, y)
  {
    assert (ys + [y])[..|ys|] == ys;
  }

  /** Buckets of years other than that of the new date do not change. */
  lemma {:induction false} GatherUnaffected(ys: seq<int>, init: seq<int>, last: int, yearOf: int -> int)
    requires yearOf(last) !in ys
    ensures Gather(ys, init + [last], yearOf) == Gather(ys, init, yearOf)
  {
    if ys != [] {
      GatherUnaffected(ys[..|ys| - 1], init, last, yearOf);
      BucketSnoc(init, last, yearOf, ys[|ys| - 1]);
    }
  }

  /** The new date's bucket, listed once among ys, gains exactly that date. */
  lemma {:induction false} GatherGrows(ys: seq<int>, init: seq<int>, last: int, yearOf: int -> int)
    requires forall i, j :: 0 <= i < j < |ys| ==> ys[i] != ys[j]
    requires yearOf(last) in ys
    ensures multiset(Gather(ys, init + [last], yearOf)) == multiset(Gather(ys, init, yearOf)) + multiset{last}
  {
    var prefix := ys[..|ys| - 1];
    var y := ys[|ys| - 1];
    BucketSnoc(init, last, yearOf, y);
    if y == yearOf(last) {
      assert yearOf(last) !in prefix;
      GatherUnaffected(prefix, init, last, yearOf);
    } else {
      assert yearOf(last) in prefix;
      GatherGrows(prefix, init, last, yearOf);
    }
  }

  /** Every date lands in its year's bucket and in no other, so the buckets together hold each date once. */
  lemma {:induction false} RequestedIsPermutation(dates: seq<int>, yearOf: int -> int)
    ensures multiset(Requested(dates, yearOf)) == multiset(dates)
  {
    if dates != [] {
      var init := dates[..|dates| - 1];
      var last := dates[|dates| - 1];
      var ys := YearsInOrder(init, yearOf);
      assert dates == init + [last];
      RequestedIsPermutation(init, yearOf);
      YearsSnoc(init, last, yearOf);
      if yearOf(last) in ys {
        YearsInOrderKeys(init, yearOf);
        GatherGrows(ys, init, last, yearOf);
      } else {
        GatherSnoc(ys, yearOf(last), dates, yearOf);
        GatherUnaffected(ys, init, last, yearOf);
        BucketSnoc(init, last, yearOf, yearOf(last));
        BucketEmpty(init, yearOf, yearOf(last));
      }
    }
  }

  /** With years that never decrease, the year of the last date is the last year listed. */
  lemma {:induction false} YearsLast(dates: seq<int>, yearOf: int -> int, y: int)
    requires forall i, j :: 0 <= i < j < |dates| ==> yearOf(dates[i]) <= yearOf(dates[j])
    requires y in YearsInOrder(dates, yearOf)
    requires forall k :: 0 <= k < |dates| ==> yearOf(dates[k]) <= y
    ensures YearsInOrder(dates, yearOf)[|YearsInOrder(dates, yearOf)| - 1] == y
  {
    var init := dates[..|dates| - 1];
    var last := dates[|dates| - 1];
    YearsInOrderKeys(dates, yearOf);
    var k :| 0 <= k < |dates| && yearOf(dates[k]) == y;
    assert yearOf(last) == y;
    assert dates == init + [last];
    YearsSnoc(init, last, yearOf);
    if y in YearsInOrder(init, yearOf) {
      YearsLast(init, yearOf, y);
    }
  }

  /** The requested dates come out in their own order when the year never decreases along them. */
  lemma {:induction false} RequestedInOrder(dates: seq<int>, yearOf: int -> int)
    requires forall i, j :: 0 <= i < j < |dates| ==> yearOf(dates[i]) <= yearOf(dates[j])
    ensures Requested(dates, yearOf) == dates
  {
    if dates != [] {
      var init := dates[..|dates| - 1];
      var last := dates[|dates| - 1];
      var ys := YearsInOrder(init, yearOf);
      var y := yearOf(last);
      assert dates == init + [last];
      RequestedInOrder(init, yearOf);
      YearsSnoc(init, last, yearOf);
      BucketSnoc(init, last, yearOf, y);
      if y in ys {
        YearsLast(init, yearOf, y);
        YearsInOrderKeys(init, yearOf);
        var prefix := ys[..|ys| - 1];
        assert ys == prefix + [y];
        assert y !in prefix;
        GatherSnoc(prefix, y, dates, yearOf);
        GatherSnoc(prefix, y, init, yearOf);
        GatherUnaffected(prefix, init, last, yearOf);
      } else {
        GatherSnoc(ys, y, dates, yearOf);
        GatherUnaffected(ys, init, last, yearOf);
        BucketEmpty(init, yearOf, y);
      }
    }
  }

  /** The granules one year's listing yields: those dated in the year's bucket, as archive URLs. */
  function CollectYear(entries: seq<Entry>, bucket: seq<int>, dataset: string): Result<seq<(int, string)>>
  {
    if entries == [] then Success([])
    else
      match CollectYear(entries[..|entries| - 1], bucket, dataset)
      case Failure(e) => Failure(e)
      case Success(acc) =>
        var en := entries[|entries| - 1];
        if en.date.Some? && en.date.value in bucket then
          match ArchiveUrl(dataset, GranuleUrl(en.url))
          case Failure(e) => Failure(e)
          case Success(u) => Success(acc + [(en.date.value, u)])
        else Success(acc)
  }

  /** The granules of the years in order; a year whose listing fails is skipped. */
  function Collect(years: seq<int>, dates: seq<int>, yearOf: int -> int, listing: int -> Option<seq<Entry>>, dataset: string)
    : Result<seq<(int, string)>>
  {
    if years == [] then Success([])
    else
      match Collect(years[..|years| - 1], dates, yearOf, listing, dataset)
      case Failure(e) => Failure(e)
      case Success(acc) =>
        var y := years[|years| - 1];
        match listing(y)
        case None => Success(acc)
        case Some(entries) =>
          match CollectYear(entries, Bucket(dates, yearOf, y), dataset)
          case Failure(e) => Failure(e)
          case Success(g) => Success(acc + g)
  }

  /** The dates of the collected granules. */
  function FoundDates(granules: seq<(int, string)>): set<int>
  {
    set k | 0 <= k < |granules| :: granules[k].0
  }

  /** Every granule is dated on one of the dates ds. */
  predicate DatedIn(granules: seq<(int, string)>, ds: seq<int>)
  {
    forall k :: 0 <= k < |granules| ==> granules[k].0 in ds
  }

  lemma DatedInAppend(a: seq<(int, string)>, b: seq<(int, string)>, ds: seq<int>)
    requires DatedIn(a, ds) && DatedIn(b, ds)
    ensures DatedIn(a + b, ds)
  {
    forall k | 0 <= k < |a + b|
      ensures (a + b)[k].0 in ds
    {
      if k < |a| {
        assert (a + b)[k] == a[k];
      } else {
        assert (a + b)[k] == b[k - |a|];
      }
    }
  }

  /** A collected granule's date is one of the year's dates. */
  lemma {:induction false} CollectYearDates(entries: seq<Entry>, bucket: seq<int>, dataset: string)
    requires CollectYear(entries, bucket, dataset).Success?
    ensures DatedIn(CollectYear(entries, bucket, dataset).value, bucket)
  {
    if entries != [] {
      CollectYearDates(entries[..|entries| - 1], bucket, dataset);
      var acc := CollectYear(entries[..|entries| - 1], bucket, dataset).value;
      var en := entries[|entries| - 1];
      if en.date.Some? && en.date.value in bucket {
        DatedInAppend(acc, [(en.date.value, ArchiveUrl(dataset, GranuleUrl(en.url)).value)], bucket);
      }
    }
  }

  /** Granules dated in one year's bucket are dated on one of the dates. */
  lemma BucketDated(g: seq<(int, string)>, dates: seq<int>, yearOf: int -> int, y: int)
    requires DatedIn(g, Bucket(dates, yearOf, y))
    ensures DatedIn(g, dates)
  {
    forall k | 0 <= k < |g|
      ensures g[k].0 in dates
    {
      var d := g[k].0;
      assert d in Bucket(dates, yearOf, y);
      BucketMembers(dates, yearOf, y);
      assert d in dates;
    }
  }

  /** Every collected granule is dated on one of the dates. */
  lemma {:induction false} CollectDates(years: seq<int>, dates: seq<int>, yearOf: int -> int,
                                         listing: int -> Option<seq<Entry>>, dataset: string)
    requires Collect(years, dates, yearOf, listing, dataset).Success?
    ensures DatedIn(Collect(years, dates, yearOf, listing, dataset).value, dates)
  {
    if years != [] {
      var y := years[|years| - 1];
      CollectDates(years[..|years| - 1], dates, yearOf, listing, dataset);
      if listing(y).Some? {
        var acc := Collect(years[..|years| - 1], dates, yearOf, listing, dataset).value;
        var g := CollectYear(listing(y).value, Bucket(dates, yearOf, y), dataset).value;
        CollectYearDates(listing(y).value, Bucket(dates, yearOf, y), dataset);
        BucketDated(g, dates, yearOf, y);
        DatedInAppend(acc, g, dates);
      }
    }
  }

  /** The outcome of a time-range download up to the download step. */
  function TimerangeSpec(dataset: string, start: int, end: int, yearOf: int -> int,
                         listing: int -> Option<seq<Entry>>): Result<Plan>
  {
    if start > end then Failure("start date is after the end date of requested time range")
    else
      var dates := seq(end - start + 1, k => start + k);
      match Collect(YearsInOrder(dates, yearOf), dates, yearOf, listing, dataset)
      case Failure(e) => Failure(e)
      case Success(g) =>
        var requested := Requested(dates, yearOf);
        Success(Plan(requested, g, (set d | d in requested) - FoundDates(g)))
  }

  /**
   * A reversed range fails.  Otherwise the requested dates are exactly start..end, each
   * once; the not-found dates are the requested days without a collected granule; and
   * every collected granule is dated on a requested day.
   */
  lemma TimerangePlan(dataset: string, start: int, end: int, yearOf: int -> int, listing: int -> Option<seq<Entry>>)
    ensures start > end ==> TimerangeSpec(dataset, start, end, yearOf, listing).Failure?
    ensures TimerangeSpec(dataset, start, end, yearOf, listing).Success? ==>
      var p := TimerangeSpec(dataset, start, end, yearOf, listing).value;
      multiset(p.requested) == multiset(seq(end - start + 1, k => start + k)) &&
      (forall d :: d in p.notFound <==> start <= d <= end && d !in FoundDates(p.granules)) &&
      (forall k :: 0 <= k < |p.granules| ==> start <= p.granules[k].0 <= end)
  {
    if TimerangeSpec(dataset, start, end, yearOf, listing).Success? {
      var dates := seq(end - start + 1, k => start + k);
      var p := TimerangeSpec(dataset, start, end, yearOf, listing).value;
      RequestedIsPermutation(dates, yearOf);
      CollectDates(YearsInOrder(dates, yearOf), dates, yearOf, listing, dataset);
      forall d
        ensures d in p.notFound <==> start <= d <= end && d !in FoundDates(p.granules)
      {
        assert d in p.requested <==> d in multiset(dates);
        if start <= d <= end {
          assert dates[d - start] == d;
        }
      }
    }
  }

  /** Group the dates by year (dict.setdefault(year, []).append(date)), keys in first-appearance order. */
  method GroupByYear(dates: seq<int>, yearOf: int -> int) returns (years: seq<int>, buckets: map<int, seq<int>>)
    ensures years == YearsInOrder(dates, yearOf)
    ensures forall y :: y in buckets <==> y in years
    ensures forall y :: y in years ==> buckets[y] == Bucket(dates, yearOf, y)
  {
    years, buckets := [], map[];
    for i := 0 to |dates|
      invariant years == YearsInOrder(dates[..i], yearOf)
      invariant forall y :: y in buckets <==> y in years
      invariant forall y :: y in years ==> buckets[y] == Bucket(dates[..i], yearOf, y)
    {
      assert dates[..i + 1] == dates[..i] + [dates[i]];
      YearsSnoc(dates[..i], dates[i], yearOf);
      forall y {
        BucketSnoc(dates[..i], dates[i], yearOf, y);
      }
      var y := yearOf(dates[i]);
      if y in buckets {
        buckets := buckets[y := buckets[y] + [dates[i]]];
      } else {
        BucketEmpty(dates[..i], yearOf, y);
        years := years + [y];
        buckets := buckets[y := [dates[i]]];
      }
    }
    assert dates[..|dates|] == dates;
  }

  /** One year's listing: keep the entries dated in the bucket, as archive URLs. */
  method CollectYearLoop(entries: seq<Entry>, bucket: seq<int>, dataset: string) returns (r: Result<seq<(int, string)>>)
    ensures r == CollectYear(entries, bucket, dataset)
  {
    var acc: seq<(int, string)> := [];
    for j := 0 to |entries|
      invariant CollectYear(entries[..j], bucket, dataset) == Success(acc)
    {
      assert entries[..j + 1][..j] == entries[..j];
      var en := entries[j];
      if en.date.Some? && en.date.value in bucket {
        var u := ArchiveUrl(dataset, GranuleUrl(en.url));
        if u.Failure? {
          FailureSticks(entries, bucket, dataset, j + 1);
          return Failure(u.error);
        }
        acc := acc + [(en.date.value, u.value)];
      }
    }
    assert entries[..|entries|] == entries;
    r := Success(acc);
  }

  /** Once a prefix of the listing fails, the whole listing fails the same way. */
  lemma {:induction false} FailureSticks(entries: seq<Entry>, bucket: seq<int>, dataset: string, j: int)
    requires 0 <= j <= |entries| && CollectYear(entries[..j], bucket, dataset).Failure?
    ensures CollectYear(entries, bucket, dataset) == CollectYear(entries[..j], bucket, dataset)
    decreases |entries| - j
  {
    if j < |entries| {
      assert entries[..j + 1][..j] == entries[..j];
      FailureSticks(entries, bucket, dataset, j + 1);
    } else {
      assert entries[..j] == entries;
    }
  }

  /** Once a prefix of the years fails, the whole collection fails the same way. */
  lemma {:induction false} CollectFailureSticks(years: seq<int>, dates: seq<int>, yearOf: int -> int,
                                                 listing: int -> Option<seq<Entry>>, dataset: string, i: int)
    requires 0 <= i <= |years| && Collect(years[..i], dates, yearOf, listing, dataset).Failure?
    ensures Collect(years, dates, yearOf, listing, dataset) == Collect(years[..i], dates, yearOf, listing, dataset)
    decreases |years| - i
  {
    if i < |years| {
      assert years[..i + 1][..i] == years[..i];
      CollectFailureSticks(years, dates, yearOf, listing, dataset, i + 1);
    } else {
      assert years[..i] == years;
    }
  }

  /**
   * The per-year loop: extend the requested dates with the year's bucket, then collect
   * the year's granules from its listing, skipping a year whose listing fails.
   */
  method CollectYears(years: seq<int>, buckets: map<int, seq<int>>, dates: seq<int>, yearOf: int -> int,
                      listing: int -> Option<seq<Entry>>, dataset: string)
    returns (requested: seq<int>, r: Result<seq<(int, string)>>)
    requires forall y :: y in years ==> y in buckets && buckets[y] == Bucket(dates, yearOf, y)
    ensures r == Collect(years, dates, yearOf, listing, dataset)
    ensures r.Success? ==> requested == Gather(years, dates, yearOf)
  {
    requested := [];
    var granules: seq<(int, string)> := [];
    for i := 0 to |years|
      invariant requested == Gather(years[..i], dates, yearOf)
      invariant Collect(years[..i], dates, yearOf, listing, dataset) == Success(granules)
    {
      var y := years[i];
      assert years[..i + 1] == years[..i] + [y];
      assert years[..i + 1][..i] == years[..i];
      GatherSnoc(years[..i], y, dates, yearOf);
      requested := requested + buckets[y];
      var listed := listing(y);
      if listed.Some? {
        var g := CollectYearLoop(listed.value, buckets[y], dataset);
        if g.Failure? {
          CollectFailureSticks(years, dates, yearOf, listing, dataset, i + 1);
          return requested, Failure(g.error);
        }
        granules := granules + g.value;
      }
    }
    assert years[..|years|] == years;
    r := Success(granules);
  }

  /**
   * download_timerange up to the download step: reject a reversed range, list the days,
   * group them by year, collect each year's granules, and report the requested days
   * without a granule.
   */
  method DownloadTimerange(dataset: string, start: int, end: int, yearOf: int -> int,
                           listing: int -> Option<seq<Entry>>) returns (r: Result<Plan>)
    ensures r == TimerangeSpec(dataset, start, end, yearOf, listing)
  {
    if start > end {
      return Failure("start date is after the end date of requested time range");
    }
    var dates := DayLoop.GenerateDates(start, end);
    assert dates == seq(end - start + 1, k => start + k);
    var years, buckets := GroupByYear(dates, yearOf);
    var requested, g := CollectYears(years, buckets, dates, yearOf, listing, dataset);
    if g.Failure? {
      return Failure(g.error);
    }
    r := Success(Plan(requested, g.value, (set d | d in requested) - FoundDates(g.value)));
  }
}
