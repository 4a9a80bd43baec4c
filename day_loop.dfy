/**
 * The driver of the regridding engine (create_gridded_raster and generate_dates):
 * one output time slice per day from the start day to the end day inclusive.  Each
 * day's granule is folded into rasters that start the day at zero, the day's slices
 * are derived from the rasters, and the rasters are zeroed again before the next day.
 *
 * Days are integer day numbers counted from 1970-01-01, so the time written for a
 * day is the day itself.  Fetching a granule is a parameter (source), and the netCDF
 * output is the sequence of per-day slices the loop returns.
 */
module DayLoop {
  import opened Wrappers
  import opened Sampling
  import opened Folds
  import opened Accumulation
  import opened GranuleStep

  /** generate_dates: every day from start to end inclusive, in order, one per day. */
  method GenerateDates(start: int, end: int) returns (dates: seq<int>)
    ensures |dates| == if end < start then 0 else end - start + 1
    ensures forall k :: 0 <= k < |dates| ==> dates[k] == start + k
  {
    dates := [];
    var current := start;
    while current <= end
      invariant current == start + |dates|
      invariant current == start || current <= end + 1
      invariant forall k :: 0 <= k < |dates| ==> dates[k] == start + k
      decreases end - current
    {
      dates := dates + [current];
      current := current + 1;
    }
  }

  // ---------------------------------------------------------------------------
  // Grid centres (np.arange) and rounding (np.round to 6 decimals)

  /** The least integer not below x. */
  function Ceil(x: real): (c: int)
    ensures c as real >= x && (c - 1) as real < x
  {
    -((-x).Floor)
  }

  /** np.arange(start, stop, step) for a positive step: ceil((stop - start) / step) values, or none. */
  function Arange(start: real, stop: real, step: real): (r: seq<real>)
    requires step > 0.0
  {
    var c := Ceil((stop - start) / step);
    seq(if c < 0 then 0 else c, k => start + k as real * step)
  }

  /** k * step < d exactly when k < d / step, for a positive step. */
  lemma BelowQuotient(k: real, d: real, step: real)
    requires step > 0.0
    ensures k * step < d <==> k < d / step
  {
    var q := d / step;
    assert q * step == d;
    assert k * step - d == (k - q) * step;
    if k < q {
      assert (q - k) * step > 0.0;
    } else {
      assert (k - q) * step >= 0.0;
    }
  }

  /** The values of np.arange are exactly the points start + k * step that lie below stop. */
  lemma ArangeIff(start: real, stop: real, step: real, k: nat)
    requires step > 0.0
    ensures k < |Arange(start, stop, step)| <==> start + k as real * step < stop
    ensures k < |Arange(start, stop, step)| ==> Arange(start, stop, step)[k] == start + k as real * step
  {
    BelowQuotient(k as real, stop - start, step);
  }

  /** Cell centres along one axis: np.arange(lo + res / 2, hi - res / 2 + eps, res). */
  function GridCentres(lo: real, hi: real, res: real, eps: real): (c: seq<real>)
    requires res > 0.0
  {
    Arange(lo + res / 2.0, hi - res / 2.0 + eps, res)
  }

  /**
   * On an axis that is a whole number N of cells long, with the tolerance eps below one
   * cell, there are exactly N centres, the k-th in the middle of cell k.
   */
  lemma GridCentresRegular(lo: real, hi: real, res: real, eps: real, N: nat)
    requires res > 0.0 && 0.0 < eps < res && hi - lo == N as real * res
    ensures |GridCentres(lo, hi, res, eps)| == N
    ensures forall k :: 0 <= k < N ==>
      GridCentres(lo, hi, res, eps)[k] == lo + (k as real + 0.5) * res &&
      lo < GridCentres(lo, hi, res, eps)[k] < hi
  {
    CentreCount(lo, hi, res, eps, N);
    forall k | 0 <= k < N
      ensures GridCentres(lo, hi, res, eps)[k] == lo + (k as real + 0.5) * res
      ensures lo < GridCentres(lo, hi, res, eps)[k] < hi
    {
      CentreAt(lo, hi, res, eps, N, k);
      CentreInside(lo, hi, res, N, k);
    }
  }

  /** The number of centres on an axis N cells long. */
  lemma CentreCount(lo: real, hi: real, res: real, eps: real, N: nat)
    requires res > 0.0 && 0.0 < eps < res && hi - lo == N as real * res
    ensures |GridCentres(lo, hi, res, eps)| == N
  {
    var start, stop := lo + res / 2.0, hi - res / 2.0 + eps;
    assert start + N as real * res == hi + res / 2.0;
    ArangeIff(start, stop, res, N);
    if N > 0 {
      assert start + (N - 1) as real * res == hi - res / 2.0;
      ArangeIff(start, stop, res, N - 1);
    }
  }

  /** The k-th centre on an axis that has at least k + 1 of them. */
  lemma CentreAt(lo: real, hi: real, res: real, eps: real, N: nat, k: nat)
    requires res > 0.0 && k < |GridCentres(lo, hi, res, eps)|
    ensures GridCentres(lo, hi, res, eps)[k] == lo + (k as real + 0.5) * res
  {
    var start, stop := lo + res / 2.0, hi - res / 2.0 + eps;
    ArangeIff(start, stop, res, k);
    assert start + k as real * res == lo + (k as real + 0.5) * res;
  }

  /** The centre of cell k of N lies strictly inside the axis. */
  lemma CentreInside(lo: real, hi: real, res: real, N: nat, k: nat)
    requires res > 0.0 && k < N && hi - lo == N as real * res
    ensures lo < lo + (k as real + 0.5) * res < hi
  {
    MulLess(0.0, k as real + 0.5, res);
    MulLess(k as real + 0.5, N as real, res);
  }

  /** Round half to even (the rounding np.round uses). */
  function RoundHalfEven(y: real): (r: int)
    ensures -0.5 <= r as real - y <= 0.5
  {
    var f := y.Floor;
    var d := y - f as real;
    if d < 0.5 then f
    else if d > 0.5 then f + 1
    else if f % 2 == 0 then f else f + 1
  }

  /** np.round(x, 6). */
  function Round6(x: real): real
  {
    RoundHalfEven(x * 1000000.0) as real / 1000000.0
  }

  /** Rounding to six decimals moves a value by at most half a millionth. */
  lemma Round6Close(x: real)
    ensures -0.0000005 <= Round6(x) - x <= 0.0000005
  {
    var r := RoundHalfEven(x * 1000000.0) as real;
    assert Round6(x) - x == (r - x * 1000000.0) / 1000000.0;
  }

  /** A value with at most six decimals is kept as it is. */
  lemma Round6Exact(m: int)
    ensures Round6(m as real / 1000000.0) == m as real / 1000000.0
  {
    assert m as real / 1000000.0 * 1000000.0 == m as real;
    assert RoundHalfEven(m as real) == m;
  }

  // ---------------------------------------------------------------------------
  // One day

  /** What fetching a day's granule gives. */
  datatype Fetch =
    | Found(g: Granule)   // a granule to process
    | NotFound            // FileNotFoundError
    | FetchFailed         // any other error while fetching

  /** What the loop writes for one day. */
  datatype DayOutput =
    | Written(time: int, n: seq<seq<real>>, vars: seq<seq<seq<real>>>)  // weights and one slice per variable
    | ZeroWeight(time: int)                                                // a zero weight slice and the time
    | Unwritten                                                            // nothing at all

  /** Fill value for cells without weight. */
  const FILL: real := -999.0

  /** Weight below which a cell counts as empty. */
  const MIN_WEIGHT: real := 0.0000000001

  /** The weight slice the updates of a day give, indexed [lon][lat]. */
  function WeightSlice(ups: seq<Update>, nLon: nat, nLat: nat): (s: seq<seq<real>>)
  {
    seq(nLon, lo => seq(nLat, la => CellWeight(ups, lo, la)))
  }

  /** Variable z's slice: the weighted average rounded to six decimals, FILL where the weight is below MIN_WEIGHT. */
  function VarSlice(ups: seq<Update>, nLon: nat, nLat: nat, z: int): (s: seq<seq<real>>)
  {
    seq(nLon, lo => seq(nLat, la =>
      if CellWeight(ups, lo, la) < MIN_WEIGHT then FILL else Round6(MeanFromZero(ups, lo, la, z))))
  }

  /** Some cell of the grid received weight. */
  predicate AnyWeight(ups: seq<Update>, nLon: nat, nLat: nat)
  {
    exists lo, la :: 0 <= lo < nLon && 0 <= la < nLat && CellWeight(ups, lo, la) > 0.0
  }

  /**
   * The finalize step once a granule was processed: nothing if the grid is empty (the
   * maximum of an empty raster raises), the zero slice if no cell received weight,
   * otherwise the weights and every variable's slice.
   */
  function Finalized(ups: seq<Update>, nLon: nat, nLat: nat, nVars: nat, day: int): DayOutput
  {
    if nLon == 0 || nLat == 0 then Unwritten
    else if !AnyWeight(ups, nLon, nLat) then ZeroWeight(day)
    else Written(day, WeightSlice(ups, nLon, nLat), seq(nVars, z => VarSlice(ups, nLon, nLat, z)))
  }

  /** The updates a granule contributes: those of the footprints it accumulates, if any. */
  function GranuleUpdates(g: Granule, b: Bounds, filters: seq<Filter>, variables: seq<string>, nLat: nat, nLon: nat): seq<Update>
  {
    var o := Classify(g, b, filters, variables, nLat, nLon);
    if o.Accumulate? then Updates(o.fps, N_GRID) else []
  }

  /** What the loop writes for a day, given what fetching its granule gave. */
  function DaySpec(f: Fetch, day: int, b: Bounds, filters: seq<Filter>, variables: seq<string>, nLat: nat, nLon: nat): DayOutput
  {
    match f
    case FetchFailed => Unwritten
    case NotFound => ZeroWeight(day)
    case Found(g) => Finalized(GranuleUpdates(g, b, filters, variables, nLat, nLon), nLon, nLat, |variables|, day)
  }

  /** A day writes nothing only when fetching failed or the grid is empty, and writes its own time otherwise. */
  lemma DaySpecTime(f: Fetch, day: int, b: Bounds, filters: seq<Filter>, variables: seq<string>, nLat: nat, nLon: nat)
    ensures DaySpec(f, day, b, filters, variables, nLat, nLon).Unwritten? <==>
      f.FetchFailed? || (f.Found? && (nLon == 0 || nLat == 0))
    ensures !DaySpec(f, day, b, filters, variables, nLat, nLon).Unwritten? ==>
      DaySpec(f, day, b, filters, variables, nLat, nLon).time == day
  {
  }

  /**
   * A written day's slices have the grid's shape, its weights are the weights the
   * cells received, and each variable's cell holds the rounded weighted average of
   * its values, or FILL where the weight is below MIN_WEIGHT.
   */
  lemma WrittenSlices(ups: seq<Update>, nLon: nat, nLat: nat, nVars: nat, day: int)
    requires PositiveWeights(ups)
    requires Finalized(ups, nLon, nLat, nVars, day).Written?
    ensures var o := Finalized(ups, nLon, nLat, nVars, day);
      |o.n| == nLon && |o.vars| == nVars &&
      (exists lo, la :: 0 <= lo < nLon && 0 <= la < nLat && o.n[lo][la] > 0.0) &&
      forall lo, la :: 0 <= lo < nLon && 0 <= la < nLat ==>
        o.n[lo][la] >= 0.0 &&
        forall z :: 0 <= z < nVars ==>
          o.vars[z][lo][la] == (if o.n[lo][la] < MIN_WEIGHT then FILL else Round6(CellValueSum(ups, lo, la, z) / o.n[lo][la]))
  {
    var o := Finalized(ups, nLon, nLat, nVars, day);
    var lo0, la0 :| 0 <= lo0 < nLon && 0 <= la0 < nLat && CellWeight(ups, lo0, la0) > 0.0;
    assert o.n[lo0][la0] > 0.0;
    forall lo, la | 0 <= lo < nLon && 0 <= la < nLat
      ensures o.n[lo][la] >= 0.0
    {
      CellWeightNonNegative(ups, lo, la);
    }
  }

  /** Finalize the rasters holding the day's updates into the day's output. */
  method Finalize(acc: Accumulator, day: int, ghost ups: seq<Update>) returns (o: DayOutput)
    requires acc.Valid()
    requires forall lo, la :: 0 <= lo < acc.nLon && 0 <= la < acc.nLat ==> acc.weight[lo, la] == CellWeight(ups, lo, la)
    requires forall lo, la, z :: 0 <= lo < acc.nLon && 0 <= la < acc.nLat && 0 <= z < acc.nVars ==>
      acc.mean[lo, la, z] == MeanFromZero(ups, lo, la, z)
    ensures o == Finalized(ups, acc.nLon, acc.nLat, acc.nVars, day)
  {
    var nLon, nLat, nVars := acc.nLon, acc.nLat, acc.nVars;
    if nLon == 0 || nLat == 0 {
      return Unwritten;
    }
    var positive := exists lo, la :: 0 <= lo < nLon && 0 <= la < nLat && acc.weight[lo, la] > 0.0;
    if !positive {
      return ZeroWeight(day);
    }
    var w := acc.weight;
    var m := acc.mean;
    var weights := seq(nLon, lo requires 0 <= lo < nLon reads w =>
      seq(nLat, la requires 0 <= la < nLat reads w => w[lo, la]));
    var slices := seq(nVars, z requires 0 <= z < nVars reads w, m =>
      seq(nLon, lo requires 0 <= lo < nLon reads w, m =>
        seq(nLat, la requires 0 <= la < nLat reads w, m =>
          if w[lo, la] < MIN_WEIGHT then FILL else Round6(m[lo, la, z]))));
    assert weights == WeightSlice(ups, nLon, nLat) by {
      forall lo | 0 <= lo < nLon
        ensures weights[lo] == WeightSlice(ups, nLon, nLat)[lo]
      {
      }
    }
    forall z | 0 <= z < nVars
      ensures slices[z] == VarSlice(ups, nLon, nLat, z)
    {
      forall lo | 0 <= lo < nLon
        ensures slices[z][lo] == VarSlice(ups, nLon, nLat, z)[lo]
      {
      }
    }
    o := Written(day, weights, slices);
  }

  /**
   * One day of the loop on rasters that start at zero: fetch, process, finalize.  The
   * output is the day's specification and the rasters hold what the granule put there.
   */
  method GridDay(acc: Accumulator, f: Fetch, day: int, b: Bounds, filters: seq<Filter>, variables: seq<string>)
    returns (o: DayOutput)
    requires acc.Valid() && acc.Zeroed() && acc.n == N_GRID && acc.nVars == |variables|
    modifies acc.weight, acc.mean, acc.points
    ensures acc.Valid()
    ensures o == DaySpec(f, day, b, filters, variables, acc.nLat, acc.nLon)
  {
    match f {
      case FetchFailed =>
        o := Unwritten;
      case NotFound =>
        o := ZeroWeight(day);
      case Found(g) =>
        var outcome := ProcessDayGranule(acc, g, b, filters, variables);
        ghost var ups := GranuleUpdates(g, b, filters, variables, acc.nLat, acc.nLon);
        UpdatesPositive(if outcome.Accumulate? then outcome.fps else [], N_GRID);
        forall lo, la, z | 0 <= lo < acc.nLon && 0 <= la < acc.nLat && 0 <= z < acc.nVars
          ensures acc.mean[lo, la, z] == MeanFromZero(ups, lo, la, z)
        {
          MeanAfterFromZero(ups, lo, la, z);
        }
        o := Finalize(acc, day, ups);
    }
  }

  /**
   * The day loop of create_gridded_raster: one output per day from startDay to endDay,
   * each the day's specification on rasters that start the day at zero.  The grid has
   * one cell per centre; the longitude axis uses the latitude resolution's tolerance.
   */
  method CreateGriddedRaster(source: int -> Fetch, startDay: int, endDay: int, b: Bounds,
                             latRes: real, lonRes: real, filters: seq<Filter>, variables: seq<string>)
    returns (days: seq<int>, out: seq<DayOutput>)
    requires latRes > 0.0 && lonRes > 0.0
    ensures |days| == |out| == (if endDay < startDay then 0 else endDay - startDay + 1)
    ensures forall k :: 0 <= k < |days| ==> days[k] == startDay + k
    ensures forall k :: 0 <= k < |out| ==>
      out[k] == DaySpec(source(days[k]), days[k], b, filters, variables,
                        |GridCentres(b.latMin, b.latMax, latRes, latRes / 100.0)|,
                        |GridCentres(b.lonMin, b.lonMax, lonRes, latRes / 100.0)|)
  {
    days := GenerateDates(startDay, endDay);
    var eps := latRes / 100.0;
    var latVals := GridCentres(b.latMin, b.latMax, latRes, eps);
    var lonVals := GridCentres(b.lonMin, b.lonMax, lonRes, eps);
    var acc := new Accumulator(|lonVals|, |latVals|, |variables|, N_GRID);
    out := [];
    for t := 0 to |days|
      invariant acc.Valid() && acc.Zeroed()
      invariant acc.nLon == |lonVals| && acc.nLat == |latVals| && acc.nVars == |variables| && acc.n == N_GRID
      invariant |out| == t
      invariant forall k :: 0 <= k < t ==> out[k] == DaySpec(source(days[k]), days[k], b, filters, variables, |latVals|, |lonVals|)
    {
      var o := GridDay(acc, source(days[t]), days[t], b, filters, variables);
      out := out + [o];
      acc.Reset();
    }
  }

  // ---------------------------------------------------------------------------
  // The granule name in the finally clause, as written

  /** Whether the name granule is bound when a day's handlers run. */
  datatype Binding = Unbound | Bound

  /**
   * The loop as written binds granule only when fetching returns or raises
   * FileNotFoundError; the finally clause reads it on every day.  The result is the day
   * on which reading it raises UnboundLocalError and ends the loop, if any.
   */
  function AbortDayAsWritten(fetches: seq<Fetch>, state: Binding, day: nat): (r: Option<nat>)
    ensures r.Some? ==> day <= r.value < day + |fetches| && fetches[r.value - day].FetchFailed?
    decreases |fetches|
  {
    if fetches == [] then None
    else if fetches[0].FetchFailed? && state == Unbound then Some(day)
    else AbortDayAsWritten(fetches[1..], if fetches[0].FetchFailed? then state else Bound, day + 1)
  }

  /**
   * As written, UnboundLocalError ends a loop whose first day's fetch fails, on that
   * day, and no other loop: every later day finds granule bound.
   */
  lemma AbortsExactlyOnFirstDay(fetches: seq<Fetch>)
    ensures AbortDayAsWritten(fetches, Unbound, 0) == if fetches != [] && fetches[0].FetchFailed? then Some(0) else None
  {
    if fetches != [] && !fetches[0].FetchFailed? {
      StaysBound(fetches[1..], 1);
    }
  }

  /** Once granule is bound, no later day raises UnboundLocalError. */
  lemma {:induction false} StaysBound(fetches: seq<Fetch>, day: nat)
    ensures AbortDayAsWritten(fetches, Bound, day) == None
    decreases |fetches|
  {
    if fetches != [] {
      StaysBound(fetches[1..], day + 1);
    }
  }

  /**
   * The corrected loop writes one output for every day whatever the fetches give; a
   * failed fetch leaves that day unwritten and the run goes on.
   */
  lemma FailedFetchSkipsDay(source: int -> Fetch, day: int, b: Bounds, filters: seq<Filter>, variables: seq<string>, nLat: nat, nLon: nat)
    requires source(day).FetchFailed?
    ensures DaySpec(source(day), day, b, filters, variables, nLat, nLon) == Unwritten
  {
  }
}
