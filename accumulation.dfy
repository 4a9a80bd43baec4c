/**
 * Online weighted accumulator of the areal regridding engine (favg_all).
 *
 * Footprints arrive already mapped to integer grid-index space.  A footprint that
 * falls in a single cell gives that cell weight 1; a footprint whose longitude index
 * span is below the subdivision factor n is sampled on an n x n lattice and every
 * sample gives its cell weight 1/n^2; any other footprint is dropped.  Each
 * contribution updates the cell's running mean incrementally,
 * mean <- mean + (w_inc / w) * (x - mean), where w is the cell weight after the
 * increment.
 *
 * The specification side describes the footprints of a day as the sequence of
 * single-cell updates they perform (Updates) and the mean a cell reaches as the
 * replay of those updates (MeanAfter).  The class below is proved to reach exactly
 * that state, and the lemmas show what the state means: weight is the sum of the
 * increments, mean * weight the sum of increment * value, whatever the order.
 */
module Accumulation {
  import opened Sampling
  import opened Folds

  /** One incremental-mean update: cell (lon, lat) receives weight w and the values x. */
  datatype Update = Update(lon: int, lat: int, w: real, x: seq<real>)

  /** The four vertex indices of a footprint along one axis. */
  type Quad = v: seq<int> | |v| == 4 witness [0, 0, 0, 0]

  /**
   * A footprint in grid-index space: the integer latitude and longitude index of
   * each of its four vertices, and its value for each variable.
   */
  datatype Footprint = Footprint(lat: Quad, lon: Quad, x: seq<real>)

  function MinIdx(v: Quad): (m: int)
    ensures forall k :: 0 <= k < 4 ==> m <= v[k]
    ensures m == v[0] || m == v[1] || m == v[2] || m == v[3]
  {
    var a := if v[0] <= v[1] then v[0] else v[1];
    var b := if v[2] <= v[3] then v[2] else v[3];
    if a <= b then a else b
  }

  function MaxIdx(v: Quad): (m: int)
    ensures forall k :: 0 <= k < 4 ==> v[k] <= m
    ensures m == v[0] || m == v[1] || m == v[2] || m == v[3]
  {
    var a := if v[0] <= v[1] then v[1] else v[0];
    var b := if v[2] <= v[3] then v[3] else v[2];
    if a <= b then b else a
  }

  function AsReals(v: Quad): (r: seq<real>)
    ensures |r| == 4 && forall k :: 0 <= k < 4 ==> r[k] == v[k] as real
  {
    [v[0] as real, v[1] as real, v[2] as real, v[3] as real]
  }

  /** Both index spans are zero: the whole footprint lies in one cell. */
  predicate SingleCell(fp: Footprint)
  {
    MaxIdx(fp.lat) - MinIdx(fp.lat) == 0 && MaxIdx(fp.lon) - MinIdx(fp.lon) == 0
  }

  /** The footprint is sampled: it spans several cells but fewer than n longitude cells. */
  predicate Sampled(fp: Footprint, n: nat)
  {
    !SingleCell(fp) && MaxIdx(fp.lon) - MinIdx(fp.lon) < n
  }

  /** Longitude cell of sample k (row-major over the n x n lattice). */
  function SampleLon(fp: Footprint, n: nat, k: int): int
    requires n > 0
  {
    Sample(AsReals(fp.lon), n, k / n, k % n).Floor
  }

  /** Latitude cell of sample k (row-major over the n x n lattice). */
  function SampleLat(fp: Footprint, n: nat, k: int): int
    requires n > 0
  {
    Sample(AsReals(fp.lat), n, k / n, k % n).Floor
  }

  /** The weight 1/n^2 of one lattice sample. */
  function Fac(n: nat): real
    requires n > 0
  {
    1.0 / (n * n) as real
  }

  /** The updates one footprint performs, in the order the accumulator performs them. */
  function FootprintUpdates(fp: Footprint, n: nat): seq<Update>
  {
    if SingleCell(fp) then
      [Update(fp.lon[0], fp.lat[0], 1.0, fp.x)]
    else if Sampled(fp, n) then
      seq(n * n, k => Update(SampleLon(fp, n, k), SampleLat(fp, n, k), Fac(n), fp.x))
    else
      []
  }

  /** The updates a sequence of footprints performs, footprint after footprint. */
  function Updates(fps: seq<Footprint>, n: nat): seq<Update>
  {
    Concat(fps, (fp: Footprint) => FootprintUpdates(fp, n))
  }

  /** Value of variable z an update carries (0 where it has none). */
  function XAt(u: Update, z: int): real
  {
    if 0 <= z < |u.x| then u.x[z] else 0.0
  }

  /** Sum of the weight increments cell (lo, la) receives. */
  function CellWeight(ups: seq<Update>, lo: int, la: int): real
  {
    SumOf(ups, (u: Update) => if u.lon == lo && u.lat == la then u.w else 0.0)
  }

  /** Sum of increment * value of variable z over the updates cell (lo, la) receives. */
  function CellValueSum(ups: seq<Update>, lo: int, la: int, z: int): real
  {
    SumOf(ups, (u: Update) => if u.lon == lo && u.lat == la then u.w * XAt(u, z) else 0.0)
  }

  /** The increment an update adds to its cell's weight. */
  function Weight(u: Update): real
  {
    u.w
  }

  /** Sum of all weight increments, whatever their cell. */
  function TotalWeight(ups: seq<Update>): real
  {
    SumOf(ups, Weight)
  }

  predicate Touched(ups: seq<Update>, lo: int, la: int)
  {
    exists k :: 0 <= k < |ups| && ups[k].lon == lo && ups[k].lat == la
  }

  /** The weighted average a cell holds when accumulation starts from zero buffers. */
  function MeanFromZero(ups: seq<Update>, lo: int, la: int, z: int): real
  {
    if CellWeight(ups, lo, la) == 0.0 then 0.0 else CellValueSum(ups, lo, la, z) / CellWeight(ups, lo, la)
  }

  /** The incremental-mean step: m moved the fraction w / wNew of the way towards x. */
  function Blend(m: real, x: real, w: real, wNew: real): real
    requires wNew != 0.0
  {
    m + (w / wNew) * (x - m)
  }

  /** The weight cell (lo, la) holds after the updates, starting from weight w0. */
  function WeightAfter(w0: real, ups: seq<Update>, lo: int, la: int): real
  {
    w0 + CellWeight(ups, lo, la)
  }

  /**
   * The mean variable z of cell (lo, la) holds after the updates, starting from mean m0
   * and weight w0: each update at the cell moves the mean the fraction
   * u.w / (new weight) of the way towards the update's value.
   */
  function MeanAfter(m0: real, w0: real, ups: seq<Update>, lo: int, la: int, z: int): real
  {
    if ups == [] then m0
    else
      var u := ups[|ups| - 1];
      var m := MeanAfter(m0, w0, ups[..|ups| - 1], lo, la, z);
      var wNew := WeightAfter(w0, ups, lo, la);
      if u.lon == lo && u.lat == la && wNew != 0.0 then Blend(m, XAt(u, z), u.w, wNew) else m
  }

  predicate PositiveWeights(ups: seq<Update>)
  {
    forall k :: 0 <= k < |ups| ==> ups[k].w > 0.0
  }

  // ---------------------------------------------------------------------------
  // Arithmetic helpers

  /** The index pair (k / n, k % n) of a row-major position k < n * n lies in the lattice. */
  lemma LatticeIndex(k: int, n: nat)
    requires n > 0 && 0 <= k < n * n
    ensures 0 <= k / n < n && 0 <= k % n < n
  {
    var q := k / n;
    assert q * n + k % n == k;
  }

  /** A real between two integers floors to an integer between them. */
  lemma FloorBetween(r: real, lo: int, hi: int)
    requires lo as real <= r <= hi as real
    ensures lo <= r.Floor <= hi
  {
  }

  /** One incremental-mean step keeps mean * weight equal to the weighted sum. */
  lemma MeanStep(m: real, wOld: real, wNew: real, w: real, x: real, mNew: real)
    requires wNew == wOld + w && wNew != 0.0
    requires mNew == Blend(m, x, w, wNew)
    ensures mNew * wNew == m * wOld + w * x
  {
    var q := w / wNew;
    assert q * wNew == w;
    calc {
      mNew * wNew;
      (m + q * (x - m)) * wNew;
      m * wNew + q * wNew * (x - m);
      m * wNew + w * (x - m);
      m * wOld + m * w + w * x - w * m;
    }
  }

  lemma Quotient(a: real, b: real, c: real)
    requires b != 0.0 && a * b == c
    ensures a == c / b
  {
  }

  // ---------------------------------------------------------------------------
  // Properties of the updates of one footprint

  /** Sample k of a footprint falls in a cell inside the footprint's integer index box. */
  lemma SampleInIndexBox(fp: Footprint, n: nat, k: int)
    requires n > 0 && 0 <= k < n * n
    ensures MinIdx(fp.lon) <= SampleLon(fp, n, k) <= MaxIdx(fp.lon)
    ensures MinIdx(fp.lat) <= SampleLat(fp, n, k) <= MaxIdx(fp.lat)
  {
    LatticeIndex(k, n);
    var lon, lat := AsReals(fp.lon), AsReals(fp.lat);
    SampleInBox(lon, n, k / n, k % n);
    SampleInBox(lat, n, k / n, k % n);
    assert MinOf4(lon) == MinIdx(fp.lon) as real && MaxOf4(lon) == MaxIdx(fp.lon) as real;
    assert MinOf4(lat) == MinIdx(fp.lat) as real && MaxOf4(lat) == MaxIdx(fp.lat) as real;
    FloorBetween(Sample(lon, n, k / n, k % n), MinIdx(fp.lon), MaxIdx(fp.lon));
    FloorBetween(Sample(lat, n, k / n, k % n), MinIdx(fp.lat), MaxIdx(fp.lat));
  }

  /**
   * Every update of a footprint carries the footprint's own values and a positive
   * weight, and lands in a cell inside the footprint's integer index box.
   */
  lemma FootprintUpdatesInBox(fp: Footprint, n: nat)
    ensures forall u :: u in FootprintUpdates(fp, n) ==> InBox(u, fp)
  {
    var ups := FootprintUpdates(fp, n);
    if SingleCell(fp) {
      assert ups == [Update(fp.lon[0], fp.lat[0], 1.0, fp.x)];
    } else if Sampled(fp, n) {
      SampledInBox(fp, n);
      forall u | u in ups
        ensures InBox(u, fp)
      {
        var k :| 0 <= k < |ups| && ups[k] == u;
      }
    }
  }

  /** The update carries the footprint's values and a positive weight into its index box. */
  predicate InBox(u: Update, fp: Footprint)
  {
    u.x == fp.x && u.w > 0.0 &&
    MinIdx(fp.lon) <= u.lon <= MaxIdx(fp.lon) && MinIdx(fp.lat) <= u.lat <= MaxIdx(fp.lat)
  }

  lemma SampledInBox(fp: Footprint, n: nat)
    requires Sampled(fp, n)
    ensures forall k :: 0 <= k < |FootprintUpdates(fp, n)| ==> InBox(FootprintUpdates(fp, n)[k], fp)
  {
    var ups := FootprintUpdates(fp, n);
    forall k | 0 <= k < |ups|
      ensures InBox(ups[k], fp)
    {
      SampleInIndexBox(fp, n, k);
      assert (n * n) as real > 0.0;
    }
  }

  /**
   * One footprint contributes total weight exactly 1 when it lies in one cell or is
   * sampled (n^2 samples of 1/n^2 each), and nothing when its longitude span is n or more.
   */
  lemma FootprintTotalWeight(fp: Footprint, n: nat)
    ensures TotalWeight(FootprintUpdates(fp, n)) == if SingleCell(fp) || Sampled(fp, n) then 1.0 else 0.0
    ensures !SingleCell(fp) && MaxIdx(fp.lon) - MinIdx(fp.lon) >= n ==> FootprintUpdates(fp, n) == []
  {
    if SingleCell(fp) {
      var ups := FootprintUpdates(fp, n);
      SumOfSnoc([], ups[0], Weight);
      assert [] + [ups[0]] == ups;
    } else if Sampled(fp, n) {
      SampledTotalWeight(fp, n);
    }
  }

  /** n * n updates of weight Fac(n) add up to 1. */
  lemma SharesTotal(ups: seq<Update>, n: nat)
    requires n > 0 && |ups| == n * n
    requires forall k :: 0 <= k < |ups| ==> ups[k].w == Fac(n)
    ensures TotalWeight(ups) == 1.0
  {
    SumOfConstant(ups, Weight, Fac(n));
    var m := (n * n) as real;
    assert m > 0.0;
    assert m * (1.0 / m) == 1.0;
  }

  lemma SampledTotalWeight(fp: Footprint, n: nat)
    requires !SingleCell(fp) && Sampled(fp, n)
    ensures TotalWeight(FootprintUpdates(fp, n)) == 1.0
  {
    var ups := FootprintUpdates(fp, n);
    assert forall k :: 0 <= k < |ups| ==> ups[k].w == Fac(n);
    SharesTotal(ups, n);
  }

  /** A footprint whose longitude span reaches n contributes nothing to any cell. */
  lemma WideFootprintIgnored(fp: Footprint, n: nat, lo: int, la: int)
    requires MaxIdx(fp.lon) - MinIdx(fp.lon) >= n && !SingleCell(fp)
    ensures CellWeight(FootprintUpdates(fp, n), lo, la) == 0.0
    ensures !Touched(FootprintUpdates(fp, n), lo, la)
  {
    FootprintTotalWeight(fp, n);
  }

  // ---------------------------------------------------------------------------
  // Sums over concatenations and permutations

  lemma SumsAppend(a: seq<Update>, b: seq<Update>, lo: int, la: int, z: int)
    ensures CellWeight(a + b, lo, la) == CellWeight(a, lo, la) + CellWeight(b, lo, la)
    ensures CellValueSum(a + b, lo, la, z) == CellValueSum(a, lo, la, z) + CellValueSum(b, lo, la, z)
  {
    SumOfAppend(a, b, (u: Update) => if u.lon == lo && u.lat == la then u.w else 0.0);
    SumOfAppend(a, b, (u: Update) => if u.lon == lo && u.lat == la then u.w * XAt(u, z) else 0.0);
  }

  lemma TouchedAppend(a: seq<Update>, b: seq<Update>, lo: int, la: int)
    ensures Touched(a + b, lo, la) <==> Touched(a, lo, la) || Touched(b, lo, la)
  {
    if Touched(a + b, lo, la) {
      var k :| 0 <= k < |a + b| && (a + b)[k].lon == lo && (a + b)[k].lat == la;
      if k >= |a| {
        assert b[k - |a|] == (a + b)[k];
      }
    }
    if Touched(a, lo, la) {
      var k :| 0 <= k < |a| && a[k].lon == lo && a[k].lat == la;
      assert (a + b)[k] == a[k];
    }
    if Touched(b, lo, la) {
      var k :| 0 <= k < |b| && b[k].lon == lo && b[k].lat == la;
      assert (a + b)[|a| + k] == b[k];
    }
  }

  /** Appending one update to those already done: the cell weights grow by its weight at its cell only. */
  lemma SumsSnoc(done: seq<Update>, u: Update)
    ensures forall lo, la ::
      CellWeight(done + [u], lo, la) == CellWeight(done, lo, la) + (if u.lon == lo && u.lat == la then u.w else 0.0)
  {
    forall lo, la
      ensures CellWeight(done + [u], lo, la) == CellWeight(done, lo, la) + (if u.lon == lo && u.lat == la then u.w else 0.0)
    {
      SumOfSnoc(done, u, (u: Update) => if u.lon == lo && u.lat == la then u.w else 0.0);
    }
  }

  lemma UpdatesSnoc(fps: seq<Footprint>, fp: Footprint, n: nat)
    ensures Updates(fps + [fp], n) == Updates(fps, n) + FootprintUpdates(fp, n)
  {
    assert (fps + [fp])[..|fps|] == fps;
  }

  /**
   * Order independence: two orderings of the same footprints leave every cell with
   * the same weight, the same sum of increment * value, and so the same mean when
   * accumulation starts from zero buffers.
   */
  lemma OrderIndependent(a: seq<Footprint>, b: seq<Footprint>, n: nat, lo: int, la: int, z: int)
    requires multiset(a) == multiset(b)
    ensures CellWeight(Updates(a, n), lo, la) == CellWeight(Updates(b, n), lo, la)
    ensures CellValueSum(Updates(a, n), lo, la, z) == CellValueSum(Updates(b, n), lo, la, z)
    ensures MeanFromZero(Updates(a, n), lo, la, z) == MeanFromZero(Updates(b, n), lo, la, z)
  {
    ConcatPermutation(a, b, (fp: Footprint) => FootprintUpdates(fp, n));
    var ua, ub := Updates(a, n), Updates(b, n);
    SumOfPermutation(ua, ub, (u: Update) => if u.lon == lo && u.lat == la then u.w else 0.0);
    SumOfPermutation(ua, ub, (u: Update) => if u.lon == lo && u.lat == la then u.w * XAt(u, z) else 0.0);
  }

  // ---------------------------------------------------------------------------
  // Footprints inside one cell

  /** Sum of variable z over the footprints' values. */
  function ValueTotal(fps: seq<Footprint>, z: int): real
  {
    if fps == [] then 0.0
    else
      var f := fps[|fps| - 1];
      ValueTotal(fps[..|fps| - 1], z) + (if 0 <= z < |f.x| then f.x[z] else 0.0)
  }

  /** All footprints lie in the single cell (lo, la). */
  predicate AllInCell(fps: seq<Footprint>, lo: int, la: int)
  {
    forall i :: 0 <= i < |fps| ==> SingleCell(fps[i]) && fps[i].lon[0] == lo && fps[i].lat[0] == la
  }

  /**
   * Footprints that all lie in cell (lo, la) give it weight equal to their count
   * and, from zero buffers, the arithmetic mean of their values.
   */
  lemma SingleCellCount(fps: seq<Footprint>, n: nat, lo: int, la: int, z: int)
    requires AllInCell(fps, lo, la)
    ensures CellWeight(Updates(fps, n), lo, la) == |fps| as real
    ensures CellValueSum(Updates(fps, n), lo, la, z) == ValueTotal(fps, z)
    ensures fps != [] ==> MeanFromZero(Updates(fps, n), lo, la, z) == ValueTotal(fps, z) / |fps| as real
  {
    SingleCellTotals(fps, n, lo, la, z);
  }

  lemma {:induction false} SingleCellTotals(fps: seq<Footprint>, n: nat, lo: int, la: int, z: int)
    requires AllInCell(fps, lo, la)
    ensures CellWeight(Updates(fps, n), lo, la) == |fps| as real
    ensures CellValueSum(Updates(fps, n), lo, la, z) == ValueTotal(fps, z)
  {
    if fps != [] {
      var f := fps[|fps| - 1];
      var fps' := fps[..|fps| - 1];
      assert AllInCell(fps', lo, la);
      SingleCellTotals(fps', n, lo, la, z);
      assert fps == fps' + [f];
      SingleCellSnoc(fps', f, n, lo, la, z);
    }
  }

  lemma SingleCellSnoc(fps: seq<Footprint>, f: Footprint, n: nat, lo: int, la: int, z: int)
    requires SingleCell(f) && f.lon[0] == lo && f.lat[0] == la
    ensures CellWeight(Updates(fps + [f], n), lo, la) == CellWeight(Updates(fps, n), lo, la) + 1.0
    ensures CellValueSum(Updates(fps + [f], n), lo, la, z) ==
      CellValueSum(Updates(fps, n), lo, la, z) + (if 0 <= z < |f.x| then f.x[z] else 0.0)
  {
    UpdatesSnoc(fps, f, n);
    var u := Update(lo, la, 1.0, f.x);
    assert FootprintUpdates(f, n) == [u];
    SumOfSnoc(Updates(fps, n), u, (u: Update) => if u.lon == lo && u.lat == la then u.w else 0.0);
    SumOfSnoc(Updates(fps, n), u, (u: Update) => if u.lon == lo && u.lat == la then u.w * XAt(u, z) else 0.0);
  }

  /** Two single-cell footprints with values 4 and 8 in one cell give weight 2 and mean 6. */
  lemma TwoFootprintsAverage(lo: int, la: int, n: nat)
    ensures var fps := [Footprint([la, la, la, la], [lo, lo, lo, lo], [4.0]),
                        Footprint([la, la, la, la], [lo, lo, lo, lo], [8.0])];
      CellWeight(Updates(fps, n), lo, la) == 2.0 && MeanFromZero(Updates(fps, n), lo, la, 0) == 6.0
  {
    var fps := [Footprint([la, la, la, la], [lo, lo, lo, lo], [4.0]),
                Footprint([la, la, la, la], [lo, lo, lo, lo], [8.0])];
    assert AllInCell(fps, lo, la);
    SingleCellCount(fps, n, lo, la, 0);
    assert fps[..1] == [fps[0]];
    assert [fps[0]][..0] == [];
    assert ValueTotal([fps[0]], 0) == 4.0;
    assert ValueTotal(fps, 0) == 12.0;
  }

  // ---------------------------------------------------------------------------
  // The incremental mean

  lemma CellWeightNonNegative(ups: seq<Update>, lo: int, la: int)
    requires PositiveWeights(ups)
    ensures CellWeight(ups, lo, la) >= 0.0
    ensures Touched(ups, lo, la) <==> CellWeight(ups, lo, la) > 0.0
  {
    var f := (u: Update) => if u.lon == lo && u.lat == la then u.w else 0.0;
    SumOfNonNegative(ups, f);
    if Touched(ups, lo, la) {
      var k :| 0 <= k < |ups| && ups[k].lon == lo && ups[k].lat == la;
      assert f(ups[k]) > 0.0;
    }
  }

  /** mean * weight after the updates equals the starting mean * weight plus the value sum. */
  predicate MomentHolds(m0: real, w0: real, ups: seq<Update>, lo: int, la: int, z: int)
  {
    MeanAfter(m0, w0, ups, lo, la, z) * WeightAfter(w0, ups, lo, la) == m0 * w0 + CellValueSum(ups, lo, la, z)
  }

  /** One more update at the cell keeps MomentHolds. */
  lemma MomentSnocAt(m0: real, w0: real, p: seq<Update>, u: Update, lo: int, la: int, z: int)
    requires MomentHolds(m0, w0, p, lo, la, z)
    requires WeightAfter(w0, p, lo, la) >= 0.0 && u.w > 0.0 && u.lon == lo && u.lat == la
    ensures MomentHolds(m0, w0, p + [u], lo, la, z)
  {
    var ups := p + [u];
    assert ups[..|ups| - 1] == p;
    var fw := (v: Update) => if v.lon == lo && v.lat == la then v.w else 0.0;
    var fx := (v: Update) => if v.lon == lo && v.lat == la then v.w * XAt(v, z) else 0.0;
    SumOfSnoc(p, u, fw);
    SumOfSnoc(p, u, fx);
    var wOld, wNew := WeightAfter(w0, p, lo, la), WeightAfter(w0, ups, lo, la);
    MeanStep(MeanAfter(m0, w0, p, lo, la, z), wOld, wNew, u.w, XAt(u, z), MeanAfter(m0, w0, ups, lo, la, z));
  }

  /** One more update elsewhere keeps MomentHolds. */
  lemma MomentSnocElsewhere(m0: real, w0: real, p: seq<Update>, u: Update, lo: int, la: int, z: int)
    requires MomentHolds(m0, w0, p, lo, la, z)
    requires u.lon != lo || u.lat != la
    ensures MomentHolds(m0, w0, p + [u], lo, la, z)
  {
    var ups := p + [u];
    assert ups[..|ups| - 1] == p;
    SumOfSnoc(p, u, (v: Update) => if v.lon == lo && v.lat == la then v.w else 0.0);
    SumOfSnoc(p, u, (v: Update) => if v.lon == lo && v.lat == la then v.w * XAt(v, z) else 0.0);
    assert MeanAfter(m0, w0, ups, lo, la, z) == MeanAfter(m0, w0, p, lo, la, z);
    assert WeightAfter(w0, ups, lo, la) == WeightAfter(w0, p, lo, la);
  }

  /**
   * The accumulator invariant: with positive increments and a non-negative starting
   * weight, mean * weight equals the starting mean * weight plus the sum of
   * increment * value.
   */
  lemma {:induction false} MeanAfterMoment(m0: real, w0: real, ups: seq<Update>, lo: int, la: int, z: int)
    requires w0 >= 0.0 && PositiveWeights(ups)
    ensures MomentHolds(m0, w0, ups, lo, la, z)
  {
    if ups != [] {
      var p := ups[..|ups| - 1];
      var u := ups[|ups| - 1];
      assert ups == p + [u];
      assert PositiveWeights(p);
      MeanAfterMoment(m0, w0, p, lo, la, z);
      CellWeightNonNegative(p, lo, la);
      if u.lon == lo && u.lat == la {
        MomentSnocAt(m0, w0, p, u, lo, la, z);
      } else {
        MomentSnocElsewhere(m0, w0, p, u, lo, la, z);
      }
    }
  }

  /** A cell no update touches keeps its mean. */
  lemma {:induction false} MeanAfterUntouched(m0: real, w0: real, ups: seq<Update>, lo: int, la: int, z: int)
    requires !Touched(ups, lo, la)
    ensures MeanAfter(m0, w0, ups, lo, la, z) == m0
  {
    if ups != [] {
      var p := ups[..|ups| - 1];
      MeanAfterUntouched(m0, w0, p, lo, la, z);
    }
  }

  /** From zero buffers the replayed mean is the weighted average of the values the cell received. */
  lemma MeanAfterFromZero(ups: seq<Update>, lo: int, la: int, z: int)
    requires PositiveWeights(ups)
    ensures MeanAfter(0.0, 0.0, ups, lo, la, z) == MeanFromZero(ups, lo, la, z)
  {
    MeanAfterMoment(0.0, 0.0, ups, lo, la, z);
    CellWeightNonNegative(ups, lo, la);
    var w := CellWeight(ups, lo, la);
    assert WeightAfter(0.0, ups, lo, la) == w;
    if w == 0.0 {
      MeanAfterUntouched(0.0, 0.0, ups, lo, la, z);
    } else {
      Quotient(MeanAfter(0.0, 0.0, ups, lo, la, z), w, CellValueSum(ups, lo, la, z));
    }
  }

  /** Replaying two batches of updates is replaying their concatenation. */
  lemma {:induction false} MeanAfterAppend(m0: real, w0: real, a: seq<Update>, b: seq<Update>, lo: int, la: int, z: int)
    ensures MeanAfter(m0, w0, a + b, lo, la, z) ==
      MeanAfter(MeanAfter(m0, w0, a, lo, la, z), WeightAfter(w0, a, lo, la), b, lo, la, z)
    decreases |b|
  {
    if b == [] {
      assert a + b == a;
    } else {
      var b' := b[..|b| - 1];
      assert (a + b)[..|a + b| - 1] == a + b';
      MeanAfterAppend(m0, w0, a, b', lo, la, z);
      SumsAppend(a, b, lo, la, z);
    }
  }

  /** How one more update changes the replayed weight and mean of a cell. */
  lemma ReplaySnoc(m0: real, w0: real, p: seq<Update>, u: Update, lo: int, la: int, z: int)
    ensures WeightAfter(w0, p + [u], lo, la) == WeightAfter(w0, p, lo, la) + (if u.lon == lo && u.lat == la then u.w else 0.0)
    ensures var m, w := MeanAfter(m0, w0, p, lo, la, z), WeightAfter(w0, p + [u], lo, la);
      MeanAfter(m0, w0, p + [u], lo, la, z) == if u.lon == lo && u.lat == la && w != 0.0 then Blend(m, XAt(u, z), u.w, w) else m
  {
    assert (p + [u])[..|p|] == p;
    SumOfSnoc(p, u, (v: Update) => if v.lon == lo && v.lat == la then v.w else 0.0);
  }

  lemma {:induction false} UpdatesPositive(fps: seq<Footprint>, n: nat)
    ensures PositiveWeights(Updates(fps, n))
  {
    if fps != [] {
      var fps', last := fps[..|fps| - 1], fps[|fps| - 1];
      UpdatesPositive(fps', n);
      FootprintUpdatesInBox(last, n);
      assert fps == fps' + [last];
      UpdatesSnoc(fps', last, n);
      var a: seq<Update>, b: seq<Update> := Updates(fps', n), FootprintUpdates(last, n);
      forall k | 0 <= k < |a + b|
        ensures (a + b)[k].w > 0.0
      {
        if k >= |a| {
          assert (a + b)[k] == b[k - |a|] && b[k - |a|] in b;
        }
      }
    }
  }

  // ---------------------------------------------------------------------------
  // The accumulator: a weight raster [lon, lat], a mean raster [lon, lat, variable]
  // and the n x n sample lattice buffer, all updated in place.

  /** Side of the sample buffer the day loop allocates (n_grid). */
  const N_GRID: nat := 10

  class Accumulator {
    const nLon: nat
    const nLat: nat
    const nVars: nat
    /** Subdivision factor: the side of the sample lattice buffer. */
    const n: nat
    /** Accumulated weight per cell, indexed [lon, lat]. */
    const weight: array2<real>
    /** Running mean per cell and variable, indexed [lon, lat, variable]. */
    const mean: array3<real>
    /** Sample lattice buffer, indexed [row, column, 0 = latitude / 1 = longitude]. */
    const points: array3<real>

    ghost predicate Valid()
      reads weight
    {
      n > 0 &&
      weight.Length0 == nLon && weight.Length1 == nLat &&
      mean.Length0 == nLon && mean.Length1 == nLat && mean.Length2 == nVars &&
      points.Length0 == n && points.Length1 == n && points.Length2 == 2 &&
      points != mean &&
      forall lo, la :: 0 <= lo < nLon && 0 <= la < nLat ==> weight[lo, la] >= 0.0
    }

    ghost predicate Zeroed()
      reads weight, mean
      requires Valid()
    {
      (forall lo, la :: 0 <= lo < nLon && 0 <= la < nLat ==> weight[lo, la] == 0.0) &&
      (forall lo, la, z :: 0 <= lo < nLon && 0 <= la < nLat && 0 <= z < nVars ==> mean[lo, la, z] == 0.0)
    }

    /** The weight raster as a value. */
    ghost function WeightSnapshot(): (s: seq<seq<real>>)
      reads weight
      requires Valid()
      ensures |s| == nLon && forall lo :: 0 <= lo < nLon ==> |s[lo]| == nLat
      ensures forall lo, la :: 0 <= lo < nLon && 0 <= la < nLat ==> s[lo][la] == weight[lo, la]
    {
      seq(nLon, lo requires 0 <= lo < nLon reads weight =>
        seq(nLat, la requires 0 <= la < nLat reads weight => weight[lo, la]))
    }

    /** The mean raster as a value. */
    ghost function MeanSnapshot(): (s: seq<seq<seq<real>>>)
      reads weight, mean
      requires Valid()
      ensures |s| == nLon && forall lo :: 0 <= lo < nLon ==> |s[lo]| == nLat
      ensures forall lo, la :: 0 <= lo < nLon && 0 <= la < nLat ==> |s[lo][la]| == nVars
      ensures forall lo, la, z :: 0 <= lo < nLon && 0 <= la < nLat && 0 <= z < nVars ==> s[lo][la][z] == mean[lo, la, z]
    {
      seq(nLon, lo requires 0 <= lo < nLon reads mean =>
        seq(nLat, la requires 0 <= la < nLat reads mean =>
          seq(nVars, z requires 0 <= z < nVars reads mean => mean[lo, la, z])))
    }

    /**
     * The rasters hold what replaying the updates ups on the starting rasters W0 (weights)
     * and M0 (means) gives, cell by cell.
     */
    ghost predicate Replayed(W0: seq<seq<real>>, M0: seq<seq<seq<real>>>, ups: seq<Update>)
      reads weight, mean
    {
      Valid() &&
      |W0| == nLon && (forall lo :: 0 <= lo < nLon ==> |W0[lo]| == nLat) &&
      |M0| == nLon && (forall lo :: 0 <= lo < nLon ==> |M0[lo]| == nLat) &&
      (forall lo, la :: 0 <= lo < nLon && 0 <= la < nLat ==> |M0[lo][la]| == nVars) &&
      (forall lo, la :: 0 <= lo < nLon && 0 <= la < nLat ==>
        weight[lo, la] == WeightAfter(W0[lo][la], ups, lo, la)) &&
      (forall lo, la, z :: 0 <= lo < nLon && 0 <= la < nLat && 0 <= z < nVars ==>
        mean[lo, la, z] == MeanAfter(M0[lo][la][z], W0[lo][la], ups, lo, la, z))
    }

    /** A footprint fits this raster: vertex indices inside the grid, one value per variable. */
    predicate Fits(fp: Footprint)
    {
      |fp.x| == nVars &&
      (forall k :: 0 <= k < 4 ==> 0 <= fp.lon[k] < nLon && 0 <= fp.lat[k] < nLat)
    }

    constructor (nLon: nat, nLat: nat, nVars: nat, n: nat)
      requires n > 0
      ensures Valid() && Zeroed()
      ensures this.nLon == nLon && this.nLat == nLat && this.nVars == nVars && this.n == n
      ensures fresh(weight) && fresh(mean) && fresh(points)
    {
      this.nLon, this.nLat, this.nVars, this.n := nLon, nLat, nVars, n;
      weight := new real[nLon, nLat]((lo, la) => 0.0);
      mean := new real[nLon, nLat, nVars]((lo, la, z) => 0.0);
      points := new real[n, n, 2]((i, j, c) => 0.0);
    }

    /**
     * Fold one weighted contribution into cell (lo, la): its weight grows by w and each
     * variable's mean moves the fraction w / (new weight) towards x.  The rasters then
     * hold the replay of one more update.
     */
    method Apply(lo: int, la: int, w: real, x: seq<real>,
                 ghost W0: seq<seq<real>>, ghost M0: seq<seq<seq<real>>>, ghost done: seq<Update>)
      requires Replayed(W0, M0, done)
      requires 0 <= lo < nLon && 0 <= la < nLat && w > 0.0 && |x| == nVars
      modifies weight, mean
      ensures Replayed(W0, M0, done + [Update(lo, la, w, x)])
      ensures weight[lo, la] == old(weight[lo, la]) + w
      ensures forall z :: 0 <= z < nVars ==>
        mean[lo, la, z] == Blend(old(mean[lo, la, z]), x[z], w, weight[lo, la])
    {
      weight[lo, la] := weight[lo, la] + w;
      var wNew := weight[lo, la];
      forall z | 0 <= z < nVars {
        mean[lo, la, z] := Blend(mean[lo, la, z], x[z], w, wNew);
      }
      var u := Update(lo, la, w, x);
      forall a, b | 0 <= a < nLon && 0 <= b < nLat
        ensures weight[a, b] == WeightAfter(W0[a][b], done + [u], a, b)
      {
        ReplaySnoc(0.0, W0[a][b], done, u, a, b, 0);
      }
      forall a, b, z | 0 <= a < nLon && 0 <= b < nLat && 0 <= z < nVars
        ensures mean[a, b, z] == MeanAfter(M0[a][b][z], W0[a][b], done + [u], a, b, z)
      {
        ReplaySnoc(M0[a][b][z], W0[a][b], done, u, a, b, z);
        if a == lo && b == la {
          assert XAt(u, z) == x[z];
        }
      }
    }

    /**
     * The body of favg_all's loop for one footprint: a single-cell footprint updates
     * its cell with weight 1, a sampled one updates the cell of each of its n^2
     * lattice points with weight 1/n^2, a footprint too wide in longitude is skipped.
     */
    method AddFootprint(fp: Footprint, lats0: array<real>, lons0: array<real>, lats1: array<real>, lons1: array<real>,
                        ghost W0: seq<seq<real>>, ghost M0: seq<seq<seq<real>>>, ghost done: seq<Update>)
      requires Replayed(W0, M0, done) && Fits(fp)
      requires n <= lats0.Length && n <= lons0.Length && n <= lats1.Length && n <= lons1.Length
      requires lats0 != lons0 && lats1 != lons1
      requires lats0 != lats1 && lats0 != lons1 && lons0 != lats1 && lons0 != lons1
      modifies weight, mean, points, lats0, lons0, lats1, lons1
      ensures Replayed(W0, M0, done + FootprintUpdates(fp, n))
    {
      if MaxIdx(fp.lat) - MinIdx(fp.lat) == 0 && MaxIdx(fp.lon) - MinIdx(fp.lon) == 0 {
        Apply(fp.lon[0], fp.lat[0], 1.0, fp.x, W0, M0, done);
      } else if MaxIdx(fp.lon) - MinIdx(fp.lon) < n {
        AddSampled(fp, lats0, lons0, lats1, lons1, W0, M0, done);
      } else {
        assert done + FootprintUpdates(fp, n) == done;
      }
    }

    /** The sampled branch of AddFootprint: one increment of 1/n^2 per lattice point. */
    method AddSampled(fp: Footprint, lats0: array<real>, lons0: array<real>, lats1: array<real>, lons1: array<real>,
                      ghost W0: seq<seq<real>>, ghost M0: seq<seq<seq<real>>>, ghost done: seq<Update>)
      requires Replayed(W0, M0, done) && Fits(fp) && Sampled(fp, n)
      requires n <= lats0.Length && n <= lons0.Length && n <= lats1.Length && n <= lons1.Length
      requires lats0 != lons0 && lats1 != lons1
      requires lats0 != lats1 && lats0 != lons1 && lons0 != lats1 && lons0 != lons1
      modifies weight, mean, points, lats0, lons0, lats1, lons1
      ensures Replayed(W0, M0, done + FootprintUpdates(fp, n))
    {
      ghost var ups := FootprintUpdates(fp, n);
      FootprintUpdatesInBox(fp, n);
      GetPoints(points, AsReals(fp.lat), AsReals(fp.lon), n, lats0, lons0, lats1, lons1);
      assert done + ups[..0] == done;
      var fac := 1.0 / (n * n) as real;
      for k := 0 to n * n
        invariant Replayed(W0, M0, done + ups[..k])
        invariant forall a, b :: 0 <= a < n && 0 <= b < n ==>
          points[a, b, 0] == Sample(AsReals(fp.lat), n, a, b) && points[a, b, 1] == Sample(AsReals(fp.lon), n, a, b)
      {
        LatticeIndex(k, n);
        var idxLon := points[k / n, k % n, 1].Floor;
        var idxLat := points[k / n, k % n, 0].Floor;
        assert ups[k] == Update(idxLon, idxLat, fac, fp.x);
        assert ups[k] in ups;
        Apply(idxLon, idxLat, fac, fp.x, W0, M0, done + ups[..k]);
        assert done + ups[..k + 1] == done + ups[..k] + [ups[k]] by {
          assert ups[..k + 1] == ups[..k] + [ups[k]];
        }
      }
      assert ups[..n * n] == ups;
    }

    /**
     * favg_all: fold the footprints into the rasters.  Every cell's weight grows by
     * the increments it received and its mean is the replay of the incremental update
     * (MeanAfter); MeanAfterMoment and MeanAfterUntouched say what that mean is.
     */
    method FavgAll(fps: seq<Footprint>)
      requires Valid()
      requires forall i :: 0 <= i < |fps| ==> Fits(fps[i])
      modifies weight, mean, points
      ensures Valid()
      ensures forall lo, la :: 0 <= lo < nLon && 0 <= la < nLat ==>
        weight[lo, la] == old(weight[lo, la]) + CellWeight(Updates(fps, n), lo, la)
      ensures forall lo, la, z :: 0 <= lo < nLon && 0 <= la < nLat && 0 <= z < nVars ==>
        mean[lo, la, z] == MeanAfter(old(mean[lo, la, z]), old(weight[lo, la]), Updates(fps, n), lo, la, z)
    {
      ghost var W0, M0 := WeightSnapshot(), MeanSnapshot();
      var lats0 := new real[n];
      var lons0 := new real[n];
      var lats1 := new real[n];
      var lons1 := new real[n];
      for i := 0 to |fps|
        invariant Replayed(W0, M0, Updates(fps[..i], n))
      {
        var fp := fps[i];
        ghost var prefix := fps[..i];
        UpdatesSnoc(prefix, fp, n);
        assert fps[..i + 1] == prefix + [fp];
        AddFootprint(fp, lats0, lons0, lats1, lons1, W0, M0, Updates(prefix, n));
      }
      assert fps[..|fps|] == fps;
    }

    /** Zero both rasters (mat_data.fill(0.0) and mat_data_weights.fill(0.0)). */
    method Reset()
      requires Valid()
      modifies weight, mean
      ensures Valid() && Zeroed()
    {
      forall lo, la | 0 <= lo < nLon && 0 <= la < nLat {
        weight[lo, la] := 0.0;
      }
      forall lo, la, z | 0 <= lo < nLon && 0 <= la < nLat && 0 <= z < nVars {
        mean[lo, la, z] := 0.0;
      }
    }
  }
}
