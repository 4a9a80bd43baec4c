/**
 * One granule's step of the regridding engine (process_day_granule): the coarse
 * reject on sounding centres, the per-pixel retain mask, the degree-to-index mapping
 * and the hand-off of the retained footprints to the accumulator.
 *
 * A pixel's retain score adds one for each of five base conditions (its vertex
 * bounding box lies strictly inside each of the four bounds, and it is less than 50
 * degrees wide in longitude) and one for each optional filter with a recognised
 * comparator that holds.  The pixel is retained when the score reaches the count of
 * conditions checked, so the score acts as a conjunction.
 *
 * The granule is given decoded: centre coordinates, four vertex coordinates per
 * pixel, and the per-pixel arrays of every named field.  Where the source would
 * raise (a missing field, arrays that do not line up, an empty grid) the granule is
 * abandoned and the rasters are left as they were.
 */
module GranuleStep {
  import opened Sampling
  import opened Accumulation

  /** The output grid's open bounds, in degrees. */
  datatype Bounds = Bounds(latMin: real, latMax: real, lonMin: real, lonMax: real)

  /** An optional pixel filter: keep pixels whose field key compares with thresh by comp. */
  datatype Filter = Filter(key: string, comp: string, thresh: real)

  /** The four vertex coordinates of one pixel along one axis. */
  type Corners = v: seq<real> | |v| == 4 witness [0.0, 0.0, 0.0, 0.0]

  /** A decoded granule. */
  datatype Granule = Granule(lat: seq<real>, lon: seq<real>,
                             vertLat: seq<Corners>, vertLon: seq<Corners>,
                             fields: map<string, seq<real>>)

  const EQ_STRS: seq<string> := ["=", "==", "eq"]
  const GT_STRS: seq<string> := [">", "gt"]
  const LT_STRS: seq<string> := ["<", "lt"]

  datatype Comparator = Eq | Gt | Lt | Unrecognised

  /** The comparator a filter names; the equality spellings are tried first, then >, then <. */
  function ComparatorOf(comp: string): (c: Comparator)
    ensures c == Eq <==> comp in EQ_STRS
    ensures c == Gt <==> comp in GT_STRS
    ensures c == Lt <==> comp in LT_STRS
  {
    if comp in EQ_STRS then Eq
    else if comp in GT_STRS then Gt
    else if comp in LT_STRS then Lt
    else Unrecognised
  }

  predicate Recognised(f: Filter)
  {
    ComparatorOf(f.comp) != Unrecognised
  }

  /** Whether value v passes filter f; a filter with an unrecognised comparator passes everything. */
  predicate Passes(f: Filter, v: real)
  {
    match ComparatorOf(f.comp)
    case Eq => v == f.thresh
    case Gt => v > f.thresh
    case Lt => v < f.thresh
    case Unrecognised => true
  }

  function Ind(b: bool): nat
  {
    if b then 1 else 0
  }

  /** The five base conditions, each as a truth value. */
  predicate InsideBounds(b: Bounds, vlat: Corners, vlon: Corners)
  {
    MinOf4(vlat) > b.latMin && MaxOf4(vlat) < b.latMax &&
    MinOf4(vlon) > b.lonMin && MaxOf4(vlon) < b.lonMax &&
    MaxOf4(vlon) - MinOf4(vlon) < 50.0
  }

  /** The base part of the retain score, out of 5. */
  function BaseScore(b: Bounds, vlat: Corners, vlon: Corners): nat
  {
    Ind(MinOf4(vlat) > b.latMin) + Ind(MaxOf4(vlat) < b.latMax) +
    Ind(MinOf4(vlon) > b.lonMin) + Ind(MaxOf4(vlon) < b.lonMax) +
    Ind(MaxOf4(vlon) - MinOf4(vlon) < 50.0)
  }

  /** Every filter's field is present, and every recognised filter's field has one entry per pixel. */
  predicate FiltersReadable(filters: seq<Filter>, fields: map<string, seq<real>>, pixels: nat)
  {
    forall i :: 0 <= i < |filters| ==>
      filters[i].key in fields && (Recognised(filters[i]) ==> |fields[filters[i].key]| == pixels)
  }

  /** The count the score is compared with: 5 plus one per recognised filter. */
  function Counter(filters: seq<Filter>): nat
  {
    if filters == [] then 5
    else Counter(filters[..|filters| - 1]) + Ind(Recognised(filters[|filters| - 1]))
  }

  /** The filters' part of pixel p's retain score. */
  function FilterScore(filters: seq<Filter>, fields: map<string, seq<real>>, pixels: nat, p: nat): nat
    requires FiltersReadable(filters, fields, pixels) && p < pixels
  {
    if filters == [] then 0
    else
      var f := filters[|filters| - 1];
      FilterScore(filters[..|filters| - 1], fields, pixels, p) +
      (if Recognised(f) then Ind(Passes(f, fields[f.key][p])) else 0)
  }

  /** Pixel p's score reaches the counter. */
  predicate Retained(g: Granule, b: Bounds, filters: seq<Filter>, p: nat)
    requires p < |g.vertLat| == |g.vertLon| && FiltersReadable(filters, g.fields, |g.vertLat|)
  {
    BaseScore(b, g.vertLat[p], g.vertLon[p]) + FilterScore(filters, g.fields, |g.vertLat|, p) == Counter(filters)
  }

  /** Pixel p passes every filter; only recognised filters can fail. */
  predicate PassesAll(filters: seq<Filter>, fields: map<string, seq<real>>, pixels: nat, p: nat)
    requires FiltersReadable(filters, fields, pixels) && p < pixels
  {
    forall i :: 0 <= i < |filters| && Recognised(filters[i]) ==> Passes(filters[i], fields[filters[i].key][p])
  }

  lemma BaseScoreIff(b: Bounds, vlat: Corners, vlon: Corners)
    ensures BaseScore(b, vlat, vlon) <= 5
    ensures BaseScore(b, vlat, vlon) == 5 <==> InsideBounds(b, vlat, vlon)
  {
  }

  /** The filters' score is at most the number of recognised filters, and reaches it exactly when all pass. */
  lemma {:induction false} FilterScoreIff(filters: seq<Filter>, fields: map<string, seq<real>>, pixels: nat, p: nat)
    requires FiltersReadable(filters, fields, pixels) && p < pixels
    ensures FilterScore(filters, fields, pixels, p) + 5 <= Counter(filters)
    ensures FilterScore(filters, fields, pixels, p) + 5 == Counter(filters) <==> PassesAll(filters, fields, pixels, p)
  {
    if filters != [] {
      var init := filters[..|filters| - 1];
      var f := filters[|filters| - 1];
      assert FiltersReadable(init, fields, pixels) by {
        forall i | 0 <= i < |init|
          ensures init[i].key in fields && (Recognised(init[i]) ==> |fields[init[i].key]| == pixels)
        {
          assert init[i] == filters[i];
        }
      }
      FilterScoreIff(init, fields, pixels, p);
      if PassesAll(filters, fields, pixels, p) {
        forall i | 0 <= i < |init| && Recognised(init[i])
          ensures Passes(init[i], fields[init[i].key][p])
        {
          assert init[i] == filters[i];
        }
        if Recognised(f) {
          assert Passes(filters[|filters| - 1], fields[f.key][p]);
        }
      } else {
        var i :| 0 <= i < |filters| && Recognised(filters[i]) && !Passes(filters[i], fields[filters[i].key][p]);
        if i < |init| {
          assert init[i] == filters[i];
          assert !PassesAll(init, fields, pixels, p);
        }
      }
    }
  }

  /**
   * The additive counter is a conjunction: a pixel is retained exactly when its vertex
   * box is strictly inside the bounds, it is under 50 degrees wide, and every
   * recognised filter holds for it.
   */
  lemma RetainedIff(g: Granule, b: Bounds, filters: seq<Filter>, p: nat)
    requires p < |g.vertLat| == |g.vertLon| && FiltersReadable(filters, g.fields, |g.vertLat|)
    ensures Retained(g, b, filters, p) <==>
      InsideBounds(b, g.vertLat[p], g.vertLon[p]) && PassesAll(filters, g.fields, |g.vertLat|, p)
  {
    BaseScoreIff(b, g.vertLat[p], g.vertLon[p]);
    FilterScoreIff(filters, g.fields, |g.vertLat|, p);
  }

  /** A filter with an unrecognised comparator changes no pixel's fate. */
  lemma UnrecognisedIgnored(g: Granule, b: Bounds, filters: seq<Filter>, f: Filter, p: nat)
    requires p < |g.vertLat| == |g.vertLon| && FiltersReadable(filters + [f], g.fields, |g.vertLat|)
    requires !Recognised(f)
    ensures FiltersReadable(filters, g.fields, |g.vertLat|)
    ensures Retained(g, b, filters + [f], p) <==> Retained(g, b, filters, p)
  {
    var all := filters + [f];
    assert all[..|all| - 1] == filters;
    forall i | 0 <= i < |filters|
      ensures filters[i].key in g.fields && (Recognised(filters[i]) ==> |g.fields[filters[i].key]| == |g.vertLat|)
    {
      assert all[i] == filters[i];
    }
  }

  /** The pixels below k that are retained, in increasing order (np.where on the mask). */
  function RetainedBelow(g: Granule, b: Bounds, filters: seq<Filter>, k: nat): (idx: seq<nat>)
    requires k <= |g.vertLat| == |g.vertLon| && FiltersReadable(filters, g.fields, |g.vertLat|)
    ensures forall i :: 0 <= i < |idx| ==> idx[i] < k
  {
    if k == 0 then []
    else
      var init := RetainedBelow(g, b, filters, k - 1);
      if Retained(g, b, filters, k - 1) then init + [k - 1] else init
  }

  /** The indices below k are exactly the retained pixels below k, each once and in increasing order. */
  lemma {:induction false} RetainedBelowExact(g: Granule, b: Bounds, filters: seq<Filter>, k: nat)
    requires k <= |g.vertLat| == |g.vertLon| && FiltersReadable(filters, g.fields, |g.vertLat|)
    ensures forall i, j :: 0 <= i < j < |RetainedBelow(g, b, filters, k)| ==>
      RetainedBelow(g, b, filters, k)[i] < RetainedBelow(g, b, filters, k)[j]
    ensures forall p: nat :: p in RetainedBelow(g, b, filters, k) <==> p < k && Retained(g, b, filters, p)
  {
    if k > 0 {
      var init := RetainedBelow(g, b, filters, k - 1);
      var keep := Retained(g, b, filters, k - 1);
      RetainedBelowExact(g, b, filters, k - 1);
      IndexSnoc(init, k - 1, keep, RetainedBelow(g, b, filters, k));
    }
  }

  /** Appending an index above all others, or not, keeps a sequence of indices increasing. */
  lemma IndexSnoc(init: seq<nat>, k: nat, keep: bool, r: seq<nat>)
    requires forall i, j :: 0 <= i < j < |init| ==> init[i] < init[j]
    requires forall i :: 0 <= i < |init| ==> init[i] < k
    requires r == if keep then init + [k] else init
    ensures forall i, j :: 0 <= i < j < |r| ==> r[i] < r[j]
    ensures forall p :: p in r <==> p in init || (keep && p == k)
  {
  }

  /** The retained pixels of a granule whose vertex arrays line up. */
  function RetainedPixels(g: Granule, b: Bounds, filters: seq<Filter>): (idx: seq<nat>)
    requires |g.vertLat| == |g.vertLon| && FiltersReadable(filters, g.fields, |g.vertLat|)
  {
    RetainedBelow(g, b, filters, |g.vertLat|)
  }

  /** np.clip(i, lo, hi): raised to lo, then lowered to hi. */
  function Clip(i: int, lo: int, hi: int): (r: int)
    ensures lo <= hi ==> lo <= r <= hi
    ensures lo <= i <= hi ==> r == i
  {
    var up := if i < lo then lo else i;
    if up > hi then hi else up
  }

  /** The grid cell of coordinate v on an axis of len cells spanning lo..hi, clipped to the axis. */
  function CellIndex(v: real, lo: real, hi: real, len: nat): (i: int)
    requires lo < hi
    ensures len > 0 ==> 0 <= i < len
  {
    Clip(((v - lo) / (hi - lo) * len as real).Floor, 0, len - 1)
  }

  /** a / c * d <= b / c * d for a <= b, c > 0 and d >= 0. */
  lemma ScaleMonotone(a: real, b: real, c: real, d: real)
    requires a <= b && c > 0.0 && d >= 0.0
    ensures a / c * d <= b / c * d
  {
    assert a / c <= b / c;
    assert (b / c - a / c) * d >= 0.0;
  }

  lemma FractionBelowOne(a: real, d: real)
    requires a < d && d > 0.0
    ensures a / d < 1.0
  {
    var f := a / d;
    assert f * d == a;
    assert (1.0 - f) * d == d - a;
  }

  /**
   * A coordinate strictly inside lo..hi needs no clipping, and the cell it maps to
   * covers it: cell i spans lo + i * (hi - lo) / len up to lo + (i + 1) * (hi - lo) / len.
   */
  lemma CellIndexCovers(v: real, lo: real, hi: real, len: nat)
    requires lo < v < hi && len > 0
    ensures CellIndex(v, lo, hi, len) == ((v - lo) / (hi - lo) * len as real).Floor
    ensures CellIndex(v, lo, hi, len) as real <= (v - lo) / (hi - lo) * len as real < CellIndex(v, lo, hi, len) as real + 1.0
  {
    var t := (v - lo) / (hi - lo) * len as real;
    ScaleMonotone(0.0, v - lo, hi - lo, len as real);
    var f := (v - lo) / (hi - lo);
    FractionBelowOne(v - lo, hi - lo);
    assert t < len as real by {
      assert (1.0 - f) * len as real > 0.0;
    }
  }

  /** The cell indices of a pixel's four vertices on one axis. */
  function CornerCells(v: Corners, lo: real, hi: real, len: nat): (q: Quad)
    requires lo < hi
    ensures forall k :: 0 <= k < 4 ==> q[k] == CellIndex(v[k], lo, hi, len)
  {
    [CellIndex(v[0], lo, hi, len), CellIndex(v[1], lo, hi, len),
     CellIndex(v[2], lo, hi, len), CellIndex(v[3], lo, hi, len)]
  }

  /** The fields of every variable are present with one entry per pixel. */
  predicate VariablesReadable(variables: seq<string>, fields: map<string, seq<real>>, pixels: nat)
  {
    forall c :: 0 <= c < |variables| ==> variables[c] in fields && |fields[variables[c]]| == pixels
  }

  /** Pixel p's value for each variable, in the order the variables are named. */
  function Values(variables: seq<string>, fields: map<string, seq<real>>, pixels: nat, p: nat): (x: seq<real>)
    requires VariablesReadable(variables, fields, pixels) && p < pixels
    ensures |x| == |variables| && forall c :: 0 <= c < |variables| ==> x[c] == fields[variables[c]][p]
  {
    seq(|variables|, c requires 0 <= c < |variables| => fields[variables[c]][p])
  }

  /** What the granule step does. */
  datatype Outcome =
    | OutsideBounds           // no centre strictly inside the bounds: nothing read further
    | Malformed               // a field missing or arrays that do not line up: abandoned
    | NothingRetained         // no pixel passes the mask
    | EmptyGrid               // pixels retained but the grid has no cells: abandoned
    | Accumulate(fps: seq<Footprint>)

  /** Some sounding centre lies strictly inside the bounds. */
  predicate AnyCentreInside(g: Granule, b: Bounds)
    requires |g.lat| == |g.lon|
  {
    exists i :: 0 <= i < |g.lat| && b.latMin < g.lat[i] < b.latMax && b.lonMin < g.lon[i] < b.lonMax
  }

  /** A retained pixel's vertex box lies strictly inside the bounds, so the bounds are not empty. */
  lemma RetainedBoundsOpen(g: Granule, b: Bounds, filters: seq<Filter>, p: nat)
    requires p < |g.vertLat| == |g.vertLon| && FiltersReadable(filters, g.fields, |g.vertLat|)
    requires Retained(g, b, filters, p)
    ensures b.latMin < b.latMax && b.lonMin < b.lonMax
  {
    RetainedIff(g, b, filters, p);
    var vlat, vlon := g.vertLat[p], g.vertLon[p];
    assert MinOf4(vlat) <= vlat[0] <= MaxOf4(vlat);
    assert MinOf4(vlon) <= vlon[0] <= MaxOf4(vlon);
  }

  /**
   * The footprints of the retained pixels in grid-index space: each vertex mapped to
   * its clipped cell on a grid of nLat x nLon cells, with the pixel's values.
   */
  function Footprints(g: Granule, b: Bounds, variables: seq<string>, idx: seq<nat>, nLat: nat, nLon: nat): (fps: seq<Footprint>)
    requires |g.vertLat| == |g.vertLon| && b.latMin < b.latMax && b.lonMin < b.lonMax
    requires forall i :: 0 <= i < |idx| ==> idx[i] < |g.vertLat|
    requires VariablesReadable(variables, g.fields, |g.vertLat|)
    ensures |fps| == |idx|
    ensures forall i :: 0 <= i < |idx| ==>
      fps[i].lat == CornerCells(g.vertLat[idx[i]], b.latMin, b.latMax, nLat) &&
      fps[i].lon == CornerCells(g.vertLon[idx[i]], b.lonMin, b.lonMax, nLon) &&
      fps[i].x == Values(variables, g.fields, |g.vertLat|, idx[i])
  {
    seq(|idx|, i requires 0 <= i < |idx| =>
      Footprint(CornerCells(g.vertLat[idx[i]], b.latMin, b.latMax, nLat),
                CornerCells(g.vertLon[idx[i]], b.lonMin, b.lonMax, nLon),
                Values(variables, g.fields, |g.vertLat|, idx[i])))
  }

  /**
   * The granule step's decision, in the order the source reads the granule: centres,
   * vertices, filter fields, the mask, the variables, then the index mapping.
   */
  function Classify(g: Granule, b: Bounds, filters: seq<Filter>, variables: seq<string>, nLat: nat, nLon: nat): (o: Outcome)
  {
    if |g.lat| != |g.lon| then Malformed
    else if !AnyCentreInside(g, b) then OutsideBounds
    else if |g.vertLat| != |g.vertLon| || !FiltersReadable(filters, g.fields, |g.vertLat|) then Malformed
    else
      var idx := RetainedPixels(g, b, filters);
      if idx == [] then NothingRetained
      else if !VariablesReadable(variables, g.fields, |g.vertLat|) then Malformed
      else if nLat == 0 || nLon == 0 then EmptyGrid
      else
        RetainedBelowExact(g, b, filters, |g.vertLat|);
        assert idx[0] in idx;
        RetainedBoundsOpen(g, b, filters, idx[0]);
        Accumulate(Footprints(g, b, variables, idx, nLat, nLon))
  }

  /**
   * Footprints handed to the accumulator are the retained pixels, each with vertex
   * cells inside the grid and one value per variable.
   */
  lemma ClassifyAccumulates(g: Granule, b: Bounds, filters: seq<Filter>, variables: seq<string>, nLat: nat, nLon: nat)
    requires Classify(g, b, filters, variables, nLat, nLon).Accumulate?
    ensures |g.lat| == |g.lon| && AnyCentreInside(g, b)
    ensures |g.vertLat| == |g.vertLon| && FiltersReadable(filters, g.fields, |g.vertLat|)
    ensures var fps := Classify(g, b, filters, variables, nLat, nLon).fps;
      |fps| == |RetainedPixels(g, b, filters)| > 0 &&
      forall i :: 0 <= i < |fps| ==>
        |fps[i].x| == |variables| &&
        forall k :: 0 <= k < 4 ==> 0 <= fps[i].lat[k] < nLat && 0 <= fps[i].lon[k] < nLon
  {
  }

  /**
   * process_day_granule: decide what the granule contributes and fold it into the
   * rasters.  Unless footprints are accumulated the rasters are left as they were.
   */
  method ProcessDayGranule(acc: Accumulator, g: Granule, b: Bounds, filters: seq<Filter>, variables: seq<string>)
    returns (o: Outcome)
    requires acc.Valid() && acc.nVars == |variables|
    modifies acc.weight, acc.mean, acc.points
    ensures o == Classify(g, b, filters, variables, acc.nLat, acc.nLon)
    ensures acc.Valid()
    ensures o.Accumulate? ==>
      (forall lo, la :: 0 <= lo < acc.nLon && 0 <= la < acc.nLat ==>
        acc.weight[lo, la] == old(acc.weight[lo, la]) + CellWeight(Updates(o.fps, acc.n), lo, la)) &&
      (forall lo, la, z :: 0 <= lo < acc.nLon && 0 <= la < acc.nLat && 0 <= z < acc.nVars ==>
        acc.mean[lo, la, z] == MeanAfter(old(acc.mean[lo, la, z]), old(acc.weight[lo, la]), Updates(o.fps, acc.n), lo, la, z))
    ensures !o.Accumulate? ==> unchanged(acc.weight, acc.mean)
  {
    o := Classify(g, b, filters, variables, acc.nLat, acc.nLon);
    if o.Accumulate? {
      ClassifyAccumulates(g, b, filters, variables, acc.nLat, acc.nLon);
      acc.FavgAll(o.fps);
    }
  }
}
