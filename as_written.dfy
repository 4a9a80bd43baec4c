/**
 * The subdivision factor as the granule step actually passes it.
 *
 * process_day_granule hands favg_all the number of variables as its subdivision
 * factor n, while the sample buffer the day loop allocates is N_GRID x N_GRID
 * (N_GRID = 10).  favg_all then floors and applies every entry of the buffer, not
 * just the n x n corner get_points wrote.  This module models that call as written
 * and exhibits footprints whose contribution it gets wrong; the accumulator in
 * module Accumulation is used with n = N_GRID, the buffer's own size, for which
 * every footprint contributes weight 1.
 */
module AsWritten {
  import opened Sampling
  import opened Folds
  import opened Wrappers
  import opened Accumulation

  /** An N_GRID x N_GRID buffer of sample points, latitude then longitude. */
  predicate IsBuffer(b: seq<seq<seq<real>>>)
  {
    |b| == N_GRID && forall i :: 0 <= i < N_GRID ==> |b[i]| == N_GRID && forall j :: 0 <= j < N_GRID ==> |b[i][j]| == 2
  }

  /** The buffer the day loop allocates: all zeros. */
  function ZeroBuffer(): (b: seq<seq<seq<real>>>)
    ensures IsBuffer(b)
    ensures forall i, j, c :: 0 <= i < N_GRID && 0 <= j < N_GRID && 0 <= c < 2 ==> b[i][j][c] == 0.0
  {
    seq(N_GRID, i => seq(N_GRID, j => [0.0, 0.0]))
  }

  /**
   * Buffer contents after get_points with factor n: the n x n corner holds the
   * lattice, every other entry what the buffer held before.
   */
  function BufferAfterGetPoints(stale: seq<seq<seq<real>>>, fp: Footprint, n: nat): (b: seq<seq<seq<real>>>)
    requires IsBuffer(stale) && 0 < n <= N_GRID
    ensures IsBuffer(b)
  {
    seq(N_GRID, i requires 0 <= i < N_GRID =>
      seq(N_GRID, j requires 0 <= j < N_GRID =>
        if i < n && j < n then [Sample(AsReals(fp.lat), n, i, j), Sample(AsReals(fp.lon), n, i, j)] else stale[i][j]))
  }

  /**
   * The updates one footprint performs as the granule step calls favg_all: the
   * subdivision factor is n, the number of variables, but the whole N_GRID x N_GRID
   * buffer is floored and applied with weight 1/n^2, the entries get_points did not
   * write included.  None where the call raises: n = 0 divides by zero, and a sampled
   * footprint with n > N_GRID writes past the buffer.
   */
  function FootprintUpdatesAsWritten(fp: Footprint, n: nat, stale: seq<seq<seq<real>>>): (r: Option<seq<Update>>)
    requires IsBuffer(stale)
    ensures r.None? <==> n == 0 || (Sampled(fp, n) && n > N_GRID)
    ensures r.Some? && Sampled(fp, n) ==> |r.value| == N_GRID * N_GRID && forall k :: 0 <= k < |r.value| ==> r.value[k].w == Fac(n)
    ensures r.Some? && !SingleCell(fp) && !Sampled(fp, n) ==> r.value == []
  {
    if n == 0 then None
    else if SingleCell(fp) then Some([Update(fp.lon[0], fp.lat[0], 1.0, fp.x)])
    else if Sampled(fp, n) then
      if n > N_GRID then None
      else
        var b := BufferAfterGetPoints(stale, fp, n);
        Some(seq(N_GRID * N_GRID, k requires 0 <= k < N_GRID * N_GRID =>
          Update(b[k / N_GRID][k % N_GRID][1].Floor, b[k / N_GRID][k % N_GRID][0].Floor, Fac(n), fp.x)))
    else Some([])
  }

  /**
   * As written, with one variable (n = 1) a footprint spanning two latitude cells
   * adds weight 100 instead of 1: the single lattice point lands in its own cell and
   * the 99 zero entries of the buffer each add weight 1 to cell (0, 0).  With the
   * buffer's own size as the factor the same footprint adds weight 1.
   */
  lemma AsWrittenOverweights()
    ensures var fp := Footprint([5, 5, 6, 6], [3, 3, 3, 3], [1.0]);
      var r := FootprintUpdatesAsWritten(fp, 1, ZeroBuffer());
      r.Some? && |r.value| == 100 && TotalWeight(r.value) == 100.0 &&
      (forall k :: 1 <= k < 100 ==> r.value[k].lon == 0 && r.value[k].lat == 0) &&
      TotalWeight(FootprintUpdates(fp, N_GRID)) == 1.0
  {
    var fp := Footprint([5, 5, 6, 6], [3, 3, 3, 3], [1.0]);
    assert Sampled(fp, 1) && Sampled(fp, N_GRID);
    var r := FootprintUpdatesAsWritten(fp, 1, ZeroBuffer());
    SumOfConstant(r.value, Weight, 1.0);
    forall k | 1 <= k < 100
      ensures r.value[k].lon == 0 && r.value[k].lat == 0
    {
      assert k / N_GRID >= 1 || k % N_GRID >= 1;
    }
    FootprintTotalWeight(fp, N_GRID);
  }

  /**
   * As written, with one variable (n = 1) a footprint spanning two longitude cells
   * is dropped; with the buffer's own size as the factor it adds weight 1.
   */
  lemma AsWrittenDropsSpan()
    ensures var fp := Footprint([5, 5, 5, 5], [3, 4, 4, 3], [1.0]);
      FootprintUpdatesAsWritten(fp, 1, ZeroBuffer()) == Some([]) &&
      TotalWeight(FootprintUpdates(fp, N_GRID)) == 1.0
  {
    var fp := Footprint([5, 5, 5, 5], [3, 4, 4, 3], [1.0]);
    assert !SingleCell(fp) && !Sampled(fp, 1) && Sampled(fp, N_GRID);
    FootprintTotalWeight(fp, N_GRID);
  }
}
