/** The hierarchical aggregator of bucky/graph.py (`sum_adm1`): a segmented sum
    that adds every fine-region row into the coarse-region row its group key
    names, the way `scatter_add(out, ids, vals)` does, one row after another. */
module Aggregate {
  import opened Arrays

  /** Element-wise sum of two vectors of one length. */
  function VecAdd(a: seq<real>, b: seq<real>): (r: seq<real>)
    requires |a| == |b|
    ensures |r| == |a|
  {
    seq(|a|, (j: int) requires 0 <= j < |a| => a[j] + b[j])
  }

  /** Every group key names a row of an output with `groups` rows. */
  predicate IdsInRange(ids: seq<int>, groups: nat)
  {
    forall n :: 0 <= n < |ids| ==> 0 <= ids[n] < groups
  }

  /** A `rows` x `cols` array of zeros. */
  function Zeros(rows: nat, cols: nat): (z: Mat)
    ensures Rows(z) == rows && z.cols == cols
    ensures forall i, j :: 0 <= i < rows && 0 <= j < cols ==> z.cells[i][j] == 0.0
  {
    Matrix(cols, seq(rows, _ => seq(cols, _ => 0.0)))
  }

  /** The state of `out` after `scatter_add(out, ids, vals)` has added the first
      `n` rows of `vals`: row n - 1 of `vals` goes into row `ids[n - 1]`. */
  function ScatterAdd(out: Mat, ids: seq<int>, vals: Mat, n: nat): (r: Mat)
    requires |ids| == Rows(vals) && n <= |ids| && vals.cols == out.cols
    requires IdsInRange(ids, Rows(out))
    ensures Rows(r) == Rows(out) && r.cols == out.cols
  {
    if n == 0 then out
    else
      var prev := ScatterAdd(out, ids, vals, n - 1);
      var g := ids[n - 1];
      Matrix(prev.cols, prev.cells[g := VecAdd(prev.cells[g], vals.cells[n - 1])])
  }

  /** Column j of the sum of those of the first `n` rows of `vals` whose key is `g`. */
  function GroupSum(vals: Mat, ids: seq<int>, g: int, j: nat, n: nat): real
    requires |ids| == Rows(vals) && n <= |ids| && j < vals.cols
  {
    if n == 0 then 0.0
    else GroupSum(vals, ids, g, j, n - 1) + (if ids[n - 1] == g then vals.cells[n - 1][j] else 0.0)
  }

  /** After the scatter, element (g, j) is its old value plus the sum over the
      rows keyed g: row g collects exactly its members. */
  lemma {:induction false} ScatterAddAt(out: Mat, ids: seq<int>, vals: Mat, n: nat, g: nat, j: nat)
    requires |ids| == Rows(vals) && n <= |ids| && vals.cols == out.cols
    requires IdsInRange(ids, Rows(out))
    requires g < Rows(out) && j < out.cols
    ensures ScatterAdd(out, ids, vals, n).cells[g][j] == out.cells[g][j] + GroupSum(vals, ids, g, j, n)
  {
    if n > 0 {
      ScatterAddAt(out, ids, vals, n - 1, g, j);
    }
  }

  /** A group that no row is keyed to sums to zero. */
  lemma {:induction false} GroupSumOfEmptyGroup(vals: Mat, ids: seq<int>, g: int, j: nat, n: nat)
    requires |ids| == Rows(vals) && n <= |ids| && j < vals.cols
    requires forall k :: 0 <= k < n ==> ids[k] != g
    ensures GroupSum(vals, ids, g, j, n) == 0.0
  {
    if n > 0 {
      GroupSumOfEmptyGroup(vals, ids, g, j, n - 1);
    }
  }

  // ------------------------------------------------------------ conservation

  /** The sum of all elements of a sequence of rows. */
  function Total(rows: seq<seq<real>>): real
  {
    if |rows| == 0 then 0.0 else Sum(rows[0]) + Total(rows[1..])
  }

  lemma {:induction false} SumVecAdd(a: seq<real>, b: seq<real>)
    requires |a| == |b|
    ensures Sum(VecAdd(a, b)) == Sum(a) + Sum(b)
  {
    if |a| > 0 {
      assert VecAdd(a, b)[1..] == VecAdd(a[1..], b[1..]);
      SumVecAdd(a[1..], b[1..]);
    }
  }

  lemma SumZeros(k: nat)
    ensures Sum(seq(k, _ => 0.0)) == 0.0
  {
    if k > 0 {
      assert seq(k, _ => 0.0)[1..] == seq(k - 1, _ => 0.0);
      SumZeros(k - 1);
    }
  }

  lemma {:induction false} TotalZeros(rows: nat, cols: nat)
    ensures Total(Zeros(rows, cols).cells) == 0.0
  {
    if rows > 0 {
      assert Zeros(rows, cols).cells[1..] == Zeros(rows - 1, cols).cells;
      SumZeros(cols);
      TotalZeros(rows - 1, cols);
    }
  }

  /** Replacing one row changes the total by the change of that row's sum. */
  lemma {:induction false} TotalUpdate(rows: seq<seq<real>>, g: nat, r: seq<real>)
    requires g < |rows|
    ensures Total(rows[g := r]) == Total(rows) - Sum(rows[g]) + Sum(r)
  {
    if g == 0 {
      assert rows[g := r][1..] == rows[1..];
    } else {
      assert rows[g := r][1..] == rows[1..][g - 1 := r];
      TotalUpdate(rows[1..], g - 1, r);
    }
  }

  lemma {:induction false} TotalAppend(rows: seq<seq<real>>, r: seq<real>)
    ensures Total(rows + [r]) == Total(rows) + Sum(r)
  {
    if |rows| == 0 {
      assert ([] + [r])[1..] == [];
    } else {
      assert (rows + [r])[1..] == rows[1..] + [r];
      TotalAppend(rows[1..], r);
    }
  }

  /** Scattering the first `n` rows adds exactly their total to the total of
      the output: no mass is lost or counted twice. */
  lemma {:induction false} ScatterAddConserves(out: Mat, ids: seq<int>, vals: Mat, n: nat)
    requires |ids| == Rows(vals) && n <= |ids| && vals.cols == out.cols
    requires IdsInRange(ids, Rows(out))
    ensures Total(ScatterAdd(out, ids, vals, n).cells) == Total(out.cells) + Total(vals.cells[..n])
  {
    if n > 0 {
      ScatterAddConserves(out, ids, vals, n - 1);
      var prev := ScatterAdd(out, ids, vals, n - 1);
      var g := ids[n - 1];
      TotalUpdate(prev.cells, g, VecAdd(prev.cells[g], vals.cells[n - 1]));
      SumVecAdd(prev.cells[g], vals.cells[n - 1]);
      assert vals.cells[..n] == vals.cells[..n - 1] + [vals.cells[n - 1]];
      TotalAppend(vals.cells[..n - 1], vals.cells[n - 1]);
    }
  }

  /** The aggregate of `vals` over `groups` coarse rows: a zero buffer into
      which every row has been scattered. */
  function Aggregated(vals: Mat, ids: seq<int>, groups: nat): (r: Mat)
    requires |ids| == Rows(vals) && IdsInRange(ids, groups)
    ensures Rows(r) == groups && r.cols == vals.cols
  {
    ScatterAdd(Zeros(groups, vals.cols), ids, vals, |ids|)
  }

  /** Row g of the aggregate is the sum of the rows keyed g, and a group with
      no members is a row of zeros. */
  lemma AggregatedAt(vals: Mat, ids: seq<int>, groups: nat, g: nat, j: nat)
    requires |ids| == Rows(vals) && IdsInRange(ids, groups)
    requires g < groups && j < vals.cols
    ensures Aggregated(vals, ids, groups).cells[g][j] == GroupSum(vals, ids, g, j, |ids|)
    ensures (forall n :: 0 <= n < |ids| ==> ids[n] != g) ==> Aggregated(vals, ids, groups).cells[g][j] == 0.0
  {
    ScatterAddAt(Zeros(groups, vals.cols), ids, vals, |ids|, g, j);
    if forall n :: 0 <= n < |ids| ==> ids[n] != g {
      GroupSumOfEmptyGroup(vals, ids, g, j, |ids|);
    }
  }

  /** The aggregate has the same total as the input. */
  lemma AggregatedConserves(vals: Mat, ids: seq<int>, groups: nat)
    requires |ids| == Rows(vals) && IdsInRange(ids, groups)
    ensures Total(Aggregated(vals, ids, groups).cells) == Total(vals.cells)
  {
    ScatterAddConserves(Zeros(groups, vals.cols), ids, vals, |ids|);
    TotalZeros(groups, vals.cols);
    assert vals.cells[..|ids|] == vals.cells;
  }

  /** Four regions keyed [0, 0, 1, 1] with values 10, 20, 30, 40 aggregate to
      [30, 70], and to [30, 70, 0] when a third, empty group exists. */
  lemma AggregatedExample()
    ensures Aggregated(Matrix(1, [[10.0], [20.0], [30.0], [40.0]]), [0, 0, 1, 1], 2).cells == [[30.0], [70.0]]
    ensures Aggregated(Matrix(1, [[10.0], [20.0], [30.0], [40.0]]), [0, 0, 1, 1], 3).cells == [[30.0], [70.0], [0.0]]
  {
    var vals: Mat := Matrix(1, [[10.0], [20.0], [30.0], [40.0]]);
    var ids := [0, 0, 1, 1];
    assert GroupSum(vals, ids, 0, 0, 4) == 30.0;
    assert GroupSum(vals, ids, 1, 0, 4) == 70.0;
    assert GroupSum(vals, ids, 2, 0, 4) == 0.0;
    var two := Aggregated(vals, ids, 2);
    var three := Aggregated(vals, ids, 3);
    forall g | 0 <= g < 3
      ensures three.cells[g] == [GroupSum(vals, ids, g, 0, 4)]
      ensures g < 2 ==> two.cells[g] == [GroupSum(vals, ids, g, 0, 4)]
    {
      AggregatedAt(vals, ids, 3, g, 0);
      if g < 2 {
        AggregatedAt(vals, ids, 2, g, 0);
      }
    }
  }

  // ------------------------------------------------- in-place scatter

  /** The contents of a two-dimensional buffer. */
  function Cells(a: array2<real>): (m: Mat)
    reads a
    ensures Rows(m) == a.Length0 && m.cols == a.Length1
  {
    Matrix(a.Length1, seq(a.Length0, (i: int) reads a requires 0 <= i < a.Length0 =>
                        seq(a.Length1, (j: int) reads a requires 0 <= j < a.Length1 => a[i, j])))
  }

  /** `scatter_add(out, ids, vals)`: adds row n of `vals` into row `ids[n]` of
      `out`, in place, for every n in turn. */
  method ScatterAddInPlace(out: array2<real>, ids: seq<int>, vals: Mat)
    requires |ids| == Rows(vals) && vals.cols == out.Length1
    requires IdsInRange(ids, out.Length0)
    modifies out
    ensures Cells(out) == ScatterAdd(old(Cells(out)), ids, vals, |ids|)
  {
    ghost var start := Cells(out);
    var n := 0;
    while n < |ids|
      invariant 0 <= n <= |ids|
      invariant forall g, j :: 0 <= g < out.Length0 && 0 <= j < out.Length1 ==>
        out[g, j] == ScatterAdd(start, ids, vals, n).cells[g][j]
    {
      ghost var before := ScatterAdd(start, ids, vals, n);
      var g0 := ids[n];
      var c := 0;
      while c < out.Length1
        invariant 0 <= c <= out.Length1
        invariant forall g, j :: 0 <= g < out.Length0 && 0 <= j < out.Length1 ==>
          out[g, j] == if g == g0 && j < c then before.cells[g][j] + vals.cells[n][j] else before.cells[g][j]
      {
        out[g0, c] := out[g0, c] + vals.cells[n][c];
        c := c + 1;
      }
      n := n + 1;
    }
    ghost var final := ScatterAdd(start, ids, vals, |ids|);
    assert Cells(out).cells == final.cells by {
      forall g | 0 <= g < out.Length0
        ensures Cells(out).cells[g] == final.cells[g]
      {
      }
    }
  }
}
