/** The node-attribute extractor of bucky/graph.py (`_read_node_attr`): reads one
    attribute of every node, stacks the values into a (node x index) array,
    transposes it to (index x node), and optionally clips it and takes its first
    difference along axis 0. */
module NodeAttr {
  import opened Wrappers
  import opened Errors
  import opened Arrays

  /** A node's attributes, by name. After relabelling, the position of a node in
      the graph's node sequence is its integer label. A scalar attribute is a
      sequence of length one: stacking treats a scalar as a one-element row. */
  type Node = map<string, seq<real>>

  /** What the extractor returns: the array, or the array and its clipped first
      difference when differencing is requested. */
  datatype Extracted = Single(arr: Mat) | Pair(arr: Mat, diff: Mat)

  /** `get_node_attributes(G, name).values()`: the attribute's value for every
      node that carries it, in node order; nodes without it are skipped. */
  function Present(nodes: seq<Node>, name: string): (r: seq<seq<real>>)
    ensures |r| <= |nodes|
    ensures |r| == |nodes| <==> forall i :: 0 <= i < |nodes| ==> name in nodes[i]
  {
    PresentFrom(nodes, name, 0)
  }

  /** The values of the carrying nodes from position `i` on. */
  function PresentFrom(nodes: seq<Node>, name: string, i: nat): (r: seq<seq<real>>)
    requires i <= |nodes|
    ensures |r| <= |nodes| - i
    ensures |r| == |nodes| - i <==> forall j :: i <= j < |nodes| ==> name in nodes[j]
    decreases |nodes| - i
  {
    if i == |nodes| then []
    else if name in nodes[i] then [nodes[i][name]] + PresentFrom(nodes, name, i + 1)
    else PresentFrom(nodes, name, i + 1)
  }

  /** The positions from `i` on of the nodes that carry the attribute: each is
      a carrying node from `i` on. */
  function Carriers(nodes: seq<Node>, name: string, i: nat): (idx: seq<nat>)
    requires i <= |nodes|
    ensures forall k :: 0 <= k < |idx| ==> i <= idx[k] < |nodes| && name in nodes[idx[k]]
    decreases |nodes| - i
  {
    if i == |nodes| then []
    else if name in nodes[i] then [i] + Carriers(nodes, name, i + 1)
    else Carriers(nodes, name, i + 1)
  }

  /** The carrying positions are strictly increasing. */
  lemma {:induction false} CarriersIncreasing(nodes: seq<Node>, name: string, i: nat)
    requires i <= |nodes|
    ensures forall k1, k2 :: 0 <= k1 < k2 < |Carriers(nodes, name, i)| ==>
      Carriers(nodes, name, i)[k1] < Carriers(nodes, name, i)[k2]
    decreases |nodes| - i
  {
    if i < |nodes| && name in nodes[i] {
      CarriersIncreasing(nodes, name, i + 1);
      var later := Carriers(nodes, name, i + 1);
      var idx := [i] + later;
      assert Carriers(nodes, name, i) == idx;
      forall k1, k2 | 0 <= k1 < k2 < |idx|
        ensures idx[k1] < idx[k2]
      {
        assert idx[k2] == later[k2 - 1];
        if k1 > 0 {
          assert idx[k1] == later[k1 - 1];
        }
      }
    } else if i < |nodes| {
      CarriersIncreasing(nodes, name, i + 1);
    }
  }

  /** Every carrying node from `i` on is among the carrying positions. */
  lemma {:induction false} CarriersComplete(nodes: seq<Node>, name: string, i: nat)
    requires i <= |nodes|
    ensures forall j :: i <= j < |nodes| && name in nodes[j] ==> j in Carriers(nodes, name, i)
    decreases |nodes| - i
  {
    if i < |nodes| {
      CarriersComplete(nodes, name, i + 1);
      var later := Carriers(nodes, name, i + 1);
      if name in nodes[i] {
        var idx := [i] + later;
        assert Carriers(nodes, name, i) == idx;
        forall j | i <= j < |nodes| && name in nodes[j]
          ensures j in idx
        {
          if j == i {
            assert idx[0] == j;
          } else {
            var k :| 0 <= k < |later| && later[k] == j;
            assert idx[k + 1] == j;
          }
        }
      }
    }
  }

  /** From any position on, value k is the attribute of the k-th carrying node. */
  lemma {:induction false} PresentCarriers(nodes: seq<Node>, name: string, i: nat)
    requires i <= |nodes|
    ensures |PresentFrom(nodes, name, i)| == |Carriers(nodes, name, i)|
    ensures forall k :: 0 <= k < |PresentFrom(nodes, name, i)| ==>
      PresentFrom(nodes, name, i)[k] == nodes[Carriers(nodes, name, i)[k]][name]
    decreases |nodes| - i
  {
    if i < |nodes| {
      PresentCarriers(nodes, name, i + 1);
      var rest := PresentFrom(nodes, name, i + 1);
      var later := Carriers(nodes, name, i + 1);
      if name in nodes[i] {
        var v := nodes[i][name];
        assert PresentFrom(nodes, name, i) == [v] + rest;
        assert Carriers(nodes, name, i) == [i] + later;
        forall k | 0 <= k < |rest| + 1
          ensures ([v] + rest)[k] == nodes[([i] + later)[k]][name]
        {
          if k > 0 {
            assert ([v] + rest)[k] == rest[k - 1];
            assert ([i] + later)[k] == later[k - 1];
          }
        }
      }
    }
  }

  /** `get_node_attributes(...).values()` over the whole graph: value k is the
      attribute of the k-th carrying node, in node order. */
  lemma PresentInNodeOrder(nodes: seq<Node>, name: string)
    ensures |Present(nodes, name)| == |Carriers(nodes, name, 0)|
    ensures forall k :: 0 <= k < |Present(nodes, name)| ==>
      Present(nodes, name)[k] == nodes[Carriers(nodes, name, 0)[k]][name]
  {
    PresentCarriers(nodes, name, 0);
  }

  /** When every node carries the attribute, value n is node n's. */
  lemma PresentAll(nodes: seq<Node>, name: string)
    requires forall i :: 0 <= i < |nodes| ==> name in nodes[i]
    ensures |Present(nodes, name)| == |nodes|
    ensures forall i :: 0 <= i < |nodes| ==> Present(nodes, name)[i] == nodes[i][name]
  {
    PresentInNodeOrder(nodes, name);
    CarriersAll(nodes, name, 0);
  }

  /** When every node from `i` on carries the attribute, they are all carriers. */
  lemma {:induction false} CarriersAll(nodes: seq<Node>, name: string, i: nat)
    requires i <= |nodes| && forall j :: i <= j < |nodes| ==> name in nodes[j]
    ensures |Carriers(nodes, name, i)| == |nodes| - i
    ensures forall k :: 0 <= k < |nodes| - i ==> Carriers(nodes, name, i)[k] == i + k
    decreases |nodes| - i
  {
    if i < |nodes| {
      CarriersAll(nodes, name, i + 1);
    }
  }

  /** `vstack` can stack the values: there is at least one, all of one length. */
  predicate Stackable(vals: seq<seq<real>>)
  {
    |vals| > 0 && forall i :: 0 <= i < |vals| ==> |vals[i]| == |vals[0]|
  }

  /** `vstack(vals)` of one-dimensional values: row n is value n. */
  function Stack(vals: seq<seq<real>>): (r: Result<Mat, Error>)
    ensures r.Ok? <==> Stackable(vals)
    ensures r.Ok? ==> Rows(r.value) == |vals| && r.value.cells == vals
  {
    if |vals| == 0 then Err(NothingToStack)
    else if exists i :: 0 <= i < |vals| && |vals[i]| != |vals[0]| then Err(RaggedStack)
    else Ok(Matrix(|vals[0]|, vals))
  }

  /** Clipping happens when either bound is given. */
  predicate Clipping(lo: Option<real>, hi: Option<real>)
  {
    lo.Some? || hi.Some?
  }

  /** The value an element has after the cast and the optional clip. */
  function Prepared(x: real, dtype: DType, lo: Option<real>, hi: Option<real>): real
  {
    ClipValue(Cast(dtype, x), lo, hi)
  }

  /** `arr` is the transposed, cast and clipped stack of `vals`:
      `arr[t][n]` is the prepared t-th element of the n-th value. */
  ghost predicate ExtractedFrom(arr: Mat, vals: seq<seq<real>>, dtype: DType, lo: Option<real>, hi: Option<real>)
    requires Stackable(vals)
  {
    Rows(arr) == |vals[0]| && arr.cols == |vals| &&
    forall t, n :: 0 <= t < Rows(arr) && 0 <= n < arr.cols ==>
      arr.cells[t][n] == Prepared(vals[n][t], dtype, lo, hi)
  }

  /** `d` is the first difference of `arr` along axis 0, cast and clipped on its own. */
  ghost predicate DifferencedFrom(d: Mat, arr: Mat, dtype: DType, lo: Option<real>, hi: Option<real>)
  {
    Rows(d) == (if Rows(arr) == 0 then 0 else Rows(arr) - 1) && d.cols == arr.cols &&
    forall t, n :: 0 <= t < Rows(d) && 0 <= n < d.cols ==>
      d.cells[t][n] == Prepared(arr.cells[t + 1][n] - arr.cells[t][n], dtype, lo, hi)
  }

  /** `_read_node_attr(G, name, diff, dtype, a_min, a_max)`. */
  function ReadNodeAttr(nodes: seq<Node>, name: string, diff: bool, dtype: DType,
                        lo: Option<real>, hi: Option<real>): (r: Result<Extracted, Error>)
    ensures r.Ok? <==> Stackable(Present(nodes, name))
    ensures r.Ok? ==> (r.value.Pair? <==> diff)
    ensures r.Ok? ==> ExtractedFrom(r.value.arr, Present(nodes, name), dtype, lo, hi)
    ensures r.Ok? && diff ==> DifferencedFrom(r.value.diff, r.value.arr, dtype, lo, hi)
  {
    var clipping := Clipping(lo, hi);
    var stacked :- Stack(Present(nodes, name));
    var cast := Transpose(CastAll(stacked, dtype));
    var arr := if clipping then Clip(cast, lo, hi) else cast;
    PreparedArray(stacked, dtype, lo, hi);
    if diff then
      var d := CastAll(Diff(arr), dtype);
      PreparedDiff(arr, dtype, lo, hi);
      Ok(Pair(arr, if clipping then Clip(d, lo, hi) else d))
    else
      Ok(Single(arr))
  }

  lemma PreparedArray(stacked: Mat, dtype: DType, lo: Option<real>, hi: Option<real>)
    requires Stackable(stacked.cells)
    ensures var cast := Transpose(CastAll(stacked, dtype));
      ExtractedFrom(if Clipping(lo, hi) then Clip(cast, lo, hi) else cast, stacked.cells, dtype, lo, hi)
  {
    var cast := Transpose(CastAll(stacked, dtype));
    var arr := if Clipping(lo, hi) then Clip(cast, lo, hi) else cast;
    assert Rows(cast) == stacked.cols == |stacked.cells[0]|;
    forall t, n | 0 <= t < Rows(arr) && 0 <= n < arr.cols
      ensures arr.cells[t][n] == Prepared(stacked.cells[n][t], dtype, lo, hi)
    {
      assert cast.cells[t][n] == Cast(dtype, stacked.cells[n][t]);
    }
  }

  lemma PreparedDiff(arr: Mat, dtype: DType, lo: Option<real>, hi: Option<real>)
    ensures var d := CastAll(Diff(arr), dtype);
      DifferencedFrom(if Clipping(lo, hi) then Clip(d, lo, hi) else d, arr, dtype, lo, hi)
  {
    var d := CastAll(Diff(arr), dtype);
    var c := if Clipping(lo, hi) then Clip(d, lo, hi) else d;
    forall t, n | 0 <= t < Rows(c) && 0 <= n < c.cols
      ensures c.cells[t][n] == Prepared(arr.cells[t + 1][n] - arr.cells[t][n], dtype, lo, hi)
    {
      assert d.cells[t][n] == Cast(dtype, arr.cells[t + 1][n] - arr.cells[t][n]);
    }
  }

  /** With a lower bound (and an upper bound not below it) every element of
      both returned arrays is at least the lower bound; with an upper bound
      every element is at most it. */
  lemma ReadNodeAttrBounds(nodes: seq<Node>, name: string, diff: bool, dtype: DType,
                           lo: Option<real>, hi: Option<real>)
    requires ReadNodeAttr(nodes, name, diff, dtype, lo, hi).Ok?
    ensures var e := ReadNodeAttr(nodes, name, diff, dtype, lo, hi).value;
      (forall t, n :: 0 <= t < Rows(e.arr) && 0 <= n < e.arr.cols ==>
         (hi.Some? ==> e.arr.cells[t][n] <= hi.value) &&
         (lo.Some? && (hi.None? || lo.value <= hi.value) ==> lo.value <= e.arr.cells[t][n])) &&
      (e.Pair? ==> forall t, n :: 0 <= t < Rows(e.diff) && 0 <= n < e.diff.cols ==>
         (hi.Some? ==> e.diff.cells[t][n] <= hi.value) &&
         (lo.Some? && (hi.None? || lo.value <= hi.value) ==> lo.value <= e.diff.cells[t][n]))
  {
  }

  /** Without bounds nothing is clipped: elements are the cast values as read,
      and the difference is the cast difference. */
  lemma ReadNodeAttrUnclipped(nodes: seq<Node>, name: string, diff: bool, dtype: DType)
    requires ReadNodeAttr(nodes, name, diff, dtype, None, None).Ok?
    ensures var e := ReadNodeAttr(nodes, name, diff, dtype, None, None).value;
      var vals := Present(nodes, name);
      (forall t, n :: 0 <= t < Rows(e.arr) && 0 <= n < e.arr.cols ==> e.arr.cells[t][n] == Cast(dtype, vals[n][t])) &&
      (e.Pair? ==> forall t, n :: 0 <= t < Rows(e.diff) && 0 <= n < e.diff.cols ==>
         e.diff.cells[t][n] == Cast(dtype, e.arr.cells[t + 1][n] - e.arr.cells[t][n]))
  {
  }

  /** A cumulative series [0, 5, 3, 3, 10] read with a lower bound of 0 gives the
      increments [5, 0, 0, 7]: the drop from 5 to 3 is floored to 0. */
  lemma IncrementsOfCorrectedSeries()
    ensures ReadNodeAttr([map["case_hist" := [0.0, 5.0, 3.0, 3.0, 10.0]]], "case_hist", true, Float, Some(0.0), None)
         == Ok(Pair(Matrix(1, [[0.0], [5.0], [3.0], [3.0], [10.0]]), Matrix(1, [[5.0], [0.0], [0.0], [7.0]])))
  {
    var nodes: seq<Node> := [map["case_hist" := [0.0, 5.0, 3.0, 3.0, 10.0]]];
    assert Present(nodes, "case_hist") == [[0.0, 5.0, 3.0, 3.0, 10.0]];
    var r := ReadNodeAttr(nodes, "case_hist", true, Float, Some(0.0), None);
    SeriesExample(r.value.arr, r.value.diff);
  }

  lemma SeriesExample(arr: Mat, d: Mat)
    requires ExtractedFrom(arr, [[0.0, 5.0, 3.0, 3.0, 10.0]], Float, Some(0.0), None)
    requires DifferencedFrom(d, arr, Float, Some(0.0), None)
    ensures arr == Matrix(1, [[0.0], [5.0], [3.0], [3.0], [10.0]])
    ensures d == Matrix(1, [[5.0], [0.0], [0.0], [7.0]])
  {
    var series := [0.0, 5.0, 3.0, 3.0, 10.0];
    forall t | 0 <= t < 5
      ensures arr.cells[t] == [series[t]]
    {
      assert arr.cells[t][0] == Prepared(series[t], Float, Some(0.0), None);
    }
    forall t | 0 <= t < 4
      ensures d.cells[t] == [ClipValue(series[t + 1] - series[t], Some(0.0), None)]
    {
      assert arr.cells[t][0] == series[t] && arr.cells[t + 1][0] == series[t + 1];
      assert d.cells[t][0] == Prepared(arr.cells[t + 1][0] - arr.cells[t][0], Float, Some(0.0), None);
    }
    assert d.cells[0] == [5.0] && d.cells[1] == [0.0] && d.cells[2] == [0.0] && d.cells[3] == [7.0];
  }
}
