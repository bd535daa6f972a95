/** The rolling smoother of bucky/graph.py (`rolling_mean`): a trailing window
    mean along one axis of a two-dimensional array, computed lane by lane as a
    "valid" convolution with a window of ones divided by the window size. */
module Rolling {
  import opened Wrappers
  import opened Errors
  import opened Arrays

  /** The trailing window means of a series: output i is the mean of the `w`
      inputs `row[i .. i + w]`, the window ending at input position i + w - 1. */
  function WindowMeans(row: seq<real>, w: nat): (r: seq<real>)
    requires 1 <= w <= |row|
    ensures |r| == |row| - w + 1
    ensures w == 1 ==> r == row
  {
    WindowOfOne(row);
    seq(|row| - w + 1, (i: int) requires 0 <= i <= |row| - w => Mean(row[i .. i + w]))
  }

  /** What the source computes for one lane, `convolve(row, ones(w), "valid") / w`,
      is exactly the trailing window mean. */
  lemma ConvolutionIsWindowMean(row: seq<real>, w: nat)
    requires 1 <= w <= |row|
    ensures |Convolve(row, Ones(w))| == |WindowMeans(row, w)| == |row| - w + 1
    ensures forall i :: 0 <= i <= |row| - w ==>
      Convolve(row, Ones(w))[i] / (w as real) == WindowMeans(row, w)[i]
  {
  }

  /** A window of one is the identity. */
  lemma WindowOfOne(row: seq<real>)
    ensures forall i :: 0 <= i < |row| ==> Mean(row[i .. i + 1]) == row[i]
  {
    forall i | 0 <= i < |row|
      ensures Mean(row[i .. i + 1]) == row[i]
    {
      var win := row[i .. i + 1];
      assert win[0] == row[i] && win[1..] == [];
      assert Sum(win) == row[i] + Sum([]);
    }
  }

  /** The mean of [1, 2, ..., 7] over windows of three is [2, 3, 4, 5, 6]. */
  lemma WindowMeansExample()
    ensures WindowMeans([1.0, 2.0, 3.0, 4.0, 5.0, 6.0, 7.0], 3) == [2.0, 3.0, 4.0, 5.0, 6.0]
  {
    var s := [1.0, 2.0, 3.0, 4.0, 5.0, 6.0, 7.0];
    var r := WindowMeans(s, 3);
    forall i | 0 <= i < 5
      ensures r[i] == (i + 2) as real
    {
      var win := s[i .. i + 3];
      assert win == [(i + 1) as real, (i + 2) as real, (i + 3) as real];
      SumOfThree(win);
      assert r[i] == Sum(win) / 3.0;
    }
  }

  lemma SumOfThree(s: seq<real>)
    requires |s| == 3
    ensures Sum(s) == s[0] + s[1] + s[2]
  {
    assert s[1..][0] == s[1] && s[1..][1..][0] == s[2];
    assert s[1..][1..][1..] == [];
    assert Sum(s[1..][1..]) == s[2];
  }

  /** Smoothing a non-negative series gives a non-negative series. */
  lemma WindowMeansNonNegative(row: seq<real>, w: nat)
    requires 1 <= w <= |row|
    requires forall i :: 0 <= i < |row| ==> 0.0 <= row[i]
    ensures forall i :: 0 <= i < |WindowMeans(row, w)| ==> 0.0 <= WindowMeans(row, w)[i]
  {
    forall i | 0 <= i < |WindowMeans(row, w)|
      ensures 0.0 <= WindowMeans(row, w)[i]
    {
      var win := row[i .. i + w];
      assert forall k :: 0 <= k < |win| ==> win[k] == row[i + k];
      SumNonNegative(win);
    }
  }

  // ------------------------------------------------ lanes along an axis

  /** `swapaxes(m, axis, -1)` of a two-dimensional array: the lanes along `axis`
      become its rows. */
  function SwapAxes(m: Mat, axis: nat): (r: Mat)
    requires axis < 2
    ensures Rows(r) == LaneCount(m, axis) && r.cols == LaneLength(m, axis)
    ensures forall i :: 0 <= i < LaneCount(m, axis) ==> r.cells[i] == Lane(m, axis, i)
  {
    if axis == 0 then Transpose(m) else m
  }

  /** The number of one-dimensional lanes along `axis`. */
  function LaneCount(m: Mat, axis: nat): nat
  {
    if axis == 0 then m.cols else Rows(m)
  }

  /** The length of each lane along `axis`. */
  function LaneLength(m: Mat, axis: nat): nat
  {
    if axis == 0 then Rows(m) else m.cols
  }

  /** Lane i along `axis`: column i for axis 0, row i for axis 1. */
  function Lane(m: Mat, axis: nat, i: nat): seq<real>
    requires axis < 2 && i < LaneCount(m, axis)
  {
    if axis == 0 then seq(Rows(m), (t: int) requires 0 <= t < Rows(m) => m.cells[t][i]) else m.cells[i]
  }

  /** `rolling_mean(arr, w, axis)` on a two-dimensional array, as a value. The
      buffer of the source has `L - w + 1` columns for lanes of length L, so a
      window longer than L + 1 gives a negative dimension. Otherwise lanes of
      length 0 cannot be flattened, since `reshape(-1, 0)` leaves the inferred
      extent undetermined, and a window of L + 1 makes the convolution of the
      first lane fail. */
  function RollingMeanOf(arr: Mat, w: nat, axis: nat): (r: Result<Mat, Error>)
    requires 1 <= w && axis < 2
    ensures r.Err? <==> LaneLength(arr, axis) + 1 < w || LaneLength(arr, axis) == 0 ||
                        (LaneCount(arr, axis) > 0 && LaneLength(arr, axis) < w)
    ensures LaneLength(arr, axis) + 1 < w ==> r == Err(NegativeDimension)
    ensures w == 1 && LaneLength(arr, axis) == 0 ==> r == Err(UndeterminedReshape)
    ensures r.Ok? ==> LaneCount(r.value, axis) == LaneCount(arr, axis)
    ensures r.Ok? ==> LaneLength(r.value, axis) == LaneLength(arr, axis) + 1 - w
    ensures r.Ok? ==> forall i :: 0 <= i < LaneCount(arr, axis) ==>
      Lane(r.value, axis, i) == WindowMeans(Lane(arr, axis, i), w)
  {
    var lanes := SwapAxes(arr, axis);
    if lanes.cols + 1 < w then Err(NegativeDimension)
    else if lanes.cols == 0 then Err(UndeterminedReshape)
    else if Rows(lanes) > 0 && lanes.cols < w then Err(WindowLongerThanSeries)
    else
      var smoothed := Smoothed(lanes, w);
      var out := SwapAxes(smoothed, axis);
      if axis == 0 then TransposeInvolutive(smoothed); Ok(out)
      else Ok(out)
  }

  /** Every row of `lanes` replaced by its window means. */
  function Smoothed(lanes: Mat, w: nat): (s: Mat)
    requires 1 <= w <= lanes.cols + 1 && (Rows(lanes) > 0 ==> w <= lanes.cols)
    ensures Rows(s) == Rows(lanes) && s.cols == lanes.cols + 1 - w
  {
    Matrix(lanes.cols + 1 - w,
           seq(Rows(lanes), (i: int) requires 0 <= i < Rows(lanes) => WindowMeans(lanes.cells[i], w)))
  }

  /** `rolling_mean(arr, window_size, axis)`: moves the axis last, fills a fresh
      buffer row by row with `convolve(row, ones(w), "valid") / w`, and moves the
      axis back. */
  method RollingMean(arr: Mat, w: nat, axis: nat) returns (r: Result<Mat, Error>)
    requires 1 <= w && axis < 2
    ensures r == RollingMeanOf(arr, w, axis)
  {
    var lanes := SwapAxes(arr, axis);
    var len := lanes.cols;
    if len + 1 < w {
      return Err(NegativeDimension);
    }
    if len == 0 {
      return Err(UndeterminedReshape);
    }
    var count := Rows(lanes);
    var width := len + 1 - w;
    var buf := new real[count, width];
    var window := Ones(w);
    var i := 0;
    while i < count
      invariant 0 <= i <= count
      invariant count > 0 && len < w ==> i == 0
      invariant forall k, j :: 0 <= k < i && 0 <= j < width ==> buf[k, j] == WindowMeans(lanes.cells[k], w)[j]
    {
      if len < w {
        return Err(WindowLongerThanSeries);
      }
      ConvolutionIsWindowMean(lanes.cells[i], w);
      var conv := Convolve(lanes.cells[i], window);
      var means := seq(width, (c: int) requires 0 <= c < width => conv[c] / (w as real));
      assert means == WindowMeans(lanes.cells[i], w);
      WriteRow(buf, i, means);
      i := i + 1;
    }
    var rows := Matrix(width, seq(count, (k: int) reads buf requires 0 <= k < count =>
                                    seq(width, (c: int) reads buf requires 0 <= c < width => buf[k, c])));
    assert rows == Smoothed(lanes, w) by {
      forall k | 0 <= k < count
        ensures rows.cells[k] == Smoothed(lanes, w).cells[k]
      {
      }
    }
    r := Ok(SwapAxes(rows, axis));
  }

  /** `buf[i] = row`: writes one row of a two-dimensional buffer. */
  method WriteRow(buf: array2<real>, i: nat, row: seq<real>)
    requires i < buf.Length0 && |row| == buf.Length1
    modifies buf
    ensures forall k, c :: 0 <= k < buf.Length0 && 0 <= c < buf.Length1 ==>
      buf[k, c] == if k == i then row[c] else old(buf[k, c])
  {
    var c := 0;
    while c < |row|
      invariant 0 <= c <= |row|
      invariant forall k, c' :: 0 <= k < buf.Length0 && 0 <= c' < buf.Length1 ==>
        buf[k, c'] == if k == i && c' < c then row[c'] else old(buf[k, c'])
    {
      buf[i, c] := row[c];
      c := c + 1;
    }
  }
}
