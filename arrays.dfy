/** Dense two-dimensional arrays and the array primitives the graph pipeline
    applies to them: transpose, clip, dtype cast, first difference along axis 0,
    sum along axis 0, maximum and one-dimensional "valid" convolution.

    Element values are mathematical reals: the model states what the numerical
    backend computes, not its floating-point rounding. */
module Arrays {
  import opened Wrappers

  /** A two-dimensional array: `cells[i][j]` is the element at row i, column j.
      The column count is kept explicitly so that an array with no rows still
      has a second dimension, as an array of shape (0, n) does. */
  datatype Matrix = Matrix(cols: nat, cells: seq<seq<real>>)

  /** The rectangular matrices: every row has `cols` elements. */
  type Mat = m: Matrix | forall i :: 0 <= i < |m.cells| ==> |m.cells[i]| == m.cols
    witness Matrix(0, [])

  function Rows(m: Matrix): nat { |m.cells| }

  // ---------------------------------------------------------------- transpose

  /** `.T` of a two-dimensional array: element (i, j) is element (j, i) of `m`. */
  function Transpose(m: Mat): (r: Mat)
    ensures Rows(r) == m.cols && r.cols == Rows(m)
    ensures forall i, j :: 0 <= i < m.cols && 0 <= j < Rows(m) ==> r.cells[i][j] == m.cells[j][i]
  {
    Matrix(Rows(m), seq(m.cols, (i: int) requires 0 <= i < m.cols =>
                          seq(Rows(m), (j: int) requires 0 <= j < Rows(m) => m.cells[j][i])))
  }

  /** Transposing twice gives back the array, including its shape. */
  lemma TransposeInvolutive(m: Mat)
    ensures Transpose(Transpose(m)) == m
  {
    var t := Transpose(m);
    var tt := Transpose(t);
    assert tt.cols == m.cols;
    assert |tt.cells| == |m.cells|;
    forall i | 0 <= i < |m.cells|
      ensures tt.cells[i] == m.cells[i]
    {
      assert |tt.cells[i]| == |m.cells[i]|;
    }
  }

  // --------------------------------------------------------------------- clip

  /** `clip(x, a_min, a_max)`: `min(max(x, a_min), a_max)`, an absent bound
      being no bound. When both bounds are given and `a_min > a_max`, the
      result is `a_max`, as numpy's clip gives. */
  function ClipValue(x: real, lo: Option<real>, hi: Option<real>): (r: real)
    ensures hi.Some? ==> r <= hi.value
    ensures lo.Some? && (hi.None? || lo.value <= hi.value) ==> lo.value <= r
    ensures InRange(x, lo, hi) ==> r == x
    ensures r == x || (lo.Some? && r == lo.value) || (hi.Some? && r == hi.value)
    ensures hi.Some? && hi.value < x ==> r == hi.value
    ensures lo.Some? && x < lo.value && (hi.None? || lo.value <= hi.value) ==> r == lo.value
  {
    var y := if lo.Some? && x < lo.value then lo.value else x;
    if hi.Some? && y > hi.value then hi.value else y
  }

  predicate InRange(x: real, lo: Option<real>, hi: Option<real>)
  {
    (lo.None? || lo.value <= x) && (hi.None? || x <= hi.value)
  }

  /** Element-wise clip of an array: the shape is kept, every element lies
      within the bounds, an element already in range is kept, and an element
      beyond a bound becomes that bound. */
  function Clip(m: Mat, lo: Option<real>, hi: Option<real>): (r: Mat)
    ensures Rows(r) == Rows(m) && r.cols == m.cols
    ensures forall i, j :: 0 <= i < Rows(m) && 0 <= j < m.cols ==>
      (hi.Some? ==> r.cells[i][j] <= hi.value) &&
      (lo.Some? && (hi.None? || lo.value <= hi.value) ==> lo.value <= r.cells[i][j]) &&
      (InRange(m.cells[i][j], lo, hi) ==> r.cells[i][j] == m.cells[i][j])
    ensures forall i, j :: 0 <= i < Rows(m) && 0 <= j < m.cols ==>
      (hi.Some? && hi.value < m.cells[i][j] ==> r.cells[i][j] == hi.value) &&
      (lo.Some? && m.cells[i][j] < lo.value && (hi.None? || lo.value <= hi.value) ==> r.cells[i][j] == lo.value)
  {
    Matrix(m.cols, seq(Rows(m), (i: int) requires 0 <= i < Rows(m) =>
                     seq(m.cols, (j: int) requires 0 <= j < m.cols => ClipValue(m.cells[i][j], lo, hi))))
  }

  // --------------------------------------------------------------- dtype cast

  /** The element types the pipeline casts to. */
  datatype DType = Float | Int

  /** Conversion of a float to an integer, truncating toward zero. */
  function Trunc(x: real): (r: int)
    ensures 0.0 <= x ==> r as real <= x < r as real + 1.0
    ensures x < 0.0 ==> r as real - 1.0 < x <= r as real
  {
    if 0.0 <= x then x.Floor else -((-x).Floor)
  }

  /** `astype(dtype)` on one element. */
  function Cast(dtype: DType, x: real): real
  {
    match dtype
    case Float => x
    case Int => Trunc(x) as real
  }

  /** Truncating an integer gives it back. */
  lemma TruncOfInt(k: int)
    ensures Trunc(k as real) == k
  {
  }

  /** Casting an integer value to `int` changes nothing, so a second cast is a no-op. */
  lemma CastIdempotent(dtype: DType, x: real)
    ensures Cast(dtype, Cast(dtype, x)) == Cast(dtype, x)
  {
    if dtype == Int {
      TruncOfInt(Trunc(x));
    }
  }

  /** Element-wise `astype(dtype)` of an array: the shape is kept, a cast to
      `float` changes nothing, and after a cast to `int` every element is a
      whole number within 1 of the original, on the side of zero. */
  function CastAll(m: Mat, dtype: DType): (r: Mat)
    ensures Rows(r) == Rows(m) && r.cols == m.cols
    ensures dtype == Float ==> r == m
    ensures dtype == Int ==> forall i, j :: 0 <= i < Rows(m) && 0 <= j < m.cols ==>
      r.cells[i][j] == r.cells[i][j].Floor as real &&
      (0.0 <= m.cells[i][j] ==> r.cells[i][j] <= m.cells[i][j] < r.cells[i][j] + 1.0) &&
      (m.cells[i][j] < 0.0 ==> r.cells[i][j] - 1.0 < m.cells[i][j] <= r.cells[i][j])
  {
    match dtype
    case Float => m
    case Int =>
      Matrix(m.cols, seq(Rows(m), (i: int) requires 0 <= i < Rows(m) =>
                       seq(m.cols, (j: int) requires 0 <= j < m.cols => Cast(Int, m.cells[i][j]))))
  }

  // ----------------------------------------------------------- diff / sum axis 0

  /** `diff(m, axis=0)`: one row fewer (none for an array with no rows), and
      adding row t of the difference to row t of `m` gives row t + 1. */
  function Diff(m: Mat): (r: Mat)
    ensures Rows(r) == (if Rows(m) == 0 then 0 else Rows(m) - 1) && r.cols == m.cols
    ensures forall t, n :: 0 <= t < Rows(r) && 0 <= n < m.cols ==> m.cells[t][n] + r.cells[t][n] == m.cells[t + 1][n]
  {
    Matrix(m.cols, seq(if Rows(m) == 0 then 0 else Rows(m) - 1,
                       (t: int) requires 0 <= t < Rows(m) - 1 =>
                         seq(m.cols, (n: int) requires 0 <= n < m.cols => m.cells[t + 1][n] - m.cells[t][n])))
  }

  /** The sum of the first `r` rows of column `n`. */
  function ColumnSum(m: Mat, n: nat, r: nat): real
    requires n < m.cols && r <= Rows(m)
  {
    if r == 0 then 0.0 else ColumnSum(m, n, r - 1) + m.cells[r - 1][n]
  }

  /** Column n of `m`, top to bottom. */
  function Column(m: Mat, n: nat): seq<real>
    requires n < m.cols
  {
    seq(Rows(m), (t: int) requires 0 <= t < Rows(m) => m.cells[t][n])
  }

  /** `sum(m, axis=0)`: one entry per column, the sum of that column. */
  function SumAxis0(m: Mat): (r: seq<real>)
    ensures |r| == m.cols
    ensures forall n :: 0 <= n < m.cols ==> r[n] == Sum(Column(m, n))
  {
    ColumnSumsAreSums(m);
    seq(m.cols, (n: int) requires 0 <= n < m.cols => ColumnSum(m, n, Rows(m)))
  }

  lemma {:induction false} SumAppend(s: seq<real>, x: real)
    ensures Sum(s + [x]) == Sum(s) + x
  {
    if |s| == 0 {
      assert (s + [x])[1..] == [];
    } else {
      assert (s + [x])[1..] == s[1..] + [x];
      SumAppend(s[1..], x);
    }
  }

  /** The running sum of the first `r` rows of a column is the sum of its first `r` entries. */
  lemma {:induction false} ColumnSumIsSum(m: Mat, n: nat, r: nat)
    requires n < m.cols && r <= Rows(m)
    ensures ColumnSum(m, n, r) == Sum(Column(m, n)[..r])
  {
    if r > 0 {
      ColumnSumIsSum(m, n, r - 1);
      assert Column(m, n)[..r] == Column(m, n)[..r - 1] + [m.cells[r - 1][n]];
      SumAppend(Column(m, n)[..r - 1], m.cells[r - 1][n]);
    }
  }

  lemma ColumnSumsAreSums(m: Mat)
    ensures forall n :: 0 <= n < m.cols ==> ColumnSum(m, n, Rows(m)) == Sum(Column(m, n))
  {
    forall n | 0 <= n < m.cols
      ensures ColumnSum(m, n, Rows(m)) == Sum(Column(m, n))
    {
      ColumnSumIsSum(m, n, Rows(m));
      assert Column(m, n)[..Rows(m)] == Column(m, n);
    }
  }

  /** The first difference is undone by a running sum: every row equals row 0
      plus the sum of the differences before it. */
  lemma {:induction false} DiffTelescopes(m: Mat, n: nat, t: nat)
    requires n < m.cols && t < Rows(m)
    ensures Rows(Diff(m)) == Rows(m) - 1 && Diff(m).cols == m.cols
    ensures m.cells[t][n] == m.cells[0][n] + ColumnSum(Diff(m), n, t)
  {
    if t > 0 {
      DiffTelescopes(m, n, t - 1);
    }
  }

  /** A column whose every element is at least `c` sums to at least `r * c`
      over its first `r` rows. */
  lemma {:induction false} ColumnSumAtLeast(m: Mat, n: nat, r: nat, c: real)
    requires n < m.cols && r <= Rows(m)
    requires forall i :: 0 <= i < Rows(m) ==> c <= m.cells[i][n]
    ensures (r as real) * c <= ColumnSum(m, n, r)
  {
    if r > 0 {
      ColumnSumAtLeast(m, n, r - 1, c);
    }
  }

  // ------------------------------------------------------------------ maximum

  /** `max` of a non-empty integer array: an element that no element exceeds. */
  function Max(s: seq<int>): (r: int)
    requires |s| > 0
    ensures exists i :: 0 <= i < |s| && s[i] == r
    ensures forall i :: 0 <= i < |s| ==> s[i] <= r
  {
    if |s| == 1 then s[0]
    else
      var rest := Max(s[1..]);
      assert forall i :: 1 <= i < |s| ==> s[i] == s[1..][i - 1];
      if s[0] >= rest then s[0] else rest
  }

  // -------------------------------------------------- sums and convolution

  function Sum(s: seq<real>): real
  {
    if |s| == 0 then 0.0 else s[0] + Sum(s[1..])
  }

  /** The arithmetic mean of a non-empty sequence. */
  function Mean(s: seq<real>): real
    requires |s| > 0
  {
    Sum(s) / (|s| as real)
  }

  /** A sum of non-negative values is non-negative. */
  lemma {:induction false} SumNonNegative(s: seq<real>)
    requires forall i :: 0 <= i < |s| ==> 0.0 <= s[i]
    ensures 0.0 <= Sum(s)
  {
    if |s| > 0 {
      assert forall i :: 0 <= i < |s[1..]| ==> s[1..][i] == s[i + 1];
      SumNonNegative(s[1..]);
    }
  }

  /** `ones(w)`. */
  function Ones(w: nat): seq<real>
  {
    seq(w, _ => 1.0)
  }

  /** The first `m` terms of output `k` of the "valid" convolution of `a` with
      `v`, namely the sum over i < m of `v[i] * a[k + |v| - 1 - i]`. */
  function ConvAt(a: seq<real>, v: seq<real>, k: nat, m: nat): real
    requires k + |v| <= |a| && m <= |v|
  {
    if m == 0 then 0.0 else ConvAt(a, v, k, m - 1) + v[m - 1] * a[k + |v| - m]
  }

  /** `convolve(a, v, mode="valid")` for a kernel no longer than the signal:
      the |a| - |v| + 1 outputs for which `v` overlaps `a` completely. With a
      kernel of ones, output k is the sum of the window `a[k .. k + |v|]`. */
  function Convolve(a: seq<real>, v: seq<real>): (r: seq<real>)
    requires 1 <= |v| <= |a|
    ensures |r| == |a| - |v| + 1
    ensures v == Ones(|v|) ==> forall k :: 0 <= k < |r| ==> r[k] == Sum(a[k .. k + |v|])
  {
    ConvAtOnesAll(a, |v|);
    seq(|a| - |v| + 1, (k: int) requires 0 <= k <= |a| - |v| => ConvAt(a, v, k, |v|))
  }

  lemma {:induction false} ConvAtOnes(a: seq<real>, w: nat, k: nat, m: nat)
    requires k + w <= |a| && m <= w
    ensures ConvAt(a, Ones(w), k, m) == Sum(a[k + w - m .. k + w])
  {
    if m > 0 {
      ConvAtOnes(a, w, k, m - 1);
      var s := a[k + w - m .. k + w];
      assert s[0] == a[k + w - m];
      assert s[1..] == a[k + w - m + 1 .. k + w];
    }
  }

  lemma ConvAtOnesAll(a: seq<real>, w: nat)
    requires w <= |a|
    ensures forall k :: 0 <= k <= |a| - w ==> ConvAt(a, Ones(w), k, w) == Sum(a[k .. k + w])
  {
    forall k | 0 <= k <= |a| - w
      ensures ConvAt(a, Ones(w), k, w) == Sum(a[k .. k + w])
    {
      ConvAtOnes(a, w, k, w);
    }
  }
}
