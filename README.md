# bucky graph pipeline, modelled in Dafny

This project models the graph-to-tensor pipeline of bucky, an epidemic
simulation package. The pipeline turns an attributed graph of administrative
regions into the arrays the simulation consumes. Each region carries case and
death histories, an age-stratified population and two administrative keys: a
fine region (adm2) and the coarse region (adm1) it belongs to.

The model covers:

- the node-attribute extractor `_read_node_attr`: stack, cast, transpose, clip, clipped first difference (module `NodeAttr`);
- the rolling smoother `rolling_mean`, a trailing-window "valid" convolution along one axis (module `Rolling`);
- the hierarchical aggregator `sum_adm1`: `scatter_add` of fine-region rows into coarse-region rows (module `Aggregate`, and `Container.BuckyGraphData.SumAdm1`);
- the derived fields computed while `buckyGraphData` is built (module `Container`);
- the helpers `remove_chars` and `map_np_array` (module `Util`).

`Arrays` holds the array primitives these use: transpose, clip, dtype cast,
diff, axis-0 sum, max and convolution. `Wrappers` and `Errors` hold the result
type and the exceptions a step can raise.

Arrays are two-dimensional `Matrix` values with an explicit column count, so an
array of shape (0, n) keeps its n. Elements are reals. A cast to `int`
truncates toward zero. The graph is the node sequence after relabelling to
integers, so node i has label i, plus the graph-level metadata map. A scalar
attribute is a one-element sequence. The container's fields are written only
during construction, so the container is a datatype value. `Build` returns
either that value or the first error raised.

In two places the model follows what the code does rather than what a caller might expect:

- `get_node_attributes` silently skips nodes that lack the attribute. Extraction therefore fails only when no node carries it or the values have different lengths. It does not fail whenever one node lacks it. `AlignedWithNodes` states the node-by-node alignment for graphs where every node carries every attribute.
- A rolling window longer than the series is an error, not a zero-length result. The buffer dimension `L - w + 1` can be negative, and numpy's convolution swaps its operands when the kernel is longer, so its output no longer fits the buffer. As a consequence, building the container needs at least 8 time points: 7 increments fill one window.

## Model

| member | source | states |
|---|---|---|
| Arrays.Transpose | bucky/graph.py:50 | `.T` swaps the shape, and element (i, j) of the result is element (j, i) of the input |
| Arrays.TransposeInvolutive | bucky/graph.py:50 | transposing twice gives back the array, including the shape of an array with no rows |
| Arrays.ClipValue | bucky/graph.py:51-52 | the result is at most `a_max`; it is at least `a_min` when the bounds are ordered; a value already in range is unchanged; the result is the value or one of the bounds; a value above `a_max` becomes `a_max`, and a value below an ordered `a_min` becomes `a_min` |
| Arrays.Clip | bucky/graph.py:51-52 | element-wise clip: the shape is kept, every element lies within the bounds, an element already in range is kept, an element above `a_max` becomes `a_max`, and an element below an ordered `a_min` becomes `a_min` |
| Arrays.Trunc | bucky/graph.py:25-26 | the `int` cast truncates toward zero: at most x and within 1 of it for x >= 0, at least x and within 1 for x < 0 |
| Arrays.TruncOfInt | bucky/graph.py:25-26 | truncating a whole number gives it back |
| Arrays.CastAll | bucky/graph.py:50 | `astype` keeps the shape; to `float` it changes nothing; to `int` every element becomes a whole number within 1 of the original, on the side of zero |
| Arrays.CastIdempotent | bucky/graph.py:55 | casting an already cast value again changes nothing |
| Arrays.Diff | bucky/graph.py:55 | `diff` along axis 0 has one row fewer (none for an array with no rows), and row t of the input plus row t of the difference is row t + 1 |
| Arrays.DiffTelescopes | bucky/graph.py:55 | `diff` along axis 0 has one row fewer, and a running sum of the differences rebuilds every row from row 0 |
| Arrays.SumAxis0 | bucky/graph.py:19 | `sum(axis=0)` has one entry per column, and entry n is the sum of column n |
| Arrays.ColumnSumIsSum | bucky/graph.py:19 | the running sum over the first r rows of a column is the sum of the column's first r entries |
| Arrays.SumAppend | bucky/graph.py:19 | appending a value to a sequence adds it to the sum |
| Arrays.ColumnSumAtLeast | bucky/graph.py:19 | a column whose elements are all at least c sums to at least r * c over r rows |
| Arrays.Max | bucky/graph.py:29-30 | `max` of a non-empty key array is one of its elements, and no element exceeds it |
| Arrays.SumNonNegative | bucky/graph.py:71 | a sum of non-negative values is non-negative |
| Arrays.Convolve | bucky/graph.py:68-71 | "valid" convolution with a kernel of length w has L - w + 1 outputs, and with a kernel of ones output k is the sum of inputs k to k + w - 1 |
| Arrays.ConvAtOnes | bucky/graph.py:71 | the partial convolution sum with ones over the last m kernel positions is the sum of the corresponding m inputs |
| NodeAttr.Present | bucky/graph.py:49 | at most one value per node, and exactly one per node iff every node carries the attribute |
| NodeAttr.PresentFrom | bucky/graph.py:49 | the values from node i on: at most one per node, and exactly one per node iff every node from i on carries the attribute |
| NodeAttr.Carriers | bucky/graph.py:49 | each listed position from i on is a node that carries the attribute |
| NodeAttr.CarriersIncreasing | bucky/graph.py:49 | the carrying positions are strictly increasing, that is, in node order |
| NodeAttr.CarriersComplete | bucky/graph.py:49 | every node that carries the attribute is among the carrying positions |
| NodeAttr.CarriersAll | bucky/graph.py:49 | when every node from i on carries the attribute, the carrying positions are i, i + 1, ... |
| NodeAttr.PresentCarriers | bucky/graph.py:49 | from any node on, there is one value per carrying node, and value k is the attribute of the k-th carrying node |
| NodeAttr.PresentInNodeOrder | bucky/graph.py:49 | `get_node_attributes(...).values()` is the carrying nodes' values in node order, whether or not some node lacks the attribute |
| NodeAttr.PresentAll | bucky/graph.py:49 | when every node carries the attribute, value n is node n's |
| NodeAttr.Stack | bucky/graph.py:50 | `vstack` fails with nothing to stack or with unequal lengths; otherwise row n is value n |
| NodeAttr.ReadNodeAttr | bucky/graph.py:47-60 | succeeds iff the present values stack; returns a pair iff `diff`; shape (index, node) with element [t][n] the cast and clipped t-th value of node n; the difference has one row fewer and is the cast, separately clipped difference of the clipped array |
| NodeAttr.ReadNodeAttrBounds | bucky/graph.py:51-57 | every element of the array and of its difference lies within the given bounds |
| NodeAttr.ReadNodeAttrUnclipped | bucky/graph.py:48-58 | without bounds the array holds the cast values as read, and the difference is the cast difference |
| NodeAttr.IncrementsOfCorrectedSeries | bucky/graph.py:54-58 | the series [0, 5, 3, 3, 10] read with a floor of 0 gives increments [5, 0, 0, 7] |
| Rolling.WindowMeans | bucky/graph.py:71 | one trailing-window mean per position at which the window fits (L - w + 1 of them), and a window of one leaves the series unchanged |
| Rolling.WindowOfOne | bucky/graph.py:71 | the mean of a one-element window is that element |
| Rolling.ConvolutionIsWindowMean | bucky/graph.py:68-71 | each lane's convolution divided by w is its trailing window mean, with L - w + 1 entries |
| Rolling.WindowMeansExample | bucky/graph.py:71 | [1, 2, 3, 4, 5, 6, 7] with a window of 3 smooths to [2, 3, 4, 5, 6] |
| Rolling.WindowMeansNonNegative | bucky/graph.py:71 | smoothing a non-negative series gives a non-negative series |
| Rolling.SwapAxes | bucky/graph.py:65-73 | after `swapaxes(arr, axis, -1)` there is one row per lane along the chosen axis, each of the lane's length, and row i is lane i |
| Rolling.RollingMeanOf | bucky/graph.py:64-74 | fails exactly when the buffer dimension is negative (`NegativeDimension`), the lanes have length 0 so `reshape(-1, 0)` cannot infer its extent (`UndeterminedReshape`), or a lane is shorter than the window; otherwise the lane count is kept, each lane is w - 1 shorter, and lane i of the result is the window means of lane i of the input, independently of the other lanes |
| Rolling.RollingMean | bucky/graph.py:64-74 | the buffer-filling loop returns what `RollingMeanOf` describes |
| Rolling.WriteRow | bucky/graph.py:71 | `rolling_arr[i] = row` sets row i and leaves every other row as it was |
| Aggregate.Zeros | bucky/graph.py:42 | `zeros(shp)`: the requested shape with every element 0 |
| Aggregate.ScatterAdd | bucky/graph.py:43 | scattering keeps the shape of the output buffer |
| Aggregate.ScatterAddAt | bucky/graph.py:43 | after scattering, element (g, j) is its old value plus column j of the sum of the rows keyed g |
| Aggregate.GroupSumOfEmptyGroup | bucky/graph.py:41-43 | a group with no members sums to zero |
| Aggregate.ScatterAddConserves | bucky/graph.py:43 | scattering adds exactly the total of the scattered rows to the total of the buffer |
| Aggregate.Aggregated | bucky/graph.py:41-43 | the aggregate has max_adm1 + 1 rows and the columns of the input |
| Aggregate.AggregatedAt | bucky/graph.py:41-43 | row g of the aggregate is the sum of the fine rows whose coarse key is g, and a row of zeros when no fine row has key g |
| Aggregate.AggregatedConserves | bucky/graph.py:41-43 | the aggregate has the same total as the input (mass conservation) |
| Aggregate.AggregatedExample | bucky/graph.py:38-44 | keys [0, 0, 1, 1] and values [10, 20, 30, 40] give [30, 70], and [30, 70, 0] with a third, empty group |
| Aggregate.ScatterAddInPlace | bucky/graph.py:43 | the in-place scatter leaves the buffer equal to the scatter of its old contents |
| Container.BuckyGraphData.SumAdm1 | bucky/graph.py:38-44 | a fresh (max_adm1 + 1) x columns buffer, equal to the aggregate of the input by the coarse keys |
| Container.Build | bucky/graph.py:11-33 | succeeds iff both series stack and have at least 8 points, the population stacks, and both key names are in the metadata with stackable, non-empty values; the built container keeps its invariants (non-negative series and rolling means, population at least 1e-5, `Nj` the sum over ages, maxima that are the largest keys, consistent series shapes); every field derives from the graph as the extractor, smoother and key reading say; when every node carries every attribute, column n of the cumulative cases, cumulative deaths and population, and both keys n, are node n's |
| Container.Assembled | bucky/graph.py:16-30 | the fields computed by the constructor's steps make the input buildable, keep the container's invariants, derive from the graph, and align with the nodes when every node carries every attribute |
| Container.SeriesRead | bucky/graph.py:16-22 | a series read with a floor of 0 and its increments are non-negative, and the increments can be smoothed iff the series has at least 8 points; the rolling mean is then non-negative and of the expected shape |
| Container.RollingNonNegative | bucky/graph.py:21-22 | rolling means of non-negative increments are non-negative |
| Container.IdsOf | bucky/graph.py:25-26 | row 0 of the integer-cast key array gives one key per node, and a whole-number value is its own key |
| Container.WholeKeys | bucky/graph.py:25-26 | truncating a whole-number key value gives it back |
| Container.KeysRead | bucky/graph.py:25-26 | key n is the truncated value of the n-th carrying node, and there is one key per carrying node |
| Container.KeysWithinMaxima | bucky/graph.py:29-30 | every key is at most its recorded maximum |
| Container.PopulationPositive | bucky/graph.py:18-19 | with at least one age bucket, every region's total population is at least the bucket count times 1e-5, so it is positive |
| Container.AllNodes | bucky/graph.py:15-26 | when every node carries every attribute, every per-node array has one entry per node; column n of the cumulative cases and deaths is node n's series clipped at 0, column n of the population is node n's clipped at 1e-5, and keys n are node n's truncated keys (the increments and rolling means follow column by column through `DerivedFrom`) |
| Util.Digits | bucky/util/util.py:66 | the kept characters are all digits and are no more than the input |
| Util.RemoveChars | bucky/util/util.py:48-66 | anything but an exact `str` is returned untouched; a `str` becomes a string of digits no longer than it |
| Util.DigitsExactly | bucky/util/util.py:66 | the result is a subsequence of the input, holds every digit as often as the input does, and holds no other character |
| Util.DigitsUnchanged | bucky/util/util.py:66 | a string is unchanged iff it consists of digits only |
| Util.RemoveCharsIdempotent | bucky/util/util.py:48-66 | removing the non-digits twice is removing them once |
| Util.RemoveCharsOfDigitString | bucky/util/util.py:62-66 | a string of digits passes through unchanged |
| Util.RemoveCharsExample | bucky/util/util.py:66 | "12-345" becomes "12345" |
| Util.Remapped | bucky/util/util.py:75-76 | positions whose key was visited hold that key's value; all other positions keep their old value |
| Util.Masked | bucky/util/util.py:76 | `n[a == k] = v` sets exactly the positions whose key is `k` to `v` and keeps every other position |
| Util.MaskedCommute | bucky/util/util.py:75-76 | masked writes for two different keys commute, so the dictionary's iteration order does not matter |
| Util.RemappedStep | bucky/util/util.py:75-76 | one more masked write extends the remapping by one key |
| Util.MapInto | bucky/util/util.py:75-76 | after the loop over the dictionary, the array is the remapping of its old contents by every key |
| Util.MapNpArray | bucky/util/util.py:69-77 | a fresh array with one element per key, holding `d[k]` wherever the key is `k` |
| Util.RemappedTotal | bucky/util/util.py:74-77 | when every key is in the dictionary, the result is the element-wise look-up, whatever the buffer held |

## Left out

- The adjacency builder `buckyAij` (bucky/graph.py:33) is not part of this model. Its result is a parameter of `Build`, stored as given.
- `convert_node_labels_to_integers` and `get_node_attributes` are modelled on the node sequence after relabelling. Edges are not modelled.
- `reimport_numerical_libs`, the CPU/GPU backend and `to_cpu` are left out: they move data without changing values.
- `_mat_norm` and the other functions of bucky/util/util.py are outside the modelled core.
- Arrays are two-dimensional. `rolling_mean`'s reshape of higher-rank arrays into lanes is not modelled: axis 0 and axis 1 of a matrix stand for it. The source writes `rolling_arr[i]` into the buffer before it is flattened (bucky/graph.py:67, 71), so rank-2 input works there, and so does higher-rank input whose axes other than the first and the target one have extent 1 after the swap, such as shape (T, 1, N) with axis 0: each one-row slice `rolling_arr[i]` takes the broadcast row. That input gives the result of the two-dimensional array with the unit axes dropped, and the model covers it only in that form. When such a middle axis is longer, row i is broadcast across a whole slice, and an i beyond the first axis raises `IndexError`. Rank 1 raises unless L - w + 1 == 1.
- Rolling.RollingMeanOf: requires a window of at least 1; the source's behaviour for a window of 0 or less is not modelled.
- Container.BuckyGraphData.SumAdm1: requires non-negative coarse keys and exactly one input row per key. Under the `add.at` semantics of `scatter_add`, keys in [-(max_adm1 + 1), -1] wrap to rows counted from the end, lower keys raise, and a one-row `adm2_arr` is broadcast and added into every key's row. None of these is modelled.
- Element values are reals: floating-point rounding and NaN are not modelled.
- Util.Digits: counts only the ASCII digits 0-9 as digits; Python's `str.isdigit` also accepts other Unicode digit characters.
- Util.MapNpArray: one-dimensional key arrays only; the contents of the positions it never writes are unspecified, as numpy's uninitialised buffer is.
