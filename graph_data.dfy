/** The graph-data container of bucky/graph.py (`buckyGraphData`): built once from
    an input graph, it holds the cumulative and incremental case and death
    series, the age-stratified and total populations, the rolling means, the
    two administrative keys with their maxima, and exposes the coarse-region
    aggregation `sum_adm1`. Its fields are written only while it is built, so it
    is a value here, and building it either succeeds or raises. */
module Container {
  import opened Wrappers
  import opened Errors
  import opened Arrays
  import opened NodeAttr
  import opened Rolling
  import opened Aggregate

  /** The input graph after relabelling: node i carries integer label i, and
      `meta` holds the graph-level metadata (which node attribute holds each
      administrative key). The edges are consumed only by the adjacency builder,
      which is not part of this model; its result is passed in to `Build`. */
  datatype Graph = Graph(nodes: seq<Node>, meta: map<string, string>)

  /** The window of the rolling case and death means. */
  const RollingWindow: nat := 7

  /** The lower bound the age-stratified population is clipped to (1e-5). */
  const PopulationFloor: real := 0.00001

  predicate NonNegative(m: Mat)
  {
    forall t, n :: 0 <= t < Rows(m) && 0 <= n < m.cols ==> 0.0 <= m.cells[t][n]
  }

  predicate AtLeast(m: Mat, c: real)
  {
    forall t, n :: 0 <= t < Rows(m) && 0 <= n < m.cols ==> c <= m.cells[t][n]
  }

  /** `mx` is the largest key in `ids`. */
  predicate IsMaximum(ids: seq<int>, mx: int)
  {
    (forall n :: 0 <= n < |ids| ==> ids[n] <= mx) && (exists n :: 0 <= n < |ids| && ids[n] == mx)
  }

  /** Row 0 of the integer-cast key array, as integer keys: one key per
      value, and a value that is a whole number is its own key. */
  function IdsOf(row: seq<real>): (r: seq<int>)
    ensures |r| == |row|
    ensures forall i :: 0 <= i < |row| && row[i] == row[i].Floor as real ==> r[i] as real == row[i]
  {
    WholeKeys(row);
    seq(|row|, (i: int) requires 0 <= i < |row| => Trunc(row[i]))
  }

  lemma WholeKeys(row: seq<real>)
    ensures forall i :: 0 <= i < |row| && row[i] == row[i].Floor as real ==> Trunc(row[i]) as real == row[i]
  {
    forall i | 0 <= i < |row| && row[i] == row[i].Floor as real
      ensures Trunc(row[i]) as real == row[i]
    {
      TruncOfInt(row[i].Floor);
    }
  }

  datatype BuckyGraphData<A> = BuckyGraphData(
    cumCaseHist: Mat, incCaseHist: Mat,
    cumDeathHist: Mat, incDeathHist: Mat,
    nij: Mat, nj: seq<real>,
    rollingCases: Mat, rollingDeaths: Mat,
    adm2Id: seq<int>, adm1Id: seq<int>,
    maxAdm2: int, maxAdm1: int,
    aij: A)
  {
    /** The invariants every built container keeps: the case and death series
        and their rolling means are non-negative, every population entry is at
        least the floor, the total population is the sum over ages, each
        recorded maximum is the largest key, and the series' shapes agree. */
    ghost predicate Valid()
    {
      NonNegative(cumCaseHist) && NonNegative(incCaseHist) &&
      NonNegative(cumDeathHist) && NonNegative(incDeathHist) &&
      NonNegative(rollingCases) && NonNegative(rollingDeaths) &&
      AtLeast(nij, PopulationFloor) && nj == SumAxis0(nij) &&
      IsMaximum(adm2Id, maxAdm2) && IsMaximum(adm1Id, maxAdm1) &&
      SeriesShapes(cumCaseHist, incCaseHist, rollingCases) &&
      SeriesShapes(cumDeathHist, incDeathHist, rollingDeaths)
    }

    /** `sum_adm1(adm2_arr)`: a zero buffer with one row per coarse key, into
        which every fine row is scattered by its coarse key. */
    method SumAdm1(adm2Arr: Mat) returns (out: array2<real>)
      requires Rows(adm2Arr) == |adm1Id|
      requires 0 <= maxAdm1 + 1 && IdsInRange(adm1Id, maxAdm1 + 1)
      ensures fresh(out)
      ensures out.Length0 == maxAdm1 + 1 && out.Length1 == adm2Arr.cols
      ensures Cells(out) == Aggregated(adm2Arr, adm1Id, maxAdm1 + 1)
    {
      out := new real[maxAdm1 + 1, adm2Arr.cols]((_, _) => 0.0);
      assert Cells(out) == Zeros(maxAdm1 + 1, adm2Arr.cols) by {
        forall g | 0 <= g < out.Length0
          ensures Cells(out).cells[g] == Zeros(maxAdm1 + 1, adm2Arr.cols).cells[g]
        {
        }
      }
      ScatterAddInPlace(out, adm1Id, adm2Arr);
    }
  }

  /** A cumulative series of T points, its increments (T - 1 rows) and their
      rolling means (T - 1 - 6 rows) over the same nodes. */
  predicate SeriesShapes(cum: Mat, inc: Mat, rolling: Mat)
  {
    Rows(cum) >= RollingWindow + 1 &&
    Rows(inc) == Rows(cum) - 1 && inc.cols == cum.cols &&
    Rows(rolling) == Rows(inc) + 1 - RollingWindow && rolling.cols == inc.cols
  }

  // ------------------------------------------------------ when building succeeds

  /** A cumulative series can be read and smoothed: the nodes' series stack,
      and they are long enough that their increments fill one window. */
  ghost predicate SeriesReadable(nodes: seq<Node>, name: string)
  {
    Stackable(Present(nodes, name)) && |Present(nodes, name)[0]| >= RollingWindow + 1
  }

  /** An administrative key is named in the metadata and its values stack
      into an array with a row 0. */
  ghost predicate KeyReadable(g: Graph, key: string)
  {
    key in g.meta && Stackable(Present(g.nodes, g.meta[key])) && |Present(g.nodes, g.meta[key])[0]| >= 1
  }

  /** The inputs for which construction succeeds. */
  ghost predicate Buildable(g: Graph)
  {
    SeriesReadable(g.nodes, "case_hist") && SeriesReadable(g.nodes, "death_hist") &&
    Stackable(Present(g.nodes, "N_age_init")) &&
    KeyReadable(g, "adm2_key") && KeyReadable(g, "adm1_key")
  }

  /** Every node carries every attribute the container reads. */
  ghost predicate CarriesAll(g: Graph)
  {
    "adm2_key" in g.meta && "adm1_key" in g.meta &&
    forall i :: 0 <= i < |g.nodes| ==>
      "case_hist" in g.nodes[i] && "death_hist" in g.nodes[i] && "N_age_init" in g.nodes[i] &&
      g.meta["adm2_key"] in g.nodes[i] && g.meta["adm1_key"] in g.nodes[i]
  }

  /** Every per-node array has one entry per node. */
  ghost predicate NodeAxes<A>(d: BuckyGraphData<A>, count: nat)
  {
    d.cumCaseHist.cols == count && d.incCaseHist.cols == count &&
    d.cumDeathHist.cols == count && d.incDeathHist.cols == count &&
    d.rollingCases.cols == count && d.rollingDeaths.cols == count &&
    d.nij.cols == count && |d.nj| == count && |d.adm2Id| == count && |d.adm1Id| == count
  }

  /** Column n of `m` is node n's series `name`, clipped below at `lo`. */
  ghost predicate ColumnsOfNodes(m: Mat, nodes: seq<Node>, name: string, lo: real)
    requires forall i :: 0 <= i < |nodes| ==> name in nodes[i]
  {
    m.cols == |nodes| &&
    forall t, n :: 0 <= n < |nodes| && 0 <= t < |nodes[n][name]| ==>
      t < Rows(m) && m.cells[t][n] == ClipValue(nodes[n][name][t], Some(lo), None)
  }

  /** Key n is the truncated value of node n's attribute `name`. */
  ghost predicate KeysOfNodes(ids: seq<int>, nodes: seq<Node>, name: string)
    requires forall i :: 0 <= i < |nodes| ==> name in nodes[i]
  {
    |ids| == |nodes| &&
    forall n :: 0 <= n < |nodes| && 0 < |nodes[n][name]| ==> ids[n] == Trunc(nodes[n][name][0])
  }

  /** Every per-node array has one entry per node, and entry n is node n's:
      column n of the cumulative cases and deaths is node n's series clipped at
      0, column n of the age-stratified population is node n's clipped at the
      floor, and keys n are node n's keys. The increments and rolling means are
      derived column by column from the cumulative series (`DerivedFrom`). */
  ghost predicate AlignedWithNodes<A>(d: BuckyGraphData<A>, g: Graph)
    requires CarriesAll(g)
  {
    NodeAxes(d, |g.nodes|) &&
    ColumnsOfNodes(d.cumCaseHist, g.nodes, "case_hist", 0.0) &&
    ColumnsOfNodes(d.cumDeathHist, g.nodes, "death_hist", 0.0) &&
    ColumnsOfNodes(d.nij, g.nodes, "N_age_init", PopulationFloor) &&
    KeysOfNodes(d.adm2Id, g.nodes, g.meta["adm2_key"]) &&
    KeysOfNodes(d.adm1Id, g.nodes, g.meta["adm1_key"])
  }

  /** How the fields derive from the graph's attributes: each series is the
      read and clipped stack, each increment the clipped difference, each
      rolling mean the window means of the increments node by node, and each
      key the truncated first value of the key attribute. */
  ghost predicate DerivedFrom<A>(d: BuckyGraphData<A>, g: Graph)
    requires Buildable(g)
  {
    ExtractedFrom(d.cumCaseHist, Present(g.nodes, "case_hist"), Float, Some(0.0), None) &&
    DifferencedFrom(d.incCaseHist, d.cumCaseHist, Float, Some(0.0), None) &&
    ExtractedFrom(d.cumDeathHist, Present(g.nodes, "death_hist"), Float, Some(0.0), None) &&
    DifferencedFrom(d.incDeathHist, d.cumDeathHist, Float, Some(0.0), None) &&
    ExtractedFrom(d.nij, Present(g.nodes, "N_age_init"), Float, Some(PopulationFloor), None) &&
    RollingMeanOf(d.incCaseHist, RollingWindow, 0) == Ok(d.rollingCases) &&
    RollingMeanOf(d.incDeathHist, RollingWindow, 0) == Ok(d.rollingDeaths) &&
    |d.adm2Id| == |Present(g.nodes, g.meta["adm2_key"])| &&
    (forall n :: 0 <= n < |d.adm2Id| ==> d.adm2Id[n] == Trunc(Present(g.nodes, g.meta["adm2_key"])[n][0])) &&
    |d.adm1Id| == |Present(g.nodes, g.meta["adm1_key"])| &&
    (forall n :: 0 <= n < |d.adm1Id| ==> d.adm1Id[n] == Trunc(Present(g.nodes, g.meta["adm1_key"])[n][0]))
  }

  /** Rolling means of a non-negative series along time are non-negative. */
  lemma RollingNonNegative(inc: Mat, out: Mat)
    requires NonNegative(inc)
    requires RollingMeanOf(inc, RollingWindow, 0) == Ok(out)
    ensures NonNegative(out)
  {
    forall t, n | 0 <= t < Rows(out) && 0 <= n < out.cols
      ensures 0.0 <= out.cells[t][n]
    {
      var lane := Lane(inc, 0, n);
      assert forall k :: 0 <= k < |lane| ==> lane[k] == inc.cells[k][n];
      WindowMeansNonNegative(lane, RollingWindow);
      assert out.cells[t][n] == Lane(out, 0, n)[t];
    }
  }

  /** The keys read from a key attribute: the truncated first value of each
      carrying node, in node order. */
  lemma KeysRead(g: Graph, key: string, arr: Mat)
    requires KeyReadable(g, key)
    requires ExtractedFrom(arr, Present(g.nodes, g.meta[key]), Int, None, None)
    ensures Rows(arr) > 0
    ensures var ids := IdsOf(arr.cells[0]);
      |ids| == |Present(g.nodes, g.meta[key])| > 0 &&
      forall n :: 0 <= n < |ids| ==> ids[n] == Trunc(Present(g.nodes, g.meta[key])[n][0])
  {
    var vals := Present(g.nodes, g.meta[key]);
    forall n | 0 <= n < |vals|
      ensures IdsOf(arr.cells[0])[n] == Trunc(vals[n][0])
    {
      assert arr.cells[0][n] == Prepared(vals[n][0], Int, None, None);
      TruncOfInt(Trunc(vals[n][0]));
    }
  }

  /** The keys of a container are within its recorded maxima. */
  lemma KeysWithinMaxima<A>(d: BuckyGraphData<A>)
    requires d.Valid()
    ensures forall n :: 0 <= n < |d.adm1Id| ==> d.adm1Id[n] <= d.maxAdm1
    ensures forall n :: 0 <= n < |d.adm2Id| ==> d.adm2Id[n] <= d.maxAdm2
  {
  }

  /** With at least one age bucket, every node's total population is positive:
      it is at least the number of buckets times the floor. */
  lemma PopulationPositive<A>(d: BuckyGraphData<A>)
    requires d.Valid() && Rows(d.nij) > 0
    ensures |d.nj| == d.nij.cols
    ensures forall n :: 0 <= n < |d.nj| ==> (Rows(d.nij) as real) * PopulationFloor <= d.nj[n] && 0.0 < d.nj[n]
  {
    forall n | 0 <= n < |d.nj|
      ensures (Rows(d.nij) as real) * PopulationFloor <= d.nj[n]
    {
      ColumnSumAtLeast(d.nij, n, Rows(d.nij), PopulationFloor);
    }
  }

  /** `buckyGraphData.__init__(G)`: reads the case and death series (clipped at
      0, with their clipped increments), the age-stratified population (clipped
      at the floor) and its total, the 7-point rolling means of the increments,
      and the two administrative keys with their maxima, in that order; the
      first failing step's exception is the result. `aij` is the adjacency
      builder's result, stored as given. */
  method Build<A>(g: Graph, aij: A) returns (r: Result<BuckyGraphData<A>, Error>)
    ensures r.Ok? <==> Buildable(g)
    ensures r.Ok? ==> r.value.Valid() && DerivedFrom(r.value, g) && r.value.aij == aij
    ensures r.Ok? && CarriesAll(g) ==> AlignedWithNodes(r.value, g)
  {
    var cases :- ReadNodeAttr(g.nodes, "case_hist", true, Float, Some(0.0), None);
    SeriesRead(g.nodes, "case_hist", cases);
    var cumCase, incCase := cases.arr, cases.diff;
    var deaths :- ReadNodeAttr(g.nodes, "death_hist", true, Float, Some(0.0), None);
    SeriesRead(g.nodes, "death_hist", deaths);
    var cumDeath, incDeath := deaths.arr, deaths.diff;
    var ages :- ReadNodeAttr(g.nodes, "N_age_init", false, Float, Some(PopulationFloor), None);
    var nij := ages.arr;
    var nj := SumAxis0(nij);

    var rollingCases :- RollingMean(incCase, RollingWindow, 0);
    var rollingDeaths :- RollingMean(incDeath, RollingWindow, 0);

    if "adm2_key" !in g.meta {
      return Err(MissingKey("adm2_key"));
    }
    var adm2 :- ReadNodeAttr(g.nodes, g.meta["adm2_key"], false, Int, None, None);
    if Rows(adm2.arr) == 0 {
      return Err(EmptyIndex);
    }
    var adm2Id := IdsOf(adm2.arr.cells[0]);
    if "adm1_key" !in g.meta {
      return Err(MissingKey("adm1_key"));
    }
    var adm1 :- ReadNodeAttr(g.nodes, g.meta["adm1_key"], false, Int, None, None);
    if Rows(adm1.arr) == 0 {
      return Err(EmptyIndex);
    }
    var adm1Id := IdsOf(adm1.arr.cells[0]);

    KeysRead(g, "adm2_key", adm2.arr);
    KeysRead(g, "adm1_key", adm1.arr);
    var maxAdm2 := Max(adm2Id);
    var maxAdm1 := Max(adm1Id);

    var d := BuckyGraphData(cumCase, incCase, cumDeath, incDeath, nij, nj,
                            rollingCases, rollingDeaths, adm2Id, adm1Id, maxAdm2, maxAdm1, aij);
    Assembled(g, d, ages, adm2.arr, adm1.arr);
    r := Ok(d);
  }

  /** The fields computed by the steps of the constructor form a container that
      keeps its invariants and derives from the graph. */
  lemma Assembled<A>(g: Graph, d: BuckyGraphData<A>, ages: Extracted, adm2: Mat, adm1: Mat)
    requires ReadNodeAttr(g.nodes, "case_hist", true, Float, Some(0.0), None) == Ok(Pair(d.cumCaseHist, d.incCaseHist))
    requires ReadNodeAttr(g.nodes, "death_hist", true, Float, Some(0.0), None) == Ok(Pair(d.cumDeathHist, d.incDeathHist))
    requires ReadNodeAttr(g.nodes, "N_age_init", false, Float, Some(PopulationFloor), None) == Ok(ages)
    requires ages.arr == d.nij && d.nj == SumAxis0(d.nij)
    requires RollingMeanOf(d.incCaseHist, RollingWindow, 0) == Ok(d.rollingCases)
    requires RollingMeanOf(d.incDeathHist, RollingWindow, 0) == Ok(d.rollingDeaths)
    requires "adm2_key" in g.meta && ReadNodeAttr(g.nodes, g.meta["adm2_key"], false, Int, None, None) == Ok(Single(adm2))
    requires "adm1_key" in g.meta && ReadNodeAttr(g.nodes, g.meta["adm1_key"], false, Int, None, None) == Ok(Single(adm1))
    requires Rows(adm2) > 0 && d.adm2Id == IdsOf(adm2.cells[0])
    requires Rows(adm1) > 0 && d.adm1Id == IdsOf(adm1.cells[0])
    requires |d.adm2Id| > 0 && d.maxAdm2 == Max(d.adm2Id)
    requires |d.adm1Id| > 0 && d.maxAdm1 == Max(d.adm1Id)
    ensures Buildable(g) && d.Valid() && DerivedFrom(d, g)
    ensures CarriesAll(g) ==> AlignedWithNodes(d, g)
  {
    SeriesRead(g.nodes, "case_hist", Pair(d.cumCaseHist, d.incCaseHist));
    SeriesRead(g.nodes, "death_hist", Pair(d.cumDeathHist, d.incDeathHist));
    ReadNodeAttrBounds(g.nodes, "N_age_init", false, Float, Some(PopulationFloor), None);
    assert d.Valid();
    KeysRead(g, "adm2_key", adm2);
    KeysRead(g, "adm1_key", adm1);
    assert Buildable(g);
    assert DerivedFrom(d, g);
    AllNodes(g, d);
  }

  /** Reading a cumulative series with a floor of 0 gives a non-negative series
      with non-negative increments, and the increments can be smoothed exactly
      when the series has at least one point more than the window. */
  lemma SeriesRead(nodes: seq<Node>, name: string, e: Extracted)
    requires ReadNodeAttr(nodes, name, true, Float, Some(0.0), None) == Ok(e)
    ensures Stackable(Present(nodes, name)) && e.Pair?
    ensures NonNegative(e.arr) && NonNegative(e.diff)
    ensures RollingMeanOf(e.diff, RollingWindow, 0).Ok? <==> SeriesReadable(nodes, name)
    ensures RollingMeanOf(e.diff, RollingWindow, 0).Ok? ==>
      SeriesShapes(e.arr, e.diff, RollingMeanOf(e.diff, RollingWindow, 0).value) &&
      NonNegative(RollingMeanOf(e.diff, RollingWindow, 0).value)
  {
    ReadNodeAttrBounds(nodes, name, true, Float, Some(0.0), None);
    var rolled := RollingMeanOf(e.diff, RollingWindow, 0);
    if rolled.Ok? {
      RollingNonNegative(e.diff, rolled.value);
    }
  }

  /** When every node carries every attribute, every per-node array has one
      entry per node, and entry n belongs to node n. */
  lemma AllNodes<A>(g: Graph, d: BuckyGraphData<A>)
    requires Buildable(g) && DerivedFrom(d, g)
    requires Rows(d.incCaseHist) + 1 == Rows(d.cumCaseHist) && Rows(d.incDeathHist) + 1 == Rows(d.cumDeathHist)
    requires d.rollingCases.cols == d.incCaseHist.cols && d.rollingDeaths.cols == d.incDeathHist.cols
    requires d.nj == SumAxis0(d.nij)
    ensures CarriesAll(g) ==> AlignedWithNodes(d, g)
  {
    if CarriesAll(g) {
      PresentAll(g.nodes, "case_hist");
      PresentAll(g.nodes, "death_hist");
      PresentAll(g.nodes, "N_age_init");
      PresentAll(g.nodes, g.meta["adm2_key"]);
      PresentAll(g.nodes, g.meta["adm1_key"]);
    }
  }
}
