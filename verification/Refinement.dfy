/** The four separately written definitions of "visible", run side by side. */
module Refinement {
  import opened Basics
  import opened Spans
  import opened Visibility
  import opened ReadView
  import opened CompressedRead
  import opened StepPlan
  import Reference
  import GpuOracle
  import ReferenceDense

  /** Decode inputs none of the four refuses: focus names something, and there is room to write on. */
  predicate Comparable(inp: PlanInputs) {
    && DecodeInput(inp) && (inp.mode.Focus? ==> inp.refs != [])
    && inp.kvLen / inp.geometry.block < |inp.canonical|
  }

  lemma ComparableAccepted(inp: PlanInputs)
    requires Comparable(inp)
    ensures ViewSpec(ViewInputsOf(inp)).Ok?
    ensures GpuOracle.Accepts(PlanQuestion(inp), Unwrapped(inp.canonical))
    ensures ReferenceDense.Answerable(PlanQuestion(inp))
  {
    var q := PlanQuestion(inp);
    DecodePlannable(inp);
    ViewExistsIff(inp);
    BlocksUpToCurrent(q);
    DivMonotone(0, inp.kvLen, q.block);
    DivMonotone(inp.kvLen - 1, inp.kvLen, q.block);
    assert Semantic(q, q.kvLen - 1);
    assert q.kvLen - 1 in SemanticSet(q);
  }

  /** None of the four refuses: the view, the mask, the oracle and the dense reference all answer. */
  ghost predicate AllAnswer(inp: ViewInputs, mapping: seq<int>) {
    && ViewSpec(inp).Ok? && GpuOracle.Accepts(Question(inp), mapping) && ReferenceDense.Answerable(Question(inp))
  }

  /** The answers name one set of positions, one list of blocks, one list of counts and one total. */
  predicate Agree(view: View, marked: seq<int>, oracle: GpuOracle.OracleView, dense: ReferenceDense.Mask) {
    && PositionsOf(view.visible) == marked == oracle.positions == dense.read
    && PositionsOf(view.raw) == dense.semantic
    && view.blocks == oracle.blocks == dense.blocks
    && oracle.perBlock == dense.perBlock
    && oracle.seqused == |marked| == Sum(dense.perBlock)
  }

  /** Span algebra, boolean mask, flag-array oracle and run expansion agree on every input that none
      of them refuses. */
  method CompareAll(inp: ViewInputs, mapping: seq<int>)
    returns (view: View, marked: seq<int>, oracle: GpuOracle.OracleView, dense: ReferenceDense.Mask)
    requires AllAnswer(inp, mapping)
    ensures ViewSpec(inp) == Ok(view) && marked == Positions(Question(inp))
    ensures GpuOracle.Reports(oracle, Question(inp), mapping) && dense == ReferenceDense.ExactMask(Question(inp))
    ensures Agree(view, marked, oracle, dense)
  {
    var q := Question(inp);
    var built := BuildReadView(inp);
    var masked := Reference.VisiblePositions(q);
    var flagged := GpuOracle.BuildOracleView(q, mapping, None);
    var expanded := ReferenceDense.IndependentPositions(q);
    view, marked, oracle, dense := built.value, masked.value, flagged.value, expanded.value;
    AnswersAgree(inp, mapping, view, oracle);
  }

  lemma AnswersAgree(inp: ViewInputs, mapping: seq<int>, view: View, oracle: GpuOracle.OracleView)
    requires AllAnswer(inp, mapping) && ViewSpec(inp) == Ok(view)
    requires GpuOracle.Reports(oracle, Question(inp), mapping)
    ensures Agree(view, Positions(Question(inp)), oracle, ReferenceDense.ExactMask(Question(inp)))
  {
    ViewPositions(inp);
    CompressedReadExact(Question(inp));
    CountsTotal(Question(inp));
  }

  /** The same map, read through the oracle or through the view, names the same physical blocks; and
      a plan for the request carries the oracle's blocks, counts and total. */
  lemma PlanAgrees(inp: PlanInputs, oracle: GpuOracle.OracleView)
    requires PlanSpec(inp).Ok? && GpuOracle.Accepts(PlanQuestion(inp), Unwrapped(inp.canonical))
    requires GpuOracle.Reports(oracle, PlanQuestion(inp), Unwrapped(inp.canonical))
    ensures PlanSpec(inp).value.blocks == oracle.blocks && PlanSpec(inp).value.perBlock == oracle.perBlock
    ensures PlanSpec(inp).value.seqused == oracle.seqused
    ensures ViewSpec(ViewInputsOf(inp)).Ok?
    ensures var v := ViewSpec(ViewInputsOf(inp)).value; v.physical[..v.validCounts] == oracle.physical
  {
    PlanExact(inp);
    PlanHasView(inp);
    BuiltIsViewOf(ViewInputsOf(inp));
    hide ViewSpec, PlanSpec, PlannableRequest, GpuOracle.Accepts, Blocks, Counts, Total;
    ThroughMap(inp.canonical, Blocks(PlanQuestion(inp)));
  }

  lemma PlanHasView(inp: PlanInputs)
    requires PlanSpec(inp).Ok?
    ensures ViewSpec(ViewInputsOf(inp)).Ok? && AllAssigned(inp.canonical)
    ensures Question(ViewInputsOf(inp)) == PlanQuestion(inp)
  {
    hide ViewSpec;
  }

  lemma ThroughMap(canonical: seq<Option<int>>, blocks: seq<int>)
    requires AllAssigned(canonical) && AllAllocated(canonical, blocks) && GpuOracle.Mapped(blocks, Unwrapped(canonical))
    ensures PhysicalOf(canonical, blocks) == GpuOracle.Through(blocks, Unwrapped(canonical))
  {
    forall i | 0 <= i < |blocks| ensures canonical[blocks[i]] == Some(Unwrapped(canonical)[blocks[i]]) { }
  }

  /** Decode inputs whose focus names something and whose next token has a block are answered by all. */
  lemma ComparableAnswered(inp: PlanInputs)
    requires Comparable(inp)
    ensures AllAnswer(ViewInputsOf(inp), Unwrapped(inp.canonical)) && PlanSpec(inp) == Ok(ExactPlan(inp))
  {
    ComparableAccepted(inp);
    PlanTotal(inp);
  }

  /** ReadView.positions() of a built view lists exactly the visible positions, and its raw spans list
      exactly the selected ones. */
  lemma ViewPositions(inp: ViewInputs)
    requires ViewSpec(inp).Ok?
    ensures PositionsOf(ViewSpec(inp).value.visible) == Positions(Question(inp))
    ensures PositionsOf(ViewSpec(inp).value.raw) == SortedInts(SemanticSet(Question(inp)))
  {
    RunsList(VisibleSet(Question(inp)));
    RunsList(SemanticSet(Question(inp)));
  }

  /** The dense reference's gather and the compressed table's prefix read touch the same physical
      slot at every index. */
  lemma GatherIsTableRead(q: Query, canonical: seq<Option<int>>, mapping: seq<int>, cacheBlocks: nat, j: int)
    requires q.block > 0 && MapsAll(canonical, mapping) && AllAllocated(canonical, Blocks(q))
    requires forall i :: 0 <= i < |mapping| ==> mapping[i] < cacheBlocks
    requires 0 <= j < Total(q)
    ensures var g := ReferenceDense.GatherIndex(mapping, q.block, Positions(q), cacheBlocks);
      && g.Ok? && |g.value| == Total(q) && 0 <= j / q.block < |Blocks(q)|
      && g.value[j] == (ExactTable(q, canonical).physical[j / q.block], j % q.block)
  {
    hide Positions, Blocks, Total, ExactTable;
    assert |Positions(q)| == Total(q) by { CompressedReadExact(q); }
    forall i | 0 <= i < |Positions(q)|
      ensures 0 <= Positions(q)[i] && 0 <= Positions(q)[i] / q.block < |mapping|
      ensures 0 <= mapping[Positions(q)[i] / q.block] < cacheBlocks
    {
      TablePosition(q, canonical, mapping, i);
    }
    TablePosition(q, canonical, mapping, j);
    GatherInside(mapping, q.block, Positions(q), cacheBlocks, j);
  }

  /** A gather over positions that all have a physical block in the cache. */
  lemma GatherInside(table: seq<int>, b: int, ps: seq<int>, cacheBlocks: nat, j: int)
    requires b > 0 && 0 <= j < |ps|
    requires forall i :: 0 <= i < |ps| ==> 0 <= ps[i] && 0 <= ps[i] / b < |table|
    requires forall i :: 0 <= i < |ps| ==> 0 <= table[ps[i] / b] < cacheBlocks
    ensures var g := ReferenceDense.GatherIndex(table, b, ps, cacheBlocks);
      g.Ok? && |g.value| == |ps| && g.value[j] == (table[ps[j] / b], ps[j] % b)
  {
  }

  /** Visible position i lies at the offset and in the physical block that read index i reaches. */
  ghost predicate SameColumn(q: Query, canonical: seq<Option<int>>, mapping: seq<int>, i: int)
    requires q.block > 0 && AllAllocated(canonical, Blocks(q))
  {
    && 0 <= i < |Positions(q)| && 0 <= Positions(q)[i]
    && 0 <= i / q.block < |Blocks(q)| && 0 <= Positions(q)[i] / q.block < |mapping|
    && 0 <= mapping[Positions(q)[i] / q.block] == ExactTable(q, canonical).physical[i / q.block]
    && Positions(q)[i] % q.block == i % q.block
  }

  lemma TablePosition(q: Query, canonical: seq<Option<int>>, mapping: seq<int>, i: int)
    requires q.block > 0 && MapsAll(canonical, mapping) && AllAllocated(canonical, Blocks(q))
    requires 0 <= i < Total(q)
    ensures SameColumn(q, canonical, mapping, i)
  {
    CompressedReadExact(q);
    OffsetWritten(q, i);
    var k := Blocks(q)[i / q.block];
    assert Allocated(canonical, k) && k in Blocks(q) && Positions(q)[i] in Positions(q);
    BlockBounds(q, k);
    DivUnique(ReadIndex(q, i), q.block, k);
  }
}
