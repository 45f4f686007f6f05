/** The per-step read plan: geometry and input checks, then view, table and final validation. */
module StepPlan {
  import opened Basics
  import opened Spans
  import opened Visibility
  import opened ReadView
  import opened GpuKv
  import opened CompressedRead

  datatype Geometry = Geometry(
    block: int, kvGroups: int, faGroup: int, blocksPerKvBlock: int, maxModelLen: int)
  {
    /** None when accepted, else the exception class. */
    function Refusal(): Option<Exc> {
      if block <= 0 || kvGroups <= 0 || !(0 <= faGroup < kvGroups) || blocksPerKvBlock < 1
      then Some(AttnViewConfigError)
      else if blocksPerKvBlock != 1 then Some(UnsupportedConfig)
      else if maxModelLen <= 0 then Some(AttnViewConfigError)
      else None
    }

    function MaxWidth(): int
      requires block > 0
    {
      CeilDiv(maxModelLen, block)
    }
  }

  datatype PlanInputs = PlanInputs(
    reqId: string, mode: Mode, refs: seq<int>, layout: TokenLayout, geometry: Geometry,
    canonical: seq<Option<int>>, kvLen: int, effectStep: int)

  datatype Plan = Plan(
    reqId: string, mode: Mode, refs: seq<int>, effectStep: int, blocks: seq<int>,
    perBlock: seq<int>, seqused: int, block: int, width: int, tailLen: int, kvLen: int,
    nextWrite: int, writtenBefore: int)
  {
    function NeededWidth(): int {
      if block > 0 then CeilDiv(seqused, block) else 0
    }

    /** StepPlan.validate; the last entry of perBlock is only looked at when there is one. */
    predicate Valid() {
      && seqused > 0 && NeededWidth() == |blocks| && NeededWidth() <= width && seqused <= kvLen
      && perBlock != [] && tailLen == perBlock[|perBlock| - 1]
    }
  }

  predicate AllAssigned(canonical: seq<Option<int>>) {
    forall i :: 0 <= i < |canonical| ==> canonical[i].Some?
  }

  function Unwrapped(canonical: seq<Option<int>>): (r: seq<int>)
    requires AllAssigned(canonical)
    ensures |r| == |canonical| && forall i :: 0 <= i < |r| ==> canonical[i] == Some(r[i])
  {
    seq(|canonical|, i requires 0 <= i < |canonical| => canonical[i].value)
  }

  /** resolve_canonical_mapping: no gaps are filtered out, any None refuses. */
  function ResolveMapping(canonical: seq<Option<int>>): Result<seq<int>> {
    if canonical == [] || !AllAssigned(canonical) || !ValidMapping(Unwrapped(canonical))
    then Err(AttnViewConfigError)
    else Ok(Unwrapped(canonical))
  }

  function ViewInputsOf(inp: PlanInputs): ViewInputs
    requires inp.geometry.block > 0
  {
    ViewInputs(inp.mode, inp.refs, inp.layout, inp.kvLen, inp.canonical, inp.geometry.block,
               inp.geometry.MaxWidth(), inp.effectStep)
  }

  /** The checks build_step_plan makes before it builds a view, in their order. */
  function EarlyRefusal(inp: PlanInputs): Option<Exc> {
    if inp.geometry.Refusal().Some? then inp.geometry.Refusal()
    else if inp.mode.Unknown? || inp.effectStep < 0 || inp.kvLen <= 0 then Some(AttnViewConfigError)
    else if ResolveMapping(inp.canonical).Err? then Some(ResolveMapping(inp.canonical).error)
    else if inp.mode.Local? && inp.layout.localWindow == Span(0, 0) then Some(AttnViewConfigError)
    else None
  }

  function PlanOf(inp: PlanInputs, v: View, t: ReadTable): Plan {
    Plan(inp.reqId, v.mode, v.refs, v.effectStep, t.blocks, t.perBlock, t.seqused, t.block,
         v.maxWidth, t.tailLen, t.kvLen, t.nextWrite, v.kvLen - 1)
  }

  /** build_step_plan composed from the view and table specifications. */
  ghost function PlanSpec(inp: PlanInputs): Result<Plan> {
    if EarlyRefusal(inp).Some? then Err(EarlyRefusal(inp).value)
    else match ViewSpec(ViewInputsOf(inp))
      case Err(e) => Err(e)
      case Ok(v) =>
        match ReadTableSpec(v, Unwrapped(inp.canonical))
        case Err(e) => Err(e)
        case Ok(t) => if PlanOf(inp, v, t).Valid() then Ok(PlanOf(inp, v, t)) else Err(AttnViewConfigError)
  }

  /** build_step_plan itself, on the implementations. */
  method BuildStepPlan(inp: PlanInputs) returns (r: Result<Plan>)
    ensures r == PlanSpec(inp)
  {
    var early := EarlyRefusal(inp);
    if early.Some? { return Err(early.value); }
    var built := BuildReadView(ViewInputsOf(inp));
    if built.Err? { return Err(built.error); }
    var converted := ReadTableFromReadView(built.value, Unwrapped(inp.canonical));
    if converted.Err? { return Err(converted.error); }
    var plan := PlanOf(inp, built.value, converted.value);
    if !plan.Valid() { return Err(AttnViewConfigError); }
    return Ok(plan);
  }

  function PlanQuestion(inp: PlanInputs): Query {
    Query(inp.mode, inp.refs, inp.layout, inp.kvLen, inp.geometry.block)
  }

  // ---------------------------------------------------------------------------
  // When a plan exists, and what it says
  // ---------------------------------------------------------------------------

  /** Some selected position lies in the written part of the current block. */
  predicate TouchesCurrent(q: Query)
    requires q.block > 0
  {
    q.kvLen > 0 && exists p :: ((q.kvLen - 1) / q.block) * q.block <= p < q.kvLen && Semantic(q, p)
  }

  lemma TouchesCurrentExact(q: Query)
    requires q.block > 0
    ensures TouchesCurrent(q) <==> CurrentVisible(q)
  {
    if q.kvLen > 0 {
      var cur := (q.kvLen - 1) / q.block;
      if p :| cur * q.block <= p < q.kvLen && Semantic(q, p) {
        DivBounds(q.kvLen - 1, q.block);
        DivUnique(p, q.block, cur);
        assert p in SemanticSet(q);
      }
      if CurrentVisible(q) {
        var s :| s in SemanticSet(q) && s / q.block == cur;
        DivBounds(s, q.block);
      }
    }
  }

  /** The same as Plannable, computed from the request alone: the selected positions, their blocks,
      and the width of the table. */
  predicate PlannableRequest(inp: PlanInputs) {
    && EarlyRefusal(inp).None?
    && (inp.mode.Focus? ==> RefsInRange(inp.refs, |inp.layout.segmentSpans|))
    && TouchesCurrent(PlanQuestion(inp))
    && (inp.kvLen - 1) / inp.geometry.block < |inp.canonical|
    && |set p | p in SemanticSet(PlanQuestion(inp)) :: p / inp.geometry.block| <= inp.geometry.MaxWidth()
  }

  lemma PlannableExact(inp: PlanInputs)
    ensures PlannableRequest(inp) <==> Plannable(inp)
  {
    if EarlyRefusal(inp).None? {
      var q := PlanQuestion(inp);
      TouchesCurrentExact(q);
      assert (set p | p in SemanticSet(q) :: p / q.block) == BlockSet(q);
    }
  }

  /** When a plan exists, on the position-wise definitions. */
  ghost predicate Plannable(inp: PlanInputs) {
    && EarlyRefusal(inp).None?
    && (inp.mode.Focus? ==> RefsInRange(inp.refs, |inp.layout.segmentSpans|))
    && var q := PlanQuestion(inp);
    && CurrentVisible(q)
    && (inp.kvLen - 1) / inp.geometry.block < |inp.canonical|
    && |Blocks(q)| <= inp.geometry.MaxWidth()
  }

  lemma {:induction false} IndexBelowValue(xs: seq<int>, i: int)
    requires Ascending(xs) && 0 <= i < |xs| && xs[0] >= 0
    ensures i <= xs[i]
  {
    if i > 0 { IndexBelowValue(xs, i - 1); }
  }

  /** No visible block lies past the one being written, and there are at most that many plus one. */
  lemma BlocksUpToCurrent(q: Query)
    requires q.block > 0 && q.kvLen > 0
    ensures forall i :: 0 <= i < |Blocks(q)| ==> 0 <= Blocks(q)[i] <= (q.kvLen - 1) / q.block
    ensures |Blocks(q)| <= (q.kvLen - 1) / q.block + 1
  {
    var bl := Blocks(q);
    AtLeastMultiple(0, q.kvLen - 1, q.block);
    forall i | 0 <= i < |bl| ensures 0 <= bl[i] <= (q.kvLen - 1) / q.block {
      assert bl[i] in bl;
      BlockBounds(q, bl[i]);
      AtLeastMultiple(bl[i], q.kvLen - 1, q.block);
    }
    if bl != [] { IndexBelowValue(bl, |bl| - 1); }
  }

  lemma TotalWithinKv(q: Query)
    requires q.block > 0 && CurrentVisible(q)
    ensures 0 < Total(q) <= q.kvLen
  {
    LastBlockIsCurrent(q);
    BlocksUpToCurrent(q);
    var bl, last := Blocks(q), (q.kvLen - 1) / q.block;
    assert last in bl;
    BlockBounds(q, last);
    SmallerTotal(|bl|, last, q.block, BlockCount(q, last));
    assert BlockCount(q, last) <= q.kvLen - last * q.block;
  }

  lemma SmallerTotal(n: int, last: int, b: int, count: int)
    requires b > 0 && 1 <= n <= last + 1 && count > 0
    ensures 0 < n * b - b + count <= last * b + count
  {
    assert (n - 1) * b == n * b - b;
    MulSign(n - 1, b);
    if n - 1 < last { MulStep(n - 1, last, b); }
  }

  lemma ExactPlanValid(inp: PlanInputs)
    requires inp.geometry.block > 0 && CurrentVisible(PlanQuestion(inp))
    requires AllAllocated(inp.canonical, Blocks(PlanQuestion(inp)))
    requires |Blocks(PlanQuestion(inp))| <= inp.geometry.MaxWidth()
    ensures ExactPlan(inp).Valid()
  {
    var q := PlanQuestion(inp);
    TotalWithinKv(q);
    TotalColumns(q);
    LastBlockIsCurrent(q);
    assert Counts(q)[|Counts(q)| - 1] == BlockCount(q, (q.kvLen - 1) / q.block);
  }

  /** The plan, position by position. */
  ghost function ExactPlan(inp: PlanInputs): Plan
    requires inp.geometry.block > 0
  {
    var q := PlanQuestion(inp);
    Plan(inp.reqId, inp.mode, inp.refs, inp.effectStep, Blocks(q), Counts(q), Total(q), q.block,
         inp.geometry.MaxWidth(), TailBlockLen(q.kvLen, q.block), q.kvLen, q.kvLen, q.kvLen - 1)
  }

  /** build_step_plan succeeds exactly on plannable requests, and then returns the exact plan. */
  lemma PlanExact(inp: PlanInputs)
    ensures PlanSpec(inp).Ok? <==> PlannableRequest(inp)
    ensures PlanSpec(inp).Ok? ==> PlanSpec(inp).value == ExactPlan(inp)
  {
    PlannableExact(inp);
    hide PlannableRequest;
    if EarlyRefusal(inp).None? {
      var q, vi := PlanQuestion(inp), ViewInputsOf(inp);
      assert q == Question(vi);
      ViewExistsIff(inp);
      if ViewSpec(vi).Ok? {
        BuiltTable(vi, Unwrapped(inp.canonical));
        if CurrentVisible(q) {
          ExactPlanValid(inp);
          assert PlanOf(inp, ViewSpec(vi).value, ExactTable(q, inp.canonical)) == ExactPlan(inp);
        }
      }
    }
  }

  lemma ViewExistsIff(inp: PlanInputs)
    requires EarlyRefusal(inp).None?
    ensures Plannable(inp) <==> ViewSpec(ViewInputsOf(inp)).Ok? && CurrentVisible(PlanQuestion(inp))
  {
    var q := PlanQuestion(inp);
    if CurrentVisible(q) { CurrentAllocated(q, inp.canonical); }
  }

  lemma CurrentAllocated(q: Query, canonical: seq<Option<int>>)
    requires q.block > 0 && CurrentVisible(q) && ResolveMapping(canonical).Ok?
    ensures (q.kvLen - 1) / q.block < |canonical| <==> AllAllocated(canonical, Blocks(q))
  {
    BlocksUpToCurrent(q);
    assert (q.kvLen - 1) / q.block in Blocks(q);
    AllocatedUpTo(canonical, Blocks(q), (q.kvLen - 1) / q.block);
  }

  lemma AllocatedUpTo(canonical: seq<Option<int>>, bl: seq<int>, last: int)
    requires ResolveMapping(canonical).Ok? && last in bl
    requires forall i :: 0 <= i < |bl| ==> 0 <= bl[i] <= last
    ensures last < |canonical| <==> AllAllocated(canonical, bl)
  {
    var i :| 0 <= i < |bl| && bl[i] == last;
    if AllAllocated(canonical, bl) { assert Allocated(canonical, bl[i]); }
    if last < |canonical| {
      forall j | 0 <= j < |bl| ensures Allocated(canonical, bl[j]) {
        assert canonical[bl[j]] == Some(Unwrapped(canonical)[bl[j]]);
      }
    }
  }

  /** Decode inputs as the runtime produces them: the current token is past the prompt. */
  predicate DecodeInput(inp: PlanInputs) {
    && inp.geometry.Refusal().None? && !inp.mode.Unknown? && inp.effectStep >= 0
    && inp.kvLen > inp.layout.promptLen >= 0 && inp.kvLen <= inp.geometry.maxModelLen
    && ResolveMapping(inp.canonical).Ok? && CeilDiv(inp.kvLen, inp.geometry.block) <= |inp.canonical|
    && (inp.mode.Focus? ==> RefsInRange(inp.refs, |inp.layout.segmentSpans|))
    && (inp.mode.Local? ==> inp.layout.localWindow != Span(0, 0))
  }

  lemma CurrentIsSemantic(q: Query)
    requires q.block > 0 && q.kvLen > q.layout.promptLen && q.kvLen > 0
    ensures CurrentVisible(q)
  {
    assert Semantic(q, q.kvLen - 1);
    assert q.kvLen - 1 in SemanticSet(q);
  }

  lemma CeilIsLastPlusOne(n: int, b: int)
    requires b > 0
    ensures CeilDiv(n, b) == (n - 1) / b + 1
  {
    DivBounds(n - 1, b);
    assert ((n - 1) / b + 1) * b == ((n - 1) / b) * b + b;
    CeilDivUnique(n, b, (n - 1) / b + 1);
  }

  lemma CeilMonotone(n: int, m: int, b: int)
    requires b > 0 && n <= m
    ensures CeilDiv(n, b) <= CeilDiv(m, b)
  {
    CeilIsLastPlusOne(n, b);
    CeilIsLastPlusOne(m, b);
    DivMonotone(n - 1, m - 1, b);
  }

  lemma DecodePlannable(inp: PlanInputs)
    requires DecodeInput(inp)
    ensures Plannable(inp)
  {
    var q := PlanQuestion(inp);
    CurrentIsSemantic(q);
    BlocksUpToCurrent(q);
    CeilIsLastPlusOne(inp.kvLen, inp.geometry.block);
    CeilMonotone(inp.kvLen, inp.geometry.maxModelLen, inp.geometry.block);
  }

  /** Every decode input gets its plan: nothing raises. */
  lemma PlanTotal(inp: PlanInputs)
    requires DecodeInput(inp)
    ensures PlanSpec(inp) == Ok(ExactPlan(inp))
  {
    DecodePlannable(inp);
    PlannableExact(inp);
    PlanExact(inp);
  }

  /** The arithmetic of an exact plan: the total is the visible position count, its columns are the
      visible blocks, and all blocks but the last are full. */
  lemma PlanArithmetic(inp: PlanInputs)
    requires inp.geometry.block > 0 && CurrentVisible(PlanQuestion(inp))
    ensures ExactPlan(inp).seqused == |Positions(PlanQuestion(inp))| == Sum(ExactPlan(inp).perBlock)
    ensures ExactPlan(inp).NeededWidth() == |ExactPlan(inp).blocks| == |ExactPlan(inp).perBlock| > 0
    ensures forall i :: 0 <= i < |ExactPlan(inp).perBlock| - 1 ==> ExactPlan(inp).perBlock[i] == inp.geometry.block
    ensures ExactPlan(inp).tailLen == ExactPlan(inp).perBlock[|ExactPlan(inp).perBlock| - 1]
  {
    var q := PlanQuestion(inp);
    CompressedReadExact(q);
    CountsTotal(q);
    LastBlockIsCurrent(q);
    InnerCounts(q);
  }
}
