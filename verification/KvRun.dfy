/** A whole decode run over a paged KV cache: writes go to canonical slots, reads follow the mode. */
module KvRun {
  import opened Basics
  import opened Spans
  import opened Visibility
  import opened GpuKv
  import opened CompressedRead
  import opened StepPlan

  /** One decode step: the token written and the mode and references its forward reads with. */
  datatype Step<T> = Step(token: T, mode: Mode, refs: seq<int>)

  function Tokens<T>(steps: seq<Step<T>>): seq<T> {
    seq(|steps|, i requires 0 <= i < |steps| => steps[i].token)
  }

  // ---------------------------------------------------------------------------
  // The cache as values: a slot array, a canonical map, a history
  // ---------------------------------------------------------------------------

  /** Blocks are distinct and lie inside the slot array. */
  predicate Fits(blocks: seq<int>, b: int, slots: int) {
    && b > 0
    && (forall i :: 0 <= i < |blocks| ==> 0 <= blocks[i] && blocks[i] * b + b <= slots)
    && (forall i, j :: 0 <= i < j < |blocks| ==> blocks[i] != blocks[j])
  }

  /** Position p's slot exists and holds x. */
  predicate SlotHolds<T(==)>(slots: seq<T>, mapping: seq<int>, b: int, p: int, x: T) {
    && b > 0 && 0 <= p / b < |mapping| && 0 <= SlotOf(p, b, mapping) < |slots|
    && slots[SlotOf(p, b, mapping)] == x
  }

  predicate Stored<T(==)>(slots: seq<T>, mapping: seq<int>, b: int, history: seq<T>) {
    forall p :: 0 <= p < |history| ==> SlotHolds(slots, mapping, b, p, history[p])
  }

  lemma SlotInside(mapping: seq<int>, b: int, slots: int, p: int)
    requires Fits(mapping, b, slots) && 0 <= p / b < |mapping|
    ensures 0 <= SlotOf(p, b, mapping) < slots
  {
    DivBounds(p, b);
    MulSign(mapping[p / b], b);
  }

  lemma GrowStored<T>(slots: seq<T>, mapping: seq<int>, b: int, history: seq<T>, more: seq<int>)
    requires Stored(slots, mapping, b, history)
    ensures Stored(slots, mapping + more, b, history)
  {
    forall p | 0 <= p < |history| ensures SlotHolds(slots, mapping + more, b, p, history[p]) {
      assert SlotHolds(slots, mapping, b, p, history[p]);
      SlotsStable(p, b, mapping, more);
    }
  }

  /** Writing the next position at its canonical slot disturbs no earlier one. */
  lemma WriteStored<T>(slots: seq<T>, mapping: seq<int>, b: int, history: seq<T>, x: T)
    requires Stored(slots, mapping, b, history) && Fits(mapping, b, |slots|)
    requires 0 <= |history| / b < |mapping|
    ensures 0 <= SlotOf(|history|, b, mapping) < |slots|
    ensures Stored(slots[SlotOf(|history|, b, mapping) := x], mapping, b, history + [x])
  {
    SlotInside(mapping, b, |slots|, |history|);
    var s := SlotOf(|history|, b, mapping);
    forall p | 0 <= p < |history| + 1 ensures SlotHolds(slots[s := x], mapping, b, p, (history + [x])[p]) {
      if p < |history| {
        assert SlotHolds(slots, mapping, b, p, history[p]);
        SlotsDistinct(p, |history|, b, mapping);
      }
    }
  }

  /** Filling block by block: the next position is in the last block or opens a new one. */
  lemma NextRoom(n: nat, m: nat, b: int)
    requires b > 0 && n <= m * b
    ensures 0 <= n / b <= m
    ensures n / b < m ==> n + 1 <= m * b
    ensures n / b == m ==> n + 1 <= (m + 1) * b && n / b < m + 1
  {
    DivBounds(n, b);
    DivMonotone(0, n, b);
    assert (m + 1) * b == m * b + b;
    var d := n / b;
    if d < m { MulStep(d, m, b); }
    if m < d { MulStep(m, d, b); }
  }

  class PagedCache<T(0, ==)> {
    const block: int
    const slots: array<T>
    var mapping: seq<int>  // logical block -> physical block, only ever extended
    var pool: seq<int>     // physical blocks not yet handed out
    ghost var history: seq<T>  // the token at every written position

    ghost predicate Valid()
      reads this, slots
    {
      && Fits(mapping + pool, block, slots.Length)
      && |history| <= |mapping| * block
      && Stored(slots[..], mapping, block, history)
    }

    constructor (block: int, slots: array<T>, pool: seq<int>)
      requires Fits(pool, block, slots.Length)
      ensures Valid() && this.block == block && this.slots == slots
      ensures history == [] && mapping == [] && this.pool == pool
    {
      this.block, this.slots, this.pool := block, slots, pool;
      mapping, history := [], [];
      new;
      assert [] + pool == pool;
    }

    /** Hand out the next fresh block when the next position has none. */
    method Grow(length: nat)
      requires Valid() && length == |history|
      requires length / block == |mapping| ==> pool != []
      modifies this`mapping, this`pool
      ensures Valid() && 0 <= length / block < |mapping| && length + 1 <= |mapping| * block
      ensures old(mapping) <= mapping && mapping + pool == old(mapping + pool)
      ensures |mapping| == if length / block == old(|mapping|) then old(|mapping|) + 1 else old(|mapping|)
    {
      NextRoom(length, |mapping|, block);
      if length / block >= |mapping| {
        GrowStored(slots[..], mapping, block, history, [pool[0]]);
        assert mapping + pool == (mapping + [pool[0]]) + pool[1..];
        mapping, pool := mapping + [pool[0]], pool[1..];
      }
    }

    /** Write the next token at its canonical slot; no other slot changes. */
    method Append(token: T, length: nat)
      requires Valid() && length == |history|
      requires length / block == |mapping| ==> pool != []
      modifies this, slots
      ensures Valid() && history == old(history) + [token]
      ensures 0 <= length / block < |mapping| && 0 <= SlotOf(length, block, mapping) < slots.Length
      ensures slots[..] == old(slots[..])[SlotOf(length, block, mapping) := token]
      ensures old(mapping) <= mapping && mapping + pool == old(mapping + pool)
      ensures |mapping| == if length / block == old(|mapping|) then old(|mapping|) + 1 else old(|mapping|)
    {
      Grow(length);
      FitsPrefix(mapping, pool, block, slots.Length);
      WriteStored(slots[..], mapping, block, history, token);
      var write := NextWriteSlot(length, block, mapping);
      ghost var after := slots[..][write.value.2 := token];
      slots[write.value.2] := token;
      assert slots[..] == after;
      history := history + [token];
    }

    /** Read through a step plan with prefix semantics: the truth at exactly the visible positions. */
    method Read(inp: PlanInputs) returns (out: seq<T>)
      requires Valid() && DecodeInput(inp) && Describes(inp, mapping, block, |history|)
      ensures Listed(out, history, PlanQuestion(inp))
    {
      PlanFacts(inp, mapping);
      var built := BuildStepPlan(inp);
      out := Gather(built.value.blocks, built.value.seqused, PlanQuestion(inp));
    }

    /** Index j of the compressed block list touches slot mapping[blocks[j / b]] * b + j % b. */
    method Gather(blocks: seq<int>, seqused: int, ghost q: Query) returns (out: seq<T>)
      requires Valid() && ValidMapping(mapping) && q.block == block && q.kvLen == |history|
      requires blocks == Blocks(q) && seqused == Total(q) == |Positions(q)|
      requires forall i :: 0 <= i < |blocks| ==> 0 <= blocks[i] < |mapping|
      ensures Listed(out, history, q)
    {
      out := [];
      for j := 0 to seqused
        invariant |out| == j
        invariant forall i :: 0 <= i < j ==> ReadsTruth(history, q, i, out[i])
      {
        ReadsStored(slots[..], mapping, block, history, q, j);
        out := out + [slots[ColumnSlot(blocks, mapping, block, j)]];
      }
    }
  }

  lemma PlanFacts(inp: PlanInputs, mapping: seq<int>)
    requires DecodeInput(inp) && Describes(inp, mapping, inp.geometry.block, inp.kvLen)
    ensures PlanSpec(inp) == Ok(ExactPlan(inp)) && ValidMapping(mapping)
    ensures ExactPlan(inp).seqused == Total(PlanQuestion(inp)) == |Positions(PlanQuestion(inp))|
    ensures var bl := Blocks(PlanQuestion(inp));
      ExactPlan(inp).blocks == bl && forall i :: 0 <= i < |bl| ==> 0 <= bl[i] < |mapping|
  {
    PlanTotal(inp);
    DecodePlannable(inp);
    CompressedReadExact(PlanQuestion(inp));
    BlocksUpToCurrent(PlanQuestion(inp));
  }

  /** The plan inputs use this cache's map, block size and length. */
  predicate Describes(inp: PlanInputs, mapping: seq<int>, block: int, length: int) {
    && inp.geometry.block == block && inp.kvLen == length
    && AllAssigned(inp.canonical) && Unwrapped(inp.canonical) == mapping
  }

  /** x is the history's value at the i-th visible position. */
  ghost predicate ReadsTruth<T>(history: seq<T>, q: Query, i: int, x: T)
    requires q.block > 0
  {
    && 0 <= i < |Positions(q)| && 0 <= Positions(q)[i] < |history|
    && x == history[Positions(q)[i]]
  }

  /** The read is the history at the visible positions, in order, nothing more and nothing less. */
  ghost predicate Listed<T>(out: seq<T>, history: seq<T>, q: Query)
    requires q.block > 0
  {
    |out| == |Positions(q)| && forall i :: 0 <= i < |out| ==> ReadsTruth(history, q, i, out[i])
  }

  /** Under global the read is the whole history. */
  lemma GlobalReadsAll<T>(out: seq<T>, history: seq<T>, q: Query)
    requires q.block > 0 && q.mode.Global? && |history| == q.kvLen && Listed(out, history, q)
    ensures out == history
  {
    forall p ensures p in Range(0, q.kvLen) <==> p in VisibleSet(q) {
      if 0 <= p < q.kvLen {
        assert Semantic(q, p);
        assert p in SemanticSet(q);
      }
    }
    ListsSet(Range(0, q.kvLen), VisibleSet(q));
    forall i | 0 <= i < |out| ensures out[i] == history[i] { assert ReadsTruth(history, q, i, out[i]); }
  }

  predicate InTable(blocks: seq<int>, mapping: seq<int>, b: int, j: int) {
    b > 0 && 0 <= j / b < |blocks| && 0 <= blocks[j / b] < |mapping|
  }

  /** Prefix semantics: the slot read index j touches. */
  function ColumnSlot(blocks: seq<int>, mapping: seq<int>, b: int, j: int): int
    requires InTable(blocks, mapping, b, j)
  {
    mapping[blocks[j / b]] * b + j % b
  }

  lemma ReadsStored<T>(slots: seq<T>, mapping: seq<int>, b: int, history: seq<T>, q: Query, j: int)
    requires q.block == b > 0 && q.kvLen == |history| && ValidMapping(mapping) && 0 <= j < Total(q)
    requires Stored(slots, mapping, b, history)
    requires forall i :: 0 <= i < |Blocks(q)| ==> 0 <= Blocks(q)[i] < |mapping|
    ensures InTable(Blocks(q), mapping, b, j) && 0 <= ColumnSlot(Blocks(q), mapping, b, j) < |slots|
    ensures ReadsTruth(history, q, j, slots[ColumnSlot(Blocks(q), mapping, b, j)])
  {
    IndexInTable(q, j);
    SlotOfReadIndex(q, mapping, j);
    var p := Positions(q)[j];
    assert SlotHolds(slots, mapping, b, p, history[p]);
  }

  lemma FitsPrefix(mapping: seq<int>, pool: seq<int>, b: int, slots: int)
    requires Fits(mapping + pool, b, slots)
    ensures Fits(mapping, b, slots) && (mapping != [] ==> ValidMapping(mapping))
  {
    forall i | 0 <= i < |mapping| ensures mapping[i] == (mapping + pool)[i] { }
  }

  // ---------------------------------------------------------------------------
  // Whole runs
  // ---------------------------------------------------------------------------

  /** The step plan inputs of decode step s (1-based length kvLen) over a given map. */
  function StepInputs<T>(
    st: Step<T>, layout: TokenLayout, g: Geometry, mapping: seq<int>, kvLen: int, effectStep: int): PlanInputs
  {
    PlanInputs("", st.mode, st.refs, layout, g, Wrapped(mapping), kvLen, effectStep)
  }

  function Wrapped(mapping: seq<int>): (r: seq<Option<int>>)
    ensures |r| == |mapping| && AllAssigned(r) && Unwrapped(r) == mapping
  {
    seq(|mapping|, i requires 0 <= i < |mapping| => Some(mapping[i]))
  }

  /** What step s may read, whatever the physical layout. */
  function StepQuestion<T>(st: Step<T>, layout: TokenLayout, b: int, kvLen: int): Query {
    Query(st.mode, st.refs, layout, kvLen, b)
  }

  /** A step the protocol can produce over this layout. */
  predicate Legal<T>(st: Step<T>, layout: TokenLayout) {
    && !st.mode.Unknown?
    && (st.mode.Focus? ==> RefsInRange(st.refs, |layout.segmentSpans|))
    && (st.mode.Local? ==> layout.localWindow != Span(0, 0))
  }

  lemma StepIsDecode<T>(
    st: Step<T>, layout: TokenLayout, g: Geometry, mapping: seq<int>, kvLen: int, effectStep: int)
    requires Legal(st, layout) && g.Refusal().None? && effectStep >= 0 && ValidMapping(mapping)
    requires 0 <= layout.promptLen < kvLen <= g.maxModelLen && CeilDiv(kvLen, g.block) <= |mapping|
    ensures DecodeInput(StepInputs(st, layout, g, mapping, kvLen, effectStep))
  {
  }

  lemma BlockDemand(n: nat, total: nat, m: nat, pool: nat, b: int)
    requires b > 0 && n < total && m == CeilDiv(n, b) && m + pool >= CeilDiv(total, b)
    ensures n / b == m ==> pool > 0
    ensures CeilDiv(n + 1, b) == if n / b == m then m + 1 else m
  {
    CeilIsLastPlusOne(n + 1, b);
    CeilIsLastPlusOne(n, b);
    CeilMonotone(n + 1, total, b);
    DivMonotone(n - 1, n, b);
    LastBlockStep(n, b);
  }

  lemma LastBlockStep(n: nat, b: int)
    requires b > 0
    ensures n / b <= (n - 1) / b + 1
  {
    DivBounds(n - 1, b);
    DivBounds(n, b);
    var d, e := n / b, (n - 1) / b;
    if e + 1 < d {
      MulStep(e, e + 1, b);
      MulStep(e + 1, d, b);
    }
  }

  /** Write a list of tokens one after another. */
  method Fill<T(0, ==)>(cache: PagedCache<T>, tokens: seq<T>, ghost total: nat)
    requires cache.Valid() && |cache.mapping| == CeilDiv(|cache.history|, cache.block)
    requires |cache.history| + |tokens| <= total
    requires |cache.mapping| + |cache.pool| >= CeilDiv(total, cache.block)
    requires |cache.history| == 0
    modifies cache, cache.slots
    ensures cache.Valid() && cache.history == old(cache.history) + tokens
    ensures |cache.mapping| == CeilDiv(|cache.history|, cache.block)
    ensures cache.mapping + cache.pool == old(cache.mapping + cache.pool)
  {
    for i := 0 to |tokens|
      invariant cache.Valid() && cache.history == tokens[..i]
      invariant |cache.mapping| == CeilDiv(i, cache.block)
      invariant cache.mapping + cache.pool == old(cache.mapping + cache.pool)
    {
      BlockDemand(i, total, |cache.mapping|, |cache.pool|, cache.block);
      cache.Append(tokens[i], i);
    }
  }

  /** Step s read the prompt and the tokens so far at exactly its own visible positions. */
  ghost predicate StepRead<T>(
    out: seq<T>, prompt: seq<T>, steps: seq<Step<T>>, s: int, layout: TokenLayout, b: int)
    requires b > 0 && 0 <= s < |steps|
  {
    Listed(out, prompt + Tokens(steps)[..s + 1], StepQuestion(steps[s], layout, b, |prompt| + s + 1))
  }

  lemma NextHistory<T>(prompt: seq<T>, steps: seq<Step<T>>, s: int)
    requires 0 <= s < |steps|
    ensures prompt + Tokens(steps)[..s + 1] == (prompt + Tokens(steps)[..s]) + [steps[s].token]
  {
  }

  lemma StepReadFrom<T>(
    out: seq<T>, history: seq<T>, prompt: seq<T>, steps: seq<Step<T>>, s: int, layout: TokenLayout, b: int)
    requires b > 0 && 0 <= s < |steps| && history == prompt + Tokens(steps)[..s + 1]
    requires Listed(out, history, StepQuestion(steps[s], layout, b, |prompt| + s + 1))
    ensures StepRead(out, prompt, steps, s, layout, b)
  {
  }

  /** Prefill, then any sequence of steps. Every read is the truth at exactly that step's visible
      positions; the final storage depends on the tokens alone, never on modes or references. */
  method Run<T(0, ==)>(
    cache: PagedCache<T>, prompt: seq<T>, steps: seq<Step<T>>, layout: TokenLayout, g: Geometry)
    returns (outs: seq<seq<T>>)
    requires cache.Valid() && cache.history == [] && cache.mapping == []
    requires g.Refusal().None? && g.block == cache.block
    requires layout.promptLen == |prompt| && |prompt| + |steps| <= g.maxModelLen
    requires CeilDiv(|prompt| + |steps|, g.block) <= |cache.pool|
    requires forall i :: 0 <= i < |steps| ==> Legal(steps[i], layout)
    modifies cache, cache.slots
    ensures |outs| == |steps|
    ensures forall s :: 0 <= s < |steps| ==> StepRead(outs[s], prompt, steps, s, layout, g.block)
    ensures cache.Valid() && cache.history == prompt + Tokens(steps)
    ensures cache.mapping <= old(cache.pool)
    ensures |cache.mapping| == CeilDiv(|prompt| + |steps|, g.block)
  {
    hide StepRead, Legal;
    Fill(cache, prompt, |prompt| + |steps|);
    outs := [];
    assert prompt + Tokens(steps)[..0] == prompt;
    for s := 0 to |steps|
      invariant Progress(cache, prompt, steps, s, old(cache.pool))
      invariant |outs| == s
      invariant forall i :: 0 <= i < s ==> StepRead(outs[i], prompt, steps, i, layout, g.block)
    {
      var out := RunStep(cache, prompt, steps, s, layout, g, old(cache.pool));
      outs := outs + [out];
    }
    assert Tokens(steps)[..|steps|] == Tokens(steps);
  }

  /** Step s of a run. */
  method RunStep<T(0, ==)>(
    cache: PagedCache<T>, prompt: seq<T>, steps: seq<Step<T>>, s: nat, layout: TokenLayout, g: Geometry,
    ghost pool: seq<int>)
    returns (out: seq<T>)
    requires s < |steps| && Progress(cache, prompt, steps, s, pool)
    requires g.Refusal().None? && g.block == cache.block
    requires layout.promptLen == |prompt| && |prompt| + |steps| <= g.maxModelLen
    requires CeilDiv(|prompt| + |steps|, g.block) <= |pool| && Legal(steps[s], layout)
    modifies cache, cache.slots
    ensures Progress(cache, prompt, steps, s + 1, pool)
    ensures StepRead(out, prompt, steps, s, layout, g.block)
  {
    hide Listed, StepRead, Legal;
    out := DecodeStep(cache, |prompt| + s, |prompt| + |steps|, steps[s], layout, g, s + 1);
    NextHistory(prompt, steps, s);
    StepReadFrom(out, cache.history, prompt, steps, s, layout, g.block);
  }

  /** The cache after s steps. */
  ghost predicate Progress<T(0)>(
    cache: PagedCache<T>, prompt: seq<T>, steps: seq<Step<T>>, s: int, pool: seq<int>)
    requires 0 <= s <= |steps|
    reads cache, cache.slots
  {
    && cache.Valid() && cache.history == prompt + Tokens(steps)[..s]
    && |cache.mapping| == CeilDiv(|prompt| + s, cache.block)
    && cache.mapping + cache.pool == pool
  }

  /** One step: write at the canonical position, then read through that step's view. */
  method DecodeStep<T(0, ==)>(
    cache: PagedCache<T>, length: nat, ghost total: nat, st: Step<T>, layout: TokenLayout, g: Geometry,
    effectStep: int)
    returns (out: seq<T>)
    requires cache.Valid() && length == |cache.history| && |cache.mapping| == CeilDiv(length, cache.block)
    requires g.Refusal().None? && g.block == cache.block && effectStep >= 0 && Legal(st, layout)
    requires 0 <= layout.promptLen <= length < total <= g.maxModelLen
    requires |cache.mapping| + |cache.pool| >= CeilDiv(total, g.block)
    modifies cache, cache.slots
    ensures cache.Valid() && cache.history == old(cache.history) + [st.token]
    ensures |cache.mapping| == CeilDiv(length + 1, cache.block)
    ensures cache.mapping + cache.pool == old(cache.mapping + cache.pool)
    ensures Listed(out, cache.history, StepQuestion(st, layout, g.block, length + 1))
  {
    BlockDemand(length, total, |cache.mapping|, |cache.pool|, cache.block);
    cache.Append(st.token, length);
    FitsPrefix(cache.mapping, cache.pool, cache.block, cache.slots.Length);
    StepIsDecode(st, layout, g, cache.mapping, length + 1, effectStep);
    out := cache.Read(StepInputs(st, layout, g, cache.mapping, length + 1, effectStep));
  }
}
