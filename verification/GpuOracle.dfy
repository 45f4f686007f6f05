/** The bytearray oracle: expected blocks, table, counts, total and write slot from flags alone. */
module GpuOracle {
  import opened Basics
  import opened Spans
  import opened Visibility
  import opened GpuKv
  import CompressedRead
  import Reference
  import StepPlan

  datatype OracleView = OracleView(
    blocks: seq<int>, physical: seq<int>, perBlock: seq<int>, seqused: int, positions: seq<int>,
    nextWrite: (int, int, int))

  /** The inputs the oracle answers. It also insists on room for the next write. */
  ghost predicate Accepts(q: Query, mapping: seq<int>) {
    && q.block > 0 && q.kvLen > 0 && !q.mode.Unknown?
    && (q.mode.Focus? ==> RefsInRange(q.refs, |q.layout.segmentSpans|))
    && CompressedRead.CurrentVisible(q)
    && 0 <= q.kvLen / q.block < |mapping|
    && Mapped(Blocks(q), mapping)
  }

  /** Every listed block has a nonnegative physical block. */
  predicate Mapped(blocks: seq<int>, mapping: seq<int>) {
    forall i :: 0 <= i < |blocks| ==> 0 <= blocks[i] < |mapping| && mapping[blocks[i]] >= 0
  }

  function Through(blocks: seq<int>, mapping: seq<int>): seq<int>
    requires Mapped(blocks, mapping)
  {
    seq(|blocks|, i requires 0 <= i < |blocks| => mapping[blocks[i]])
  }

  function OracleSpans(q: Query): seq<Span>
    requires q.mode.Focus? ==> RefsInRange(q.refs, |q.layout.segmentSpans|)
  {
    [q.layout.sink, q.layout.localWindow, Span(q.layout.promptLen, q.kvLen)]
    + (if q.mode.Focus? then seq(|q.refs|, i requires 0 <= i < |q.refs| =>
                               assert q.refs[i] in q.refs; q.layout.segmentSpans[q.refs[i] - 1]) else [])
    + (if q.mode.Global? then [Span(0, q.kvLen)] else [])
  }

  lemma OracleSpansMeanSemantic(q: Query, p: int)
    requires q.mode.Focus? ==> RefsInRange(q.refs, |q.layout.segmentSpans|)
    requires 0 <= p < q.kvLen
    ensures Covered(OracleSpans(q), p) <==> Semantic(q, p)
  {
    if Covered(OracleSpans(q), p) { OracleSpanIsSemantic(q, p); }
    if Semantic(q, p) { SemanticHasOracleSpan(q, p); }
  }

  lemma OracleSpanIsSemantic(q: Query, p: int)
    requires q.mode.Focus? ==> RefsInRange(q.refs, |q.layout.segmentSpans|)
    requires 0 <= p < q.kvLen && Covered(OracleSpans(q), p)
    ensures Semantic(q, p)
  {
    var spans := OracleSpans(q);
    var s :| s in spans && In(s, p);
    var i :| 0 <= i < |spans| && spans[i] == s;
    if q.mode.Focus? && i >= 3 {
      assert q.refs[i - 3] in q.refs && s == q.layout.segmentSpans[q.refs[i - 3] - 1];
      assert Declared(q, p);
    }
  }

  lemma SemanticHasOracleSpan(q: Query, p: int)
    requires q.mode.Focus? ==> RefsInRange(q.refs, |q.layout.segmentSpans|)
    requires Semantic(q, p)
    ensures Covered(OracleSpans(q), p)
  {
    var spans := OracleSpans(q);
    assert spans[0] in spans && spans[1] in spans && spans[2] in spans;
    if q.mode.Global? { assert spans[3] in spans; }
    if q.mode.Focus? && Declared(q, p) { DeclaredHasOracleSpan(q, p); }
  }

  lemma DeclaredHasOracleSpan(q: Query, p: int)
    requires q.mode.Focus? && RefsInRange(q.refs, |q.layout.segmentSpans|) && Declared(q, p)
    ensures Covered(OracleSpans(q), p)
  {
    var spans := OracleSpans(q);
    var r :| r in q.refs && 1 <= r <= |q.layout.segmentSpans| && In(q.layout.segmentSpans[r - 1], p);
    var i :| 0 <= i < |q.refs| && q.refs[i] == r;
    assert spans[3 + i] in spans;
  }

  /** Set the flag of every position of every span, in place. */
  method MarkAll(flags: array<bool>, spans: seq<Span>)
    requires forall p :: 0 <= p < flags.Length ==> !flags[p]
    modifies flags
    ensures forall p :: 0 <= p < flags.Length ==> (flags[p] <==> Covered(spans, p))
  {
    for i := 0 to |spans|
      invariant forall p :: 0 <= p < flags.Length ==> (flags[p] <==> Covered(spans[..i], p))
    {
      ghost var before := flags[..];
      Reference.Mark(flags, spans[i]);
      forall p | 0 <= p < flags.Length ensures flags[p] <==> Covered(spans[..i + 1], p) {
        assert before[p] <==> Covered(spans[..i], p);
        assert spans[..i + 1] == spans[..i] + [spans[i]];
        CoveredInit(spans[..i], spans[i], p);
      }
    }
    assert spans[..|spans|] == spans;
  }

  /** The listed positions that lie in block k. */
  function InBlock(positions: seq<int>, b: int, k: int): (r: seq<int>)
    requires b > 0
    ensures forall p :: p in r <==> p in positions && p / b == k
  {
    if positions == [] then []
    else
      var n := |positions| - 1;
      InBlock(positions[..n], b, k) + if positions[n] / b == k then [positions[n]] else []
  }

  lemma {:induction false} InBlockAscends(positions: seq<int>, b: int, k: int)
    requires b > 0 && Ascending(positions)
    ensures Ascending(InBlock(positions, b, k))
  {
    if positions != [] {
      var n := |positions| - 1;
      var r := InBlock(positions[..n], b, k);
      InBlockAscends(positions[..n], b, k);
      forall i | 0 <= i < |r| ensures r[i] < positions[n] { assert r[i] in r && r[i] in positions[..n]; }
    }
  }

  /** Counting a visible block's positions one by one gives the closed-form block count. */
  lemma CountByScan(q: Query, k: int)
    requires q.block > 0 && k in BlockSet(q)
    ensures |InBlock(Positions(q), q.block, k)| == BlockCount(q, k)
  {
    var lo := k * q.block;
    BlockBounds(q, k);
    var all := Range(lo, lo + BlockCount(q, k));
    InBlockAscends(Positions(q), q.block, k);
    forall p ensures p in InBlock(Positions(q), q.block, k) <==> p in all { BlockMembers(q, k, p); }
    AscendingUnique(InBlock(Positions(q), q.block, k), all);
  }

  lemma BlockMembers(q: Query, k: int, p: int)
    requires q.block > 0 && k in BlockSet(q)
    ensures p in Positions(q) && p / q.block == k <==> k * q.block <= p < k * q.block + BlockCount(q, k)
  {
    BlockBounds(q, k);
    MulSign(k, q.block);
    DivBounds(p, q.block);
    VisibleBlock(q, p);
    if k * q.block <= p < k * q.block + BlockCount(q, k) { DivUnique(p, q.block, k); }
  }

  /** The flags of the semantic positions. */
  method SemanticFlags(q: Query) returns (flags: seq<bool>)
    requires q.block > 0 && q.kvLen > 0
    requires q.mode.Focus? ==> RefsInRange(q.refs, |q.layout.segmentSpans|)
    ensures |flags| == q.kvLen && forall p :: 0 <= p < q.kvLen ==> (flags[p] <==> Semantic(q, p))
  {
    var semantic := new bool[q.kvLen](_ => false);
    MarkAll(semantic, OracleSpans(q));
    forall p | 0 <= p < q.kvLen ensures semantic[p] <==> Semantic(q, p) { OracleSpansMeanSemantic(q, p); }
    flags := semantic[..];
  }

  lemma FlaggedBlocks(q: Query, flags: seq<bool>)
    requires q.block > 0 && |flags| == q.kvLen
    requires forall p :: 0 <= p < q.kvLen ==> (flags[p] <==> Semantic(q, p))
    ensures (set p | p in Reference.TrueIndices(flags) :: p / q.block) == BlockSet(q)
  {
    var idx := Reference.TrueIndices(flags);
    forall p ensures p in idx <==> p in SemanticSet(q) { }
  }

  function BlockSpans(q: Query, blocks: seq<int>): seq<Span> {
    seq(|blocks|, i requires 0 <= i < |blocks| => BlockSpan(q, blocks[i]))
  }

  function BlockSpan(q: Query, k: int): Span {
    Span(k * q.block, Min(k * q.block + q.block, q.kvLen))
  }

  lemma InBlockSpan(q: Query, k: int, p: int)
    requires q.block > 0 && p < q.kvLen
    ensures In(BlockSpan(q, k), p) <==> p / q.block == k
  {
    DivBounds(p, q.block);
    if k * q.block <= p < k * q.block + q.block { DivUnique(p, q.block, k); }
  }

  /** Whole blocks, cut at the KV bound, cover exactly the visible positions. */
  lemma BlockSpansCover(q: Query, p: int)
    requires q.block > 0 && 0 <= p < q.kvLen
    ensures Covered(BlockSpans(q, Blocks(q)), p) <==> p in VisibleSet(q)
  {
    VisibleBlock(q, p);
    SpansOfBlocks(q, Blocks(q), p);
  }

  lemma SpansOfBlocks(q: Query, bl: seq<int>, p: int)
    requires q.block > 0 && p < q.kvLen
    ensures Covered(BlockSpans(q, bl), p) <==> p / q.block in bl
  {
    var spans := BlockSpans(q, bl);
    if Covered(spans, p) {
      var s :| s in spans && In(s, p);
      var i :| 0 <= i < |spans| && spans[i] == s;
      InBlockSpan(q, bl[i], p);
    }
    if p / q.block in bl {
      var i :| 0 <= i < |bl| && bl[i] == p / q.block;
      InBlockSpan(q, bl[i], p);
      assert spans[i] in spans;
    }
  }

  method AlignedPositions(q: Query, blocks: seq<int>) returns (current: bool, positions: seq<int>)
    requires q.block > 0 && q.kvLen > 0 && blocks == Blocks(q)
    ensures current <==> CompressedRead.CurrentVisible(q)
    ensures positions == Positions(q)
  {
    var aligned := new bool[q.kvLen](_ => false);
    MarkAll(aligned, BlockSpans(q, blocks));
    var flags := aligned[..];
    forall p | 0 <= p < q.kvLen ensures flags[p] <==> p in VisibleSet(q) { BlockSpansCover(q, p); }
    FlaggedPositions(q, flags);
    current := flags[q.kvLen - 1];
    positions := Reference.TrueIndices(flags);
  }

  lemma FlaggedPositions(q: Query, flags: seq<bool>)
    requires q.block > 0 && |flags| == q.kvLen > 0
    requires forall p :: 0 <= p < q.kvLen ==> (flags[p] <==> p in VisibleSet(q))
    ensures flags[q.kvLen - 1] <==> CompressedRead.CurrentVisible(q)
    ensures Reference.TrueIndices(flags) == Positions(q)
  {
    VisibleBlock(q, q.kvLen - 1);
    ListsSet(Reference.TrueIndices(flags), VisibleSet(q));
  }

  method CheckBlocks(blocks: seq<int>, mapping: seq<int>) returns (ok: bool)
    requires forall i :: 0 <= i < |blocks| ==> blocks[i] >= 0
    ensures ok <==> Mapped(blocks, mapping)
  {
    for i := 0 to |blocks|
      invariant forall j :: 0 <= j < i ==> blocks[j] < |mapping| && mapping[blocks[j]] >= 0
    {
      if blocks[i] >= |mapping| { return false; }
      if mapping[blocks[i]] < 0 { return false; }
    }
    return true;
  }

  method CountAll(q: Query, blocks: seq<int>, positions: seq<int>) returns (counts: seq<int>)
    requires q.block > 0 && blocks == Blocks(q) && positions == Positions(q)
    ensures counts == Counts(q)
  {
    hide BlockCount, Positions, InBlock;
    counts := [];
    for i := 0 to |blocks|
      invariant |counts| == i && forall j :: 0 <= j < i ==> counts[j] == BlockCount(q, blocks[j])
    {
      assert blocks[i] in blocks;
      CountByScan(q, blocks[i]);
      counts := counts + [|InBlock(positions, q.block, blocks[i])|];
    }
  }

  // ---------------------------------------------------------------------------
  // build_oracle_view
  // ---------------------------------------------------------------------------

  /** Directly given blocks ask for whole blocks, as if each were a declared segment of its own. */
  function ExplicitQuestion(q: Query, blocks: seq<int>): Query {
    Query(Focus, Range(1, |blocks| + 1), TokenLayout(q.kvLen, BlockSpans(q, blocks), Span(0, 0), Span(0, 0)),
          q.kvLen, q.block)
  }

  /** The question answered: the request's own, or the supplementary one with explicit blocks. */
  function Asked(q: Query, explicit: Option<seq<int>>): Query {
    match explicit
    case None => q
    case Some(blocks) => ExplicitQuestion(q, blocks)
  }

  lemma ExplicitRefs(q: Query, blocks: seq<int>)
    ensures RefsInRange(ExplicitQuestion(q, blocks).refs, |ExplicitQuestion(q, blocks).layout.segmentSpans|)
  {
  }

  /** Explicit blocks select exactly the written positions of those blocks, in any order, repeats or not. */
  lemma ExplicitMeansBlocks(q: Query, blocks: seq<int>, p: int)
    requires q.block > 0 && 0 <= p < q.kvLen
    ensures p in SemanticSet(ExplicitQuestion(q, blocks)) <==> p / q.block in blocks
    ensures p in VisibleSet(ExplicitQuestion(q, blocks)) <==> p / q.block in blocks
  {
    var e := ExplicitQuestion(q, blocks);
    ExplicitSelects(q, blocks, p);
    if p in VisibleSet(e) {
      var s :| s in SemanticSet(e) && s / q.block == p / q.block;
      ExplicitSelects(q, blocks, s);
    }
  }

  lemma ExplicitSelects(q: Query, blocks: seq<int>, p: int)
    requires q.block > 0 && 0 <= p < q.kvLen
    ensures p in SemanticSet(ExplicitQuestion(q, blocks)) <==> p / q.block in blocks
  {
    var e, spans := ExplicitQuestion(q, blocks), BlockSpans(q, blocks);
    if Declared(e, p) {
      var r :| r in e.refs && 1 <= r <= |spans| && In(spans[r - 1], p);
      InBlockSpan(q, blocks[r - 1], p);
    }
    if p / q.block in blocks {
      var i :| 0 <= i < |blocks| && blocks[i] == p / q.block;
      InBlockSpan(q, blocks[i], p);
      assert i + 1 in e.refs && In(spans[i + 1 - 1], p);
    }
  }

  /** The view reports the position-wise definitions of the question. */
  ghost predicate Reports(v: OracleView, q: Query, mapping: seq<int>)
    requires Accepts(q, mapping)
  {
    && v.blocks == Blocks(q) && v.perBlock == Counts(q)
    && v.positions == Positions(q) && v.seqused == Total(q)
    && v.physical == Through(Blocks(q), mapping)
    && v.nextWrite == (q.kvLen / q.block, q.kvLen % q.block, SlotOf(q.kvLen, q.block, mapping))
  }

  /** build_oracle_view: everything it reports equals the position-wise definitions. */
  method BuildOracleView(q: Query, mapping: seq<int>, explicit: Option<seq<int>>) returns (r: Result<OracleView>)
    ensures r.Ok? <==> !q.mode.Unknown? && Accepts(Asked(q, explicit), mapping)
    ensures r.Err? ==> r.error == OracleError
    ensures r.Ok? ==> Reports(r.value, Asked(q, explicit), mapping)
  {
    if q.block <= 0 || q.kvLen <= 0 || q.mode.Unknown? { return Err(OracleError); }
    if explicit.None? {
      if q.mode.Focus? && !RefsInRange(q.refs, |q.layout.segmentSpans|) { return Err(OracleError); }
    } else {
      ExplicitRefs(q, explicit.value);
    }
    r := OracleFromFlags(Asked(q, explicit), mapping);
  }

  /** From the flags of the selected positions to the view. */
  method OracleFromFlags(q: Query, mapping: seq<int>) returns (r: Result<OracleView>)
    requires q.block > 0 && q.kvLen > 0 && !q.mode.Unknown?
    requires q.mode.Focus? ==> RefsInRange(q.refs, |q.layout.segmentSpans|)
    ensures r.Ok? <==> Accepts(q, mapping)
    ensures r.Err? ==> r.error == OracleError
    ensures r.Ok? ==> Reports(r.value, q, mapping)
  {
    var flags := SemanticFlags(q);
    FlaggedBlocks(q, flags);
    var idx := Reference.TrueIndices(flags);
    var blocks := SortedInts(set p | p in idx :: p / q.block);
    var current, positions := AlignedPositions(q, blocks);
    if blocks == [] || !current { return Err(OracleError); }
    StepPlan.BlocksUpToCurrent(q);
    var ok := CheckBlocks(blocks, mapping);
    if !ok || q.kvLen / q.block >= |mapping| { return Err(OracleError); }
    var counts := CountAll(q, blocks, positions);
    CompressedReadExact(q);
    DivMonotone(0, q.kvLen, q.block);
    return Ok(OracleView(blocks, Through(blocks, mapping), counts, |positions|, positions,
      (q.kvLen / q.block, q.kvLen % q.block, SlotOf(q.kvLen, q.block, mapping))));
  }
}
