/** The dense reference: runs of semantic positions, widened to blocks and cut at the KV bound. */
module ReferenceDense {
  import opened Basics
  import opened Spans
  import opened Visibility
  import opened ReadView

  datatype Mask = Mask(
    semantic: seq<int>, read: seq<int>, blocks: seq<int>, perBlock: seq<int>, kvLen: int,
    current: int, mode: Mode, refs: seq<int>, block: int)

  /** VisibleMask.__post_init__ accepts. */
  ghost predicate Consistent(m: Mask) {
    && m.kvLen > 0 && m.block > 0 && m.current == m.kvLen - 1
    && (forall p :: p in m.semantic ==> 0 <= p < m.kvLen)
    && (forall p :: p in m.read ==> 0 <= p < m.kvLen)
    && Ascending(m.semantic) && Ascending(m.read)
    && (forall p :: p in m.semantic ==> p in m.read)
    && Sum(m.perBlock) == |m.read|
    && Ascending(m.blocks)
  }

  /** A run of consecutive positions, both ends included. */
  datatype Run = Run(first: int, last: int)

  predicate Holds(r: Run, x: int) { r.first <= x <= r.last }

  ghost predicate InRuns(runs: seq<Run>, x: int) {
    exists i :: 0 <= i < |runs| && Holds(runs[i], x)
  }

  /** Splitting any list into consecutive runs keeps exactly its elements. */
  method SplitRuns(semantic: seq<int>) returns (runs: seq<Run>)
    ensures forall i :: 0 <= i < |runs| ==> runs[i].first <= runs[i].last
    ensures forall x :: InRuns(runs, x) <==> x in semantic
  {
    runs := [];
    for i := 0 to |semantic|
      invariant forall j :: 0 <= j < |runs| ==> runs[j].first <= runs[j].last
      invariant forall x :: InRuns(runs, x) <==> x in semantic[..i]
    {
      var p := semantic[i];
      ghost var before := runs;
      if runs != [] && p == runs[|runs| - 1].last + 1 {
        runs := runs[|runs| - 1 := Run(runs[|runs| - 1].first, p)];
      } else {
        runs := runs + [Run(p, p)];
      }
      assert semantic[..i + 1] == semantic[..i] + [p];
      forall x ensures InRuns(runs, x) <==> x in semantic[..i + 1] { GrownRuns(before, runs, p, x); }
    }
    assert semantic[..|semantic|] == semantic;
  }

  lemma GrownRuns(a: seq<Run>, r: seq<Run>, p: int, x: int)
    requires forall j :: 0 <= j < |a| ==> a[j].first <= a[j].last
    requires || r == a + [Run(p, p)]
             || (a != [] && p == a[|a| - 1].last + 1 && r == a[|a| - 1 := Run(a[|a| - 1].first, p)])
    ensures InRuns(r, x) <==> InRuns(a, x) || x == p
  {
    if InRuns(a, x) {
      var i :| 0 <= i < |a| && Holds(a[i], x);
      assert Holds(r[i], x);
    }
    if x == p { assert Holds(r[|r| - 1], p); }
    if InRuns(r, x) {
      var i :| 0 <= i < |r| && Holds(r[i], x);
      if x != p { assert Holds(a[i], x); }
    }
  }

  /** x is below the bound and shares a block with something in the run. */
  ghost predicate Reached(r: Run, b: int, kvLen: int, x: int)
    requires b > 0
  {
    x < kvLen && r.first / b <= x / b <= r.last / b
  }

  lemma WidenedRun(r: Run, b: int, kvLen: int, x: int)
    requires b > 0
    ensures (r.first / b) * b <= x < Min((r.last / b) * b + b, kvLen) <==> Reached(r, b, kvLen, x)
  {
    AtLeastMultiple(r.first / b, x, b);
    AtLeastMultiple(r.last / b + 1, x, b);
    assert (r.last / b + 1) * b == (r.last / b) * b + b;
  }

  method WidenRuns(runs: seq<Run>, b: int, kvLen: int) returns (out: set<int>)
    requires b > 0
    ensures forall x :: x in out <==> exists i :: 0 <= i < |runs| && Reached(runs[i], b, kvLen, x)
  {
    out := {};
    for i := 0 to |runs|
      invariant forall x :: x in out <==> exists j :: 0 <= j < i && Reached(runs[j], b, kvLen, x)
    {
      var added := Range((runs[i].first / b) * b, Min((runs[i].last / b) * b + b, kvLen));
      forall x ensures x in added <==> Reached(runs[i], b, kvLen, x) { WidenedRun(runs[i], b, kvLen, x); }
      out := out + (set x | x in added);
    }
  }

  lemma RunBlocks(r: Run, b: int, k: int)
    requires b > 0 && r.first <= r.last
    ensures r.first / b <= k <= r.last / b <==> exists y :: Holds(r, y) && y / b == k
  {
    SpanBlocks(Span(r.first, r.last + 1), b, k);
    LastBlock(r.last + 1, b);
    RunIsSpan(r, b, k);
    hide In, Holds;
  }

  lemma RunIsSpan(r: Run, b: int, k: int)
    requires b > 0
    ensures (exists x :: In(Span(r.first, r.last + 1), x) && x / b == k) <==> exists y :: Holds(r, y) && y / b == k
  {
    var s := Span(r.first, r.last + 1);
    if x :| In(s, x) && x / b == k { assert Holds(r, x); }
    if y :| Holds(r, y) && y / b == k { assert In(s, y); }
  }

  ghost predicate SharesBlock(semantic: seq<int>, b: int, x: int)
    requires b > 0
  {
    exists p :: p in semantic && p / b == x / b
  }

  lemma ReachedByRuns(runs: seq<Run>, semantic: seq<int>, b: int, kvLen: int, x: int)
    requires b > 0 && forall i :: 0 <= i < |runs| ==> runs[i].first <= runs[i].last
    requires forall y :: InRuns(runs, y) <==> y in semantic
    ensures (exists i :: 0 <= i < |runs| && Reached(runs[i], b, kvLen, x))
       <==> x < kvLen && SharesBlock(semantic, b, x)
  {
    if exists i :: 0 <= i < |runs| && Reached(runs[i], b, kvLen, x) {
      var i :| 0 <= i < |runs| && Reached(runs[i], b, kvLen, x);
      RunBlocks(runs[i], b, x / b);
      var y :| Holds(runs[i], y) && y / b == x / b;
      assert InRuns(runs, y);
    }
    if x < kvLen && SharesBlock(semantic, b, x) {
      var p :| p in semantic && p / b == x / b;
      assert InRuns(runs, p);
      var i :| 0 <= i < |runs| && Holds(runs[i], p);
      RunBlocks(runs[i], b, x / b);
      assert Reached(runs[i], b, kvLen, x);
    }
  }

  function ClippedCount(k: int, b: int, kvLen: int): int {
    Max(0, Min(kvLen, k * b + b) - k * b)
  }

  function ClippedCounts(blocks: seq<int>, b: int, kvLen: int): seq<int> {
    seq(|blocks|, i requires 0 <= i < |blocks| => ClippedCount(blocks[i], b, kvLen))
  }

  /** The read positions are those below the bound sharing a block with the input; the blocks are
      theirs, each counted up to the bound. */
  ghost predicate IsExpansion(
    semantic: seq<int>, b: int, kvLen: int, read: seq<int>, blocks: seq<int>, counts: seq<int>)
    requires b > 0
  {
    && Ascending(read)
    && (forall x :: x in read <==> x < kvLen && SharesBlock(semantic, b, x))
    && blocks == SortedInts(set p | p in read :: p / b)
    && counts == ClippedCounts(blocks, b, kvLen)
  }

  /** block_expanded_positions, for any input list: sorted or not, negative or past the bound. */
  method BlockExpanded(semantic: seq<int>, b: int, kvLen: int)
    returns (r: Result<(seq<int>, seq<int>, seq<int>)>)
    ensures r.Err? <==> b <= 0 || semantic == []
    ensures r.Err? ==> r.error == ReferenceError
    ensures r.Ok? ==> IsExpansion(semantic, b, kvLen, r.value.0, r.value.1, r.value.2)
  {
    if b <= 0 || semantic == [] { return Err(ReferenceError); }
    var runs := SplitRuns(semantic);
    var out := WidenRuns(runs, b, kvLen);
    forall x ensures x in out <==> x < kvLen && SharesBlock(semantic, b, x) {
      ReachedByRuns(runs, semantic, b, kvLen, x);
    }
    var read := SortedInts(out);
    var blocks := SortedInts(set p | p in read :: p / b);
    return Ok((read, blocks, ClippedCounts(blocks, b, kvLen)));
  }

  predicate Answerable(q: Query) {
    && !q.mode.Unknown? && q.block > 0 && SemanticSet(q) != {}
    && (q.mode.Focus? ==> q.refs != [] && RefsInRange(q.refs, |q.layout.segmentSpans|))
  }

  function SemanticSpansOf(q: Query): seq<Span>
    requires q.mode.Focus? ==> RefsInRange(q.refs, |q.layout.segmentSpans|)
  {
    [q.layout.sink, q.layout.localWindow, Span(q.layout.promptLen, q.kvLen)]
    + if q.mode.Global? then [Span(0, q.kvLen)]
      else if q.mode.Focus? then seq(|q.refs|, i requires 0 <= i < |q.refs| =>
                                   assert q.refs[i] in q.refs; q.layout.segmentSpans[q.refs[i] - 1])
      else []
  }

  lemma SpansMeanSemanticSet(q: Query)
    requires q.mode.Focus? ==> RefsInRange(q.refs, |q.layout.segmentSpans|)
    ensures PointSet(SemanticSpansOf(q), q.kvLen) == SemanticSet(q)
  {
    forall p ensures p in PointSet(SemanticSpansOf(q), q.kvLen) <==> p in SemanticSet(q) {
      if p in PointSet(SemanticSpansOf(q), q.kvLen) { PointIsSemantic(q, p); }
      if p in SemanticSet(q) { SemanticIsPoint(q, p); }
    }
  }

  lemma PointIsSemantic(q: Query, p: int)
    requires q.mode.Focus? ==> RefsInRange(q.refs, |q.layout.segmentSpans|)
    requires p in PointSet(SemanticSpansOf(q), q.kvLen)
    ensures Semantic(q, p)
  {
    var spans := SemanticSpansOf(q);
    var i :| 0 <= i < |spans| && In(spans[i], p);
    if q.mode.Focus? && i >= 3 {
      assert q.refs[i - 3] in q.refs;
      assert Declared(q, p);
    }
  }

  lemma SemanticIsPoint(q: Query, p: int)
    requires q.mode.Focus? ==> RefsInRange(q.refs, |q.layout.segmentSpans|)
    requires Semantic(q, p)
    ensures p in PointSet(SemanticSpansOf(q), q.kvLen)
  {
    var spans := SemanticSpansOf(q);
    assert q.layout.promptLen <= p ==> In(spans[2], p);
    if q.mode.Focus? && Declared(q, p) {
      var r :| r in q.refs && 1 <= r <= |q.layout.segmentSpans| && In(q.layout.segmentSpans[r - 1], p);
      var i :| 0 <= i < |q.refs| && q.refs[i] == r;
      assert In(spans[3 + i], p);
    }
    assert q.mode.Global? ==> In(spans[3], p);
    assert In(spans[0], p) || In(spans[1], p) || In(spans[2], p)
      || exists i :: 3 <= i < |spans| && In(spans[i], p);
  }

  /** The set comprehension over the raw spans. */
  function PointSet(spans: seq<Span>, kvLen: int): set<int> {
    set p | 0 <= p < kvLen && InSome(spans, p)
  }

  predicate InSome(spans: seq<Span>, p: int) {
    exists i :: 0 <= i < |spans| && In(spans[i], p)
  }

  lemma ReadIsVisible(q: Query, semantic: seq<int>, x: int)
    requires q.block > 0 && forall p :: p in semantic <==> p in SemanticSet(q)
    ensures x < q.kvLen && SharesBlock(semantic, q.block, x) <==> x in VisibleSet(q)
  {
    if x < q.kvLen && SharesBlock(semantic, q.block, x) {
      var p :| p in semantic && p / q.block == x / q.block;
      DivMonotone(0, p, q.block);
      AtLeastMultiple(0, x, q.block);
    }
  }

  lemma BlocksOfRead(q: Query)
    requires q.block > 0
    ensures (set p | p in Positions(q) :: p / q.block) == BlockSet(q)
  {
    var u := set p | p in Positions(q) :: p / q.block;
    forall k ensures k in u <==> k in BlockSet(q) {
      if k in BlockSet(q) {
        var s :| s in SemanticSet(q) && s / q.block == k;
        assert s in VisibleSet(q) && s in Positions(q);
      }
    }
  }

  lemma ClippedIsCounts(q: Query)
    requires q.block > 0
    ensures ClippedCounts(Blocks(q), q.block, q.kvLen) == Counts(q)
  {
    forall i | 0 <= i < |Blocks(q)|
      ensures ClippedCount(Blocks(q)[i], q.block, q.kvLen) == BlockCount(q, Blocks(q)[i]) {
      assert Blocks(q)[i] in Blocks(q);
      BlockBounds(q, Blocks(q)[i]);
    }
  }

  function MaskOf(q: Query, semantic: seq<int>, read: seq<int>, blocks: seq<int>, counts: seq<int>): Mask {
    Mask(semantic, read, blocks, counts, q.kvLen, q.kvLen - 1, q.mode, q.refs, q.block)
  }

  /** The mask, position by position. */
  ghost function ExactMask(q: Query): Mask
    requires q.block > 0
  {
    MaskOf(q, SortedInts(SemanticSet(q)), Positions(q), Blocks(q), Counts(q))
  }

  lemma ExpandedIsExact(q: Query, semantic: seq<int>, read: seq<int>, blocks: seq<int>, counts: seq<int>)
    requires q.block > 0 && semantic == SortedInts(SemanticSet(q))
    requires IsExpansion(semantic, q.block, q.kvLen, read, blocks, counts)
    ensures MaskOf(q, semantic, read, blocks, counts) == ExactMask(q)
  {
    forall x ensures x in read <==> x in VisibleSet(q) { ReadIsVisible(q, semantic, x); }
    ListsSet(read, VisibleSet(q));
    BlocksOfRead(q);
    ClippedIsCounts(q);
  }

  lemma EmptyListing(s: set<int>)
    ensures SortedInts(s) == [] <==> s == {}
  {
    assert |SortedInts(s)| == |s|;
  }

  /** independent_visible_positions; the mask's own consistency checks never fire. */
  method IndependentPositions(q: Query) returns (r: Result<Mask>)
    ensures r.Ok? <==> Answerable(q)
    ensures r.Err? ==> r.error == ReferenceError
    ensures r.Ok? ==> r.value == ExactMask(q) && Consistent(r.value)
  {
    if q.mode.Unknown? { return Err(ReferenceError); }
    if q.mode.Focus? && (q.refs == [] || !RefsInRange(q.refs, |q.layout.segmentSpans|)) {
      return Err(ReferenceError);
    }
    r := MaskOfSpans(q);
  }

  method MaskOfSpans(q: Query) returns (r: Result<Mask>)
    requires !q.mode.Unknown?
    requires q.mode.Focus? ==> q.refs != [] && RefsInRange(q.refs, |q.layout.segmentSpans|)
    ensures r == if Answerable(q) then Ok(ExactMask(q)) else Err(ReferenceError)
    ensures r.Ok? ==> Consistent(r.value)
  {
    var semantic := SortedInts(PointSet(SemanticSpansOf(q), q.kvLen));
    SpansMeanSemanticSet(q);
    EmptyListing(SemanticSet(q));
    var expanded := BlockExpanded(semantic, q.block, q.kvLen);
    if expanded.Err? { return Err(ReferenceError); }
    var (read, blocks, counts) := expanded.value;
    ExpandedIsExact(q, semantic, read, blocks, counts);
    ExactMaskConsistent(q);
    r := Ok(MaskOf(q, semantic, read, blocks, counts));
  }

  lemma ExactMaskConsistent(q: Query)
    requires Answerable(q)
    ensures Consistent(ExactMask(q))
  {
    CountsTotal(q);
    CompressedReadExact(q);
    var s :| s in SemanticSet(q);
    forall p | p in SemanticSet(q) ensures p in VisibleSet(q) { }
  }

  /** gather_positions, index part: the (physical block, offset) pairs a position list touches. */
  function GatherIndex(table: seq<int>, b: int, positions: seq<int>, cacheBlocks: nat): Result<seq<(int, int)>> {
    if b <= 0 || positions == [] || (exists i :: 0 <= i < |positions| && positions[i] < 0) then Err(ReferenceError)
    else if exists i :: 0 <= i < |positions| && positions[i] / b >= |table| then Err(ReferenceError)
    else
      assert forall i :: 0 <= i < |positions| ==> 0 <= positions[i] / b < |table| by {
        forall i | 0 <= i < |positions| ensures 0 <= positions[i] / b < |table| { DivMonotone(0, positions[i], b); }
      }
      if exists i :: 0 <= i < |positions| && !(0 <= table[positions[i] / b] < cacheBlocks) then Err(ReferenceError)
      else Ok(seq(|positions|, i requires 0 <= i < |positions| => (table[positions[i] / b], positions[i] % b)))
  }
}
