/** Read-view construction by span algebra, and the adapter's boundary checks. */
module ReadView {
  import opened Basics
  import opened Spans
  import opened Visibility

  const INVALID_SLOT := -1

  datatype ViewInputs = ViewInputs(
    mode: Mode, refs: seq<int>, layout: TokenLayout, kvLen: int,
    canonical: seq<Option<int>>,  // logical block -> physical block, None = unallocated
    block: int, maxWidth: int, effectStep: int)

  datatype View = View(
    mode: Mode, effectStep: int, layoutSink: Span, localWindow: Span, response: Span,
    refs: seq<int>, declared: seq<Span>, raw: seq<Span>, visible: seq<Span>,
    blocks: seq<int>, physical: seq<int>, validCounts: int, maxWidth: int,
    kvLen: int, block: int, tailLen: int, nextWrite: int)

  function Question(inp: ViewInputs): Query {
    Query(inp.mode, inp.refs, inp.layout, inp.kvLen, inp.block)
  }

  /** Valid tokens in the last written block; 0 when nothing is written. */
  function TailBlockLen(kvLen: int, b: int): int
    requires b > 0
  {
    if kvLen <= 0 then 0 else (kvLen - 1) % b + 1
  }

  predicate WellFormed(inp: ViewInputs) {
    && inp.block > 0 && inp.kvLen >= 0 && !inp.mode.Unknown?
    && (inp.mode.Focus? ==> RefsInRange(inp.refs, |inp.layout.segmentSpans|))
  }

  predicate Allocated(canonical: seq<Option<int>>, k: int) {
    0 <= k < |canonical| && canonical[k].Some? && canonical[k].value >= 0
  }

  predicate AllAllocated(canonical: seq<Option<int>>, blocks: seq<int>) {
    forall i :: 0 <= i < |blocks| ==> Allocated(canonical, blocks[i])
  }

  function PhysicalOf(canonical: seq<Option<int>>, blocks: seq<int>): (r: seq<int>)
    requires AllAllocated(canonical, blocks)
    ensures |r| == |blocks|
  {
    seq(|blocks|, i requires 0 <= i < |blocks| => canonical[blocks[i]].value)
  }

  function Repeat(x: int, n: int): (r: seq<int>)
    ensures |r| == (if n > 0 then n else 0)
    ensures forall i :: 0 <= i < |r| ==> r[i] == x
  {
    if n <= 0 then [] else seq(n, _ => x)
  }

  function DeclaredSpans(inp: ViewInputs): seq<Span>
    requires WellFormed(inp)
  {
    if inp.mode.Focus?
    then seq(|inp.refs|, i requires 0 <= i < |inp.refs| =>
               assert inp.refs[i] in inp.refs; inp.layout.segmentSpans[inp.refs[i] - 1])
    else []
  }

  /** The view record; the block table is padded with INVALID_SLOT up to the fixed width. */
  function Assemble(
    inp: ViewInputs, raw: seq<Span>, visible: seq<Span>, blocks: seq<int>, physical: seq<int>): View
    requires WellFormed(inp)
  {
    View(inp.mode, inp.effectStep, inp.layout.sink, inp.layout.localWindow,
         Span(inp.layout.promptLen, inp.kvLen), inp.refs, DeclaredSpans(inp), raw, visible, blocks,
         physical + Repeat(INVALID_SLOT, inp.maxWidth - |physical|), |blocks|, inp.maxWidth,
         inp.kvLen, inp.block, TailBlockLen(inp.kvLen, inp.block), inp.kvLen)
  }

  /** What a view must be, in terms of the positions the protocol makes visible. */
  ghost function ViewSpec(inp: ViewInputs): Result<View> {
    if !WellFormed(inp) then Err(ReadViewError)
    else
      var q := Question(inp);
      var blocks := Blocks(q);
      if inp.maxWidth < |blocks| || !AllAllocated(inp.canonical, blocks) then Err(ReadViewError)
      else
        Ok(Assemble(inp, RunsOf(SortedInts(SemanticSet(q))), RunsOf(Positions(q)), blocks,
                    PhysicalOf(inp.canonical, blocks)))
  }

  // ---------------------------------------------------------------------------
  // _clip, _align_outward, _merge
  // ---------------------------------------------------------------------------

  /** Clipping keeps exactly the covered positions in [0, kvLen), in nonempty spans. */
  method Clip(spans: seq<Span>, kvLen: int) returns (out: seq<Span>)
    ensures NonEmpty(out)
    ensures forall p :: Covered(out, p) <==> 0 <= p < kvLen && Covered(spans, p)
  {
    out := [];
    for i := 0 to |spans|
      invariant NonEmpty(out)
      invariant forall p :: Covered(out, p) <==> 0 <= p < kvLen && Covered(spans[..i], p)
    {
      var lo := Max(0, Min(spans[i].lo, kvLen));
      var hi := Max(0, Min(spans[i].hi, kvLen));
      ghost var before := out;
      if hi > lo { out := out + [Span(lo, hi)]; }
      forall p ensures Covered(out, p) <==> 0 <= p < kvLen && Covered(spans[..i + 1], p) {
        assert spans[..i + 1] == spans[..i] + [spans[i]];
        CoveredInit(spans[..i], spans[i], p);
        CoveredInit(before, Span(lo, hi), p);
      }
    }
    assert spans[..|spans|] == spans;
  }

  /** One span widened to block edges. */
  function Aligned(s: Span, b: int): Span
    requires b > 0
  {
    Span((s.lo / b) * b, ((s.hi + b - 1) / b) * b)
  }

  function AlignOutward(spans: seq<Span>, b: int): seq<Span>
    requires b > 0
  {
    seq(|spans|, i requires 0 <= i < |spans| => Aligned(spans[i], b))
  }

  /** The blocks a nonempty span meets. */
  lemma SpanBlocks(s: Span, b: int, k: int)
    requires b > 0 && s.lo < s.hi
    ensures (exists x :: In(s, x) && x / b == k) <==> s.lo / b <= k < (s.hi + b - 1) / b
  {
    LastBlock(s.hi, b);
    if s.lo / b <= k < (s.hi + b - 1) / b {
      var x := if k == s.lo / b then s.lo else k * b;
      FirstInBlock(s, b, k, x);
      assert In(s, x) && x / b == k;
    }
    if exists x :: In(s, x) && x / b == k {
      var x :| In(s, x) && x / b == k;
      DivMonotone(s.lo, x, b);
      DivMonotone(x, s.hi - 1, b);
    }
  }

  lemma LastBlock(hi: int, b: int)
    requires b > 0
    ensures (hi + b - 1) / b == (hi - 1) / b + 1
  {
    DivBounds(hi - 1, b);
    assert ((hi - 1) / b + 1) * b == ((hi - 1) / b) * b + b;
    DivUnique(hi + b - 1, b, (hi - 1) / b + 1);
  }

  lemma FirstInBlock(s: Span, b: int, k: int, x: int)
    requires b > 0 && s.lo < s.hi && s.lo / b <= k <= (s.hi - 1) / b
    requires x == if k == s.lo / b then s.lo else k * b
    ensures In(s, x) && x / b == k
  {
    DivBounds(s.lo, b);
    DivBounds(s.hi - 1, b);
    if k != s.lo / b {
      MulStep(s.lo / b, k, b);
      DivUnique(x, b, k);
      if k < (s.hi - 1) / b { MulStep(k, (s.hi - 1) / b, b); }
    }
  }

  lemma InAligned(s: Span, b: int, p: int)
    requires b > 0
    ensures In(Aligned(s, b), p) <==> s.lo / b <= p / b < (s.hi + b - 1) / b
  {
    AtLeastMultiple(s.lo / b, p, b);
    AtLeastMultiple((s.hi + b - 1) / b, p, b);
  }

  lemma AtLeastMultiple(k: int, p: int, b: int)
    requires b > 0
    ensures k * b <= p <==> k <= p / b
  {
    DivBounds(p, b);
    if k <= p / b { if k < p / b { MulStep(k, p / b, b); } }
    else { MulStep(p / b, k, b); }
  }

  /** Outward alignment covers exactly the blocks of the covered positions. */
  lemma AlignCovers(spans: seq<Span>, b: int, p: int)
    requires b > 0 && forall i :: 0 <= i < |spans| ==> spans[i].lo < spans[i].hi
    ensures Covered(AlignOutward(spans, b), p) <==> exists x :: Covered(spans, x) && x / b == p / b
  {
    var out := AlignOutward(spans, b);
    if Covered(out, p) {
      var t :| t in out && In(t, p);
      var i :| 0 <= i < |out| && out[i] == t;
      InAligned(spans[i], b, p);
      SpanBlocks(spans[i], b, p / b);
      var x :| In(spans[i], x) && x / b == p / b;
      assert spans[i] in spans && Covered(spans, x);
    }
    if exists x :: Covered(spans, x) && x / b == p / b {
      var x :| Covered(spans, x) && x / b == p / b;
      var s :| s in spans && In(s, x);
      var i :| 0 <= i < |spans| && spans[i] == s;
      SpanBlocks(s, b, p / b);
      InAligned(s, b, p);
      assert out[i] in out;
    }
  }

  predicate SpanLess(a: Span, b: Span) { a.lo < b.lo || (a.lo == b.lo && a.hi < b.hi) }

  /** Sort, drop duplicates, fuse touching and overlapping spans. The result covers the input's
      positions with gaps between its spans, so by NormalUnique it depends on nothing else. */
  method Merge(spans: seq<Span>) returns (merged: seq<Span>)
    ensures Separated(merged)
    ensures SamePositions(merged, spans)
    ensures NonEmpty(spans) ==> Normal(merged)
  {
    if spans == [] { return []; }
    var ordered := Sorted((set s | s in spans), SpanLess);
    assert spans[0] in ordered;
    SameElements(ordered, spans);
    merged := MergeOrdered(ordered);
  }

  /** The fusing loop over distinct sorted spans. */
  method MergeOrdered(ordered: seq<Span>) returns (merged: seq<Span>)
    requires ordered != [] && AscendingBy(ordered, SpanLess)
    ensures Separated(merged)
    ensures SamePositions(merged, ordered)
    ensures NonEmpty(ordered) ==> Normal(merged)
  {
    merged := [ordered[0]];
    assert ordered[..1] == merged;
    for i := 1 to |ordered|
      invariant merged != [] && Separated(merged)
      invariant merged[|merged| - 1].lo <= ordered[i - 1].lo
      invariant SamePositions(merged, ordered[..i])
      invariant NonEmpty(ordered) ==> NonEmpty(merged)
    {
      var last, s := merged[|merged| - 1], ordered[i];
      assert SpanLess(ordered[i - 1], s);
      AbsorbStep(merged, s);
      AbsorbCovers(merged, ordered[..i], s);
      assert ordered[..i + 1] == ordered[..i] + [s];
      if s.lo <= last.hi {
        merged := merged[|merged| - 1 := Span(last.lo, Max(last.hi, s.hi))];
      } else {
        merged := merged + [s];
      }
    }
    assert ordered[..|ordered|] == ordered;
  }

  ghost predicate SamePositions(a: seq<Span>, b: seq<Span>) {
    forall p :: Covered(a, p) <==> Covered(b, p)
  }

  ghost predicate NonEmpty(spans: seq<Span>) {
    forall i :: 0 <= i < |spans| ==> spans[i].lo < spans[i].hi
  }

  lemma SameElements(a: seq<Span>, b: seq<Span>)
    requires forall s :: s in a <==> s in b
    ensures NonEmpty(b) ==> NonEmpty(a)
    ensures SamePositions(a, b)
  {
    if NonEmpty(b) {
      forall i | 0 <= i < |a| ensures a[i].lo < a[i].hi { assert a[i] in a; }
    }
  }

  /** The list after the next sorted span is fused with the last one or appended. */
  ghost function Absorb(a: seq<Span>, s: Span): seq<Span>
    requires a != []
  {
    var last := a[|a| - 1];
    if s.lo <= last.hi then a[|a| - 1 := Span(last.lo, Max(last.hi, s.hi))] else a + [s]
  }

  lemma AbsorbStep(a: seq<Span>, s: Span)
    requires a != [] && Separated(a) && a[|a| - 1].lo <= s.lo
    ensures Separated(Absorb(a, s)) && Absorb(a, s)[|Absorb(a, s)| - 1].lo <= s.lo
    ensures NonEmpty(a) && s.lo < s.hi ==> NonEmpty(Absorb(a, s))
  {
    if s.lo <= a[|a| - 1].hi { FuseSeparated(a, Absorb(a, s)); } else { AppendSeparated(a, s); }
  }

  lemma AbsorbCovers(a: seq<Span>, b: seq<Span>, s: Span)
    requires a != [] && a[|a| - 1].lo <= s.lo && SamePositions(a, b)
    ensures SamePositions(Absorb(a, s), b + [s])
  {
    forall p ensures Covered(Absorb(a, s), p) <==> Covered(b + [s], p) {
      CoveredInit(b, s, p);
      if s.lo <= a[|a| - 1].hi { FuseCovers(a, s, p); } else { CoveredInit(a, s, p); }
    }
  }

  lemma FuseSeparated(a: seq<Span>, r: seq<Span>)
    requires a != [] && Separated(a) && |r| == |a| && r[..|r| - 1] == a[..|a| - 1]
    requires r[|r| - 1].lo == a[|a| - 1].lo
    ensures Separated(r)
  {
    forall i, j | 0 <= i < j < |r| ensures r[i].hi < r[j].lo {
      assert r[i] == r[..|r| - 1][i] == a[i];
      if j < |r| - 1 { assert r[j] == r[..|r| - 1][j] == a[j]; }
    }
  }

  lemma AppendSeparated(a: seq<Span>, s: Span)
    requires a != [] && Separated(a) && a[|a| - 1].hi < s.lo && a[|a| - 1].lo <= s.lo
    ensures Separated(a + [s])
  {
    forall i, j | 0 <= i < j < |a + [s]| ensures (a + [s])[i].hi < (a + [s])[j].lo {
      if j == |a| && i < |a| - 1 { assert a[i].hi < a[|a| - 1].lo; }
    }
  }

  lemma FuseCovers(a: seq<Span>, s: Span, p: int)
    requires a != [] && a[|a| - 1].lo <= s.lo <= a[|a| - 1].hi
    ensures Covered(a[|a| - 1 := Span(a[|a| - 1].lo, Max(a[|a| - 1].hi, s.hi))], p)
       <==> Covered(a, p) || In(s, p)
  {
    var init, last := a[..|a| - 1], a[|a| - 1];
    var fused := Span(last.lo, Max(last.hi, s.hi));
    assert a == init + [last] && a[|a| - 1 := fused] == init + [fused];
    CoveredInit(init, last, p);
    CoveredInit(init, fused, p);
  }

  // ---------------------------------------------------------------------------
  // build_read_view
  // ---------------------------------------------------------------------------

  /** The spans a mode selects, before clipping. */
  function SemanticSpans(inp: ViewInputs): seq<Span>
    requires WellFormed(inp)
  {
    [inp.layout.sink, inp.layout.localWindow, Span(inp.layout.promptLen, inp.kvLen)]
    + DeclaredSpans(inp)
    + if inp.mode.Global? then [Span(0, inp.kvLen)] else []
  }

  lemma SpansMeanSemantic(inp: ViewInputs, p: int)
    requires WellFormed(inp)
    ensures 0 <= p < inp.kvLen && Covered(SemanticSpans(inp), p) <==> p in SemanticSet(Question(inp))
  {
    if 0 <= p < inp.kvLen && Covered(SemanticSpans(inp), p) { SpanIsSemantic(inp, p); }
    if p in SemanticSet(Question(inp)) { SemanticHasSpan(inp, p); }
  }

  lemma SpanIsSemantic(inp: ViewInputs, p: int)
    requires WellFormed(inp) && 0 <= p < inp.kvLen && Covered(SemanticSpans(inp), p)
    ensures Semantic(Question(inp), p)
  {
    var d := DeclaredSpans(inp);
    var s :| s in SemanticSpans(inp) && In(s, p);
    if s in d {
      var i :| 0 <= i < |d| && d[i] == s;
      assert inp.refs[i] in inp.refs;
      assert Declared(Question(inp), p);
    }
  }

  lemma SemanticHasSpan(inp: ViewInputs, p: int)
    requires WellFormed(inp) && Semantic(Question(inp), p)
    ensures Covered(SemanticSpans(inp), p)
  {
    var spans, q, d := SemanticSpans(inp), Question(inp), DeclaredSpans(inp);
    assert spans[0] in spans && spans[1] in spans && spans[2] in spans;
    if q.mode.Global? { assert spans[|spans| - 1] in spans; }
    if q.mode.Focus? && Declared(q, p) {
      var r :| r in q.refs && 1 <= r <= |q.layout.segmentSpans| && In(q.layout.segmentSpans[r - 1], p);
      var i :| 0 <= i < |q.refs| && q.refs[i] == r;
      assert spans[3 + i] == d[i] && spans[3 + i] in spans;
    }
  }

  /** raw spans, visible spans and visible blocks, by clip, merge, align, clip, merge. */
  method ComputeSpans(inp: ViewInputs) returns (raw: seq<Span>, visible: seq<Span>, blocks: seq<int>)
    requires WellFormed(inp)
    ensures raw == RunsOf(SortedInts(SemanticSet(Question(inp))))
    ensures visible == RunsOf(Positions(Question(inp)))
    ensures blocks == Blocks(Question(inp))
  {
    ghost var q := Question(inp);
    var clipped := Clip(SemanticSpans(inp), inp.kvLen);
    raw := Merge(clipped);
    assert SpansOfSet(raw, SemanticSet(q)) by {
      forall p ensures Covered(raw, p) <==> p in SemanticSet(q) { SpansMeanSemantic(inp, p); }
    }
    var outer := Clip(AlignOutward(raw, inp.block), inp.kvLen);
    visible := Merge(outer);
    AlignedClipped(q, raw, outer);
    blocks := CollectBlocks(visible, inp.block, q);
    NormalIsRuns(raw, SemanticSet(q));
    NormalIsRuns(visible, VisibleSet(q));
  }

  ghost predicate SpansOfSet(spans: seq<Span>, s: set<int>) {
    forall p :: Covered(spans, p) <==> p in s
  }

  lemma AlignedClipped(q: Query, raw: seq<Span>, outer: seq<Span>)
    requires q.block > 0 && NonEmpty(raw) && SpansOfSet(raw, SemanticSet(q))
    requires forall p :: Covered(outer, p) <==> 0 <= p < q.kvLen && Covered(AlignOutward(raw, q.block), p)
    ensures SpansOfSet(outer, VisibleSet(q))
  {
    forall p ensures Covered(outer, p) <==> p in VisibleSet(q) { AlignCovers(raw, q.block, p); }
  }

  /** The block numbers the visible spans meet, sorted. */
  method CollectBlocks(visible: seq<Span>, b: int, ghost q: Query) returns (blocks: seq<int>)
    requires b == q.block > 0 && Normal(visible)
    requires SpansOfSet(visible, VisibleSet(q))
    ensures blocks == Blocks(q)
  {
    var found: set<int> := {};
    for i := 0 to |visible|
      invariant forall k :: k in found <==> exists x :: Covered(visible[..i], x) && x / b == k
    {
      var s := visible[i];
      ghost var before := found;
      var met := Range(s.lo / b, (s.hi + b - 1) / b);
      found := found + (set k | k in met);
      forall k ensures k in found <==> exists x :: Covered(visible[..i + 1], x) && x / b == k {
        SpanBlocks(s, b, k);
        MoreBlocks(visible, i, b, k);
      }
    }
    assert visible[..|visible|] == visible;
    forall k ensures k in found <==> k in BlockSet(q) { BlocksOfVisible(visible, q, k); }
    ListsSet(SortedInts(found), BlockSet(q));
    blocks := SortedInts(found);
  }

  lemma MoreBlocks(visible: seq<Span>, i: int, b: int, k: int)
    requires b > 0 && 0 <= i < |visible|
    ensures (exists x :: Covered(visible[..i + 1], x) && x / b == k)
       <==> (exists x :: Covered(visible[..i], x) && x / b == k) || (exists x :: In(visible[i], x) && x / b == k)
  {
    assert visible[..i + 1] == visible[..i] + [visible[i]];
    if exists x :: Covered(visible[..i + 1], x) && x / b == k {
      var x :| Covered(visible[..i + 1], x) && x / b == k;
      CoveredInit(visible[..i], visible[i], x);
    }
    if exists x :: Covered(visible[..i], x) && x / b == k {
      var x :| Covered(visible[..i], x) && x / b == k;
      CoveredInit(visible[..i], visible[i], x);
    }
    if exists x :: In(visible[i], x) && x / b == k {
      var x :| In(visible[i], x) && x / b == k;
      CoveredInit(visible[..i], visible[i], x);
    }
  }

  lemma BlocksOfVisible(visible: seq<Span>, q: Query, k: int)
    requires q.block > 0 && forall p :: Covered(visible, p) <==> p in VisibleSet(q)
    ensures (exists x :: Covered(visible, x) && x / q.block == k) <==> k in BlockSet(q)
  {
    if exists x :: Covered(visible, x) && x / q.block == k {
      var x :| Covered(visible, x) && x / q.block == k;
      assert x in VisibleSet(q);
    }
    if k in BlockSet(q) {
      var s :| s in SemanticSet(q) && s / q.block == k;
      assert s in VisibleSet(q);
    }
  }

  /** Every visible block must lie in the map and own a nonnegative physical block. */
  method LookUpBlocks(canonical: seq<Option<int>>, blocks: seq<int>) returns (r: Option<seq<int>>)
    requires forall i :: 0 <= i < |blocks| ==> blocks[i] >= 0
    ensures r.Some? <==> AllAllocated(canonical, blocks)
    ensures r.Some? ==> r.value == PhysicalOf(canonical, blocks)
  {
    for i := 0 to |blocks|
      invariant forall j :: 0 <= j < i ==> blocks[j] < |canonical|
    {
      if blocks[i] >= |canonical| {
        assert !Allocated(canonical, blocks[i]);
        return None;
      }
    }
    var physical: seq<int> := [];
    for i := 0 to |blocks|
      invariant |physical| == i
      invariant forall j :: 0 <= j < i ==>
        Allocated(canonical, blocks[j]) && physical[j] == canonical[blocks[j]].value
    {
      var pid := canonical[blocks[i]];
      if pid.None? || pid.value < 0 {
        assert !Allocated(canonical, blocks[i]);
        return None;
      }
      physical := physical + [pid.value];
    }
    assert physical == PhysicalOf(canonical, blocks);
    return Some(physical);
  }

  lemma BlocksNonNegative(q: Query)
    requires q.block > 0
    ensures forall i :: 0 <= i < |Blocks(q)| ==> Blocks(q)[i] >= 0
  {
    forall i | 0 <= i < |Blocks(q)| ensures Blocks(q)[i] >= 0 {
      assert Blocks(q)[i] in Blocks(q);
      BlockBounds(q, Blocks(q)[i]);
    }
  }

  /** build_read_view: the span algebra yields exactly the position-wise view, or the same refusal. */
  method BuildReadView(inp: ViewInputs) returns (r: Result<View>)
    ensures r == ViewSpec(inp)
  {
    if inp.block <= 0 || inp.kvLen < 0 || inp.mode.Unknown? { return Err(ReadViewError); }
    if inp.mode.Focus? && !RefsInRange(inp.refs, |inp.layout.segmentSpans|) { return Err(ReadViewError); }
    var raw, visible, blocks := ComputeSpans(inp);
    BlocksNonNegative(Question(inp));
    var physical := LookUpBlocks(inp.canonical, blocks);
    if inp.maxWidth < |blocks| || physical.None? { return Err(ReadViewError); }
    return Ok(Assemble(inp, raw, visible, blocks, physical.value));
  }

  // ---------------------------------------------------------------------------
  // to_kernel_args
  // ---------------------------------------------------------------------------

  datatype KernelArgs = KernelArgs(
    reqIdx: int, physical: seq<int>, validCounts: int, maxWidth: int, kvLen: int, tailLen: int)

  function ToKernelArgs(v: View, reqIdx: int, rows: int, stride: int): Result<KernelArgs> {
    if !(0 <= reqIdx < rows) || rows < 0 || stride < 0 || v.maxWidth > stride then Err(ReadViewError)
    else if |v.physical| != v.maxWidth || !(0 <= v.validCounts <= v.maxWidth) then Err(ReadViewError)
    else if exists pid :: pid in v.physical && pid < 0 && pid != INVALID_SLOT then Err(ReadViewError)
    else if exists i :: 0 <= i < v.validCounts && v.physical[i] == INVALID_SLOT then Err(ReadViewError)
    else if exists i :: v.validCounts <= i < |v.physical| && v.physical[i] != INVALID_SLOT then Err(ReadViewError)
    else Ok(KernelArgs(reqIdx, v.physical, v.validCounts, v.maxWidth, v.kvLen, v.tailLen))
  }

  /** A built view passes the adapter exactly when the row exists and the table row is wide enough. */
  lemma BuiltViewsPassAdapter(inp: ViewInputs, reqIdx: int, rows: int, stride: int)
    requires ViewSpec(inp).Ok?
    ensures ToKernelArgs(ViewSpec(inp).value, reqIdx, rows, stride).Ok?
       <==> 0 <= reqIdx < rows && inp.maxWidth <= stride
  {
    var v := ViewSpec(inp).value;
    var blocks := Blocks(Question(inp));
    var n := |blocks|;
    assert |v.physical| == v.maxWidth;
    forall i | 0 <= i < n ensures v.physical[i] >= 0 {
      assert Allocated(inp.canonical, blocks[i]);
    }
    forall i | n <= i < |v.physical| ensures v.physical[i] == INVALID_SLOT { }
  }
}
