/** A built view field by field, what the adapter and the table make of it, and the early plan checks. */
module ViewLaws {
  import opened Basics
  import opened Spans
  import opened Visibility
  import opened ReadView
  import opened GpuKv
  import opened CompressedRead
  import opened StepPlan

  // ---------------------------------------------------------------------------
  // The view
  // ---------------------------------------------------------------------------

  /** A view of this question can be built: the inputs make sense, the visible blocks fit the table, and
      each of them has a physical block. */
  ghost predicate Buildable(q: Query, canonical: seq<Option<int>>, maxWidth: int) {
    && q.block > 0 && q.kvLen >= 0 && (q.mode == Global || q.mode == Focus || q.mode == Local)
    && (q.mode == Focus ==> forall r :: r in q.refs ==> 1 <= r <= |q.layout.segmentSpans|)
    && |Blocks(q)| <= maxWidth
    && forall k :: k in Blocks(q) ==> 0 <= k < |canonical| && canonical[k].Some? && canonical[k].value >= 0
  }

  /** The spans are the maximal runs of the selected positions. */
  ghost predicate SelectedSpans(q: Query, spans: seq<Span>) {
    Normal(spans) && forall p :: Covered(spans, p) <==> Semantic(q, p)
  }

  /** The spans are the maximal runs of the positions that are read. */
  ghost predicate ReadSpans(q: Query, spans: seq<Span>)
    requires q.block > 0
  {
    Normal(spans) && forall p :: Covered(spans, p) <==> p in VisibleSet(q)
  }

  /** The spans cover what the request declared under focus, and nothing in the other modes. */
  ghost predicate DeclaredOnly(q: Query, spans: seq<Span>) {
    && (forall p :: Covered(spans, p) <==> q.mode == Focus && Declared(q, p))
    && (q.mode != Focus ==> spans == [])
  }

  ghost predicate SpansTell(q: Query, v: View)
    requires q.block > 0
  {
    && SelectedSpans(q, v.raw) && ReadSpans(q, v.visible) && DeclaredOnly(q, v.declared)
    && (forall p :: In(v.response, p) <==> q.layout.promptLen <= p < q.kvLen)
    && v.layoutSink == q.layout.sink && v.localWindow == q.layout.localWindow
  }

  /** The block table: one physical block per visible block in order, then -1 up to the full width. */
  ghost predicate TableTells(q: Query, canonical: seq<Option<int>>, v: View)
    requires q.block > 0
  {
    && v.blocks == Blocks(q) && v.validCounts == |v.blocks| <= |v.physical| == v.maxWidth
    && (forall i :: 0 <= i < |v.blocks| ==>
          0 <= v.blocks[i] < |canonical| && canonical[v.blocks[i]] == Some(v.physical[i]))
    && forall i :: |v.blocks| <= i < v.maxWidth ==> v.physical[i] == -1
  }

  /** The tail is what the last written block holds: a whole block when the length is a multiple, nothing
      before the first write, and the count of the last visible block when the current token is visible. */
  ghost predicate TailTells(q: Query, v: View)
    requires q.block > 0
  {
    && (q.kvLen == 0 ==> v.tailLen == 0)
    && (q.kvLen > 0 ==> 1 <= v.tailLen <= q.block && (q.kvLen - v.tailLen) % q.block == 0)
    && (q.kvLen > 0 && q.kvLen - 1 in VisibleSet(q) ==>
          Blocks(q) != [] && v.tailLen == BlockCount(q, Blocks(q)[|Blocks(q)| - 1]))
  }

  /** build_read_view: when it succeeds, and every field of the result. */
  method ViewFields(inp: ViewInputs) returns (r: Result<View>)
    ensures r.Err? ==> r.error == ReadViewError
    ensures var q := Query(inp.mode, inp.refs, inp.layout, inp.kvLen, inp.block);
      r.Ok? <==> Buildable(q, inp.canonical, inp.maxWidth)
    ensures var q := Query(inp.mode, inp.refs, inp.layout, inp.kvLen, inp.block);
      r.Ok? ==> SpansTell(q, r.value) && TableTells(q, inp.canonical, r.value) && TailTells(q, r.value)
    ensures r.Ok? ==>
      var v := r.value;
      && v.mode == inp.mode && v.refs == inp.refs && v.effectStep == inp.effectStep && v.maxWidth == inp.maxWidth
      && v.kvLen == v.nextWrite == inp.kvLen && v.block == inp.block
  {
    r := BuildReadView(inp);
    BuildableExact(inp);
    if r.Ok? {
      SpansOfView(inp);
      TableOfView(inp);
      TailOfView(inp);
    }
  }

  lemma BuildableExact(inp: ViewInputs)
    ensures ViewSpec(inp).Ok? <==> Buildable(Question(inp), inp.canonical, inp.maxWidth)
    ensures ViewSpec(inp).Err? ==> ViewSpec(inp).error == ReadViewError
  {
    hide Blocks, AllAllocated, Assemble, PhysicalOf;
    if inp.block > 0 {
      BlocksNonNegative(Question(inp));
      AllocatedSpelled(inp.canonical, Blocks(Question(inp)));
    }
  }

  lemma AllocatedSpelled(canonical: seq<Option<int>>, blocks: seq<int>)
    ensures AllAllocated(canonical, blocks)
       <==> forall k :: k in blocks ==> 0 <= k < |canonical| && canonical[k].Some? && canonical[k].value >= 0
  {
    forall i | 0 <= i < |blocks| ensures blocks[i] in blocks { }
  }

  /** The span fields of a built view. */
  lemma BuiltSpans(inp: ViewInputs)
    requires ViewSpec(inp).Ok?
    ensures var q, v := Question(inp), ViewSpec(inp).value;
      && WellFormed(inp)
      && v.raw == RunsOf(SortedInts(SemanticSet(q))) && v.visible == RunsOf(Positions(q))
      && v.declared == DeclaredSpans(inp) && v.response == Span(q.layout.promptLen, q.kvLen)
      && v.layoutSink == q.layout.sink && v.localWindow == q.layout.localWindow
      && v.tailLen == TailBlockLen(q.kvLen, q.block)
  {
  }

  lemma SpansOfView(inp: ViewInputs)
    requires ViewSpec(inp).Ok?
    ensures SpansTell(Question(inp), ViewSpec(inp).value)
  {
    BuiltSpans(inp);
    hide ViewSpec, SelectedSpans, ReadSpans, DeclaredOnly, SemanticSet, VisibleSet, RunsOf, SortedInts, DeclaredSpans;
    SelectedRuns(Question(inp));
    ReadRuns(Question(inp));
    DeclaredList(inp);
  }

  lemma SelectedRuns(q: Query)
    ensures SelectedSpans(q, RunsOf(SortedInts(SemanticSet(q))))
  {
    RunsList(SemanticSet(q));
    hide Normal, RunsOf, Covered;
  }

  lemma ReadRuns(q: Query)
    requires q.block > 0
    ensures ReadSpans(q, RunsOf(Positions(q)))
  {
    RunsList(VisibleSet(q));
    hide Normal, RunsOf, Covered, VisibleSet;
  }

  lemma DeclaredList(inp: ViewInputs)
    requires WellFormed(inp)
    ensures DeclaredOnly(Question(inp), DeclaredSpans(inp))
  {
    var d, q := DeclaredSpans(inp), Question(inp);
    forall p ensures Covered(d, p) <==> q.mode == Focus && Declared(q, p) { DeclaredCovers(inp, p); }
  }

  lemma DeclaredCovers(inp: ViewInputs, p: int)
    requires WellFormed(inp)
    ensures Covered(DeclaredSpans(inp), p) <==> inp.mode == Focus && Declared(Question(inp), p)
  {
    var d, q := DeclaredSpans(inp), Question(inp);
    if Covered(d, p) {
      var s :| s in d && In(s, p);
      var i :| 0 <= i < |d| && d[i] == s;
      assert inp.refs[i] in q.refs;
    }
    if inp.mode == Focus && Declared(q, p) {
      var r :| r in q.refs && 1 <= r <= |q.layout.segmentSpans| && In(q.layout.segmentSpans[r - 1], p);
      var i :| 0 <= i < |q.refs| && q.refs[i] == r;
      assert d[i] in d && In(d[i], p);
    }
  }

  lemma TableOfView(inp: ViewInputs)
    requires ViewSpec(inp).Ok?
    ensures TableTells(Question(inp), inp.canonical, ViewSpec(inp).value)
  {
    var q, v := Question(inp), ViewSpec(inp).value;
    forall i | 0 <= i < |v.blocks|
      ensures 0 <= v.blocks[i] < |inp.canonical| && inp.canonical[v.blocks[i]] == Some(v.physical[i])
    {
      assert Allocated(inp.canonical, v.blocks[i]);
    }
  }

  lemma TailOfView(inp: ViewInputs)
    requires ViewSpec(inp).Ok?
    ensures TailTells(Question(inp), ViewSpec(inp).value)
  {
    BuiltSpans(inp);
    hide ViewSpec;
    TailFollows(Question(inp), ViewSpec(inp).value);
  }

  lemma TailFollows(q: Query, v: View)
    requires q.block > 0 && q.kvLen >= 0 && v.tailLen == TailBlockLen(q.kvLen, q.block)
    ensures TailTells(q, v)
  {
    if q.kvLen > 0 {
      TailRemainder(q.kvLen, q.block);
      TailIsLastCount(q);
    }
    hide TailBlockLen, BlockCount, Blocks, VisibleSet;
  }

  lemma TailIsLastCount(q: Query)
    requires q.block > 0 && q.kvLen > 0
    ensures q.kvLen - 1 in VisibleSet(q) ==>
      Blocks(q) != [] && TailBlockLen(q.kvLen, q.block) == BlockCount(q, Blocks(q)[|Blocks(q)| - 1])
  {
    VisibleBlock(q, q.kvLen - 1);
    hide TailBlockLen, BlockCount, Blocks, VisibleSet, BlockSet;
    if q.kvLen - 1 in VisibleSet(q) { LastBlockIsCurrent(q); }
  }

  lemma TailRemainder(n: int, b: int)
    requires n > 0 && b > 0
    ensures 1 <= TailBlockLen(n, b) <= b && (n - TailBlockLen(n, b)) % b == 0
  {
    DivBounds(n - 1, b);
    var k := (n - 1) / b;
    assert n - TailBlockLen(n, b) == k * b + 0;
    DivUnique(k * b, b, k);
  }

  // ---------------------------------------------------------------------------
  // The adapter and the padded row
  // ---------------------------------------------------------------------------

  /** to_kernel_args, for any view whatever: accepted exactly when the row exists, the table row is wide
      enough and full width, and its valid columns, and no others, name blocks; the row number, table,
      counts, width, length and tail are handed on unchanged. */
  lemma AdapterExact(v: View, reqIdx: int, rows: int, stride: int)
    ensures ToKernelArgs(v, reqIdx, rows, stride).Ok? <==>
      && 0 <= reqIdx < rows && v.maxWidth <= stride && |v.physical| == v.maxWidth
      && 0 <= v.validCounts <= v.maxWidth
      && (forall i :: 0 <= i < v.validCounts ==> v.physical[i] >= 0)
      && forall i :: v.validCounts <= i < v.maxWidth ==> v.physical[i] == -1
    ensures ToKernelArgs(v, reqIdx, rows, stride).Ok? ==>
      var a := ToKernelArgs(v, reqIdx, rows, stride).value;
      && a.reqIdx == reqIdx && a.physical == v.physical && a.validCounts == v.validCounts
      && a.maxWidth == v.maxWidth && a.kvLen == v.kvLen && a.tailLen == v.tailLen
    ensures ToKernelArgs(v, reqIdx, rows, stride).Err? ==>
      ToKernelArgs(v, reqIdx, rows, stride).error == ReadViewError
  {
    var n, m := v.validCounts, v.maxWidth;
    if ToKernelArgs(v, reqIdx, rows, stride).Ok? {
      forall i | 0 <= i < n ensures v.physical[i] >= 0 { assert v.physical[i] in v.physical; }
    } else if |v.physical| == m && 0 <= n <= m {
      if pid :| pid in v.physical && pid < 0 && pid != -1 {
        var i :| 0 <= i < m && v.physical[i] == pid;
      }
    }
  }

  /** A padded row fits exactly when the width holds the table: its columns come first, and every column
      behind them repeats the last, so nothing is -1. */
  lemma PaddedRowExact(t: ReadTable, width: int)
    requires t.physical != []
    ensures PaddedRow(t, width).Ok? <==> |t.physical| <= width
    ensures PaddedRow(t, width).Err? ==> PaddedRow(t, width).error == GpuKvError
    ensures PaddedRow(t, width).Ok? ==>
      var row := PaddedRow(t, width).value;
      && |row| == width && row[..|t.physical|] == t.physical
      && (forall i :: |t.physical| <= i < width ==> row[i] == t.physical[|t.physical| - 1])
      && ((forall i :: 0 <= i < |t.physical| ==> t.physical[i] >= 0) ==> forall i :: 0 <= i < width ==> row[i] >= 0)
  {
    if |t.physical| <= width {
      var row := PaddedRow(t, width).value;
      assert row[..|t.physical|] == t.physical;
    }
  }

  // ---------------------------------------------------------------------------
  // Tables made from any view
  // ---------------------------------------------------------------------------

  /** Disjoint spans cover a window at most once. */
  lemma {:induction false} AtMostOnce(spans: seq<Span>, lo: int, hi: int)
    requires Normal(spans)
    ensures CoveredIn(spans, lo, hi) <= Max(0, hi - lo)
    ensures spans != [] && lo < hi ==> CoveredIn(spans, lo, hi) <= Max(0, spans[|spans| - 1].hi - lo)
  {
    if spans != [] {
      var n := |spans| - 1;
      AtMostOnce(spans[..n], lo, hi);
      AtMostOnce(spans[..n], lo, Min(hi, spans[n].lo));
      CutWindow(spans[..n], lo, hi, spans[n].lo);
    }
  }

  /** What lies before the spans' end is all there is to cover. */
  lemma {:induction false} CutWindow(spans: seq<Span>, lo: int, hi: int, bound: int)
    requires forall i :: 0 <= i < |spans| ==> spans[i].hi <= bound
    ensures CoveredIn(spans, lo, hi) == CoveredIn(spans, lo, Min(hi, bound))
  {
    if spans != [] { CutWindow(spans[..|spans| - 1], lo, hi, bound); }
  }

  /** Every column names the map's block, and every index below the total lands in a written position
      of a block of the table, the last of which is the one being written. */
  ghost predicate TableSafe(v: View, mapping: seq<int>, t: ReadTable) {
    && v.block > 0 && t.block == v.block && t.kvLen == v.kvLen > 0
    && t.blocks == v.blocks != [] && |t.physical| == |t.blocks|
    && t.blocks[|t.blocks| - 1] == (t.kvLen - 1) / t.block
    && (forall i :: 0 <= i < |t.blocks| ==>
          0 <= t.blocks[i] < |mapping| && t.physical[i] == mapping[t.blocks[i]] >= 0)
    && forall j :: 0 <= j < t.seqused ==>
         j / t.block < |t.blocks| && t.blocks[j / t.block] * t.block + j % t.block < t.kvLen
  }

  /** Whatever view the conversion is given, as long as its visible spans are runs of positions from 0 on:
      a table it accepts never leads a reader to a position that is not written. */
  method TableFromAnyView(v: View, mapping: seq<int>) returns (r: Result<ReadTable>)
    requires Normal(v.visible) && forall i :: 0 <= i < |v.visible| ==> v.visible[i].lo >= 0
    ensures r.Ok? ==> TableSafe(v, mapping, r.value)
  {
    r := ReadTableFromReadView(v, mapping);
    if r.Ok? { AcceptedSafe(v, mapping); }
  }

  lemma AcceptedSafe(v: View, mapping: seq<int>)
    requires Normal(v.visible) && forall i :: 0 <= i < |v.visible| ==> v.visible[i].lo >= 0
    requires ReadTableSpec(v, mapping).Ok?
    ensures TableSafe(v, mapping, ReadTableSpec(v, mapping).value)
  {
    AcceptedFields(v, mapping);
    hide *;
    AcceptedColumns(v, mapping);
    AcceptedBlocks(v, mapping);
    AcceptedTotal(v, mapping);
    SafeTable(v, mapping, ReadTableSpec(v, mapping).value);
  }

  lemma AcceptedFields(v: View, mapping: seq<int>)
    requires ReadTableSpec(v, mapping).Ok?
    ensures var t := ReadTableSpec(v, mapping).value;
      && Convertible(v, mapping) && t.block == v.block > 0 && t.kvLen == v.kvLen > 0 && t.blocks == v.blocks != []
      && t.physical == Prefix(v.physical, v.validCounts) && |CountsOf(v)| == |v.blocks| && t.seqused == Sum(CountsOf(v))
  {
    hide ValidMapping, BlockRowsAgree, Prefix, CountOf, Sum, CeilDiv;
  }

  lemma SafeTable(v: View, mapping: seq<int>, t: ReadTable)
    requires t.block == v.block > 0 && t.kvLen == v.kvLen > 0 && t.blocks == v.blocks != [] && AscendingInts(t.blocks)
    requires |t.physical| == |t.blocks| && t.blocks[|t.blocks| - 1] == (t.kvLen - 1) / t.block
    requires forall i :: 0 <= i < |t.blocks| ==> t.blocks[i] >= 0
    requires forall i :: 0 <= i < |t.physical| && t.blocks[i] >= 0 ==>
      t.blocks[i] < |mapping| && t.physical[i] == mapping[t.blocks[i]] >= 0
    requires var last := t.seqused - |t.blocks| * t.block + t.block;
      last <= t.block && last <= t.kvLen - t.blocks[|t.blocks| - 1] * t.block
    ensures TableSafe(v, mapping, t)
  {
    var last := t.seqused - |t.blocks| * t.block + t.block;
    forall j | 0 <= j < t.seqused
      ensures j / t.block < |t.blocks| && t.blocks[j / t.block] * t.block + j % t.block < t.kvLen
    {
      IndexWritten(t.blocks, t.block, t.kvLen, last, j);
    }
  }

  lemma AcceptedColumns(v: View, mapping: seq<int>)
    requires Convertible(v, mapping)
    ensures var prefix := Prefix(v.physical, v.validCounts);
      && |prefix| == |v.blocks| && AscendingInts(v.blocks)
      && forall i :: 0 <= i < |prefix| && v.blocks[i] >= 0 ==>
           v.blocks[i] < |mapping| && prefix[i] == mapping[v.blocks[i]] >= 0
  {
    var prefix := Prefix(v.physical, v.validCounts);
    hide Prefix, CountsOf;
    forall i | 0 <= i < |prefix| && v.blocks[i] >= 0
      ensures v.blocks[i] < |mapping| && prefix[i] == mapping[v.blocks[i]] >= 0
    {
      assert RowAgrees(v, mapping, i, prefix[i]);
    }
  }

  /** No block is negative, and the last one is the one being written. */
  lemma AcceptedBlocks(v: View, mapping: seq<int>)
    requires forall i :: 0 <= i < |v.visible| ==> v.visible[i].lo >= 0
    requires Convertible(v, mapping)
    ensures forall i :: 0 <= i < |v.blocks| ==> v.blocks[i] >= 0
    ensures v.blocks[|v.blocks| - 1] == (v.kvLen - 1) / v.block
  {
    var n, cur := |v.blocks|, (v.kvLen - 1) / v.block;
    AtLeastMultiple(0, v.kvLen - 1, v.block);
    var c :| 0 <= c < n && v.blocks[c] == cur;
    AtLeastMultiple(v.blocks[n - 1], v.kvLen - 1, v.block);
    assert RowAgrees(v, mapping, n - 1, Prefix(v.physical, v.validCounts)[n - 1]);
    if v.blocks[0] < 0 {
      assert CountsOf(v)[0] == v.block;
      MulStep(v.blocks[0], 0, v.block);
      NothingBelow(v.visible, v.blocks[0] * v.block, Min(v.blocks[0] * v.block + v.block, v.kvLen));
    }
  }

  lemma {:induction false} NothingBelow(spans: seq<Span>, lo: int, hi: int)
    requires hi <= 0 && forall i :: 0 <= i < |spans| ==> spans[i].lo >= 0
    ensures CoveredIn(spans, lo, hi) == 0
  {
    if spans != [] { NothingBelow(spans[..|spans| - 1], lo, hi); }
  }

  lemma AcceptedTotal(v: View, mapping: seq<int>)
    requires Normal(v.visible) && Convertible(v, mapping)
    ensures var n, last := |v.blocks|, CountsOf(v)[|v.blocks| - 1];
      Sum(CountsOf(v)) == n * v.block - v.block + last && last <= v.kvLen - v.blocks[n - 1] * v.block
    ensures CountsOf(v)[|v.blocks| - 1] <= v.block
  {
    var n := |v.blocks|;
    SumInit(CountsOf(v), v.block);
    var lo := v.blocks[n - 1] * v.block;
    assert RowAgrees(v, mapping, n - 1, Prefix(v.physical, v.validCounts)[n - 1]);
    AtMostOnce(v.visible, lo, Min(lo + v.block, v.kvLen));
  }

  /** Indices below the total of a table whose inner blocks are full stay inside what is written. */
  lemma IndexWritten(blocks: seq<int>, b: int, kvLen: int, last: int, j: int)
    requires b > 0 && kvLen > 0 && blocks != [] && AscendingInts(blocks)
    requires blocks[|blocks| - 1] == (kvLen - 1) / b
    requires last <= b && last <= kvLen - blocks[|blocks| - 1] * b && 0 <= j < |blocks| * b - b + last
    ensures 0 <= j / b < |blocks| && blocks[j / b] * b + j % b < kvLen
  {
    var n, i := |blocks|, j / b;
    DivBounds(j, b);
    AtLeastMultiple(0, j, b);
    AtLeastMultiple(n, j, b);
    if i == n - 1 {
      assert (n - 1) * b == n * b - b;
    } else {
      assert blocks[i] < blocks[n - 1];
      MulStep(blocks[i], blocks[n - 1], b);
      AtLeastMultiple(blocks[n - 1], kvLen - 1, b);
    }
  }

  /** A position has a slot exactly when the map is nonempty, nonnegative, free of repeats and reaches it. */
  lemma SlotExact(p: int, b: int, mapping: seq<int>)
    requires b > 0
    ensures CanonicalSlot(p, b, mapping).Ok? <==>
      && mapping != [] && (forall i :: 0 <= i < |mapping| ==> mapping[i] >= 0)
      && (forall i, j :: 0 <= i < |mapping| && 0 <= j < |mapping| && mapping[i] == mapping[j] ==> i == j)
      && 0 <= p < |mapping| * b
    ensures CanonicalSlot(p, b, mapping).Ok? ==>
      var slot := CanonicalSlot(p, b, mapping).value;
      0 <= p / b < |mapping| && slot / b == mapping[p / b] && slot % b == p % b
    ensures CanonicalSlot(p, b, mapping).Err? ==> CanonicalSlot(p, b, mapping).error == GpuKvError
  {
    DivBounds(p, b);
    AtLeastMultiple(|mapping|, p, b);
    AtLeastMultiple(0, p, b);
    if CanonicalSlot(p, b, mapping).Ok? { DivUnique(mapping[p / b] * b + p % b, b, mapping[p / b]); }
  }

  // ---------------------------------------------------------------------------
  // The checks before a plan
  // ---------------------------------------------------------------------------

  /** A plan is worth trying: a usable geometry, a known mode, a step that is not negative, a written
      position, a map with every block assigned once, and a window when the mode is local. */
  predicate Sensible(inp: PlanInputs) {
    var g := inp.geometry;
    && g.block > 0 && 0 <= g.faGroup < g.kvGroups && g.blocksPerKvBlock == 1 && g.maxModelLen > 0
    && (inp.mode == Global || inp.mode == Focus || inp.mode == Local)
    && inp.effectStep >= 0 && inp.kvLen > 0
    && inp.canonical != [] && (forall i :: 0 <= i < |inp.canonical| ==> inp.canonical[i].Some?)
    && (forall i :: 0 <= i < |inp.canonical| ==> inp.canonical[i].value >= 0)
    && (forall i, j :: 0 <= i < j < |inp.canonical| ==> inp.canonical[i] != inp.canonical[j])
    && (inp.mode == Local ==> !(inp.layout.localWindow.lo == 0 && inp.layout.localWindow.hi == 0))
  }

  /** The early checks refuse exactly what is not sensible; only several blocks per KV block in an
      otherwise usable layout are called unsupported, everything else a configuration error. */
  lemma EarlyExact(inp: PlanInputs)
    ensures EarlyRefusal(inp).None? <==> Sensible(inp)
    ensures EarlyRefusal(inp).Some? ==>
      var g := inp.geometry;
      EarlyRefusal(inp).value ==
        if g.block > 0 && 0 <= g.faGroup < g.kvGroups && g.blocksPerKvBlock > 1 then UnsupportedConfig
        else AttnViewConfigError
  {
    var c := inp.canonical;
    if AllAssigned(c) {
      var m := Unwrapped(c);
      forall i | 0 <= i < |c| ensures c[i] == Some(m[i]) && c[i].value == m[i] { }
      if forall i, j :: 0 <= i < j < |c| ==> c[i] != c[j] {
        forall i, j | 0 <= i < j < |m| ensures m[i] != m[j] { assert c[i] != c[j]; }
      }
      if ValidMapping(m) {
        forall i, j | 0 <= i < j < |c| ensures c[i] != c[j] { assert m[i] != m[j]; }
      }
    }
  }

  /** The plan says what the request asked, block by block. */
  ghost predicate PlanTells(inp: PlanInputs, q: Query, plan: Plan)
    requires q.block > 0
  {
    && plan.reqId == inp.reqId && plan.mode == inp.mode && plan.refs == inp.refs && plan.effectStep == inp.effectStep
    && plan.block == q.block && plan.kvLen == plan.nextWrite == q.kvLen && plan.writtenBefore == q.kvLen - 1
    && (plan.width - 1) * q.block < inp.geometry.maxModelLen <= plan.width * q.block
    && plan.blocks == Blocks(q) != [] && |plan.perBlock| == |plan.blocks|
    && (forall i :: 0 <= i < |plan.blocks| ==>
          plan.perBlock[i] == if (plan.blocks[i] + 1) * q.block <= q.kvLen then q.block else q.kvLen % q.block)
    && plan.seqused == |VisibleSet(q)| && plan.tailLen == plan.perBlock[|plan.perBlock| - 1]
  }

  lemma CeilAtLeast(n: int, m: int, b: int)
    requires b > 0
    ensures n <= CeilDiv(m, b) <==> (n - 1) * b < m
    ensures (CeilDiv(m, b) - 1) * b < m <= CeilDiv(m, b) * b
  {
    CeilIsLastPlusOne(m, b);
    AtLeastMultiple(n - 1, m - 1, b);
    AtLeastMultiple(CeilDiv(m, b) - 1, m - 1, b);
    AtLeastMultiple(CeilDiv(m, b), m - 1, b);
  }

  lemma CountSpelled(q: Query, k: int)
    requires q.block > 0 && k in BlockSet(q)
    ensures BlockCount(q, k) == if (k + 1) * q.block <= q.kvLen then q.block else q.kvLen % q.block
  {
    BlockBounds(q, k);
    assert (k + 1) * q.block == k * q.block + q.block;
    if (k + 1) * q.block > q.kvLen { DivUnique(q.kvLen, q.block, k); }
  }

  lemma ExactPlanTells(inp: PlanInputs)
    requires inp.geometry.block > 0 && CurrentVisible(PlanQuestion(inp))
    ensures PlanTells(inp, PlanQuestion(inp), ExactPlan(inp))
  {
    var q := PlanQuestion(inp);
    PlanArithmetic(inp);
    PositionCount(q);
    CeilAtLeast(0, inp.geometry.maxModelLen, q.block);
    CountsSpelled(q);
    hide Blocks, Positions, VisibleSet, Total, Counts, Sum, CeilDiv, TailBlockLen;
  }

  lemma CountsSpelled(q: Query)
    requires q.block > 0
    ensures |Counts(q)| == |Blocks(q)|
    ensures forall i :: 0 <= i < |Blocks(q)| ==>
      Counts(q)[i] == if (Blocks(q)[i] + 1) * q.block <= q.kvLen then q.block else q.kvLen % q.block
  {
    hide Blocks, BlockSet, BlockCount;
    forall i | 0 <= i < |Blocks(q)|
      ensures Counts(q)[i] == if (Blocks(q)[i] + 1) * q.block <= q.kvLen then q.block else q.kvLen % q.block
    {
      BlockListed(q, i);
      CountSpelled(q, Blocks(q)[i]);
    }
  }

  lemma PositionCount(q: Query)
    requires q.block > 0
    ensures |Positions(q)| == |VisibleSet(q)|
  {
  }

  /** A sensible request whose references are in range, whose current block holds a selected position and
      is mapped, and whose visible blocks fit the model length. */
  ghost predicate Possible(inp: PlanInputs) {
    && Sensible(inp)
    && var q := Query(inp.mode, inp.refs, inp.layout, inp.kvLen, inp.geometry.block);
       var cur := (inp.kvLen - 1) / inp.geometry.block;
    && (inp.mode == Focus ==> forall r :: r in inp.refs ==> 1 <= r <= |inp.layout.segmentSpans|)
    && (exists p :: cur * q.block <= p < inp.kvLen && Semantic(q, p))
    && cur < |inp.canonical|
    && (|Blocks(q)| - 1) * q.block < inp.geometry.maxModelLen
  }

  lemma PlannablePossible(inp: PlanInputs)
    ensures PlannableRequest(inp) <==> Possible(inp)
  {
    EarlyExact(inp);
    if Sensible(inp) { WidthSpelled(inp); }
    hide EarlyRefusal, Sensible, Semantic, SemanticSet, Blocks;
  }

  lemma WidthSpelled(inp: PlanInputs)
    requires inp.geometry.block > 0
    ensures |set p | p in SemanticSet(PlanQuestion(inp)) :: p / inp.geometry.block| == |Blocks(PlanQuestion(inp))|
    ensures |Blocks(PlanQuestion(inp))| <= inp.geometry.MaxWidth()
       <==> (|Blocks(PlanQuestion(inp))| - 1) * inp.geometry.block < inp.geometry.maxModelLen
  {
    var q := PlanQuestion(inp);
    assert (set p | p in SemanticSet(q) :: p / q.block) == BlockSet(q);
    CeilAtLeast(|Blocks(q)|, inp.geometry.maxModelLen, q.block);
  }

  /** build_step_plan succeeds exactly on possible requests, and its plan tells the truth. */
  method PlanExists(inp: PlanInputs) returns (r: Result<Plan>)
    ensures r.Ok? <==> Possible(inp)
    ensures r.Ok? ==>
      inp.geometry.block > 0 &&
      PlanTells(inp, Query(inp.mode, inp.refs, inp.layout, inp.kvLen, inp.geometry.block), r.value)
  {
    r := BuildStepPlan(inp);
    PlanExact(inp);
    if r.Ok? {
      PlannableExact(inp);
      ExactPlanTells(inp);
    }
    hide PlanSpec, PlanTells, ExactPlan, PlannableRequest, Possible;
    PlannablePossible(inp);
  }
}
