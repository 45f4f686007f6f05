/** The compressed table read by prefix semantics reaches exactly the visible positions. */
module CompressedRead {
  import opened Basics
  import opened Spans
  import opened Visibility
  import opened ReadView
  import opened GpuKv

  /** The map without its Option wrapper agrees with the canonical list. */
  predicate MapsAll(canonical: seq<Option<int>>, mapping: seq<int>) {
    && |canonical| == |mapping| && ValidMapping(mapping)
    && forall i :: 0 <= i < |mapping| ==> canonical[i] == Some(mapping[i])
  }

  ghost predicate CurrentVisible(q: Query)
    requires q.block > 0
  {
    q.kvLen > 0 && (q.kvLen - 1) / q.block in BlockSet(q)
  }

  /** The fields of a built view the conversion looks at, in terms of the question. */
  ghost predicate ViewOf(v: View, q: Query) {
    && v.block == q.block > 0 && v.kvLen == q.kvLen
    && v.blocks == Blocks(q) && v.visible == RunsOf(Positions(q))
    && v.validCounts == |v.blocks| <= |v.physical|
  }

  lemma BuiltIsViewOf(inp: ViewInputs)
    requires ViewSpec(inp).Ok?
    ensures ViewOf(ViewSpec(inp).value, Question(inp))
    ensures AllAllocated(inp.canonical, Blocks(Question(inp)))
    ensures var v := ViewSpec(inp).value;
      v.physical[..v.validCounts] == PhysicalOf(inp.canonical, Blocks(Question(inp)))
  {
  }

  lemma CountIsBlockCount(q: Query, spans: seq<Span>, k: int)
    requires q.block > 0 && k in BlockSet(q) && spans == RunsOf(Positions(q))
    ensures CountIn(spans, k, q.block, q.kvLen) == BlockCount(q, k)
  {
    hide *;
    InWindow(q, spans, k, k * q.block);
    CountByWindow(q, spans, k);
  }

  lemma CountByWindow(q: Query, spans: seq<Span>, k: int)
    ensures CountIn(spans, k, q.block, q.kvLen)
         == CoveredIn(spans, k * q.block, Min(k * q.block + q.block, q.kvLen))
    ensures BlockCount(q, k) == if q.kvLen - k * q.block < q.block then q.kvLen - k * q.block else q.block
  {
  }

  lemma InWindow(q: Query, spans: seq<Span>, k: int, lo: int)
    requires q.block > 0 && k in BlockSet(q) && spans == RunsOf(Positions(q)) && lo == k * q.block
    ensures CoveredIn(spans, lo, Min(lo + q.block, q.kvLen)) == if q.kvLen - lo < q.block then q.kvLen - lo else q.block
  {
    BlockBounds(q, k);
    RunsNormal(Positions(q));
    BlockWindowCovered(q, k, lo);
    hide RunsOf, Positions, BlockSet, Covered, CoveredIn, BlockCount, Min;
    WindowCount(spans, lo, q.block, q.kvLen);
  }

  lemma BlockWindowCovered(q: Query, k: int, lo: int)
    requires q.block > 0 && k in BlockSet(q) && lo == k * q.block
    ensures forall p :: lo <= p < lo + q.block && p < q.kvLen ==> Covered(RunsOf(Positions(q)), p)
  {
    forall p | lo <= p < lo + q.block && p < q.kvLen ensures Covered(RunsOf(Positions(q)), p) {
      BlockCovered(q, k, p);
    }
  }

  lemma WindowCount(spans: seq<Span>, lo: int, b: int, kvLen: int)
    requires Normal(spans) && b > 0 && lo < kvLen
    requires forall p :: lo <= p < lo + b && p < kvLen ==> Covered(spans, p)
    ensures CoveredIn(spans, lo, Min(lo + b, kvLen)) == if kvLen - lo < b then kvLen - lo else b
  {
    FullWindow(spans, lo, Min(lo + b, kvLen));
  }

  lemma BlockCovered(q: Query, k: int, p: int)
    requires q.block > 0 && k in BlockSet(q) && k * q.block <= p < k * q.block + q.block && p < q.kvLen
    ensures Covered(RunsOf(Positions(q)), p)
  {
    BlockBounds(q, k);
    MulSign(k, q.block);
    DivUnique(p, q.block, k);
    VisibleBlock(q, p);
    RunsCover(Positions(q), p);
  }

  lemma CountsOfView(v: View, q: Query)
    requires ViewOf(v, q)
    ensures CountsOf(v) == Counts(q)
  {
    forall i | 0 <= i < |v.blocks| ensures CountOf(v, v.blocks[i]) == BlockCount(q, v.blocks[i]) {
      assert v.blocks[i] in Blocks(q);
      CountOfBlock(v, q, v.blocks[i]);
    }
  }

  lemma CountOfBlock(v: View, q: Query, k: int)
    requires ViewOf(v, q) && k in BlockSet(q)
    ensures CountOf(v, k) == BlockCount(q, k)
  {
    CountIsBlockCount(q, v.visible, k);
  }

  lemma RowsOfView(v: View, q: Query, canonical: seq<Option<int>>, mapping: seq<int>)
    requires ViewOf(v, q) && MapsAll(canonical, mapping) && AllAllocated(canonical, v.blocks)
    requires v.physical[..v.validCounts] == PhysicalOf(canonical, v.blocks)
    ensures BlockRowsAgree(v, mapping)
    ensures Prefix(v.physical, v.validCounts) == PhysicalOf(canonical, v.blocks)
  {
    var prefix := PhysicalOf(canonical, v.blocks);
    assert Prefix(v.physical, v.validCounts) == prefix;
    forall i | 0 <= i < |v.blocks| ensures RowAgrees(v, mapping, i, prefix[i]) {
      assert v.blocks[i] in Blocks(q) && Allocated(canonical, v.blocks[i]);
      BlockBounds(q, v.blocks[i]);
    }
    forall i, j | 0 <= i < j < |prefix| ensures prefix[i] != prefix[j] {
      assert Allocated(canonical, v.blocks[i]) && Allocated(canonical, v.blocks[j]);
      assert v.blocks[i] < v.blocks[j];
    }
  }

  /** The largest visible block is the one being written, so its count is the tail length. */
  lemma LastBlockIsCurrent(q: Query)
    requires q.block > 0 && CurrentVisible(q)
    ensures Blocks(q) != [] && Blocks(q)[|Blocks(q)| - 1] == (q.kvLen - 1) / q.block
    ensures BlockCount(q, (q.kvLen - 1) / q.block) == TailBlockLen(q.kvLen, q.block)
  {
    var bl, cur := Blocks(q), (q.kvLen - 1) / q.block;
    assert cur in bl;
    var last := bl[|bl| - 1];
    assert last in bl;
    BlockBounds(q, last);
    AtLeastMultiple(last, q.kvLen - 1, q.block);
    DivBounds(q.kvLen - 1, q.block);
  }

  lemma ConvertibleIff(v: View, q: Query, mapping: seq<int>)
    requires v.block == q.block > 0 && v.kvLen == q.kvLen && v.blocks == Blocks(q)
    requires CountsOf(v) == Counts(q) && BlockRowsAgree(v, mapping) && ValidMapping(mapping)
    ensures Convertible(v, mapping) <==> CurrentVisible(q)
  {
    CountsTotal(q);
    TotalColumns(q);
    if CurrentVisible(q) {
      LastBlockIsCurrent(q);
      InnerCounts(q);
      BlockBounds(q, (q.kvLen - 1) / q.block);
    }
  }

  /** The table a built view should convert to. */
  ghost function ExactTable(q: Query, canonical: seq<Option<int>>): ReadTable
    requires q.block > 0 && AllAllocated(canonical, Blocks(q))
  {
    ReadTable(PhysicalOf(canonical, Blocks(q)), Blocks(q), Counts(q), Total(q),
              TailBlockLen(q.kvLen, q.block), q.kvLen, q.kvLen, q.block)
  }

  /** A built view converts exactly when the current token's block is visible, and the table then
      holds the position-wise blocks, counts, total and tail. */
  lemma BuiltTable(inp: ViewInputs, mapping: seq<int>)
    requires ViewSpec(inp).Ok? && MapsAll(inp.canonical, mapping)
    ensures AllAllocated(inp.canonical, Blocks(Question(inp)))
    ensures ReadTableSpec(ViewSpec(inp).value, mapping) ==
            if CurrentVisible(Question(inp)) then Ok(ExactTable(Question(inp), inp.canonical)) else Err(GpuKvError)
  {
    var q, v := Question(inp), ViewSpec(inp).value;
    BuiltIsViewOf(inp);
    ConvertView(v, q, inp.canonical, mapping);
  }

  lemma ConvertView(v: View, q: Query, canonical: seq<Option<int>>, mapping: seq<int>)
    requires ViewOf(v, q) && MapsAll(canonical, mapping) && AllAllocated(canonical, v.blocks)
    requires v.physical[..v.validCounts] == PhysicalOf(canonical, v.blocks) && v.nextWrite == q.kvLen
    ensures ReadTableSpec(v, mapping) ==
            if CurrentVisible(q) then Ok(ExactTable(q, canonical)) else Err(GpuKvError)
  {
    RowsOfView(v, q, canonical, mapping);
    CountsOfView(v, q);
    ConvertibleIff(v, q, mapping);
    CountsTotal(q);
    if CurrentVisible(q) { LastBlockIsCurrent(q); }
  }

  lemma VisibleListed(q: Query, j: int)
    requires q.block > 0 && 0 <= j < |Positions(q)|
    ensures Positions(q)[j] in VisibleSet(q)
  {
    assert Positions(q)[j] in Positions(q);
  }

  lemma SlotOfReadIndex(q: Query, mapping: seq<int>, j: int)
    requires q.block > 0 && ValidMapping(mapping) && 0 <= j < Total(q)
    requires 0 <= j / q.block < |Blocks(q)| ==> Blocks(q)[j / q.block] < |mapping|
    ensures j < |Positions(q)| && 0 <= Positions(q)[j] < q.kvLen
    ensures 0 <= j / q.block < |Blocks(q)| && 0 <= Blocks(q)[j / q.block] < |mapping|
    ensures CanonicalSlot(Positions(q)[j], q.block, mapping)
         == Ok(mapping[Blocks(q)[j / q.block]] * q.block + j % q.block)
  {
    PositionParts(q, j);
    hide *;
    SlotInBlock(mapping, q.block, Blocks(q)[j / q.block], j % q.block);
  }

  /** The j-th visible position, by block and offset. */
  lemma PositionParts(q: Query, j: int)
    requires q.block > 0 && 0 <= j < Total(q)
    ensures j < |Positions(q)| && 0 <= Positions(q)[j] < q.kvLen
    ensures 0 <= j / q.block < |Blocks(q)| && 0 <= Blocks(q)[j / q.block] && 0 <= j % q.block < q.block
    ensures Positions(q)[j] == Blocks(q)[j / q.block] * q.block + j % q.block
  {
    CompressedReadExact(q);
    OffsetWritten(q, j);
    hide Positions, Blocks, Total, BlockCount;
    VisibleListed(q, j);
    BlockListed(q, j / q.block);
    BlockBounds(q, Blocks(q)[j / q.block]);
  }

  /** The slot of the position at an offset of a block. */
  lemma SlotInBlock(mapping: seq<int>, b: int, k: int, off: int)
    requires b > 0 && ValidMapping(mapping) && 0 <= k < |mapping| && 0 <= off < b
    ensures 0 <= k * b + off && CanonicalSlot(k * b + off, b, mapping) == Ok(mapping[k] * b + off)
  {
    MulSign(k, b);
    DivUnique(k * b + off, b, k);
    hide ValidMapping;
  }

  lemma BlockListed(q: Query, i: int)
    requires q.block > 0 && 0 <= i < |Blocks(q)|
    ensures Blocks(q)[i] in BlockSet(q)
  {
    assert Blocks(q)[i] in Blocks(q);
  }

  /** Read index j, through the table or any padded row, touches the canonical slot of the j-th
      visible position, which is written. */
  ghost predicate ReadsSlot(q: Query, mapping: seq<int>, t: ReadTable, width: int, j: int)
    requires q.block > 0 && t.physical != []
  {
    && 0 <= j < |Positions(q)| && 0 <= Positions(q)[j] < q.kvLen
    && 0 <= j / q.block < |t.physical| && PaddedRow(t, width).Ok?
    && PaddedRow(t, width).value[j / q.block] == t.physical[j / q.block]
    && CanonicalSlot(Positions(q)[j], q.block, mapping) == Ok(t.physical[j / q.block] * q.block + j % q.block)
  }

  /** Prefix reads of an exact table are exact; padding columns are never reached. */
  lemma TableReadsVisible(
    q: Query, canonical: seq<Option<int>>, mapping: seq<int>, width: int, j: int)
    requires q.block > 0 && MapsAll(canonical, mapping) && AllAllocated(canonical, Blocks(q))
    requires 0 <= j < Total(q) && width >= |Blocks(q)|
    ensures |Positions(q)| == Total(q) && Blocks(q) != []
    ensures ReadsSlot(q, mapping, ExactTable(q, canonical), width, j)
  {
    hide Positions, Blocks, Total, CanonicalSlot, Counts, PaddedRow, MapsAll, ValidMapping, TailBlockLen, PhysicalOf;
    hide AllAllocated;
    CompressedReadExact(q);
    IndexInTable(q, j);
    ColumnMapped(canonical, mapping, Blocks(q), j / q.block);
    SlotOfReadIndex(q, mapping, j);
    PaddedPrefix(ExactTable(q, canonical), width, j / q.block);
  }

  lemma ColumnMapped(canonical: seq<Option<int>>, mapping: seq<int>, blocks: seq<int>, i: int)
    requires MapsAll(canonical, mapping) && AllAllocated(canonical, blocks) && 0 <= i < |blocks|
    ensures ValidMapping(mapping) && 0 <= blocks[i] < |mapping|
    ensures PhysicalOf(canonical, blocks)[i] == mapping[blocks[i]]
  {
    assert Allocated(canonical, blocks[i]);
  }

  lemma PaddedPrefix(t: ReadTable, width: int, i: int)
    requires 0 <= i < |t.physical| <= width
    ensures PaddedRow(t, width).Ok? && PaddedRow(t, width).value[i] == t.physical[i]
  {
  }
}
