/** Canonical slots, and the conversion of a view into a paged read table without -1 entries. */
module GpuKv {
  import opened Basics
  import opened Spans
  import opened Visibility
  import opened ReadView

  datatype ReadTable = ReadTable(
    physical: seq<int>, blocks: seq<int>, perBlock: seq<int>, seqused: int, tailLen: int,
    kvLen: int, nextWrite: int, block: int)

  /** Nonempty, nonnegative, no physical block twice. */
  predicate ValidMapping(mapping: seq<int>) {
    && mapping != []
    && (forall i :: 0 <= i < |mapping| ==> mapping[i] >= 0)
    && (forall i, j :: 0 <= i < j < |mapping| ==> mapping[i] != mapping[j])
  }

  /** The slot of a position, for a valid map that reaches it. */
  function SlotOf(p: int, b: int, mapping: seq<int>): int
    requires b > 0 && 0 <= p / b < |mapping|
  {
    mapping[p / b] * b + p % b
  }

  function CanonicalSlot(p: int, b: int, mapping: seq<int>): Result<int>
    requires b > 0
  {
    if !ValidMapping(mapping) || p < 0 || p / b >= |mapping| then Err(GpuKvError)
    else
      assert p / b >= 0 by { AtLeastMultiple(0, p, b); }
      Ok(SlotOf(p, b, mapping))
  }

  /** Where the next token goes: logical block, offset, slot. */
  function NextWriteSlot(seqLen: int, b: int, mapping: seq<int>): Result<(int, int, int)>
    requires b > 0
  {
    match CanonicalSlot(seqLen, b, mapping)
    case Ok(slot) => Ok((seqLen / b, seqLen % b, slot))
    case Err(e) => Err(e)
  }

  /** Different written positions never share a slot. */
  lemma SlotsDistinct(p: int, r: int, b: int, mapping: seq<int>)
    requires b > 0 && ValidMapping(mapping) && p != r
    requires 0 <= p / b < |mapping| && 0 <= r / b < |mapping|
    ensures SlotOf(p, b, mapping) != SlotOf(r, b, mapping)
  {
    DivBounds(p, b);
    DivBounds(r, b);
    if SlotOf(p, b, mapping) == SlotOf(r, b, mapping) {
      DivUnique(SlotOf(p, b, mapping), b, mapping[p / b]);
      DivUnique(SlotOf(r, b, mapping), b, mapping[r / b]);
    }
  }

  /** Appending blocks to the map never moves a position that already had a slot. */
  lemma SlotsStable(p: int, b: int, mapping: seq<int>, more: seq<int>)
    requires b > 0 && 0 <= p / b < |mapping|
    ensures SlotOf(p, b, mapping + more) == SlotOf(p, b, mapping)
  {
  }

  /** Python's xs[:n] */
  function Prefix(xs: seq<int>, n: int): seq<int> {
    if n >= |xs| then xs else if n >= 0 then xs[..n] else if |xs| + n > 0 then xs[..|xs| + n] else []
  }

  predicate BlockRowsAgree(v: View, mapping: seq<int>) {
    var prefix := Prefix(v.physical, v.validCounts);
    && |prefix| == |v.blocks|
    && (forall i, j :: 0 <= i < j < |prefix| ==> prefix[i] != prefix[j])
    && (forall i :: 0 <= i < |v.blocks| ==> RowAgrees(v, mapping, i, prefix[i]))
  }

  /** Row i of the table names the physical block of visible block i, which holds a written position.
      A negative block number would index the map from its end, as in the source language. */
  predicate RowAgrees(v: View, mapping: seq<int>, i: int, pid: int)
    requires 0 <= i < |v.blocks|
  {
    var k := v.blocks[i];
    && pid != -1
    && -|mapping| <= k < |mapping|
    && pid == (if k >= 0 then mapping[k] else mapping[|mapping| + k])
    && k * v.block < v.kvLen
  }

  /** Positions of block k the visible spans cover. */
  function CountIn(spans: seq<Span>, k: int, b: int, kvLen: int): int {
    CoveredIn(spans, k * b, Min(k * b + b, kvLen))
  }

  function CountOf(v: View, k: int): int {
    CountIn(v.visible, k, v.block, v.kvLen)
  }

  function CountsOf(v: View): seq<int> {
    seq(|v.blocks|, i requires 0 <= i < |v.blocks| => CountOf(v, v.blocks[i]))
  }

  predicate AscendingInts(xs: seq<int>) {
    forall i, j :: 0 <= i < j < |xs| ==> xs[i] < xs[j]
  }

  /** Everything the conversion insists on. */
  predicate Convertible(v: View, mapping: seq<int>) {
    && ValidMapping(mapping) && v.block > 0 && v.kvLen > 0
    && v.blocks != [] && AscendingInts(v.blocks) && BlockRowsAgree(v, mapping)
    && var counts := CountsOf(v);
    && (forall i :: 0 <= i < |counts| - 1 ==> counts[i] == v.block)
    && counts[|counts| - 1] != 0
    && (v.kvLen - 1) / v.block in v.blocks
    && CeilDiv(Sum(counts), v.block) == |v.blocks|
  }

  function ReadTableSpec(v: View, mapping: seq<int>): Result<ReadTable> {
    if !Convertible(v, mapping) then Err(GpuKvError)
    else
      var counts := CountsOf(v);
      Ok(ReadTable(Prefix(v.physical, v.validCounts), v.blocks, counts, Sum(counts),
                   counts[|counts| - 1], v.kvLen, v.nextWrite, v.block))
  }

  /** The accumulation of one block's covered positions over the visible spans. */
  method CountBlock(v: View, k: int) returns (covered: int)
    requires v.block > 0
    ensures covered == CountOf(v, k)
  {
    var lo, hi := k * v.block, Min(k * v.block + v.block, v.kvLen);
    covered := 0;
    for i := 0 to |v.visible|
      invariant covered == CoveredIn(v.visible[..i], lo, hi)
    {
      var l, h := Max(v.visible[i].lo, lo), Min(v.visible[i].hi, hi);
      assert v.visible[..i + 1][..i] == v.visible[..i];
      if h > l { covered := covered + (h - l); }
    }
    assert v.visible[..|v.visible|] == v.visible;
  }

  /** The row loop: three refusals per visible block. */
  method CheckRows(v: View, mapping: seq<int>, prefix: seq<int>) returns (ok: bool)
    requires |prefix| == |v.blocks|
    ensures ok <==> forall i :: 0 <= i < |v.blocks| ==> RowAgrees(v, mapping, i, prefix[i])
  {
    for i := 0 to |v.blocks|
      invariant forall j :: 0 <= j < i ==> RowAgrees(v, mapping, j, prefix[j])
    {
      if !RowAgrees(v, mapping, i, prefix[i]) { return false; }
    }
    return true;
  }

  /** read_table_from_read_view, for any view whatever. */
  method ReadTableFromReadView(v: View, mapping: seq<int>) returns (r: Result<ReadTable>)
    ensures r == ReadTableSpec(v, mapping)
  {
    if !ValidMapping(mapping) || v.block <= 0 || v.kvLen <= 0 { return Err(GpuKvError); }
    if v.blocks == [] || !AscendingInts(v.blocks) { return Err(GpuKvError); }
    var prefix := Prefix(v.physical, v.validCounts);
    if |prefix| != |v.blocks| { return Err(GpuKvError); }
    if exists i, j :: 0 <= i < j < |prefix| && prefix[i] == prefix[j] { return Err(GpuKvError); }
    var rows := CheckRows(v, mapping, prefix);
    if !rows { return Err(GpuKvError); }
    var counts: seq<int> := [];
    for i := 0 to |v.blocks|
      invariant counts == CountsOf(v)[..i]
    {
      var covered := CountBlock(v, v.blocks[i]);
      counts := counts + [covered];
    }
    assert counts == CountsOf(v);
    if (exists i :: 0 <= i < |counts| - 1 && counts[i] != v.block) || counts[|counts| - 1] == 0 {
      return Err(GpuKvError);
    }
    if (v.kvLen - 1) / v.block !in v.blocks { return Err(GpuKvError); }
    if CeilDiv(Sum(counts), v.block) != |prefix| { return Err(GpuKvError); }
    return Ok(ReadTable(prefix, v.blocks, counts, Sum(counts), counts[|counts| - 1], v.kvLen,
                        v.nextWrite, v.block));
  }

  /** ReadTable.padded_row: the last block again, never -1. */
  function PaddedRow(t: ReadTable, width: int): Result<seq<int>>
    requires t.physical != []
  {
    if width < |t.physical| then Err(GpuKvError)
    else Ok(t.physical + Repeat(t.physical[|t.physical| - 1], width - |t.physical|))
  }
}
