/** What a decode step may read, stated position by position.
    Every implementation in the repository is compared with this definition. */
module Visibility {
  import opened Basics
  import opened Spans

  /** The mode string; `Unknown` is any string the protocol does not define. */
  datatype Mode = Global | Focus | Local | Unknown(name: string)

  datatype TokenLayout = TokenLayout(
    promptLen: int, segmentSpans: seq<Span>, localWindow: Span, sink: Span)

  /** One step's question: mode, refs and layout, the KV bound, the block size. */
  datatype Query = Query(mode: Mode, refs: seq<int>, layout: TokenLayout, kvLen: int, block: int)

  predicate RefsInRange(refs: seq<int>, segments: nat) {
    forall r :: r in refs ==> 1 <= r <= segments
  }

  /** The protocol's meaning: sink, local window and response always; a declared segment under
      focus; everything under global. Only written positions count. */
  predicate Semantic(q: Query, p: int) {
    && 0 <= p < q.kvLen
    && (|| In(q.layout.sink, p)
        || In(q.layout.localWindow, p)
        || q.layout.promptLen <= p
        || q.mode.Global?
        || (q.mode.Focus? && Declared(q, p)))
  }

  predicate Declared(q: Query, p: int) {
    exists r :: r in q.refs && 1 <= r <= |q.layout.segmentSpans| && In(q.layout.segmentSpans[r - 1], p)
  }

  function SemanticSet(q: Query): set<int> {
    set p | 0 <= p < q.kvLen && Semantic(q, p)
  }

  /** A written position is read when its block holds a semantic position. */
  ghost predicate Visible(q: Query, p: int)
    requires q.block > 0
  {
    0 <= p < q.kvLen && exists s :: s in SemanticSet(q) && s / q.block == p / q.block
  }

  ghost function VisibleSet(q: Query): set<int>
    requires q.block > 0
  {
    set p | 0 <= p < q.kvLen && Visible(q, p)
  }

  ghost function BlockSet(q: Query): set<int>
    requires q.block > 0
  {
    set s | s in SemanticSet(q) :: s / q.block
  }

  ghost function Positions(q: Query): seq<int>
    requires q.block > 0
  {
    SortedInts(VisibleSet(q))
  }

  ghost function Blocks(q: Query): seq<int>
    requires q.block > 0
  {
    SortedInts(BlockSet(q))
  }

  /** How many written positions block k holds. */
  function BlockCount(q: Query, k: int): int {
    if q.kvLen - k * q.block < q.block then q.kvLen - k * q.block else q.block
  }

  ghost function Counts(q: Query): seq<int>
    requires q.block > 0
  {
    var blocks := Blocks(q);
    seq(|blocks|, i requires 0 <= i < |blocks| => BlockCount(q, blocks[i]))
  }

  /** The number of positions a prefix-semantics reader is told to read. */
  ghost function Total(q: Query): int
    requires q.block > 0
  {
    var blocks := Blocks(q);
    if blocks == [] then 0 else |blocks| * q.block - q.block + BlockCount(q, blocks[|blocks| - 1])
  }

  lemma BlockBounds(q: Query, k: int)
    requires q.block > 0 && k in BlockSet(q)
    ensures 0 <= k && k * q.block < q.kvLen
    ensures 0 < BlockCount(q, k) <= q.block
  {
    var s :| s in SemanticSet(q) && s / q.block == k;
    DivBounds(s, q.block);
    assert k * q.block <= s;
    if k < 0 { MulStep(k, 0, q.block); }
  }

  lemma VisibleBlock(q: Query, p: int)
    requires q.block > 0
    ensures p in VisibleSet(q) <==> 0 <= p < q.kvLen && p / q.block in BlockSet(q)
  {
  }

  /** Every visible block but the last is completely written. */
  lemma InnerBlocksFull(q: Query, i: int)
    requires q.block > 0 && 0 <= i < |Blocks(q)| - 1
    ensures BlockCount(q, Blocks(q)[i]) == q.block
  {
    var bl := Blocks(q);
    assert bl[i] < bl[i + 1];
    assert bl[i + 1] in bl;
    BlockBounds(q, bl[i + 1]);
    MulStep(bl[i], bl[i + 1], q.block);
  }

  lemma TotalBounds(q: Query)
    requires q.block > 0 && Blocks(q) != []
    ensures |Blocks(q)| * q.block - q.block < Total(q) <= |Blocks(q)| * q.block
  {
    var bl := Blocks(q);
    assert bl[|bl| - 1] in bl;
    BlockBounds(q, bl[|bl| - 1]);
  }

  /** The position that read index j reaches through the compressed block list. */
  ghost function ReadIndex(q: Query, j: int): int
    requires q.block > 0 && 0 <= j < Total(q)
  {
    IndexInTable(q, j);
    Blocks(q)[j / q.block] * q.block + j % q.block
  }

  lemma IndexInTable(q: Query, j: int)
    requires q.block > 0 && 0 <= j < Total(q)
    ensures 0 <= j / q.block < |Blocks(q)|
  {
    TotalBounds(q);
    Quotient(j, |Blocks(q)|, q.block);
  }

  /** Index j lands inside the written part of its block. */
  lemma OffsetWritten(q: Query, j: int)
    requires q.block > 0 && 0 <= j < Total(q)
    ensures 0 <= j / q.block < |Blocks(q)|
    ensures 0 <= j % q.block < BlockCount(q, Blocks(q)[j / q.block])
  {
    IndexInTable(q, j);
    var i, n := j / q.block, |Blocks(q)|;
    if i < n - 1 {
      InnerBlocksFull(q, i);
      DivBounds(j, q.block);
    } else {
      LastOffset(j, n, q.block, BlockCount(q, Blocks(q)[n - 1]));
    }
  }

  lemma LastOffset(j: int, n: int, b: int, count: int)
    requires b > 0 && j / b == n - 1 && j < n * b - b + count
    ensures 0 <= j % b < count
  {
    DivBounds(j, b);
    assert (n - 1) * b == n * b - b;
  }

  lemma ReadIndexVisible(q: Query, j: int)
    requires q.block > 0 && 0 <= j < Total(q)
    ensures ReadIndex(q, j) in VisibleSet(q)
  {
    OffsetWritten(q, j);
    var k := Blocks(q)[j / q.block];
    assert k in Blocks(q);
    InBlock(q, k, j % q.block);
  }

  lemma InBlock(q: Query, k: int, off: int)
    requires q.block > 0 && k in BlockSet(q) && 0 <= off < BlockCount(q, k)
    ensures k * q.block + off in VisibleSet(q)
  {
    BlockBounds(q, k);
    MulSign(k, q.block);
    DivUnique(k * q.block + off, q.block, k);
    VisibleBlock(q, k * q.block + off);
  }

  lemma VisibleHasIndex(q: Query, p: int) returns (j: int)
    requires q.block > 0 && p in VisibleSet(q)
    ensures 0 <= j < Total(q) && ReadIndex(q, j) == p
  {
    var bl, k := Blocks(q), p / q.block;
    VisibleBlock(q, p);
    assert k in bl;
    var i :| 0 <= i < |bl| && bl[i] == k;
    j := IndexOf(q, i, p % q.block, p);
  }

  lemma IndexOf(q: Query, i: int, off: int, p: int) returns (j: int)
    requires q.block > 0 && 0 <= i < |Blocks(q)| && Blocks(q)[i] == p / q.block && off == p % q.block
    requires 0 <= p < q.kvLen
    ensures 0 <= j < Total(q) && ReadIndex(q, j) == p
  {
    j := i * q.block + off;
    DivBounds(p, q.block);
    BeforeTotal(q, i, off, p);
    DivUnique(j, q.block, i);
  }

  lemma BeforeTotal(q: Query, i: int, off: int, p: int)
    requires q.block > 0 && 0 <= i < |Blocks(q)| && 0 <= off < q.block
    requires p == Blocks(q)[i] * q.block + off && p < q.kvLen
    ensures 0 <= i * q.block + off < Total(q)
  {
    var bl := Blocks(q);
    assert bl[|bl| - 1] in bl;
    BlockBounds(q, bl[|bl| - 1]);
    BelowTotal(i, |bl|, off, q.block, BlockCount(q, bl[|bl| - 1]));
  }

  lemma BelowTotal(i: int, n: int, off: int, b: int, count: int)
    requires 0 <= i < n && 0 <= off < b && 0 < count && (i == n - 1 ==> off < count)
    ensures 0 <= i * b + off < n * b - b + count
  {
    MulSign(i, b);
    assert (n - 1) * b == n * b - b;
    if i < n - 1 { MulStep(i, n - 1, b); }
  }

  lemma MulSign(k: int, b: int)
    requires k >= 0 && b > 0
    ensures k * b >= 0
  {
  }

  lemma ReadIndexAscends(q: Query, i: int, j: int)
    requires q.block > 0 && 0 <= i < j < Total(q)
    ensures ReadIndex(q, i) < ReadIndex(q, j)
  {
    var b, bl := q.block, Blocks(q);
    IndexInTable(q, i);
    IndexInTable(q, j);
    DivBounds(i, b);
    DivBounds(j, b);
    DivMonotone(i, j, b);
    if i / b < j / b {
      assert bl[i / b] < bl[j / b];
      MulStep(bl[i / b], bl[j / b], b);
    }
  }

  /** Reading indices 0, 1, .. through the compressed block list enumerates the visible
      positions in ascending order, each once, and needs exactly one column per visible block. */
  lemma CompressedReadExact(q: Query)
    requires q.block > 0
    ensures |Positions(q)| == Total(q)
    ensures forall j :: 0 <= j < Total(q) ==> Positions(q)[j] == ReadIndex(q, j)
    ensures CeilDiv(Total(q), q.block) == |Blocks(q)|
  {
    TotalColumns(q);
    var r := seq(Total(q), j requires 0 <= j < Total(q) => ReadIndex(q, j));
    forall i, j | 0 <= i < j < |r| ensures r[i] < r[j] { ReadIndexAscends(q, i, j); }
    forall p ensures p in r <==> p in VisibleSet(q) {
      if p in r {
        var j :| 0 <= j < |r| && r[j] == p;
        ReadIndexVisible(q, j);
      }
      if p in VisibleSet(q) {
        var j := VisibleHasIndex(q, p);
        assert r[j] == p;
      }
    }
    ListsSet(r, VisibleSet(q));
  }

  lemma TotalColumns(q: Query)
    requires q.block > 0
    ensures Total(q) >= 0 && CeilDiv(Total(q), q.block) == |Blocks(q)|
  {
    if Blocks(q) != [] {
      TotalBounds(q);
      assert |Blocks(q)| * q.block - q.block == (|Blocks(q)| - 1) * q.block;
      MulSign(|Blocks(q)| - 1, q.block);
    }
    CeilDivUnique(Total(q), q.block, |Blocks(q)|);
  }

  /** The visible set is the least union of written blocks that contains the semantic positions. */
  lemma LeastBlockUnion(q: Query, u: set<int>)
    requires q.block > 0
    requires SemanticSet(q) <= u
    requires forall p, r :: p in u && 0 <= r < q.kvLen && r / q.block == p / q.block ==> r in u
    ensures SemanticSet(q) <= VisibleSet(q) <= u
    ensures forall p, r :: p in VisibleSet(q) && 0 <= r < q.kvLen && r / q.block == p / q.block
              ==> r in VisibleSet(q)
  {
    forall p | p in VisibleSet(q) ensures p in u {
      var s :| s in SemanticSet(q) && s / q.block == p / q.block;
    }
  }

  /** Sum of a list of counts. */
  function Sum(xs: seq<int>): int {
    if xs == [] then 0 else Sum(xs[..|xs| - 1]) + xs[|xs| - 1]
  }

  lemma {:induction false} SumConstant(xs: seq<int>, b: int)
    requires forall i :: 0 <= i < |xs| ==> xs[i] == b
    ensures Sum(xs) == |xs| * b
  {
    if xs != [] { SumConstant(xs[..|xs| - 1], b); }
  }

  /** The per-block counts add up to the number of visible positions. */
  lemma CountsTotal(q: Query)
    requires q.block > 0
    ensures Sum(Counts(q)) == Total(q)
  {
    if Blocks(q) != [] {
      InnerCounts(q);
      SumInit(Counts(q), q.block);
    }
  }

  lemma SumInit(c: seq<int>, b: int)
    requires c != [] && forall i :: 0 <= i < |c| - 1 ==> c[i] == b
    ensures Sum(c) == |c| * b - b + c[|c| - 1]
  {
    SumConstant(c[..|c| - 1], b);
    assert (|c| - 1) * b == |c| * b - b;
  }

  lemma InnerCounts(q: Query)
    requires q.block > 0 && Blocks(q) != []
    ensures forall i :: 0 <= i < |Blocks(q)| - 1 ==> Counts(q)[i] == q.block
  {
    forall i | 0 <= i < |Blocks(q)| - 1 ensures Counts(q)[i] == q.block { InnerBlocksFull(q, i); }
  }
}
