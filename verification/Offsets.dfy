/** Token counts over a character-offset index: bisection against plain counting. */
module Offsets {
  import opened Basics
  import opened Spans

  /** The (start, end) character offsets of a text's tokens. */
  datatype Index = Index(starts: seq<int>, ends: seq<int>) {

    /** The number of tokens completely inside [start, end). */
    function Count(start: int, end: int): int
    {
      if end <= start then 0 else Max(0, BisectRight(ends, end, 0, |ends|) - BisectLeft(starts, start, 0, |starts|))
    }

    /** The number of tokens that meet [start, end). */
    function CountOverlapping(start: int, end: int): int
    {
      if end <= start then 0 else Max(0, BisectLeft(starts, end, 0, |starts|) - BisectRight(ends, start, 0, |ends|))
    }

    predicate IsTokenBoundary(cut: int) {
      cut in starts || cut in ends
    }
  }

  predicate Sorted(a: seq<int>) {
    forall i, j :: 0 <= i < j < |a| ==> a[i] <= a[j]
  }

  /** What the constructor checks. */
  predicate Accepted(ix: Index) {
    && |ix.starts| == |ix.ends|
    && (forall i :: 0 <= i < |ix.starts| ==> ix.starts[i] <= ix.ends[i])
    && Sorted(ix.ends)
  }

  /** No token that starts before x stands behind one that does not. Sorted starts, which any tokenizer
      delivers, have this for every x. */
  predicate InOrderAt(starts: seq<int>, x: int) {
    forall i, j :: 0 <= i < j < |starts| && starts[j] < x ==> starts[i] < x
  }

  /** OffsetsIndex.__init__: refuse a reversed token or a dropping end. */
  function Build(offsets: seq<Span>): Result<Index> {
    var ix := Index(seq(|offsets|, i requires 0 <= i < |offsets| => offsets[i].lo),
                    seq(|offsets|, i requires 0 <= i < |offsets| => offsets[i].hi));
    if exists i :: 0 <= i < |offsets| && offsets[i].hi < offsets[i].lo then Err(ValueError)
    else if exists i :: 0 <= i < |offsets| - 1 && offsets[i + 1].hi < offsets[i].hi then Err(ValueError)
    else Ok(ix)
  }

  /** The constructor's neighbour-wise check makes all ends sorted. */
  lemma BuiltSorted(offsets: seq<Span>)
    requires Build(offsets).Ok?
    ensures Accepted(Build(offsets).value)
    ensures (forall i, j :: 0 <= i < j < |offsets| ==> offsets[i].lo <= offsets[j].lo)
       ==> forall x :: InOrderAt(Build(offsets).value.starts, x)
  {
    var ends := Build(offsets).value.ends;
    forall i, j | 0 <= i < j < |ends| ensures ends[i] <= ends[j] { EndsClimb(offsets, i, j); }
  }

  lemma {:induction false} EndsClimb(offsets: seq<Span>, i: int, j: int)
    requires Build(offsets).Ok? && 0 <= i <= j < |offsets|
    ensures offsets[i].hi <= offsets[j].hi
  {
    if i < j {
      EndsClimb(offsets, i, j - 1);
      assert offsets[j - 1 + 1].hi >= offsets[j - 1].hi;
    }
  }

  /** bisect_left; on a list in order at x the first index whose value is at least x. */
  function BisectLeft(a: seq<int>, x: int, lo: nat, hi: nat): (r: nat)
    requires lo <= hi <= |a|
    ensures lo <= r <= hi
    ensures InOrderAt(a, x) && (forall i :: 0 <= i < lo ==> a[i] < x) && (forall i :: hi <= i < |a| ==> a[i] >= x) ==>
      (forall i :: 0 <= i < r ==> a[i] < x) && forall i :: r <= i < |a| ==> a[i] >= x
    decreases hi - lo
  {
    if lo == hi then lo
    else
      var mid := (lo + hi) / 2;
      if a[mid] < x then BisectLeft(a, x, mid + 1, hi) else BisectLeft(a, x, lo, mid)
  }

  /** bisect_right; on a sorted list the first index whose value exceeds x. */
  function BisectRight(a: seq<int>, x: int, lo: nat, hi: nat): (r: nat)
    requires lo <= hi <= |a|
    ensures lo <= r <= hi
    ensures Sorted(a) && (forall i :: 0 <= i < lo ==> a[i] <= x) && (forall i :: hi <= i < |a| ==> a[i] > x) ==>
      (forall i :: 0 <= i < r ==> a[i] <= x) && forall i :: r <= i < |a| ==> a[i] > x
    decreases hi - lo
  {
    if lo == hi then lo
    else
      var mid := (lo + hi) / 2;
      if a[mid] > x then BisectRight(a, x, lo, mid) else BisectRight(a, x, mid + 1, hi)
  }

  // ---------------------------------------------------------------------------
  // The fast counts equal the slow counts
  // ---------------------------------------------------------------------------

  predicate Overlaps(ix: Index, start: int, end: int, i: int)
    requires |ix.starts| == |ix.ends|
  {
    0 <= i < |ix.starts| && ix.starts[i] < end && start < ix.ends[i]
  }

  predicate Inside(ix: Index, start: int, end: int, i: int)
    requires |ix.starts| == |ix.ends|
  {
    0 <= i < |ix.starts| && start <= ix.starts[i] && ix.ends[i] <= end
  }

  function OverlapSet(ix: Index, start: int, end: int): set<int>
    requires |ix.starts| == |ix.ends|
  {
    set i | 0 <= i < |ix.starts| && Overlaps(ix, start, end, i)
  }

  function InsideSet(ix: Index, start: int, end: int): set<int>
    requires |ix.starts| == |ix.ends|
  {
    set i | 0 <= i < |ix.starts| && Inside(ix, start, end, i)
  }

  lemma IntervalSize(s: set<int>, lo: int, hi: int)
    requires forall i :: i in s <==> lo <= i < hi
    ensures |s| == Max(0, hi - lo)
  {
    ListsSet(Range(lo, hi), s);
  }

  /** The bisections enclose exactly the overlapping tokens if and only if starts are in order at the
      range's end. */
  lemma OverlapInterval(ix: Index, start: int, end: int)
    requires Accepted(ix) && start < end
    ensures var lo, hi := BisectRight(ix.ends, start, 0, |ix.ends|), BisectLeft(ix.starts, end, 0, |ix.starts|);
      (forall i :: Overlaps(ix, start, end, i) <==> lo <= i < hi) <==> InOrderAt(ix.starts, end)
  {
    var lo, hi := BisectRight(ix.ends, start, 0, |ix.ends|), BisectLeft(ix.starts, end, 0, |ix.starts|);
    if forall i :: Overlaps(ix, start, end, i) <==> lo <= i < hi {
      forall i, j | 0 <= i < j < |ix.starts| && ix.starts[j] < end ensures ix.starts[i] < end {
        if i >= lo {
          assert Overlaps(ix, start, end, j);
          assert Overlaps(ix, start, end, i);
        } else {
          assert ix.starts[i] <= ix.ends[i] <= start;
        }
      }
    }
  }

  /** Tokens that start before x, among the first n. */
  function StartBefore(ix: Index, x: int, n: int): set<int>
    requires 0 <= n <= |ix.starts|
  {
    set i | 0 <= i < n && ix.starts[i] < x
  }

  /** The overlap count is right when starts are in order at the range's end, and otherwise if and only
      if the bisection still lands on the number of tokens that start before it (or, with no token
      overlapping, no further than those that end before it). */
  lemma OverlapCountExact(ix: Index, start: int, end: int)
    requires Accepted(ix)
    ensures end <= start ==> ix.CountOverlapping(start, end) == 0
    ensures start < end && InOrderAt(ix.starts, end) ==> ix.CountOverlapping(start, end) == |OverlapSet(ix, start, end)|
    ensures start < end ==>
      var lo, hi := BisectRight(ix.ends, start, 0, |ix.ends|), BisectLeft(ix.starts, end, 0, |ix.starts|);
      var before := |StartBefore(ix, end, |ix.starts|)|;
      ix.CountOverlapping(start, end) == |OverlapSet(ix, start, end)| <==> hi == before || (before == lo && hi <= lo)
  {
    if start < end {
      OverlapSize(ix, start, end);
      if InOrderAt(ix.starts, end) {
        OverlapInterval(ix, start, end);
        IntervalSize(OverlapSet(ix, start, end), BisectRight(ix.ends, start, 0, |ix.ends|),
                     BisectLeft(ix.starts, end, 0, |ix.starts|));
      }
    }
  }

  /** Every token that has ended by `start` starts before `end`; the others that do are the overlapping ones. */
  lemma OverlapSize(ix: Index, start: int, end: int)
    requires Accepted(ix) && start < end
    ensures |StartBefore(ix, end, |ix.starts|)|
         == BisectRight(ix.ends, start, 0, |ix.ends|) + |OverlapSet(ix, start, end)|
  {
    var lo := BisectRight(ix.ends, start, 0, |ix.ends|);
    var ended := set i | i in Range(0, lo);
    IntervalSize(ended, 0, lo);
    assert StartBefore(ix, end, |ix.starts|) == ended + OverlapSet(ix, start, end);
    assert ended !! OverlapSet(ix, start, end);
  }

  /** The containment count is right when starts are in order at the range's start, and otherwise if and
      only if the bisection lands on the number of tokens that start before it among those that end
      in time (or, with no token inside, no earlier). */
  lemma InsideCountExact(ix: Index, start: int, end: int)
    requires Accepted(ix)
    ensures end <= start ==> ix.Count(start, end) == 0
    ensures start < end && InOrderAt(ix.starts, start) ==> ix.Count(start, end) == |InsideSet(ix, start, end)|
    ensures start < end ==>
      var lo, hi := BisectLeft(ix.starts, start, 0, |ix.starts|), BisectRight(ix.ends, end, 0, |ix.ends|);
      var before := |StartBefore(ix, start, hi)|;
      ix.Count(start, end) == |InsideSet(ix, start, end)| <==> lo == before || (before == hi && hi <= lo)
  {
    if start < end {
      InsideSize(ix, start, end);
      if InOrderAt(ix.starts, start) {
        IntervalSize(InsideSet(ix, start, end), BisectLeft(ix.starts, start, 0, |ix.starts|),
                     BisectRight(ix.ends, end, 0, |ix.ends|));
      }
    }
  }

  lemma InsideSize(ix: Index, start: int, end: int)
    requires Accepted(ix)
    ensures var hi := BisectRight(ix.ends, end, 0, |ix.ends|);
      hi == |StartBefore(ix, start, hi)| + |InsideSet(ix, start, end)|
  {
    var hi := BisectRight(ix.ends, end, 0, |ix.ends|);
    var all := set i | i in Range(0, hi);
    IntervalSize(all, 0, hi);
    assert all == StartBefore(ix, start, hi) + InsideSet(ix, start, end);
    assert StartBefore(ix, start, hi) !! InsideSet(ix, start, end);
  }

  // ---------------------------------------------------------------------------
  // The character range to token range scan
  // ---------------------------------------------------------------------------

  predicate Meets(offsets: seq<Span>, start: int, end: int, i: int) {
    0 <= i < |offsets| && offsets[i].lo < end && start < offsets[i].hi
  }

  /** _char_range_to_token_range, for any offsets: first meeting token to one past the last. */
  method TokenRange(offsets: seq<Span>, start: int, end: int) returns (r: Result<(int, int)>)
    ensures r.Err? <==> end <= start || forall i :: 0 <= i < |offsets| ==> !Meets(offsets, start, end, i)
    ensures r.Err? ==> r.error == SpanMappingError
    ensures r.Ok? ==> Meets(offsets, start, end, r.value.0) && Meets(offsets, start, end, r.value.1 - 1)
    ensures r.Ok? ==> forall i :: Meets(offsets, start, end, i) ==> r.value.0 <= i < r.value.1
  {
    if end <= start { return Err(SpanMappingError); }
    var lo: Option<int> := None;
    var hi: Option<int> := None;
    for i := 0 to |offsets|
      invariant lo.Some? <==> hi.Some?
      invariant lo.None? ==> forall j :: 0 <= j < i ==> !Meets(offsets, start, end, j)
      invariant lo.Some? ==>
        && 0 <= lo.value <= hi.value < i
        && Meets(offsets, start, end, lo.value) && Meets(offsets, start, end, hi.value)
      invariant lo.Some? ==> forall j :: 0 <= j < i && Meets(offsets, start, end, j) ==> lo.value <= j <= hi.value
    {
      if offsets[i].hi <= start || offsets[i].lo >= end { continue; }
      assert Meets(offsets, start, end, i);
      if lo.None? { lo := Some(i); }
      hi := Some(i);
    }
    if lo.None? { return Err(SpanMappingError); }
    return Ok((lo.value, hi.value + 1));
  }

  /** With starts in order at the end the range is exactly the overlapping tokens: its width is the
      fast count. */
  method RangeWidthIsCount(offsets: seq<Span>, start: int, end: int) returns (r: Result<(int, int)>)
    requires Build(offsets).Ok? && InOrderAt(Build(offsets).value.starts, end) && start < end
    ensures r.Err? <==> Build(offsets).value.CountOverlapping(start, end) == 0
    ensures r.Ok? ==> r.value.1 - r.value.0 == Build(offsets).value.CountOverlapping(start, end)
  {
    r := TokenRange(offsets, start, end);
    var ix := Build(offsets).value;
    BuiltSorted(offsets);
    OverlapInterval(ix, start, end);
    forall i ensures Meets(offsets, start, end, i) <==> Overlaps(ix, start, end, i) { }
    var lo, hi := BisectRight(ix.ends, start, 0, |ix.ends|), BisectLeft(ix.starts, end, 0, |ix.starts|);
    if lo < hi { assert Overlaps(ix, start, end, lo) && Overlaps(ix, start, end, hi - 1); }
  }
}
