/** The boolean-mask reference: mark selected positions in place, then whole blocks. */
module Reference {
  import opened Basics
  import opened Spans
  import opened Visibility

  /** mark(start, end): the part of the span inside the array becomes true, nothing else changes. */
  method Mark(flags: array<bool>, s: Span)
    modifies flags
    ensures forall p :: 0 <= p < flags.Length ==> flags[p] == (old(flags[p]) || In(s, p))
  {
    var pos, end := Max(0, s.lo), Min(s.hi, flags.Length);
    while pos < end
      invariant Max(0, s.lo) <= pos
      invariant forall p :: 0 <= p < flags.Length ==> flags[p] == (old(flags[p]) || (In(s, p) && p < pos))
    {
      flags[pos] := true;
      pos := pos + 1;
    }
  }

  /** Mark the three permanent regions and what the mode adds; a bad reference stops with an error. */
  method MarkSelected(selected: array<bool>, q: Query) returns (ok: bool)
    requires selected.Length == Max(0, q.kvLen) && !q.mode.Unknown?
    requires forall p :: 0 <= p < selected.Length ==> !selected[p]
    modifies selected
    ensures ok <==> (q.mode.Focus? ==> RefsInRange(q.refs, |q.layout.segmentSpans|))
    ensures ok ==> forall p :: 0 <= p < selected.Length ==> (selected[p] <==> Semantic(q, p))
  {
    Mark(selected, q.layout.sink);
    Mark(selected, q.layout.localWindow);
    Mark(selected, Span(q.layout.promptLen, q.kvLen));
    if q.mode.Global? {
      Mark(selected, Span(0, q.kvLen));
    } else if q.mode.Focus? {
      ghost var base := selected[..];
      for i := 0 to |q.refs|
        invariant forall j :: 0 <= j < i ==> 1 <= q.refs[j] <= |q.layout.segmentSpans|
        invariant forall p :: 0 <= p < selected.Length ==>
          (selected[p] <==> base[p] || DeclaredUpTo(q, i, p))
      {
        if !(1 <= q.refs[i] <= |q.layout.segmentSpans|) {
          assert q.refs[i] in q.refs;
          return false;
        }
        Mark(selected, q.layout.segmentSpans[q.refs[i] - 1]);
      }
      forall p | 0 <= p < selected.Length ensures DeclaredUpTo(q, |q.refs|, p) <==> Declared(q, p) {
        AllDeclared(q, p);
      }
    }
    return true;
  }

  predicate DeclaredUpTo(q: Query, n: nat, p: int)
    requires n <= |q.refs|
  {
    exists i :: 0 <= i < n && 1 <= q.refs[i] <= |q.layout.segmentSpans|
      && In(q.layout.segmentSpans[q.refs[i] - 1], p)
  }

  lemma AllDeclared(q: Query, p: int)
    ensures DeclaredUpTo(q, |q.refs|, p) <==> Declared(q, p)
  {
    if Declared(q, p) {
      var r :| r in q.refs && 1 <= r <= |q.layout.segmentSpans| && In(q.layout.segmentSpans[r - 1], p);
      var i :| 0 <= i < |q.refs| && q.refs[i] == r;
    }
    if DeclaredUpTo(q, |q.refs|, p) {
      var i :| 0 <= i < |q.refs| && 1 <= q.refs[i] <= |q.layout.segmentSpans|
        && In(q.layout.segmentSpans[q.refs[i] - 1], p);
      assert q.refs[i] in q.refs;
    }
  }

  /** reference_visible_mask: position p is true exactly when it is visible. */
  method VisibleMask(q: Query) returns (r: Result<seq<bool>>)
    ensures r.Err? <==> q.block <= 0 || q.mode.Unknown?
                        || (q.mode.Focus? && !RefsInRange(q.refs, |q.layout.segmentSpans|))
    ensures r.Err? ==> r.error == if q.block <= 0 || q.mode.Unknown? then ValueError else ReadViewError
    ensures r.Ok? ==> |r.value| == Max(0, q.kvLen)
    ensures r.Ok? ==> forall p :: 0 <= p < |r.value| ==> (r.value[p] <==> Visible(q, p))
  {
    if q.block <= 0 || q.mode.Unknown? { return Err(ValueError); }
    var n := Max(0, q.kvLen);
    var selected := new bool[n](_ => false);
    var ok := MarkSelected(selected, q);
    if !ok { return Err(ReadViewError); }
    var visible := new bool[n](_ => false);
    for pos := 0 to n
      invariant forall p :: 0 <= p < n ==> (selected[p] <==> Semantic(q, p))
      invariant forall p :: 0 <= p < n ==> (visible[p] <==> BlockMarked(q, pos, p))
    {
      if selected[pos] {
        var start := (pos / q.block) * q.block;
        ghost var before := visible[..];
        Mark(visible, Span(start, start + q.block));
        forall p | 0 <= p < n ensures visible[p] <==> BlockMarked(q, pos + 1, p) {
          assert before[p] <==> BlockMarked(q, pos, p);
          SameBlockWindow(q, pos, p);
        }
      }
    }
    forall p | 0 <= p < n ensures visible[p] <==> Visible(q, p) { MarkedIsVisible(q, p); }
    return Ok(visible[..]);
  }

  /** Some semantic position before `n` shares p's block. */
  ghost predicate BlockMarked(q: Query, n: nat, p: int)
    requires q.block > 0
  {
    exists s :: 0 <= s < n && Semantic(q, s) && s / q.block == p / q.block
  }

  lemma SameBlockWindow(q: Query, pos: nat, p: int)
    requires q.block > 0 && Semantic(q, pos)
    ensures BlockMarked(q, pos + 1, p)
       <==> BlockMarked(q, pos, p) || In(Span((pos / q.block) * q.block, (pos / q.block) * q.block + q.block), p)
  {
    DivBounds(p, q.block);
    var k := pos / q.block;
    if k * q.block <= p < k * q.block + q.block { DivUnique(p, q.block, k); }
  }

  lemma MarkedIsVisible(q: Query, p: int)
    requires q.block > 0 && 0 <= p < q.kvLen
    ensures BlockMarked(q, q.kvLen, p) <==> Visible(q, p)
  {
    if BlockMarked(q, q.kvLen, p) {
      var s :| 0 <= s < q.kvLen && Semantic(q, s) && s / q.block == p / q.block;
      assert s in SemanticSet(q);
    }
  }

  /** The indices of the true entries. */
  function TrueIndices(mask: seq<bool>): (r: seq<int>)
    ensures Ascending(r)
    ensures forall p :: p in r <==> 0 <= p < |mask| && mask[p]
  {
    if mask == [] then []
    else
      var n := |mask| - 1;
      var r := TrueIndices(mask[..n]);
      assert forall i :: 0 <= i < |r| ==> r[i] in r;
      if mask[n] then r + [n] else r
  }

  /** reference_visible_positions */
  method VisiblePositions(q: Query) returns (r: Result<seq<int>>)
    ensures r.Err? <==> q.block <= 0 || q.mode.Unknown?
                        || (q.mode.Focus? && !RefsInRange(q.refs, |q.layout.segmentSpans|))
    ensures r.Ok? ==> r.value == Positions(q)
  {
    var mask := VisibleMask(q);
    if mask.Err? { return Err(mask.error); }
    ListsSet(TrueIndices(mask.value), VisibleSet(q));
    return Ok(TrueIndices(mask.value));
  }
}
