/** Half-open position intervals, what a list of them covers, and their normal form. */
module Spans {
  import opened Basics

  datatype Span = Span(lo: int, hi: int)

  predicate In(s: Span, p: int) { s.lo <= p < s.hi }

  ghost predicate Covered(spans: seq<Span>, p: int) {
    exists s :: s in spans && In(s, p)
  }

  /** Nonempty, ascending, and never touching: the form every position set has exactly once. */
  ghost predicate Normal(spans: seq<Span>) {
    && (forall i :: 0 <= i < |spans| ==> spans[i].lo < spans[i].hi)
    && Separated(spans)
  }

  ghost predicate Separated(spans: seq<Span>) {
    forall i, j :: 0 <= i < j < |spans| ==> spans[i].hi < spans[j].lo
  }

  lemma CoveredTail(spans: seq<Span>, p: int)
    requires spans != []
    ensures Covered(spans, p) <==> In(spans[0], p) || Covered(spans[1..], p)
  {
    if Covered(spans, p) {
      var s :| s in spans && In(s, p);
      assert s == spans[0] || s in spans[1..];
    }
  }

  lemma CoveredInit(spans: seq<Span>, s: Span, p: int)
    ensures Covered(spans + [s], p) <==> Covered(spans, p) || In(s, p)
  {
    if Covered(spans, p) {
      var t :| t in spans && In(t, p);
      assert t in spans + [s];
    }
    if In(s, p) { assert s in spans + [s]; }
  }

  /** In normal form everything covered after the first span lies beyond a gap. */
  lemma BeyondGap(spans: seq<Span>, p: int)
    requires Normal(spans) && spans != []
    ensures Covered(spans[1..], p) ==> p > spans[0].hi
    ensures Covered(spans, p) ==> p >= spans[0].lo
    ensures Covered(spans, spans[0].lo) && Covered(spans, spans[0].hi - 1)
    ensures !Covered(spans, spans[0].hi)
    ensures Normal(spans[1..])
  {
    assert spans[0] in spans && In(spans[0], spans[0].lo) && In(spans[0], spans[0].hi - 1);
    forall s | s in spans[1..] ensures s.lo > spans[0].hi && s.lo < s.hi {
      var i :| 0 <= i < |spans[1..]| && spans[1..][i] == s;
      assert spans[i + 1] == s;
    }
    CoveredTail(spans, p);
    CoveredTail(spans, spans[0].hi);
  }

  /** Two normal span lists covering the same positions are the same list. */
  lemma {:induction false} NormalUnique(a: seq<Span>, b: seq<Span>)
    requires Normal(a) && Normal(b)
    requires forall p :: Covered(a, p) <==> Covered(b, p)
    ensures a == b
  {
    if a == [] {
      if b != [] { BeyondGap(b, b[0].lo); }
    } else if b == [] {
      BeyondGap(a, a[0].lo);
    } else {
      BeyondGap(a, b[0].lo);
      BeyondGap(b, a[0].lo);
      assert a[0].lo == b[0].lo;
      FirstEnd(a, b);
      FirstEnd(b, a);
      assert a[0] == b[0];
      forall p ensures Covered(a[1..], p) <==> Covered(b[1..], p) {
        CoveredTail(a, p);
        CoveredTail(b, p);
        BeyondGap(a, p);
        BeyondGap(b, p);
      }
      NormalUnique(a[1..], b[1..]);
      assert a == [a[0]] + a[1..] && b == [b[0]] + b[1..];
    }
  }

  lemma FirstEnd(a: seq<Span>, b: seq<Span>)
    requires Normal(a) && Normal(b) && a != [] && b != [] && a[0].lo == b[0].lo
    requires forall p :: Covered(a, p) <==> Covered(b, p)
    ensures a[0].hi <= b[0].hi
  {
    BeyondGap(b, b[0].lo);
    FirstCovers(a, b[0].hi);
    assert !Covered(a, b[0].hi);
  }

  lemma FirstCovers(spans: seq<Span>, p: int)
    requires spans != []
    ensures In(spans[0], p) ==> Covered(spans, p)
  {
    assert spans[0] in spans;
  }

  // ---------------------------------------------------------------------------
  // The positions of a span list, and back
  // ---------------------------------------------------------------------------

  /** range(lo, hi) */
  function Range(lo: int, hi: int): (r: seq<int>)
    ensures forall i :: 0 <= i < |r| ==> r[i] == lo + i
    ensures Ascending(r)
    ensures forall p :: p in r <==> lo <= p < hi
    ensures |r| == if lo < hi then hi - lo else 0
    decreases hi - lo
  {
    if lo >= hi then [] else Range(lo, hi - 1) + [hi - 1]
  }

  /** The concatenation of the spans' ranges. */
  function PositionsOf(spans: seq<Span>): seq<int> {
    if spans == [] then []
    else PositionsOf(spans[..|spans| - 1]) + Range(spans[|spans| - 1].lo, spans[|spans| - 1].hi)
  }

  lemma {:induction false} PositionsCovered(spans: seq<Span>, p: int)
    ensures p in PositionsOf(spans) <==> Covered(spans, p)
  {
    if spans != [] {
      var init, last := spans[..|spans| - 1], spans[|spans| - 1];
      PositionsCovered(init, p);
      CoveredInit(init, last, p);
      assert spans == init + [last];
    }
  }

  lemma {:induction false} PositionsAscend(spans: seq<Span>)
    requires Normal(spans)
    ensures Ascending(PositionsOf(spans))
  {
    if spans != [] {
      var init, last := spans[..|spans| - 1], spans[|spans| - 1];
      PositionsAscend(init);
      forall p | p in PositionsOf(init) ensures p < last.lo {
        PositionsCovered(init, p);
        var s :| s in init && In(s, p);
        var i :| 0 <= i < |init| && init[i] == s;
        assert spans[i] == s;
      }
      var a, r := PositionsOf(init), Range(last.lo, last.hi);
      forall i, j | 0 <= i < j < |a + r| ensures (a + r)[i] < (a + r)[j] {
        if i < |a| <= j { assert a[i] in a && r[j - |a|] in r; }
      }
    }
  }

  /** The maximal runs of consecutive values of an ascending list. */
  function RunsOf(ps: seq<int>): (r: seq<Span>)
    ensures forall i :: 0 <= i < |r| ==> r[i].lo < r[i].hi
    ensures ps != [] ==> r != [] && r[|r| - 1].hi == ps[|ps| - 1] + 1
  {
    if ps == [] then []
    else
      var r, p := RunsOf(ps[..|ps| - 1]), ps[|ps| - 1];
      if r != [] && r[|r| - 1].hi == p
      then r[..|r| - 1] + [Span(r[|r| - 1].lo, p + 1)]
      else r + [Span(p, p + 1)]
  }

  lemma {:induction false} RunsNormal(ps: seq<int>)
    requires Ascending(ps)
    ensures Separated(RunsOf(ps))
  {
    if |ps| > 1 {
      var init := ps[..|ps| - 1];
      RunsNormal(init);
      assert ps[|ps| - 2] < ps[|ps| - 1];
      AppendRun(RunsOf(init), ps[|ps| - 1]);
    }
  }

  lemma AppendRun(r: seq<Span>, p: int)
    requires Normal(r) && r != [] && r[|r| - 1].hi <= p
    ensures Separated(r[..|r| - 1] + [Span(r[|r| - 1].lo, p + 1)])
    ensures r[|r| - 1].hi < p ==> Separated(r + [Span(p, p + 1)])
  {
  }

  lemma {:induction false} RunsCover(ps: seq<int>, q: int)
    ensures Covered(RunsOf(ps), q) <==> q in ps
  {
    if ps != [] {
      var init, p := ps[..|ps| - 1], ps[|ps| - 1];
      RunsCover(init, q);
      assert ps == init + [p];
      AddedRun(RunsOf(init), p, q);
    }
  }

  lemma AddedRun(r: seq<Span>, p: int, q: int)
    requires forall i :: 0 <= i < |r| ==> r[i].lo < r[i].hi
    ensures Covered(r + [Span(p, p + 1)], q) <==> Covered(r, q) || q == p
    ensures r != [] && r[|r| - 1].hi == p ==>
              (Covered(r[..|r| - 1] + [Span(r[|r| - 1].lo, p + 1)], q) <==> Covered(r, q) || q == p)
  {
    CoveredInit(r, Span(p, p + 1), q);
    if r != [] && r[|r| - 1].hi == p {
      var short, last := r[..|r| - 1], r[|r| - 1];
      assert r == short + [last];
      CoveredInit(short, last, q);
      CoveredInit(short, Span(last.lo, p + 1), q);
    }
  }

  /** A normal span list is the runs of the positions it covers. */
  lemma NormalIsRuns(spans: seq<Span>, s: set<int>)
    requires Normal(spans)
    requires forall p :: Covered(spans, p) <==> p in s
    ensures spans == RunsOf(SortedInts(s))
    ensures PositionsOf(spans) == SortedInts(s)
  {
    RunsNormal(SortedInts(s));
    forall p ensures Covered(spans, p) <==> Covered(RunsOf(SortedInts(s)), p) { RunsCover(SortedInts(s), p); }
    NormalUnique(spans, RunsOf(SortedInts(s)));
    PositionsAscend(spans);
    forall p ensures p in PositionsOf(spans) <==> p in s { PositionsCovered(spans, p); }
    ListsSet(PositionsOf(spans), s);
  }

  /** The runs of a set, and back. */
  lemma RunsList(s: set<int>)
    ensures Normal(RunsOf(SortedInts(s))) && forall p :: Covered(RunsOf(SortedInts(s)), p) <==> p in s
    ensures PositionsOf(RunsOf(SortedInts(s))) == SortedInts(s)
  {
    RunsNormal(SortedInts(s));
    hide Normal, RunsOf, SortedInts, Covered;
    forall p ensures Covered(RunsOf(SortedInts(s)), p) <==> p in s { RunsCover(SortedInts(s), p); }
    NormalIsRuns(RunsOf(SortedInts(s)), s);
  }

  // ---------------------------------------------------------------------------
  // How much of a window the spans cover, span by span
  // ---------------------------------------------------------------------------

  function Overlap(s: Span, lo: int, hi: int): int {
    var l := if s.lo > lo then s.lo else lo;
    var h := if s.hi < hi then s.hi else hi;
    if h > l then h - l else 0
  }

  function CoveredIn(spans: seq<Span>, lo: int, hi: int): (r: int)
    ensures r >= 0
  {
    if spans == [] then 0
    else CoveredIn(spans[..|spans| - 1], lo, hi) + Overlap(spans[|spans| - 1], lo, hi)
  }

  /** A fully covered window is counted once: it lies inside a single span of a normal list. */
  lemma {:induction false} FullWindow(spans: seq<Span>, lo: int, hi: int)
    requires Normal(spans) && lo < hi
    requires forall p :: lo <= p < hi ==> Covered(spans, p)
    ensures CoveredIn(spans, lo, hi) == hi - lo
  {
    assert Covered(spans, lo);
    var init, last := spans[..|spans| - 1], spans[|spans| - 1];
    assert spans == init + [last];
    if In(last, lo) {
      EmptyWindow(init, lo, hi, last.lo);
      if last.hi < hi { NothingAfter(spans, last.hi); }
    } else {
      StaysBefore(spans, lo, hi - 1);
      forall p | lo <= p < hi ensures Covered(init, p) {
        StaysBefore(spans, lo, p);
        CoveredInit(init, last, p);
      }
      FullWindow(init, lo, hi);
    }
  }

  lemma NothingAfter(spans: seq<Span>, p: int)
    requires Normal(spans) && spans != [] && p >= spans[|spans| - 1].hi
    ensures !Covered(spans, p)
  {
    forall s | s in spans ensures !In(s, p) {
      var i :| 0 <= i < |spans| && spans[i] == s;
    }
  }

  lemma {:induction false} EmptyWindow(spans: seq<Span>, lo: int, hi: int, bound: int)
    requires forall i :: 0 <= i < |spans| ==> spans[i].hi < bound
    requires bound <= lo
    ensures CoveredIn(spans, lo, hi) == 0
  {
    if spans != [] { EmptyWindow(spans[..|spans| - 1], lo, hi, bound); }
  }

  /** From an uncovered-by-last start, a covered stretch never reaches the last span. */
  lemma {:induction false} StaysBefore(spans: seq<Span>, lo: int, p: int)
    requires Normal(spans) && spans != [] && lo <= p
    requires !In(spans[|spans| - 1], lo)
    requires forall q :: lo <= q <= p ==> Covered(spans, q)
    ensures p < spans[|spans| - 1].lo
    decreases p - lo
  {
    var last := spans[|spans| - 1];
    if lo >= last.hi {
      assert Covered(spans, lo);
      NothingAfter(spans, lo);
    } else if p >= last.lo {
      assert lo <= last.lo - 1 <= p;
      GapBeforeLast(spans);
      assert false;
    }
  }

  lemma GapBeforeLast(spans: seq<Span>)
    requires Normal(spans) && spans != []
    ensures !Covered(spans, spans[|spans| - 1].lo - 1)
  {
    forall s | s in spans ensures !In(s, spans[|spans| - 1].lo - 1) {
      var i :| 0 <= i < |spans| && spans[i] == s;
    }
  }
}
