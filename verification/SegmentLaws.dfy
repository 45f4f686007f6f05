/** Where a text is cut and what its segments say, in terms of characters and token counts. */
module SegmentLaws {
  import opened Basics
  import opened Spans
  import opened Text
  import opened Offsets
  import opened Delimiters
  import opened Segmenter

  // ---------------------------------------------------------------------------
  // Places and levels
  // ---------------------------------------------------------------------------

  /** Inside the span, with tokens on both sides. */
  predicate Usable(job: Job, start: int, end: int, at: int) {
    start < at < end && job.index.CountOverlapping(start, at) > 0 && job.index.CountOverlapping(at, end) > 0
  }

  /** The characters around `at` mark a place of the level: behind the second newline of a blank line,
      behind a newline, between sentence or clause punctuation and white space, or where white space
      begins or ends. */
  ghost predicate Marks(level: Level, text: string, start: nat, at: int)
    requires start < at < |text|
  {
    match level
    case BlankLine => Paired(text, start, at - 1)
    case Newline => text[at - 1] == '\n'
    case Sentence => text[at - 1] in ".!?" && IsSpace(text[at])
    case Clause => text[at - 1] in ";:," && IsSpace(text[at])
    case Whitespace => IsSpace(text[at - 1]) != IsSpace(text[at])
  }

  ghost predicate Place(job: Job, start: int, end: int, level: Level, at: int)
    requires InText(job, start, end)
  {
    Usable(job, start, end, at) && Marks(level, job.text, start, at)
  }

  ghost predicate Offers(job: Job, start: int, end: int, level: Level)
    requires InText(job, start, end)
  {
    exists at :: Place(job, start, end, level, at)
  }

  /** Behind the delimiter; only white space also offers the place in front of it. */
  predicate Behind(level: Level, text: string, at: int)
    requires 0 < at <= |text|
  {
    level != Whitespace || IsSpace(text[at - 1])
  }

  /** Of two places, the first comes closer to the target; then behind the delimiter, then further left. */
  predicate Nearer(job: Job, level: Level, n: int, at: int, m: int, other: int)
    requires 0 < at <= |job.text| && 0 < other <= |job.text|
  {
    var d, e := if n < job.target then job.target - n else n - job.target,
                if m < job.target then job.target - m else m - job.target;
    var front, back := Behind(level, job.text, at), Behind(level, job.text, other);
    d < e || (d == e && ((front && !back) || (front == back && at <= other)))
  }

  /** Left sides within the cap come first, nearest the target on the left; then right sides within the
      cap, nearest on the right; then whatever is nearest on the left. */
  predicate Outranks(job: Job, start: int, end: int, level: Level, at: int, other: int)
    requires 0 < at <= |job.text| && 0 < other <= |job.text|
  {
    var l, r := job.index.CountOverlapping(start, at), job.index.CountOverlapping(at, end);
    var l', r' := job.index.CountOverlapping(start, other), job.index.CountOverlapping(other, end);
    if l <= job.cap then l' <= job.cap ==> Nearer(job, level, l, at, l', other)
    else if r <= job.cap then l' > job.cap && (r' <= job.cap ==> Nearer(job, level, r, at, r', other))
    else l' > job.cap && r' > job.cap && Nearer(job, level, l, at, l', other)
  }

  /** The level's cut outranks every other place of the level. */
  ghost predicate LevelCut(job: Job, start: int, end: int, level: Level, at: int)
    requires InText(job, start, end)
  {
    && Place(job, start, end, level, at)
    && forall other :: Place(job, start, end, level, other) ==> Outranks(job, start, end, level, at, other)
  }

  /** The span's cut: the best place of the coarsest level that offers any. */
  ghost predicate SpanCut(job: Job, start: int, end: int, at: int)
    requires InText(job, start, end)
  {
    if Offers(job, start, end, BlankLine) then LevelCut(job, start, end, BlankLine, at)
    else if Offers(job, start, end, Newline) then LevelCut(job, start, end, Newline, at)
    else if Offers(job, start, end, Sentence) then LevelCut(job, start, end, Sentence, at)
    else if Offers(job, start, end, Clause) then LevelCut(job, start, end, Clause, at)
    else LevelCut(job, start, end, Whitespace, at)
  }

  ghost predicate NoPlace(job: Job, start: int, end: int)
    requires InText(job, start, end)
  {
    && !Offers(job, start, end, BlankLine) && !Offers(job, start, end, Newline) && !Offers(job, start, end, Sentence)
    && !Offers(job, start, end, Clause) && !Offers(job, start, end, Whitespace)
  }

  /** A newline ends a blank line exactly when the newline before it, with only spaces and tabs between
      them, does not end one itself. */
  lemma BlankLineEnds(text: string, from: nat, j: int)
    requires from <= j < |text|
    ensures Paired(text, from, j) <==>
      text[j] == '\n' && exists i :: from <= i < j && OnlyBlanksBetween(text, i, j) && !Paired(text, from, i)
  {
    var b := BackOverBlanks(text, from, j - 1);
    forall i | from <= i < j && OnlyBlanksBetween(text, i, j) ensures i == b { NewlineBefore(text, from, i, j, b); }
    if b >= from && text[b] == '\n' { assert OnlyBlanksBetween(text, b, j); }
  }

  /** The newline at i is followed by spaces and tabs up to j. */
  predicate OnlyBlanksBetween(text: string, i: int, j: int)
    requires 0 <= i < j < |text|
  {
    text[i] == '\n' && forall k :: i < k < j ==> text[k] == ' ' || text[k] == '\t'
  }

  lemma NewlineBefore(text: string, from: nat, i: int, j: int, b: int)
    requires from <= i < j < |text| && OnlyBlanksBetween(text, i, j) && b == BackOverBlanks(text, from, j - 1)
    ensures i == b
  {
  }

  // ---------------------------------------------------------------------------
  // The scan finds these places
  // ---------------------------------------------------------------------------

  /** The candidate a place stands for. */
  ghost function CutOf(level: Level, text: string, at: int): Cut
    requires 0 < at <= |text|
  {
    Cut(at, if Behind(level, text, at) then 0 else 1)
  }

  lemma CutsArePlaces(job: Job, start: int, end: int, level: Level, c: Cut)
    requires InText(job, start, end)
    ensures c in CutsAt(job, level, start, end) && Viable(job, start, end, c)
       <==> Place(job, start, end, level, c.at) && c == CutOf(level, job.text, c.at)
  {
    hide Cuts, ChainPlace;
    if level == BlankLine {
      BlankLineCutsExact(job.text, start, end, c);
    } else {
      CutsExact(level, job.text, start, end, c);
    }
  }

  lemma BestIsLevelCut(job: Job, start: int, end: int, level: Level, c: Cut)
    requires InText(job, start, end) && Best(job, start, end, CutsAt(job, level, start, end), c)
    ensures LevelCut(job, start, end, level, c.at)
  {
    hide Place, Behind, CutsAt, CutOf, Preferred, Outranks, Viable;
    var cuts := CutsAt(job, level, start, end);
    CutsArePlaces(job, start, end, level, c);
    PlaceInText(job, start, end, level, c.at);
    forall other | Place(job, start, end, level, other)
      ensures 0 < other <= |job.text| && Outranks(job, start, end, level, c.at, other) {
      PlaceInText(job, start, end, level, other);
      var d := CutOf(level, job.text, other);
      assert d.at == other by { CutAt(level, job.text, other); }
      CutsArePlaces(job, start, end, level, d);
      PreferredOutranks(job, start, end, level, c, d);
    }
  }

  lemma CutAt(level: Level, text: string, at: int)
    requires 0 < at <= |text|
    ensures CutOf(level, text, at).at == at
  {
  }

  lemma PreferredOutranks(job: Job, start: int, end: int, level: Level, c: Cut, d: Cut)
    requires 0 < c.at <= |job.text| && 0 < d.at <= |job.text|
    requires c == CutOf(level, job.text, c.at) && d == CutOf(level, job.text, d.at)
    requires d == c || Preferred(job, start, end, c, d)
    ensures Outranks(job, start, end, level, c.at, d.at)
  {
    hide Behind;
  }

  lemma PlaceInText(job: Job, start: int, end: int, level: Level, at: int)
    requires InText(job, start, end) && Place(job, start, end, level, at)
    ensures start < at < end
  {
  }

  lemma NoneViableIsNoOffer(job: Job, start: int, end: int, level: Level)
    requires InText(job, start, end)
    ensures NoneViable(job, start, end, CutsAt(job, level, start, end)) <==> !Offers(job, start, end, level)
  {
    hide Cuts, Behind, Marks;
    var cuts := CutsAt(job, level, start, end);
    if at :| Place(job, start, end, level, at) {
      CutsArePlaces(job, start, end, level, CutOf(level, job.text, at));
    }
    if !NoneViable(job, start, end, cuts) {
      var d :| d in cuts && Viable(job, start, end, d);
      CutsArePlaces(job, start, end, level, d);
    }
  }

  lemma ChosenIsSpanCut(job: Job, start: int, end: int, i: int, c: Cut)
    requires InText(job, start, end) && Chosen(job, start, end, i, c)
    ensures SpanCut(job, start, end, c.at) && !NoPlace(job, start, end)
  {
    hide CutsAt, Best, NoneViable, Place;
    BestIsLevelCut(job, start, end, LEVELS[i], c);
    assert Place(job, start, end, LEVELS[i], c.at);
    forall k | 0 <= k < i ensures !Offers(job, start, end, LEVELS[k]) {
      NoneViableIsNoOffer(job, start, end, LEVELS[k]);
    }
    assert LEVELS[0] == BlankLine && LEVELS[1] == Newline && LEVELS[2] == Sentence && LEVELS[3] == Clause;
    assert LEVELS[4] == Whitespace;
  }

  lemma UncuttableIsNoPlace(job: Job, start: int, end: int)
    requires InText(job, start, end)
    ensures Uncuttable(job, start, end) <==> NoPlace(job, start, end)
  {
    hide CutsAt, NoneViable, Offers;
    forall k | 0 <= k < |LEVELS|
      ensures NoneViable(job, start, end, CutsAt(job, LEVELS[k], start, end)) <==> !Offers(job, start, end, LEVELS[k])
    {
      NoneViableIsNoOffer(job, start, end, LEVELS[k]);
    }
    assert LEVELS[0] == BlankLine && LEVELS[1] == Newline && LEVELS[2] == Sentence && LEVELS[3] == Clause;
    assert LEVELS[4] == Whitespace;
  }

  lemma LevelCutUnique(job: Job, start: int, end: int, level: Level, at: int, other: int)
    requires InText(job, start, end)
    requires LevelCut(job, start, end, level, at) && LevelCut(job, start, end, level, other)
    ensures at == other
  {
    hide Place, Behind;
    PlaceInText(job, start, end, level, at);
    PlaceInText(job, start, end, level, other);
    assert Outranks(job, start, end, level, at, other) && Outranks(job, start, end, level, other, at);
  }

  /** A span has at most one cut. */
  lemma SpanCutUnique(job: Job, start: int, end: int, at: int, other: int)
    requires InText(job, start, end) && SpanCut(job, start, end, at) && SpanCut(job, start, end, other)
    ensures at == other
  {
    hide LevelCut, Offers;
    var level := if Offers(job, start, end, BlankLine) then BlankLine
                 else if Offers(job, start, end, Newline) then Newline
                 else if Offers(job, start, end, Sentence) then Sentence
                 else if Offers(job, start, end, Clause) then Clause else Whitespace;
    LevelCutUnique(job, start, end, level, at, other);
  }

  // ---------------------------------------------------------------------------
  // The cut, the pieces, the segments
  // ---------------------------------------------------------------------------

  /** The cut that is found is the span's cut, and none is found exactly where no level has a place. */
  method CutPlace(job: Job, start: int, end: int) returns (found: Option<Cut>)
    requires InText(job, start, end)
    ensures found.None? <==> NoPlace(job, start, end)
    ensures found.Some? ==> SpanCut(job, start, end, found.value.at)
  {
    hide Chosen, Uncuttable, NoPlace, SpanCut;
    found := FindCut(job, start, end);
    UncuttableIsNoPlace(job, start, end);
    if found.Some? {
      ghost var i :| Chosen(job, start, end, i, found.value);
      ChosenIsSpanCut(job, start, end, i, found.value);
    }
  }

  /** A span within the cap stays whole, a longer one is cut at its cut, and one without any stays whole
      and is marked. */
  lemma PiecesFollowCuts(job: Job, start: int, end: int)
    requires InText(job, start, end)
    ensures job.index.CountOverlapping(start, end) <= job.cap ==> Pieces(job, start, end) == [Piece(start, end, false)]
    ensures job.index.CountOverlapping(start, end) > job.cap && NoPlace(job, start, end) ==>
      Pieces(job, start, end) == [Piece(start, end, true)]
    ensures job.index.CountOverlapping(start, end) > job.cap && !NoPlace(job, start, end) ==>
      exists at :: start < at < end && SpanCut(job, start, end, at) &&
        Pieces(job, start, end) == Pieces(job, start, at) + Pieces(job, at, end)
  {
    hide Chosen, Uncuttable, NoPlace, SpanCut;
    UncuttableIsNoPlace(job, start, end);
    if Size(job, start, end) > job.cap {
      if i, c :| Chosen(job, start, end, i, c) {
        ChosenIsSpanCut(job, start, end, i, c);
        PiecesSplit(job, start, end, i, c);
        ChosenInside(job, start, end, i, c);
      } else {
        NothingChosen(job, start, end);
        PiecesWhole(job, start, end);
      }
    }
  }

  lemma ChosenInside(job: Job, start: int, end: int, i: int, c: Cut)
    requires InText(job, start, end) && Chosen(job, start, end, i, c)
    ensures start < c.at < end
  {
  }

  /** How many tokens meet start..end, and how many lie inside it. */
  function Meeting(offsets: seq<Span>, start: int, end: int): nat {
    |set i | 0 <= i < |offsets| && offsets[i].lo < end && start < offsets[i].hi|
  }

  function Within(offsets: seq<Span>, start: int, end: int): nat {
    |set i | 0 <= i < |offsets| && start <= offsets[i].lo && offsets[i].hi <= end|
  }

  /** A cut edge inside the text at which no token starts or ends. */
  predicate SplitsToken(text: string, offsets: seq<Span>, edge: int) {
    0 < edge < |text| && forall i :: 0 <= i < |offsets| ==> offsets[i].lo != edge && offsets[i].hi != edge
  }

  /** What any tokenizer delivers. */
  predicate Orderly(offsets: seq<Span>) {
    && (forall i :: 0 <= i < |offsets| ==> offsets[i].lo <= offsets[i].hi)
    && forall i, j :: 0 <= i < j < |offsets| ==> offsets[i].lo <= offsets[j].lo && offsets[i].hi <= offsets[j].hi
  }

  /** Segment k of a text over its tokens, from its own bounds. */
  ghost predicate Tells(job: Job, offsets: seq<Span>, s: Segment, k: int) {
    && s.index == k + 1 && !s.placeholder
    && 0 <= s.start < s.end <= |job.text| && s.text == job.text[s.start..s.end]
    && s.tokens == Meeting(offsets, s.start, s.end) && s.contained == Within(offsets, s.start, s.end)
    && s.cutMidToken == (SplitsToken(job.text, offsets, s.start) || SplitsToken(job.text, offsets, s.end))
    && s.overCap == (s.tokens > job.cap)
    && s.uncuttable == (s.tokens > job.cap && NoPlace(job, s.start, s.end)) && (s.overCap ==> s.uncuttable)
  }

  lemma OrderlyAccepted(offsets: seq<Span>)
    requires Orderly(offsets)
    ensures Build(offsets).Ok? && Accepted(Build(offsets).value)
    ensures forall x :: InOrderAt(Build(offsets).value.starts, x)
  {
    BuildExact(offsets);
    BuiltSorted(offsets);
  }

  /** An orderly token list is accepted, and its fast counts are the plain ones. */
  lemma OrderlyCounts(offsets: seq<Span>, start: int, end: int)
    requires Orderly(offsets) && start < end
    ensures Build(offsets).Ok?
    ensures Build(offsets).value.CountOverlapping(start, end) == Meeting(offsets, start, end)
    ensures Build(offsets).value.Count(start, end) == Within(offsets, start, end)
  {
    OrderlyAccepted(offsets);
    hide Orderly, Accepted, InOrderAt;
    var ix := Build(offsets).value;
    OverlapCountExact(ix, start, end);
    InsideCountExact(ix, start, end);
    assert OverlapSet(ix, start, end) == set i | 0 <= i < |offsets| && offsets[i].lo < end && start < offsets[i].hi;
    assert InsideSet(ix, start, end) == set i | 0 <= i < |offsets| && start <= offsets[i].lo && offsets[i].hi <= end;
  }

  lemma MidTokenSpelled(text: string, offsets: seq<Span>, job: Job, edge: int)
    requires Build(offsets).Ok? && job.text == text && job.index == Build(offsets).value
    ensures MidToken(job, edge) <==> SplitsToken(text, offsets, edge)
  {
    var ix := job.index;
    forall i | 0 <= i < |offsets| ensures offsets[i].lo == ix.starts[i] && offsets[i].hi == ix.ends[i] { }
    if edge in ix.starts {
      var i :| 0 <= i < |ix.starts| && ix.starts[i] == edge;
      assert offsets[i].lo == edge;
    }
    if edge in ix.ends {
      var i :| 0 <= i < |ix.ends| && ix.ends[i] == edge;
      assert offsets[i].hi == edge;
    }
  }

  lemma SegmentTells(job: Job, offsets: seq<Span>, p: Piece, k: int)
    requires Orderly(offsets) && Build(offsets).Ok? && job.index == Build(offsets).value
    requires Justified(job, p) && p.lo < p.hi
    ensures Tells(job, offsets, SegmentOf(job, p, k + 1), k)
  {
    hide NoPlace, Uncuttable, MidToken, SplitsToken, Within, Meeting;
    OrderlyCounts(offsets, p.lo, p.hi);
    hide Build, Orderly;
    MidTokenSpelled(job.text, offsets, job, p.lo);
    MidTokenSpelled(job.text, offsets, job, p.hi);
    UncuttableIsNoPlace(job, p.lo, p.hi);
  }

  /** Segments run from 0 to the end of the text without a gap and tell the truth about themselves; a
      blank text is one placeholder. */
  method Segments(text: string, offsets: seq<Span>, target: int, cap: int) returns (segments: seq<Segment>)
    requires Orderly(offsets)
    ensures Build(offsets).Ok?
    ensures (forall i :: 0 <= i < |text| ==> IsSpace(text[i])) ==>
      var contained := if text == "" then 0 else Within(offsets, 0, |text|);
      segments == [Segment(1, "<empty_context>", 0, |text|, contained, 0, true, false, false, false)]
    ensures !(forall i :: 0 <= i < |text| ==> IsSpace(text[i])) ==>
      && segments != [] && segments[0].start == 0 && segments[|segments| - 1].end == |text|
      && (forall k :: 0 <= k < |segments| - 1 ==> segments[k].end == segments[k + 1].start)
      && var job := Job(text, Build(offsets).value, target, cap);
         forall k :: 0 <= k < |segments| ==> Tells(job, offsets, segments[k], k)
  {
    OrderlyAccepted(offsets);
    hide Build, Orderly, Tells, AllJustified, Within, Pieces, Renders, Tiles, Join, CapRespected, InOrderAt, Accepted;
    var job := Job(text, Build(offsets).value, target, cap);
    var r := SegmentContext(job);
    segments := r.value;
    if BlankText(text) {
      if text != "" { OrderlyCounts(offsets, 0, |text|); }
    } else {
      PiecesPartition(job, 0, |text|);
      SegmentsTell(job, offsets, segments, Pieces(job, 0, |text|));
    }
  }

  lemma SegmentsTell(job: Job, offsets: seq<Span>, segments: seq<Segment>, ps: seq<Piece>)
    requires Orderly(offsets) && Build(offsets).Ok? && job.index == Build(offsets).value
    requires Renders(job, segments, ps) && AllJustified(job, ps) && Tiles(ps, 0, |job.text|)
    ensures segments != [] && segments[0].start == 0 && segments[|segments| - 1].end == |job.text|
    ensures forall k :: 0 <= k < |segments| - 1 ==> segments[k].end == segments[k + 1].start
    ensures forall k :: 0 <= k < |segments| ==> Tells(job, offsets, segments[k], k)
  {
    hide Build, Orderly, Tells, Justified, SegmentOf;
    forall k | 0 <= k < |segments|
      ensures segments[k].start == ps[k].lo && segments[k].end == ps[k].hi && Tells(job, offsets, segments[k], k)
    {
      assert Justified(job, ps[k]);
      PieceBounds(job, ps[k], k + 1);
      SegmentTells(job, offsets, ps[k], k);
    }
  }

  lemma PieceBounds(job: Job, p: Piece, number: int)
    requires InText(job, p.lo, p.hi)
    ensures SegmentOf(job, p, number).start == p.lo && SegmentOf(job, p, number).end == p.hi
  {
  }

  /** The constructor refuses exactly a token that ends before it starts and an end that falls back. */
  lemma BuildExact(offsets: seq<Span>)
    ensures Build(offsets).Ok? <==>
      && (forall i :: 0 <= i < |offsets| ==> offsets[i].lo <= offsets[i].hi)
      && forall i, j :: 0 <= i < j < |offsets| ==> offsets[i].hi <= offsets[j].hi
    ensures Build(offsets).Ok? ==>
      && |Build(offsets).value.starts| == |Build(offsets).value.ends| == |offsets|
      && forall i :: 0 <= i < |offsets| ==>
           Build(offsets).value.starts[i] == offsets[i].lo && Build(offsets).value.ends[i] == offsets[i].hi
  {
    if Build(offsets).Ok? {
      forall i, j | 0 <= i < j < |offsets| ensures offsets[i].hi <= offsets[j].hi { EndsClimb(offsets, i, j); }
    } else if i :| 0 <= i < |offsets| - 1 && offsets[i + 1].hi < offsets[i].hi {
      assert offsets[i].hi > offsets[i + 1].hi;
    }
  }
}
