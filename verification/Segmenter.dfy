/** Recursive segmentation: coarsest viable delimiter, three tiers of preference, a hard cap. */
module Segmenter {
  import opened Basics
  import opened Offsets
  import opened Delimiters
  import opened Text

  const EMPTY_CONTEXT_PLACEHOLDER := "<empty_context>"

  /** One segmentation request. */
  datatype Job = Job(text: string, index: Index, target: int, cap: int)

  /** A finished span; `uncuttable` when no level offered a cut. */
  datatype Piece = Piece(lo: int, hi: int, uncuttable: bool)

  function Size(job: Job, start: int, end: int): int
  {
    job.index.CountOverlapping(start, end)
  }

  /** A cut with tokens on both sides. */
  predicate Viable(job: Job, start: int, end: int, c: Cut)
  {
    Size(job, start, c.at) > 0 && Size(job, c.at, end) > 0
  }

  /** 0: the left side fits; 1: only the right side fits; 2: neither fits. */
  function Tier(job: Job, start: int, end: int, c: Cut): nat
  {
    if Size(job, start, c.at) <= job.cap then 0 else if Size(job, c.at, end) <= job.cap then 1 else 2
  }

  function Abs(x: int): nat { if x < 0 then -x else x }

  /** Distance to the target, on the side the tier looks at. */
  function Distance(job: Job, start: int, end: int, c: Cut): nat
  {
    if Tier(job, start, end, c) == 1 then Abs(Size(job, c.at, end) - job.target)
    else Abs(Size(job, start, c.at) - job.target)
  }

  predicate ScoreLess(d1: int, c1: Cut, d2: int, c2: Cut) {
    || d1 < d2
    || (d1 == d2 && (c1.preference < c2.preference || (c1.preference == c2.preference && c1.at < c2.at)))
  }

  /** Strictly preferred: a lower tier, or the same tier and a smaller (distance, preference, position). */
  predicate Preferred(job: Job, start: int, end: int, c: Cut, d: Cut)
  {
    || Tier(job, start, end, c) < Tier(job, start, end, d)
    || (&& Tier(job, start, end, c) == Tier(job, start, end, d)
        && ScoreLess(Distance(job, start, end, c), c, Distance(job, start, end, d), d))
  }

  /** The unique most preferred viable cut among the candidates. */
  ghost predicate Best(job: Job, start: int, end: int, cuts: seq<Cut>, c: Cut)
  {
    && c in cuts && Viable(job, start, end, c)
    && forall d :: d in cuts && Viable(job, start, end, d) ==> d == c || Preferred(job, start, end, c, d)
  }

  ghost predicate NoneViable(job: Job, start: int, end: int, cuts: seq<Cut>)
  {
    forall d :: d in cuts ==> !Viable(job, start, end, d)
  }

  predicate InText(job: Job, start: int, end: int) {
    0 <= start <= end <= |job.text|
  }

  function CutsAt(job: Job, level: Level, start: int, end: int): seq<Cut>
    requires InText(job, start, end)
  {
    Cuts(level, job.text, start, start, end)
  }

  /** `c` is the cut to make: best at its level, with nothing viable at any coarser level. */
  ghost predicate Chosen(job: Job, start: int, end: int, i: int, c: Cut)
    requires InText(job, start, end)
  {
    && 0 <= i < |LEVELS|
    && Best(job, start, end, CutsAt(job, LEVELS[i], start, end), c)
    && forall k :: 0 <= k < i ==> NoneViable(job, start, end, CutsAt(job, LEVELS[k], start, end))
  }

  lemma ChosenUnique(job: Job, start: int, end: int, i: int, c: Cut, j: int, d: Cut)
    requires InText(job, start, end)
    requires Chosen(job, start, end, i, c) && Chosen(job, start, end, j, d)
    ensures i == j && c == d
  {
  }

  /** No level offers a cut with tokens on both sides. */
  ghost predicate Uncuttable(job: Job, start: int, end: int)
    requires InText(job, start, end)
  {
    forall k :: 0 <= k < |LEVELS| ==> NoneViable(job, start, end, CutsAt(job, LEVELS[k], start, end))
  }

  // ---------------------------------------------------------------------------
  // What the segmentation is
  // ---------------------------------------------------------------------------

  ghost function Pieces(job: Job, start: int, end: int): seq<Piece>
    requires InText(job, start, end)
    decreases end - start
  {
    if Size(job, start, end) <= job.cap then [Piece(start, end, false)]
    else if i, c :| Chosen(job, start, end, i, c) then
      Pieces(job, start, c.at) + Pieces(job, c.at, end)
    else [Piece(start, end, true)]
  }

  lemma PiecesSplit(job: Job, start: int, end: int, i: int, c: Cut)
    requires InText(job, start, end)
    requires Size(job, start, end) > job.cap && Chosen(job, start, end, i, c)
    ensures Pieces(job, start, end) == Pieces(job, start, c.at) + Pieces(job, c.at, end)
  {
    var j, d :| Chosen(job, start, end, j, d)
      && Pieces(job, start, end) == Pieces(job, start, d.at) + Pieces(job, d.at, end);
    ChosenUnique(job, start, end, i, c, j, d);
  }

  lemma PiecesWhole(job: Job, start: int, end: int)
    requires InText(job, start, end)
    requires Size(job, start, end) > job.cap && Uncuttable(job, start, end)
    ensures Pieces(job, start, end) == [Piece(start, end, true)]
  {
    forall i, c ensures !Chosen(job, start, end, i, c) { }
  }

  /** Consecutive nonempty pieces from start to end. */
  ghost predicate Tiles(ps: seq<Piece>, start: int, end: int) {
    && ps != [] && ps[0].lo == start && ps[|ps| - 1].hi == end
    && (forall i :: 0 <= i < |ps| ==> ps[i].lo < ps[i].hi)
    && forall i :: 0 <= i < |ps| - 1 ==> ps[i].hi == ps[i + 1].lo
  }

  lemma TilesJoin(a: seq<Piece>, b: seq<Piece>, start: int, mid: int, end: int)
    requires Tiles(a, start, mid) && Tiles(b, mid, end)
    ensures Tiles(a + b, start, end)
  {
    var r := a + b;
    forall i | 0 <= i < |r| - 1 ensures r[i].hi == r[i + 1].lo {
      if i == |a| - 1 { assert r[i + 1] == b[0]; }
    }
  }

  /** What a piece's flag means: within the cap, or over it with nothing left to cut. */
  ghost predicate Justified(job: Job, p: Piece)
  {
    && InText(job, p.lo, p.hi)
    && if p.uncuttable then Size(job, p.lo, p.hi) > job.cap && Uncuttable(job, p.lo, p.hi)
       else Size(job, p.lo, p.hi) <= job.cap
  }

  ghost predicate AllJustified(job: Job, ps: seq<Piece>)
  {
    forall k :: 0 <= k < |ps| ==> Justified(job, ps[k])
  }

  /** Segmentation is an exact partition and every piece respects the cap or cannot be cut. */
  lemma {:induction false} PiecesPartition(job: Job, start: int, end: int)
    requires InText(job, start, end) && start < end
    ensures Tiles(Pieces(job, start, end), start, end)
    ensures AllJustified(job, Pieces(job, start, end))
    decreases end - start
  {
    if Size(job, start, end) > job.cap {
      if i, c :| Chosen(job, start, end, i, c) {
        PiecesSplit(job, start, end, i, c);
        PiecesPartition(job, start, c.at);
        PiecesPartition(job, c.at, end);
        TilesJoin(Pieces(job, start, c.at), Pieces(job, c.at, end), start, c.at, end);
      } else {
        NothingChosen(job, start, end);
        PiecesWhole(job, start, end);
      }
    }
  }

  /** When no cut is chosen, no level had a viable one. */
  lemma NothingChosen(job: Job, start: int, end: int)
    requires InText(job, start, end)
    requires forall i, c :: !Chosen(job, start, end, i, c)
    ensures Uncuttable(job, start, end)
  {
    for k := 0 to |LEVELS|
      invariant forall j :: 0 <= j < k ==> NoneViable(job, start, end, CutsAt(job, LEVELS[j], start, end))
    {
      var cuts := CutsAt(job, LEVELS[k], start, end);
      if !NoneViable(job, start, end, cuts) {
        var c := BestExists(job, start, end, cuts);
        assert Chosen(job, start, end, k, c);
      }
    }
  }

  lemma {:induction false} BestExists(job: Job, start: int, end: int, cuts: seq<Cut>) returns (c: Cut)
    requires !NoneViable(job, start, end, cuts)
    ensures Best(job, start, end, cuts, c)
  {
    var n := |cuts| - 1;
    assert cuts == cuts[..n] + [cuts[n]];
    if NoneViable(job, start, end, cuts[..n]) {
      c := cuts[n];
    } else {
      c := BestExists(job, start, end, cuts[..n]);
      if Viable(job, start, end, cuts[n]) && Preferred(job, start, end, cuts[n], c) { c := cuts[n]; }
    }
  }

  /** Once anything is split, every piece holds a token. */
  lemma {:induction false} SplitPiecesHoldTokens(job: Job, start: int, end: int)
    requires InText(job, start, end) && start < end
    requires Size(job, start, end) > 0 || |Pieces(job, start, end)| > 1
    ensures forall i :: 0 <= i < |Pieces(job, start, end)| ==>
      Size(job, Pieces(job, start, end)[i].lo, Pieces(job, start, end)[i].hi) > 0
    decreases end - start
  {
    if Size(job, start, end) > job.cap {
      if i, c :| Chosen(job, start, end, i, c) {
        PiecesSplit(job, start, end, i, c);
        SplitPiecesHoldTokens(job, start, c.at);
        SplitPiecesHoldTokens(job, c.at, end);
      }
    }
  }

  // ---------------------------------------------------------------------------
  // How the segmentation is computed
  // ---------------------------------------------------------------------------

  datatype Score = Score(distance: int, cut: Cut)

  predicate Lower(a: Score, b: Option<Score>) {
    b.None? || ScoreLess(a.distance, a.cut, b.value.distance, b.value.cut)
  }

  /** `best` is the lowest score among the viable cuts of one tier. */
  ghost predicate TierBest(job: Job, start: int, end: int, cuts: seq<Cut>, tier: nat, best: Option<Score>)
  {
    match best
    case None => forall d :: d in cuts && Viable(job, start, end, d) ==> Tier(job, start, end, d) != tier
    case Some(s) =>
      && s.cut in cuts && Viable(job, start, end, s.cut) && Tier(job, start, end, s.cut) == tier
      && s.distance == Distance(job, start, end, s.cut)
      && forall d :: d in cuts && Viable(job, start, end, d) && Tier(job, start, end, d) == tier ==>
           d == s.cut || ScoreLess(s.distance, s.cut, Distance(job, start, end, d), d)
  }

  lemma TierStep(job: Job, start: int, end: int, cuts: seq<Cut>, c: Cut, tier: nat, best: Option<Score>)
    requires TierBest(job, start, end, cuts, tier, best)
    ensures !(Viable(job, start, end, c) && Tier(job, start, end, c) == tier) ==>
              TierBest(job, start, end, cuts + [c], tier, best)
    ensures Viable(job, start, end, c) && Tier(job, start, end, c) == tier ==>
              var s := Score(Distance(job, start, end, c), c);
              TierBest(job, start, end, cuts + [c], tier, if Lower(s, best) then Some(s) else best)
  {
  }

  lemma TiersDecide(job: Job, start: int, end: int, cuts: seq<Cut>,
                    left: Option<Score>, right: Option<Score>, any: Option<Score>)
    requires TierBest(job, start, end, cuts, 0, left)
    requires TierBest(job, start, end, cuts, 1, right)
    requires TierBest(job, start, end, cuts, 2, any)
    ensures var best := if left.Some? then left else if right.Some? then right else any;
      if best.Some? then Best(job, start, end, cuts, best.value.cut) else NoneViable(job, start, end, cuts)
  {
  }

  /** The scoring loop over one level's candidates, keeping the best of each tier. */
  method ChooseCut(job: Job, start: int, end: int, cuts: seq<Cut>) returns (best: Option<Cut>)
    ensures best.Some? ==> Best(job, start, end, cuts, best.value)
    ensures best.None? ==> NoneViable(job, start, end, cuts)
  {
    var left: Option<Score>, right: Option<Score>, any: Option<Score> := None, None, None;
    for i := 0 to |cuts|
      invariant TierBest(job, start, end, cuts[..i], 0, left)
      invariant TierBest(job, start, end, cuts[..i], 1, right)
      invariant TierBest(job, start, end, cuts[..i], 2, any)
    {
      var c := cuts[i];
      assert cuts[..i + 1] == cuts[..i] + [c];
      TierStep(job, start, end, cuts[..i], c, 0, left);
      TierStep(job, start, end, cuts[..i], c, 1, right);
      TierStep(job, start, end, cuts[..i], c, 2, any);
      var l, r := Size(job, start, c.at), Size(job, c.at, end);
      if l <= 0 || r <= 0 { continue; }
      var score := Score(Abs(l - job.target), c);
      if l <= job.cap {
        if Lower(score, left) { left := Some(score); }
      } else if r <= job.cap {
        var rightScore := Score(Abs(r - job.target), c);
        if Lower(rightScore, right) { right := Some(rightScore); }
      } else {
        if Lower(score, any) { any := Some(score); }
      }
    }
    assert cuts[..|cuts|] == cuts;
    TiersDecide(job, start, end, cuts, left, right, any);
    var chosen := if left.Some? then left else if right.Some? then right else any;
    return if chosen.Some? then Some(chosen.value.cut) else None;
  }

  /** The level loop: the first level with a viable cut decides. */
  method FindCut(job: Job, start: int, end: int) returns (found: Option<Cut>)
    requires InText(job, start, end)
    ensures found.Some? ==> start < found.value.at < end && exists i :: Chosen(job, start, end, i, found.value)
    ensures found.None? ==> Uncuttable(job, start, end)
  {
    for i := 0 to |LEVELS|
      invariant forall k :: 0 <= k < i ==> NoneViable(job, start, end, CutsAt(job, LEVELS[k], start, end))
    {
      var best := ChooseCut(job, start, end, CutsAt(job, LEVELS[i], start, end));
      if best.Some? {
        assert Chosen(job, start, end, i, best.value);
        return best;
      }
    }
    return None;
  }

  /** _split_span: appends exactly the specified pieces. */
  method SplitSpan(job: Job, start: int, end: int, out: seq<Piece>) returns (more: seq<Piece>)
    requires InText(job, start, end)
    ensures more == out + Pieces(job, start, end)
    decreases end - start
  {
    if Size(job, start, end) <= job.cap { return out + [Piece(start, end, false)]; }
    var found := FindCut(job, start, end);
    if found.Some? {
      var cut := found.value.at;
      more := SplitSpan(job, start, cut, out);
      more := SplitSpan(job, cut, end, more);
      SplitJoined(job, start, end, found.value, out);
    } else {
      PiecesWhole(job, start, end);
      more := out + [Piece(start, end, true)];
    }
  }

  lemma SplitJoined(job: Job, start: int, end: int, c: Cut, out: seq<Piece>)
    requires InText(job, start, end) && start < c.at < end
    requires Size(job, start, end) > job.cap && exists i :: Chosen(job, start, end, i, c)
    ensures (out + Pieces(job, start, c.at)) + Pieces(job, c.at, end) == out + Pieces(job, start, end)
  {
    var i :| Chosen(job, start, end, i, c);
    PiecesSplit(job, start, end, i, c);
  }

  // ---------------------------------------------------------------------------
  // segment_context
  // ---------------------------------------------------------------------------

  datatype Segment = Segment(
    index: int, text: string, start: int, end: int, tokens: int, contained: int, placeholder: bool,
    cutMidToken: bool, overCap: bool, uncuttable: bool)

  /** A text strip() empties. */
  predicate BlankText(text: string) {
    forall i :: 0 <= i < |text| ==> IsSpace(text[i])
  }

  predicate MidToken(job: Job, edge: int) {
    0 < edge < |job.text| && !job.index.IsTokenBoundary(edge)
  }

  function SegmentOf(job: Job, p: Piece, number: int): Segment
    requires InText(job, p.lo, p.hi)
  {
    var n := Size(job, p.lo, p.hi);
    Segment(number, job.text[p.lo..p.hi], p.lo, p.hi, n, job.index.Count(p.lo, p.hi), false,
            MidToken(job, p.lo) || MidToken(job, p.hi), n > job.cap, n > job.cap && p.uncuttable)
  }

  /** The single segment a blank context renders as. */
  function Placeholder(job: Job): Segment
  {
    Segment(1, EMPTY_CONTEXT_PLACEHOLDER, 0, |job.text|, job.index.Count(0, |job.text|), 0,
            true, false, false, false)
  }

  /** _assert_cap_respected */
  predicate CapRespected(segments: seq<Segment>, cap: int) {
    forall i :: 0 <= i < |segments| ==> segments[i].tokens <= cap || segments[i].uncuttable
  }

  /** join_segments */
  function Join(segments: seq<Segment>): string {
    if segments == [] then ""
    else
      var last := segments[|segments| - 1];
      Join(segments[..|segments| - 1]) + if last.placeholder then "" else last.text
  }

  /** The segment shows the piece's text. */
  predicate Shows(job: Job, s: Segment, p: Piece) {
    !s.placeholder && 0 <= p.lo <= p.hi <= |job.text| && s.text == job.text[p.lo..p.hi]
  }

  lemma TilesInit(ps: seq<Piece>, start: int, end: int)
    requires Tiles(ps, start, end) && |ps| > 1
    ensures Tiles(ps[..|ps| - 1], start, ps[|ps| - 1].lo)
  {
    assert ps[|ps| - 2].hi == ps[|ps| - 2 + 1].lo;
  }

  lemma {:induction false} JoinTiles(job: Job, ps: seq<Piece>, segments: seq<Segment>, start: int, end: int)
    requires |segments| == |ps| && Tiles(ps, start, end)
    requires forall i :: 0 <= i < |ps| ==> Shows(job, segments[i], ps[i])
    ensures 0 <= start <= end <= |job.text| && Join(segments) == job.text[start..end]
  {
    var n := |ps| - 1;
    assert Shows(job, segments[n], ps[n]) && ps[n].hi == end;
    if n > 0 {
      TilesInit(ps, start, end);
      hide Tiles;
      JoinTiles(job, ps[..n], segments[..n], start, ps[n].lo);
      assert job.text[start..ps[n].lo] + job.text[ps[n].lo..end] == job.text[start..end];
    } else {
      assert segments[..0] == [];
    }
  }

  /** Segment k shows piece k. */
  predicate Renders(job: Job, segments: seq<Segment>, ps: seq<Piece>)
  {
    && |segments| == |ps|
    && forall k :: 0 <= k < |ps| ==> InText(job, ps[k].lo, ps[k].hi) && segments[k] == SegmentOf(job, ps[k], k + 1)
  }

  lemma RenderedSound(job: Job, segments: seq<Segment>, ps: seq<Piece>)
    requires Renders(job, segments, ps) && AllJustified(job, ps)
    requires Tiles(ps, 0, |job.text|)
    ensures Join(segments) == job.text && CapRespected(segments, job.cap)
  {
    forall i | 0 <= i < |ps| ensures Shows(job, segments[i], ps[i]) { }
    JoinTiles(job, ps, segments, 0, |job.text|);
    assert job.text[0..|job.text|] == job.text;
    forall i | 0 <= i < |segments| ensures segments[i].tokens <= job.cap || segments[i].uncuttable {
      assert Justified(job, ps[i]);
    }
  }

  method Render(job: Job, ps: seq<Piece>) returns (segments: seq<Segment>)
    requires AllJustified(job, ps)
    ensures Renders(job, segments, ps)
  {
    hide SegmentOf, Uncuttable, Size;
    segments := [];
    for i := 0 to |ps|
      invariant Renders(job, segments, ps[..i])
    {
      assert Justified(job, ps[i]);
      segments := segments + [SegmentOf(job, ps[i], i + 1)];
    }
    assert ps[..|ps|] == ps;
  }

  /** segment_context: the cap assertion never fires; the segments number 1..N and join to the text. */
  method SegmentContext(job: Job) returns (r: Result<seq<Segment>>)
    ensures r.Ok?
    ensures BlankText(job.text) ==> r.value == [Placeholder(job)]
    ensures !BlankText(job.text) ==> Join(r.value) == job.text && CapRespected(r.value, job.cap)
    ensures !BlankText(job.text) ==> Renders(job, r.value, Pieces(job, 0, |job.text|))
  {
    if BlankText(job.text) { return Ok([Placeholder(job)]); }
    var spans := SplitSpan(job, 0, |job.text|, []);
    assert spans == Pieces(job, 0, |job.text|);
    PiecesPartition(job, 0, |job.text|);
    var segments := Render(job, spans);
    RenderedSound(job, segments, spans);
    if !CapRespected(segments, job.cap) { return Err(AssertionError); }
    return Ok(segments);
  }
}
