/** The five delimiter levels, matched left to right without overlap, and where they allow a cut. */
module Delimiters {
  import opened Basics
  import opened Text

  /** Coarsest first. */
  datatype Level = BlankLine | Newline | Sentence | Clause | Whitespace

  const LEVELS: seq<Level> := [BlankLine, Newline, Sentence, Clause, Whitespace]

  /** A candidate cut: preference 0 is after the delimiter, 1 (whitespace only) before it. */
  datatype Cut = Cut(at: int, preference: int)

  predicate Blank(c: char) { c == ' ' || c == '\t' }

  /** The end of the level's match that starts at i, looking no further than `end`. */
  function MatchEnd(level: Level, text: string, i: nat, end: nat): (r: Option<nat>)
    requires i < end <= |text|
    ensures r.Some? ==> i < r.value <= end
  {
    match level
    case BlankLine =>
      if text[i] != '\n' then None
      else
        var j := RunEnd(text, i + 1, end, Blank);
        if j < end && text[j] == '\n' then Some(j + 1) else None
    case Newline => if text[i] == '\n' then Some(i + 1) else None
    case Sentence => if text[i] in ".!?" && i + 1 < end && IsSpace(text[i + 1]) then Some(i + 1) else None
    case Clause => if text[i] in ";:," && i + 1 < end && IsSpace(text[i + 1]) then Some(i + 1) else None
    case Whitespace => if IsSpace(text[i]) then Some(RunEnd(text, i, end, IsSpace)) else None
  }

  /** _candidate_cuts over text[pos..end], keeping cuts strictly inside (start, end). */
  function Cuts(level: Level, text: string, start: nat, pos: nat, end: nat): (r: seq<Cut>)
    requires start <= pos <= end <= |text|
    ensures forall c :: c in r ==> start < c.at < end && pos <= c.at
    decreases end - pos
  {
    if pos == end then []
    else match MatchEnd(level, text, pos, end)
      case None => Cuts(level, text, start, pos + 1, end)
      case Some(e) =>
        (if start < e < end then [Cut(e, 0)] else [])
        + (if level.Whitespace? && start < pos < end then [Cut(pos, 1)] else [])
        + Cuts(level, text, start, e, end)
  }

  // ---------------------------------------------------------------------------
  // The cuts without scanning: what the characters around a cut look like
  // ---------------------------------------------------------------------------

  /** c is a cut of the level in text[start..end] (any level but the blank line). */
  predicate LooksCut(level: Level, text: string, start: nat, end: nat, c: Cut)
    requires start <= end <= |text|
  {
    && start < c.at < end
    && match level
      case BlankLine => false
      case Newline => c.preference == 0 && text[c.at - 1] == '\n'
      case Sentence => c.preference == 0 && text[c.at - 1] in ".!?" && IsSpace(text[c.at])
      case Clause => c.preference == 0 && text[c.at - 1] in ";:," && IsSpace(text[c.at])
      case Whitespace =>
        || (c.preference == 0 && IsSpace(text[c.at - 1]) && !IsSpace(text[c.at]))
        || (c.preference == 1 && !IsSpace(text[c.at - 1]) && IsSpace(text[c.at]))
  }

  /** The scan finds exactly the places that look like a cut. */
  lemma CutsExact(level: Level, text: string, start: nat, end: nat, c: Cut)
    requires start <= end <= |text| && !level.BlankLine?
    ensures c in Cuts(level, text, start, start, end) <==> LooksCut(level, text, start, end, c)
  {
    if level.Whitespace? {
      SpaceCuts(text, start, start, end, c);
    } else {
      SingleCuts(level, text, start, start, end, c);
    }
  }

  /** Single-character delimiters, from any scan position. */
  lemma {:induction false} SingleCuts(level: Level, text: string, start: nat, pos: nat, end: nat, c: Cut)
    requires start <= pos <= end <= |text| && !level.BlankLine? && !level.Whitespace?
    ensures c in Cuts(level, text, start, pos, end)
       <==> LooksCut(level, text, start, end, c) && pos < c.at
    decreases end - pos
  {
    if pos < end {
      SingleStep(level, text, start, pos, end, c);
      hide Cuts, LooksCut;
      SingleCuts(level, text, start, pos + 1, end, c);
    }
  }

  lemma SingleStep(level: Level, text: string, start: nat, pos: nat, end: nat, c: Cut)
    requires start <= pos < end <= |text| && !level.BlankLine? && !level.Whitespace?
    ensures c in Cuts(level, text, start, pos, end) <==>
      c in Cuts(level, text, start, pos + 1, end) || (c.at == pos + 1 && LooksCut(level, text, start, end, c))
    ensures c in Cuts(level, text, start, pos + 1, end) ==> pos + 1 <= c.at
  {
    hide IsSpace;
    assert MatchEnd(level, text, pos, end).Some? ==> MatchEnd(level, text, pos, end).value == pos + 1;
  }

  /** Whitespace runs, from any scan position that does not split a run. */
  lemma {:induction false} SpaceCuts(text: string, start: nat, pos: nat, end: nat, c: Cut)
    requires start <= pos <= end <= |text|
    requires start < pos < end ==> !(IsSpace(text[pos - 1]) && IsSpace(text[pos]))
    ensures c in Cuts(Whitespace, text, start, pos, end)
       <==> LooksCut(Whitespace, text, start, end, c) && pos <= c.at && (c.at == pos ==> c.preference == 1)
    decreases end - pos
  {
    hide IsSpace, RunEnd;
    if pos < end {
      var m := MatchEnd(Whitespace, text, pos, end);
      if m.Some? {
        SpaceCuts(text, start, m.value, end, c);
      } else {
        SpaceCuts(text, start, pos + 1, end, c);
      }
    }
  }

  // ---------------------------------------------------------------------------
  // Blank lines: newlines with only blanks between them form chains, paired up from the front
  // ---------------------------------------------------------------------------

  /** The last position in from..i that is not a blank, or from - 1. */
  function BackOverBlanks(text: string, from: nat, i: int): (r: int)
    requires from - 1 <= i < |text|
    ensures from - 1 <= r <= i
    ensures forall k :: r < k <= i ==> Blank(text[k])
    ensures r >= from ==> !Blank(text[r])
    decreases i - from
  {
    if i < from || !Blank(text[i]) then i else BackOverBlanks(text, from, i - 1)
  }

  /** How many newlines of its chain stand before the newline at i, looking back no further than from. */
  function ChainPlace(text: string, from: nat, i: int): nat
    requires from <= i < |text|
    decreases i
  {
    var j := BackOverBlanks(text, from, i - 1);
    if j >= from && text[j] == '\n' then ChainPlace(text, from, j) + 1 else 0
  }

  predicate Paired(text: string, from: nat, i: int)
    requires from <= i < |text|
  {
    text[i] == '\n' && ChainPlace(text, from, i) % 2 == 1
  }

  /** Blank-line cuts come after every second newline of a chain. */
  lemma BlankLineCutsExact(text: string, start: nat, end: nat, c: Cut)
    requires start <= end <= |text|
    ensures c in Cuts(BlankLine, text, start, start, end)
       <==> c.preference == 0 && start < c.at < end && Paired(text, start, c.at - 1)
  {
    BlankLineCutsFrom(text, start, start, end, c);
  }

  lemma {:induction false} BlankLineCutsFrom(text: string, start: nat, pos: nat, end: nat, c: Cut)
    requires start <= pos <= end <= |text|
    ensures c in Cuts(BlankLine, text, start, pos, end)
       <==> c.preference == 0 && start < c.at < end && pos < c.at && Paired(text, pos, c.at - 1)
    decreases end - pos
  {
    hide *;
    if pos == end {
      NoCutsAtEnd(BlankLine, text, start, end);
    } else {
      var m := MatchEnd(BlankLine, text, pos, end);
      BlankLineStep(text, start, pos, end, c);
      if m.None? {
        BlankLineCutsFrom(text, start, pos + 1, end, c);
        if pos < c.at < end { PairedSkipped(text, pos, end, c.at); }
      } else {
        BlankLineCutsFrom(text, start, m.value, end, c);
        if pos < c.at < end { PairedMatched(text, pos, end, c.at); }
      }
    }
  }

  lemma NoCutsAtEnd(level: Level, text: string, start: nat, end: nat)
    requires start <= end <= |text|
    ensures Cuts(level, text, start, end, end) == []
  {
  }

  lemma PairedSkipped(text: string, pos: nat, end: nat, at: int)
    requires pos < at < end <= |text| && MatchEnd(BlankLine, text, pos, end).None?
    ensures Paired(text, pos, at - 1) <==> pos + 1 < at && Paired(text, pos + 1, at - 1)
  {
    hide MatchEnd;
    if pos + 1 < at { SkippedPlace(text, pos, end, at - 1); } else { FirstPlace(text, pos); }
  }

  lemma PairedMatched(text: string, pos: nat, end: nat, at: int)
    requires pos < at < end <= |text| && MatchEnd(BlankLine, text, pos, end).Some?
    ensures var m := MatchEnd(BlankLine, text, pos, end).value;
      Paired(text, pos, at - 1) <==> at == m || (m < at && Paired(text, m, at - 1))
  {
    MatchShape(text, pos, end);
    hide MatchEnd, ChainPlace;
    FirstPlace(text, pos);
    var m := MatchEnd(BlankLine, text, pos, end).value;
    if m < at { MatchedPlace(text, pos, end, at - 1); }
    if pos + 1 < at <= m { InsideMatch(text, pos, end, at - 1); }
  }

  lemma BlankLineStep(text: string, start: nat, pos: nat, end: nat, c: Cut)
    requires start <= pos < end <= |text|
    ensures var m := MatchEnd(BlankLine, text, pos, end);
      c in Cuts(BlankLine, text, start, pos, end) <==>
        if m.None? then c in Cuts(BlankLine, text, start, pos + 1, end)
        else (start < m.value < end && c == Cut(m.value, 0)) || c in Cuts(BlankLine, text, start, m.value, end)
  {
  }

  lemma FirstPlace(text: string, from: nat)
    requires from < |text|
    ensures ChainPlace(text, from, from) == 0
  {
  }

  lemma BackShorter(text: string, from: nat, to: nat, i: int)
    requires from <= to <= i + 1 && i < |text|
    ensures BackOverBlanks(text, from, i) >= to ==> BackOverBlanks(text, to, i) == BackOverBlanks(text, from, i)
    ensures BackOverBlanks(text, from, i) < to ==> BackOverBlanks(text, to, i) == to - 1
  {
  }

  /** Where no blank line starts, the first character belongs to nobody's chain. */
  lemma {:induction false} SkippedPlace(text: string, pos: nat, end: nat, i: int)
    requires pos < i < end <= |text| && MatchEnd(BlankLine, text, pos, end).None?
    ensures text[i] == '\n' ==> ChainPlace(text, pos, i) == ChainPlace(text, pos + 1, i)
    decreases i
  {
    if text[i] == '\n' {
      var j := BackOverBlanks(text, pos, i - 1);
      BackShorter(text, pos, pos + 1, i - 1);
      if j > pos && text[j] == '\n' {
        SkippedPlace(text, pos, end, j);
      } else if j == pos && text[pos] == '\n' {
        assert false;
      }
    }
  }

  /** A match takes two newlines, so places behind it shift by two or start afresh. */
  lemma {:induction false} MatchedPlace(text: string, pos: nat, end: nat, i: int)
    requires pos < end <= |text| && MatchEnd(BlankLine, text, pos, end).Some?
    requires MatchEnd(BlankLine, text, pos, end).value <= i < end
    ensures var place := ChainPlace(text, MatchEnd(BlankLine, text, pos, end).value, i);
      ChainPlace(text, pos, i) == place || ChainPlace(text, pos, i) == place + 2
    decreases i
  {
    MatchShape(text, pos, end);
    hide MatchEnd;
    var m := MatchEnd(BlankLine, text, pos, end).value;
    var j := BackOverBlanks(text, pos, i - 1);
    BackShorter(text, pos, m, i - 1);
    if j >= m {
      if text[j] == '\n' { MatchedPlace(text, pos, end, j); }
    } else {
      assert j == m - 1;
      InsideMatch(text, pos, end, m - 1);
    }
  }

  lemma MatchShape(text: string, pos: nat, end: nat)
    requires pos < end <= |text| && MatchEnd(BlankLine, text, pos, end).Some?
    ensures var m := MatchEnd(BlankLine, text, pos, end).value;
      && pos + 2 <= m <= end && text[pos] == text[m - 1] == '\n'
      && forall k :: pos < k < m - 1 ==> Blank(text[k])
  {
  }

  /** Within a match only its last newline is second. */
  lemma InsideMatch(text: string, pos: nat, end: nat, i: int)
    requires pos < end <= |text| && MatchEnd(BlankLine, text, pos, end).Some?
    requires pos < i < MatchEnd(BlankLine, text, pos, end).value
    ensures text[i] == '\n' <==> i == MatchEnd(BlankLine, text, pos, end).value - 1
    ensures i == MatchEnd(BlankLine, text, pos, end).value - 1 ==> ChainPlace(text, pos, i) == 1
  {
    MatchShape(text, pos, end);
    hide MatchEnd;
    var m := MatchEnd(BlankLine, text, pos, end).value;
    if i == m - 1 {
      assert BackOverBlanks(text, pos, i - 1) == pos;
      assert ChainPlace(text, pos, pos) == 0;
    }
  }
}
