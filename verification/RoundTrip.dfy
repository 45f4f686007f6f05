/** Printing a focus declaration and scanning it back. */
module RoundTrip {
  import opened Basics
  import opened Text
  import opened Visibility
  import opened TagSyntax
  import opened TagParser
  import opened StreamLaws

  // ---------------------------------------------------------------------------
  // Numbers and comma lists
  // ---------------------------------------------------------------------------

  function DigitChar(d: nat): char
    requires d < 10
  {
    ('0' as int + d) as char
  }

  /** Decimal digits, no leading zero. */
  function Digits(n: nat): string {
    if n < 10 then [DigitChar(n)] else Digits(n / 10) + [DigitChar(n % 10)]
  }

  lemma {:induction false} DigitsParse(n: nat)
    ensures Number(Digits(n)) && NumberValue(Digits(n)) == n
  {
    if n >= 10 {
      DigitsParse(n / 10);
      assert Digits(n)[..|Digits(n)| - 1] == Digits(n / 10);
    } else {
      assert Digits(n)[..0] == "";
    }
  }

  function CommaList(ns: seq<nat>): string
    requires ns != []
  {
    if |ns| == 1 then Digits(ns[0]) else CommaList(ns[..|ns| - 1]) + [','] + Digits(ns[|ns| - 1])
  }

  lemma {:induction false} SplitNone(s: string, sep: char)
    requires forall i :: 0 <= i < |s| ==> s[i] != sep
    ensures Split(s, sep) == [s]
  {
    if s != "" {
      SplitNone(s[..|s| - 1], sep);
      assert s == s[..|s| - 1] + [s[|s| - 1]];
    }
  }

  lemma {:induction false} SplitAt(a: string, b: string, sep: char)
    requires forall i :: 0 <= i < |b| ==> b[i] != sep
    ensures Split(a + [sep] + b, sep) == Split(a, sep) + [b]
    decreases |b|
  {
    var s := a + [sep] + b;
    if b == "" {
      assert s[..|s| - 1] == a;
    } else {
      var n := |b| - 1;
      SplitAt(a, b[..n], sep);
      assert s[..|s| - 1] == a + [sep] + b[..n];
      assert b == b[..n] + [b[n]];
    }
  }

  function AllDigits(ns: seq<nat>): seq<string> {
    seq(|ns|, i requires 0 <= i < |ns| => Digits(ns[i]))
  }

  lemma AllDigitsLast(ns: seq<nat>)
    requires ns != []
    ensures AllDigits(ns) == AllDigits(ns[..|ns| - 1]) + [Digits(ns[|ns| - 1])]
  {
  }

  lemma {:induction false} CommaListSplits(ns: seq<nat>)
    requires ns != []
    ensures Split(CommaList(ns), ',') == AllDigits(ns)
  {
    var n := |ns| - 1;
    DigitsParse(ns[n]);
    if n == 0 {
      SplitNone(Digits(ns[0]), ',');
    } else {
      CommaListSplits(ns[..n]);
      SplitAt(CommaList(ns[..n]), Digits(ns[n]), ',');
      AllDigitsLast(ns);
    }
  }

  predicate ListChar(c: char) { IsDigit(c) || c == ',' }

  lemma {:induction false} CommaListChars(ns: seq<nat>)
    requires ns != []
    ensures CommaList(ns) != "" && forall i :: 0 <= i < |CommaList(ns)| ==> ListChar(CommaList(ns)[i])
  {
    var n := |ns| - 1;
    DigitsParse(ns[n]);
    if n > 0 { CommaListChars(ns[..n]); }
  }

  lemma StripNothing(s: string)
    requires forall i :: 0 <= i < |s| ==> ListChar(s[i])
    ensures Strip(s) == s
  {
    assert RunEnd(s, 0, |s|, IsSpace) == 0;
    assert DropLeading(s) == s;
  }

  function RefSet(ns: seq<nat>): set<int> { Elements(ns) }

  lemma DigitsValues(ns: seq<nat>)
    ensures AllNumbers(AllDigits(ns)) && Values(AllDigits(ns)) == ns
  {
    forall i | 0 <= i < |ns| ensures Number(AllDigits(ns)[i]) && NumberValue(AllDigits(ns)[i]) == ns[i] {
      DigitsParse(ns[i]);
    }
  }

  /** A printed list reads back as its sorted distinct members. */
  lemma CommaListParses(ns: seq<nat>)
    requires ns != []
    ensures ParseRefs(CommaList(ns)) == Some(SortedInts(RefSet(ns)))
  {
    CommaListChars(ns);
    StripNothing(CommaList(ns));
    CommaListSplits(ns);
    DigitsValues(ns);
  }

  // ---------------------------------------------------------------------------
  // The declaration tag
  // ---------------------------------------------------------------------------

  const OPENING := "focus " + FOCUS_ATTR + "=\""

  /** The text between < and >. */
  function Inner(ns: seq<nat>): string
    requires ns != []
  {
    OPENING + CommaList(ns) + "\""
  }

  function Print(ns: seq<nat>): string
    requires ns != []
  {
    "<" + Inner(ns) + ">"
  }

  lemma RunEndsAt(s: string, i: nat, r: nat, member: char -> bool)
    requires i <= r <= |s|
    requires forall k :: i <= k < r ==> member(s[k])
    requires r < |s| ==> !member(s[r])
    ensures RunEnd(s, i, |s|, member) == r
  {
  }

  lemma HeadParses(s: string)
    requires |s| >= 20 && s[..20] == OPENING
    ensures ParseHead(s) == Some(Head(false, "focus", 5))
  {
    assert s[0] == OPENING[0] && s[1] == OPENING[1] && s[2] == OPENING[2];
    assert s[3] == OPENING[3] && s[4] == OPENING[4] && s[5] == OPENING[5];
    RunEndsAt(s, 0, 5, NameChar);
    assert s[0..5] == "focus";
  }

  lemma AttrNameParses(s: string)
    requires |s| >= 20 && s[..20] == OPENING
    ensures RunEnd(s, 5, |s|, IsSpace) == 6 && RunEnd(s, 6, |s|, AttrChar) == 18
    ensures s[6..18] == FOCUS_ATTR && s[18] == '=' && s[19] == '"'
  {
    AttrLetters();
    assert s[5] == OPENING[5] == ' ' && s[18] == OPENING[18] == '=' && s[19] == OPENING[19] == '"';
    forall k | 6 <= k < 18 ensures AttrChar(s[k]) && s[k] == FOCUS_ATTR[k - 6] {
      assert s[k] == s[..20][k] == OPENING[k];
      assert AttrChar(FOCUS_ATTR[k - 6]);
    }
    assert s[6..18] == FOCUS_ATTR;
    RunEndsAt(s, 5, 6, IsSpace);
    assert !AttrChar('=');
    RunEndsAt(s, 6, 18, AttrChar);
  }

  lemma AttrLetters()
    ensures |FOCUS_ATTR| == 12 && forall k :: 0 <= k < 12 ==> AttrChar(FOCUS_ATTR[k])
  {
    assert FOCUS_ATTR == ['m', 'a', 'g', 'i', 'c', '_', 'c', 'h', 'u', 'n', 'k', 's'];
  }

  /** One attribute in front of whatever follows. */
  lemma OneAttr(s: string, i: nat, j: nat, k: nat, e: nat, more: seq<Attr>)
    requires i < j < k && k + 2 <= e < |s| && ParseAttrs(s, e + 1) == Some(more)
    requires RunEnd(s, i, |s|, IsSpace) == j && RunEnd(s, j, |s|, AttrChar) == k
    requires s[k] == '=' && s[k + 1] == '"' && RunEnd(s, k + 2, |s|, NotQuote) == e
    ensures ParseAttrs(s, i) == Some([Attr(s[j..k], s[k + 2..e])] + more)
  {
    hide RunEnd, NotQuote, AttrChar, IsSpace;
    var value := [Attr(s[j..k], s[k + 2..e])] + more;
    assert ParseAttrs(s, i) == Some(value);
  }

  lemma InnerShape(ns: seq<nat>)
    requires ns != []
    ensures var s, v := Inner(ns), CommaList(ns);
      && |s| == 21 + |v| && s[..20] == OPENING && s[20..20 + |v|] == v && s[20 + |v|] == '"'
      && forall k :: 20 <= k < 20 + |v| ==> NotQuote(s[k])
  {
    var s, v := Inner(ns), CommaList(ns);
    CommaListChars(ns);
    forall k | 20 <= k < 20 + |v| ensures NotQuote(s[k]) { assert s[k] == v[k - 20] && ListChar(v[k - 20]); }
  }

  lemma InnerParses(ns: seq<nat>)
    requires ns != []
    ensures ParseTag(Inner(ns)) == Some(Tag(false, "focus", [Attr(FOCUS_ATTR, CommaList(ns))]))
  {
    var s, v := Inner(ns), CommaList(ns);
    InnerShape(ns);
    HeadParses(s);
    AttrNameParses(s);
    RunEndsAt(s, 20, 20 + |v|, NotQuote);
    hide RunEnd, ParseAttrs, ParseHead, Inner, OPENING, CommaList;
    NoMoreAttrs(s);
    OneAttr(s, 5, 6, 18, 20 + |v|, []);
    assert [Attr(FOCUS_ATTR, v)] + [] == [Attr(FOCUS_ATTR, v)];
  }

  lemma NoMoreAttrs(s: string)
    ensures ParseAttrs(s, |s|) == Some([])
  {
  }

  // ---------------------------------------------------------------------------
  // Scanning it
  // ---------------------------------------------------------------------------

  lemma FeedLast(cfg: Config, s: Scan, p: string, token: int, mid: Scan, a: seq<Item>)
    requires p != "" && Feed(cfg, s, p[..|p| - 1], token) == (mid, a)
    ensures var (next, b) := FeedChar(cfg, mid, p[|p| - 1], token);
      Feed(cfg, s, p, token) == (next, a + b) && (a == [] ==> a + b == b)
  {
  }

  /** A tag-like prefix within the limit is collected silently. */
  lemma {:induction false} Collects(cfg: Config, s: Scan, p: string, token: int)
    requires s.buffer == "" && p != "" && p[0] == '<' && |p| <= Max(2, cfg.maxBuffer)
    requires |p| > 1 ==> p[1] == '/' || IsLetter(p[1])
    requires forall i :: 1 <= i < |p| ==> p[i] != '>'
    ensures Feed(cfg, s, p, token) == (s.(buffer := p), [])
    decreases |p|
  {
    var n := |p| - 1;
    if n == 0 {
      assert p[..0] == "" && p == "<";
      FeedLast(cfg, s, p, token, s, []);
    } else {
      Collects(cfg, s, p[..n], token);
      assert p == p[..n] + [p[n]];
      FeedLast(cfg, s, p, token, s.(buffer := p[..n]), []);
    }
  }

  /** Text with no '<' passes straight through. */
  lemma {:induction false} PassesThrough(cfg: Config, s: Scan, p: string, token: int)
    requires s.buffer == "" && forall i :: 0 <= i < |p| ==> p[i] != '<'
    ensures Feed(cfg, s, p, token).0 == s && EventsOf(Feed(cfg, s, p, token).1) == []
    decreases |p|
  {
    if p != "" {
      var n := |p| - 1;
      PassesThrough(cfg, s, p[..n], token);
      EventsJoin(Feed(cfg, s, p[..n], token).1, [Plain([p[n]])]);
      QuietOutside(cfg, s, p[n], token);
    }
  }

  lemma PrintShape(ns: seq<nat>)
    requires ns != []
    ensures var p := Print(ns); var n := |p| - 1;
      && n >= 22 && p[0] == '<' && IsLetter(p[1]) && p[n] == '>' && p[1..n] == Inner(ns)
      && (forall i :: 1 <= i < n ==> p[i] != '>' && p[i] != '<')
  {
    CommaListChars(ns);
    var p, v := Print(ns), CommaList(ns);
    forall i | 1 <= i < |p| - 1 ensures p[i] != '>' && p[i] != '<' {
      if 21 <= i < 21 + |v| {
        assert p[i] == v[i - 21] && ListChar(v[i - 21]);
      } else if i < 21 {
        assert p[i] == OPENING[i - 1];
        OpeningPlain(i - 1);
      }
    }
    assert p[1] == OPENING[0];
  }

  lemma OpeningPlain(k: nat)
    requires k < 20
    ensures OPENING[k] != '>' && OPENING[k] != '<'
  {
    AttrLetters();
    if 6 <= k < 18 { assert OPENING[k] == FOCUS_ATTR[k - 6]; }
  }

  /** The event a scanned declaration raises. */
  ghost function Declared(c: Control, ns: seq<nat>, token: int): Event {
    Move(c, "focus", Focus, SortedInts(RefSet(ns)), token).1
  }

  predicate InRange(ns: seq<nat>, segments: nat) {
    ns != [] && forall i :: 0 <= i < |ns| ==> 1 <= ns[i] <= segments
  }

  lemma DeclarationCloses(cfg: Config, c: Control, ns: seq<nat>, token: int)
    requires InRange(ns, cfg.segments)
    ensures |Print(ns)| >= 2
    ensures Close(cfg, c, Print(ns), token) == Move(c, "focus", Focus, SortedInts(RefSet(ns)), token)
  {
    PrintShape(ns);
    InnerParses(ns);
    CommaListParses(ns);
    assert Print(ns)[1..|Print(ns)| - 1] == Inner(ns);
    OpenFocusParsed(cfg, c, CommaList(ns), SortedInts(RefSet(ns)), token);
  }

  lemma OpenFocusParsed(cfg: Config, c: Control, value: string, refs: seq<int>, token: int)
    requires ParseRefs(value) == Some(refs) && RefsInRange(refs, cfg.segments)
    ensures Act(cfg, c, Tag(false, "focus", [Attr(FOCUS_ATTR, value)]), token) == Move(c, "focus", Focus, refs, token)
  {
    var attrs := [Attr(FOCUS_ATTR, value)];
    assert OpenFocus(cfg, c, attrs, token) == Move(c, "focus", Focus, refs, token);
  }

  /** Within the limit: one event, the transition to focus with the sorted distinct references. */
  lemma ShortDeclaration(cfg: Config, c: Control, ns: seq<nat>, token: int)
    requires InRange(ns, cfg.segments) && |Print(ns)| - 1 <= cfg.maxBuffer
    ensures Feed(cfg, Scan(c, ""), Print(ns), token)
         == (Scan(Control(Focus, SortedInts(RefSet(ns))), ""), [Closed(Print(ns), Declared(c, ns, token))])
  {
    var p, n := Print(ns), |Print(ns)| - 1;
    PrintShape(ns);
    Collects(cfg, Scan(c, ""), p[..n], token);
    DeclarationCloses(cfg, c, ns, token);
    assert p[..n] + [p[n]] == p;
    FeedLast(cfg, Scan(c, ""), p, token, Scan(c, p[..n]), []);
    ClosingChar(cfg, c, p, token);
  }

  lemma ClosingChar(cfg: Config, c: Control, raw: string, token: int)
    requires |raw| >= 3 && raw[|raw| - 1] == '>'
    ensures FeedChar(cfg, Scan(c, raw[..|raw| - 1]), '>', token)
         == (Scan(Close(cfg, c, raw, token).0, ""), [Closed(raw, Close(cfg, c, raw, token).1)])
  {
    assert raw[..|raw| - 1] + ['>'] == raw;
  }

  /** One overflow anomaly and nothing else. */
  predicate OnlyOverflow(events: seq<Event>) {
    |events| == 1 && events[0].kind == Anomaly && events[0].reason == BufferOverflow
  }

  /** Over the limit: the mode is kept and the only event is the overflow. */
  lemma LongDeclaration(cfg: Config, c: Control, ns: seq<nat>, token: int)
    requires InRange(ns, cfg.segments) && |Print(ns)| - 1 > cfg.maxBuffer
    ensures Feed(cfg, Scan(c, ""), Print(ns), token).0 == Scan(c, "")
    ensures OnlyOverflow(EventsOf(Feed(cfg, Scan(c, ""), Print(ns), token).1))
  {
    PrintShape(ns);
    LongTag(cfg, c, Print(ns), Max(2, cfg.maxBuffer), token);
  }

  lemma LongTag(cfg: Config, c: Control, p: string, k: nat, token: int)
    requires k == Max(2, cfg.maxBuffer) < |p| - 1 && p[0] == '<' && IsLetter(p[1])
    requires forall i :: 1 <= i < |p| - 1 ==> p[i] != '>' && p[i] != '<'
    requires p[|p| - 1] == '>'
    ensures Feed(cfg, Scan(c, ""), p, token).0 == Scan(c, "")
    ensures OnlyOverflow(EventsOf(Feed(cfg, Scan(c, ""), p, token).1))
  {
    hide Feed, EventsOf, OnlyOverflow, Max, IsLetter;
    var head, rest := p[..k + 1], p[k + 1..];
    OverflowsAt(cfg, c, p, k, token);
    forall i | 0 <= i < |rest| ensures rest[i] != '<' { assert rest[i] == p[k + 1 + i]; }
    PassesThrough(cfg, Scan(c, ""), rest, token);
    assert head + rest == p;
    SilentTail(cfg, Scan(c, ""), head, rest, token);
  }

  /** The first character past the limit spills the buffer. */
  lemma OverflowsAt(cfg: Config, c: Control, p: string, k: nat, token: int)
    requires k == Max(2, cfg.maxBuffer) && k < |p| && p[0] == '<' && IsLetter(p[1])
    requires forall i :: 1 <= i <= k ==> p[i] != '>'
    ensures Feed(cfg, Scan(c, ""), p[..k + 1], token).0 == Scan(c, "")
    ensures OnlyOverflow(EventsOf(Feed(cfg, Scan(c, ""), p[..k + 1], token).1))
  {
    var head := p[..k + 1];
    assert head[..k] == p[..k];
    hide Feed, EventsOf;
    Collects(cfg, Scan(c, ""), head[..k], token);
    Spills(cfg, c, head, token);
  }

  lemma SilentTail(cfg: Config, s: Scan, head: string, rest: string, token: int)
    requires Feed(cfg, s, head, token).0 == s
    requires Feed(cfg, s, rest, token).0 == s && EventsOf(Feed(cfg, s, rest, token).1) == []
    ensures Feed(cfg, s, head + rest, token).0 == s
    ensures EventsOf(Feed(cfg, s, head + rest, token).1) == EventsOf(Feed(cfg, s, head, token).1)
  {
    FeedJoin(cfg, s, head, rest, token);
    EventsJoin(Feed(cfg, s, head, token).1, Feed(cfg, s, rest, token).1);
  }

  /** One character too many gives the buffer back as plain text. */
  lemma Spills(cfg: Config, c: Control, head: string, token: int)
    requires |head| >= 3 && |head| > cfg.maxBuffer && head[|head| - 1] != '>'
    requires Feed(cfg, Scan(c, ""), head[..|head| - 1], token) == (Scan(c, head[..|head| - 1]), [])
    ensures var (next, items) := Feed(cfg, Scan(c, ""), head, token);
      next == Scan(c, "") && TextsOf(items) == [head] && OnlyOverflow(EventsOf(items))
  {
    var n := |head| - 1;
    assert head[..n] + [head[n]] == head;
    var (name, attempt) := NameOfIncomplete(head);
    var e := Strange(c, BufferOverflow, name, [], token, attempt).1;
    assert FeedChar(cfg, Scan(c, head[..n]), head[n], token) == (Scan(c, ""), [Spilled(head, e)]);
    FeedLast(cfg, Scan(c, ""), head, token, Scan(c, head[..n]), []);
    SpilledViews([], head, e);
    assert [] + [Spilled(head, e)] == [Spilled(head, e)];
  }

  lemma {:induction false} EventsAnonymous(items: seq<Item>)
    ensures |EventsOf(AnonymousItems(items))| == |EventsOf(items)|
    ensures forall i :: 0 <= i < |EventsOf(items)| ==>
      EventsOf(AnonymousItems(items))[i] == Anonymous(EventsOf(items)[i])
  {
    if items != [] {
      var n := |items| - 1;
      EventsAnonymous(items[..n]);
      assert AnonymousItems(items)[..n] == AnonymousItems(items[..n]);
    }
  }

  /** Under any chunking, from an empty buffer: the declaration is understood exactly when the tag
      without its '>' fits the buffer. */
  lemma DeclarationRoundTrip(cfg: Config, c: Control, ns: seq<nat>, tokens: seq<string>)
    requires InRange(ns, cfg.segments) && Concat(tokens) == Print(ns)
    ensures var (next, items) := Stream(cfg, Scan(c, ""), tokens);
      && (|Print(ns)| - 1 <= cfg.maxBuffer <==>
            AnonymousItems(items) == [Closed(Print(ns), Anonymous(Declared(c, ns, 0)))])
      && (|Print(ns)| - 1 <= cfg.maxBuffer ==> next == Scan(Control(Focus, SortedInts(RefSet(ns))), ""))
      && (|Print(ns)| - 1 > cfg.maxBuffer ==> next == Scan(c, "") && OnlyOverflow(EventsOf(items)))
  {
    StreamIsText(cfg, Scan(c, ""), tokens);
    EventsAnonymous(Stream(cfg, Scan(c, ""), tokens).1);
    if |Print(ns)| - 1 <= cfg.maxBuffer {
      ShortDeclaration(cfg, c, ns, 0);
    } else {
      LongDeclaration(cfg, c, ns, 0);
      var e := Anonymous(Declared(c, ns, 0));
      OneEvent(Closed(Print(ns), e), e);
    }
  }
}
