/** What the tag scanner keeps over any stream: every character, one mode history, no chunking effect. */
module StreamLaws {
  import opened Basics
  import opened Visibility
  import opened TagSyntax
  import opened TagParser

  // ---------------------------------------------------------------------------
  // Conservation and the buffer bound
  // ---------------------------------------------------------------------------

  function Chars(item: Item): string {
    match item
    case Plain(t) => t
    case Closed(raw, _) => raw
    case Spilled(raw, _) => raw
  }

  function Flatten(items: seq<Item>): string {
    if items == [] then "" else Flatten(items[..|items| - 1]) + Chars(items[|items| - 1])
  }

  lemma {:induction false} FlattenJoin(a: seq<Item>, b: seq<Item>)
    ensures Flatten(a + b) == Flatten(a) + Flatten(b)
  {
    if b == [] {
      assert a + b == a;
    } else {
      FlattenJoin(a, b[..|b| - 1]);
      assert (a + b)[..|a + b| - 1] == a + b[..|b| - 1];
      Associate(Flatten(a), Flatten(b[..|b| - 1]), Chars(b[|b| - 1]));
    }
  }

  /** The buffer is empty or an open tag within the limit. */
  predicate Bounded(cfg: Config, s: Scan) {
    |s.buffer| <= Max(2, cfg.maxBuffer) && (s.buffer != "" ==> s.buffer[0] == '<')
  }

  lemma CharConserved(cfg: Config, s: Scan, ch: char, token: int)
    requires Bounded(cfg, s)
    ensures var (next, items) := FeedChar(cfg, s, ch, token);
      Bounded(cfg, next) && Flatten(items) + next.buffer == s.buffer + [ch]
  {
    hide Flatten, Close, Strange, NameOfIncomplete;
    FlattenSmall(FeedChar(cfg, s, ch, token).1);
  }

  lemma FlattenSmall(items: seq<Item>)
    ensures items == [] ==> Flatten(items) == ""
    ensures |items| == 1 ==> Flatten(items) == Chars(items[0])
    ensures |items| == 2 ==> Flatten(items) == Chars(items[0]) + Chars(items[1])
  {
    if |items| == 1 { assert items[..0] == []; }
    if |items| == 2 {
      assert items[..1] == [items[0]] && items[..1][..0] == [];
      assert Flatten(items[..1]) == Chars(items[0]);
    }
  }

  /** Plain pieces and closed tags, in order, followed by the pending buffer, are the input so far. */
  lemma {:induction false} FeedConserved(cfg: Config, s: Scan, text: string, token: int)
    requires Bounded(cfg, s)
    ensures var (next, items) := Feed(cfg, s, text, token);
      Bounded(cfg, next) && Flatten(items) + next.buffer == s.buffer + text
    decreases |text|
  {
    if text != "" {
      var n := |text| - 1;
      FeedConserved(cfg, s, text[..n], token);
      var (s1, a) := Feed(cfg, s, text[..n], token);
      CharConserved(cfg, s1, text[n], token);
      var (s2, b) := FeedChar(cfg, s1, text[n], token);
      ConservedStep(s.buffer, s1.buffer, s2.buffer, a, b, text);
    }
  }

  lemma ConservedStep(start: string, mid: string, next: string, a: seq<Item>, b: seq<Item>, text: string)
    requires text != "" && Flatten(a) + mid == start + text[..|text| - 1]
    requires Flatten(b) + next == mid + [text[|text| - 1]]
    ensures Flatten(a + b) + next == start + text
  {
    var ch := text[|text| - 1];
    FlattenJoin(a, b);
    Associate(Flatten(a), Flatten(b), next);
    Associate(Flatten(a), mid, [ch]);
    Associate(start, text[..|text| - 1], [ch]);
    assert text[..|text| - 1] + [ch] == text;
  }

  lemma Associate(a: string, b: string, c: string)
    ensures (a + b) + c == a + (b + c)
  {
  }

  function Concat(tokens: seq<string>): string {
    if tokens == [] then "" else Concat(tokens[..|tokens| - 1]) + tokens[|tokens| - 1]
  }

  // ---------------------------------------------------------------------------
  // Chunk independence
  // ---------------------------------------------------------------------------

  /** An event without its token numbers. */
  function Anonymous(e: Event): Event { e.(token := 0, effectStep := 1) }

  function AnonymousItem(item: Item): Item {
    match item
    case Plain(t) => item
    case Closed(raw, e) => Closed(raw, Anonymous(e))
    case Spilled(raw, e) => Spilled(raw, Anonymous(e))
  }

  function AnonymousItems(items: seq<Item>): seq<Item> {
    seq(|items|, i requires 0 <= i < |items| => AnonymousItem(items[i]))
  }

  lemma AnonymousJoin(a: seq<Item>, b: seq<Item>)
    ensures AnonymousItems(a + b) == AnonymousItems(a) + AnonymousItems(b)
  {
  }

  lemma CharTokenFree(cfg: Config, s: Scan, ch: char, t: int)
    ensures var (next, items) := FeedChar(cfg, s, ch, t);
      FeedChar(cfg, s, ch, 0) == (next, AnonymousItems(items))
  {
    var (next, items) := FeedChar(cfg, s, ch, t);
    var r := FeedChar(cfg, s, ch, 0);
    if |s.buffer| >= 2 && ch == '>' {
      CloseTokenFree(cfg, s.control, s.buffer + [ch], t);
    }
    assert r.1 == AnonymousItems(items);
  }

  lemma CloseTokenFree(cfg: Config, c: Control, raw: string, t: int)
    requires |raw| >= 2
    ensures Close(cfg, c, raw, 0) == (Close(cfg, c, raw, t).0, Anonymous(Close(cfg, c, raw, t).1))
  {
    var parsed := ParseTag(raw[1..|raw| - 1]);
    if parsed.Some? { ActTokenFree(cfg, c, parsed.value, t); }
  }

  lemma ActTokenFree(cfg: Config, c: Control, tag: Tag, t: int)
    ensures Act(cfg, c, tag, 0) == (Act(cfg, c, tag, t).0, Anonymous(Act(cfg, c, tag, t).1))
  {
  }

  lemma {:induction false} FeedTokenFree(cfg: Config, s: Scan, text: string, t: int)
    ensures var (next, items) := Feed(cfg, s, text, t);
      Feed(cfg, s, text, 0) == (next, AnonymousItems(items))
    decreases |text|
  {
    if text != "" {
      var n := |text| - 1;
      FeedTokenFree(cfg, s, text[..n], t);
      var (s1, a) := Feed(cfg, s, text[..n], t);
      CharTokenFree(cfg, s1, text[n], t);
      var (s2, b) := FeedChar(cfg, s1, text[n], t);
      AnonymousJoin(a, b);
    } else {
      assert AnonymousItems([]) == [];
    }
  }

  lemma {:induction false} FeedJoin(cfg: Config, s: Scan, a: string, b: string, t: int)
    ensures var (s1, x) := Feed(cfg, s, a, t);
      var (s2, y) := Feed(cfg, s1, b, t);
      Feed(cfg, s, a + b, t) == (s2, x + y)
    decreases |b|
  {
    var (s1, x) := Feed(cfg, s, a, t);
    if b == "" {
      assert a + b == a;
      assert x + [] == x;
    } else {
      var n := |b| - 1;
      FeedJoin(cfg, s, a, b[..n], t);
      var (s2, y) := Feed(cfg, s1, b[..n], t);
      var (s3, z) := FeedChar(cfg, s2, b[n], t);
      assert (a + b)[..|a + b| - 1] == a + b[..n];
      assert (x + y) + z == x + (y + z);
    }
  }

  /** Feeding token by token settles what feeding the whole text at once settles. */
  lemma {:induction false} StreamIsText(cfg: Config, s: Scan, tokens: seq<string>)
    ensures var (next, items) := Stream(cfg, s, tokens);
      Feed(cfg, s, Concat(tokens), 0) == (next, AnonymousItems(items))
    decreases |tokens|
  {
    if tokens != [] {
      var n := |tokens| - 1;
      StreamIsText(cfg, s, tokens[..n]);
      var (s1, a) := Stream(cfg, s, tokens[..n]);
      FeedTokenFree(cfg, s1, tokens[n], n);
      var (s2, b) := Feed(cfg, s1, tokens[n], n);
      FeedJoin(cfg, s, Concat(tokens[..n]), tokens[n], 0);
      AnonymousJoin(a, b);
    } else {
      assert AnonymousItems([]) == [];
    }
  }

  /** Two tokenisations of one text give the same mode, references, pending buffer, plain text and
      event sequence, token numbers aside. */
  lemma ChunkIndependence(cfg: Config, s: Scan, one: seq<string>, two: seq<string>)
    requires Concat(one) == Concat(two)
    ensures Stream(cfg, s, one).0 == Stream(cfg, s, two).0
    ensures AnonymousItems(Stream(cfg, s, one).1) == AnonymousItems(Stream(cfg, s, two).1)
    ensures TextsOf(Stream(cfg, s, one).1) == TextsOf(Stream(cfg, s, two).1)
  {
    StreamIsText(cfg, s, one);
    StreamIsText(cfg, s, two);
    TextsAnonymous(Stream(cfg, s, one).1);
    TextsAnonymous(Stream(cfg, s, two).1);
  }

  lemma {:induction false} TextsAnonymous(items: seq<Item>)
    ensures TextsOf(AnonymousItems(items)) == TextsOf(items)
  {
    if items != [] {
      var n := |items| - 1;
      TextsAnonymous(items[..n]);
      assert AnonymousItems(items)[..n] == AnonymousItems(items[..n]);
    }
  }

  /** Over a whole stream: nothing lost, nothing invented, the buffer bounded. */
  lemma StreamConserved(cfg: Config, tokens: seq<string>)
    ensures var (next, items) := Stream(cfg, INITIAL, tokens);
      Bounded(cfg, next) && Flatten(items) + next.buffer == Concat(tokens)
  {
    StreamIsText(cfg, INITIAL, tokens);
    FeedConserved(cfg, INITIAL, Concat(tokens), 0);
    FlattenAnonymous(Stream(cfg, INITIAL, tokens).1);
    assert "" + Concat(tokens) == Concat(tokens);
  }

  lemma {:induction false} FlattenAnonymous(items: seq<Item>)
    ensures Flatten(AnonymousItems(items)) == Flatten(items)
  {
    if items != [] {
      var n := |items| - 1;
      FlattenAnonymous(items[..n]);
      assert AnonymousItems(items)[..n] == AnonymousItems(items[..n]);
    }
  }

  // ---------------------------------------------------------------------------
  // The mode machine
  // ---------------------------------------------------------------------------

  /** Mode and references as the transitions alone determine them. */
  function Replay(c: Control, events: seq<Event>): Control {
    if events == [] then c
    else
      var last := events[|events| - 1];
      if last.kind.Transition? then Control(last.after, last.refs) else Replay(c, events[..|events| - 1])
  }

  /** Focus exactly with references, which are ascending and in range. */
  ghost predicate Sound(cfg: Config, c: Control) {
    && !c.mode.Unknown? && (c.mode.Focus? <==> c.refs != [])
    && Ascending(c.refs) && RefsInRange(c.refs, cfg.segments)
  }

  /** An event a stream can emit: only transitions change the mode, entering focus is an attempt. */
  predicate Regular(e: Event) {
    && (!e.kind.Transition? ==> e.before == e.after)
    && (e.kind.Transition? && e.after.Focus? ==> e.focusAttempt)
    && (e.kind.Transition? ==> e.before != e.after || e.after.Local? || e.after.Focus?)
    && e.effectStep == e.token + 1
  }

  lemma {:induction false} ReplayJoin(c: Control, a: seq<Event>, b: seq<Event>)
    ensures Replay(c, a + b) == Replay(Replay(c, a), b)
    decreases |b|
  {
    if b == [] {
      assert a + b == a;
    } else {
      ReplayJoin(c, a, b[..|b| - 1]);
      assert (a + b)[..|a + b| - 1] == a + b[..|b| - 1];
    }
  }

  /** What a verdict must satisfy to keep the machine sound. */
  ghost predicate KeepsSound(cfg: Config, c: Control, verdict: (Control, Event)) {
    Sound(cfg, verdict.0) && Regular(verdict.1) && verdict.0 == Replay(c, [verdict.1])
  }

  lemma MoveToFocusSound(cfg: Config, c: Control, refs: seq<int>, token: int)
    requires refs != [] && Ascending(refs) && RefsInRange(refs, cfg.segments)
    ensures KeepsSound(cfg, c, Move(c, "focus", Focus, refs, token))
  {
  }

  lemma StrangeSound(
    cfg: Config, c: Control, reason: Reason, name: string, refs: seq<int>, token: int, attempt: bool)
    requires Sound(cfg, c)
    ensures KeepsSound(cfg, c, Strange(c, reason, name, refs, token, attempt))
  {
  }

  lemma FocusSound(cfg: Config, c: Control, attrs: seq<Attr>, token: int)
    requires Sound(cfg, c)
    ensures KeepsSound(cfg, c, OpenFocus(cfg, c, attrs, token))
  {
    StrangeSound(cfg, c, UnexpectedAttribute, "focus", [], token, true);
    StrangeSound(cfg, c, MissingAttribute, "focus", [], token, true);
    StrangeSound(cfg, c, DuplicateAttribute, "focus", [], token, true);
    StrangeSound(cfg, c, MalformedAttribute, "focus", [], token, true);
    if |attrs| == 1 && ParseRefs(attrs[0].value).Some? {
      var refs := ParseRefs(attrs[0].value).value;
      RefsUsable(attrs[0].value);
      StrangeSound(cfg, c, InvalidReference, "focus", refs, token, true);
      if RefsInRange(refs, cfg.segments) { MoveToFocusSound(cfg, c, refs, token); }
    }
  }

  lemma RefsUsable(value: string)
    requires ParseRefs(value).Some?
    ensures ParseRefs(value).value != [] && Ascending(ParseRefs(value).value)
  {
    var vs := Values(Split(Strip(value), ','));
    assert vs[0] in Elements(vs);
    assert vs[0] in SortedInts(Elements(vs));
  }

  lemma CloseSound(cfg: Config, c: Control, raw: string, token: int)
    requires |raw| >= 2 && Sound(cfg, c)
    ensures var (next, e) := Close(cfg, c, raw, token);
      Sound(cfg, next) && Regular(e) && next == Replay(c, [e])
  {
    var parsed := ParseTag(raw[1..|raw| - 1]);
    if parsed.Some? { ActSound(cfg, c, parsed.value, token); }
  }

  lemma ActSound(cfg: Config, c: Control, t: Tag, token: int)
    requires Sound(cfg, c)
    ensures var (next, e) := Act(cfg, c, t, token);
      Sound(cfg, next) && Regular(e) && next == Replay(c, [e])
  {
    if t.name == "focus" && !t.closing { FocusSound(cfg, c, t.attrs, token); }
  }

  ghost predicate AllRegular(events: seq<Event>) {
    forall e :: e in events ==> Regular(e)
  }

  lemma CharSound(cfg: Config, s: Scan, ch: char, token: int)
    requires Sound(cfg, s.control)
    ensures var (next, items) := FeedChar(cfg, s, ch, token);
      && Sound(cfg, next.control) && AllRegular(EventsOf(items))
      && next.control == Replay(s.control, EventsOf(items))
  {
    if |s.buffer| <= 1 {
      QuietOutside(cfg, s, ch, token);
    } else if ch == '>' {
      CloseSound(cfg, s.control, s.buffer + [ch], token);
      var (c, e) := Close(cfg, s.control, s.buffer + [ch], token);
      OneEvent(Closed(s.buffer + [ch], e), e);
    } else if |s.buffer| + 1 > cfg.maxBuffer {
      var (name, attempt) := NameOfIncomplete(s.buffer + [ch]);
      var (c, e) := Strange(s.control, BufferOverflow, name, [], token, attempt);
      OneEvent(Spilled(s.buffer + [ch], e), e);
    }
  }

  lemma OneEvent(item: Item, e: Event)
    requires !item.Plain? && item.event == e
    ensures EventsOf([item]) == [e]
    ensures Regular(e) ==> AllRegular([e])
  {
    assert [item][..0] == [];
  }

  /** From any sound state, over any text: the state stays sound, mode and references are the replay
      of the transitions, and anomalies, no-ops and markers change nothing. */
  lemma {:induction false} FeedSound(cfg: Config, s: Scan, text: string, token: int)
    requires Sound(cfg, s.control)
    ensures var (next, items) := Feed(cfg, s, text, token);
      && Sound(cfg, next.control) && AllRegular(EventsOf(items))
      && next.control == Replay(s.control, EventsOf(items))
    decreases |text|
  {
    if text != "" {
      var n := |text| - 1;
      FeedSound(cfg, s, text[..n], token);
      var (s1, a) := Feed(cfg, s, text[..n], token);
      CharSound(cfg, s1, text[n], token);
      var (s2, b) := FeedChar(cfg, s1, text[n], token);
      EventsJoin(a, b);
      ReplayJoin(s.control, EventsOf(a), EventsOf(b));
    }
  }

  lemma {:induction false} StreamSound(cfg: Config, s: Scan, tokens: seq<string>)
    requires Sound(cfg, s.control)
    ensures var (next, items) := Stream(cfg, s, tokens);
      && Sound(cfg, next.control) && AllRegular(EventsOf(items))
      && next.control == Replay(s.control, EventsOf(items))
    decreases |tokens|
  {
    if tokens != [] {
      var n := |tokens| - 1;
      StreamSound(cfg, s, tokens[..n]);
      var (s1, a) := Stream(cfg, s, tokens[..n]);
      FeedSound(cfg, s1, tokens[n], n);
      var (s2, b) := Feed(cfg, s1, tokens[n], n);
      EventsJoin(a, b);
      ReplayJoin(s.control, EventsOf(a), EventsOf(b));
    }
  }

  /** Causality: a token changes nothing that was settled before it. */
  lemma {:induction false} StreamCausal(cfg: Config, s: Scan, tokens: seq<string>, n: nat)
    requires n <= |tokens|
    ensures var (_, early) := Stream(cfg, s, tokens[..n]);
      var (_, all) := Stream(cfg, s, tokens);
      |early| <= |all| && all[..|early|] == early
    decreases |tokens|
  {
    if n < |tokens| {
      var m := |tokens| - 1;
      StreamCausal(cfg, s, tokens[..m], n);
      assert tokens[..m][..n] == tokens[..n];
    } else {
      assert tokens[..n] == tokens;
    }
  }
}
