/** The incremental tag scanner and its mode machine. */
module TagParser {
  import opened Basics
  import opened Visibility
  import opened TagSyntax

  datatype Kind = Transition | Noop | Marker | Anomaly

  datatype Reason =
    | NoReason | IncompleteTag | BufferOverflow | MalformedAttribute | UnknownTag
    | UnexpectedAttribute | MissingAttribute | DuplicateAttribute | InvalidReference | MismatchedClose

  datatype Event = Event(
    kind: Kind, name: string, before: Mode, after: Mode, refs: seq<int>, token: int, effectStep: int,
    reason: Reason, focusAttempt: bool)

  /** What later steps depend on. */
  datatype Control = Control(mode: Mode, refs: seq<int>)

  /** num_segments and max_tag_buffer */
  datatype Config = Config(segments: nat, maxBuffer: int)

  /** Scanner state: the buffer is empty exactly when no tag has been opened. */
  datatype Scan = Scan(control: Control, buffer: string)

  /** What one character settles: plain text, a closed tag, or an overlong buffer given back as text. */
  datatype Item =
    | Plain(text: string)
    | Closed(raw: string, event: Event)
    | Spilled(raw: string, event: Event)

  predicate Known(name: string) {
    name == "global" || name == "local" || name == "focus" || name == "answer"
  }

  const INITIAL := Scan(Control(Global, []), "")

  // ---------------------------------------------------------------------------
  // Events
  // ---------------------------------------------------------------------------

  function Stay(c: Control, kind: Kind, name: string, token: int): (Control, Event) {
    (c, Event(kind, name, c.mode, c.mode, c.refs, token, token + 1, NoReason, false))
  }

  function Strange(
    c: Control, reason: Reason, name: string, refs: seq<int>, token: int, attempt: bool): (Control, Event)
  {
    (c, Event(Anomaly, name, c.mode, c.mode, refs, token, token + 1, reason, attempt))
  }

  function Move(c: Control, name: string, mode: Mode, refs: seq<int>, token: int): (Control, Event) {
    var kept := if mode.Focus? then refs else [];
    (Control(mode, kept), Event(Transition, name, c.mode, mode, kept, token, token + 1, NoReason, mode.Focus?))
  }

  /** The name and focus-call status of an unclosed buffer (which starts with '<'). */
  function NameOfIncomplete(buffer: string): (string, bool)
    requires buffer != ""
  {
    match ParseHead(buffer[1..])
    case None => ("", false)
    case Some(h) => if Known(h.name) then (h.name, h.name == "focus" && !h.closing) else ("", false)
  }

  /** An opening focus tag: exactly one magic_chunks attribute with references in range. */
  function OpenFocus(cfg: Config, c: Control, attrs: seq<Attr>, token: int): (Control, Event) {
    if exists i :: 0 <= i < |attrs| && attrs[i].name != FOCUS_ATTR then
      Strange(c, UnexpectedAttribute, "focus", [], token, true)
    else if attrs == [] then Strange(c, MissingAttribute, "focus", [], token, true)
    else if |attrs| > 1 then Strange(c, DuplicateAttribute, "focus", [], token, true)
    else match ParseRefs(attrs[0].value)
      case None => Strange(c, MalformedAttribute, "focus", [], token, true)
      case Some(refs) =>
        if RefsInRange(refs, cfg.segments) then Move(c, "focus", Focus, refs, token)
        else Strange(c, InvalidReference, "focus", refs, token, true)
  }

  /** A tag that matches the strict pattern. */
  function Act(cfg: Config, c: Control, t: Tag, token: int): (Control, Event) {
    if t.name == "answer" then
      if t.attrs != [] then Strange(c, UnexpectedAttribute, t.name, [], token, false)
      else Stay(c, Marker, t.name, token)
    else if t.name == "global" then
      if t.attrs != [] then Strange(c, UnexpectedAttribute, t.name, [], token, false)
      else if t.closing && c.mode != Global then Strange(c, MismatchedClose, "", [], token, false)
      else Stay(c, Noop, t.name, token)
    else if t.name == "local" then
      if t.attrs != [] then Strange(c, UnexpectedAttribute, t.name, [], token, false)
      else if t.closing && c.mode != Local then Strange(c, MismatchedClose, "", [], token, false)
      else Move(c, t.name, if t.closing then Global else Local, [], token)
    else if t.name == "focus" then
      if !t.closing then OpenFocus(cfg, c, t.attrs, token)
      else if t.attrs != [] then Strange(c, UnexpectedAttribute, t.name, [], token, false)
      else if c.mode != Focus then Strange(c, MismatchedClose, "", [], token, false)
      else Move(c, t.name, Global, [], token)
    else Strange(c, UnknownTag, t.name, [], token, false)
  }

  /** A buffer that just received its '>'. */
  function Close(cfg: Config, c: Control, raw: string, token: int): (Control, Event)
    requires |raw| >= 2
  {
    var inner := raw[1..|raw| - 1];
    match ParseTag(inner)
    case Some(t) => Act(cfg, c, t, token)
    case None =>
      match ParseLoose(inner)
      case Some(h) =>
        if Known(h.name)
        then Strange(c, MalformedAttribute, h.name, [], token, h.name == "focus" && !h.closing)
        else Strange(c, UnknownTag, "", [], token, false)
      case None => Strange(c, UnknownTag, "", [], token, false)
  }

  // ---------------------------------------------------------------------------
  // One character, one token, one stream
  // ---------------------------------------------------------------------------

  function FeedChar(cfg: Config, s: Scan, ch: char, token: int): (Scan, seq<Item>) {
    if s.buffer == "" then
      if ch == '<' then (s.(buffer := "<"), []) else (s, [Plain([ch])])
    else if |s.buffer| == 1 then
      if ch == '/' || IsLetter(ch) then (s.(buffer := s.buffer + [ch]), [])
      else if ch == '<' then (s.(buffer := "<"), [Plain("<")])
      else (s.(buffer := ""), [Plain("<"), Plain([ch])])
    else
      var raw := s.buffer + [ch];
      if ch == '>' then
        var (c, e) := Close(cfg, s.control, raw, token);
        (Scan(c, ""), [Closed(raw, e)])
      else if |raw| > cfg.maxBuffer then
        var (name, attempt) := NameOfIncomplete(raw);
        var (c, e) := Strange(s.control, BufferOverflow, name, [], token, attempt);
        (Scan(c, ""), [Spilled(raw, e)])
      else (s.(buffer := raw), [])
  }

  function Feed(cfg: Config, s: Scan, text: string, token: int): (Scan, seq<Item>)
    decreases |text|
  {
    if text == "" then (s, [])
    else
      var (s1, a) := Feed(cfg, s, text[..|text| - 1], token);
      var (s2, b) := FeedChar(cfg, s1, text[|text| - 1], token);
      (s2, a + b)
  }

  /** Tokens are numbered 0, 1, .. */
  function Stream(cfg: Config, s: Scan, tokens: seq<string>): (Scan, seq<Item>) {
    if tokens == [] then (s, [])
    else
      var n := |tokens| - 1;
      var (s1, a) := Stream(cfg, s, tokens[..n]);
      var (s2, b) := Feed(cfg, s1, tokens[n], n);
      (s2, a + b)
  }

  function EventsOf(items: seq<Item>): seq<Event> {
    if items == [] then []
    else
      var last := items[|items| - 1];
      EventsOf(items[..|items| - 1]) + if last.Plain? then [] else [last.event]
  }

  /** The plain_text pieces. */
  function TextsOf(items: seq<Item>): seq<string> {
    if items == [] then []
    else
      var last := items[|items| - 1];
      TextsOf(items[..|items| - 1])
      + match last { case Plain(t) => [t] case Spilled(raw, _) => [raw] case Closed(_, _) => [] }
  }

  function AnomaliesOf(events: seq<Event>): seq<Event> {
    if events == [] then []
    else
      var last := events[|events| - 1];
      AnomaliesOf(events[..|events| - 1]) + if last.kind.Anomaly? then [last] else []
  }

  // ---------------------------------------------------------------------------
  // The parser object
  // ---------------------------------------------------------------------------

  class TagParser {
    const config: Config
    var mode: Mode
    var refs: seq<int>
    var buffer: string
    var started: bool
    var plainText: seq<string>
    var anomalies: seq<Event>
    ghost var log: seq<Item>  // everything settled so far, in order

    ghost predicate Valid()
      reads this
    {
      && (started <==> buffer != "")
      && plainText == TextsOf(log) && anomalies == AnomaliesOf(EventsOf(log))
    }

    function State(): Scan
      reads this
    {
      Scan(Control(mode, refs), buffer)
    }

    constructor (config: Config)
      ensures Valid() && this.config == config && State() == INITIAL && log == []
    {
      this.config := config;
      mode, refs, buffer, started, plainText, anomalies, log := Global, [], "", false, [], [], [];
    }

    /** Record what a character settled. */
    ghost method Settle(items: seq<Item>, before: seq<Item>)
      requires log == before
      modifies this`log
      ensures log == before + items
    {
      log := before + items;
    }

    method Transit(name: string, target: Mode, targetRefs: seq<int>, token: int) returns (e: Event)
      modifies this`mode, this`refs
      ensures (Control(mode, refs), e) == Move(old(Control(mode, refs)), name, target, targetRefs, token)
    {
      var before := mode;
      mode := target;
      refs := if target.Focus? then targetRefs else [];
      e := Event(Transition, name, before, target, refs, token, token + 1, NoReason, target.Focus?);
    }

    method Report(reason: Reason, name: string, about: seq<int>, token: int, attempt: bool) returns (e: Event)
      modifies this`anomalies
      ensures e == Strange(Control(mode, refs), reason, name, about, token, attempt).1
      ensures anomalies == old(anomalies) + [e]
    {
      e := Event(Anomaly, name, mode, mode, about, token, token + 1, reason, attempt);
      anomalies := anomalies + [e];
    }

    method ActFocus(attrs: seq<Attr>, token: int) returns (e: Event)
      modifies this`mode, this`refs, this`anomalies
      ensures (Control(mode, refs), e) == OpenFocus(config, old(Control(mode, refs)), attrs, token)
      ensures anomalies == old(anomalies) + AnomaliesOf([e])
    {
      if exists i :: 0 <= i < |attrs| && attrs[i].name != FOCUS_ATTR {
        e := Report(UnexpectedAttribute, "focus", [], token, true);
      } else if attrs == [] {
        e := Report(MissingAttribute, "focus", [], token, true);
      } else if |attrs| > 1 {
        e := Report(DuplicateAttribute, "focus", [], token, true);
      } else {
        var parsed := ParseRefs(attrs[0].value);
        if parsed.None? {
          e := Report(MalformedAttribute, "focus", [], token, true);
        } else if !RefsInRange(parsed.value, config.segments) {
          e := Report(InvalidReference, "focus", parsed.value, token, true);
        } else {
          e := Transit("focus", Focus, parsed.value, token);
        }
      }
    }

    method ActTag(t: Tag, token: int) returns (e: Event)
      modifies this`mode, this`refs, this`anomalies
      ensures (Control(mode, refs), e) == Act(config, old(Control(mode, refs)), t, token)
      ensures anomalies == old(anomalies) + AnomaliesOf([e])
    {
      if t.name == "focus" && !t.closing {
        e := ActFocus(t.attrs, token);
      } else if Known(t.name) && t.attrs != [] {
        e := Report(UnexpectedAttribute, t.name, [], token, false);
      } else if t.name == "answer" {
        e := Event(Marker, t.name, mode, mode, refs, token, token + 1, NoReason, false);
      } else if t.name == "global" {
        if t.closing && mode != Global {
          e := Report(MismatchedClose, "", [], token, false);
        } else {
          e := Event(Noop, t.name, mode, mode, refs, token, token + 1, NoReason, false);
        }
      } else if t.name == "local" {
        if t.closing && mode != Local {
          e := Report(MismatchedClose, "", [], token, false);
        } else {
          e := Transit(t.name, if t.closing then Global else Local, [], token);
        }
      } else if t.name == "focus" {
        if mode != Focus {
          e := Report(MismatchedClose, "", [], token, false);
        } else {
          e := Transit(t.name, Global, [], token);
        }
      } else {
        e := Report(UnknownTag, t.name, [], token, false);
      }
    }

    method CloseTag(raw: string, token: int) returns (e: Event)
      requires |raw| >= 2
      modifies this`mode, this`refs, this`anomalies
      ensures (Control(mode, refs), e) == Close(config, old(Control(mode, refs)), raw, token)
      ensures anomalies == old(anomalies) + AnomaliesOf([e])
    {
      var inner := raw[1..|raw| - 1];
      var parsed := ParseTag(inner);
      if parsed.Some? {
        e := ActTag(parsed.value, token);
      } else {
        var loose := ParseLoose(inner);
        if loose.Some? && Known(loose.value.name) {
          e := Report(MalformedAttribute, loose.value.name, [], token,
                      loose.value.name == "focus" && !loose.value.closing);
        } else {
          e := Report(UnknownTag, "", [], token, false);
        }
      }
    }

    method ResetBuffer()
      modifies this`buffer, this`started
      ensures buffer == "" && !started
    {
      buffer, started := "", false;
    }

    /** A character while no tag is open. */
    method FeedOutside(ch: char)
      requires Valid() && !started
      modifies this
      ensures Valid()
      ensures var (next, items) := FeedChar(config, old(State()), ch, 0);
        State() == next && log == old(log) + items
    {
      ghost var before := log;
      if ch == '<' {
        started, buffer := true, "<";
        assert before + [] == before;
      } else {
        plainText := plainText + [[ch]];
        SettledViews(before, [Plain([ch])]);
        Settle([Plain([ch])], before);
      }
    }

    /** The character after '<' decides whether this can be a tag. */
    method FeedAfterOpen(ch: char)
      requires Valid() && |buffer| == 1
      modifies this
      ensures Valid()
      ensures var (next, items) := FeedChar(config, old(State()), ch, 0);
        State() == next && log == old(log) + items
    {
      ghost var before := log;
      if ch == '/' || IsLetter(ch) {
        buffer := buffer + [ch];
        assert before + [] == before;
      } else if ch == '<' {
        plainText, buffer := plainText + ["<"], "<";
        SettledViews(before, [Plain("<")]);
        Settle([Plain("<")], before);
      } else {
        plainText := plainText + ["<"];
        plainText := plainText + [[ch]];
        ResetBuffer();
        TwoPlain("<", [ch]);
        SettledViews(before, [Plain("<"), Plain([ch])]);
        Settle([Plain("<"), Plain([ch])], before);
      }
    }

    /** '>' arrived: the whole buffer is one closed tag. */
    method CloseBuffer(token: int) returns (e: Event)
      requires Valid() && |buffer| >= 2
      modifies this
      ensures Valid() && buffer == ""
      ensures (Control(mode, refs), e) == Close(config, old(Control(mode, refs)), old(buffer), token)
      ensures log == old(log) + [Closed(old(buffer), e)]
    {
      hide Close, TextsOf, EventsOf, AnomaliesOf;
      ghost var before := log;
      var raw := buffer;
      ResetBuffer();
      e := CloseTag(raw, token);
      ClosedViews(raw, e);
      SettledViews(before, [Closed(raw, e)]);
      Settle([Closed(raw, e)], before);
    }

    /** The buffer is given back as plain text, with an anomaly. */
    method SpillBuffer(reason: Reason, token: int) returns (e: Event)
      requires Valid() && buffer != ""
      modifies this
      ensures Valid() && buffer == "" && mode == old(mode) && refs == old(refs)
      ensures var (name, attempt) := NameOfIncomplete(old(buffer));
        e == Strange(Control(mode, refs), reason, name, [], token, attempt).1
      ensures log == old(log) + [Spilled(old(buffer), e)]
    {
      hide TextsOf, EventsOf, AnomaliesOf, NameOfIncomplete;
      ghost var before := log;
      var raw := buffer;
      var (name, attempt) := NameOfIncomplete(raw);
      plainText := plainText + [raw];
      ResetBuffer();
      e := Report(reason, name, [], token, attempt);
      SpilledViews(before, raw, e);
      Settle([Spilled(raw, e)], before);
    }

    /** A character inside a tag: it closes the tag, overflows the buffer, or is collected. */
    method FeedInside(ch: char, token: int) returns (events: seq<Event>)
      requires Valid() && |buffer| >= 2
      modifies this
      ensures Valid()
      ensures var (next, items) := FeedChar(config, old(State()), ch, token);
        State() == next && log == old(log) + items && events == EventsOf(items)
    {
      buffer := buffer + [ch];
      if ch == '>' {
        var e := CloseBuffer(token);
        return [e];
      }
      if |buffer| > config.maxBuffer {
        var e := SpillBuffer(BufferOverflow, token);
        return [e];
      }
      assert log + [] == log;
      return [];
    }

    /** One character: the object does exactly what the state machine says. */
    method FeedOne(ch: char, token: int) returns (events: seq<Event>)
      requires Valid()
      modifies this
      ensures Valid()
      ensures var (next, items) := FeedChar(config, old(State()), ch, token);
        State() == next && log == old(log) + items && events == EventsOf(items)
    {
      events := [];
      if |buffer| <= 1 { QuietOutside(config, State(), ch, token); }
      if !started {
        FeedOutside(ch);
      } else if |buffer| == 1 {
        FeedAfterOpen(ch);
      } else {
        events := FeedInside(ch, token);
      }
    }

    /** feed: the events of a text piece. */
    method FeedText(text: string, token: int) returns (events: seq<Event>)
      requires Valid()
      modifies this
      ensures Valid()
      ensures var (next, items) := Feed(config, old(State()), text, token);
        State() == next && log == old(log) + items && events == EventsOf(items)
    {
      events := [];
      ghost var start, base := State(), log;
      assert base + [] == base;
      for i := 0 to |text|
        invariant Valid()
        invariant Fed(start, base, text[..i], token, State(), log, events)
      {
        var more := FeedOne(text[i], token);
        FedStep(start, base, text, i, token, events);
        events := events + more;
      }
      assert text[..|text|] == text;
    }

    /** Having fed `text` from `start` leads to this state, log and event list. */
    ghost predicate Fed(
      start: Scan, base: seq<Item>, text: string, token: int, now: Scan, full: seq<Item>, events: seq<Event>)
    {
      var (next, items) := Feed(config, start, text, token);
      now == next && full == base + items && events == EventsOf(items)
    }

    lemma FedStep(start: Scan, base: seq<Item>, text: string, i: int, token: int, events: seq<Event>)
      requires 0 <= i < |text|
      requires events == EventsOf(Feed(config, start, text[..i], token).1)
      ensures var (s, a) := Feed(config, start, text[..i], token);
        var (next, b) := FeedChar(config, s, text[i], token);
        Fed(start, base, text[..i + 1], token, next, (base + a) + b, events + EventsOf(b))
    {
      assert text[..i + 1][..i] == text[..i];
      var (s, a) := Feed(config, start, text[..i], token);
      var (next, b) := FeedChar(config, s, text[i], token);
      EventsJoin(a, b);
      assert (base + a) + b == base + (a + b);
    }

    /** flush: an unclosed buffer becomes an anomaly and plain text. */
    method Flush(token: int) returns (events: seq<Event>)
      requires Valid()
      modifies this
      ensures Valid() && State() == Scan(old(State()).control, "")
      ensures events == EventsOf(FlushItems(old(State()), token))
      ensures log == old(log) + FlushItems(old(State()), token)
    {
      if started {
        var e := SpillBuffer(IncompleteTag, token);
        return [e];
      }
      assert log + [] == log;
      return [];
    }
  }

  /** What flushing an open buffer settles. */
  function FlushItems(s: Scan, token: int): seq<Item> {
    if s.buffer == "" then []
    else
      var (name, attempt) := NameOfIncomplete(s.buffer);
      [Spilled(s.buffer, Strange(s.control, IncompleteTag, name, [], token, attempt).1)]
  }

  lemma ClosedViews(raw: string, e: Event)
    ensures TextsOf([Closed(raw, e)]) == [] && EventsOf([Closed(raw, e)]) == [e]
  {
    assert [Closed(raw, e)][..0] == [];
  }

  lemma TwoPlain(a: string, b: string)
    ensures TextsOf([Plain(a), Plain(b)]) == [a, b] && EventsOf([Plain(a), Plain(b)]) == []
  {
    TextsJoin([Plain(a)], [Plain(b)]);
    EventsJoin([Plain(a)], [Plain(b)]);
    assert [Plain(a)] + [Plain(b)] == [Plain(a), Plain(b)];
  }

  /** Outside a tag, and right after '<', nothing depends on the token number and no event occurs. */
  lemma QuietOutside(cfg: Config, s: Scan, ch: char, token: int)
    requires |s.buffer| <= 1
    ensures FeedChar(cfg, s, ch, token) == FeedChar(cfg, s, ch, 0)
    ensures EventsOf(FeedChar(cfg, s, ch, token).1) == []
  {
    TwoPlain("<", [ch]);
  }

  lemma {:induction false} EventsJoin(a: seq<Item>, b: seq<Item>)
    ensures EventsOf(a + b) == EventsOf(a) + EventsOf(b)
  {
    if b == [] {
      assert a + b == a;
    } else {
      EventsJoin(a, b[..|b| - 1]);
      assert (a + b)[..|a + b| - 1] == a + b[..|b| - 1];
    }
  }

  lemma {:induction false} TextsJoin(a: seq<Item>, b: seq<Item>)
    ensures TextsOf(a + b) == TextsOf(a) + TextsOf(b)
  {
    if b == [] {
      assert a + b == a;
    } else {
      TextsJoin(a, b[..|b| - 1]);
      assert (a + b)[..|a + b| - 1] == a + b[..|b| - 1];
    }
  }

  lemma {:induction false} AnomaliesJoin(a: seq<Event>, b: seq<Event>)
    ensures AnomaliesOf(a + b) == AnomaliesOf(a) + AnomaliesOf(b)
  {
    if b == [] {
      assert a + b == a;
    } else {
      AnomaliesJoin(a, b[..|b| - 1]);
      assert (a + b)[..|a + b| - 1] == a + b[..|b| - 1];
    }
  }

  lemma SpilledViews(before: seq<Item>, raw: string, e: Event)
    requires e.kind.Anomaly?
    ensures TextsOf(before + [Spilled(raw, e)]) == TextsOf(before) + [raw]
    ensures AnomaliesOf(EventsOf(before + [Spilled(raw, e)])) == AnomaliesOf(EventsOf(before)) + [e]
    ensures EventsOf([Spilled(raw, e)]) == [e]
  {
    var after := before + [Spilled(raw, e)];
    assert after[..|after| - 1] == before;
    var events := EventsOf(before) + [e];
    assert events[..|events| - 1] == EventsOf(before);
  }

  lemma SettledViews(before: seq<Item>, items: seq<Item>)
    ensures TextsOf(before + items) == TextsOf(before) + TextsOf(items)
    ensures AnomaliesOf(EventsOf(before + items)) == AnomaliesOf(EventsOf(before)) + AnomaliesOf(EventsOf(items))
  {
    TextsJoin(before, items);
    EventsJoin(before, items);
    AnomaliesJoin(EventsOf(before), EventsOf(items));
  }
}
