/** Per-request protocol state: one step record per sampled token, frozen by finish. */
module ProtocolState {
  import opened Basics
  import opened Visibility
  import opened TagSyntax
  import opened TagParser
  import opened StreamLaws

  datatype Token = Token(id: int, text: string)

  datatype StepRecord = StepRecord(
    tokenIndex: int, tokenId: int, text: string, modeAfter: Mode, refs: seq<int>, events: seq<Event>,
    sampled: int, writtenKvLen: int, attentionKvLenNext: int)

  function Texts(tokens: seq<Token>): (r: seq<string>)
    ensures |r| == |tokens| && forall i :: 0 <= i < |r| ==> r[i] == tokens[i].text
  {
    seq(|tokens|, i requires 0 <= i < |tokens| => tokens[i].text)
  }

  /** The record of token t, computed from the tokens up to and including t. */
  function RecordAt(cfg: Config, promptLen: int, tokens: seq<Token>, t: nat): StepRecord
    requires t < |tokens|
  {
    var before := Stream(cfg, INITIAL, Texts(tokens[..t])).0;
    var (after, items) := Feed(cfg, before, tokens[t].text, t);
    StepRecord(t, tokens[t].id, tokens[t].text, after.control.mode, after.control.refs, EventsOf(items),
               t + 1, promptLen + t, promptLen + t + 1)
  }

  /** Tokens after t cannot change record t; so a tag closed in token t shows first in record t,
      which drives forward step t + 1. */
  lemma RecordCausal(cfg: Config, promptLen: int, one: seq<Token>, two: seq<Token>, t: nat)
    requires t < |one| && t < |two| && one[..t + 1] == two[..t + 1]
    ensures RecordAt(cfg, promptLen, one, t) == RecordAt(cfg, promptLen, two, t)
  {
    assert one[..t] == one[..t + 1][..t] == two[..t];
    assert one[t] == one[..t + 1][t] == two[t];
  }

  /** Every event carries token t and takes effect at step t + 1. */
  ghost predicate AllAt(events: seq<Event>, t: int) {
    forall e :: e in events ==> e.token == t && e.effectStep == t + 1
  }

  /** A record's mode and references replay the transitions of tokens 0..t, and are sound; its own
      events carry token t and take effect at step t + 1. */
  lemma RecordReplays(cfg: Config, promptLen: int, tokens: seq<Token>, t: nat)
    requires t < |tokens|
    ensures var r := RecordAt(cfg, promptLen, tokens, t);
      && Control(r.modeAfter, r.refs)
         == Replay(INITIAL.control, EventsOf(Stream(cfg, INITIAL, Texts(tokens[..t + 1])).1))
      && Sound(cfg, Control(r.modeAfter, r.refs)) && AllAt(r.events, t)
  {
    var texts := Texts(tokens[..t + 1]);
    assert texts[..t] == Texts(tokens[..t]) && texts[t] == tokens[t].text;
    StreamSound(cfg, INITIAL, texts);
    EventTokens(cfg, Stream(cfg, INITIAL, texts[..t]).0, tokens[t].text, t);
    assert Stream(cfg, INITIAL, texts).0 == Feed(cfg, Stream(cfg, INITIAL, texts[..t]).0, texts[t], t).0;
  }

  lemma {:induction false} EventTokens(cfg: Config, s: Scan, text: string, t: int)
    ensures AllAt(EventsOf(Feed(cfg, s, text, t).1), t)
    decreases |text|
  {
    if text != "" {
      var n := |text| - 1;
      EventTokens(cfg, s, text[..n], t);
      var (s1, a) := Feed(cfg, s, text[..n], t);
      EventsJoin(a, FeedChar(cfg, s1, text[n], t).1);
      CharEventTokens(cfg, s1, text[n], t);
    }
  }

  lemma CharEventTokens(cfg: Config, s: Scan, ch: char, t: int)
    ensures AllAt(EventsOf(FeedChar(cfg, s, ch, t).1), t)
  {
    if |s.buffer| <= 1 {
      QuietOutside(cfg, s, ch, t);
    } else if ch == '>' {
      var e := Close(cfg, s.control, s.buffer + [ch], t).1;
      CloseTimed(cfg, s.control, s.buffer + [ch], t);
      OneEvent(Closed(s.buffer + [ch], e), e);
    } else if |s.buffer| + 1 > cfg.maxBuffer {
      var (name, attempt) := NameOfIncomplete(s.buffer + [ch]);
      var e := Strange(s.control, BufferOverflow, name, [], t, attempt).1;
      OneEvent(Spilled(s.buffer + [ch], e), e);
    }
  }

  lemma CloseTimed(cfg: Config, c: Control, raw: string, t: int)
    requires |raw| >= 2
    ensures Close(cfg, c, raw, t).1.token == t && Close(cfg, c, raw, t).1.effectStep == t + 1
  {
    var parsed := ParseTag(raw[1..|raw| - 1]);
    if parsed.Some? { ActTimed(cfg, c, parsed.value, t); }
  }

  lemma ActTimed(cfg: Config, c: Control, tag: Tag, t: int)
    ensures Act(cfg, c, tag, t).1.token == t && Act(cfg, c, tag, t).1.effectStep == t + 1
  {
  }

  // ---------------------------------------------------------------------------
  // Focus statistics
  // ---------------------------------------------------------------------------

  function Attempts(events: seq<Event>): nat {
    if events == [] then 0
    else Attempts(events[..|events| - 1]) + if events[|events| - 1].focusAttempt then 1 else 0
  }

  /** Transitions into focus. */
  function FocusEntries(events: seq<Event>): nat {
    if events == [] then 0
    else
      var e := events[|events| - 1];
      FocusEntries(events[..|events| - 1]) + if e.kind.Transition? && e.after.Focus? then 1 else 0
  }

  /** focus_stats: successes are exactly the entries into focus, and never exceed the attempts. */
  method CountFocus(events: seq<Event>) returns (attempts: nat, successes: nat)
    requires AllRegular(events)
    ensures attempts == Attempts(events) && successes == FocusEntries(events) && successes <= attempts
  {
    attempts, successes := 0, 0;
    for i := 0 to |events|
      invariant attempts == Attempts(events[..i]) && successes == FocusEntries(events[..i])
      invariant successes <= attempts
    {
      assert events[..i + 1][..i] == events[..i];
      assert events[i] in events;
      if !events[i].focusAttempt { continue; }
      attempts := attempts + 1;
      if events[i].kind.Transition? && events[i].after.Focus? { successes := successes + 1; }
    }
    assert events[..|events|] == events;
  }

  function AttemptSet(events: seq<Event>): set<int> {
    set i | 0 <= i < |events| && events[i].focusAttempt
  }

  function EntrySet(events: seq<Event>): set<int> {
    set i | 0 <= i < |events| && events[i].kind == Transition && events[i].after == Focus
  }

  /** The counts are the numbers of events that count. */
  lemma {:induction false} CountsExact(events: seq<Event>)
    ensures Attempts(events) == |AttemptSet(events)| && FocusEntries(events) == |EntrySet(events)|
  {
    if events != [] {
      var n := |events| - 1;
      CountsExact(events[..n]);
      LastAttempt(events);
      LastEntry(events);
      hide AttemptSet, EntrySet;
    }
  }

  lemma LastAttempt(events: seq<Event>)
    requires events != []
    ensures var n, e := |events| - 1, events[|events| - 1];
      |AttemptSet(events)| == |AttemptSet(events[..n])| + if e.focusAttempt then 1 else 0
  {
    var n, e := |events| - 1, events[|events| - 1];
    assert AttemptSet(events) == AttemptSet(events[..n]) + if e.focusAttempt then {n} else {};
  }

  lemma LastEntry(events: seq<Event>)
    requires events != []
    ensures var n, e := |events| - 1, events[|events| - 1];
      |EntrySet(events)| == |EntrySet(events[..n])| + if e.kind == Transition && e.after == Focus then 1 else 0
  {
    var n, e := |events| - 1, events[|events| - 1];
    assert EntrySet(events) == EntrySet(events[..n]) + if e.kind == Transition && e.after == Focus then {n} else {};
  }

  // ---------------------------------------------------------------------------
  // The state object
  // ---------------------------------------------------------------------------

  class RequestState {
    const config: Config
    const promptLen: int
    const parser: TagParser
    var steps: seq<StepRecord>
    var flushEvents: seq<Event>
    var stopToken: Option<int>
    var closed: bool
    ghost var tokens: seq<Token>  // everything fed so far

    ghost predicate Valid()
      reads this, parser
    {
      && parser.Valid() && parser.config == config
      && |steps| == |tokens|
      && (forall t :: 0 <= t < |tokens| ==> steps[t] == RecordAt(config, promptLen, tokens, t))
      && (!closed ==> && parser.State() == Stream(config, INITIAL, Texts(tokens)).0
                      && parser.log == Stream(config, INITIAL, Texts(tokens)).1
                      && flushEvents == [])
      && (closed ==> parser.buffer == "" && (flushEvents == [] || flushEvents == Unclosed()))
      && (stopToken.Some? ==> 0 <= stopToken.value < |steps|)
    }

    /** What an unclosed tag at the end of the fed tokens turns into. */
    ghost function Unclosed(): seq<Event>
      reads this
    {
      EventsOf(FlushItems(Stream(config, INITIAL, Texts(tokens)).0, |steps|))
    }

    constructor (config: Config, promptLen: int)
      ensures Valid() && fresh(parser) && tokens == [] && !closed
      ensures this.config == config && this.promptLen == promptLen
    {
      this.config, this.promptLen := config, promptLen;
      parser := new TagParser(config);
      steps, flushEvents, stopToken, closed, tokens := [], [], None, false, [];
    }

    /** A closed state refuses, a gap in the numbering refuses; otherwise one record is appended. */
    method FeedGeneratedToken(index: int, id: int, text: string) returns (r: Result<StepRecord>)
      requires Valid()
      modifies this`steps, this`tokens, parser
      ensures Valid()
      ensures r.Err? <==> old(closed) || index != old(|steps|)
      ensures r.Err? ==> r.error == if closed then RuntimeError else ValueError
      ensures r.Err? ==> steps == old(steps) && tokens == old(tokens) && parser.State() == old(parser.State())
      ensures r.Ok? ==> tokens == old(tokens) + [Token(id, text)] && steps == old(steps) + [r.value]
      ensures r.Ok? ==>
        && r.value.tokenIndex == index && r.value.tokenId == id && r.value.text == text && r.value.sampled == index + 1
        && r.value.writtenKvLen == promptLen + index && r.value.attentionKvLenNext == promptLen + index + 1
        && r.value.modeAfter == parser.mode && r.value.refs == parser.refs
    {
      hide Stream, Feed, EventsOf, FlushItems;
      if closed { return Err(RuntimeError); }
      if index != |steps| { return Err(ValueError); }
      var events := parser.FeedText(text, index);
      var written := promptLen + index;
      var record := StepRecord(index, id, text, parser.mode, parser.refs, events, |steps| + 1, written, written + 1);
      ghost var before := tokens;
      tokens := tokens + [Token(id, text)];
      steps := steps + [record];
      NextRecord(config, promptLen, before, Token(id, text));
      return Ok(record);
    }

    /** mark_stop_token */
    method MarkStop(index: int) returns (ok: bool)
      requires Valid()
      modifies this`stopToken
      ensures Valid() && ok == (0 <= index < |steps|)
      ensures stopToken == if ok then Some(index) else old(stopToken)
    {
      ok := 0 <= index < |steps|;
      if ok { stopToken := Some(index); }
    }

    /** focus_stats over every step's events and the flush events. */
    method FocusStats() returns (attempts: nat, successes: nat)
      requires Valid()
      ensures attempts == Attempts(AllEvents(steps, flushEvents))
      ensures successes == FocusEntries(AllEvents(steps, flushEvents)) && successes <= attempts
    {
      StepsRegular(config, promptLen, tokens, steps);
      FlushRegular(Stream(config, INITIAL, Texts(tokens)).0, |steps|);
      attempts, successes := CountFocus(AllEvents(steps, flushEvents));
    }

    /** finish: an unclosed tag becomes an anomaly; the state is frozen. A repeated call finds no
        open tag and forgets the flush events of the first. */
    method Finish() returns (events: seq<Event>)
      requires Valid()
      modifies this`flushEvents, this`closed, parser
      ensures Valid() && closed && events == flushEvents
      ensures events == if old(closed) then [] else Unclosed()
    {
      hide RecordAt, Stream, Strange, NameOfIncomplete, EventsOf;
      ghost var open := parser.State();
      events := parser.Flush(|steps|);
      flushEvents := events;
      closed := true;
      assert open.buffer == "" ==> FlushItems(open, |steps|) == [];
      NoEvents();
    }
  }

  lemma NoEvents()
    ensures EventsOf([]) == []
  {
  }

  /** _all_events */
  function AllEvents(steps: seq<StepRecord>, flush: seq<Event>): seq<Event> {
    StepEvents(steps) + flush
  }

  function StepEvents(steps: seq<StepRecord>): seq<Event> {
    if steps == [] then [] else StepEvents(steps[..|steps| - 1]) + steps[|steps| - 1].events
  }

  lemma {:induction false} StepsRegular(cfg: Config, promptLen: int, tokens: seq<Token>, steps: seq<StepRecord>)
    requires |steps| <= |tokens|
    requires forall t :: 0 <= t < |steps| ==> steps[t] == RecordAt(cfg, promptLen, tokens, t)
    ensures AllRegular(StepEvents(steps))
  {
    if steps != [] {
      var n := |steps| - 1;
      StepsRegular(cfg, promptLen, tokens, steps[..n]);
      var before := Stream(cfg, INITIAL, Texts(tokens[..n])).0;
      StreamSound(cfg, INITIAL, Texts(tokens[..n]));
      FeedSound(cfg, before, tokens[n].text, n);
      assert steps[n].events == EventsOf(Feed(cfg, before, tokens[n].text, n).1);
    }
  }

  lemma FlushRegular(s: Scan, token: int)
    ensures AllRegular(EventsOf(FlushItems(s, token)))
  {
    if s.buffer != "" {
      var item := FlushItems(s, token)[0];
      OneEvent(item, item.event);
    }
  }

  /** Appending a token leaves earlier records alone and extends the stream by one feed. */
  lemma NextRecord(cfg: Config, promptLen: int, tokens: seq<Token>, token: Token)
    ensures var more := tokens + [token];
      && (forall t :: 0 <= t < |tokens| ==> RecordAt(cfg, promptLen, more, t) == RecordAt(cfg, promptLen, tokens, t))
      && more[..|tokens|] == tokens
      && var (s, a) := Stream(cfg, INITIAL, Texts(tokens));
         var (next, b) := Feed(cfg, s, token.text, |tokens|);
         Stream(cfg, INITIAL, Texts(more)) == (next, a + b)
  {
    var more := tokens + [token];
    assert more[..|tokens|] == tokens;
    assert Texts(more)[..|tokens|] == Texts(tokens);
    forall t | 0 <= t < |tokens|
      ensures RecordAt(cfg, promptLen, more, t) == RecordAt(cfg, promptLen, tokens, t) {
      assert more[..t + 1] == tokens[..t + 1];
      RecordCausal(cfg, promptLen, more, tokens, t);
    }
  }

  /** Two requests that were fed the same first n tokens have the same first n records, whatever came
      later and whether or not they are finished. */
  lemma StepsCausal(one: RequestState, two: RequestState, n: nat)
    requires one.Valid() && two.Valid() && one.config == two.config && one.promptLen == two.promptLen
    requires n <= |one.tokens| && n <= |two.tokens| && one.tokens[..n] == two.tokens[..n]
    ensures one.steps[..n] == two.steps[..n]
  {
    forall t | 0 <= t < n ensures one.steps[t] == two.steps[t] {
      assert one.tokens[..t + 1] == one.tokens[..n][..t + 1] == two.tokens[..t + 1];
      RecordCausal(one.config, one.promptLen, one.tokens, two.tokens, t);
    }
  }
}
