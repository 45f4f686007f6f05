/** Protocol and cache together: the model's own tags decide what each later forward reads. */
module ServedRun {
  import opened Basics
  import opened Spans
  import opened Visibility
  import opened TagParser
  import opened StreamLaws
  import opened RoundTrip
  import opened TagLaws
  import opened ProtocolState
  import opened KvRun
  import opened StepPlan

  /** Mode and references after the first n generated tokens, as their transitions determine them. */
  function ControlAfter(cfg: Config, tokens: seq<Token>, n: nat): Control
    requires n <= |tokens|
  {
    Replay(INITIAL.control, EventsOf(Stream(cfg, INITIAL, Texts(tokens[..n])).1))
  }

  /** What the forward that consumes token t may read: the tags of tokens 0..t are in force. */
  function ServedQuestion(cfg: Config, layout: TokenLayout, b: int, tokens: seq<Token>, t: nat): Query
    requires t < |tokens|
  {
    var c := ControlAfter(cfg, tokens, t + 1);
    Query(c.mode, c.refs, layout, layout.promptLen + t + 1, b)
  }

  function StepOf(r: StepRecord): Step<Token> {
    Step(Token(r.tokenId, r.text), r.modeAfter, r.refs)
  }

  /** The records' forwards, in order. */
  predicate StepsOf(steps: seq<Step<Token>>, records: seq<StepRecord>) {
    |steps| == |records| && forall t :: 0 <= t < |steps| ==> steps[t] == StepOf(records[t])
  }

  predicate RecordsOf(cfg: Config, promptLen: int, tokens: seq<Token>, records: seq<StepRecord>) {
    |records| == |tokens| && forall t :: 0 <= t < |tokens| ==> records[t] == RecordAt(cfg, promptLen, tokens, t)
  }

  /** Local reads need a local window; a run that never declares local does without one. */
  predicate LocalUsable(cfg: Config, layout: TokenLayout, tokens: seq<Token>) {
    layout.localWindow == Span(0, 0) ==> forall t :: 0 <= t < |tokens| ==> !ReadsLocal(cfg, tokens, t)
  }

  predicate ReadsLocal(cfg: Config, tokens: seq<Token>, t: nat)
    requires t < |tokens|
  {
    ControlAfter(cfg, tokens, t + 1).mode.Local?
  }

  /** Whatever the model prints, every step the protocol derives from it is a legal one. */
  lemma ProtocolStepsLegal(cfg: Config, layout: TokenLayout, tokens: seq<Token>, t: nat)
    requires cfg.segments == |layout.segmentSpans| && LocalUsable(cfg, layout, tokens) && t < |tokens|
    ensures Legal(StepOf(RecordAt(cfg, layout.promptLen, tokens, t)), layout)
    ensures StepOf(RecordAt(cfg, layout.promptLen, tokens, t)).token == tokens[t]
  {
    RecordReplays(cfg, layout.promptLen, tokens, t);
    assert ControlAfter(cfg, tokens, t + 1).mode == RecordAt(cfg, layout.promptLen, tokens, t).modeAfter;
    assert layout.localWindow == Span(0, 0) ==> !ReadsLocal(cfg, tokens, t);
  }

  /** Feed the generated tokens to a fresh protocol state. */
  method Record(cfg: Config, promptLen: int, tokens: seq<Token>) returns (records: seq<StepRecord>)
    ensures RecordsOf(cfg, promptLen, tokens, records)
  {
    var state := new RequestState(cfg, promptLen);
    for i := 0 to |tokens|
      invariant fresh(state) && fresh(state.parser) && state.Valid() && !state.closed
      invariant state.config == cfg && state.promptLen == promptLen && state.tokens == tokens[..i]
    {
      var fed := state.FeedGeneratedToken(i, tokens[i].id, tokens[i].text);
      assert tokens[..i + 1] == tokens[..i] + [tokens[i]];
    }
    assert tokens[..|tokens|] == tokens;
    records := state.steps;
  }

  method StepList(records: seq<StepRecord>) returns (steps: seq<Step<Token>>)
    ensures StepsOf(steps, records)
  {
    steps := [];
    for i := 0 to |records|
      invariant StepsOf(steps, records[..i])
    {
      assert records[..i + 1] == records[..i] + [records[i]];
      steps := steps + [StepOf(records[i])];
    }
    assert records[..|records|] == records;
  }

  /** For any generated text: the forward that consumes token t reads the truth at exactly the
      positions the tags of tokens 0..t make visible, and every written token stays readable. */
  method Serve(
    cache: PagedCache<Token>, prompt: seq<Token>, tokens: seq<Token>, layout: TokenLayout, g: Geometry, cfg: Config)
    returns (outs: seq<seq<Token>>)
    requires cache.Valid() && cache.history == [] && cache.mapping == []
    requires g.Refusal().None? && g.block == cache.block
    requires layout.promptLen == |prompt| && |prompt| + |tokens| <= g.maxModelLen
    requires CeilDiv(|prompt| + |tokens|, g.block) <= |cache.pool|
    requires cfg.segments == |layout.segmentSpans| && LocalUsable(cfg, layout, tokens)
    modifies cache, cache.slots
    ensures |outs| == |tokens| && cache.Valid() && cache.history == prompt + tokens
    ensures forall t :: 0 <= t < |tokens| ==> Served(outs[t], prompt, tokens, layout, g.block, cfg, t)
  {
    hide RecordsOf, StepsOf, Legal, LocalUsable, RecordAt, StepRead, Served;
    var records := Record(cfg, |prompt|, tokens);
    var steps := StepList(records);
    ServedSteps(cfg, layout, tokens, records, steps);
    outs := Run(cache, prompt, steps, layout, g);
    forall t | 0 <= t < |tokens| ensures Served(outs[t], prompt, tokens, layout, g.block, cfg, t) {
      ServedRead(outs[t], prompt, tokens, steps, layout, g.block, cfg, t);
    }
  }

  /** The read of the forward that consumes token t is the truth at its own visible positions. */
  ghost predicate Served(
    out: seq<Token>, prompt: seq<Token>, tokens: seq<Token>, layout: TokenLayout, b: int, cfg: Config, t: nat)
    requires b > 0 && t < |tokens|
  {
    Listed(out, prompt + tokens[..t + 1], ServedQuestion(cfg, layout, b, tokens, t))
  }

  lemma ServedRead(
    out: seq<Token>, prompt: seq<Token>, tokens: seq<Token>, steps: seq<Step<Token>>, layout: TokenLayout,
    b: int, cfg: Config, t: nat)
    requires b > 0 && |steps| == |tokens| && t < |tokens| && layout.promptLen == |prompt| && Tokens(steps) == tokens
    requires steps[t] == StepOf(RecordAt(cfg, layout.promptLen, tokens, t))
    requires StepRead(out, prompt, steps, t, layout, b)
    ensures Served(out, prompt, tokens, layout, b, cfg, t)
  {
    hide RecordAt, Listed;
    ServedStep(cfg, layout, tokens, t, b);
  }

  lemma ServedSteps(
    cfg: Config, layout: TokenLayout, tokens: seq<Token>, records: seq<StepRecord>, steps: seq<Step<Token>>)
    requires RecordsOf(cfg, layout.promptLen, tokens, records) && StepsOf(steps, records)
    requires cfg.segments == |layout.segmentSpans| && LocalUsable(cfg, layout, tokens)
    ensures |steps| == |tokens| && Tokens(steps) == tokens
    ensures forall t :: 0 <= t < |steps| ==> Legal(steps[t], layout)
    ensures forall t :: 0 <= t < |steps| ==> steps[t] == StepOf(RecordAt(cfg, layout.promptLen, tokens, t))
  {
    forall t | 0 <= t < |tokens| ensures Legal(steps[t], layout) && steps[t].token == tokens[t] {
      ProtocolStepsLegal(cfg, layout, tokens, t);
    }
  }

  /** The question a protocol step asks is the one its tags determine. */
  lemma ServedStep(cfg: Config, layout: TokenLayout, tokens: seq<Token>, t: nat, b: int)
    requires t < |tokens|
    ensures StepQuestion(StepOf(RecordAt(cfg, layout.promptLen, tokens, t)), layout, b, layout.promptLen + t + 1)
         == ServedQuestion(cfg, layout, b, tokens, t)
  {
    RecordReplays(cfg, layout.promptLen, tokens, t);
  }

  // ---------------------------------------------------------------------------
  // What a tag in the generated text does to the next forward
  // ---------------------------------------------------------------------------

  /** Before token n no tag is open. */
  ghost predicate NothingOpen(cfg: Config, tokens: seq<Token>, n: nat)
    requires n <= |tokens|
  {
    Stream(cfg, INITIAL, Texts(tokens[..n])).0.buffer == ""
  }

  /** The tokens n..t spell this tag text, nothing being open before. */
  ghost predicate Spell(cfg: Config, tokens: seq<Token>, n: nat, t: nat, text: string)
    requires n <= t < |tokens|
  {
    NothingOpen(cfg, tokens, n) && Concat(Texts(tokens[n..t + 1])) == text
  }

  lemma {:induction false} ConcatJoin(a: seq<string>, b: seq<string>)
    ensures Concat(a + b) == Concat(a) + Concat(b)
  {
    if b == [] {
      assert a + b == a;
    } else {
      var n := |b| - 1;
      ConcatJoin(a, b[..n]);
      assert (a + b)[..|a + b| - 1] == a + b[..n];
      Associate(Concat(a), Concat(b[..n]), b[n]);
    }
  }

  /** Scanning on from where the first tokens left the scanner. */
  lemma StreamJoin(cfg: Config, a: seq<string>, b: seq<string>)
    ensures Stream(cfg, INITIAL, a + b).0 == Stream(cfg, Stream(cfg, INITIAL, a).0, b).0
  {
    StreamIsText(cfg, INITIAL, a);
    StreamIsText(cfg, INITIAL, a + b);
    StreamIsText(cfg, Stream(cfg, INITIAL, a).0, b);
    ConcatJoin(a, b);
    FeedJoin(cfg, INITIAL, Concat(a), Concat(b), 0);
  }

  lemma ControlIsScanned(cfg: Config, tokens: seq<Token>, n: nat)
    requires n <= |tokens|
    ensures ControlAfter(cfg, tokens, n) == Stream(cfg, INITIAL, Texts(tokens[..n])).0.control
  {
    StreamSound(cfg, INITIAL, Texts(tokens[..n]));
  }

  /** The control after tokens n..t is what their texts make of the control before. */
  lemma ControlFrom(cfg: Config, tokens: seq<Token>, n: nat, t: nat)
    requires n <= t < |tokens| && NothingOpen(cfg, tokens, n)
    ensures ControlAfter(cfg, tokens, t + 1)
         == Stream(cfg, Scan(ControlAfter(cfg, tokens, n), ""), Texts(tokens[n..t + 1])).0.control
  {
    hide Stream;
    var a, b := Texts(tokens[..n]), Texts(tokens[n..t + 1]);
    assert Texts(tokens[..t + 1]) == a + b;
    StreamJoin(cfg, a, b);
    ControlIsScanned(cfg, tokens, n);
    ControlIsScanned(cfg, tokens, t + 1);
    assert Stream(cfg, INITIAL, a).0 == Scan(ControlAfter(cfg, tokens, n), "");
  }

  /** After a matched close the control is global again, without references. */
  lemma ClosedControl(cfg: Config, tokens: seq<Token>, n: nat, t: nat)
    requires n <= t < |tokens| && cfg.maxBuffer >= 7
    requires var mode := ControlAfter(cfg, tokens, n).mode;
      || (mode.Focus? && Spell(cfg, tokens, n, t, "</focus>")) || (mode.Local? && Spell(cfg, tokens, n, t, "</local>"))
    ensures ControlAfter(cfg, tokens, t + 1) == Control(Global, [])
  {
    hide Stream, Concat;
    var c, texts := ControlAfter(cfg, tokens, n), Texts(tokens[n..t + 1]);
    ControlFrom(cfg, tokens, n, t);
    if c.mode.Focus? { CloseFocus(cfg, c, texts); } else { CloseLocal(cfg, c, texts); }
  }

  /** The forward that consumes the last token of a matched close reads the whole history again. */
  lemma ClosedReadsAll(
    out: seq<Token>, prompt: seq<Token>, tokens: seq<Token>, layout: TokenLayout, b: int, cfg: Config, n: nat, t: nat)
    requires b > 0 && n <= t < |tokens| && cfg.maxBuffer >= 7 && layout.promptLen == |prompt|
    requires var mode := ControlAfter(cfg, tokens, n).mode;
      || (mode.Focus? && Spell(cfg, tokens, n, t, "</focus>")) || (mode.Local? && Spell(cfg, tokens, n, t, "</local>"))
    requires Served(out, prompt, tokens, layout, b, cfg, t)
    ensures out == prompt + tokens[..t + 1]
  {
    hide ControlAfter, Spell;
    ClosedControl(cfg, tokens, n, t);
    GlobalReadsAll(out, prompt + tokens[..t + 1], ServedQuestion(cfg, layout, b, tokens, t));
  }

  /** The forward that consumes the last token of <local> reads under local, whatever came before. */
  lemma LocalControl(cfg: Config, tokens: seq<Token>, n: nat, t: nat)
    requires n <= t < |tokens| && cfg.maxBuffer >= 6 && Spell(cfg, tokens, n, t, "<local>")
    ensures ControlAfter(cfg, tokens, t + 1) == Control(Local, [])
  {
    hide Stream, Concat;
    ControlFrom(cfg, tokens, n, t);
    OpenLocal(cfg, ControlAfter(cfg, tokens, n), Texts(tokens[n..t + 1]));
  }

  /** The forward that consumes the last token of a printed declaration reads under focus with the
      declared references, sorted and without repeats, when the tag fits the buffer. */
  lemma FocusControl(cfg: Config, tokens: seq<Token>, n: nat, t: nat, ns: seq<nat>)
    requires n <= t < |tokens| && InRange(ns, cfg.segments) && |Print(ns)| - 1 <= cfg.maxBuffer
    requires Spell(cfg, tokens, n, t, Print(ns))
    ensures ControlAfter(cfg, tokens, t + 1) == Control(Focus, SortedInts(RefSet(ns)))
  {
    hide Stream, Concat, Print;
    ControlFrom(cfg, tokens, n, t);
    DeclarationRoundTrip(cfg, ControlAfter(cfg, tokens, n), ns, Texts(tokens[n..t + 1]));
  }
}
