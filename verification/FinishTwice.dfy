/** What a repeated finish does to the focus statistics. */
module FinishTwice {
  import opened Basics
  import opened Text
  import opened Visibility
  import opened TagSyntax
  import opened TagParser
  import opened StreamLaws
  import opened RoundTrip
  import opened ProtocolState

  lemma {:induction false} AttemptsJoin(a: seq<Event>, b: seq<Event>)
    ensures Attempts(a + b) == Attempts(a) + Attempts(b)
  {
    if b == [] {
      assert a + b == a;
    } else {
      AttemptsJoin(a, b[..|b| - 1]);
      assert (a + b)[..|a + b| - 1] == a + b[..|b| - 1];
    }
  }

  /** One finish with the statistics taken before and after. Events are forgotten if and only if the
      state was closed already and its first finish had found an open tag; attempts drop if and only
      if that tag was a focus call. */
  method FinishAndCount(state: RequestState) returns (before: nat, after: nat)
    requires state.Valid()
    modifies state`flushEvents, state`closed, state.parser
    ensures state.Valid() && state.closed && state.steps == old(state.steps)
    ensures state.flushEvents == if old(state.closed) then [] else old(state.Unclosed())
    ensures before == old(Attempts(AllEvents(state.steps, state.flushEvents)))
    ensures after == Attempts(AllEvents(state.steps, state.flushEvents))
    ensures old(AllEvents(state.steps, state.flushEvents)) <= AllEvents(state.steps, state.flushEvents)
       <==> !(old(state.closed) && old(state.flushEvents) != [])
    ensures after < before <==> old(state.closed) && old(Attempts(state.flushEvents)) > 0
  {
    ghost var closed, flushed, kept := state.closed, state.flushEvents, StepEvents(state.steps);
    var attempts, _ := state.FocusStats();
    var events := state.Finish();
    var remaining, _ := state.FocusStats();
    before, after := attempts, remaining;
    AttemptsJoin(kept, flushed);
    AttemptsJoin(kept, events);
    assert !closed ==> flushed == [];
    assert closed ==> events == [];
  }

  /** The scanner after one token that opens a focus call and never closes it. */
  lemma OpenFocusPending(cfg: Config)
    requires cfg.maxBuffer >= 7
    ensures Stream(cfg, INITIAL, ["<focus "]) == (Scan(INITIAL.control, "<focus "), [])
  {
    var tokens := ["<focus "];
    Collects(cfg, INITIAL, "<focus ", 0);
    assert tokens[..0] == [];
    var none: seq<Item> := [];
    assert none + none == none;
  }

  lemma PendingIsAttempt()
    ensures NameOfIncomplete("<focus ") == ("focus", true)
  {
    var s := "focus ";
    assert "<focus "[1..] == s;
    RunEndsAt(s, 0, 5, NameChar);
    assert s[0..5] == "focus";
    assert ParseHead(s) == Some(Head(false, "focus", 5));
  }

  /** Finishing that request leaves one attempt on record. */
  lemma UnclosedIsAttempt(cfg: Config, token: int)
    ensures Attempts(EventsOf(FlushItems(Scan(INITIAL.control, "<focus "), token))) == 1
  {
    PendingIsAttempt();
    var item := FlushItems(Scan(INITIAL.control, "<focus "), token)[0];
    OneEvent(item, item.event);
    assert [item.event][..0] == [];
  }

  /** A request whose only token opens a focus call: one attempt after finish, none after another. */
  method UnclosedFocusForgotten() returns (first: nat, second: nat)
    ensures first == 1 && second == 0
  {
    var state := PendingRequest();
    hide *;
    var none, one := FinishAndCount(state);
    CountedParts(state);
    var again, left := FinishAndCount(state);
    CountedParts(state);
    NoAttempts();
    first, second := one, left;
  }

  method PendingRequest() returns (state: RequestState)
    ensures fresh(state) && fresh(state.parser) && state.Valid() && !state.closed
    ensures StepEvents(state.steps) == [] && Attempts(state.Unclosed()) == 1
  {
    hide Stream, Feed, FlushItems, EventsOf, RecordAt;
    state := new RequestState(Config(3, 256), 10);
    var fed := state.FeedGeneratedToken(0, 7, "<focus ");
    OnlyPending(state);
  }

  lemma CountedParts(state: RequestState)
    ensures Attempts(AllEvents(state.steps, state.flushEvents))
         == Attempts(StepEvents(state.steps)) + Attempts(state.flushEvents)
  {
    AttemptsJoin(StepEvents(state.steps), state.flushEvents);
  }

  lemma NoAttempts()
    ensures Attempts([]) == 0
  {
  }

  lemma OnlyPending(state: RequestState)
    requires state.Valid() && !state.closed && state.tokens == [Token(7, "<focus ")] && state.config.maxBuffer >= 7
    ensures StepEvents(state.steps) == [] && Attempts(state.Unclosed()) == 1
  {
    assert Texts(state.tokens) == ["<focus "];
    OpenFocusPending(state.config);
    UnclosedIsAttempt(state.config, |state.steps|);
    assert state.steps[..0] == [] && state.tokens[..0] == [];
    assert state.steps[0] == RecordAt(state.config, state.promptLen, state.tokens, 0);
    Collects(state.config, INITIAL, "<focus ", 0);
  }
}
