/** Two independent timelines over the same declarations, and their agreement with the step plan. */
module Timeline {
  import opened Basics
  import opened Spans
  import opened Visibility
  import opened StepPlan
  import ReferenceDense

  /** A declaration closed inside generated token `parse` (0-based). */
  datatype Declaration = Declaration(parse: int, mode: Mode, refs: seq<int>)

  /** One piece of the generation script: how many tokens it encodes to, and what it declares. */
  datatype Piece = Piece(tokens: nat, mode: Mode, refs: seq<int>)

  predicate NonDecreasing(d: seq<Declaration>) {
    forall i, j :: 0 <= i < j < |d| ==> d[i].parse <= d[j].parse
  }

  function StateAfter(d: seq<Declaration>, n: nat): (Mode, seq<int>)
    requires n <= |d|
  {
    if n == 0 then (Global, []) else (d[n - 1].mode, d[n - 1].refs)
  }

  /** How many leading declarations are due at t: where the early exit stops. */
  function LeadingDue(d: seq<Declaration>, t: int): (n: nat)
    ensures n <= |d|
    ensures forall i :: 0 <= i < n ==> d[i].parse <= t
    ensures n < |d| ==> d[n].parse > t
  {
    if d == [] || d[0].parse > t then 0 else 1 + LeadingDue(d[1..], t)
  }

  /** One past the last due declaration: what a full scan keeps. */
  function LastDue(d: seq<Declaration>, t: int): (n: nat)
    ensures n <= |d|
    ensures n > 0 ==> d[n - 1].parse <= t
    ensures forall i :: n <= i < |d| ==> d[i].parse > t
  {
    if d == [] then 0 else if d[|d| - 1].parse <= t then |d| else LastDue(d[..|d| - 1], t)
  }

  /** TimelineBridge.mode_at: the loop with the early exit. */
  method ModeAt(d: seq<Declaration>, t: int) returns (mode: Mode, refs: seq<int>)
    ensures (mode, refs) == StateAfter(d, LeadingDue(d, t))
  {
    mode, refs := Global, [];
    var i := 0;
    while i < |d|
      invariant 0 <= i <= LeadingDue(d, t)
      invariant (mode, refs) == StateAfter(d, i)
    {
      if d[i].parse <= t {
        mode, refs := d[i].mode, d[i].refs;
      } else {
        break;
      }
      i := i + 1;
    }
  }

  /** The smoke test's loop: no early exit. */
  method ScanAll(d: seq<Declaration>, t: int) returns (mode: Mode, refs: seq<int>)
    ensures (mode, refs) == StateAfter(d, LastDue(d, t))
  {
    mode, refs := Global, [];
    for i := 0 to |d|
      invariant (mode, refs) == StateAfter(d, LastDue(d[..i], t))
    {
      assert d[..i + 1][..i] == d[..i];
      if d[i].parse <= t { mode, refs := d[i].mode, d[i].refs; }
    }
    assert d[..|d|] == d;
  }

  lemma SameStop(d: seq<Declaration>, t: int)
    requires NonDecreasing(d)
    ensures LeadingDue(d, t) == LastDue(d, t)
  {
    var n, m := LeadingDue(d, t), LastDue(d, t);
    assert m < |d| ==> d[m].parse > t;
  }

  /** The two loops return the same mode and references at t. */
  predicate SameResult(d: seq<Declaration>, t: int) {
    StateAfter(d, LeadingDue(d, t)) == StateAfter(d, LastDue(d, t))
  }

  /** Some moment finds i the first declaration not due and j, behind it, the last one due. */
  predicate Overtakes(d: seq<Declaration>, i: int, j: int) {
    && 0 <= i < j < |d| && d[j].parse < d[i].parse
    && (forall k :: 0 <= k < i ==> d[k].parse < d[i].parse)
    && (forall k :: j < k < |d| ==> d[j].parse < d[k].parse)
    && forall a, b :: 0 <= a < i && j < b < |d| ==> d[a].parse < d[b].parse
  }

  /** Whenever a declaration is overtaken, the one in force before it says the same as the overtaker. */
  predicate HarmlessOrder(d: seq<Declaration>) {
    forall i, j :: 0 <= i < j < |d| && Overtakes(d, i, j) ==> StateAfter(d, i) == StateAfter(d, j + 1)
  }

  /** The latest of the first i parse indices and the j-th. */
  function LatestOf(d: seq<Declaration>, i: nat, j: nat): (t: int)
    requires i <= |d| && j < |d|
    ensures d[j].parse <= t && forall k :: 0 <= k < i ==> d[k].parse <= t
    ensures t == d[j].parse || exists k :: 0 <= k < i && d[k].parse == t
  {
    if i == 0 then d[j].parse else Max(LatestOf(d, i - 1, j), d[i - 1].parse)
  }

  lemma StopsAt(d: seq<Declaration>, t: int, i: nat, j: nat)
    requires i < j < |d| && d[i].parse > t >= d[j].parse
    requires forall k :: 0 <= k < i ==> d[k].parse <= t
    requires forall k :: j < k < |d| ==> d[k].parse > t
    ensures LeadingDue(d, t) == i && LastDue(d, t) == j + 1
  {
    var n := LeadingDue(d, t);
    assert n < |d| ==> d[n].parse > t;
  }

  /** The two loops return the same at every step exactly when the order is harmless. */
  lemma EarlyExitExact(d: seq<Declaration>)
    ensures (forall t :: SameResult(d, t)) <==> HarmlessOrder(d)
  {
    hide StateAfter, LeadingDue, LastDue, Overtakes;
    if forall t :: SameResult(d, t) {
      forall i, j | 0 <= i < j < |d| && Overtakes(d, i, j) ensures StateAfter(d, i) == StateAfter(d, j + 1) {
        var t := OvertakenAt(d, i, j);
        assert SameResult(d, t);
      }
    }
    if HarmlessOrder(d) {
      forall t ensures SameResult(d, t) {
        DifferentStops(d, t);
        var n, m := LeadingDue(d, t), LastDue(d, t);
        if n != m { assert Overtakes(d, n, m - 1); }
      }
    }
  }

  lemma OvertakenAt(d: seq<Declaration>, i: nat, j: nat) returns (t: int)
    requires i < j < |d| && Overtakes(d, i, j)
    ensures LeadingDue(d, t) == i && LastDue(d, t) == j + 1
  {
    t := LatestOf(d, i, j);
    StopsAt(d, t, i, j);
  }

  lemma DifferentStops(d: seq<Declaration>, t: int)
    ensures LeadingDue(d, t) != LastDue(d, t) ==>
      LeadingDue(d, t) < LastDue(d, t) - 1 && Overtakes(d, LeadingDue(d, t), LastDue(d, t) - 1)
  {
    var n, m := LeadingDue(d, t), LastDue(d, t);
    assert m < |d| ==> d[m].parse > t;
    assert n < |d| ==> d[n].parse > t;
  }

  /** Parse indices that never drop are harmless. */
  lemma NonDecreasingHarmless(d: seq<Declaration>)
    requires NonDecreasing(d)
    ensures HarmlessOrder(d)
  {
    forall t ensures SameResult(d, t) { SameStop(d, t); }
    EarlyExitExact(d);
  }

  /** A late declaration the early exit never sees: at token 3 one loop says global, the other focus. */
  lemma EarlyExitMisses()
    ensures var d := [Declaration(5, Local, []), Declaration(3, Focus, [1])];
      && StateAfter(d, LeadingDue(d, 3)) == (Global, []) && StateAfter(d, LastDue(d, 3)) == (Focus, [1])
      && !HarmlessOrder(d)
  {
    var d := [Declaration(5, Local, []), Declaration(3, Focus, [1])];
    StopsAt(d, 3, 0, 1);
    EarlyExitExact(d);
    assert !SameResult(d, 3);
  }

  /** A drop alone does no harm when the overtaker repeats what was in force. */
  lemma DroppedButHarmless()
    ensures var d := [Declaration(5, Focus, [1]), Declaration(3, Global, [])];
      !NonDecreasing(d) && HarmlessOrder(d)
  {
    var d := [Declaration(5, Focus, [1]), Declaration(3, Global, [])];
    assert d[0].parse > d[1].parse;
  }

  function TokenTotal(script: seq<Piece>): nat {
    if script == [] then 0 else TokenTotal(script[..|script| - 1]) + script[|script| - 1].tokens
  }

  lemma {:induction false} TokenTotalGrows(script: seq<Piece>, i: nat, j: nat)
    requires i <= j <= |script|
    ensures TokenTotal(script[..i]) <= TokenTotal(script[..j])
  {
    if i < j {
      TokenTotalGrows(script, i, j - 1);
      assert script[..j][..j - 1] == script[..j - 1];
    }
  }

  /** Declarations of a script: each is closed by the last token of its piece. */
  method Declare(script: seq<Piece>) returns (d: seq<Declaration>)
    ensures |d| == |script| && DeclaresScript(d, script) && NonDecreasing(d)
  {
    var count := 0;
    d := [];
    for i := 0 to |script|
      invariant |d| == i && count == TokenTotal(script[..i])
      invariant DeclaresScript(d, script)
    {
      assert script[..i + 1][..i] == script[..i];
      count := count + script[i].tokens;
      d := d + [Declaration(count - 1, script[i].mode, script[i].refs)];
    }
    DeclaredInOrder(script, d);
  }

  predicate DeclaresScript(d: seq<Declaration>, script: seq<Piece>) {
    |d| <= |script| && forall k :: 0 <= k < |d| ==> d[k] == DeclarationOf(script, k)
  }

  function DeclarationOf(script: seq<Piece>, k: int): Declaration
    requires 0 <= k < |script|
  {
    Declaration(TokenTotal(script[..k + 1]) - 1, script[k].mode, script[k].refs)
  }

  lemma DeclaredInOrder(script: seq<Piece>, d: seq<Declaration>)
    requires DeclaresScript(d, script)
    ensures NonDecreasing(d)
  {
    forall i, j | 0 <= i < j < |d| ensures d[i].parse <= d[j].parse {
      TokenTotalGrows(script, i + 1, j + 1);
    }
  }

  // ---------------------------------------------------------------------------
  // Per-forward expectations
  // ---------------------------------------------------------------------------

  datatype Expectation = Expectation(
    forward: int, decodeIndex: Option<int>, mode: Mode, refs: seq<int>, kvLen: int,
    blocks: seq<int>, perBlock: seq<int>)

  /** The question the bridge asks at generated token t. */
  function BridgeQuestion(d: seq<Declaration>, layout: TokenLayout, b: int, t: int): Query {
    var (mode, refs) := StateAfter(d, LeadingDue(d, t));
    Query(mode, refs, layout, layout.promptLen + t + 1, b)
  }

  /** The question the smoke test asks at a forward pass; forward 1 is the prefill. */
  function ForwardQuestion(d: seq<Declaration>, layout: TokenLayout, b: int, forward: int): Query {
    var (mode, refs) := if forward > 1 then StateAfter(d, LastDue(d, forward - 2)) else (Global, []);
    Query(mode, refs, layout, layout.promptLen + forward - 1, b)
  }

  /** TimelineBridge.mask_at */
  method MaskAt(d: seq<Declaration>, layout: TokenLayout, b: int, t: int)
    returns (r: Result<ReferenceDense.Mask>)
    ensures r.Ok? <==> ReferenceDense.Answerable(BridgeQuestion(d, layout, b, t))
    ensures r.Ok? ==> r.value == ReferenceDense.ExactMask(BridgeQuestion(d, layout, b, t))
  {
    var mode, refs := ModeAt(d, t);
    var q := Query(mode, refs, layout, layout.promptLen + t + 1, b);
    assert q == BridgeQuestion(d, layout, b, t);
    r := ReferenceDense.IndependentPositions(q);
  }

  ghost function ExpectationOf(d: seq<Declaration>, layout: TokenLayout, b: int, forward: int): Expectation
    requires b > 0
  {
    var q := ForwardQuestion(d, layout, b, forward);
    Expectation(forward, if forward > 1 then Some(forward - 1) else None, q.mode, q.refs, q.kvLen,
                Blocks(q), Counts(q))
  }

  /** The expectation for one forward pass. */
  method ExpectAt(d: seq<Declaration>, layout: TokenLayout, b: int, f: int) returns (r: Option<Expectation>)
    requires f >= 1
    ensures r.Some? <==> ReferenceDense.Answerable(ForwardQuestion(d, layout, b, f))
    ensures r.Some? ==> b > 0 && r.value == ExpectationOf(d, layout, b, f)
  {
    var mode, refs := Global, [];
    if f > 1 { mode, refs := ScanAll(d, f - 2); }
    var q := Query(mode, refs, layout, layout.promptLen + f - 1, b);
    assert q == ForwardQuestion(d, layout, b, f);
    var mask := ReferenceDense.IndependentPositions(q);
    if mask.Err? { return None; }
    return Some(Expectation(f, if f > 1 then Some(f - 1) else None, mode, refs, q.kvLen,
                            mask.value.blocks, mask.value.perBlock));
  }

  /** The stored expectation for a forward pass is the exact one. */
  ghost predicate Expected(
    m: map<int, Expectation>, d: seq<Declaration>, layout: TokenLayout, b: int, f: int)
  {
    && f in m && ReferenceDense.Answerable(ForwardQuestion(d, layout, b, f))
    && m[f] == ExpectationOf(d, layout, b, f)
  }

  /** expectations_from_config: one exact expectation per forward pass, or the reference's refusal. */
  method Expectations(d: seq<Declaration>, layout: TokenLayout, b: int, total: nat)
    returns (r: Option<map<int, Expectation>>)
    ensures r.None? ==> exists f :: 1 <= f <= total && !ReferenceDense.Answerable(ForwardQuestion(d, layout, b, f))
    ensures r.Some? ==> AllExpected(r.value, d, layout, b, total + 1)
  {
    var m: map<int, Expectation> := map[];
    for f := 1 to total + 1
      invariant AllExpected(m, d, layout, b, f)
    {
      var e := ExpectAt(d, layout, b, f);
      if e.None? { return None; }
      AddExpected(m, d, layout, b, f, e.value);
      m := m[f := e.value];
    }
    return Some(m);
  }

  ghost predicate AllExpected(
    m: map<int, Expectation>, d: seq<Declaration>, layout: TokenLayout, b: int, n: int)
  {
    && (forall k :: k in m <==> 1 <= k < n)
    && forall k :: 1 <= k < n ==> Expected(m, d, layout, b, k)
  }

  lemma AddExpected(
    m: map<int, Expectation>, d: seq<Declaration>, layout: TokenLayout, b: int, f: int, e: Expectation)
    requires AllExpected(m, d, layout, b, f) && f >= 1
    requires b > 0 && ReferenceDense.Answerable(ForwardQuestion(d, layout, b, f))
    requires e == ExpectationOf(d, layout, b, f)
    ensures AllExpected(m[f := e], d, layout, b, f + 1)
  {
    var more := m[f := e];
    forall k | 1 <= k < f + 1 ensures Expected(more, d, layout, b, k) {
      if k < f { assert Expected(m, d, layout, b, k); }
    }
  }

  /** At forward t + 2 the smoke timeline asks exactly what the bridge asks at token t. */
  lemma QuestionsAgree(d: seq<Declaration>, layout: TokenLayout, b: int, t: nat)
    requires NonDecreasing(d)
    ensures ForwardQuestion(d, layout, b, t + 2) == BridgeQuestion(d, layout, b, t)
  {
    SameStop(d, t);
  }

  /** So the smoke expectation, the bridge's mask and a step plan built with that mode and those
      references have one KV length, one block list and one list of per-block counts. Expectation
      and mask exist exactly when focus names something; the plan always does. */
  lemma TimelinesAgree(d: seq<Declaration>, layout: TokenLayout, t: nat, inp: PlanInputs)
    requires NonDecreasing(d) && DecodeInput(inp)
    requires PlanQuestion(inp) == BridgeQuestion(d, layout, inp.geometry.block, t)
    ensures PlanSpec(inp) == Ok(ExactPlan(inp))
    ensures SameRead(ExpectationOf(d, layout, inp.geometry.block, t + 2), ExactPlan(inp),
                     ReferenceDense.ExactMask(BridgeQuestion(d, layout, inp.geometry.block, t)))
    ensures ReferenceDense.Answerable(BridgeQuestion(d, layout, inp.geometry.block, t))
       <==> (inp.mode.Focus? ==> inp.refs != [])
    ensures ForwardQuestion(d, layout, inp.geometry.block, t + 2) == BridgeQuestion(d, layout, inp.geometry.block, t)
  {
    hide LeadingDue, LastDue, DecodeInput;
    QuestionsAgree(d, layout, inp.geometry.block, t);
    DecodeAnswerable(inp);
    hide ReferenceDense.Answerable;
    PlanTotal(inp);
  }

  lemma DecodeAnswerable(inp: PlanInputs)
    requires DecodeInput(inp)
    ensures ReferenceDense.Answerable(PlanQuestion(inp)) <==> (inp.mode.Focus? ==> inp.refs != [])
  {
    assert Semantic(PlanQuestion(inp), inp.kvLen - 1);
    assert inp.kvLen - 1 in SemanticSet(PlanQuestion(inp));
  }

  predicate SameRead(e: Expectation, p: Plan, m: ReferenceDense.Mask) {
    && e.mode == p.mode == m.mode && e.refs == p.refs == m.refs && e.kvLen == p.kvLen == m.kvLen
    && e.blocks == p.blocks == m.blocks && e.perBlock == p.perBlock == m.perBlock
  }
}
