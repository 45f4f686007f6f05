/** What the reference and the two timelines ask and answer, field by field. */
module TimelineLaws {
  import opened Basics
  import opened Spans
  import opened Visibility
  import opened ReadView
  import opened ReferenceDense
  import opened ViewLaws
  import opened Timeline

  // ---------------------------------------------------------------------------
  // The dense reference
  // ---------------------------------------------------------------------------

  /** The reference answers a known mode with a usable block size and something selected; focus must name
      segments, all of them existing. */
  ghost predicate ReferenceAnswers(q: Query) {
    && (q.mode == Global || q.mode == Focus || q.mode == Local) && q.block > 0
    && (exists p :: Semantic(q, p))
    && (q.mode == Focus ==> q.refs != [] && forall r :: r in q.refs ==> 1 <= r <= |q.layout.segmentSpans|)
  }

  /** Its answer: the selected positions, what is read for them, the blocks and how full each one is. */
  ghost predicate MaskTells(q: Query, m: Mask)
    requires q.block > 0
  {
    && m.semantic == SortedInts(set p | 0 <= p < q.kvLen && Semantic(q, p)) && m.read == Positions(q)
    && m.blocks == Blocks(q) && |m.perBlock| == |m.blocks|
    && (forall i :: 0 <= i < |m.blocks| ==>
          m.perBlock[i] == if (m.blocks[i] + 1) * q.block <= q.kvLen then q.block else q.kvLen % q.block)
    && m.kvLen == q.kvLen && m.current == q.kvLen - 1 && m.mode == q.mode && m.refs == q.refs && m.block == q.block
  }

  lemma AnswersExact(q: Query)
    ensures Answerable(q) <==> ReferenceAnswers(q)
    ensures Answerable(q) ==> q.block > 0
  {
    if p :| Semantic(q, p) { assert p in SemanticSet(q); }
    if p :| p in SemanticSet(q) { assert Semantic(q, p); }
  }

  lemma ExactMaskTells(q: Query)
    requires q.block > 0
    ensures MaskTells(q, ExactMask(q))
  {
    hide Blocks, Positions, Counts, Semantic;
    CountsSpelled(q);
  }

  /** independent_visible_positions: when it answers, and every field of the answer. */
  method MaskFields(q: Query) returns (r: Result<Mask>)
    ensures r.Ok? <==> ReferenceAnswers(q)
    ensures r.Ok? ==> MaskTells(q, r.value)
  {
    r := IndependentPositions(q);
    AnswersExact(q);
    hide MaskTells, ReferenceAnswers, ExactMask;
    if r.Ok? { ExactMaskTells(q); }
  }

  /** gather_positions, index part: accepted exactly for a nonempty list of positions the table reaches in
      blocks the cache has; each position is taken from its block at its offset. */
  lemma GatherExact(table: seq<int>, b: int, positions: seq<int>, cacheBlocks: nat)
    ensures GatherIndex(table, b, positions, cacheBlocks).Ok? <==>
      && b > 0 && positions != []
      && forall i :: 0 <= i < |positions| ==>
           0 <= positions[i] < |table| * b && 0 <= table[positions[i] / b] < cacheBlocks
    ensures GatherIndex(table, b, positions, cacheBlocks).Ok? ==>
      var g := GatherIndex(table, b, positions, cacheBlocks).value;
      && |g| == |positions|
      && forall i :: 0 <= i < |g| ==>
           0 <= positions[i] / b < |table| && g[i].0 == table[positions[i] / b] && g[i].1 == positions[i] % b
  {
    if b > 0 {
      forall i | 0 <= i < |positions|
        ensures positions[i] < |table| * b <==> positions[i] / b < |table|
        ensures 0 <= positions[i] <==> 0 <= positions[i] / b
      {
        AtLeastMultiple(|table|, positions[i], b);
        AtLeastMultiple(0, positions[i], b);
      }
    }
  }

  // ---------------------------------------------------------------------------
  // Declarations
  // ---------------------------------------------------------------------------

  /** Which piece each token of the script comes from. */
  function Owners(script: seq<Piece>): seq<int> {
    if script == [] then []
    else Owners(script[..|script| - 1]) + seq(script[|script| - 1].tokens, _ => |script| - 1)
  }

  lemma {:induction false} OwnersCount(script: seq<Piece>)
    ensures |Owners(script)| == TokenTotal(script)
    ensures forall t :: 0 <= t < |Owners(script)| ==> 0 <= Owners(script)[t] < |script|
  {
    if script != [] { OwnersCount(script[..|script| - 1]); }
  }

  lemma {:induction false} OwnersPrefix(script: seq<Piece>, n: nat)
    requires n <= |script|
    ensures TokenTotal(script[..n]) <= |Owners(script)|
    ensures Owners(script)[..TokenTotal(script[..n])] == Owners(script[..n])
    ensures TokenTotal(script[..n]) < |Owners(script)| ==> Owners(script)[TokenTotal(script[..n])] >= n
  {
    OwnersCount(script[..n]);
    if n < |script| {
      var m := |script| - 1;
      OwnersPrefix(script[..m], n);
      assert script[..m][..n] == script[..n];
    } else {
      assert script[..n] == script;
    }
  }

  /** Piece k is declared at its own last token: the token there comes from it, the next one does not. */
  lemma DeclaredAtLast(script: seq<Piece>, k: nat)
    requires k < |script| && script[k].tokens > 0
    ensures var parse := TokenTotal(script[..k + 1]) - 1;
      && 0 <= parse < |Owners(script)| && Owners(script)[parse] == k
      && (parse + 1 < |Owners(script)| ==> Owners(script)[parse + 1] != k)
  {
    var parse := TokenTotal(script[..k + 1]) - 1;
    OwnersPrefix(script, k + 1);
    OwnersCount(script[..k + 1]);
    assert script[..k + 1][..k] == script[..k];
    assert Owners(script)[parse] == Owners(script)[..parse + 1][parse] == Owners(script[..k + 1])[parse];
  }

  /** Every piece is declared, in order, with its own mode and references, at its own last token. */
  method DeclaresPieces(script: seq<Piece>) returns (d: seq<Declaration>)
    ensures |d| == |script| && forall k :: 0 <= k < |d| ==> d[k].mode == script[k].mode && d[k].refs == script[k].refs
    ensures forall k :: 0 <= k < |d| && script[k].tokens > 0 ==>
      && 0 <= d[k].parse < |Owners(script)| && Owners(script)[d[k].parse] == k
      && (d[k].parse + 1 < |Owners(script)| ==> Owners(script)[d[k].parse + 1] != k)
    ensures NonDecreasing(d)
  {
    d := Declare(script);
    hide Owners, TokenTotal;
    forall k | 0 <= k < |d| && script[k].tokens > 0
      ensures 0 <= d[k].parse < |Owners(script)| && Owners(script)[d[k].parse] == k
      ensures d[k].parse + 1 < |Owners(script)| ==> Owners(script)[d[k].parse + 1] != k
    {
      DeclaredAtLast(script, k);
    }
  }

  // ---------------------------------------------------------------------------
  // What is in force
  // ---------------------------------------------------------------------------

  /** The last due declaration decides; before any is due everything is global. */
  ghost predicate InForce(d: seq<Declaration>, t: int, mode: Mode, refs: seq<int>) {
    && ((forall i :: 0 <= i < |d| ==> d[i].parse > t) ==> mode == Global && refs == [])
    && forall i :: 0 <= i < |d| && d[i].parse <= t && (forall j :: i < j < |d| ==> d[j].parse > t) ==>
         mode == d[i].mode && refs == d[i].refs
  }

  lemma LastDueInForce(d: seq<Declaration>, t: int)
    ensures InForce(d, t, StateAfter(d, LastDue(d, t)).0, StateAfter(d, LastDue(d, t)).1)
  {
    var n := LastDue(d, t);
    if n > 0 { assert d[n - 1].parse <= t; }
  }

  /** The answer at generated token t is the reference's, for what is in force there. */
  ghost predicate AskedInForce(
    d: seq<Declaration>, layout: TokenLayout, b: int, t: int, mode: Mode, refs: seq<int>, r: Result<Mask>)
  {
    var q := Query(mode, refs, layout, layout.promptLen + t + 1, b);
    && InForce(d, t, mode, refs)
    && (r.Ok? <==> ReferenceAnswers(q)) && (r.Ok? ==> MaskTells(q, r.value))
  }

  /** The bridge at generated token t asks what is in force there, with t + 1 tokens written behind the
      prompt. */
  method BridgeAsks(d: seq<Declaration>, layout: TokenLayout, b: int, t: int) returns (r: Result<Mask>)
    requires forall i, j :: 0 <= i < j < |d| ==> d[i].parse <= d[j].parse
    ensures exists mode, refs :: AskedInForce(d, layout, b, t, mode, refs, r)
  {
    hide *;
    r := MaskAt(d, layout, b, t);
    ghost var q := BridgeQuestion(d, layout, b, t);
    BridgeTold(d, layout, b, t);
    AnswersExact(q);
    if r.Ok? { ExactMaskTells(q); }
    AskedSo(d, layout, b, t, q, r);
  }

  lemma BridgeTold(d: seq<Declaration>, layout: TokenLayout, b: int, t: int)
    requires forall i, j :: 0 <= i < j < |d| ==> d[i].parse <= d[j].parse
    ensures var q := BridgeQuestion(d, layout, b, t);
      q == Query(q.mode, q.refs, layout, layout.promptLen + t + 1, b) && InForce(d, t, q.mode, q.refs)
  {
    SameStop(d, t);
    LastDueInForce(d, t);
    hide InForce, LeadingDue, LastDue;
  }

  lemma AskedSo(d: seq<Declaration>, layout: TokenLayout, b: int, t: int, q: Query, r: Result<Mask>)
    requires q == Query(q.mode, q.refs, layout, layout.promptLen + t + 1, b) && InForce(d, t, q.mode, q.refs)
    requires (r.Ok? <==> ReferenceAnswers(q)) && (r.Ok? ==> b > 0 && MaskTells(q, r.value))
    ensures AskedInForce(d, layout, b, t, q.mode, q.refs, r)
  {
    hide InForce, MaskTells, ReferenceAnswers;
  }

  /** The smoke test's expectation for forward f: the prefill is global over the prompt, forward f reads
      what is in force at token f - 2 over f - 1 tokens more. */
  ghost predicate ExpectationTells(d: seq<Declaration>, layout: TokenLayout, b: int, f: int, e: Expectation) {
    && e.forward == f && e.decodeIndex == (if f == 1 then None else Some(f - 1))
    && (f == 1 ==> e.mode == Global && e.refs == []) && (f > 1 ==> InForce(d, f - 2, e.mode, e.refs))
    && e.kvLen == layout.promptLen + f - 1 && b > 0
    && var q := Query(e.mode, e.refs, layout, e.kvLen, b);
    && ReferenceAnswers(q) && e.blocks == Blocks(q) && |e.perBlock| == |e.blocks|
    && forall i :: 0 <= i < |e.blocks| ==>
         e.perBlock[i] == if (e.blocks[i] + 1) * b <= e.kvLen then b else e.kvLen % b
  }

  method ExpectationFields(d: seq<Declaration>, layout: TokenLayout, b: int, total: nat)
    returns (r: Option<map<int, Expectation>>)
    ensures r.Some? ==> forall f :: f in r.value <==> 1 <= f <= total
    ensures r.Some? ==> forall f :: f in r.value ==> ExpectationTells(d, layout, b, f, r.value[f])
  {
    hide ExpectationTells, Expected;
    r := Expectations(d, layout, b, total);
    if r.Some? {
      forall f | f in r.value ensures ExpectationTells(d, layout, b, f, r.value[f]) {
        assert Expected(r.value, d, layout, b, f);
        ExpectedTells(r.value, d, layout, b, f);
      }
    }
  }

  lemma ForwardAsks(d: seq<Declaration>, layout: TokenLayout, b: int, f: int)
    requires f >= 1
    ensures var q := ForwardQuestion(d, layout, b, f);
      && q == Query(q.mode, q.refs, layout, layout.promptLen + f - 1, b)
      && (f == 1 ==> q.mode == Global && q.refs == []) && (f > 1 ==> InForce(d, f - 2, q.mode, q.refs))
  {
    hide InForce, LastDue, StateAfter;
    if f > 1 { LastDueInForce(d, f - 2); }
  }

  lemma ExpectedTells(m: map<int, Expectation>, d: seq<Declaration>, layout: TokenLayout, b: int, f: int)
    requires Expected(m, d, layout, b, f) && f >= 1
    ensures ExpectationTells(d, layout, b, f, m[f])
  {
    var q := ForwardQuestion(d, layout, b, f);
    ForwardAsks(d, layout, b, f);
    AnswersExact(q);
    assert b > 0;
    CountsSpelled(q);
    hide Answerable, ReferenceAnswers, Blocks, Counts, InForce, ForwardQuestion;
  }
}
