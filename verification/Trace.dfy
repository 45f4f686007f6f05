/** The per-step trace: protocol records, read views and write positions in one table. */
module Trace {
  import opened Basics
  import opened Visibility
  import opened ReadView
  import opened TagParser
  import opened ProtocolState

  datatype Row = Row(
    decodeStep: int, input: Option<Input>, writePosition: Option<int>, writtenBefore: int, kvLen: int,
    nextWrite: int, mode: Mode, refs: seq<int>, events: seq<Event>, view: View)

  /** The token a forward consumes. */
  datatype Input = Input(index: int, id: int, text: string)

  /** What every row of one trace shares. */
  datatype Setting = Setting(layout: TokenLayout, canonical: seq<Option<int>>, block: int, maxWidth: int)

  /** Step 0 is the prefill; step s reads with KV bound prompt_len + s. */
  function RowInputs(setting: Setting, mode: Mode, refs: seq<int>, step: int): ViewInputs {
    ViewInputs(mode, refs, setting.layout, setting.layout.promptLen + step, setting.canonical, setting.block,
               setting.maxWidth, step)
  }

  function PrefillRow(setting: Setting, v: View): Row {
    var n := setting.layout.promptLen;
    Row(0, None, None, n, n, n, Global, [], [], v)
  }

  /** The forward that consumes the record's token. */
  function DecodeRow(setting: Setting, r: StepRecord, v: View): Row {
    var n, t := setting.layout.promptLen, r.tokenIndex;
    Row(t + 1, Some(Input(t, r.tokenId, r.text)), Some(n + t), n + t, n + t + 1, n + t + 1,
        r.modeAfter, r.refs, r.events, v)
  }

  ghost function RecordView(setting: Setting, r: StepRecord): Result<View> {
    ViewSpec(RowInputs(setting, r.modeAfter, r.refs, r.tokenIndex + 1))
  }

  /** The row's view is the one built for the record. */
  ghost predicate ViewIs(setting: Setting, r: StepRecord, v: View) {
    RecordView(setting, r) == Ok(v)
  }

  predicate Numbered(steps: seq<StepRecord>) {
    forall i :: 0 <= i < |steps| ==> steps[i].tokenIndex == i
  }

  /** Row i carries record i's fields and positions. */
  predicate DecodePart(setting: Setting, steps: seq<StepRecord>, rows: seq<Row>) {
    |rows| <= |steps| && forall i :: 0 <= i < |rows| ==> rows[i] == DecodeRow(setting, steps[i], rows[i].view)
  }

  /** Row i's view is the one built for record i. */
  ghost predicate ViewsPart(setting: Setting, steps: seq<StepRecord>, rows: seq<Row>) {
    |rows| <= |steps| && forall i :: 0 <= i < |rows| ==> ViewIs(setting, steps[i], rows[i].view)
  }

  function Head(prefill: bool): nat { if prefill then 1 else 0 }

  /** The shape of a trace: the prefill row when asked for, then one row per kept record. */
  predicate IsTrace(setting: Setting, steps: seq<StepRecord>, prefill: bool, kept: nat, rows: seq<Row>) {
    && |rows| == Head(prefill) + kept && DecodePart(setting, steps, rows[Head(prefill)..])
    && (prefill ==> rows[0] == PrefillRow(setting, rows[0].view))
  }

  /** Every row reads through the view of its own mode, references and KV bound. */
  ghost predicate TraceViews(setting: Setting, steps: seq<StepRecord>, prefill: bool, rows: seq<Row>) {
    && |rows| >= Head(prefill) && ViewsPart(setting, steps, rows[Head(prefill)..])
    && (prefill ==> PrefillView(setting) == Ok(rows[0].view))
  }

  lemma ViewsAppend(setting: Setting, steps: seq<StepRecord>, rows: seq<Row>, row: Row)
    requires ViewsPart(setting, steps, rows) && |rows| < |steps| && ViewIs(setting, steps[|rows|], row.view)
    ensures ViewsPart(setting, steps, rows + [row])
  {
    hide ViewSpec;
    var more := rows + [row];
    forall i | 0 <= i < |more| ensures ViewIs(setting, steps[i], more[i].view) {
      if i < |rows| { assert more[i] == rows[i] && ViewIs(setting, steps[i], rows[i].view); }
    }
  }

  ghost function PrefillView(setting: Setting): Result<View> {
    ViewSpec(RowInputs(setting, Global, [], 0))
  }

  ghost predicate SomeViewFails(setting: Setting, steps: seq<StepRecord>, prefill: bool) {
    (prefill && PrefillView(setting).Err?) || AnyFails(setting, steps)
  }

  ghost predicate AnyFails(setting: Setting, steps: seq<StepRecord>) {
    exists i :: 0 <= i < |steps| && RecordView(setting, steps[i]).Err?
  }

  /** One row, or None when its view cannot be built. */
  method BuildRow(r: StepRecord, setting: Setting) returns (row: Option<Row>)
    ensures row.None? ==> RecordView(setting, r).Err?
    ensures row.Some? ==> row.value == DecodeRow(setting, r, row.value.view) && ViewIs(setting, r, row.value.view)
  {
    hide ViewSpec;
    var view := BuildReadView(RowInputs(setting, r.modeAfter, r.refs, r.tokenIndex + 1));
    if view.Err? { return None; }
    return Some(DecodeRow(setting, r, view.value));
  }

  method DecodeRows(steps: seq<StepRecord>, setting: Setting) returns (rows: Option<seq<Row>>)
    ensures rows.None? ==> AnyFails(setting, steps)
    ensures rows.Some? ==> |rows.value| == |steps|
    ensures rows.Some? ==> DecodePart(setting, steps, rows.value) && ViewsPart(setting, steps, rows.value)
  {
    hide ViewSpec;
    var out: seq<Row> := [];
    for i := 0 to |steps|
      invariant |out| == i && DecodePart(setting, steps, out) && ViewsPart(setting, steps, out)
    {
      var row := BuildRow(steps[i], setting);
      if row.None? { return None; }
      ViewsAppend(setting, steps, out, row.value);
      out := out + [row.value];
    }
    return Some(out);
  }

  /** build_step_trace: an optional prefill row, then one row per token; the last row is dropped when
      its token stopped generation and was never forwarded. */
  method BuildStepTrace(steps: seq<StepRecord>, setting: Setting, includePrefill: bool, finalForwarded: bool)
    returns (rows: Result<seq<Row>>)
    requires Numbered(steps)
    ensures rows.Err? <==> SomeViewFails(setting, steps, includePrefill)
    ensures rows.Err? ==> rows.error == ReadViewError
    ensures rows.Ok? ==> IsTrace(setting, steps, includePrefill,
                                 if finalForwarded || steps == [] then |steps| else |steps| - 1, rows.value)
    ensures rows.Ok? ==> TraceViews(setting, steps, includePrefill, rows.value)
  {
    hide ViewSpec;
    var out: seq<Row> := [];
    if includePrefill {
      var view := BuildReadView(RowInputs(setting, Global, [], 0));
      if view.Err? { return Err(ReadViewError); }
      out := [PrefillRow(setting, view.value)];
    }
    var more := DecodeRows(steps, setting);
    if more.None? { return Err(ReadViewError); }
    NoViewFails(setting, steps, more.value);
    assert (out + more.value)[Head(includePrefill)..] == more.value;
    out := out + more.value;
    if !finalForwarded && steps != [] {
      LastStepUnique(steps, setting, out, includePrefill);
      ViewsPrefix(setting, steps, includePrefill, out);
      out := Without(out, steps[|steps| - 1].tokenIndex + 1);
    }
    return Ok(out);
  }

  lemma NoViewFails(setting: Setting, steps: seq<StepRecord>, rows: seq<Row>)
    requires |rows| == |steps| && ViewsPart(setting, steps, rows)
    ensures !AnyFails(setting, steps)
  {
    hide ViewSpec;
    forall i | 0 <= i < |steps| ensures RecordView(setting, steps[i]).Ok? {
      assert ViewIs(setting, steps[i], rows[i].view);
    }
  }

  lemma ViewsPrefix(setting: Setting, steps: seq<StepRecord>, prefill: bool, rows: seq<Row>)
    requires TraceViews(setting, steps, prefill, rows) && |rows| > Head(prefill)
    ensures TraceViews(setting, steps, prefill, rows[..|rows| - 1])
  {
    hide ViewSpec;
    var short, decode := rows[..|rows| - 1], rows[Head(prefill)..];
    assert short[Head(prefill)..] == decode[..|decode| - 1];
    forall i | 0 <= i < |decode| - 1 ensures ViewIs(setting, steps[i], decode[..|decode| - 1][i].view) {
      assert ViewIs(setting, steps[i], decode[i].view);
    }
  }

  /** The rows of every step but the given one. */
  function Without(rows: seq<Row>, step: int): seq<Row> {
    if rows == [] then []
    else
      var n := |rows| - 1;
      Without(rows[..n], step) + if rows[n].decodeStep != step then [rows[n]] else []
  }

  lemma {:induction false} WithoutAbsent(rows: seq<Row>, step: int)
    requires forall i :: 0 <= i < |rows| ==> rows[i].decodeStep != step
    ensures Without(rows, step) == rows
  {
    if rows != [] { WithoutAbsent(rows[..|rows| - 1], step); }
  }

  /** The last row's step number occurs nowhere else, so the filter drops exactly that row. */
  lemma LastStepUnique(steps: seq<StepRecord>, setting: Setting, rows: seq<Row>, prefill: bool)
    requires Numbered(steps) && steps != [] && IsTrace(setting, steps, prefill, |steps|, rows)
    ensures Without(rows, steps[|steps| - 1].tokenIndex + 1) == rows[..|rows| - 1]
    ensures IsTrace(setting, steps, prefill, |steps| - 1, rows[..|rows| - 1])
  {
    var n, decode := |rows| - 1, rows[Head(prefill)..];
    assert rows[n] == decode[|steps| - 1];
    forall i | 0 <= i < n ensures rows[i].decodeStep != |steps| {
      if i >= Head(prefill) { assert rows[i] == decode[i - Head(prefill)]; }
    }
    WithoutLast(rows, |steps|);
    DecodePrefix(setting, steps, rows, Head(prefill));
  }

  lemma WithoutLast(rows: seq<Row>, step: int)
    requires rows != [] && rows[|rows| - 1].decodeStep == step
    requires forall i :: 0 <= i < |rows| - 1 ==> rows[i].decodeStep != step
    ensures Without(rows, step) == rows[..|rows| - 1]
  {
    WithoutAbsent(rows[..|rows| - 1], step);
  }

  lemma DecodePrefix(setting: Setting, steps: seq<StepRecord>, rows: seq<Row>, head: nat)
    requires head < |rows| && DecodePart(setting, steps, rows[head..])
    ensures DecodePart(setting, steps, rows[..|rows| - 1][head..])
  {
    var decode := rows[head..];
    assert rows[..|rows| - 1][head..] == decode[..|decode| - 1];
  }

  // ---------------------------------------------------------------------------
  // Independence of reads and writes
  // ---------------------------------------------------------------------------

  /** `first` and `last` are the first and the last decode row, when there is one. */
  datatype Summary = Summary(
    steps: nat, generation: nat, readChanges: nat, writeMonotonic: bool, firstWrite: Option<int>,
    lastWrite: Option<int>, lastKvLen: Option<int>, lastNextWrite: Option<int>)

  /** The decode rows, in order. */
  function Generated(rows: seq<Row>): seq<Row> {
    if rows == [] then []
    else
      var n := |rows| - 1;
      Generated(rows[..n]) + if rows[n].decodeStep >= 1 then [rows[n]] else []
  }

  function Changes(rows: seq<Row>): nat {
    if |rows| <= 1 then 0
    else
      var n := |rows| - 1;
      Changes(rows[..n]) + if rows[n].view.blocks != rows[n - 1].view.blocks then 1 else 0
  }

  function Writes(rows: seq<Row>): seq<Option<int>> {
    seq(|rows|, i requires 0 <= i < |rows| => rows[i].writePosition)
  }

  /** From the first written row on, every row writes one past the row before it. */
  predicate Sequential(ws: seq<Option<int>>) {
    forall i, j :: 0 <= i < j < |ws| && ws[i].Some? ==> ws[j] == Some(ws[i].value + (j - i))
  }

  /** What the loop keeps: the last write seen, and whether all writes so far are sequential. */
  predicate Tracks(ws: seq<Option<int>>, prev: Option<int>, monotonic: bool) {
    && (prev.None? <==> forall k :: 0 <= k < |ws| ==> ws[k].None?)
    && (monotonic && prev.Some? ==> ws != [] && ws[|ws| - 1] == prev)
    && (monotonic <==> Sequential(ws))
  }

  function Next(prev: Option<int>, w: Option<int>): Option<int> { if w.Some? then w else prev }

  lemma TracksStep(ws: seq<Option<int>>, w: Option<int>, prev: Option<int>, monotonic: bool)
    requires Tracks(ws, prev, monotonic)
    ensures Tracks(ws + [w], Next(prev, w), monotonic && (prev.None? || w == Some(prev.value + 1)))
  {
    var more, n := ws + [w], |ws|;
    assert more[n] == w && forall k :: 0 <= k < n ==> more[k] == ws[k];
    assert Next(prev, w).None? <==> forall k :: 0 <= k < |more| ==> more[k].None? by {
      if prev.Some? { var k :| 0 <= k < n && ws[k].Some?; assert more[k].Some?; }
      if w.Some? { assert more[n].Some?; }
    }
    if Sequential(more) {
      assert Sequential(ws);
      if prev.Some? { assert more[n] == Some(more[n - 1].value + 1); }
    }
    if Sequential(ws) && (prev.None? || w == Some(prev.value + 1)) {
      forall i | 0 <= i < n && ws[i].Some? ensures w == Some(ws[i].value + (n - i)) {
        assert ws[n - 1] == prev;
        if i < n - 1 { assert ws[n - 1] == Some(ws[i].value + (n - 1 - i)); }
      }
      Extend(ws, w);
    }
  }

  lemma Extend(ws: seq<Option<int>>, w: Option<int>)
    requires Sequential(ws) && forall i :: 0 <= i < |ws| && ws[i].Some? ==> w == Some(ws[i].value + (|ws| - i))
    ensures Sequential(ws + [w])
  {
    var more := ws + [w];
    forall i, j | 0 <= i < j < |more| && more[i].Some? ensures more[j] == Some(more[i].value + (j - i)) {
      assert more[i] == ws[i];
      if j < |ws| { assert more[j] == ws[j]; }
    }
  }

  function SummaryOf(rows: seq<Row>, changes: nat, monotonic: bool): Summary {
    var g := Generated(rows);
    if g == [] then Summary(|rows|, 0, changes, monotonic, None, None, None, None)
    else
      var last := g[|g| - 1];
      Summary(|rows|, |g|, changes, monotonic, g[0].writePosition, last.writePosition,
              Some(last.kvLen), Some(last.nextWrite))
  }

  /** independence_summary: counts the read-list changes, and reports monotonic writes exactly when
      they are sequential, whatever the modes did. */
  method IndependenceSummary(rows: seq<Row>) returns (s: Summary)
    ensures s.readChanges == Changes(rows)
    ensures s.writeMonotonic <==> Sequential(Writes(rows))
    ensures s == SummaryOf(rows, s.readChanges, s.writeMonotonic)
  {
    hide Sequential, Tracks;
    var changes, monotonic := 0, true;
    var prevBlocks: Option<seq<int>> := None;
    var prevWrite: Option<int> := None;
    NothingTracked();
    assert Writes(rows[..0]) == [];
    for i := 0 to |rows|
      invariant changes == Changes(rows[..i])
      invariant prevBlocks == if i == 0 then None else Some(rows[i - 1].view.blocks)
      invariant Tracks(Writes(rows[..i]), prevWrite, monotonic)
    {
      assert rows[..i + 1][..i] == rows[..i];
      TracksStep(Writes(rows[..i]), rows[i].writePosition, prevWrite, monotonic);
      assert Writes(rows[..i + 1]) == Writes(rows[..i]) + [rows[i].writePosition];
      if prevBlocks.Some? && rows[i].view.blocks != prevBlocks.value { changes := changes + 1; }
      if prevWrite.Some? && rows[i].writePosition != Some(prevWrite.value + 1) { monotonic := false; }
      prevBlocks := Some(rows[i].view.blocks);
      if rows[i].writePosition.Some? { prevWrite := rows[i].writePosition; }
    }
    assert rows[..|rows|] == rows;
    assert monotonic <==> Sequential(Writes(rows)) by { TracksMeans(Writes(rows), prevWrite, monotonic); }
    return SummaryOf(rows, changes, monotonic);
  }

  lemma TracksMeans(ws: seq<Option<int>>, prev: Option<int>, monotonic: bool)
    requires Tracks(ws, prev, monotonic)
    ensures monotonic <==> Sequential(ws)
  {
  }

  lemma NothingTracked()
    ensures Tracks([], None, true)
  {
  }

  /** Every trace writes sequentially: write positions depend on the step number alone. */
  lemma TraceWritesSequential(
    steps: seq<StepRecord>, setting: Setting, rows: seq<Row>, prefill: bool, kept: nat)
    requires Numbered(steps) && IsTrace(setting, steps, prefill, kept, rows)
    ensures Sequential(Writes(rows))
    ensures forall i :: 0 <= i < kept ==> rows[Head(prefill)..][i].writePosition == Some(setting.layout.promptLen + i)
  {
    var decode := rows[Head(prefill)..];
    forall i | Head(prefill) <= i < |rows|
      ensures rows[i].writePosition == Some(setting.layout.promptLen + i - Head(prefill)) {
      assert rows[i] == decode[i - Head(prefill)];
    }
  }

  lemma {:induction false} AllGenerated(rows: seq<Row>)
    requires forall i :: 0 <= i < |rows| ==> rows[i].decodeStep >= 1
    ensures Generated(rows) == rows
  {
    if rows != [] { AllGenerated(rows[..|rows| - 1]); }
  }

  lemma {:induction false} GeneratedJoin(a: seq<Row>, b: seq<Row>)
    ensures Generated(a + b) == Generated(a) + Generated(b)
  {
    if b == [] {
      assert a + b == a;
    } else {
      GeneratedJoin(a, b[..|b| - 1]);
      assert (a + b)[..|a + b| - 1] == a + b[..|b| - 1];
    }
  }

  /** The summary of a trace: one generation step per forwarded token, writes from prompt_len on. */
  lemma TraceSummary(
    steps: seq<StepRecord>, setting: Setting, rows: seq<Row>, prefill: bool, kept: nat, changes: nat)
    requires Numbered(steps) && IsTrace(setting, steps, prefill, kept, rows)
    ensures var s, n := SummaryOf(rows, changes, true), setting.layout.promptLen;
      && s.steps == Head(prefill) + kept && s.generation == kept
      && s.firstWrite == (if kept == 0 then None else Some(n))
      && s.lastWrite == (if kept == 0 then None else Some(n + kept - 1))
      && s.lastKvLen == s.lastNextWrite == (if kept == 0 then None else Some(n + kept))
  {
    GeneratedTrace(steps, setting, rows, prefill, kept);
    hide IsTrace, Generated, Numbered;
  }

  /** The decode rows of a trace are those behind the prefill row. */
  lemma GeneratedTrace(steps: seq<StepRecord>, setting: Setting, rows: seq<Row>, prefill: bool, kept: nat)
    requires Numbered(steps) && IsTrace(setting, steps, prefill, kept, rows)
    ensures var g, n := Generated(rows), setting.layout.promptLen;
      && |rows| == Head(prefill) + kept && |g| == kept
      && (kept > 0 ==> g[0].writePosition == Some(n) && g[kept - 1].writePosition == Some(n + kept - 1)
                       && g[kept - 1].kvLen == g[kept - 1].nextWrite == n + kept)
  {
    GeneratedBehindHead(steps, setting, rows, prefill, kept);
    DecodeSteps(setting, steps, rows[Head(prefill)..]);
    hide Generated, DecodePart;
  }

  lemma GeneratedBehindHead(steps: seq<StepRecord>, setting: Setting, rows: seq<Row>, prefill: bool, kept: nat)
    requires Numbered(steps) && IsTrace(setting, steps, prefill, kept, rows)
    ensures Generated(rows) == rows[Head(prefill)..]
  {
    DecodeSteps(setting, steps, rows[Head(prefill)..]);
    OnlyDecodeGenerated(rows, Head(prefill));
  }

  lemma OnlyDecodeGenerated(rows: seq<Row>, n: nat)
    requires n <= |rows| && n <= 1
    requires forall i :: 0 <= i < n ==> rows[i].decodeStep == 0
    requires forall i :: n <= i < |rows| ==> rows[i].decodeStep >= 1
    ensures Generated(rows) == rows[n..]
  {
    hide Generated;
    PrefillNotGenerated(rows[..n]);
    AllGenerated(rows[n..]);
    GeneratedJoin(rows[..n], rows[n..]);
    Rejoined(rows, n);
  }

  lemma Rejoined(rows: seq<Row>, n: nat)
    requires n <= |rows|
    ensures rows[..n] + rows[n..] == rows && [] + rows[n..] == rows[n..]
  {
  }

  lemma DecodeSteps(setting: Setting, steps: seq<StepRecord>, decode: seq<Row>)
    requires Numbered(steps) && DecodePart(setting, steps, decode)
    ensures forall i :: 0 <= i < |decode| ==>
      && decode[i].decodeStep == i + 1 && decode[i].writePosition == Some(setting.layout.promptLen + i)
      && decode[i].kvLen == decode[i].nextWrite == setting.layout.promptLen + i + 1
  {
  }

  lemma PrefillNotGenerated(rows: seq<Row>)
    requires |rows| <= 1 && forall i :: 0 <= i < |rows| ==> rows[i].decodeStep == 0
    ensures Generated(rows) == []
  {
  }
}
