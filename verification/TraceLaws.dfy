/** The rows of a trace: every row reads for the question its own numbers ask. */
module TraceLaws {
  import opened Basics
  import opened Spans
  import opened Visibility
  import opened ReadView
  import opened CompressedRead
  import opened StepPlan
  import opened Refinement
  import opened ViewLaws
  import opened ProtocolState
  import opened Trace

  /** The question a row asks by its own mode, references and KV bound. */
  function RowQuestion(setting: Setting, row: Row): Query {
    Query(row.mode, row.refs, setting.layout, row.kvLen, setting.block)
  }

  /** The row's view answers the row's own question. */
  ghost predicate RowAnswered(setting: Setting, row: Row) {
    && setting.block > 0
    && row.view.kvLen == row.kvLen && row.view.mode == row.mode && row.view.refs == row.refs
    && row.view.effectStep == row.decodeStep && row.view.nextWrite == row.nextWrite
    && var q := RowQuestion(setting, row);
    && row.view.blocks == Blocks(q) && PositionsOf(row.view.visible) == Positions(q)
    && TableTells(q, setting.canonical, row.view) && SpansTell(q, row.view) && TailTells(q, row.view)
  }

  /** Row of the forward that consumes record i's token, spelled out on the record. */
  ghost predicate RowOfRecord(setting: Setting, r: StepRecord, i: int, row: Row) {
    var n := setting.layout.promptLen;
    && row.decodeStep == i + 1 && row.writePosition == Some(n + i) && row.writtenBefore == n + i
    && row.kvLen == row.nextWrite == n + i + 1
    && row.mode == r.modeAfter && row.refs == r.refs && row.events == r.events
    && row.input.Some? && row.input.value.index == i && row.input.value.id == r.tokenId
    && row.input.value.text == r.text
  }

  ghost predicate RowOfPrefill(setting: Setting, row: Row) {
    var n := setting.layout.promptLen;
    && row.decodeStep == 0 && row.input.None? && row.writePosition.None?
    && row.writtenBefore == row.kvLen == row.nextWrite == n
    && row.mode == Global && row.refs == [] && row.events == []
  }

  /** The position the row writes is one it reads. */
  ghost predicate ReadsOwnWrite(row: Row) {
    row.writePosition.Some? && row.writePosition.value >= 0 ==> Covered(row.view.visible, row.writePosition.value)
  }

  /** A view exists for the forward that consumes record i's token. */
  ghost predicate Readable(setting: Setting, r: StepRecord, i: int) {
    Buildable(Query(r.modeAfter, r.refs, setting.layout, setting.layout.promptLen + i + 1, setting.block),
              setting.canonical, setting.maxWidth)
  }

  ghost predicate PrefillReadable(setting: Setting) {
    Buildable(Query(Global, [], setting.layout, setting.layout.promptLen, setting.block),
              setting.canonical, setting.maxWidth)
  }

  /** The row is record i's forward, answers its own question, and reads the position it writes. */
  ghost predicate DecodeRowTells(setting: Setting, r: StepRecord, i: int, row: Row) {
    RowOfRecord(setting, r, i, row) && RowAnswered(setting, row) && ReadsOwnWrite(row)
  }

  /** The prefill row when there is one, then the records' forwards in order. */
  ghost predicate RowsTell(setting: Setting, steps: seq<StepRecord>, prefill: bool, rows: seq<Row>) {
    var head := if prefill then 1 else 0;
    && head <= |rows| <= head + |steps|
    && (prefill ==> RowOfPrefill(setting, rows[0]) && RowAnswered(setting, rows[0]))
    && forall k :: head <= k < |rows| ==> DecodeRowTells(setting, steps[k - head], k - head, rows[k])
  }

  /** build_step_trace fails exactly when some view cannot be built, the dropped last row's included;
      otherwise there is a row for every record but a last one that was never forwarded. */
  method TraceRows(steps: seq<StepRecord>, setting: Setting, includePrefill: bool, finalForwarded: bool)
    returns (rows: Result<seq<Row>>)
    requires forall i :: 0 <= i < |steps| ==> steps[i].tokenIndex == i
    ensures rows.Err? <==>
      || (includePrefill && !PrefillReadable(setting))
      || exists i :: 0 <= i < |steps| && !Readable(setting, steps[i], i)
    ensures rows.Ok? ==> RowsTell(setting, steps, includePrefill, rows.value)
    ensures rows.Ok? ==>
      |rows.value| == (if includePrefill then 1 else 0) + |steps| - (if finalForwarded || steps == [] then 0 else 1)
  {
    hide RowsTell, Readable, PrefillReadable, ViewSpec, TraceViews, SomeViewFails;
    rows := BuildStepTrace(steps, setting, includePrefill, finalForwarded);
    FailureSpelled(steps, setting, includePrefill);
    if rows.Ok? {
      TraceTells(setting, steps, includePrefill, |rows.value| - Head(includePrefill), rows.value);
    }
  }

  lemma TraceTells(setting: Setting, steps: seq<StepRecord>, prefill: bool, kept: nat, rows: seq<Row>)
    requires Numbered(steps) && kept <= |steps|
    requires IsTrace(setting, steps, prefill, kept, rows) && TraceViews(setting, steps, prefill, rows)
    ensures RowsTell(setting, steps, prefill, rows)
  {
    TraceShape(setting, steps, prefill, kept, rows);
    hide *;
    if prefill { PrefillTells(setting, steps, rows); }
    forall k | Head(prefill) <= k < |rows|
      ensures k - Head(prefill) < |steps|
      ensures DecodeRowTells(setting, steps[k - Head(prefill)], k - Head(prefill), rows[k])
    {
      DecodeTells(setting, steps, prefill, kept, rows, k);
    }
    AllTell(setting, steps, prefill, rows);
  }

  lemma AllTell(setting: Setting, steps: seq<StepRecord>, prefill: bool, rows: seq<Row>)
    requires Head(prefill) <= |rows| <= Head(prefill) + |steps|
    requires prefill ==> RowOfPrefill(setting, rows[0]) && RowAnswered(setting, rows[0])
    requires forall k :: Head(prefill) <= k < |rows| ==>
      DecodeRowTells(setting, steps[k - Head(prefill)], k - Head(prefill), rows[k])
    ensures RowsTell(setting, steps, prefill, rows)
  {
    hide DecodeRowTells, RowOfPrefill, RowAnswered;
  }

  lemma TraceShape(setting: Setting, steps: seq<StepRecord>, prefill: bool, kept: nat, rows: seq<Row>)
    requires IsTrace(setting, steps, prefill, kept, rows)
    ensures |rows| == Head(prefill) + kept && Head(true) == 1
    ensures prefill ==> rows[0] == PrefillRow(setting, rows[0].view)
  {
    hide DecodePart;
  }

  lemma FailureSpelled(steps: seq<StepRecord>, setting: Setting, prefill: bool)
    requires Numbered(steps)
    ensures SomeViewFails(setting, steps, prefill) <==>
      (prefill && !PrefillReadable(setting)) || exists i :: 0 <= i < |steps| && !Readable(setting, steps[i], i)
  {
    hide ViewSpec, Buildable;
    BuildableExact(RowInputs(setting, Global, [], 0));
    forall i | 0 <= i < |steps| ensures RecordView(setting, steps[i]).Err? <==> !Readable(setting, steps[i], i) {
      BuildableExact(RowInputs(setting, steps[i].modeAfter, steps[i].refs, i + 1));
    }
  }

  lemma PrefillTells(setting: Setting, steps: seq<StepRecord>, rows: seq<Row>)
    requires rows != [] && rows[0] == PrefillRow(setting, rows[0].view) && TraceViews(setting, steps, true, rows)
    ensures RowOfPrefill(setting, rows[0]) && RowAnswered(setting, rows[0])
  {
    hide ViewSpec, SpansTell, TableTells, TailTells;
    ViewAnswers(RowInputs(setting, Global, [], 0), rows[0].view);
  }

  lemma DecodeTells(setting: Setting, steps: seq<StepRecord>, prefill: bool, kept: nat, rows: seq<Row>, k: int)
    requires Numbered(steps) && IsTrace(setting, steps, prefill, kept, rows)
    requires TraceViews(setting, steps, prefill, rows) && Head(prefill) <= k < |rows|
    ensures DecodeRowTells(setting, steps[k - Head(prefill)], k - Head(prefill), rows[k])
  {
    hide *;
    DecodeRowAt(setting, steps, prefill, kept, rows, k);
    DecodeRowAnswers(setting, steps[k - Head(prefill)], k - Head(prefill), rows[k]);
  }

  lemma DecodeRowAt(setting: Setting, steps: seq<StepRecord>, prefill: bool, kept: nat, rows: seq<Row>, k: int)
    requires Numbered(steps) && IsTrace(setting, steps, prefill, kept, rows)
    requires TraceViews(setting, steps, prefill, rows) && Head(prefill) <= k < |rows|
    ensures 0 <= k - Head(prefill) < |steps| && steps[k - Head(prefill)].tokenIndex == k - Head(prefill)
    ensures rows[k] == DecodeRow(setting, steps[k - Head(prefill)], rows[k].view)
    ensures ViewIs(setting, steps[k - Head(prefill)], rows[k].view)
  {
    hide DecodeRow, ViewIs, PrefillRow, PrefillView;
    var i, decode := k - Head(prefill), rows[Head(prefill)..];
    assert rows[k] == decode[i];
    assert ViewIs(setting, steps[i], decode[i].view);
  }

  lemma DecodeRowAnswers(setting: Setting, r: StepRecord, i: int, row: Row)
    requires r.tokenIndex == i >= 0 && row == DecodeRow(setting, r, row.view) && ViewIs(setting, r, row.view)
    ensures DecodeRowTells(setting, r, i, row)
  {
    hide ViewSpec, SpansTell, TableTells, TailTells, PositionsOf, Positions, Blocks;
    ViewAnswers(RowInputs(setting, r.modeAfter, r.refs, i + 1), row.view);
    assert RowAnswered(setting, row);
    WritesVisible(setting, r, i, row);
  }

  /** What a built view says about its question. */
  lemma ViewAnswers(inp: ViewInputs, v: View)
    requires ViewSpec(inp) == Ok(v)
    ensures inp.block > 0 && v.mode == inp.mode && v.refs == inp.refs && v.effectStep == inp.effectStep
    ensures v.kvLen == v.nextWrite == inp.kvLen
    ensures var q := Question(inp);
      && v.blocks == Blocks(q) && PositionsOf(v.visible) == Positions(q)
      && TableTells(q, inp.canonical, v) && SpansTell(q, v) && TailTells(q, v)
  {
    SpansOfView(inp);
    TableOfView(inp);
    TailOfView(inp);
    BuiltIsViewOf(inp);
    hide SpansTell, TableTells, TailTells, RunsOf, PositionsOf, Positions, Blocks;
    ViewPositions(inp);
  }

  /** The position a decode row writes is among those it reads. */
  lemma WritesVisible(setting: Setting, r: StepRecord, i: int, row: Row)
    requires RowAnswered(setting, row) && RowOfRecord(setting, r, i, row) && i >= 0
    ensures ReadsOwnWrite(row)
  {
    var q := RowQuestion(setting, row);
    if row.kvLen > 0 {
      CurrentIsSemantic(q);
      VisibleBlock(q, q.kvLen - 1);
    }
  }
}
