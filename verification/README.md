# Attention-view protocol: a Dafny model

The repository decides, for every decode step of a language model, which KV-cache positions the
attention kernel may read. The model's own output carries tags (`<focus magic_chunks="2,5">`,
`<local>`, `</focus>` ...); a scanner turns them into a mode and a list of references; the mode and
the token layout become visible spans, then blocks, then a compressed physical block table that a
paged kernel reads by prefix semantics. Around this sit a segmenter that cuts the context into
addressable pieces, per-request state and traces, independent re-implementations of "what is
visible", and a crash-safe tool that deploys the patched runtime files.

This project models those parts and proves what they promise each other. It has four groups of
modules.

**Visibility and the paged cache.** `Visibility` states, position by position, what a step may read.
`ReadView` (span algebra), `Reference` (boolean mask), `GpuOracle` (flag arrays) and `ReferenceDense`
(run expansion) are the repository's four separately written answers; each is an imperative method
proved equal to `Visibility`, and `Refinement.CompareAll` runs them side by side on every input that none
of them refuses. `GpuKv`,
`CompressedRead` and `StepPlan` carry the view through the read table to the validated plan. `KvRun`
puts a slot array underneath: writes go to canonical slots, reads shrink and grow with the mode, and
every read returns the truth at exactly the visible positions. `ServedRun` lets the tag scanner choose
the modes of such a run. `Timeline` compares the two independent timelines.

`ViewLaws`, `TraceLaws` and `TimelineLaws` say what each field of a view, a plan, a trace row, a mask and an
expectation means, and when there is one, in terms of the request alone.

**Segmentation.** `Offsets`, `Delimiters`, `Segmenter`: bisection counts, delimiter levels, the
recursive splitter, and the partition and cap guarantees. `SegmentLaws` states the cut and the segments in terms
of characters and token counts.

**Tags and state.** `TagSyntax`, `TagParser`, `StreamLaws`, `RoundTrip`, `ProtocolState`, `FinishTwice`, `Trace`. The
scanner is a class proved, character by character, to follow a pure state machine; the laws about
whole streams are lemmas about that machine, and `TagLaws` says what each tag text does to mode and references.

**Deployment.** `PatchModel`, `PatchSteps`, `PatchTool`, `PatchRecovery`, `PatchFindings`. The disk is
three maps (target files, backups, journal). A `Machine` runs apply, rollback, revert and verify as
sequences of disk steps; a schedule of outcomes lets any step succeed, fail, be the last one before a
crash, tear a plain copy, or write something else than asked. `PatchSteps` gives the same runs as functions
of disk and schedule, and every method of the machine is proved to follow them step by step, so that
`PatchFindings` can exhibit whole runs; `PatchLaws` states exits and outcomes on the maps themselves. A hash
stands for the content it identifies.

`Basics`, `Text` and `Spans` hold what the others share.

## What the proofs found

- **A torn plain copy defeats the restart promise.** `undo_record` copies a backup over its target with
  a plain copy (tools/p2-apply-patch.py:262-264), while the tool's own comment on `replace_copy` makes
  crash recovery rest on targets that hold only pre or post content. `PatchFindings.TornCopyLosesOriginal`
  is a whole run: apply dies after placing its target, the revert dies half way through the copy back, and
  the next plain revert takes the torn target for outside content, preserves it, reports success and removes
  the only good copy. The exact condition: on an unfinished transaction a completed plain revert has the
  original tree back if and only if verify reported nothing before it (`PatchRecovery.PlainRevertExact`).
  With `--force` the promise holds for torn and even garbled copies (`PatchRecovery.ApplyThenRecover`).
- **A journal can outlive its backups.** When a revert of a deployment has removed backups but not the
  journal, because it crashed in between or because the journal's unlink failed, which it reports as
  success, the original tree is back but later reverts are refused: forced ones if and only if the backup
  of a modified file is gone, plain ones if and only if that or some target had changed
  (`PatchRecovery.LeftoverIsStuck`).
  `PatchFindings.JournalLeftBehind` is such a run. The files themselves are always back
  (`PatchRecovery.DeployThenForce`).
- **A revert closes if and only if** it is not refused and every modified target it undoes has different pre
  and post content (`PatchRecovery.RevertCloses`): the final check reads a target whose two contents agree
  as post. Apply accepts such targets, and `PatchFindings.EqualContentsNeverClose` deploys one and is never
  done reverting it. The files are right all the same (`PatchRecovery.ApplyRevert`).
- **A mark of `written` tells the truth until rollback undoes the target.** Wherever apply ends, pending targets
  are untouched and written ones are post unless a step of the write phase failed while the process lived; in
  particular a schedule that only kills the process never makes a mark lie. In general every written target is
  post if and only if the run undoes no written target that its deployment changed, and which ones it undoes is
  a function of disk and schedule (`PatchRecovery.ApplyMarks`, `PatchSteps.UndoesOnlyAfterFailure`). Rollback does
  not move the marks back, so a crash in it leaves `written` over original content
  (`PatchFindings.RollbackCrashUnwritesWritten`); revert judges by content and copes.
- **A declaration is understood exactly when it fits the buffer.** A printed `<focus ...>` tag is one
  transition if and only if the tag without its `>` fits `max_tag_buffer`; a longer one is exactly one
  overflow anomaly and keeps the mode (`RoundTrip.DeclarationRoundTrip`).
- **The early exit in `mode_at` and the full scan return the same at every step if and only if the order of
  the declarations is harmless**: whenever, at some moment, one declaration is the first not yet due and
  another behind it the last one due, the later one repeats the state before the earlier one
  (`Timeline.EarlyExitExact`). Parse indices that never drop are harmless
  (`Timeline.NonDecreasingHarmless`), some drops are (`Timeline.DroppedButHarmless`), and
  `Timeline.EarlyExitMisses` gives a list on which the two loops disagree.
- **A second `finish` forgets the first one's events.** It finds an empty buffer and overwrites
  `flush_events`. Events are lost if and only if the state was closed already with flush events on record, and
  focus attempts drop if and only if one of those was an attempt (`FinishTwice.FinishAndCount`): a request that
  ends in `<focus ` counts one attempt after the first call and none after the second
  (`FinishTwice.UnclosedFocusForgotten`).
- **The four definitions of "visible" accept different inputs**: the dense reference refuses focus without
  references and an empty visible set, and the oracle refuses when the next token has no block. On inputs
  none of them refuses they agree (`Refinement.CompareAll`). For decode inputs the timelines' mask and
  expectation exist exactly when focus names something, while the plan always does
  (`Timeline.TimelinesAgree`).

## Model

| member | source | states |
|---|---|---|
| Spans.NormalUnique | src/attnview/readview.py:266-278 | two lists of nonempty, strictly separated, ascending spans that cover the same positions are the same list, so order and duplication of the input never show |
| Spans.NormalIsRuns | src/attnview/readview.py:99-104 | such a list is exactly the maximal runs of the positions it covers, and listing it enumerates them in order |
| Visibility.CompressedReadExact | src/attnview/gpukv.py:153-169 | reading indices 0, 1, .. through the block list by prefix semantics enumerates the visible positions in ascending order, each once, and needs exactly one column per visible block |
| Visibility.LeastBlockUnion | src/attnview/reference.py:51-59 | the visible set is the least union of written blocks containing every semantic position |
| Visibility.CountsTotal | src/attnview/gpukv.py:127-153 | the per-block counts add up to the number of visible positions |
| ReadView.Clip | src/attnview/readview.py:251-258 | clipping keeps exactly the covered positions inside the KV bound, in nonempty spans |
| ReadView.AlignCovers | src/attnview/readview.py:261-263 | outward alignment covers a position exactly when its block holds a covered one |
| ReadView.Merge | src/attnview/readview.py:266-278 | the merged spans cover the input's positions with a gap between any two; normal form for nonempty spans |
| ReadView.ComputeSpans | src/attnview/readview.py:141-162 | clip, merge, align, clip, merge yield the runs of the semantic set, the runs of the visible set, and the visible blocks |
| ReadView.LookUpBlocks | src/attnview/readview.py:164-188 | succeeds exactly when every visible block lies in the map and owns a nonnegative physical block, and returns those in order |
| ReadView.BuildReadView | src/attnview/readview.py:131-210 | for every input, the view computed by span algebra is the one defined position by position, or the same refusal; `ViewLaws.ViewFields` says what each field means |
| ReadView.BuiltViewsPassAdapter | src/attnview/readview.py:213-245 | a built view passes the boundary checks exactly when the row exists and the table row is wide enough |
| ViewLaws.ViewFields | src/attnview/readview.py:131-210 | a view is built exactly when its inputs make sense, the visible blocks fit the table and each has a physical block; raw and visible spans are the runs of the selected and the read positions, the declared spans cover exactly what focus declares, the response what lies behind the prompt; blocks, physical row and -1 padding; a full last block has a full tail, and the tail is the last visible block's count; sink, window, mode, references and lengths are the input's |
| ViewLaws.AdapterExact | src/attnview/readview.py:213-245 | for any view: accepted exactly when the row exists, the row is wide enough and of full width, and its valid columns, and no others, name blocks; what is handed on is unchanged |
| GpuKv.SlotsDistinct | src/attnview/gpukv.py:68-76 | under a valid map different positions have different slots |
| GpuKv.SlotsStable | src/attnview/gpukv.py:68-76 | appending blocks to the map moves no slot |
| GpuKv.CountBlock | src/attnview/gpukv.py:128-135 | the accumulation loop computes the positions of one block that the visible spans cover |
| GpuKv.CheckRows | src/attnview/gpukv.py:115-125 | the row loop accepts exactly when every row names its block's physical block and that block holds a written position |
| GpuKv.ReadTableFromReadView | src/attnview/gpukv.py:90-169 | for any view whatever: refused unless every metadata condition holds, else the table of the prefix, counts, total and tail |
| ViewLaws.TableFromAnyView | src/attnview/gpukv.py:90-169 | whatever view it is given, as long as the visible spans are separated runs from 0 on: a table the conversion accepts names the map's block in every column, ends at the block being written, and no index below its total reaches a position that is not written |
| ViewLaws.PaddedRowExact | src/attnview/gpukv.py:48-52 | a padded row fits exactly when the width holds the table; the table comes first, every other column repeats its last block, none is -1 |
| ViewLaws.SlotExact | src/attnview/gpukv.py:68-76 | a position has a slot exactly when the map is nonempty, nonnegative, without repeats and reaches it; the slot's block is the map's and its offset the position's |
| CompressedRead.LastBlockIsCurrent | src/attnview/readview.py:281-285 | when the current token is visible its block is the largest, and its count is the tail length |
| CompressedRead.BuiltTable | src/attnview/gpukv.py:90-169 | a built view converts exactly when the current token's block is visible; the table then holds the position-wise blocks, counts, total and tail |
| CompressedRead.SlotOfReadIndex | src/attnview/gpukv.py:68-76 | the slot of the j-th visible position is the slot prefix semantics reaches with index j |
| CompressedRead.TableReadsVisible | src/attnview/gpukv.py:48-76 | reading any index through the table or any padded row touches the canonical slot of a written visible position; padding columns are never indexed |
| StepPlan.BuildStepPlan | src/attnview/step_plan.py:295-352 | the composed implementation equals the composition of the view and table definitions, refusals included |
| StepPlan.BlocksUpToCurrent | src/attnview/step_plan.py:188-191 | no visible block lies past the one being written, so a table as wide as the full history always suffices |
| StepPlan.TotalWithinKv | src/attnview/step_plan.py:269-272 | the total read is positive and never exceeds the KV length |
| StepPlan.PlanExact | src/attnview/step_plan.py:295-352 | a plan exists if and only if the request passes checks computed from its own fields (geometry, references, a selected position in the current block, the map's length, the number of selected blocks), and is then exact in every field |
| StepPlan.PlanTotal | src/attnview/step_plan.py:295-352 | every decode input the runtime produces gets its exact plan; nothing raises |
| StepPlan.PlanArithmetic | src/attnview/step_plan.py:252-275 | the total is the number of visible positions, its columns are the visible blocks, all but the last are full, the tail is the last count |
| ViewLaws.EarlyExact | src/attnview/step_plan.py:166-186 | the checks before a view is built refuse exactly a bad geometry, an unknown mode, a negative step, an unwritten length, a map with gaps, negatives or repeats, or local without a window; which error for which |
| ViewLaws.PlanExists | src/attnview/step_plan.py:295-352 | a plan exists exactly for a request that passes those checks with references in range, a selected position in the mapped current block and few enough visible blocks; blocks, counts, total, tail, width and write position of the plan in terms of the request |
| Reference.Mark | src/attnview/reference.py:36-38 | marking sets exactly the span's part inside the array |
| Reference.MarkSelected | src/attnview/reference.py:34-49 | the marks are exactly the semantic positions; a bad reference is the only refusal |
| Reference.VisibleMask | src/attnview/reference.py:20-59 | position p is true exactly when it is visible; which refusal for which input |
| Reference.VisiblePositions | src/attnview/reference.py:62-64 | the reference list is the visible positions |
| GpuOracle.SemanticFlags | src/attnview/gpuoracle.py:76-86 | the flag array holds exactly the semantic positions |
| GpuOracle.AlignedPositions | src/attnview/gpuoracle.py:92-104 | the widened flags are exactly the visible positions, and the current token's flag says whether its block is visible |
| GpuOracle.CountByScan | src/attnview/gpuoracle.py:105-107 | counting a block's positions one by one gives the closed-form count |
| GpuOracle.BuildOracleView | src/attnview/gpuoracle.py:46-128 | which inputs it answers, with or without explicit blocks, and that blocks, counts, positions, total, physical blocks and next write slot are the position-wise ones |
| GpuOracle.ExplicitMeansBlocks | src/attnview/gpuoracle.py:71-74 | explicit blocks select exactly the written positions of those blocks, whatever their order and repetition |
| ReferenceDense.SplitRuns | src/attnview/reference_dense.py:87-92 | splitting any list into runs keeps exactly its elements |
| ReferenceDense.BlockExpanded | src/attnview/reference_dense.py:76-100 | for any list: the read positions are those below the bound sharing a block with it, with their blocks and clipped counts |
| ReferenceDense.ExactMaskConsistent | src/attnview/reference_dense.py:56-73 | the mask's own consistency checks never fire |
| ReferenceDense.IndependentPositions | src/attnview/reference_dense.py:103-132 | which inputs it answers, and that the mask is the position-wise one |
| TimelineLaws.MaskFields | src/attnview/reference_dense.py:103-132 | it answers exactly a known mode with something selected and, under focus, named and existing segments; selected and read positions, blocks, per-block counts, length and current position of the answer |
| TimelineLaws.GatherExact | src/attnview/reference_dense.py:135-166 | the gather accepts exactly a nonempty list of positions that the table reaches in blocks the cache has, and takes each from its block at its offset |
| Refinement.CompareAll | src/attnview/reference_dense.py:36-44 | on every input none of the four refuses, view, mask, oracle and dense reference give one position list, one block list, one list of counts and one total |
| Refinement.PlanAgrees | src/attnview/gpuoracle.py:9-10 | a plan carries the oracle's blocks, counts and total, and the view the oracle's physical blocks |
| Refinement.ComparableAnswered | src/attnview/step_plan.py:295-352 | decode inputs whose focus names something and whose next token has a block are refused by none |
| Refinement.ViewPositions | src/attnview/readview.py:99-104 | the positions of a built view are exactly the visible ones, ascending |
| Refinement.GatherIsTableRead | src/attnview/reference_dense.py:135-166 | the dense gather and the compressed prefix read touch the same physical block and offset at every index |
| KvRun.WriteStored | src/attnview/gpukv.py:79-87 | writing the next position at its canonical slot disturbs no earlier position |
| KvRun.PagedCache.Append | src/attnview/gpukv.py:79-87 | one write changes exactly the canonical slot of the next position and extends the stored history by its token |
| KvRun.PagedCache.Gather | src/attnview/gpukv.py:48-52 | reading column j / b at offset j % b returns the stored truth at the visible positions in order |
| KvRun.PagedCache.Read | src/attnview/step_plan.py:295-352 | a read through a step plan is the history at exactly the visible positions |
| KvRun.GlobalReadsAll | src/attnview/readview.py:152-153 | under global the read is the whole history |
| KvRun.Run | src/attnview/trace.py:112-142 | prefill and then any sequence of modes and references: every step reads the truth at its own visible positions; what is stored depends on the tokens alone |
| ServedRun.ProtocolStepsLegal | src/attnview/state.py:84-106 | whatever text is generated, every recorded step has a known mode and usable references; a local window is needed only where local is declared |
| ServedRun.Record | src/attnview/state.py:84-106 | feeding a token list in order records one step per token |
| ServedRun.Serve | src/attnview/trace.py:112-142 | for any generated text, the forward that consumes token t reads the truth at exactly the positions the tags of tokens 0..t make visible |
| ServedRun.ClosedReadsAll | src/attnview/parser.py:232-251 | when nothing is open and the next tokens spell `</focus>` under focus or `</local>` under local, in whatever pieces, the forward that consumes the last of them reads the whole history |
| ServedRun.LocalControl | src/attnview/parser.py:232-241 | tokens that spell `<local>` put the forward that consumes the last of them under local, whatever was in force |
| ServedRun.FocusControl | src/attnview/parser.py:253-303 | tokens that spell a declaration of existing segments put the forward that consumes the last of them under focus with exactly those segments |
| Timeline.ModeAt | src/attnview/reference_bridge.py:66-73 | the loop stops at the first declaration that is not due |
| Timeline.ScanAll | src/attnview/smoke_structure.py:44-49 | the loop keeps the last declaration that is due |
| Timeline.EarlyExitExact | src/attnview/reference_bridge.py:66-73 | the two loops return the same mode and references at every step if and only if every overtaking declaration repeats the state it overtakes |
| Timeline.NonDecreasingHarmless | src/attnview/reference_bridge.py:52-53 | parse indices that never drop are enough |
| Timeline.EarlyExitMisses | src/attnview/reference_bridge.py:66-73 | a declaration list and a step at which the two loops return different modes |
| Timeline.Declare | src/attnview/smoke_structure.py:38-41 | each declaration is closed by the last token of its piece, and the parse indices never drop |
| TimelineLaws.DeclaresPieces | src/attnview/smoke_structure.py:38-41 | each piece is declared, with its own mode and references, at the last token that comes from it |
| Timeline.MaskAt | src/attnview/reference_bridge.py:75-89 | the bridge's mask is the position-wise one for its own mode and KV length |
| TimelineLaws.BridgeAsks | src/attnview/reference_bridge.py:66-89 | at token t the bridge answers for the last declaration due by t, global before any, with t + 1 tokens behind the prompt |
| Timeline.Expectations | src/attnview/smoke_structure.py:42-58 | one exact expectation per forward pass, or a forward pass the reference refuses |
| TimelineLaws.ExpectationFields | src/attnview/smoke_structure.py:42-58 | forward 1 is global over the prompt; forward f reads the last declaration due by token f - 2 over f - 1 more tokens; numbers, blocks and counts of each expectation |
| Timeline.QuestionsAgree | src/attnview/smoke_structure.py:45-50 | at forward t + 2 the smoke timeline asks what the bridge asks at token t, KV length included |
| Timeline.TimelinesAgree | src/attnview/smoke_structure.py:50-57 | expectation, bridge mask and step plan agree in mode, references, KV length, blocks and counts; the plan exists, and expectation and mask exactly when focus names something |
| Offsets.BuiltSorted | src/attnview/segmenter.py:69-76 | the neighbour-wise check makes all token ends sorted; sorted starts are in order at every position |
| SegmentLaws.BuildExact | src/attnview/segmenter.py:69-76 | refused exactly for a token that ends before it starts or an end that falls back behind any earlier one; otherwise starts and ends are the tokens' |
| Offsets.OverlapInterval | src/attnview/segmenter.py:89-95 | for every index the constructor accepts: the two bisections enclose exactly the overlapping tokens if and only if no token starting before the range's end stands behind one that does not |
| Offsets.OverlapCountExact | src/attnview/segmenter.py:89-95 | the bisected overlap count equals the naive one when starts are in order at the range's end, and in general if and only if the bisection finds the number of tokens that start before it |
| Offsets.InsideCountExact | src/attnview/segmenter.py:81-87 | the bisected containment count equals the naive one when starts are in order at the range's start, and in general if and only if the bisection finds the number of tokens that start before it and end in time |
| Offsets.TokenRange | src/attnview/prompt.py:304-319 | first to one past last meeting token, refused exactly when none meets, for any offsets |
| Offsets.RangeWidthIsCount | src/attnview/prompt.py:304-319 | with starts in order at the range's end the width of that range is the segmenter's overlap count |
| Delimiters.CutsExact | src/attnview/segmenter.py:128-142 | the scan finds exactly the places whose neighbouring characters make them a cut of the level |
| Delimiters.BlankLineCutsExact | src/attnview/segmenter.py:33-39 | blank-line cuts come exactly after every second newline of a chain of newlines with only blanks between them |
| SegmentLaws.BlankLineEnds | src/attnview/segmenter.py:33-39 | a newline ends a blank line exactly when the newline before it, with only spaces and tabs between, does not end one itself |
| Segmenter.ChosenUnique | src/attnview/segmenter.py:222-259 | coarsest viable level, tier and (distance, preference, position) determine one cut |
| Segmenter.ChooseCut | src/attnview/segmenter.py:231-254 | the scoring loop returns the unique most preferred viable cut of a level, or none is viable |
| Segmenter.FindCut | src/attnview/segmenter.py:225-259 | the first level with a viable cut decides; none found means no level has one; `SegmentLaws.CutPlace` says which places these are |
| SegmentLaws.CutPlace | src/attnview/segmenter.py:33-39 | the cut is at a blank line if any blank line has tokens on both sides, else behind a newline, else behind a sentence mark, else behind a clause mark, else at white space; within the level, left sides within the cap nearest the target first, then right sides, then the rest, behind the delimiter before in front of it; none exactly when no level has a place |
| SegmentLaws.SpanCutUnique | src/attnview/segmenter.py:222-259 | these rules leave at most one cut |
| SegmentLaws.PiecesFollowCuts | src/attnview/segmenter.py:208-263 | a span within the cap stays whole, a longer one is the pieces on both sides of its cut, and one without a cut stays whole and is marked |
| Segmenter.SplitSpan | src/attnview/segmenter.py:208-263 | the recursion terminates and appends exactly the specified pieces, for any offsets |
| Segmenter.PiecesPartition | src/attnview/segmenter.py:208-263 | for any offsets: the pieces are contiguous from start to end, and each is within the cap or has no cut with tokens on both sides at any level |
| Segmenter.SplitPiecesHoldTokens | src/attnview/segmenter.py:236-239 | once anything is split every piece holds a token |
| Segmenter.RenderedSound | src/attnview/segmenter.py:195-206 | segments rendered from such pieces join to the text and respect the cap check |
| Segmenter.SegmentContext | src/attnview/segmenter.py:145-185 | never raises, for any offsets; blank text gives the placeholder, other text numbered segments that join to it and pass the cap check |
| SegmentLaws.Segments | src/attnview/segmenter.py:145-191 | the segments' own bounds run from 0 to the end of the text without a gap, each text is what its bounds enclose, indices count from 1; token counts are the plain ones, edges inside a token are reported, and over the cap means uncuttable; every field of the placeholder |
| TagParser.TagParser.ActFocus | src/attnview/parser.py:253-303 | an opening focus tag moves the mode or reports exactly the anomaly the state machine assigns |
| TagParser.TagParser.ActTag | src/attnview/parser.py:210-305 | every well-formed tag, opening or closing, in every mode, acts as the state machine says; `TagLaws` says what that is, tag text by tag text |
| TagParser.TagParser.CloseTag | src/attnview/parser.py:193-313 | a completed buffer is classified by the strict, then the loose pattern, and acts accordingly |
| TagParser.TagParser.FeedOne | src/attnview/parser.py:139-186 | one character changes mode, references, buffer, plain text and anomalies exactly as the state machine does |
| TagParser.TagParser.FeedText | src/attnview/parser.py:93-97 | feeding a piece is feeding its characters; the returned events are those settled |
| TagParser.TagParser.Flush | src/attnview/parser.py:99-120 | an open buffer becomes one anomaly and plain text; the mode is kept |
| TagLaws.CloseFocus | src/attnview/parser.py:243-251 | under any chunking `</focus>` is one transition from focus to global without references, and elsewhere one mismatch anomaly that changes nothing |
| TagLaws.CloseLocal | src/attnview/parser.py:232-241 | `</local>` likewise from local |
| TagLaws.OpenLocal | src/attnview/parser.py:232-241 | `<local>` is one transition to local without references, from every mode |
| TagLaws.OpenGlobal | src/attnview/parser.py:223-230 | `<global>` is a no-op in every mode |
| TagLaws.CloseGlobal | src/attnview/parser.py:223-230 | `</global>` is a no-op in global and a mismatch elsewhere |
| TagLaws.Answer | src/attnview/parser.py:216-221 | the answer tags are markers and change nothing |
| TagLaws.FocusWithoutReferences | src/attnview/parser.py:262-270 | `<focus>` alone is a focus attempt without its attribute |
| TagLaws.UnexpectedAttr | src/attnview/parser.py:216-261 | any attribute on another tag, or another attribute on an opening focus, is an anomaly that changes nothing; only the latter is a focus attempt |
| TagLaws.RepeatedReferences | src/attnview/parser.py:262-278 | two reference lists in one tag are an anomaly |
| TagLaws.MalformedReferences | src/attnview/parser.py:279-287 | a list with anything but digits, commas and blanks in it is malformed |
| TagLaws.ReferencesOutOfRange | src/attnview/parser.py:288-301 | one reference out of range voids the whole declaration; the anomaly names the sorted list |
| TagLaws.SpacedListParses | src/attnview/parser.py:279-288 | blanks around a reference list do not matter |
| TagLaws.MalformedTag | src/attnview/parser.py:193-207 | a known name followed by something that is no attribute is malformed, and an opening focus still counts as an attempt |
| TagLaws.UnknownName | src/attnview/parser.py:305 | any other name is an unknown tag |
| TagLaws.NoName | src/attnview/parser.py:193-208 | a tag whose name does not start with a small letter is unknown and unnamed |
| TagLaws.LoneAngle | src/attnview/parser.py:148-165 | `<` before anything but a slash, a letter or another `<` is plain text, with what follows it |
| TagLaws.TagOpens | src/attnview/parser.py:148-154 | `<` before a slash or a letter opens a tag and settles nothing |
| TagLaws.Overlong | src/attnview/parser.py:167-186 | an unfinished tag one character longer than the buffer allows becomes plain text and one anomaly |
| TagLaws.LeftOpen | src/attnview/parser.py:99-120 | a tag left open at the end becomes plain text and one anomaly at the current token |
| TagLaws.NameOfUnclosed | src/attnview/parser.py:122-137 | an unclosed tag carries the longest name behind its opening if that is a known one, and only an opening focus is an attempt |
| StreamLaws.CharConserved | src/attnview/parser.py:139-186 | one character keeps the buffer bounded and loses no character |
| StreamLaws.FeedConserved | src/attnview/parser.py:93-97 | from any bounded state, what is settled followed by the pending buffer is what was fed |
| StreamLaws.StreamConserved | src/attnview/parser.py:93-120 | plain pieces and closed tags in order, followed by the buffer, are the whole stream; the buffer never exceeds max(2, max_tag_buffer) |
| StreamLaws.StreamIsText | src/attnview/parser.py:93-97 | feeding token by token settles what feeding the whole text at once settles |
| StreamLaws.ChunkIndependence | src/attnview/parser.py:93-97 | two tokenisations of one text give the same mode, references, buffer, plain text and events, token numbers aside |
| StreamLaws.FeedSound | src/attnview/parser.py:315-353 | mode and references are the replay of the transitions alone; focus holds exactly with references, ascending and in range; other events change nothing |
| StreamLaws.StreamSound | src/attnview/parser.py:315-379 | the same over whole streams, every event taking effect one step after its token |
| StreamLaws.StreamCausal | src/attnview/parser.py:93-97 | later tokens change nothing settled before them |
| RoundTrip.DigitsParse | src/attnview/parser.py:288 | a printed number reads back as itself |
| RoundTrip.CommaListParses | src/attnview/parser.py:279-288 | a printed list reads back as its sorted distinct members |
| RoundTrip.InnerParses | src/attnview/parser.py:35-38 | the printed declaration matches the strict pattern with its one attribute |
| RoundTrip.ShortDeclaration | src/attnview/parser.py:253-303 | within the limit: one closed tag, the transition to focus |
| RoundTrip.LongDeclaration | src/attnview/parser.py:170-185 | over the limit: exactly one overflow anomaly, the mode kept |
| RoundTrip.DeclarationRoundTrip | src/attnview/parser.py:253-303 | under any chunking, a printed list of valid references is read back as one transition with the sorted distinct list if and only if the tag fits the buffer; otherwise the only event is one overflow |
| ProtocolState.StepsCausal | src/attnview/state.py:84-106 | two requests fed the same first n tokens hold the same first n records, so a tag closed in token t shows first in the forward after it |
| ProtocolState.RecordReplays | src/attnview/state.py:92-104 | record t's mode and references are the replay of the transitions of tokens 0..t, and its events take effect at step t + 1 |
| ProtocolState.CountFocus | src/attnview/state.py:180-188 | successes are exactly the entries into focus and never exceed the attempts |
| ProtocolState.CountsExact | src/attnview/state.py:174-188 | the counts are the numbers of events that are attempts and of transitions into focus |
| ProtocolState.RequestState.FeedGeneratedToken | src/attnview/state.py:84-106 | a closed state and a gap in the numbering refuse and change nothing; otherwise exactly the next record is appended, with its token, its numbers, and the mode and references in force after it |
| ProtocolState.RequestState.MarkStop | src/attnview/state.py:108-116 | accepted exactly for sampled tokens |
| ProtocolState.RequestState.FocusStats | src/attnview/state.py:174-188 | the counts over all step and flush events |
| ProtocolState.RequestState.Finish | src/attnview/state.py:118-126 | the first call turns an open tag into its anomaly and freezes the state; a repeated call forgets it |
| FinishTwice.FinishAndCount | src/attnview/state.py:118-188 | finishing forgets events if and only if the state was closed and its flush events were not empty; attempts drop if and only if one of those was a focus attempt |
| FinishTwice.UnclosedFocusForgotten | src/attnview/state.py:118-188 | a request whose only token opens a focus call: one attempt after finish, none after another finish |
| Trace.BuildRow | src/attnview/trace.py:112-142 | a row carries its record's fields and token, and a view or none exactly as the builder gives one; `TraceLaws.TraceRows` says which question that view answers |
| Trace.BuildStepTrace | src/attnview/trace.py:64-146 | fails exactly when some view cannot be built; else an optional prefill row and one row per forwarded token |
| TraceLaws.TraceRows | src/attnview/trace.py:64-146 | every row's view has the row's mode, references, step and KV length, lists the blocks and positions visible for exactly that question, and a decode row reads the position it writes; the rows' fields in terms of their records; failure exactly when the prefill's or some record's question has no view |
| Trace.LastStepUnique | src/attnview/trace.py:143-146 | filtering by the last step number drops exactly the last row |
| Trace.IndependenceSummary | src/attnview/trace.py:149-174 | counts the read-list changes; reports monotonic writes if and only if every row after the first written one writes one past its predecessor; the other fields are those of the first and last decode row |
| Trace.TraceWritesSequential | src/attnview/trace.py:112-142 | every trace writes prompt_len + i at step i + 1, whatever the modes did |
| Trace.TraceSummary | src/attnview/trace.py:163-174 | a trace's summary: one generation step per forwarded token, first write at prompt_len, last write and lengths from the number of steps alone |
| PatchSteps.UndoesOnlyAfterFailure | tools/p2-apply-patch.py:391-403 | apply undoes nothing, wherever it ends, unless a step of its write phase fails |
| PatchSteps.OnlyDyingNeverFails | tools/p2-apply-patch.py:372-406 | a schedule that only ends the process never leads into rollback |
| PatchRecovery.ApplyMarks | tools/p2-apply-patch.py:374-403 | wherever apply ends: pending untouched and written post unless a step of the write phase failed; with untorn copies, every written target is post if and only if the run, decided by disk and schedule beforehand, undoes no written target that it had changed |
| PatchModel.RestoredVerifiedExact | tools/p2-apply-patch.py:593-600 | restored targets pass the final check if and only if their pre and post contents differ |
| PatchModel.UndoneRecoverable | tools/p2-apply-patch.py:249-279 | undoing any part of what the transaction touched keeps the disk recoverable |
| PatchModel.AllRestoredOriginal | tools/p2-apply-patch.py:409-434 | once every touched target is restored the whole tree is the original one |
| PatchModel.OriginalRecoverable | tools/p2-apply-patch.py:606-607 | an original tree stays recoverable whatever happens to its backups |
| PatchTool.Machine.SaveJournal | tools/p2-apply-patch.py:182-186 | all or nothing |
| PatchTool.Machine.ReplaceCopy | tools/p2-apply-patch.py:194-210 | the target changes only when the step succeeds, and nothing else changes |
| PatchTool.Machine.UndoRecord | tools/p2-apply-patch.py:249-279 | success means restored to verified pre content or gone; no other path moves, and the target only with an undo write |
| PatchTool.Machine.UndoAll | tools/p2-apply-patch.py:562-565 | only listed targets move; success means all are restored |
| PatchTool.Machine.Rollback | tools/p2-apply-patch.py:409-434 | from any recoverable disk the outcome is the original tree with the journal gone, or a disk revert can still recover, wherever it dies |
| PatchTool.Machine.Preflight | tools/p2-apply-patch.py:293-329 | passes exactly when every target is ready; `PatchLaws.Applies` says on the maps when that is |
| PatchTool.Machine.Prepare | tools/p2-apply-patch.py:331-370 | a journal exists only with every backup verified and every record pending |
| PatchTool.Machine.Place | tools/p2-apply-patch.py:381-388 | only the target moves; untorn, it ends at its old content or at post |
| PatchTool.Machine.DeployOne | tools/p2-apply-patch.py:376-390 | pending, writing, atomic placement, written: the disk is recoverable after every step and the marks stay in step with the targets |
| PatchTool.Machine.DeployAll | tools/p2-apply-patch.py:372-406 | all targets placed and marked deployed, or rolled back or recoverable; nothing undone unless a step of the phase fails; every mark tells its target's content up to what was undone |
| PatchTool.Machine.DoApply | tools/p2-apply-patch.py:287-406 | 0: every target post and the journal deployed; 4: no target changed; 5 or a crash anywhere: original tree or recoverable disk, pending untouched, written post until undone; nothing undone before a step of the write phase fails, and the undone set is the one disk and schedule decide; without faults the exit is decided by the preflight |
| PatchLaws.Applies | tools/p2-apply-patch.py:287-406 | with no journal: 4 and nothing changed, under any schedule, when a source is missing or altered, a file to replace is missing or not as expected, or a file to add exists; otherwise 0 without faults; 0 means every target holds its new content, no other path moved, the journal lists the targets as written and the old contents are in the backups |
| PatchTool.Machine.PlanRevert | tools/p2-apply-patch.py:508-563 | exactly the records to undo, and refusal exactly for a bad backup or an unforced changed deployment |
| PatchTool.Machine.CheckUndone | tools/p2-apply-patch.py:593-600 | the final check passes exactly when every undone target is at pre or gone |
| PatchTool.Machine.DoRevert | tools/p2-apply-patch.py:499-621 | from any disk: a refusal changes nothing; otherwise only planned targets move, 0 means all are restored and verified, and backups and journal go no earlier; every step is the one the schedule prescribes |
| PatchLaws.Reverts | tools/p2-apply-patch.py:499-621 | on the maps: which records are to be undone, when that is refused, and that without faults exactly those targets are back at their old content or gone, with journal and backups gone unless some replaced file had not changed |
| PatchTool.Machine.DoVerify | tools/p2-apply-patch.py:465-491 | 6 exactly when some target differs without an unfinished transaction explaining it |
| PatchLaws.Verifies | tools/p2-apply-patch.py:465-491 | 6 exactly when a deployed target does not hold its new content, or a touched one of an unfinished deployment holds neither that nor its original state |
| PatchLaws.NewFileComesAndGoes | tools/p2-apply-patch.py:287-621 | a whole run: one new file deployed into an empty tree, verified, and taken back |
| PatchRecovery.RecoverableAccepted | tools/p2-apply-patch.py:541-559 | a revert refuses a recoverable disk only when its tree is original already and some record changes nothing |
| PatchRecovery.UndoListCovers | tools/p2-apply-patch.py:233-246 | the recovery plan reaches every target that differs from the original tree |
| PatchRecovery.RevertKeepsRecoverable | tools/p2-apply-patch.py:541-607 | however an accepted revert of an unfinished transaction ends, the tree is original and the journal gone, or the disk is still recoverable |
| PatchRecovery.VerifySeesPreserved | tools/p2-apply-patch.py:473-485 | on an unfinished transaction verify reports exactly the touched targets a plain revert preserves |
| PatchRecovery.StrictVerifies | tools/p2-apply-patch.py:465-491 | verify accepts every disk an interrupted apply leaves when no copy tears |
| PatchRecovery.PlainRevertExact | tools/p2-apply-patch.py:233-246 | a completed plain revert has the original tree back if and only if verify reported nothing before it |
| PatchFindings.TornCopyLosesOriginal | tools/p2-apply-patch.py:262-269 | a run of apply and two reverts, the first torn in its copy back, that ends in success with the original content gone |
| PatchFindings.RollbackCrashUnwritesWritten | tools/p2-apply-patch.py:409-434 | a run of apply that dies in rollback with a written record over original content |
| PatchRecovery.RevertRespectsOutsiders | tools/p2-apply-patch.py:233-246 | after arbitrary outside edits: pending targets never change, a plain revert changes only targets holding post, changed ones hold verified pre content or are gone |
| PatchRecovery.DeployedIsRecorded | tools/p2-apply-patch.py:396-406 | verify accepts a fresh deployment, and every backup is there to undo it |
| PatchRecovery.DeployedRefusal | tools/p2-apply-patch.py:512-537 | a deployment is refused exactly for a bad backup or, unforced, for what verify reports |
| PatchRecovery.DeployedRevertStep | tools/p2-apply-patch.py:561-607 | however a revert of a deployment ends, the tree is original or every backup is still there |
| PatchRecovery.LeftoverIsStuck | tools/p2-apply-patch.py:606-607 | journal kept with any part of the backups: forced reverts are refused if and only if a modified file's backup is gone, plain ones if and only if that or some target had changed |
| PatchRecovery.CleanUpMeansOriginal | tools/p2-apply-patch.py:602-607 | a revert of a deployment removes backups only over the original tree |
| PatchFindings.JournalLeftBehind | tools/p2-apply-patch.py:173-179 | a deployment, a successful revert whose journal could not be unlinked, and refusals of both kinds |
| PatchRecovery.RevertCloses | tools/p2-apply-patch.py:593-607 | an undisturbed revert clears the journal if and only if it is not refused and every record it undoes changes its target |
| PatchFindings.EqualContentsNeverClose | tools/p2-apply-patch.py:593-605 | a deployment of content already in place is applied and then never reverted to an end |
| PatchRecovery.RevertRepeatedly | tools/p2-apply-patch.py:499-621 | any number of interrupted reverts and one undisturbed one restore the original tree, and close the transaction when every record changes its target |
| PatchRecovery.ApplyThenRecover | tools/p2-apply-patch.py:287-621 | an apply that fails or dies anywhere, interrupted reverts, one undisturbed revert: the original tree, and the journal gone when the targets change |
| PatchRecovery.UndeployOnce | tools/p2-apply-patch.py:499-621 | one revert of a deployment stays reversible; undisturbed and allowed it closes the deployment |
| PatchRecovery.ApplyRevert | tools/p2-apply-patch.py:287-621 | apply and revert without faults leave no trace, or, if some target does not change, the same files and a journal |
| PatchRecovery.DeployThenForce | tools/p2-apply-patch.py:499-607 | a deployment and forced reverts interrupted anywhere, with any damage, end in the original tree |

## Left out

Across the model: exceptions are classes, without their texts; integers are unbounded, as in Python.

- Kernels, tensors, attention arithmetic, captures, metadata hooks and forward wrapping: they depend on libraries whose code is not in the repository. Only index arithmetic is kept (`ReferenceDense.GatherIndex` keeps the index part of `gather_positions`).
- `DaRequestConfig.from_extra_args`, `check_supported_config`, `should_apply_view`, `StepPlan.as_payload`: payload shapes and switches, not state. The layout of `DaRequestConfig` is `TokenLayout`.
- A view whose visible block numbers run below minus the map length raises IndexError in the source; `GpuKv.ReadTableFromReadView` reports it as the module's own error class. No built view has negative blocks.
- A nonpositive block size in `canonical_slot` and `next_write_slot` divides by zero in the source; the model asks for a positive one.
- `KvRun` hands out physical blocks from a given pool of distinct blocks; how the runtime allocates them is outside the repository.
- Offsets.RangeWidthIsCount: asks for token starts in order at the range's end, which tokenizers deliver; `Offsets.OverlapInterval` and `Offsets.OverlapCountExact` say what holds without it.
- SegmentLaws.Segments: asks for tokens in order of their starts and ends, which tokenizers deliver; `Segmenter.SegmentContext` asks for nothing.
- `OffsetsIndex.straddling`: not needed for the partition or the cap.
- The patterns of the scanner are hand-written matchers. Digits are ASCII and numbers unbounded: the source's `\d` also matches other decimal digits, and a very long digit string can exceed the interpreter's conversion limit.
- Event detail texts, the token index at which a buffer was opened (used only in such a text), `as_dict` renderings, `ProtocolRegistry`, `view_for_next_step`, request ids and arms.
- `prompt.py` rendering, templates and decoding, `extract.py`, desensitising, evidence registries, reports, thresholds, watchdogs and command lines.
- The patch tool's directories, byte-code cleaning, temporary files, timestamps and printed lines; a target that exists but is not a regular file; outside edits while apply itself runs; changes to deployment sources during a run.
- Reads of the patch tool outside any exception handler (hashing a target, loading the journal): one that fails ends the process, which is the crash the schedules already put between any two steps.
- PatchTool.Machine.SaveJournal: the temporary file and its replacement are one step, because only the replacement can be seen under the journal's name.
- PatchTool.Machine.ReplaceCopy: likewise one step for the target's name.
- PatchTool.Machine.DoApply: no target is listed twice, as in a manifest that names each file once.
- PatchLaws.Applies: likewise, and a target has an expected old content exactly when it replaces a file.
- PatchTool.Machine.DoRevert: the journal's targets are distinct, as those of every journal written for distinct targets are.
