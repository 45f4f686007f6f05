/** Concrete runs of the deployment tool on one modified target that end where they should not. */
module PatchFindings {
  import opened Basics
  import opened PatchModel
  import opened PatchSteps
  import opened PatchTool
  import opened PatchRecovery

  const SOURCES: Files := map["s" := "new"]
  const OLD: Files := map["a" := "old"]
  const NEW: Files := map["a" := "new"]
  const TARGETS: seq<Target> := [Target("a", "s", Modified, Some("old"), "new")]

  /** The target's record with a progress mark. */
  function Rec(mark: Progress): Record {
    Record("a", Modified, Some("old"), "new", true, mark)
  }

  function JournalWith(phase: Phase, mark: Progress): Option<Journal> {
    Some(Journal(phase, [Rec(mark)]))
  }

  /** n fine steps, then the rest. */
  function After(n: nat, rest: seq<Outcome>): seq<Outcome> {
    if n == 0 then rest else [Fine] + After(n - 1, rest)
  }

  lemma FineStep(d: Disk, n: nat, rest: seq<Outcome>)
    requires n > 0
    ensures After(n, rest) == [Fine] + After(n - 1, rest)
    ensures Fresh(d, After(n, rest)).Next() == Fine
    ensures Fresh(d, After(n, rest)).Spent() == Fresh(d, After(n - 1, rest))
  {
  }

  lemma {:induction false} AfterSplit(n: nat, m: nat, rest: seq<Outcome>)
    ensures After(n + m, rest) == After(n, After(m, rest))
  {
    if n > 0 { AfterSplit(n - 1, m, rest); }
  }

  /** A run that has undone nothing so far. */
  function Fresh(d: Disk, faults: seq<Outcome>): World {
    World(d, faults, {})
  }

  /** A run that has written to the target while undoing it. */
  function Back(d: Disk, faults: seq<Outcome>): World {
    World(d, faults, {"a"})
  }

  lemma OnlyTarget(undone: set<string>)
    requires undone == {}
    ensures undone + {"a"} == {"a"}
  {
  }

  /** Where every run starts. */
  function Start(faults: seq<Outcome>): World {
    Fresh(Disk(OLD, map[], None), faults)
  }

  lemma PreparedRun(n: nat, rest: seq<Outcome>)
    requires n >= 4
    ensures PrepareRun(Start(After(n, rest)), [Rec(Pending)], 0)
         == (Fresh(Disk(OLD, OLD, JournalWith(Unfinished, Pending)), After(n - 4, rest)), None)
  {
    var backedUp := Disk(OLD, OLD, None);
    FineStep(Disk(OLD, map[], None), n, rest);
    FineStep(Disk(OLD, map[], None), n - 1, rest);
    FineStep(backedUp, n - 2, rest);
    FineStep(backedUp, n - 3, rest);
    assert map["a" := OLD["a"]] == OLD;
    assert BackUpRun(Start(After(n, rest)), Rec(Pending)) == (Fresh(backedUp, After(n - 3, rest)), Done, true);
  }

  /** The run reaches the placement of the target. */
  lemma StartedRun(n: nat, rest: seq<Outcome>)
    requires n >= 4
    ensures ApplyRun(Start(After(n, rest)), SOURCES, TARGETS)
         == DeployRun(Fresh(Disk(OLD, OLD, JournalWith(Unfinished, Pending)), After(n - 4, rest)), SOURCES,
                      [Rec(Pending)], [Rec(Pending)], TARGETS, 0)
  {
    PreparedRun(n, rest);
    assert RecordsOf(TARGETS) == [Rec(Pending)];
    assert Ready(OLD, SOURCES, TARGETS[0]);
  }

  /** Marked writing, placed, and then the schedule's next step is the check. */
  lemma PlacedRun(rest: seq<Outcome>)
    ensures var w := Fresh(Disk(NEW, OLD, JournalWith(Unfinished, Writing)), rest);
      PlaceRun(Fresh(Disk(OLD, OLD, JournalWith(Unfinished, Writing)), After(2, rest)), SOURCES, Rec(Pending), "s")
      == (w.Spent(), StatusOf(w.Next()))
  {
    var d := Disk(OLD, OLD, JournalWith(Unfinished, Writing));
    FineStep(d, 2, rest);
    FineStep(d, 1, rest);
    assert OLD["a" := SOURCES["s"]] == NEW;
  }

  lemma WritingRun(n: nat, rest: seq<Outcome>)
    requires n >= 1
    ensures SaveRun(Fresh(Disk(OLD, OLD, JournalWith(Unfinished, Pending)), After(n, rest)),
                    Journal(Unfinished, Marked([Rec(Pending)], 0, Writing)))
         == (Fresh(Disk(OLD, OLD, JournalWith(Unfinished, Writing)), After(n - 1, rest)), Done)
  {
    FineStep(Disk(OLD, OLD, JournalWith(Unfinished, Pending)), n, rest);
    assert Marked([Rec(Pending)], 0, Writing) == [Rec(Writing)];
  }

  // ---------------------------------------------------------------------------
  // A torn copy back
  // ---------------------------------------------------------------------------

  /** The process dies after the placement, before the check. */
  lemma DiesAfterPlacing()
    ensures ApplyRun(Start(After(7, [Bad(true, None, {})])), SOURCES, TARGETS)
         == (Fresh(Disk(NEW, OLD, JournalWith(Unfinished, Writing)), []), Crashed)
  {
    StartedRun(7, [Bad(true, None, {})]);
    DiesAtCheck();
    DeployDies(Fresh(Disk(OLD, OLD, JournalWith(Unfinished, Pending)), After(3, [Bad(true, None, {})])),
               Fresh(Disk(NEW, OLD, JournalWith(Unfinished, Writing)), []));
    hide ApplyRun, DeployRun, DeployOneRun, After;
  }

  lemma DeployDies(w: World, next: World)
    requires DeployOneRun(w, SOURCES, [Rec(Pending)], [Rec(Pending)], 0, "s") == (next, Died, true)
    ensures DeployRun(w, SOURCES, [Rec(Pending)], [Rec(Pending)], TARGETS, 0) == (next, Crashed)
  {
    hide DeployOneRun;
  }

  lemma DiesAtCheck()
    ensures DeployOneRun(Fresh(Disk(OLD, OLD, JournalWith(Unfinished, Pending)), After(3, [Bad(true, None, {})])),
                         SOURCES, [Rec(Pending)], [Rec(Pending)], 0, "s")
         == (Fresh(Disk(NEW, OLD, JournalWith(Unfinished, Writing)), []), Died, true)
  {
    var rest := [Bad(true, None, {})];
    WritingRun(3, rest);
    PlacedRun(rest);
    hide PlaceRun, SaveRun, After;
    assert rest[1..] == [];
  }

  lemma UndoesTheTarget(d: Disk, force: bool)
    requires d.journal == JournalWith(Unfinished, Writing) && d.files == NEW && d.backups == OLD
    ensures UndoList(d, force) == [Rec(Writing)] && !Refused(d, force)
  {
    var rs := d.journal.value.records;
    assert Chosen(d, rs[0], force) && BackupGood(d.backups, rs[0]);
    assert rs[..0] == [] && ToUndo(d, rs[..0], force) == [];
    assert !BackupBlocks(d, 0, force);
  }

  /** The revert dies in the middle of the copy back. */
  lemma CopyBackTorn()
    ensures RevertRun(Fresh(Disk(NEW, OLD, JournalWith(Unfinished, Writing)), [Fine, Bad(true, Some("ol"), {})]), false)
         == (Back(Disk(map["a" := "ol"], OLD, JournalWith(Unfinished, Writing)), []), Crashed)
  {
    var d := Disk(NEW, OLD, JournalWith(Unfinished, Writing));
    var w := Fresh(d, [Fine, Bad(true, Some("ol"), {})]);
    UndoesTheTarget(d, false);
    assert w.Spent() == Fresh(d, [Bad(true, Some("ol"), {})]);
    assert NEW["a" := "ol"] == map["a" := "ol"];
    OnlyTarget(w.undone);
    assert UndoRun(w, Rec(Writing)) == (Back(Disk(map["a" := "ol"], OLD, d.journal), []), Died);
  }

  /** The rerun takes the torn target for somebody else's and closes the transaction. */
  lemma TornIsPreserved()
    ensures RevertRun(Fresh(Disk(map["a" := "ol"], OLD, JournalWith(Unfinished, Writing)), []), false)
         == (Fresh(Disk(map["a" := "ol"], map[], None), []), Code(0))
  {
    var d := Disk(map["a" := "ol"], OLD, JournalWith(Unfinished, Writing));
    var rs := d.journal.value.records;
    assert !Chosen(d, rs[0], false) && !BackupBlocks(d, 0, false);
    assert rs[..0] == [] && ToUndo(d, rs[..0], false) == [];
    assert UndoList(d, false) == [];
  }

  /** A run does not depend on what earlier ones have undone. */
  lemma Restarts(w: World, force: bool)
    ensures RevertRun(w, force) == RevertRun(w.Started(), force)
  {
  }

  /** Apply dies after placing its target, the revert dies half way through the copy back, and the
      next plain revert reports success with the original content nowhere on the disk. */
  method TornCopyLosesOriginal() returns (m: Machine, applied: Exit, torn: Exit, again: Exit)
    ensures applied == Crashed && torn == Crashed && again == Code(0)
    ensures m.Snapshot() == Disk(map["a" := "ol"], map[], None)
  {
    hide ApplyRun, RevertRun, After, Recoverable, DeployedTree, Classified, Refused, Reverted, Verified, AllRestored;
    m := new Machine(SOURCES, OLD, map[], None, After(7, [Bad(true, None, {})]));
    DiesAfterPlacing();
    applied := m.DoApply(TARGETS);
    m.faults := [Fine, Bad(true, Some("ol"), {})];
    CopyBackTorn();
    torn := m.DoRevert(false);
    TornIsPreserved();
    Restarts(m.State(), false);
    again := m.DoRevert(false);
  }

  // ---------------------------------------------------------------------------
  // A crash during rollback
  // ---------------------------------------------------------------------------

  /** All goes well up to the final mark, which cannot be saved; the rollback undoes the target and
      then the process dies. */
  const ROLLBACK_CRASH: seq<Outcome> := [Bad(false, None, {}), Fine, Fine, Bad(true, None, {"a"})]

  lemma WrittenRun(rest: seq<Outcome>)
    ensures DeployOneRun(Fresh(Disk(OLD, OLD, JournalWith(Unfinished, Pending)), After(5, rest)), SOURCES,
                         [Rec(Pending)], [Rec(Pending)], 0, "s")
         == (Fresh(Disk(NEW, OLD, JournalWith(Unfinished, Written)), rest), Done, true)
  {
    WritingRun(5, rest);
    PlacedRun(After(2, rest));
    var d := Disk(NEW, OLD, JournalWith(Unfinished, Writing));
    FineStep(d, 2, rest);
    FineStep(d, 1, rest);
    AfterSplit(2, 2, rest);
    assert Marked(Marked([Rec(Pending)], 0, Writing), 0, Written) == [Rec(Written)];
  }

  lemma RollsBackAndDies()
    ensures AbortRun(Fresh(Disk(NEW, OLD, JournalWith(Unfinished, Written)), ROLLBACK_CRASH[1..]), [Rec(Pending)], 1)
         == (Back(Disk(OLD, OLD, JournalWith(Unfinished, Written)), []), Crashed)
  {
    var j := JournalWith(Unfinished, Written);
    var w := Fresh(Disk(NEW, OLD, j), ROLLBACK_CRASH[1..]);
    assert w.faults == [Fine, Fine, Bad(true, None, {"a"})];
    assert w.Spent() == Fresh(Disk(NEW, OLD, j), [Fine, Bad(true, None, {"a"})]);
    assert NEW["a" := OLD["a"]] == OLD && Kept(OLD, {"a"}) == OLD;
    assert [Rec(Pending)][..1] == [Rec(Pending)];
    var undone := Back(Disk(OLD, OLD, j), [Bad(true, None, {"a"})]);
    OnlyTarget(w.undone);
    assert StateOf(NEW, Rec(Pending)) == IsPost;
    assert UndoRun(w, Rec(Pending)) == (undone, Done);
    assert undone.Spent() == Back(Disk(OLD, OLD, j), []);
    assert CleanUpRun(undone) == (Back(Disk(OLD, OLD, j), []), true);
    AbortOfOne(w, Rec(Pending), undone, Back(Disk(OLD, OLD, j), []));
  }

  /** A rollback of one placed target that is undone, and then dies cleaning up. */
  lemma AbortOfOne(w: World, r: Record, undone: World, left: World)
    requires StateOf(w.disk.files, r) != IsPre && UndoRun(w, r) == (undone, Done)
    requires CleanUpRun(undone) == (left, true)
    ensures AbortRun(w, [r], 1) == (left, Crashed)
  {
    hide UndoRun, CleanUpRun, StateOf;
    assert [r][..1] == [r];
    assert UndoAllRun(undone, [r], 1, true, false) == (undone, Done);
  }

  lemma DiesInRollback()
    ensures ApplyRun(Start(After(9, ROLLBACK_CRASH)), SOURCES, TARGETS)
         == (Back(Disk(OLD, OLD, JournalWith(Unfinished, Written)), []), Crashed)
  {
    StartedRun(9, ROLLBACK_CRASH);
    DeploysThenAborts(ROLLBACK_CRASH);
    RollsBackAndDies();
    hide *;
  }

  lemma DeploysThenAborts(rest: seq<Outcome>)
    requires rest != [] && rest[0] == Bad(false, None, {})
    ensures DeployRun(Fresh(Disk(OLD, OLD, JournalWith(Unfinished, Pending)), After(5, rest)), SOURCES,
                      [Rec(Pending)], [Rec(Pending)], TARGETS, 0)
         == AbortRun(Fresh(Disk(NEW, OLD, JournalWith(Unfinished, Written)), rest[1..]), [Rec(Pending)], 1)
  {
    WrittenRun(rest);
    hide *;
    var d := Disk(NEW, OLD, JournalWith(Unfinished, Written));
    DeployStep(Fresh(Disk(OLD, OLD, JournalWith(Unfinished, Pending)), After(5, rest)), Fresh(d, rest));
    FinishFails(d, rest);
  }

  lemma FinishFails(d: Disk, faults: seq<Outcome>)
    requires faults != [] && faults[0] == Bad(false, None, {})
    ensures FinishRun(Fresh(d, faults), [Rec(Pending)], [Rec(Written)])
         == AbortRun(Fresh(d, faults[1..]), [Rec(Pending)], 1)
  {
    hide AbortRun;
  }

  /** Once its only target is written, the write phase goes on to the final mark. */
  lemma DeployStep(w: World, next: World)
    requires DeployOneRun(w, SOURCES, [Rec(Pending)], [Rec(Pending)], 0, "s") == (next, Done, true)
    ensures DeployRun(w, SOURCES, [Rec(Pending)], [Rec(Pending)], TARGETS, 0)
         == FinishRun(next, [Rec(Pending)], [Rec(Written)])
  {
    hide DeployOneRun, FinishRun;
    assert Marked(Marked([Rec(Pending)], 0, Writing), 0, Written) == [Rec(Written)];
    assert DeployRun(next, SOURCES, [Rec(Pending)], [Rec(Written)], TARGETS, 1)
        == FinishRun(next, [Rec(Pending)], [Rec(Written)]);
  }

  /** The journal says written while the target holds its original content: only because this run
      had undone it. */
  method RollbackCrashUnwritesWritten() returns (m: Machine, e: Exit)
    ensures e == Crashed && m.Snapshot() == Disk(OLD, OLD, JournalWith(Unfinished, Written))
    ensures !AtPost(m.files, Rec(Written)) && "a" in m.undone
  {
    hide ApplyRun, After, Recoverable, DeployedTree;
    m := new Machine(SOURCES, OLD, map[], None, After(9, ROLLBACK_CRASH));
    DiesInRollback();
    e := m.DoApply(TARGETS);
    assert MarkTold(OLD, m.files, m.journal.value.records[0], m.undone, Clean(After(9, ROLLBACK_CRASH)));
  }

  // ---------------------------------------------------------------------------
  // A journal that cannot be closed
  // ---------------------------------------------------------------------------

  lemma Deploys()
    ensures ApplyRun(Start([]), SOURCES, TARGETS)
         == (Fresh(Disk(NEW, OLD, JournalWith(Deployed, Written)), []), Code(0))
  {
    assert Start([]) == Start(After(0, [])) && Ready(OLD, SOURCES, TARGETS[0]);
    var base := [Rec(Pending)];
    assert RecordsOf(TARGETS) == base;
    assert map["a" := OLD["a"]] == OLD && OLD["a" := SOURCES["s"]] == NEW;
    var prepared := Fresh(Disk(OLD, OLD, JournalWith(Unfinished, Pending)), []);
    assert BackUpRun(Start([]), base[0]) == (Fresh(Disk(OLD, OLD, None), []), Done, true);
    assert PrepareRun(Start([]), base, 0) == (prepared, None);
    assert Marked(base, 0, Writing) == [Rec(Writing)];
    assert Marked([Rec(Writing)], 0, Written) == [Rec(Written)];
    DeployStep(prepared, Fresh(Disk(NEW, OLD, JournalWith(Unfinished, Written)), []));
  }

  /** The journal's unlink fails after the backups are gone; the revert still reports success. */
  lemma UnlinkFails()
    ensures RevertRun(Fresh(Disk(NEW, OLD, JournalWith(Deployed, Written)), After(3, [Bad(false, None, {})])), false)
         == (Back(Disk(OLD, map[], JournalWith(Deployed, Written)), []), Code(0))
  {
    var j, rest := JournalWith(Deployed, Written), [Bad(false, None, {})];
    DeploymentAccepted();
    UndoneInTwoSteps(j, rest);
    JournalStays(j);
    assert Verified(OLD, [Rec(Written)]);
    hide *;
    RevertOfOne(Fresh(Disk(NEW, OLD, j), After(3, rest)), Rec(Written), Back(Disk(OLD, OLD, j), After(1, rest)),
                Back(Disk(OLD, map[], j), []));
  }

  lemma DeploymentAccepted()
    ensures var w := Fresh(Disk(NEW, OLD, JournalWith(Deployed, Written)), After(3, [Bad(false, None, {})]));
      && w.undone == {} && w.disk.journal.Some?
      && !Refused(w.disk, false) && UndoList(w.disk, false) == [Rec(Written)]
    ensures Back(Disk(OLD, OLD, JournalWith(Deployed, Written)), After(1, [Bad(false, None, {})])).disk.files == OLD
  {
    var d := Disk(NEW, OLD, JournalWith(Deployed, Written));
    EverythingChosen(d, [Rec(Written)], false);
    DeployedRefusal(d, false);
    assert d.journal.value.records == [Rec(Written)];
    assert !DiffersAt(d, 0) && BackupGood(d.backups, Rec(Written));
  }

  lemma UndoneInTwoSteps(j: Option<Journal>, rest: seq<Outcome>)
    ensures UndoRun(Fresh(Disk(NEW, OLD, j), After(3, rest)), Rec(Written))
         == (Back(Disk(OLD, OLD, j), After(1, rest)), Done)
  {
    FineStep(Disk(NEW, OLD, j), 3, rest);
    FineStep(Disk(NEW, OLD, j), 2, rest);
    assert NEW["a" := OLD["a"]] == OLD;
    OnlyTarget(Fresh(Disk(NEW, OLD, j), After(3, rest)).undone);
  }

  lemma JournalStays(j: Option<Journal>)
    ensures CleanUpRun(Back(Disk(OLD, OLD, j), After(1, [Bad(false, None, {})])))
         == (Back(Disk(OLD, map[], j), []), false)
  {
    var rest := [Bad(false, None, {})];
    FineStep(Disk(OLD, OLD, j), 1, rest);
    assert Back(Disk(OLD, OLD, j), After(1, rest)).Spent() == Back(Disk(OLD, OLD, j), rest);
    assert rest[1..] == [];
  }

  /** A revert of one record that is undone, verified and cleaned up. */
  lemma RevertOfOne(w: World, r: Record, undone: World, cleaned: World)
    requires w.undone == {} && w.disk.journal.Some?
    requires !Refused(w.disk, false) && UndoList(w.disk, false) == [r]
    requires UndoRun(w, r) == (undone, Done) && Verified(undone.disk.files, [r])
    requires CleanUpRun(undone) == (cleaned, false)
    ensures RevertRun(w, false) == (cleaned, Code(0))
  {
    hide UndoRun, CleanUpRun, Refused, UndoList, Verified;
    assert UndoAllRun(undone, [r], 1, false, false) == (undone, Done);
  }

  /** A deployment, a successful revert whose journal could not be unlinked, and two refusals. */
  method JournalLeftBehind() returns (m: Machine, first: Exit, plain: Exit, forced: Exit)
    ensures first == Code(0) && plain == Code(7) && forced == Code(7)
    ensures m.Snapshot() == Disk(OLD, map[], JournalWith(Deployed, Written))
  {
    hide ApplyRun, RevertRun, After, Recoverable, DeployedTree, Classified, Reverted, Verified, AllRestored;
    m := new Machine(SOURCES, OLD, map[], None, []);
    Deploys();
    var applied := m.DoApply(TARGETS);
    m.faults := After(3, [Bad(false, None, {})]);
    UnlinkFails();
    first := m.DoRevert(false);
    DeployedRefusal(m.Snapshot(), false);
    DeployedRefusal(m.Snapshot(), true);
    assert !BackupGood(m.backups, m.journal.value.records[0]);
    plain := m.DoRevert(false);
    forced := m.DoRevert(true);
  }

  /** Deploying content that is already there: applied, and never reverted to an end. */
  method EqualContentsNeverClose() returns (m: Machine, reverted: Exit, again: Exit)
    ensures reverted == Code(7) && again == Code(7) && m.journal.Some? && m.files == map["a" := "x"]
  {
    var targets := [Target("a", "s", Modified, Some("x"), "x")];
    m := new Machine(map["s" := "x"], map["a" := "x"], map[], None, []);
    assert Ready(m.files, m.sources, targets[0]);
    assert !Changes(RecordsOf(targets)[0]);
    reverted := ApplyRevert(m, targets, false);
    m.faults := [];
    again := UndeployOnce(m, true, map["a" := "x"]);
  }
}
