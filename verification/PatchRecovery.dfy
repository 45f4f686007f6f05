/** What apply, crash, outside edits, revert and verify add up to over whole histories. */
module PatchRecovery {
  import opened Basics
  import opened PatchModel
  import opened PatchSteps
  import opened PatchTool

  // ---------------------------------------------------------------------------
  // Reverting an unfinished transaction
  // ---------------------------------------------------------------------------

  lemma RecordAt(d: Disk, i: int, force: bool)
    requires d.journal.Some? && 0 <= i < |d.journal.value.records|
    requires Chosen(d, d.journal.value.records[i], force)
    ensures IsDest(UndoList(d, force), d.journal.value.records[i].dest)
  {
    var r := d.journal.value.records[i];
    assert r in UndoList(d, force);
    var k :| 0 <= k < |UndoList(d, force)| && UndoList(d, force)[k] == r;
  }

  /** A target already at its original content is undone only when deploying it changes nothing. */
  lemma OriginalNotChosen(f0: Files, d: Disk, r: Record, force: bool)
    requires d.journal.Some? && d.journal.value.phase.Unfinished?
    requires Describes(f0, r) && SameAt(d.files, f0, r.dest) && Changes(r)
    ensures !Chosen(d, r, force) && RecoveryAction(r, StateOf(d.files, r), force) == Skip
  {
  }

  /** A revert refuses a recoverable disk only when its tree is the original one already, and never
      when every record changes its target. */
  lemma RecoverableAccepted(f0: Files, d: Disk, strict: bool, force: bool)
    requires Recoverable(f0, d, strict)
    ensures Refused(d, force) ==> d.files == f0 && !AllChange(d.journal.value.records)
  {
    var rs := d.journal.value.records;
    if i :| 0 <= i < |rs| && BackupBlocks(d, i, force) {
      assert Describes(f0, rs[i]) && Accounted(f0, d, rs[i], strict);
      if Changes(rs[i]) { OriginalNotChosen(f0, d, rs[i], force); }
    }
  }

  /** An accepted revert has every backup it may need. */
  lemma AcceptedBacked(f0: Files, d: Disk, strict: bool, force: bool)
    requires Recoverable(f0, d, strict) && !Refused(d, force)
    ensures SteadyBacked(d.backups, d.journal.value.records)
  {
    var rs := d.journal.value.records;
    forall i | 0 <= i < |rs| && !rs[i].state.Pending? && !Changes(rs[i]) ensures BackupGood(d.backups, rs[i]) {
      assert Describes(f0, rs[i]) && Accounted(f0, d, rs[i], strict) && !BackupBlocks(d, i, force);
    }
  }

  lemma UndoListTouched(d: Disk, force: bool)
    requires d.journal.Some? && d.journal.value.phase.Unfinished? && !Refused(d, force)
    ensures var acted := UndoList(d, force);
      forall k :: 0 <= k < |acted| ==> Touched(d.journal.value.records, acted[k]) && BackupGood(d.backups, acted[k])
  {
    var acted, rs := UndoList(d, force), d.journal.value.records;
    ChosenBackups(d, force);
    forall k | 0 <= k < |acted| ensures Touched(rs, acted[k]) {
      assert acted[k] in acted;
      var j :| 0 <= j < |rs| && rs[j] == acted[k];
      assert acted[k].(state := rs[j].state) == rs[j];
    }
  }

  /** The plan reaches every target that differs from the original tree. */
  lemma UndoListCovers(f0: Files, d: Disk, strict: bool, force: bool)
    requires Recoverable(f0, d, strict) && (strict || force) && !Refused(d, force)
    ensures Covers(f0, d, UndoList(d, force))
  {
    var rs := d.journal.value.records;
    UndoListTouched(d, force);
    forall i | 0 <= i < |rs| ensures SameAt(d.files, f0, rs[i].dest) || IsDest(UndoList(d, force), rs[i].dest) {
      assert Describes(f0, rs[i]) && Accounted(f0, d, rs[i], strict);
      if !SameAt(d.files, f0, rs[i].dest) { RecordAt(d, i, force); }
    }
  }

  /** However an accepted revert ends, the original tree is back and the transaction over, or the disk
      is still recoverable. Torn copies are survived by `force` only. */
  lemma RevertKeepsRecoverable(f0: Files, d: Disk, after: Disk, strict: bool, force: bool, clean: bool)
    requires Recoverable(f0, d, strict) && !Refused(d, force) && Reverted(d, after, force, clean)
    requires (strict || force) && (strict ==> clean)
    ensures Recoverable(f0, after, strict) || Closed(f0, after)
  {
    var acted := UndoList(d, force);
    UndoListTouched(d, force);
    AcceptedBacked(f0, d, strict, force);
    UndoneRecoverable(f0, d, after.files, acted, strict);
    if after.journal.None? || after.backups != d.backups {
      UndoListCovers(f0, d, strict, force);
      AllRestoredOriginal(f0, d, after.files, acted, strict, clean);
      OriginalRecoverable(f0, d, after.backups, strict);
    }
  }

  lemma StrictIsRecoverable(f0: Files, d: Disk, strict: bool)
    requires Recoverable(f0, d, strict)
    ensures Recoverable(f0, d, false)
  {
    var rs := d.journal.value.records;
    forall i | 0 <= i < |rs| ensures Accounted(f0, d, rs[i], false) {
      assert Accounted(f0, d, rs[i], strict);
    }
  }

  // ---------------------------------------------------------------------------
  // Torn targets: what verify sees is what a plain revert cannot repair
  // ---------------------------------------------------------------------------

  /** On an unfinished transaction verify reports exactly the touched targets a plain revert preserves. */
  lemma VerifySeesPreserved(d: Disk, i: int)
    requires d.journal.Some? && d.journal.value.phase.Unfinished? && 0 <= i < |d.journal.value.records|
    ensures var r := d.journal.value.records[i];
      DiffersAt(d, i) <==> !r.state.Pending? && RecoveryAction(r, StateOf(d.files, r), false) == Preserve
  {
  }

  /** No damage reported means that no target is torn. */
  lemma UndamagedIsStrict(f0: Files, d: Disk)
    requires Recoverable(f0, d, false) && !SomeDiffers(d)
    ensures Recoverable(f0, d, true)
  {
    var rs := d.journal.value.records;
    forall i | 0 <= i < |rs| ensures Accounted(f0, d, rs[i], true) {
      assert !DiffersAt(d, i) && Accounted(f0, d, rs[i], false) && Describes(f0, rs[i]);
    }
  }

  /** A disk with no torn target passes verify. */
  lemma StrictVerifies(f0: Files, d: Disk)
    requires Recoverable(f0, d, true)
    ensures !SomeDiffers(d)
  {
    var rs := d.journal.value.records;
    forall i | 0 <= i < |rs| ensures !DiffersAt(d, i) {
      assert Accounted(f0, d, rs[i], true) && Describes(f0, rs[i]);
    }
  }

  /** A plain revert that restored all it planned has the original tree back if and only if verify
      reported nothing beforehand. */
  lemma PlainRevertExact(f0: Files, d: Disk, after: Disk, clean: bool)
    requires Recoverable(f0, d, false) && !Refused(d, false) && Reverted(d, after, false, clean)
    requires AllRestored(after.files, UndoList(d, false))
    ensures after.files == f0 <==> !SomeDiffers(d)
  {
    if !SomeDiffers(d) {
      UndamagedIsStrict(f0, d);
      UndoListCovers(f0, d, true, false);
      AllRestoredOriginal(f0, d, after.files, UndoList(d, false), true, clean);
    } else {
      var i :| 0 <= i < |d.journal.value.records| && DiffersAt(d, i);
      DamagedStays(f0, d, after, i, clean);
    }
  }

  lemma DamagedStays(f0: Files, d: Disk, after: Disk, i: int, clean: bool)
    requires Recoverable(f0, d, false) && Reverted(d, after, false, clean)
    requires 0 <= i < |d.journal.value.records| && DiffersAt(d, i)
    ensures var p := d.journal.value.records[i].dest; SameAt(after.files, d.files, p) && !SameAt(after.files, f0, p)
  {
    DamagedNotPlanned(d, i);
    var r := d.journal.value.records[i];
    assert Describes(f0, r) && SameAt(after.files, d.files, r.dest);
  }

  lemma DamagedNotPlanned(d: Disk, i: int)
    requires d.journal.Some? && d.journal.value.phase.Unfinished? && DistinctDests(d.journal.value.records)
    requires 0 <= i < |d.journal.value.records| && DiffersAt(d, i)
    ensures !IsDest(UndoList(d, false), d.journal.value.records[i].dest)
  {
    var rs, acted := d.journal.value.records, UndoList(d, false);
    VerifySeesPreserved(d, i);
    forall k | 0 <= k < |acted| ensures acted[k].dest != rs[i].dest {
      assert acted[k] in acted;
      var j :| 0 <= j < |rs| && rs[j] == acted[k];
      assert Chosen(d, rs[j], false) && !Chosen(d, rs[i], false);
    }
  }

  // ---------------------------------------------------------------------------
  // Outside edits
  // ---------------------------------------------------------------------------

  /** Whatever others did to the targets of an unfinished transaction: a pending target is never
      changed; a plain revert changes only targets that hold post; a modified target that changes
      holds its verified pre content afterwards and an added one is gone. */
  lemma RevertRespectsOutsiders(d: Disk, after: Disk, force: bool, p: string)
    requires d.journal.Some? && d.journal.value.phase.Unfinished? && DistinctDests(d.journal.value.records)
    requires !Refused(d, force) && Reverted(d, after, force, true) && !SameAt(after.files, d.files, p)
    ensures exists i :: 0 <= i < |d.journal.value.records| && RightlyChanged(d, after, i, force, p)
  {
    var acted, rs := UndoList(d, force), d.journal.value.records;
    assert IsDest(acted, p);
    var k :| 0 <= k < |acted| && acted[k].dest == p;
    assert acted[k] in acted;
    var j :| 0 <= j < |rs| && rs[j] == acted[k];
    ChosenBackups(d, force);
    assert Chosen(d, acted[k], force) && BackupGood(d.backups, acted[k]);
    assert SameAt(after.files, d.files, acted[k].dest) || Restored(after.files, acted[k]);
    assert RightlyChanged(d, after, j, force, p);
  }

  /** Path p is record i's target, was touched by the transaction, and is back. */
  predicate RightlyChanged(d: Disk, after: Disk, i: int, force: bool, p: string)
    requires d.journal.Some? && 0 <= i < |d.journal.value.records|
  {
    var r := d.journal.value.records[i];
    && r.dest == p && !r.state.Pending?
    && (!force ==> p in d.files && d.files[p] == r.post)
    && if r.kind.Modified?
       then p in d.backups && p in after.files && Some(after.files[p]) == r.pre == Some(d.backups[p])
       else p !in after.files
  }

  // ---------------------------------------------------------------------------
  // Reverting a finished deployment
  // ---------------------------------------------------------------------------

  /** A deployed transaction over f0 whose records tell the truth; the targets may hold anything. */
  ghost predicate Recorded(f0: Files, d: Disk) {
    && d.journal.Some? && d.journal.value.phase.Deployed? && DistinctDests(d.journal.value.records)
    && (forall i :: 0 <= i < |d.journal.value.records| ==> Describes(f0, d.journal.value.records[i]))
    && forall p :: !IsDest(d.journal.value.records, p) ==> SameAt(d.files, f0, p)
  }

  predicate Backed(d: Disk)
    requires d.journal.Some?
  {
    AllBacked(d.backups, d.journal.value.records)
  }

  lemma DeployedIsRecorded(f0: Files, d: Disk, base: seq<Record>)
    requires DeployedTree(f0, d, base) && DistinctDests(base)
    ensures Recorded(f0, d) && Backed(d) && !SomeDiffers(d)
  {
    var rs := d.journal.value.records;
    StageDests(rs, base, |base|);
    assert base[..|base|] == base;
    forall i | 0 <= i < |rs| ensures Describes(f0, rs[i]) && BackupGood(d.backups, rs[i]) && !DiffersAt(d, i) {
      assert base[i].(state := rs[i].state) == rs[i];
      assert Describes(f0, base[i]) && BackupGood(d.backups, base[i]);
      assert base[i].dest in d.files && d.files[base[i].dest] == base[i].post;
    }
  }

  lemma {:induction false} EverythingChosen(d: Disk, rs: seq<Record>, force: bool)
    requires d.journal.Some? && d.journal.value.phase.Deployed?
    ensures ToUndo(d, rs, force) == rs
  {
    hide StateOf, RecoveryAction;
    if rs != [] {
      EverythingChosen(d, rs[..|rs| - 1], force);
      assert rs[..|rs| - 1] + [rs[|rs| - 1]] == rs;
    }
  }

  /** A deployment is refused exactly for a bad backup or, unless forced, for what verify reports. */
  lemma DeployedRefusal(d: Disk, force: bool)
    requires d.journal.Some? && d.journal.value.phase.Deployed?
    ensures Refused(d, force) <==> !Backed(d) || (!force && SomeDiffers(d))
  {
    var rs := d.journal.value.records;
    forall i | 0 <= i < |rs|
      ensures (BackupBlocks(d, i, force) <==> !BackupGood(d.backups, rs[i])) && (NotPost(d, i) <==> DiffersAt(d, i))
    {
    }
  }

  /** The original tree is back, or every backup is still there to bring it back. */
  ghost predicate Reversible(f0: Files, d: Disk) {
    Closed(f0, d) || (Recorded(f0, d) && (Backed(d) || d.files == f0))
  }

  /** Even with torn or garbled copies a revert of a deployment stays reversible. */
  lemma DeployedRevertStep(f0: Files, d: Disk, after: Disk, force: bool, clean: bool)
    requires Recorded(f0, d) && Backed(d) && Reverted(d, after, force, clean)
    ensures Reversible(f0, after)
    ensures AllRestored(after.files, d.journal.value.records) ==> after.files == f0
  {
    var rs := d.journal.value.records;
    EverythingChosen(d, rs, force);
    forall p | !IsDest(rs, p) ensures SameAt(after.files, f0, p) {
      assert SameAt(after.files, d.files, p) && SameAt(d.files, f0, p);
    }
    if AllRestored(after.files, rs) { AllBackIsOriginal(f0, after.files, rs); }
  }

  lemma AllBackIsOriginal(f0: Files, files: Files, rs: seq<Record>)
    requires AllRestored(files, rs) && forall i :: 0 <= i < |rs| ==> Describes(f0, rs[i])
    requires forall p :: !IsDest(rs, p) ==> SameAt(files, f0, p)
    ensures files == f0
  {
    forall p ensures SameAt(files, f0, p) {
      if IsDest(rs, p) {
        var i :| 0 <= i < |rs| && rs[i].dest == p;
        RestoredIsOriginal(f0, files, rs[i]);
      }
    }
    SameEverywhere(files, f0);
  }

  /** A deployment whose revert restored everything but left only the backups in `kept`, and the
      journal, is refused from then on: with force if and only if the backup of a modified file is
      gone, and without force whatever is left. */
  lemma LeftoverIsStuck(f0: Files, before: Disk, d: Disk, kept: set<string>)
    requires Recorded(f0, before) && Backed(before) && d == Disk(f0, Kept(before.backups, kept), before.journal)
    ensures Refused(d, true) <==> exists i :: 0 <= i < |d.journal.value.records| && LostBackup(d, i, kept)
    ensures Refused(d, false) <==>
      exists i :: 0 <= i < |d.journal.value.records| && (LostBackup(d, i, kept) || Changes(d.journal.value.records[i]))
  {
    var rs := d.journal.value.records;
    DeployedRefusal(d, true);
    DeployedRefusal(d, false);
    forall i | 0 <= i < |rs|
      ensures (!BackupGood(d.backups, rs[i]) <==> LostBackup(d, i, kept)) && (DiffersAt(d, i) <==> Changes(rs[i]))
    {
      assert BackupGood(before.backups, rs[i]) && Describes(f0, rs[i]);
    }
  }

  predicate LostBackup(d: Disk, i: int, kept: set<string>)
    requires d.journal.Some? && 0 <= i < |d.journal.value.records|
  {
    d.journal.value.records[i].kind.Modified? && d.journal.value.records[i].dest !in kept
  }

  /** A revert that started to remove backups had the original tree back. */
  lemma CleanUpMeansOriginal(f0: Files, before: Disk, after: Disk, force: bool, clean: bool)
    requires Recorded(f0, before) && Backed(before) && Reverted(before, after, force, clean)
    requires after.backups != before.backups || after.journal.None?
    ensures after.files == f0
  {
    EverythingChosen(before, before.journal.value.records, force);
    DeployedRevertStep(f0, before, after, force, clean);
  }

  // ---------------------------------------------------------------------------
  // What the marks in the journal say
  // ---------------------------------------------------------------------------

  /** Pending targets untouched, written ones post, writing ones either; whatever the schedule, torn
      copies included, for the first two. */
  ghost predicate MarksTrue(f0: Files, d: Disk, clean: bool) {
    Classified(f0, d, {}, clean)
  }

  /** Wherever apply ends, the marks are true unless a step of the write phase failed. With untorn
      copies, every written target is post if and only if the run, as its disk and schedule decide it
      beforehand, undoes no written target that its deployment changed. */
  method ApplyMarks(m: Machine, targets: seq<Target>) returns (e: Exit)
    requires Sane(targets) && m.journal.None?
    modifies m
    ensures !ApplyFails(old(m.State()), m.sources, targets) ==>
      MarksTrue(old(m.files), m.Snapshot(), Clean(old(m.faults))) && WrittenAtPost(m.Snapshot())
    ensures OnlyDies(old(m.faults)) ==> !ApplyFails(old(m.State()), m.sources, targets)
    ensures Clean(old(m.faults)) && m.journal.Some? ==>
      (WrittenAtPost(m.Snapshot()) <==>
       forall i :: 0 <= i < |m.journal.value.records| ==>
         !Unwritten(m.Snapshot(), Undoes(old(m.State()), m.sources, targets), i))
  {
    ghost var f0, clean := m.files, Clean(m.faults);
    if OnlyDies(m.faults) { OnlyDyingNeverFails(m.State(), m.sources, targets); }
    e := m.DoApply(targets);
    hide ApplyFails, Undoes, ApplyRun;
    if m.journal.Some? {
      if m.undone == {} { UntouchedWritten(f0, m.Snapshot(), clean); }
      if clean {
        JournalDescribes(f0, m.Snapshot(), targets, clean);
        WrittenExact(f0, m.Snapshot(), m.undone);
      }
    }
  }

  lemma UntouchedWritten(f0: Files, d: Disk, clean: bool)
    requires d.journal.Some? && Classified(f0, d, {}, clean)
    ensures WrittenAtPost(d)
  {
    forall i | 0 <= i < |d.journal.value.records| && d.journal.value.records[i].state.Written?
      ensures AtPost(d.files, d.journal.value.records[i])
    {
      assert MarkTold(f0, d.files, d.journal.value.records[i], {}, clean);
    }
  }

  lemma JournalDescribes(f0: Files, d: Disk, targets: seq<Target>, strict: bool)
    requires d.journal.Some?
    requires DeployedTree(f0, d, RecordsOf(targets)) || Recoverable(f0, d, strict)
    ensures forall i :: 0 <= i < |d.journal.value.records| ==> Describes(f0, d.journal.value.records[i])
  {
    if DeployedTree(f0, d, RecordsOf(targets)) {
      var rs, base := d.journal.value.records, RecordsOf(targets);
      forall i | 0 <= i < |rs| ensures Describes(f0, rs[i]) {
        assert base[i].(state := rs[i].state) == rs[i] && Describes(f0, base[i]);
      }
    }
  }

  // ---------------------------------------------------------------------------
  // Whole histories
  // ---------------------------------------------------------------------------

  /** An undisturbed revert closes the transaction if and only if it is not refused and every record
      it undoes changes its target. */
  method RevertCloses(m: Machine, force: bool) returns (e: Exit)
    requires m.journal.Some? && DistinctDests(m.journal.value.records) && AllFine(m.faults)
    modifies m
    ensures e == Code(0) <==> m.journal.None?
    ensures m.journal.None? <==>
      old(!Refused(m.Snapshot(), force) && AllChange(UndoList(m.Snapshot(), force)))
    ensures m.journal.Some? ==> e == Code(7) && m.journal == old(m.journal) && m.backups == old(m.backups)
  {
    ghost var d := m.Snapshot();
    e := m.DoRevert(force);
    if Refused(d, force) {
      assert m.Snapshot() == d;
    } else if AllChange(UndoList(d, force)) {
      assert m.journal.None?;
    } else {
      assert e == Code(7) && m.journal == d.journal;
    }
  }

  /** One revert of a recoverable or closed disk. */
  method RevertOnce(m: Machine, force: bool, ghost f0: Files, ghost strict: bool) returns (e: Exit)
    requires Recoverable(f0, m.Snapshot(), strict) || Closed(f0, m.Snapshot())
    requires (strict || force) && (strict ==> Clean(m.faults))
    modifies m
    ensures Recoverable(f0, m.Snapshot(), strict) || Closed(f0, m.Snapshot())
    ensures m.journal.None? || m.journal == old(m.journal)
    ensures e == Code(0) || AllFine(old(m.faults)) ==> m.files == f0
    ensures AllFine(old(m.faults)) && old(m.journal.Some? ==> AllChange(m.journal.value.records)) ==>
      e == Code(0) && Closed(f0, m.Snapshot())
  {
    hide Recoverable, Covers, Undone, Accounted, AllChange;
    ghost var d, clean := m.Snapshot(), Clean(m.faults);
    if Recoverable(f0, d, strict) {
      RecoverableDistinct(f0, d, strict);
      RecoverableAccepted(f0, d, strict, force);
    }
    e := m.DoRevert(force);
    if d.journal.Some? && !Refused(d, force) {
      RevertKeepsRecoverable(f0, d, m.Snapshot(), strict, force, clean);
      ChosenChange(d, force);
      if AllRestored(m.files, UndoList(d, force)) {
        UndoListCovers(f0, d, strict, force);
        AllRestoredOriginal(f0, d, m.files, UndoList(d, force), strict, clean);
      }
    }
  }

  lemma RecoverableDistinct(f0: Files, d: Disk, strict: bool)
    requires Recoverable(f0, d, strict)
    ensures d.journal.Some? && DistinctDests(d.journal.value.records)
  {
  }

  lemma ChosenChange(d: Disk, force: bool)
    requires d.journal.Some?
    ensures AllChange(d.journal.value.records) ==> AllChange(UndoList(d, force))
  {
    var acted, rs := UndoList(d, force), d.journal.value.records;
    if AllChange(rs) {
      forall k | 0 <= k < |acted| ensures Changes(acted[k]) {
        assert acted[k] in acted;
        var j :| 0 <= j < |rs| && rs[j] == acted[k];
      }
    }
  }

  /** Any number of interrupted reverts and then an undisturbed one restore the original tree, and
      close the transaction when every record changes its target. */
  method RevertRepeatedly(
    m: Machine, interrupted: seq<seq<Outcome>>, force: bool, ghost f0: Files, ghost strict: bool)
    returns (e: Exit)
    requires Recoverable(f0, m.Snapshot(), strict) || Closed(f0, m.Snapshot())
    requires (strict || force) && (strict ==> forall i :: 0 <= i < |interrupted| ==> Clean(interrupted[i]))
    modifies m
    ensures m.files == f0
    ensures old(m.journal.Some? ==> AllChange(m.journal.value.records)) ==> e == Code(0) && Closed(f0, m.Snapshot())
  {
    hide Recoverable, AllChange;
    for i := 0 to |interrupted|
      invariant Recoverable(f0, m.Snapshot(), strict) || Closed(f0, m.Snapshot())
      invariant m.journal.None? || m.journal == old(m.journal)
    {
      m.faults := interrupted[i];
      e := RevertOnce(m, force, f0, strict);
    }
    m.faults := [];
    e := RevertOnce(m, force, f0, strict);
  }

  /** Every modified target gets new content. */
  predicate TargetsChange(targets: seq<Target>) {
    AllChange(RecordsOf(targets))
  }

  /** An apply that fails or dies anywhere, interrupted reverts, an undisturbed revert: the original
      tree. Plain reverts need clean schedules, forced ones survive torn and garbled copies too. */
  method ApplyThenRecover(m: Machine, targets: seq<Target>, interrupted: seq<seq<Outcome>>, force: bool)
    returns (applied: Exit)
    requires Sane(targets) && m.journal.None?
    requires !force ==> Clean(m.faults) && forall i :: 0 <= i < |interrupted| ==> Clean(interrupted[i])
    modifies m
    ensures applied == Code(0) ==> DeployedTree(old(m.files), m.Snapshot(), RecordsOf(targets))
    ensures applied != Code(0) ==> m.files == old(m.files)
    ensures applied != Code(0) && TargetsChange(targets) ==> Closed(old(m.files), m.Snapshot())
  {
    hide Recoverable, DeployedTree, Classified;
    ghost var f0, clean := m.files, Clean(m.faults);
    applied := m.DoApply(targets);
    if applied != Code(0) {
      if m.journal.Some? { SameChanges(m.journal.value.records, RecordsOf(targets)); }
      if force && Recoverable(f0, m.Snapshot(), clean) { StrictIsRecoverable(f0, m.Snapshot(), clean); }
      var _ := RevertRepeatedly(m, interrupted, force, f0, !force);
    }
  }

  /** A revert of this deployment is not refused. */
  predicate Undeployable(d: Disk, force: bool) {
    d.journal.Some? && Backed(d) && (force || !SomeDiffers(d))
  }

  /** One revert of a deployment. */
  method UndeployOnce(m: Machine, force: bool, ghost f0: Files) returns (e: Exit)
    requires Reversible(f0, m.Snapshot())
    modifies m
    ensures Reversible(f0, m.Snapshot())
    ensures AllFine(old(m.faults)) && old(Undeployable(m.Snapshot(), force)) ==>
      m.files == f0 &&
      if old(AllChange(m.journal.value.records)) then e == Code(0) && Closed(f0, m.Snapshot()) && m.backups == map[]
      else e == Code(7) && m.journal == old(m.journal) && m.backups == old(m.backups)
    ensures AllFine(old(m.faults)) && force ==> m.files == f0 && (e == Code(0) <==> m.journal.None?)
  {
    ghost var d, clean := m.Snapshot(), Clean(m.faults);
    if m.journal.Some? { DeployedRefusal(d, force); }
    e := m.DoRevert(force);
    if d.journal.Some? && !Refused(d, force) {
      DeployedRevertStep(f0, d, m.Snapshot(), force, clean);
      EverythingChosen(d, d.journal.value.records, force);
    }
  }

  /** Apply, then revert, both undisturbed: nothing is left of a deployment that changed what it
      touched; any other keeps its journal for ever, with the files unchanged. */
  method ApplyRevert(m: Machine, targets: seq<Target>, force: bool) returns (e: Exit)
    requires Sane(targets) && m.journal.None? && AllReady(m.files, m.sources, targets) && m.faults == []
    modifies m
    ensures m.files == old(m.files)
    ensures if TargetsChange(targets) then e == Code(0) && m.Snapshot() == Disk(old(m.files), map[], None)
            else e == Code(7) && Recorded(old(m.files), m.Snapshot()) && Backed(m.Snapshot())
                 && !AllChange(m.journal.value.records)
  {
    ghost var f0, base := m.files, RecordsOf(targets);
    BaseRecords(f0, m.sources, targets);
    e := m.DoApply(targets);
    DeployedIsRecorded(f0, m.Snapshot(), base);
    SameChanges(m.journal.value.records, base);
    m.faults := [];
    e := UndeployOnce(m, force, f0);
  }

  lemma SameChanges(rs: seq<Record>, base: seq<Record>)
    requires SameUpToMarks(rs, base)
    ensures AllChange(rs) <==> AllChange(base)
  {
    forall j | 0 <= j < |rs| ensures Changes(rs[j]) <==> Changes(base[j]) { }
  }

  /** A deployment, forced reverts interrupted anywhere and with any damage, an undisturbed forced
      revert: the original tree, even where the journal can no longer be closed. */
  method DeployThenForce(m: Machine, targets: seq<Target>, interrupted: seq<seq<Outcome>>) returns (e: Exit)
    requires Sane(targets) && m.journal.None?
    modifies m
    ensures m.files == old(m.files)
  {
    ghost var f0 := m.files;
    e := ApplyThenRecover(m, targets, interrupted, true);
    if e == Code(0) {
      DistinctRecords(targets);
      DeployedIsRecorded(f0, m.Snapshot(), RecordsOf(targets));
      for i := 0 to |interrupted|
        invariant Reversible(f0, m.Snapshot())
      {
        m.faults := interrupted[i];
        e := UndeployOnce(m, true, f0);
      }
      m.faults := [];
      e := UndeployOnce(m, true, f0);
    }
  }

  lemma DistinctRecords(targets: seq<Target>)
    requires Sane(targets)
    ensures DistinctDests(RecordsOf(targets))
  {
    var base := RecordsOf(targets);
    forall i, j | 0 <= i < j < |base| ensures base[i].dest != base[j].dest {
      assert targets[i].dest != targets[j].dest;
    }
  }
}
