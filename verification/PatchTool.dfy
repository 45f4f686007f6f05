/** apply, rollback, revert and verify as sequences of disk steps, any of which may fail or be the last. */
module PatchTool {
  import opened Basics
  import opened PatchModel
  import opened PatchSteps

  class Machine {
    const sources: Files        // deployment sources; nothing writes them during a run
    var files: Files
    var backups: Files
    var journal: Option<Journal>
    var faults: seq<Outcome>    // one outcome per disk step; fine when exhausted
    ghost var undone: set<string>  // targets an undo step of the current run has written to

    constructor (sources: Files, files: Files, backups: Files, journal: Option<Journal>, faults: seq<Outcome>)
      ensures this.sources == sources && State() == World(Disk(files, backups, journal), faults, {})
    {
      this.sources, this.files, this.backups, this.journal, this.faults := sources, files, backups, journal, faults;
      undone := {};
    }

    function Snapshot(): Disk
      reads this
    {
      Disk(files, backups, journal)
    }

    ghost function State(): World
      reads this
    {
      World(Snapshot(), faults, undone)
    }

    // -------------------------------------------------------------------------
    // Disk steps
    // -------------------------------------------------------------------------

    method Tick() returns (o: Outcome)
      modifies this`faults
      ensures o == old(State()).Next() && State() == old(State()).Spent()
      ensures Inherits(old(faults), faults)
      ensures Clean(old(faults)) ==> !o.Garbled? && (o.Bad? ==> o.torn.None?)
      ensures AllFine(old(faults)) ==> o.Fine?
    {
      if faults == [] { return Fine; }
      o := faults[0];
      faults := faults[1..];
    }

    /** A step that only may fail: mkdir, reading a hash inside a try block. */
    method Touch() returns (s: Status)
      modifies this`faults
      ensures (State(), s) == TouchRun(old(State()))
      ensures Inherits(old(faults), faults) && (AllFine(old(faults)) ==> s.Done?)
    {
      var o := Tick();
      s := StatusOf(o);
    }

    /** save_journal: temporary file and atomic replace, so all or nothing. */
    method SaveJournal(j: Journal) returns (s: Status)
      modifies this`faults, this`journal
      ensures (State(), s) == SaveRun(old(State()), j)
      ensures Inherits(old(faults), faults) && (AllFine(old(faults)) ==> s.Done?)
      ensures journal == if s.Done? then Some(j) else old(journal)
    {
      var o := Tick();
      s := StatusOf(o);
      if s.Done? { journal := Some(j); }
    }

    /** replace_copy: atomic; the target changes only when the step is done. */
    method ReplaceCopy(src: string, dest: string) returns (s: Status)
      modifies this`faults, this`files
      ensures (State(), s) == ReplaceRun(old(State()), sources, src, dest)
      ensures Inherits(old(faults), faults)
      ensures AllFine(old(faults)) && src in sources ==> s.Done?
      ensures !s.Done? ==> files == old(files)
      ensures s.Done? ==> dest in files && files == old(files)[dest := files[dest]]
      ensures s.Done? && Clean(old(faults)) ==> src in sources && files[dest] == sources[src]
    {
      var o := Tick();
      s := StatusOf(o);
      if s.Done? {
        if o.Garbled? {
          files := files[dest := o.content];
        } else if src in sources {
          files := files[dest := sources[src]];
        } else {
          s := Failed;
        }
      }
    }

    /** The plain copy of a target into the backup area. */
    method CopyToBackup(dest: string) returns (s: Status)
      modifies this`faults, this`backups
      ensures (State(), s) == CopyOutRun(old(State()), dest)
      ensures Inherits(old(faults), faults)
      ensures AllFine(old(faults)) && dest in files ==> s.Done?
      ensures s.Done? ==> dest in backups && backups == old(backups)[dest := backups[dest]]
      ensures s.Done? && AllFine(old(faults)) ==> dest in files && backups[dest] == files[dest]
    {
      var o := Tick();
      s := StatusOf(o);
      match o
      case Garbled(c) => backups := backups[dest := c];
      case Bad(_, torn, _) => if torn.Some? { backups := backups[dest := torn.value]; }
      case Fine => if dest in files { backups := backups[dest := files[dest]]; } else { s := Failed; }
    }

    /** The plain copy of a backup over its target: not atomic. */
    method CopyFromBackup(dest: string) returns (s: Status)
      requires dest in backups && dest !in undone
      modifies this`faults, this`files, this`undone
      ensures (State(), s) == CopyBackRun(old(State()), dest)
      ensures Inherits(old(faults), faults) && (AllFine(old(faults)) ==> s.Done?)
      ensures Wrote(old(files), files, dest, old(undone), undone)
      ensures Clean(old(faults)) ==> (dest in undone <==> s.Done?)
      ensures Clean(old(faults)) ==> files == if s.Done? then old(files)[dest := backups[dest]] else old(files)
    {
      var o := Tick();
      s := StatusOf(o);
      if s.Done? || (o.Bad? && o.torn.Some?) { undone := undone + {dest}; }
      match o
      case Garbled(c) => files := files[dest := c];
      case Bad(_, torn, _) => if torn.Some? { files := files[dest := torn.value]; }
      case Fine => files := files[dest := backups[dest]];
    }

    method Unlink(dest: string) returns (s: Status)
      requires dest !in undone
      modifies this`faults, this`files, this`undone
      ensures (State(), s) == UnlinkRun(old(State()), dest)
      ensures Inherits(old(faults), faults) && (AllFine(old(faults)) ==> s.Done?)
      ensures Wrote(old(files), files, dest, old(undone), undone) && (dest in undone <==> s.Done?)
      ensures files == if s.Done? then old(files) - {dest} else old(files)
    {
      var o := Tick();
      s := StatusOf(o);
      if s.Done? { files, undone := files - {dest}, undone + {dest}; }
    }

    /** shutil.rmtree(orig_root, ignore_errors=True): errors leave any part behind. */
    method RemoveBackups() returns (died: bool)
      modifies this`faults, this`backups
      ensures (State(), died) == RemoveRun(old(State()))
      ensures Inherits(old(faults), faults)
      ensures AllFine(old(faults)) ==> !died && backups == map[]
    {
      var o := Tick();
      died := StatusOf(o).Died?;
      backups := if o.Bad? then Kept(backups, o.kept) else map[];
    }

    /** discard_journal: a failing unlink is only a warning. */
    method DiscardJournal() returns (died: bool)
      modifies this`faults, this`journal
      ensures (State(), died) == DiscardRun(old(State()))
      ensures Inherits(old(faults), faults)
      ensures journal == None || journal == old(journal)
      ensures AllFine(old(faults)) ==> !died && journal == None
    {
      var o := Tick();
      died := StatusOf(o).Died?;
      if StatusOf(o).Done? { journal := None; }
    }

    /** Backups first, then the journal. */
    method CleanUp() returns (died: bool)
      modifies this`faults, this`backups, this`journal
      ensures (State(), died) == CleanUpRun(old(State()))
      ensures Inherits(old(faults), faults)
      ensures journal == None || journal == old(journal)
      ensures AllFine(old(faults)) ==> !died && journal == None && backups == map[]
    {
      died := RemoveBackups();
      if died { return; }
      died := DiscardJournal();
    }

    // -------------------------------------------------------------------------
    // undo_record and _rollback
    // -------------------------------------------------------------------------

    /** undo_record: `Done` means the target is restored; nothing else is touched. */
    method UndoRecord(r: Record) returns (s: Status)
      requires r.dest !in undone
      modifies this`faults, this`files, this`undone
      ensures (State(), s) == UndoRun(old(State()), r)
      ensures Inherits(old(faults), faults)
      ensures Wrote(old(files), files, r.dest, old(undone), undone)
      ensures Clean(old(faults)) && r.dest in undone ==> Restored(files, r)
      ensures s.Done? ==> Restored(files, r)
      ensures AllFine(old(faults)) && BackupGood(backups, r) ==> s.Done?
    {
      s := Done;
      if r.kind.Modified? {
        if !BackupGood(backups, r) {
          s := Failed;
        } else {
          s := Touch();
          if s.Done? {
            s := CopyFromBackup(r.dest);
            if s.Done? && !Restored(files, r) { s := Failed; }
          }
        }
      } else if r.dest in files {
        s := Unlink(r.dest);
      }
    }

    /** Undo a list of records in order; with `skipPre`, modified targets already at pre are left. */
    method UndoAll(rs: seq<Record>, skipPre: bool) returns (s: Status)
      requires DistinctDests(rs) && undone == {}
      modifies this`faults, this`files, this`undone
      ensures (State(), s) == UndoAllRun(old(State()), rs, 0, skipPre, false)
      ensures Inherits(old(faults), faults)
      ensures Traced(old(files), files, rs, undone, Clean(old(faults)))
      ensures s.Done? ==> AllRestored(files, rs)
      ensures AllFine(old(faults)) && (forall i :: 0 <= i < |rs| ==> BackupGood(backups, rs[i])) ==> s.Done?
    {
      hide UndoRun, BackupGood;
      s := Done;
      for i := 0 to |rs|
        invariant Inherits(old(faults), faults)
        invariant UndoAllRun(old(State()), rs, 0, skipPre, false) == UndoAllRun(State(), rs, i, skipPre, s.Failed?)
        invariant Traced(old(files), files, rs[..i], undone, Clean(old(faults)))
        invariant s.Done? ==> AllRestored(files, rs[..i])
        invariant AllFine(old(faults)) && (forall k :: 0 <= k < i ==> BackupGood(backups, rs[k])) ==> s.Done?
        invariant s != Died
      {
        ghost var before, marks := files, undone;
        var one := Done;
        TracedFresh(old(files), files, rs, i, undone, Clean(old(faults)));
        if !(skipPre && rs[i].kind.Modified? && StateOf(files, rs[i]) == IsPre) {
          one := UndoRecord(rs[i]);
        }
        assert rs[..i + 1] == rs[..i] + [rs[i]];
        TracedStep(old(files), before, files, rs[..i], rs[i], marks, undone, Clean(old(faults)));
        if one.Done? && s.Done? { RestoredStep(before, files, rs[..i], rs[i]); }
        if one.Died? {
          TracedPrefix(old(files), files, rs, i + 1, undone, Clean(old(faults)));
          return Died;
        }
        if one.Failed? { s := Failed; }
      }
      assert rs[..|rs|] == rs;
    }

    /** _rollback: undo what was attempted; drop backups and journal only when all of it is restored. */
    method Rollback(rs: seq<Record>, ghost f0: Files, ghost strict: bool) returns (died: bool)
      requires DistinctDests(rs) && (strict ==> Clean(faults)) && undone == {}
      requires Recoverable(f0, Snapshot(), strict) && Covers(f0, Snapshot(), rs)
      requires SteadyBacked(backups, journal.value.records) && Classified(f0, Snapshot(), {}, strict)
      requires AllBacked(backups, rs)
      modifies this
      ensures (State(), died) == RollbackRun(old(State()), rs)
      ensures Inherits(old(faults), faults)
      ensures Recoverable(f0, Snapshot(), strict) || Closed(f0, Snapshot())
      ensures Classified(f0, Snapshot(), undone, strict) && (journal.None? || journal == old(journal))
      ensures AllFine(old(faults)) ==> !died && Closed(f0, Snapshot())
    {
      hide Recoverable, Covers, Classified, UndoAllRun, CleanUpRun, Undone, Traced;
      ghost var d, clean := Snapshot(), Clean(old(faults));
      var s := UndoAll(rs, true);
      TracedUndone(d.files, files, rs, undone, clean);
      RolledBack(f0, d, files, rs, undone, strict, clean);
      if !s.Done? { return s.Died?; }
      AllRestoredOriginal(f0, d, files, rs, strict, clean);
      died := CleanUp();
      CleanedUp(f0, d, Snapshot(), undone, strict);
    }

    // -------------------------------------------------------------------------
    // do_apply
    // -------------------------------------------------------------------------

    /** The preflight over all targets; touches nothing. */
    method Preflight(targets: seq<Target>) returns (ok: bool)
      ensures ok <==> forall i :: 0 <= i < |targets| ==> Ready(files, sources, targets[i])
    {
      var problems := 0;
      for i := 0 to |targets|
        invariant problems >= 0
        invariant problems == 0 <==> forall k :: 0 <= k < i ==> Ready(files, sources, targets[k])
      {
        var t := targets[i];
        if t.src !in sources || sources[t.src] != t.post { problems := problems + 1; }
        if t.dest !in files {
          if t.kind.Modified? { problems := problems + 1; }
        } else if t.kind.Added? || t.pre != Some(files[t.dest]) {
          problems := problems + 1;
        }
      }
      return problems == 0;
    }

    /** One backup with its integrity check; only its own backup slot changes. */
    method BackUp(r: Record) returns (s: Status, intact: bool)
      requires r.hasBackup == r.kind.Modified?
      modifies this`faults, this`backups
      ensures (State(), s, intact) == BackUpRun(old(State()), r)
      ensures Inherits(old(faults), faults)
      ensures s.Done? && intact ==> BackupGood(backups, r)
      ensures s.Done? && intact ==> forall p :: p != r.dest ==> SameAt(backups, old(backups), p)
      ensures AllFine(old(faults)) && Ready0(files, r) ==> s.Done? && intact
    {
      intact := true;
      if r.kind.Added? { return Done, true; }
      s := Touch();
      if !s.Done? { return; }
      s := CopyToBackup(r.dest);
      if !s.Done? { return; }
      s := Touch();
      if !s.Done? { return; }
      intact := r.pre == Some(backups[r.dest]);
    }

    /** Give up before any target was touched: drop backups and journal as far as possible. */
    method AbandonPreparation(code: int) returns (e: Exit)
      requires journal.None?
      modifies this`faults, this`backups, this`journal
      ensures (State(), e) == AbandonRun(old(State()), code)
      ensures journal.None? && Inherits(old(faults), faults) && (e == Code(code) || e == Crashed)
    {
      var died := CleanUp();
      return if died then Crashed else Code(code);
    }

    /** Backups, then the journal with every record pending; targets are not touched. */
    method Prepare(base: seq<Record>) returns (e: Option<Exit>)
      requires journal.None? && DistinctDests(base)
      requires forall i :: 0 <= i < |base| ==> base[i].hasBackup == base[i].kind.Modified? && Ready0(files, base[i])
      modifies this`faults, this`backups, this`journal
      ensures (State(), e) == PrepareRun(old(State()), base, 0)
      ensures Inherits(old(faults), faults)
      ensures e.None? ==> journal == Some(Journal(Unfinished, base))
      ensures e.None? ==> forall i :: 0 <= i < |base| ==> BackupGood(backups, base[i])
      ensures e.Some? ==> journal.None? && (e.value == Code(4) || e.value == Code(5) || e.value == Crashed)
      ensures AllFine(old(faults)) ==> e.None?
    {
      hide BackUpRun, AbandonRun, BackupGood;
      for i := 0 to |base|
        invariant journal.None? && Inherits(old(faults), faults)
        invariant PrepareRun(old(State()), base, 0) == PrepareRun(State(), base, i)
        invariant forall k :: 0 <= k < i ==> BackupGood(backups, base[k])
      {
        ghost var before := backups;
        var s, intact := BackUp(base[i]);
        if s.Died? { return Some(Crashed); }
        if s.Failed? || !intact {
          var gone := AbandonPreparation(if s.Failed? then 5 else 4);
          return Some(gone);
        }
        forall k | 0 <= k < i ensures BackupGood(backups, base[k]) {
          BackupStays(before, backups, base[k], base[i].dest);
        }
      }
      var s := SaveJournal(Journal(Unfinished, base));
      if s.Died? { return Some(Crashed); }
      if s.Failed? {
        var gone := AbandonPreparation(5);
        return Some(gone);
      }
      return None;
    }

    /** Place one target and check it; only that target moves, and a clean schedule leaves it either
        way whole. */
    method Place(r: Record, src: string) returns (s: Status)
      requires src in sources && sources[src] == r.post
      modifies this`faults, this`files
      ensures (State(), s) == PlaceRun(old(State()), sources, r, src)
      ensures Inherits(old(faults), faults) && (AllFine(old(faults)) ==> s.Done?)
      ensures forall p :: p != r.dest ==> SameAt(files, old(files), p)
      ensures files == old(files) || (Clean(old(faults)) ==> AtPost(files, r))
      ensures s.Done? ==> files == old(files)[r.dest := r.post]
    {
      s := Touch();
      if !s.Done? { return; }
      s := ReplaceCopy(src, r.dest);
      if !s.Done? { return; }
      s := Touch();
      if s.Done? && files[r.dest] != r.post { s := Failed; }
    }

    /** One target: mark writing, place, mark written. The disk is recoverable at every step; `marked`
        says whether the record counts as attempted. */
    method DeployOne(base: seq<Record>, recs: seq<Record>, i: int, src: string, ghost f0: Files, ghost strict: bool)
      returns (s: Status, marked: bool, next: seq<Record>)
      requires 0 <= i < |base| && Stage(recs, base, i) && journal == Some(Journal(Unfinished, recs))
      requires Recoverable(f0, Snapshot(), strict) && (strict ==> Clean(faults))
      requires AllBacked(backups, base) && src in sources && sources[src] == base[i].post
      modifies this`faults, this`files, this`journal
      ensures (State(), s, marked) == DeployOneRun(old(State()), sources, base, recs, i, src)
      ensures Inherits(old(faults), faults)
      ensures Recoverable(f0, Snapshot(), strict)
      ensures !s.Done? ==> journal == Some(Journal(Unfinished, if marked then Marked(recs, i, Writing) else recs))
      ensures forall p :: p != base[i].dest ==> SameAt(files, old(files), p)
      ensures !marked ==> files == old(files)
      ensures s.Done? ==> marked && next == Marked(Marked(recs, i, Writing), i, Written)
      ensures s.Done? ==> journal == Some(Journal(Unfinished, next))
      ensures s.Done? ==> files == old(files)[base[i].dest := base[i].post]
      ensures AllFine(old(faults)) ==> s.Done?
    {
      hide Recoverable, AllBacked, BackupGood, PlaceRun, AtPost;
      marked := false;
      next := Marked(recs, i, Writing);
      s := SaveJournal(Journal(Unfinished, next));
      if !s.Done? { return; }
      marked := true;
      MarkedRecoverable(f0, Disk(files, backups, Some(Journal(Unfinished, recs))), base, i, Writing, strict);
      s := Place(base[i], src);
      PlacedRecoverable(f0, Disk(old(files), backups, journal), files, base, i, strict);
      if !s.Done? { return; }
      MarkedRecoverable(f0, Snapshot(), base, i, Written, strict);
      next := Marked(next, i, Written);
      s := SaveJournal(Journal(Unfinished, next));
    }

    /** do_apply. 0: every target deployed. 4: nothing changed. 5: rolled back, or recoverable by
        revert. A crash anywhere leaves the original tree or a recoverable one, and until rollback
        undoes a target its record's mark says which of the two contents it holds. */
    method DoApply(targets: seq<Target>) returns (e: Exit)
      requires Sane(targets)
      modifies this
      ensures (State(), e) == ApplyRun(old(State()), sources, targets)
      ensures e == Code(0) || e == Code(4) || e == Code(5) || e == Crashed
      ensures e == Code(0) ==> old(journal).None? && DeployedTree(old(files), Snapshot(), RecordsOf(targets))
      ensures e == Code(4) ==> files == old(files) && journal == old(journal)
      ensures old(journal).Some? ==> e == Code(4) && Snapshot() == old(Snapshot())
      ensures e == Code(5) || e == Crashed ==>
        Closed(old(files), Snapshot()) || Recoverable(old(files), Snapshot(), Clean(old(faults)))
      ensures old(journal).None? ==> Classified(old(files), Snapshot(), undone, Clean(old(faults)))
      ensures undone == Undoes(old(State()), sources, targets)
      ensures !ApplyFails(old(State()), sources, targets) || OnlyDies(old(faults)) ==> undone == {}
      ensures old(journal).None? && journal.Some? ==> SameUpToMarks(journal.value.records, RecordsOf(targets))
      ensures AllFine(old(faults)) ==>
        e == if old(journal).None? && AllReady(old(files), sources, targets) then Code(0) else Code(4)
    {
      UndoesOnlyAfterFailure(State(), sources, targets);
      if OnlyDies(faults) { OnlyDyingNeverFails(State(), sources, targets); }
      hide PrepareRun, DeployRun, Recoverable, DeployedTree, Ready, MarkTold, ApplyFails;
      undone := {};
      if journal.Some? { return Code(4); }
      var ok := Preflight(targets);
      if !ok { return Code(4); }
      var base := RecordsOf(targets);
      BaseRecords(files, sources, targets);
      var early := Prepare(base);
      if early.Some? { return early.value; }
      FreshRecoverable(files, Snapshot(), base, Clean(old(faults)));
      e := DeployAll(base, targets, files, Clean(old(faults)));
    }

    /** The loop over all targets, and the final mark. */
    method DeployEach(base: seq<Record>, targets: seq<Target>, ghost f0: Files, ghost strict: bool) returns (e: Exit)
      requires base == RecordsOf(targets) && DistinctDests(base) && files == f0 && undone == {}
      requires journal == Some(Journal(Unfinished, base)) && Recoverable(f0, Snapshot(), strict)
      requires AllBacked(backups, base) && (strict ==> Clean(faults)) && AllReady(f0, sources, targets)
      modifies this
      ensures (State(), e) == DeployRun(old(State()), sources, base, base, targets, 0)
      ensures Ended(f0, Snapshot(), base, undone, strict, e) && (AllFine(old(faults)) ==> e == Code(0))
    {
      hide Recoverable, Ended, AllBacked, BackupGood, Classified, DeployOneRun, AbortRun, FinishRun, Covers;
      var recs := base;
      for i := 0 to |base|
        invariant Inherits(old(faults), faults) && undone == {}
        invariant journal == Some(Journal(Unfinished, recs)) && Stage(recs, base, i) && AllWritten(recs, i)
        invariant Recoverable(f0, Snapshot(), strict) && Placed(f0, files, base, i) && AllBacked(backups, base)
        invariant DeployRun(old(State()), sources, base, base, targets, 0) ==
                  DeployRun(State(), sources, base, recs, targets, i)
      {
        assert Ready(f0, sources, targets[i]);
        ghost var before := files;
        var s, marked, next := DeployOne(base, recs, i, targets[i].src, f0, strict);
        if !s.Done? {
          StoppedClassified(f0, before, Snapshot(), base, recs, i, marked, strict);
          StoppedBacked(Snapshot(), base, recs, i, marked);
          CrashEnded(f0, Snapshot(), base, if marked then i + 1 else i, strict);
          if s.Died? { return Crashed; }
          e := Abort(base, if marked then i + 1 else i, f0, strict);
          return;
        }
        PlacedStep(f0, before, base, i);
        recs := next;
      }
      e := Finish(base, recs, f0, strict);
    }

    /** The write phase: nothing is undone unless one of its steps fails. */
    method DeployAll(base: seq<Record>, targets: seq<Target>, ghost f0: Files, ghost strict: bool) returns (e: Exit)
      requires base == RecordsOf(targets) && DistinctDests(base) && files == f0 && undone == {}
      requires journal == Some(Journal(Unfinished, base)) && Recoverable(f0, Snapshot(), strict)
      requires AllBacked(backups, base) && (strict ==> Clean(faults)) && AllReady(f0, sources, targets)
      modifies this
      ensures (State(), e) == DeployRun(old(State()), sources, base, base, targets, 0)
      ensures !WriteFails(old(State()), sources, base, base, targets, 0) || OnlyDies(old(faults)) ==> undone == {}
      ensures Ended(f0, Snapshot(), base, undone, strict, e) && (AllFine(old(faults)) ==> e == Code(0))
    {
      if OnlyDies(faults) { WriteOnlyDies(State(), sources, f0, base, base, targets, 0); }
      if !WriteFails(State(), sources, base, base, targets, 0) {
        WritingUndoesNothing(State(), sources, base, base, targets, 0);
      }
      hide Recoverable, Ended, AllBacked, DeployRun, WriteFails;
      e := DeployEach(base, targets, f0, strict);
    }

    /** A placement failed: roll back what was attempted. */
    method Abort(base: seq<Record>, n: nat, ghost f0: Files, ghost strict: bool) returns (e: Exit)
      requires n <= |base| && Recoverable(f0, Snapshot(), strict) && (strict ==> Clean(faults)) && undone == {}
      requires Stage(journal.value.records, base, n) && AllBacked(backups, base)
      requires SteadyBacked(backups, journal.value.records) && Classified(f0, Snapshot(), {}, strict)
      modifies this
      ensures (State(), e) == AbortRun(old(State()), base, n)
      ensures Ended(f0, Snapshot(), base, undone, strict, e) && e != Code(0)
    {
      hide Recoverable, Classified, RollbackRun, Covers;
      StageCovers(f0, Snapshot(), base, n, strict);
      var died := Rollback(base[..n], f0, strict);
      return if died then Crashed else Code(5);
    }

    /** Every target is written: the final mark, or roll everything back. */
    method Finish(base: seq<Record>, recs: seq<Record>, ghost f0: Files, ghost strict: bool) returns (e: Exit)
      requires DistinctDests(base) && undone == {} && AllBacked(backups, base) && (strict ==> Clean(faults))
      requires journal == Some(Journal(Unfinished, recs)) && Recoverable(f0, Snapshot(), strict)
      requires Stage(recs, base, |base|) && AllWritten(recs, |base|) && Placed(f0, files, base, |base|)
      modifies this
      ensures (State(), e) == FinishRun(old(State()), base, recs)
      ensures !SaveRun(old(State()), Journal(Deployed, recs)).1.Failed? ==> undone == {}
      ensures Ended(f0, Snapshot(), base, undone, strict, e) && (AllFine(old(faults)) ==> e == Code(0))
    {
      hide Recoverable, DeployedTree, Classified, AbortRun, AllBacked;
      AllPlacedDeployed(f0, Snapshot(), base, recs, strict);
      StageClassified(f0, Snapshot(), base, recs, |base|, strict);
      FullyBacked(backups, base, recs);
      var s := SaveJournal(Journal(Deployed, recs));
      StageClassified(f0, Snapshot(), base, recs, |base|, strict);
      if s.Died? { return Crashed; }
      if s.Failed? {
        e := Abort(base, |base|, f0, strict);
        return;
      }
      return Code(0);
    }

    // -------------------------------------------------------------------------
    // do_revert and do_verify
    // -------------------------------------------------------------------------

    /** Phase 1: which records to undo, and whether to refuse. Touches nothing. */
    method PlanRevert(j: Journal, force: bool) returns (refused: bool, acted: seq<Record>)
      requires journal == Some(j)
      ensures refused <==> Refused(Snapshot(), force)
      ensures acted == UndoList(Snapshot(), force)
    {
      hide Chosen, BackupBlocks, NotPost, ToUndo;
      var rs, d := j.records, Snapshot();
      var stateProblems, backupProblems := false, false;
      acted := [];
      NothingToUndo(d, force);
      for i := 0 to |rs|
        invariant acted == ToUndo(d, rs[..i], force)
        invariant stateProblems <==> exists k :: 0 <= k < i && NotPost(d, k)
        invariant backupProblems <==> exists k :: 0 <= k < i && BackupBlocks(d, k, force)
      {
        ToUndoStep(d, rs, i, force);
        if NotPost(d, i) { stateProblems := true; }
        if BackupBlocks(d, i, force) { backupProblems := true; }
        if Chosen(d, rs[i], force) { acted := acted + [rs[i]]; }
      }
      assert rs[..|rs|] == rs;
      refused := backupProblems || (j.phase.Deployed? && stateProblems && !force);
    }

    /** Phase 4: every target undone is where it should be. */
    method CheckUndone(acted: seq<Record>) returns (ok: bool)
      ensures ok <==> Verified(files, acted)
    {
      for i := 0 to |acted|
        invariant Verified(files, acted[..i])
      {
        if StateOf(files, acted[i]) != if acted[i].kind.Modified? then IsPre else IsMissing {
          return false;
        }
        assert acted[..i + 1] == acted[..i] + [acted[i]];
      }
      assert acted[..|acted|] == acted;
      return true;
    }

    /** do_revert, from any disk. 7 from phase 1 changes nothing; otherwise only chosen targets move,
        0 means all of them are restored, and the journal survives until then. */
    method DoRevert(force: bool) returns (e: Exit)
      requires journal.Some? ==> DistinctDests(journal.value.records)
      modifies this
      ensures (State(), e) == RevertRun(old(State()), force)
      ensures e == Code(0) || e == Code(7) || e == Crashed
      ensures old(journal).None? ==> e == Code(0) && Snapshot() == old(Snapshot())
      ensures old(journal).Some? && Refused(old(Snapshot()), force) ==> e == Code(7) && Snapshot() == old(Snapshot())
      ensures old(journal).Some? && !Refused(old(Snapshot()), force) ==>
        Reverted(old(Snapshot()), Snapshot(), force, Clean(old(faults)))
      ensures old(journal).Some? && !Refused(old(Snapshot()), force) && e == Code(0) ==>
        AllRestored(files, UndoList(old(Snapshot()), force)) && Verified(files, UndoList(old(Snapshot()), force))
      ensures old(journal).Some? && !Refused(old(Snapshot()), force) && e == Code(7) ==>
        journal == old(journal) && backups == old(backups)
      ensures old(journal).Some? && !Refused(old(Snapshot()), force) && AllFine(old(faults)) ==>
        AllRestored(files, UndoList(old(Snapshot()), force)) &&
        if AllChange(UndoList(old(Snapshot()), force)) then e == Code(0) && journal.None? && backups == map[]
        else e == Code(7)
    {
      hide UndoAllRun, CleanUpRun, Refused, Verified, AllRestored, Undone, Traced, AllChange, BackupGood;
      undone := {};
      if journal.None? { return Code(0); }
      var refused, acted := PlanRevert(journal.value, force);
      if refused { return Code(7); }
      ToUndoDistinct(Snapshot(), journal.value.records, force);
      ChosenBackups(Snapshot(), force);
      ghost var before := files;
      var s := UndoAll(acted, false);
      TracedUndone(before, files, acted, undone, Clean(old(faults)));
      if s.Died? { return Crashed; }
      var ok := CheckUndone(acted);
      if s.Done? { RestoredVerifiedExact(files, acted); }
      if !s.Done? || !ok { return Code(7); }
      var died := CleanUp();
      return if died then Crashed else Code(0);
    }

    /** do_verify: 0 or 6; it reads only. */
    method DoVerify() returns (code: int)
      ensures code == if SomeDiffers(Snapshot()) then 6 else 0
    {
      if journal.None? { return 0; }
      var bad := false;
      var rs := journal.value.records;
      for i := 0 to |rs|
        invariant bad <==> exists k :: 0 <= k < i && DiffersAt(Snapshot(), k)
      {
        if DiffersAt(Snapshot(), i) { bad := true; }
      }
      return if bad then 6 else 0;
    }
  }

  /** A target verify reports: not post, unless an unfinished transaction explains it. */
  predicate Differs(phase: Phase, cur: TargetState, r: Record) {
    && !(phase.Unfinished? && r.state.Pending?)
    && cur != IsPost
    && !(phase.Unfinished? && (cur == IsPre || (r.kind.Added? && cur == IsMissing)))
  }

  predicate SomeDiffers(d: Disk) {
    d.journal.Some? && exists i :: 0 <= i < |d.journal.value.records| && DiffersAt(d, i)
  }

  predicate DiffersAt(d: Disk, i: int)
    requires d.journal.Some? && 0 <= i < |d.journal.value.records|
  {
    var r := d.journal.value.records[i];
    Differs(d.journal.value.phase, StateOf(d.files, r), r)
  }

  lemma NothingToUndo(d: Disk, force: bool)
    requires d.journal.Some?
    ensures ToUndo(d, [], force) == []
  {
  }

  lemma ToUndoStep(d: Disk, rs: seq<Record>, i: int, force: bool)
    requires d.journal.Some? && 0 <= i < |rs|
    ensures ToUndo(d, rs[..i + 1], force)
         == if Chosen(d, rs[i], force) then ToUndo(d, rs[..i], force) + [rs[i]] else ToUndo(d, rs[..i], force)
  {
    hide Chosen;
    assert rs[..i + 1][..i] == rs[..i];
    assert ToUndo(d, rs[..i], force) + [] == ToUndo(d, rs[..i], force);
  }

  lemma ChosenBackups(d: Disk, force: bool)
    requires d.journal.Some? && !Refused(d, force)
    ensures forall i :: 0 <= i < |UndoList(d, force)| ==> BackupGood(d.backups, UndoList(d, force)[i])
  {
    var acted, rs := UndoList(d, force), d.journal.value.records;
    forall i | 0 <= i < |acted| ensures BackupGood(d.backups, acted[i]) {
      assert acted[i] in acted;
      var j :| 0 <= j < |rs| && rs[j] == acted[i];
      assert !BackupBlocks(d, j, force);
    }
  }

  // ---------------------------------------------------------------------------
  // Targets, stages, deployed trees
  // ---------------------------------------------------------------------------

  /** Distinct targets; modified ones have a pre content and added ones have none. */
  predicate Sane(targets: seq<Target>) {
    && (forall i, j :: 0 <= i < j < |targets| ==> targets[i].dest != targets[j].dest)
    && forall i :: 0 <= i < |targets| ==> (targets[i].kind.Modified? <==> targets[i].pre.Some?)
  }

  /** The target part of the preflight, on a record. */
  predicate Ready0(files: Files, r: Record) {
    if r.kind.Modified? then r.dest in files && r.pre == Some(files[r.dest]) else r.dest !in files
  }

  lemma BaseRecords(f0: Files, sources: Files, targets: seq<Target>)
    requires Sane(targets) && AllReady(f0, sources, targets)
    ensures var base := RecordsOf(targets);
      && DistinctDests(base)
      && forall i :: 0 <= i < |base| ==> Describes(f0, base[i]) && Ready0(f0, base[i])
  {
    var base := RecordsOf(targets);
    forall i | 0 <= i < |base| ensures Describes(f0, base[i]) && Ready0(f0, base[i]) {
      assert Ready(f0, sources, targets[i]);
    }
  }

  /** The first k records are past pending, the rest are not; nothing else differs from the base. */
  predicate Stage(rs: seq<Record>, base: seq<Record>, k: int) {
    && |rs| == |base|
    && forall j :: 0 <= j < |rs| ==> base[j].(state := rs[j].state) == rs[j] && (j < k <==> !rs[j].state.Pending?)
  }

  predicate AllWritten(rs: seq<Record>, k: int) {
    forall j :: 0 <= j < k && j < |rs| ==> rs[j].state == Written
  }

  /** The first k targets hold post; every other path is original. */
  ghost predicate Placed(f0: Files, files: Files, base: seq<Record>, k: int)
    requires 0 <= k <= |base|
  {
    && (forall j :: 0 <= j < k ==> base[j].dest in files && files[base[j].dest] == base[j].post)
    && forall p :: !IsDest(base[..k], p) ==> SameAt(files, f0, p)
  }

  /** A finished deployment over f0. */
  ghost predicate DeployedTree(f0: Files, d: Disk, base: seq<Record>) {
    && d.journal.Some? && d.journal.value.phase.Deployed?
    && Stage(d.journal.value.records, base, |base|) && AllWritten(d.journal.value.records, |base|)
    && Placed(f0, d.files, base, |base|)
    && AllBacked(d.backups, base) && forall i :: 0 <= i < |base| ==> Describes(f0, base[i])
  }

  lemma AllPlacedDeployed(f0: Files, d: Disk, base: seq<Record>, recs: seq<Record>, strict: bool)
    requires d.journal == Some(Journal(Unfinished, recs)) && Recoverable(f0, d, strict)
    requires Stage(recs, base, |base|) && AllWritten(recs, |base|) && Placed(f0, d.files, base, |base|)
    requires AllBacked(d.backups, base)
    ensures DeployedTree(f0, d.(journal := Some(Journal(Deployed, recs))), base)
  {
    forall i | 0 <= i < |base| ensures Describes(f0, base[i]) { assert Describes(f0, recs[i]); }
  }

  lemma PlacedStep(f0: Files, files: Files, base: seq<Record>, i: int)
    requires 0 <= i < |base| && DistinctDests(base) && Placed(f0, files, base, i)
    ensures Placed(f0, files[base[i].dest := base[i].post], base, i + 1)
  {
    var more, after := base[..i + 1], files[base[i].dest := base[i].post];
    assert more == base[..i] + [base[i]];
    forall p | !IsDest(more, p) ensures SameAt(after, f0, p) {
      NotDestOfParts(base[..i], base[i], p);
    }
  }

  lemma FreshRecoverable(f0: Files, d: Disk, base: seq<Record>, strict: bool)
    requires d.files == f0 && d.journal == Some(Journal(Unfinished, base)) && DistinctDests(base)
    requires forall i :: 0 <= i < |base| ==> Describes(f0, base[i])
    ensures Recoverable(f0, d, strict)
  {
  }

  lemma StageDests(rs: seq<Record>, base: seq<Record>, k: int)
    requires Stage(rs, base, k)
    ensures DistinctDests(rs) <==> DistinctDests(base)
    ensures forall p :: IsDest(rs, p) <==> IsDest(base, p)
  {
    forall p ensures IsDest(rs, p) <==> IsDest(base, p) {
      if IsDest(rs, p) {
        var j :| 0 <= j < |rs| && rs[j].dest == p;
        assert base[j].dest == p;
      }
      if IsDest(base, p) {
        var j :| 0 <= j < |base| && base[j].dest == p;
        assert rs[j].dest == p;
      }
    }
    if DistinctDests(base) {
      forall i, j | 0 <= i < j < |rs| ensures rs[i].dest != rs[j].dest { assert base[i].dest != base[j].dest; }
    }
    if DistinctDests(rs) {
      forall i, j | 0 <= i < j < |base| ensures base[i].dest != base[j].dest { assert rs[i].dest != rs[j].dest; }
    }
  }

  /** Marking a record as writing or written keeps the disk recoverable. */
  lemma MarkedRecoverable(f0: Files, d: Disk, base: seq<Record>, i: int, mark: Progress, strict: bool)
    requires Recoverable(f0, d, strict) && !mark.Pending? && AllBacked(d.backups, base)
    requires 0 <= i < |base| && (Stage(d.journal.value.records, base, i) || Stage(d.journal.value.records, base, i + 1))
    ensures var rs := d.journal.value.records;
      && Recoverable(f0, d.(journal := Some(Journal(Unfinished, Marked(rs, i, mark)))), strict)
      && Stage(Marked(rs, i, mark), base, i + 1)
  {
    var rs := d.journal.value.records;
    var marked := Marked(rs, i, mark);
    var e := d.(journal := Some(Journal(Unfinished, marked)));
    assert Stage(marked, base, i + 1);
    StageDests(rs, base, if Stage(rs, base, i) then i else i + 1);
    StageDests(marked, base, i + 1);
    forall j | 0 <= j < |marked| ensures Describes(f0, marked[j]) && Accounted(f0, e, marked[j], strict) {
      assert Describes(f0, rs[j]) && Accounted(f0, d, rs[j], strict);
    }
  }

  /** Changing the content of a marked target keeps the disk recoverable, strictly so when it is post. */
  lemma PlacedRecoverable(f0: Files, d: Disk, after: Files, base: seq<Record>, i: int, strict: bool)
    requires Recoverable(f0, d, strict) && 0 <= i < |base| && AllBacked(d.backups, base)
    requires Stage(d.journal.value.records, base, i + 1)
    requires var r := d.journal.value.records[i];
      && (forall p :: p != r.dest ==> SameAt(after, d.files, p))
      && (after == d.files || (strict ==> AtPost(after, base[i])))
    ensures Recoverable(f0, d.(files := after), strict)
  {
    var rs, e := d.journal.value.records, d.(files := after);
    forall j | 0 <= j < |rs| ensures Accounted(f0, e, rs[j], strict) {
      assert Describes(f0, rs[j]) && Accounted(f0, d, rs[j], strict);
      assert BackupGood(d.backups, base[j]) && base[j].(state := rs[j].state) == rs[j];
      if j != i {
        assert rs[j].dest != rs[i].dest;
        assert SameAt(after, d.files, rs[j].dest);
      }
    }
    forall p | !IsDest(rs, p) ensures SameAt(after, f0, p) {
      assert rs[i].dest != p;
      assert SameAt(after, d.files, p) && SameAt(d.files, f0, p);
    }
  }

  /** The attempted prefix names every touched target. */
  lemma StageCovers(f0: Files, d: Disk, base: seq<Record>, k: int, strict: bool)
    requires Recoverable(f0, d, strict) && 0 <= k <= |base| && Stage(d.journal.value.records, base, k)
    ensures Covers(f0, d, base[..k]) && DistinctDests(base[..k])
  {
    var rs := d.journal.value.records;
    StageDests(rs, base, k);
    forall j | 0 <= j < k ensures Touched(rs, base[..k][j]) {
      assert base[j].(state := rs[j].state) == rs[j] && !rs[j].state.Pending?;
    }
    forall i | 0 <= i < |rs| ensures SameAt(d.files, f0, rs[i].dest) || IsDest(base[..k], rs[i].dest) {
      assert Accounted(f0, d, rs[i], strict);
      if i < k { assert base[..k][i].dest == rs[i].dest; }
    }
  }

  // ---------------------------------------------------------------------------
  // Tracing what the undo steps write
  // ---------------------------------------------------------------------------

  /** One undo step: at most its own target moves, and only when the step is recorded. */
  ghost predicate Wrote(f: Files, g: Files, dest: string, before: set<string>, after: set<string>) {
    && (after == before || after == before + {dest})
    && (forall p :: p != dest ==> SameAt(g, f, p)) && (dest !in after ==> SameAt(g, f, dest))
  }

  /** The undo steps over rs: only recorded targets moved, and with untorn copies those are restored. */
  ghost predicate Traced(f: Files, g: Files, rs: seq<Record>, undone: set<string>, clean: bool) {
    && (forall p :: p in undone ==> IsDest(rs, p))
    && (forall p :: p !in undone ==> SameAt(g, f, p))
    && (clean ==> forall k :: 0 <= k < |rs| && rs[k].dest in undone ==> Restored(g, rs[k]))
  }

  lemma TracedFresh(f: Files, g: Files, rs: seq<Record>, i: int, undone: set<string>, clean: bool)
    requires 0 <= i < |rs| && DistinctDests(rs) && Traced(f, g, rs[..i], undone, clean)
    ensures rs[i].dest !in undone
  {
    assert rs[..i + 1] == rs[..i] + [rs[i]];
    NotAmong(rs[..i], rs[i]);
  }

  lemma TracedStep(
    f: Files, g: Files, h: Files, rs: seq<Record>, r: Record, marks: set<string>, undone: set<string>, clean: bool)
    requires DistinctDests(rs + [r]) && Traced(f, g, rs, marks, clean) && r.dest !in marks
    requires Wrote(g, h, r.dest, marks, undone) && (clean && r.dest in undone ==> Restored(h, r))
    ensures Traced(f, h, rs + [r], undone, clean)
  {
    var all := rs + [r];
    forall p | p in undone ensures IsDest(all, p) { NotDestOfParts(rs, r, p); }
    forall p | p !in undone ensures SameAt(h, f, p) { assert SameAt(g, f, p) && SameAt(h, g, p); }
    if clean {
      forall k | 0 <= k < |all| && all[k].dest in undone ensures Restored(h, all[k]) {
        if k < |rs| {
          assert all[k].dest != all[|rs|].dest;
          assert Restored(g, rs[k]) && SameAt(h, g, rs[k].dest);
        }
      }
    }
  }

  lemma TracedPrefix(f: Files, g: Files, rs: seq<Record>, n: nat, undone: set<string>, clean: bool)
    requires n <= |rs| && DistinctDests(rs) && Traced(f, g, rs[..n], undone, clean)
    ensures Traced(f, g, rs, undone, clean)
  {
    forall p | p in undone ensures IsDest(rs, p) { PrefixDest(rs, n, p); }
    if clean {
      forall k | 0 <= k < |rs| && rs[k].dest in undone ensures Restored(g, rs[k]) {
        assert IsDest(rs[..n], rs[k].dest);
        var j :| 0 <= j < n && rs[..n][j].dest == rs[k].dest;
        assert rs[j].dest == rs[k].dest;
        assert j == k && Restored(g, rs[..n][j]);
      }
    }
  }

  lemma TracedUndone(f: Files, g: Files, rs: seq<Record>, undone: set<string>, clean: bool)
    requires Traced(f, g, rs, undone, clean)
    ensures Undone(f, g, rs, clean)
  {
  }

  /** After the undo steps of a rollback the disk is still recoverable, and the marks still tell. */
  lemma RolledBack(
    f0: Files, d: Disk, after: Files, rs: seq<Record>, undone: set<string>, strict: bool, clean: bool)
    requires Recoverable(f0, d, strict) && Covers(f0, d, rs) && (strict ==> clean)
    requires AllBacked(d.backups, rs) && SteadyBacked(d.backups, d.journal.value.records)
    requires Classified(f0, d, {}, strict)
    requires Traced(d.files, after, rs, undone, clean)
    ensures Recoverable(f0, d.(files := after), strict) && Classified(f0, d.(files := after), undone, strict)
  {
    var records := d.journal.value.records;
    TracedUndone(d.files, after, rs, undone, clean);
    UndoneRecoverable(f0, d, after, rs, strict);
    forall i | 0 <= i < |records| ensures MarkTold(f0, after, records[i], undone, strict) {
      var r := records[i];
      assert MarkTold(f0, d.files, r, {}, strict) && Describes(f0, r);
      if r.dest in undone {
        var k :| 0 <= k < |rs| && rs[k].dest == r.dest;
        SameRecord(records, rs[k], i);
        if strict { RestoredIsOriginal(f0, after, r); }
      } else {
        assert SameAt(after, d.files, r.dest);
      }
    }
  }

  lemma CleanedUp(f0: Files, d: Disk, e: Disk, undone: set<string>, strict: bool)
    requires Recoverable(f0, d, strict) && e.files == f0 && (e.journal.None? || e.journal == d.journal)
    requires Classified(f0, Disk(f0, d.backups, d.journal), undone, strict)
    ensures Recoverable(f0, e, strict) || Closed(f0, e)
    ensures Classified(f0, e, undone, strict)
  {
    OriginalRecoverable(f0, d, e.backups, strict);
    assert e.journal == d.journal ==> e == Disk(f0, e.backups, d.journal);
  }

  /** Between two targets the marks tell: written ones are placed, pending ones untouched. */
  lemma StageClassified(f0: Files, d: Disk, base: seq<Record>, recs: seq<Record>, i: nat, strict: bool)
    requires d.journal.Some? && d.journal.value.records == recs && i <= |base| && DistinctDests(base)
    requires Stage(recs, base, i) && AllWritten(recs, i) && Placed(f0, d.files, base, i)
    ensures Classified(f0, d, {}, strict)
  {
    forall j | 0 <= j < |recs| ensures MarkTold(f0, d.files, recs[j], {}, strict) {
      assert base[j].(state := recs[j].state) == recs[j];
      if j >= i { Unplaced(base, i, j); }
    }
  }

  lemma Unplaced(base: seq<Record>, i: nat, j: int)
    requires DistinctDests(base) && i <= j < |base|
    ensures !IsDest(base[..i], base[j].dest)
  {
    forall k | 0 <= k < i ensures base[..i][k].dest != base[j].dest { assert base[k].dest != base[j].dest; }
  }

  /** The same when the placement of target i stopped half way. */
  lemma StoppedClassified(
    f0: Files, before: Files, d: Disk, base: seq<Record>, recs: seq<Record>, i: nat, marked: bool, strict: bool)
    requires i < |base| && DistinctDests(base) && Recoverable(f0, d, strict)
    requires Stage(recs, base, i) && AllWritten(recs, i) && Placed(f0, before, base, i)
    requires d.journal == Some(Journal(Unfinished, if marked then Marked(recs, i, Writing) else recs))
    requires (forall p :: p != base[i].dest ==> SameAt(d.files, before, p)) && (!marked ==> d.files == before)
    ensures Classified(f0, d, {}, strict)
  {
    var now := d.journal.value.records;
    forall j | 0 <= j < |now| ensures MarkTold(f0, d.files, now[j], {}, strict) {
      assert base[j].(state := recs[j].state) == recs[j];
      if j == i && marked {
        assert Accounted(f0, d, now[i], strict);
      } else {
        if j != i { assert base[j].dest != base[i].dest; }
        assert SameAt(d.files, before, base[j].dest);
        if j >= i {
          Unplaced(base, i, j);
          assert SameAt(before, f0, base[j].dest);
        }
      }
    }
  }

  lemma FullyBacked(backups: Files, base: seq<Record>, recs: seq<Record>)
    requires AllBacked(backups, base) && SameUpToMarks(recs, base)
    ensures SteadyBacked(backups, recs)
  {
    forall j | 0 <= j < |recs| ensures BackupGood(backups, recs[j]) { assert BackupGood(backups, base[j]); }
  }

  lemma StoppedBacked(d: Disk, base: seq<Record>, recs: seq<Record>, i: nat, marked: bool)
    requires i < |base| && Stage(recs, base, i) && AllBacked(d.backups, base)
    requires d.journal == Some(Journal(Unfinished, if marked then Marked(recs, i, Writing) else recs))
    ensures Stage(d.journal.value.records, base, if marked then i + 1 else i)
    ensures SteadyBacked(d.backups, d.journal.value.records)
  {
    FullyBacked(d.backups, base, d.journal.value.records);
  }

  /** How the write phase leaves the disk: deployed, or original, or recoverable with telling marks. */
  ghost predicate Ended(f0: Files, d: Disk, base: seq<Record>, undone: set<string>, strict: bool, e: Exit) {
    && (e == Code(0) || e == Code(5) || e == Crashed)
    && (e == Code(0) ==> DeployedTree(f0, d, base))
    && (e != Code(0) ==> Closed(f0, d) || Recoverable(f0, d, strict))
    && Classified(f0, d, undone, strict) && (d.journal.Some? ==> SameUpToMarks(d.journal.value.records, base))
  }

  /** The journal lists the planned records; only their marks have moved. */
  predicate SameUpToMarks(rs: seq<Record>, base: seq<Record>) {
    |rs| == |base| && forall j :: 0 <= j < |rs| ==> base[j].(state := rs[j].state) == rs[j]
  }

  lemma CrashEnded(f0: Files, d: Disk, base: seq<Record>, n: nat, strict: bool)
    requires Recoverable(f0, d, strict) && Classified(f0, d, {}, strict) && Stage(d.journal.value.records, base, n)
    ensures Ended(f0, d, base, {}, strict, Crashed)
  {
  }

  /** Every listed record has its verified backup. */
  predicate AllBacked(backups: Files, rs: seq<Record>) {
    forall i :: 0 <= i < |rs| ==> BackupGood(backups, rs[i])
  }

  lemma BackupStays(before: Files, after: Files, r: Record, dest: string)
    requires BackupGood(before, r) && forall p :: p != dest ==> SameAt(after, before, p)
    requires r.dest != dest
    ensures BackupGood(after, r)
  {
    assert SameAt(after, before, r.dest);
  }

  lemma NotDestOfParts(rs: seq<Record>, r: Record, p: string)
    ensures IsDest(rs + [r], p) <==> IsDest(rs, p) || p == r.dest
    ensures IsDest([r], p) <==> p == r.dest
  {
    var all := rs + [r];
    assert [r][0] == r && all[|rs|] == r;
    if IsDest(rs, p) {
      var k :| 0 <= k < |rs| && rs[k].dest == p;
      assert all[k].dest == p;
    }
    if IsDest(all, p) {
      var k :| 0 <= k < |all| && all[k].dest == p;
      if k < |rs| { assert rs[k].dest == p; }
    }
  }

  lemma PrefixDest(rs: seq<Record>, n: nat, p: string)
    requires n <= |rs|
    ensures IsDest(rs[..n], p) ==> IsDest(rs, p)
  {
    if IsDest(rs[..n], p) {
      var k :| 0 <= k < n && rs[..n][k].dest == p;
      assert rs[k].dest == p;
    }
  }

  lemma NotAmong(rs: seq<Record>, r: Record)
    requires DistinctDests(rs + [r])
    ensures !IsDest(rs, r.dest)
  {
    forall k | 0 <= k < |rs| ensures rs[k].dest != r.dest {
      assert (rs + [r])[k].dest != (rs + [r])[|rs|].dest;
    }
  }

  lemma RestoredStep(g: Files, h: Files, rs: seq<Record>, r: Record)
    requires DistinctDests(rs + [r]) && AllRestored(g, rs) && Restored(h, r)
    requires forall p :: p != r.dest ==> SameAt(h, g, p)
    ensures AllRestored(h, rs + [r])
  {
    forall i | 0 <= i < |rs| ensures Restored(h, rs[i]) {
      assert (rs + [r])[i].dest != (rs + [r])[|rs|].dest;
      assert SameAt(h, g, rs[i].dest);
    }
  }
}
