/** apply, revert and verify on the maps themselves: which targets are accepted, and what each exit means. */
module PatchLaws {
  import opened Basics
  import opened PatchModel
  import opened PatchSteps
  import opened PatchTool

  // ---------------------------------------------------------------------------
  // apply
  // ---------------------------------------------------------------------------

  /** A deployment as it stands on the disk: every target holds its new content and nothing else moved,
      the journal lists the targets in order as written, and the old content of what was overwritten is
      in the backups. */
  ghost predicate Deployed(f0: Files, d: Disk, targets: seq<Target>) {
    && (forall t :: t in targets ==> t.dest in d.files && d.files[t.dest] == t.post)
    && (forall p :: (forall t :: t in targets ==> t.dest != p) ==>
          (p in d.files <==> p in f0) && (p in f0 && p in d.files ==> d.files[p] == f0[p]))
    && (forall t :: t in targets && t.kind == Modified ==>
          t.dest in f0 && t.dest in d.backups && d.backups[t.dest] == f0[t.dest])
    && d.journal.Some? && d.journal.value.phase == PatchModel.Deployed
    && |d.journal.value.records| == |targets|
    && forall i :: 0 <= i < |targets| ==>
         var t := targets[i];
         d.journal.value.records[i] == Record(t.dest, t.kind, t.pre, t.post, t.kind == Modified, Written)
  }

  /** A fault-free apply deploys if and only if every source is there and holds the announced content,
      every file to be replaced is there and holds the expected content, and no file to be added is there.
      Otherwise, under any schedule, it refuses and nothing at all has changed. */
  method Applies(m: Machine, targets: seq<Target>) returns (e: Exit)
    requires forall i, j :: 0 <= i < j < |targets| ==> targets[i].dest != targets[j].dest
    requires forall t :: t in targets ==> (t.kind == Modified <==> t.pre.Some?)
    requires m.journal.None?
    modifies m
    ensures old(
      exists t :: t in targets &&
        (|| t.src !in m.sources || m.sources[t.src] != t.post
         || (t.kind == Modified && (t.dest !in m.files || Some(m.files[t.dest]) != t.pre))
         || (t.kind == Added && t.dest in m.files))) ==>
      e == Code(4) && m.Snapshot() == old(m.Snapshot())
    ensures old(
      (forall i :: 0 <= i < |m.faults| ==> m.faults[i] == Fine) &&
      forall t :: t in targets ==>
        && t.src in m.sources && m.sources[t.src] == t.post
        && (t.kind == Modified ==> t.dest in m.files && t.pre == Some(m.files[t.dest]))
        && (t.kind == Added ==> t.dest !in m.files)) ==>
      e == Code(0)
    ensures e == Code(0) ==> Deployed(old(m.files), m.Snapshot(), targets)
  {
    ghost var f0, sources := m.files, m.sources;
    forall i | 0 <= i < |targets| ensures targets[i].kind.Modified? <==> targets[i].pre.Some? {
      assert targets[i] in targets;
    }
    if !AllReady(m.files, m.sources, targets) {
      assert ApplyRun(m.State(), sources, targets) == (m.State().Started(), Code(4));
    }
    e := m.DoApply(targets);
    if e == Code(0) { DeployedSpelled(f0, m.Snapshot(), targets); }
  }

  lemma DeployedSpelled(f0: Files, d: Disk, targets: seq<Target>)
    requires DeployedTree(f0, d, RecordsOf(targets))
    ensures Deployed(f0, d, targets)
  {
    var base, rs := RecordsOf(targets), d.journal.value.records;
    assert base[..|base|] == base;
    forall i | 0 <= i < |targets| ensures TargetDeployed(f0, d, targets[i]) && rs[i] == base[i].(state := Written) {
      assert base[i] == RecordOf(targets[i]) && base[i].(state := rs[i].state) == rs[i];
      assert Describes(f0, base[i]) && BackupGood(d.backups, base[i]);
    }
    forall t | t in targets ensures TargetDeployed(f0, d, t) { }
    forall p | forall t :: t in targets ==> t.dest != p
      ensures (p in d.files <==> p in f0) && (p in f0 && p in d.files ==> d.files[p] == f0[p]) {
      forall i | 0 <= i < |base| ensures base[i].dest != p { assert targets[i] in targets; }
      assert SameAt(d.files, f0, p);
    }
    forall i | 0 <= i < |targets|
      ensures rs[i] == Record(targets[i].dest, targets[i].kind, targets[i].pre, targets[i].post,
                              targets[i].kind == Modified, Written) {
      assert rs[i] == base[i].(state := Written);
    }
  }

  predicate TargetDeployed(f0: Files, d: Disk, t: Target) {
    && t.dest in d.files && d.files[t.dest] == t.post
    && (t.kind == Modified ==> t.dest in f0 && t.dest in d.backups && d.backups[t.dest] == f0[t.dest])
  }

  // ---------------------------------------------------------------------------
  // verify
  // ---------------------------------------------------------------------------

  /** The target holds neither its new content nor, before the deployment is finished, its original state;
      an untouched target of an unfinished deployment is nobody's business. */
  predicate Wrong(files: Files, phase: Phase, r: Record) {
    && !(r.dest in files && files[r.dest] == r.post)
    && (phase == PatchModel.Deployed ||
        (&& r.state != Pending
         && !(r.kind == Modified && r.dest in files && Some(files[r.dest]) == r.pre)
         && !(r.kind == Added && r.dest !in files)))
  }

  /** verify reports exactly the disks on which some recorded target is wrong. */
  method Verifies(m: Machine) returns (code: int)
    ensures m.journal.None? ==> code == 0
    ensures m.journal.Some? ==>
      code == if exists r :: r in m.journal.value.records && Wrong(m.files, m.journal.value.phase, r) then 6 else 0
  {
    code := m.DoVerify();
    if m.journal.Some? { VerdictSpelled(m.Snapshot()); }
  }

  lemma VerdictSpelled(d: Disk)
    requires d.journal.Some?
    ensures SomeDiffers(d) <==>
      exists r :: r in d.journal.value.records && Wrong(d.files, d.journal.value.phase, r)
  {
    var rs := d.journal.value.records;
    forall i | 0 <= i < |rs|
      ensures rs[i] in rs && (DiffersAt(d, i) <==> Wrong(d.files, d.journal.value.phase, rs[i]))
    {
    }
    if r :| r in rs && Wrong(d.files, d.journal.value.phase, r) {
      var i :| 0 <= i < |rs| && rs[i] == r;
      assert DiffersAt(d, i);
    }
  }

  // ---------------------------------------------------------------------------
  // revert
  // ---------------------------------------------------------------------------

  /** Whether a revert sets out to undo the record: always after a finished deployment; otherwise when the
      target was touched and holds the new content, or with force anything but its original state. */
  ghost predicate ToBeUndone(files: Files, phase: Phase, r: Record, force: bool) {
    || phase == PatchModel.Deployed
    || (&& r.state != Pending
        && (|| (r.dest in files && files[r.dest] == r.post)
            || (&& force
                && !(r.kind == Modified && r.dest in files && Some(files[r.dest]) == r.pre)
                && !(r.kind == Added && r.dest !in files))))
  }

  /** Refused: a replaced file to be undone has no intact backup, or an unforced revert of a finished
      deployment finds a target that no longer holds its new content. */
  ghost predicate RevertRefused(d: Disk, force: bool)
    requires d.journal.Some?
  {
    var phase, rs := d.journal.value.phase, d.journal.value.records;
    || (exists r :: r in rs && ToBeUndone(d.files, phase, r, force) && r.kind == Modified &&
          !(r.hasBackup && r.dest in d.backups && r.pre == Some(d.backups[r.dest])))
    || (phase == PatchModel.Deployed && !force &&
          exists r :: r in rs && !(r.dest in d.files && d.files[r.dest] == r.post))
  }

  /** Every record to be undone is back at its old content, or gone if it was new; no other path moved. */
  ghost predicate Undid(before: Disk, after: Files, force: bool)
    requires before.journal.Some?
  {
    var phase, rs := before.journal.value.phase, before.journal.value.records;
    && (forall r :: r in rs && ToBeUndone(before.files, phase, r, force) ==>
          if r.kind == Modified then r.dest in after && Some(after[r.dest]) == r.pre else r.dest !in after)
    && forall p :: (forall r :: r in rs && ToBeUndone(before.files, phase, r, force) ==> r.dest != p) ==>
         (p in after <==> p in before.files) && (p in after && p in before.files ==> after[p] == before.files[p])
  }

  /** A revert refuses exactly so, and then changes nothing. A fault-free one that is not refused undoes
      exactly what it set out to undo, and ends the transaction unless replacing some file had not changed it. */
  method Reverts(m: Machine, force: bool) returns (e: Exit)
    requires m.journal.Some?
    requires forall i, j :: 0 <= i < j < |m.journal.value.records| ==>
      m.journal.value.records[i].dest != m.journal.value.records[j].dest
    modifies m
    ensures old(RevertRefused(m.Snapshot(), force)) ==> e == Code(7) && m.Snapshot() == old(m.Snapshot())
    ensures old(!RevertRefused(m.Snapshot(), force) && forall i :: 0 <= i < |m.faults| ==> m.faults[i] == Fine) ==>
      && Undid(old(m.Snapshot()), m.files, force)
      && if old(exists r :: r in m.journal.value.records && r.kind == Modified && r.pre == Some(r.post) &&
                  ToBeUndone(m.files, m.journal.value.phase, r, force))
         then e == Code(7) && m.journal == old(m.journal) && m.backups == old(m.backups)
         else e == Code(0) && m.journal == None && m.backups == map[]
  {
    ghost var d := m.Snapshot();
    RefusalSpelled(d, force);
    ClosingSpelled(d, force);
    e := m.DoRevert(force);
    if !Refused(d, force) && AllRestored(m.files, UndoList(d, force)) {
      UndidSpelled(d, m.Snapshot(), force, Clean(old(m.faults)));
    }
  }

  lemma ChosenSpelled(d: Disk, r: Record, force: bool)
    requires d.journal.Some?
    ensures Chosen(d, r, force) <==> ToBeUndone(d.files, d.journal.value.phase, r, force)
  {
  }

  lemma RefusalSpelled(d: Disk, force: bool)
    requires d.journal.Some?
    ensures Refused(d, force) <==> RevertRefused(d, force)
  {
    hide Chosen, ToBeUndone, StateOf;
    var phase, rs := d.journal.value.phase, d.journal.value.records;
    forall i | 0 <= i < |rs|
      ensures rs[i] in rs && (NotPost(d, i) <==> !(rs[i].dest in d.files && d.files[rs[i].dest] == rs[i].post))
      ensures Chosen(d, rs[i], force) <==> ToBeUndone(d.files, phase, rs[i], force)
    {
      PostSpelled(d.files, rs[i]);
      ChosenSpelled(d, rs[i], force);
    }
    if RevertRefused(d, force) {
      if r :| r in rs && ToBeUndone(d.files, phase, r, force) && r.kind == Modified && !BackupGood(d.backups, r) {
        var i :| 0 <= i < |rs| && rs[i] == r;
        assert BackupBlocks(d, i, force);
      } else {
        var r :| r in rs && !(r.dest in d.files && d.files[r.dest] == r.post);
        var i :| 0 <= i < |rs| && rs[i] == r;
        assert NotPost(d, i);
      }
    }
    if i :| 0 <= i < |rs| && BackupBlocks(d, i, force) { assert RevertRefused(d, force); }
  }

  lemma PostSpelled(files: Files, r: Record)
    ensures StateOf(files, r) == IsPost <==> r.dest in files && files[r.dest] == r.post
  {
  }

  lemma ClosingSpelled(d: Disk, force: bool)
    requires d.journal.Some?
    ensures var phase, rs := d.journal.value.phase, d.journal.value.records;
      !AllChange(UndoList(d, force)) <==>
      exists r :: r in rs && r.kind == Modified && r.pre == Some(r.post) && ToBeUndone(d.files, phase, r, force)
  {
    hide Chosen, ToBeUndone;
    var rs, acted := d.journal.value.records, UndoList(d, force);
    forall r | r in rs ensures r in acted <==> ToBeUndone(d.files, d.journal.value.phase, r, force) {
      ChosenSpelled(d, r, force);
    }
    forall r | r in acted ensures r in rs { }
    if !AllChange(acted) {
      var k :| 0 <= k < |acted| && !Changes(acted[k]);
      assert acted[k] in acted;
    }
    if r :| r in rs && !Changes(r) && r in acted {
      var k :| 0 <= k < |acted| && acted[k] == r;
      assert !Changes(acted[k]);
    }
  }

  lemma UndidSpelled(d: Disk, after: Disk, force: bool, clean: bool)
    requires d.journal.Some? && Reverted(d, after, force, clean) && AllRestored(after.files, UndoList(d, force))
    ensures Undid(d, after.files, force)
  {
    hide Chosen, ToBeUndone;
    var rs, acted := d.journal.value.records, UndoList(d, force);
    forall r | r in rs ensures r in acted <==> ToBeUndone(d.files, d.journal.value.phase, r, force) {
      ChosenSpelled(d, r, force);
    }
    forall r | r in acted ensures r in rs && Restored(after.files, r) {
      var k :| 0 <= k < |acted| && acted[k] == r;
    }
    forall p | forall r :: r in rs && ToBeUndone(d.files, d.journal.value.phase, r, force) ==> r.dest != p
      ensures p in after.files <==> p in d.files
      ensures p in after.files && p in d.files ==> after.files[p] == d.files[p] {
      forall k | 0 <= k < |acted| ensures acted[k].dest != p { assert acted[k] in acted; }
      assert SameAt(after.files, d.files, p);
    }
  }

  // ---------------------------------------------------------------------------
  // A file that comes and goes
  // ---------------------------------------------------------------------------

  const NEW_FILE := Target("new.py", "s", Added, None, "x")

  /** The disk once the new file is there. */
  predicate NewFileThere(d: Disk) {
    && d.files == map["new.py" := "x"]
    && d.journal == Some(Journal(PatchModel.Deployed, [Record("new.py", Added, None, "x", false, Written)]))
  }

  lemma NewFileAlone(d: Disk)
    requires Deployed(map[], d, [NEW_FILE])
    ensures NewFileThere(d)
  {
    assert NEW_FILE in [NEW_FILE];
    assert d.journal.value.records == [Record("new.py", Added, None, "x", false, Written)];
    assert d.files == map["new.py" := "x"];
  }

  lemma NewFileReverts(d: Disk)
    requires NewFileThere(d)
    ensures !RevertRefused(d, false) && !Wrong(d.files, PatchModel.Deployed, d.journal.value.records[0])
    ensures forall after: Files :: Undid(d, after, false) ==> after == map[]
  {
    var r := d.journal.value.records[0];
    assert r in d.journal.value.records && ToBeUndone(d.files, PatchModel.Deployed, r, false);
    forall after: Files | Undid(d, after, false) ensures after == map[] {
      forall p ensures p !in after { }
    }
  }

  /** Deploying one new file into an empty tree, verifying it, and taking it back. */
  method NewFileComesAndGoes() returns (m: Machine, applied: Exit, code: int, reverted: Exit)
    ensures applied == Code(0) && code == 0 && reverted == Code(0)
    ensures m.files == map[] && m.backups == map[] && m.journal == None
  {
    hide Deployed, Undid, ToBeUndone, RevertRefused;
    m := new Machine(map["s" := "x"], map[], map[], None, []);
    applied := Applies(m, [NEW_FILE]);
    NewFileAlone(m.Snapshot());
    NewFileReverts(m.Snapshot());
    code := Verifies(m);
    m.faults := [];
    reverted := Reverts(m, false);
  }
}
