/** The deployment tool's disk, journal and records as values, and what a recoverable disk is. */
module PatchModel {
  import opened Basics

  /** File contents; a hash stands for the content it identifies. */
  type Content = string

  type Files = map<string, Content>

  datatype Kind = Modified | Added

  /** `Unmarked` is a record of the older format without a state field. */
  datatype Progress = Pending | Writing | Written | Unmarked

  datatype Record = Record(
    dest: string, kind: Kind, pre: Option<Content>, post: Content, hasBackup: bool, state: Progress)

  /** `Unfinished` is any journal state other than "deployed". */
  datatype Phase = Unfinished | Deployed

  datatype Journal = Journal(phase: Phase, records: seq<Record>)

  /** Target files and everything else in the tree; backups by target path; the journal. */
  datatype Disk = Disk(files: Files, backups: Files, journal: Option<Journal>)

  // ---------------------------------------------------------------------------
  // target_state, recovery_action, backup_problems_of
  // ---------------------------------------------------------------------------

  datatype TargetState = IsPost | IsPre | IsMissing | IsOther

  function StateOf(files: Files, r: Record): TargetState {
    if r.dest !in files then IsMissing
    else if files[r.dest] == r.post then IsPost
    else if r.kind.Modified? && r.pre == Some(files[r.dest]) then IsPre
    else IsOther
  }

  predicate Perturbed(r: Record, cur: TargetState) {
    cur != if r.kind.Modified? then IsPre else IsMissing
  }

  datatype Action = Skip | Undo | Preserve

  function RecoveryAction(r: Record, cur: TargetState, force: bool): Action {
    if r.state.Pending? then if Perturbed(r, cur) then Preserve else Skip
    else if cur == IsPost then Undo
    else if cur == IsPre || (r.kind.Added? && cur == IsMissing) then Skip
    else if force then Undo else Preserve
  }

  predicate BackupGood(backups: Files, r: Record) {
    r.kind.Modified? ==> r.hasBackup && r.dest in backups && r.pre == Some(backups[r.dest])
  }

  /** The target is back: the verified pre content, or gone when it was new. */
  predicate Restored(files: Files, r: Record) {
    if r.kind.Modified? then r.dest in files && r.pre == Some(files[r.dest]) else r.dest !in files
  }

  // ---------------------------------------------------------------------------
  // Comparing trees
  // ---------------------------------------------------------------------------

  predicate SameAt(f: Files, g: Files, p: string) {
    (p in f <==> p in g) && (p in f ==> f[p] == g[p])
  }

  lemma SameEverywhere(f: Files, g: Files)
    requires forall p :: SameAt(f, g, p)
    ensures f == g
  {
    assert f.Keys == g.Keys by {
      forall p ensures p in f <==> p in g { assert SameAt(f, g, p); }
    }
    forall p | p in f ensures f[p] == g[p] { assert SameAt(f, g, p); }
  }

  predicate DistinctDests(rs: seq<Record>) {
    forall i, j :: 0 <= i < j < |rs| ==> rs[i].dest != rs[j].dest
  }

  ghost predicate IsDest(rs: seq<Record>, p: string) {
    exists i :: 0 <= i < |rs| && rs[i].dest == p
  }

  // ---------------------------------------------------------------------------
  // Recoverability
  // ---------------------------------------------------------------------------

  /** The record tells the truth about the tree before the transaction. */
  predicate Describes(f0: Files, r: Record) {
    match r.kind
    case Modified => r.hasBackup && r.dest in f0 && r.pre == Some(f0[r.dest])
    case Added => r.dest !in f0
  }

  /** Deploying the record changes its target. */
  predicate Changes(r: Record) {
    r.kind.Modified? ==> r.pre != Some(r.post)
  }

  predicate AllChange(rs: seq<Record>) {
    forall i :: 0 <= i < |rs| ==> Changes(rs[i])
  }

  /** Touched targets that look deployed even when original still have their backups. */
  predicate SteadyBacked(backups: Files, rs: seq<Record>) {
    forall i :: 0 <= i < |rs| && !rs[i].state.Pending? && !Changes(rs[i]) ==> BackupGood(backups, rs[i])
  }

  /** The target is untouched, or marked as touched with what is needed to undo it. In the strict
      form a touched target holds exactly the deployed content. */
  predicate Accounted(f0: Files, d: Disk, r: Record, strict: bool) {
    || SameAt(d.files, f0, r.dest)
    || (&& !r.state.Pending? && BackupGood(d.backups, r)
        && (strict ==> r.dest in d.files && d.files[r.dest] == r.post))
  }

  /** An unfinished transaction over the tree f0 that the journal and backups can take back. */
  ghost predicate Recoverable(f0: Files, d: Disk, strict: bool) {
    && d.journal.Some? && d.journal.value.phase.Unfinished? && DistinctDests(d.journal.value.records)
    && (forall i :: 0 <= i < |d.journal.value.records| ==>
          Describes(f0, d.journal.value.records[i]) && Accounted(f0, d, d.journal.value.records[i], strict))
    && (d.files == f0 || SteadyBacked(d.backups, d.journal.value.records))
    && forall p :: !IsDest(d.journal.value.records, p) ==> SameAt(d.files, f0, p)
  }

  /** The transaction is over and the tree is the original one. */
  predicate Closed(f0: Files, d: Disk) {
    d.journal.None? && d.files == f0
  }

  /** Some of the listed targets were undone, nothing else moved; `clean` rules out torn content. */
  ghost predicate Undone(before: Files, after: Files, rs: seq<Record>, clean: bool) {
    && (forall p :: !IsDest(rs, p) ==> SameAt(after, before, p))
    && (clean ==> forall i :: 0 <= i < |rs| ==> SameAt(after, before, rs[i].dest) || Restored(after, rs[i]))
  }

  predicate AllRestored(files: Files, rs: seq<Record>) {
    forall i :: 0 <= i < |rs| ==> Restored(files, rs[i])
  }

  lemma RestoredIsOriginal(f0: Files, files: Files, r: Record)
    requires Describes(f0, r) && Restored(files, r)
    ensures SameAt(files, f0, r.dest)
  {
  }

  /** `acted` names only touched records and every touched record that still differs from f0. */
  ghost predicate Covers(f0: Files, d: Disk, acted: seq<Record>)
    requires d.journal.Some?
  {
    var rs := d.journal.value.records;
    && (forall k :: 0 <= k < |acted| ==> Touched(rs, acted[k]))
    && forall i :: 0 <= i < |rs| ==> SameAt(d.files, f0, rs[i].dest) || IsDest(acted, rs[i].dest)
  }

  /** The record is a touched one of the journal, up to its progress mark. */
  ghost predicate Touched(rs: seq<Record>, r: Record) {
    exists i :: 0 <= i < |rs| && !rs[i].state.Pending? && r.(state := rs[i].state) == rs[i]
  }

  /** Undoing any part of what is touched keeps the disk recoverable. */
  lemma UndoneRecoverable(f0: Files, d: Disk, after: Files, acted: seq<Record>, strict: bool)
    requires Recoverable(f0, d, strict)
    requires forall k :: 0 <= k < |acted| ==> Touched(d.journal.value.records, acted[k])
    requires forall k :: 0 <= k < |acted| ==> BackupGood(d.backups, acted[k])
    requires Undone(d.files, after, acted, strict) && SteadyBacked(d.backups, d.journal.value.records)
    ensures Recoverable(f0, d.(files := after), strict)
  {
    var rs, e := d.journal.value.records, d.(files := after);
    forall i | 0 <= i < |rs| ensures Accounted(f0, e, rs[i], strict) {
      assert Describes(f0, rs[i]) && Accounted(f0, d, rs[i], strict);
      if IsDest(acted, rs[i].dest) {
        var k :| 0 <= k < |acted| && acted[k].dest == rs[i].dest;
        SameRecord(rs, acted[k], i);
        if Restored(after, acted[k]) { RestoredIsOriginal(f0, after, rs[i]); }
      } else {
        assert SameAt(after, d.files, rs[i].dest);
      }
    }
    forall p | !IsDest(rs, p) ensures SameAt(after, f0, p) {
      ActedAreDests(rs, acted, p);
      assert SameAt(after, d.files, p) && SameAt(d.files, f0, p);
    }
  }

  lemma ActedAreDests(rs: seq<Record>, acted: seq<Record>, p: string)
    requires forall k :: 0 <= k < |acted| ==> Touched(rs, acted[k])
    ensures IsDest(acted, p) ==> IsDest(rs, p)
  {
    if IsDest(acted, p) {
      var k :| 0 <= k < |acted| && acted[k].dest == p;
      var i :| 0 <= i < |rs| && !rs[i].state.Pending? && acted[k].(state := rs[i].state) == rs[i];
      assert rs[i].dest == p;
    }
  }

  lemma SameRecord(rs: seq<Record>, r: Record, i: int)
    requires DistinctDests(rs) && Touched(rs, r) && 0 <= i < |rs| && r.dest == rs[i].dest
    ensures !rs[i].state.Pending? && r.(state := rs[i].state) == rs[i]
  {
    var j :| 0 <= j < |rs| && !rs[j].state.Pending? && r.(state := rs[j].state) == rs[j];
    assert rs[j].dest == rs[i].dest;
  }

  predicate AtPost(files: Files, r: Record) {
    r.dest in files && files[r.dest] == r.post
  }

  /** What a record's mark says about its target, when this run has undone the targets in `undone`:
      pending is untouched, writing is original or post, written is post until it is undone. */
  predicate MarkTold(f0: Files, files: Files, r: Record, undone: set<string>, strict: bool) {
    match r.state
    case Pending => SameAt(files, f0, r.dest)
    case Writing => strict ==> SameAt(files, f0, r.dest) || AtPost(files, r)
    case Written => if r.dest in undone then strict ==> SameAt(files, f0, r.dest) else AtPost(files, r)
    case Unmarked => false
  }

  ghost predicate Classified(f0: Files, d: Disk, undone: set<string>, strict: bool) {
    d.journal.Some? ==>
      forall i :: 0 <= i < |d.journal.value.records| ==>
        MarkTold(f0, d.files, d.journal.value.records[i], undone, strict)
  }

  /** Every target marked as written holds its post content. */
  predicate WrittenAtPost(d: Disk) {
    d.journal.Some? ==>
      forall i :: 0 <= i < |d.journal.value.records| && d.journal.value.records[i].state.Written? ==>
        AtPost(d.files, d.journal.value.records[i])
  }

  /** Record i is marked as written and undoing it made a difference. */
  predicate Unwritten(d: Disk, undone: set<string>, i: int)
    requires d.journal.Some? && 0 <= i < |d.journal.value.records|
  {
    var r := d.journal.value.records[i];
    r.state.Written? && r.dest in undone && Changes(r)
  }

  lemma WrittenExact(f0: Files, d: Disk, undone: set<string>)
    requires d.journal.Some? && Classified(f0, d, undone, true)
    requires forall i :: 0 <= i < |d.journal.value.records| ==> Describes(f0, d.journal.value.records[i])
    ensures WrittenAtPost(d) <==> forall i :: 0 <= i < |d.journal.value.records| ==> !Unwritten(d, undone, i)
  {
    forall i | 0 <= i < |d.journal.value.records| && d.journal.value.records[i].state.Written?
      ensures AtPost(d.files, d.journal.value.records[i]) <==> !Unwritten(d, undone, i)
    {
      assert MarkTold(f0, d.files, d.journal.value.records[i], undone, true);
    }
  }

  /** Once everything touched is restored the tree is the original one. */
  lemma AllRestoredOriginal(f0: Files, d: Disk, after: Files, acted: seq<Record>, strict: bool, clean: bool)
    requires Recoverable(f0, d, strict) && Covers(f0, d, acted)
    requires Undone(d.files, after, acted, clean) && AllRestored(after, acted)
    ensures after == f0
  {
    var rs := d.journal.value.records;
    forall p ensures SameAt(after, f0, p) {
      if IsDest(acted, p) {
        var k :| 0 <= k < |acted| && acted[k].dest == p;
        ActedAreDests(rs, acted, p);
        var i :| 0 <= i < |rs| && rs[i].dest == p;
        SameRecord(rs, acted[k], i);
        assert Describes(f0, rs[i]) && Restored(after, acted[k]);
        RestoredIsOriginal(f0, after, rs[i]);
      } else {
        assert SameAt(after, d.files, p);
        if IsDest(rs, p) {
          var i :| 0 <= i < |rs| && rs[i].dest == p;
        }
      }
    }
    SameEverywhere(after, f0);
  }

  /** An original tree stays recoverable whatever happens to the backups. */
  lemma OriginalRecoverable(f0: Files, d: Disk, backups: Files, strict: bool)
    requires Recoverable(f0, d, strict)
    ensures Recoverable(f0, Disk(f0, backups, d.journal), true) && Recoverable(f0, Disk(f0, backups, d.journal), false)
  {
    var rs := d.journal.value.records;
    forall i | 0 <= i < |rs| ensures Describes(f0, rs[i]) { }
  }

  // ---------------------------------------------------------------------------
  // What a revert does, judged from the disk before and after
  // ---------------------------------------------------------------------------

  /** The records a revert sets out to undo. */
  predicate Chosen(d: Disk, r: Record, force: bool)
    requires d.journal.Some?
  {
    d.journal.value.phase.Deployed? || RecoveryAction(r, StateOf(d.files, r), force) == Undo
  }

  function ToUndo(d: Disk, rs: seq<Record>, force: bool): (r: seq<Record>)
    requires d.journal.Some?
    ensures forall x :: x in r <==> x in rs && Chosen(d, x, force)
  {
    if rs == [] then []
    else
      var n := |rs| - 1;
      ToUndo(d, rs[..n], force) + if Chosen(d, rs[n], force) then [rs[n]] else []
  }

  function UndoList(d: Disk, force: bool): seq<Record>
    requires d.journal.Some?
  {
    ToUndo(d, d.journal.value.records, force)
  }

  /** Phase 1 refuses: a bad backup always, a changed target of a finished deployment unless forced. */
  predicate Refused(d: Disk, force: bool)
    requires d.journal.Some?
  {
    var n := |d.journal.value.records|;
    || (exists i :: 0 <= i < n && BackupBlocks(d, i, force))
    || (d.journal.value.phase.Deployed? && !force && exists i :: 0 <= i < n && NotPost(d, i))
  }

  /** Record i is to be undone but its backup is missing or wrong. */
  predicate BackupBlocks(d: Disk, i: int, force: bool)
    requires d.journal.Some? && 0 <= i < |d.journal.value.records|
  {
    Chosen(d, d.journal.value.records[i], force) && !BackupGood(d.backups, d.journal.value.records[i])
  }

  predicate NotPost(d: Disk, i: int)
    requires d.journal.Some? && 0 <= i < |d.journal.value.records|
  {
    StateOf(d.files, d.journal.value.records[i]) != IsPost
  }

  /** The final check: modified targets at pre, added ones gone. */
  predicate Verified(files: Files, rs: seq<Record>) {
    forall i :: 0 <= i < |rs| ==>
      StateOf(files, rs[i]) == if rs[i].kind.Modified? then IsPre else IsMissing
  }

  /** Restored targets pass the final check exactly when deploying them changes something. */
  lemma RestoredVerifiedExact(files: Files, rs: seq<Record>)
    requires AllRestored(files, rs)
    ensures Verified(files, rs) <==> AllChange(rs)
  {
    forall i | 0 <= i < |rs|
      ensures Changes(rs[i]) <==> StateOf(files, rs[i]) == if rs[i].kind.Modified? then IsPre else IsMissing
    {
      assert Restored(files, rs[i]);
    }
  }

  /** A revert that was not refused: only chosen targets move; backups and journal go only after
      every chosen target is restored and verified. */
  ghost predicate Reverted(before: Disk, after: Disk, force: bool, clean: bool)
    requires before.journal.Some?
  {
    var acted := UndoList(before, force);
    && Undone(before.files, after.files, acted, clean)
    && (after.journal == before.journal || after.journal.None?)
    && (after.journal.None? || after.backups != before.backups ==>
          AllRestored(after.files, acted) && Verified(after.files, acted))
  }

  lemma {:induction false} ToUndoDistinct(d: Disk, rs: seq<Record>, force: bool)
    requires d.journal.Some? && DistinctDests(rs)
    ensures DistinctDests(ToUndo(d, rs, force))
  {
    if rs != [] {
      var n := |rs| - 1;
      var short := ToUndo(d, rs[..n], force);
      ToUndoDistinct(d, rs[..n], force);
      forall i | 0 <= i < |short| ensures short[i].dest != rs[n].dest {
        assert short[i] in short;
        var j :| 0 <= j < n && rs[..n][j] == short[i];
        assert rs[j].dest != rs[n].dest;
      }
    }
  }
}
