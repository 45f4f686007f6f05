/** Disk steps and the tool's runs as functions of the disk and a schedule of outcomes. */
module PatchSteps {
  import opened Basics
  import opened PatchModel

  /** What the environment does to the next disk step. A failed or interrupted step may leave `torn`
      content where a plain copy was under way, or only the backups in `kept` where a directory
      was being removed; `Garbled` steps report success but wrote something else. */
  datatype Outcome =
    | Fine
    | Garbled(content: Content)
    | Bad(dies: bool, torn: Option<Content>, kept: set<string>)

  /** How a step or a procedure ended: done, failed with an I/O error, or the process is gone. */
  datatype Status = Done | Failed | Died

  /** Exit code of a run, or the process ended in the middle. */
  datatype Exit = Code(n: int) | Crashed

  /** No step writes anything but what it was asked to write. */
  predicate Clean(faults: seq<Outcome>) {
    forall i :: 0 <= i < |faults| ==> !faults[i].Garbled? && (faults[i].Bad? ==> faults[i].torn.None?)
  }

  predicate AllFine(faults: seq<Outcome>) {
    forall i :: 0 <= i < |faults| ==> faults[i].Fine?
  }

  /** Later steps inherit what the schedule promises. */
  predicate Inherits(before: seq<Outcome>, after: seq<Outcome>) {
    (Clean(before) ==> Clean(after)) && (AllFine(before) ==> AllFine(after))
  }

  function StatusOf(o: Outcome): Status {
    match o
    case Fine => Done
    case Garbled(_) => Done
    case Bad(dies, _, _) => if dies then Died else Failed
  }

  // ---------------------------------------------------------------------------
  // Single steps
  // ---------------------------------------------------------------------------

  /** The disk, the outcomes still to come, and the targets an undo step of the current run has written
      to. Steps past the end of the schedule are fine. */
  datatype World = World(disk: Disk, faults: seq<Outcome>, undone: set<string>) {
    function Next(): Outcome { if faults == [] then Fine else faults[0] }

    function Spent(): World { World(disk, if faults == [] then [] else faults[1..], undone) }

    function Files(f: Files): World { World(Disk(f, disk.backups, disk.journal), faults, undone) }

    function Backups(b: Files): World { World(Disk(disk.files, b, disk.journal), faults, undone) }

    function Saved(j: Option<Journal>): World { World(Disk(disk.files, disk.backups, j), faults, undone) }

    function Wrote(dest: string): World { World(disk, faults, undone + {dest}) }

    /** A new run has undone nothing yet. */
    function Started(): World { World(disk, faults, {}) }
  }

  function TouchRun(w: World): (World, Status) {
    (w.Spent(), StatusOf(w.Next()))
  }

  function SaveRun(w: World, j: Journal): (World, Status) {
    var s := StatusOf(w.Next());
    (if s.Done? then w.Spent().Saved(Some(j)) else w.Spent(), s)
  }

  function ReplaceRun(w: World, sources: Files, src: string, dest: string): (World, Status) {
    match w.Next()
    case Fine =>
      if src in sources then (w.Spent().Files(w.disk.files[dest := sources[src]]), Done) else (w.Spent(), Failed)
    case Garbled(c) => (w.Spent().Files(w.disk.files[dest := c]), Done)
    case Bad(_, _, _) => (w.Spent(), StatusOf(w.Next()))
  }

  function CopyOutRun(w: World, dest: string): (World, Status) {
    match w.Next()
    case Fine =>
      if dest in w.disk.files then (w.Spent().Backups(w.disk.backups[dest := w.disk.files[dest]]), Done)
      else (w.Spent(), Failed)
    case Garbled(c) => (w.Spent().Backups(w.disk.backups[dest := c]), Done)
    case Bad(_, torn, _) =>
      (if torn.Some? then w.Spent().Backups(w.disk.backups[dest := torn.value]) else w.Spent(), StatusOf(w.Next()))
  }

  function CopyBackRun(w: World, dest: string): (World, Status)
    requires dest in w.disk.backups
  {
    match w.Next()
    case Fine => (w.Spent().Files(w.disk.files[dest := w.disk.backups[dest]]).Wrote(dest), Done)
    case Garbled(c) => (w.Spent().Files(w.disk.files[dest := c]).Wrote(dest), Done)
    case Bad(_, torn, _) =>
      (if torn.Some? then w.Spent().Files(w.disk.files[dest := torn.value]).Wrote(dest) else w.Spent(),
       StatusOf(w.Next()))
  }

  function UnlinkRun(w: World, dest: string): (World, Status) {
    var s := StatusOf(w.Next());
    (if s.Done? then w.Spent().Files(w.disk.files - {dest}).Wrote(dest) else w.Spent(), s)
  }

  /** True when the process died. */
  function RemoveRun(w: World): (World, bool) {
    var o := w.Next();
    (w.Spent().Backups(if o.Bad? then Kept(w.disk.backups, o.kept) else map[]), StatusOf(o).Died?)
  }

  function Kept(backups: Files, kept: set<string>): Files {
    map p | p in backups && p in kept :: backups[p]
  }

  function DiscardRun(w: World): (World, bool) {
    var s := StatusOf(w.Next());
    (if s.Done? then w.Spent().Saved(None) else w.Spent(), s.Died?)
  }

  // ---------------------------------------------------------------------------
  // undo_record, _rollback, do_revert
  // ---------------------------------------------------------------------------

  function UndoRun(w: World, r: Record): (World, Status) {
    if r.kind.Modified? then
      if !BackupGood(w.disk.backups, r) then (w, Failed)
      else
        var (w1, s1) := TouchRun(w);
        if !s1.Done? then (w1, s1)
        else
          var (w2, s2) := CopyBackRun(w1, r.dest);
          (w2, if s2.Done? && !Restored(w2.disk.files, r) then Failed else s2)
    else if r.dest in w.disk.files then UnlinkRun(w, r.dest)
    else (w, Done)
  }

  /** From record i on; `failed` says whether an earlier record failed. */
  function UndoAllRun(w: World, rs: seq<Record>, i: nat, skipPre: bool, failed: bool): (World, Status)
    requires i <= |rs|
    decreases |rs| - i
  {
    if i == |rs| then (w, if failed then Failed else Done)
    else if skipPre && rs[i].kind.Modified? && StateOf(w.disk.files, rs[i]) == IsPre then
      UndoAllRun(w, rs, i + 1, skipPre, failed)
    else
      var (w1, s) := UndoRun(w, rs[i]);
      if s.Died? then (w1, Died) else UndoAllRun(w1, rs, i + 1, skipPre, failed || s.Failed?)
  }

  /** Remove the backups, then the journal. */
  function CleanUpRun(w: World): (World, bool) {
    var (w1, died) := RemoveRun(w);
    if died then (w1, true) else DiscardRun(w1)
  }

  function RollbackRun(w: World, rs: seq<Record>): (World, bool) {
    var (w1, s) := UndoAllRun(w, rs, 0, true, false);
    if !s.Done? then (w1, s.Died?) else CleanUpRun(w1)
  }

  function RevertRun(before: World, force: bool): (World, Exit) {
    var w := before.Started();
    if w.disk.journal.None? then (w, Code(0))
    else if Refused(w.disk, force) then (w, Code(7))
    else
      var acted := UndoList(w.disk, force);
      var (w1, s) := UndoAllRun(w, acted, 0, false, false);
      if s.Died? then (w1, Crashed)
      else if !s.Done? || !Verified(w1.disk.files, acted) then (w1, Code(7))
      else
        var (w2, died) := CleanUpRun(w1);
        (w2, if died then Crashed else Code(0))
  }

  // ---------------------------------------------------------------------------
  // do_apply
  // ---------------------------------------------------------------------------

  datatype Target = Target(dest: string, src: string, kind: Kind, pre: Option<Content>, post: Content)

  /** What the preflight wants of one target. */
  predicate Ready(files: Files, sources: Files, t: Target) {
    && t.src in sources && sources[t.src] == t.post
    && if t.kind.Modified? then t.dest in files && t.pre == Some(files[t.dest]) else t.dest !in files
  }

  predicate AllReady(files: Files, sources: Files, targets: seq<Target>) {
    forall i :: 0 <= i < |targets| ==> Ready(files, sources, targets[i])
  }

  function RecordOf(t: Target): Record {
    Record(t.dest, t.kind, t.pre, t.post, t.kind.Modified?, Pending)
  }

  function RecordsOf(targets: seq<Target>): seq<Record> {
    seq(|targets|, i requires 0 <= i < |targets| => RecordOf(targets[i]))
  }

  /** One backup, then whether it is intact. */
  function BackUpRun(w: World, r: Record): (World, Status, bool) {
    if r.kind.Added? then (w, Done, true)
    else
      var (w1, s1) := TouchRun(w);
      if !s1.Done? then (w1, s1, true)
      else
        var (w2, s2) := CopyOutRun(w1, r.dest);
        if !s2.Done? then (w2, s2, true)
        else
          var (w3, s3) := TouchRun(w2);
          (w3, s3, s3.Done? ==> r.dest in w3.disk.backups && r.pre == Some(w3.disk.backups[r.dest]))
  }

  function AbandonRun(w: World, code: int): (World, Exit) {
    var (w1, died) := CleanUpRun(w);
    (w1, if died then Crashed else Code(code))
  }

  /** Backups from target i on, then the journal; an exit when preparation ends the run. */
  function PrepareRun(w: World, base: seq<Record>, i: nat): (World, Option<Exit>)
    requires i <= |base|
    decreases |base| - i
  {
    if i == |base| then
      var (w1, s) := SaveRun(w, Journal(Unfinished, base));
      match s
      case Done => (w1, None)
      case Died => (w1, Some(Crashed))
      case Failed => var (w2, e) := AbandonRun(w1, 5); (w2, Some(e))
    else
      var (w1, s, intact) := BackUpRun(w, base[i]);
      if s.Died? then (w1, Some(Crashed))
      else if s.Failed? || !intact then
        var (w2, e) := AbandonRun(w1, if s.Failed? then 5 else 4);
        (w2, Some(e))
      else PrepareRun(w1, base, i + 1)
  }

  function Marked(recs: seq<Record>, i: nat, mark: Progress): (r: seq<Record>)
    requires i < |recs|
    ensures |r| == |recs|
  {
    recs[i := recs[i].(state := mark)]
  }

  /** mkdir, atomic placement, check of what was placed. */
  function PlaceRun(w: World, sources: Files, r: Record, src: string): (World, Status) {
    var (w1, s1) := TouchRun(w);
    if !s1.Done? then (w1, s1)
    else
      var (w2, s2) := ReplaceRun(w1, sources, src, r.dest);
      if !s2.Done? then (w2, s2)
      else
        var (w3, s3) := TouchRun(w2);
        (w3, if s3.Done? && !AtPost(w3.disk.files, r) then Failed else s3)
  }

  /** Whether the record was marked as attempted comes last. */
  function DeployOneRun(w: World, sources: Files, base: seq<Record>, recs: seq<Record>, i: nat, src: string)
    : (World, Status, bool)
    requires i < |base| == |recs|
  {
    var (w1, s1) := SaveRun(w, Journal(Unfinished, Marked(recs, i, Writing)));
    if !s1.Done? then (w1, s1, false)
    else
      var (w2, s2) := PlaceRun(w1, sources, base[i], src);
      if !s2.Done? then (w2, s2, true)
      else
        var (w3, s3) := SaveRun(w2, Journal(Unfinished, Marked(Marked(recs, i, Writing), i, Written)));
        (w3, s3, true)
  }

  /** Roll the first n targets back and exit. */
  function AbortRun(w: World, base: seq<Record>, n: nat): (World, Exit)
    requires n <= |base|
  {
    var (w1, died) := RollbackRun(w, base[..n]);
    (w1, if died then Crashed else Code(5))
  }

  /** The final mark. */
  function FinishRun(w: World, base: seq<Record>, recs: seq<Record>): (World, Exit) {
    var (w1, s) := SaveRun(w, Journal(Deployed, recs));
    match s
    case Done => (w1, Code(0))
    case Died => (w1, Crashed)
    case Failed => AbortRun(w1, base, |base|)
  }

  /** The write phase from target i on, and the final mark. */
  function DeployRun(
    w: World, sources: Files, base: seq<Record>, recs: seq<Record>, targets: seq<Target>, i: nat): (World, Exit)
    requires i <= |base| == |recs| == |targets|
    decreases |base| - i
  {
    if i == |base| then FinishRun(w, base, recs)
    else
      var (w1, s, marked) := DeployOneRun(w, sources, base, recs, i, targets[i].src);
      match s
      case Died => (w1, Crashed)
      case Failed => AbortRun(w1, base, if marked then i + 1 else i)
      case Done => DeployRun(w1, sources, base, Marked(Marked(recs, i, Writing), i, Written), targets, i + 1)
  }

  function ApplyRun(before: World, sources: Files, targets: seq<Target>): (World, Exit) {
    var w := before.Started();
    if w.disk.journal.Some? || !AllReady(w.disk.files, sources, targets) then (w, Code(4))
    else
      var base := RecordsOf(targets);
      var (w1, early) := PrepareRun(w, base, 0);
      if early.Some? then (w1, early.value) else DeployRun(w1, sources, base, base, targets, 0)
  }

  // ---------------------------------------------------------------------------
  // When apply rolls back
  // ---------------------------------------------------------------------------

  /** Some step of the write phase, from target i on, fails while the process lives. */
  predicate WriteFails(
    w: World, sources: Files, base: seq<Record>, recs: seq<Record>, targets: seq<Target>, i: nat)
    requires i <= |base| == |recs| == |targets|
    decreases |base| - i
  {
    if i == |base| then SaveRun(w, Journal(Deployed, recs)).1.Failed?
    else
      var (w1, s, _) := DeployOneRun(w, sources, base, recs, i, targets[i].src);
      match s
      case Died => false
      case Failed => true
      case Done => WriteFails(w1, sources, base, Marked(Marked(recs, i, Writing), i, Written), targets, i + 1)
  }

  /** The run gets as far as the write phase and a step of it fails: the only way into rollback. */
  predicate ApplyFails(before: World, sources: Files, targets: seq<Target>) {
    var w := before.Started();
    && w.disk.journal.None? && AllReady(w.disk.files, sources, targets)
    && var base := RecordsOf(targets);
       var (w1, early) := PrepareRun(w, base, 0);
       early.None? && WriteFails(w1, sources, base, base, targets, 0)
  }

  /** The targets an apply will have undone when it ends, decided by the disk and the schedule. */
  function Undoes(before: World, sources: Files, targets: seq<Target>): set<string> {
    ApplyRun(before, sources, targets).0.undone
  }

  lemma {:induction false} PrepareUndoesNothing(w: World, base: seq<Record>, i: nat)
    requires i <= |base|
    ensures PrepareRun(w, base, i).0.undone == w.undone
    decreases |base| - i
  {
    if i < |base| {
      BackUpUndoesNothing(w, base[i]);
      hide BackUpRun;
      var (w1, s, intact) := BackUpRun(w, base[i]);
      if s.Done? && intact { PrepareUndoesNothing(w1, base, i + 1); }
    }
  }

  lemma BackUpUndoesNothing(w: World, r: Record)
    ensures BackUpRun(w, r).0.undone == w.undone
  {
  }

  lemma PlacingUndoesNothing(
    w: World, sources: Files, base: seq<Record>, recs: seq<Record>, i: nat, src: string)
    requires i < |base| == |recs|
    ensures DeployOneRun(w, sources, base, recs, i, src).0.undone == w.undone
  {
  }

  lemma {:induction false} WritingUndoesNothing(
    w: World, sources: Files, base: seq<Record>, recs: seq<Record>, targets: seq<Target>, i: nat)
    requires i <= |base| == |recs| == |targets| && !WriteFails(w, sources, base, recs, targets, i)
    ensures DeployRun(w, sources, base, recs, targets, i).0.undone == w.undone
    decreases |base| - i
  {
    hide *;
    if i == |base| {
      FinishUndoesNothing(w, sources, base, recs, targets);
    } else {
      PlacingUndoesNothing(w, sources, base, recs, i, targets[i].src);
      WriteStep(w, sources, base, recs, targets, i);
      var (w1, s, _) := DeployOneRun(w, sources, base, recs, i, targets[i].src);
      if s.Done? {
        WritingUndoesNothing(w1, sources, base, Marked(Marked(recs, i, Writing), i, Written), targets, i + 1);
      }
    }
  }

  lemma FinishUndoesNothing(
    w: World, sources: Files, base: seq<Record>, recs: seq<Record>, targets: seq<Target>)
    requires |base| == |recs| == |targets| && !WriteFails(w, sources, base, recs, targets, |base|)
    ensures DeployRun(w, sources, base, recs, targets, |base|).0.undone == w.undone
  {
    hide AbortRun, DeployOneRun;
  }

  /** One target of the write phase. */
  lemma WriteStep(w: World, sources: Files, base: seq<Record>, recs: seq<Record>, targets: seq<Target>, i: nat)
    requires i < |base| == |recs| == |targets|
    ensures var (w1, s, _) := DeployOneRun(w, sources, base, recs, i, targets[i].src);
      var next := Marked(Marked(recs, i, Writing), i, Written);
      match s
      case Done =>
        && DeployRun(w, sources, base, recs, targets, i) == DeployRun(w1, sources, base, next, targets, i + 1)
        && WriteFails(w, sources, base, recs, targets, i) == WriteFails(w1, sources, base, next, targets, i + 1)
      case Died => DeployRun(w, sources, base, recs, targets, i) == (w1, Crashed)
      case Failed => WriteFails(w, sources, base, recs, targets, i)
  {
    hide DeployOneRun, AbortRun, FinishRun;
  }

  /** As long as no step of the write phase fails, apply undoes nothing, wherever it ends. */
  lemma UndoesOnlyAfterFailure(w: World, sources: Files, targets: seq<Target>)
    ensures !ApplyFails(w, sources, targets) ==> Undoes(w, sources, targets) == {}
  {
    if !ApplyFails(w, sources, targets) && w.disk.journal.None? && AllReady(w.disk.files, sources, targets) {
      var base := RecordsOf(targets);
      PrepareUndoesNothing(w.Started(), base, 0);
      var (w1, early) := PrepareRun(w.Started(), base, 0);
      if early.None? { WritingUndoesNothing(w1, sources, base, base, targets, 0); }
    }
  }

  /** The environment may end the process but lets no step fail. */
  predicate OnlyDies(faults: seq<Outcome>) {
    forall i :: 0 <= i < |faults| ==> faults[i].Fine? || (faults[i].Bad? && faults[i].dies)
  }

  lemma {:induction false} PrepareOnlyDies(w: World, base: seq<Record>, i: nat)
    requires i <= |base| && OnlyDies(w.faults)
    ensures OnlyDies(PrepareRun(w, base, i).0.faults)
    decreases |base| - i
  {
    if i == |base| {
      AbandonOnlyDies(SaveRun(w, Journal(Unfinished, base)).0, 5);
    } else {
      BackUpOnlyDies(w, base[i]);
      hide BackUpRun, AbandonRun;
      var (w1, s, intact) := BackUpRun(w, base[i]);
      AbandonOnlyDies(w1, if s.Failed? then 5 else 4);
      if s.Done? && intact { PrepareOnlyDies(w1, base, i + 1); }
    }
  }

  lemma SpentOnlyDies(w: World)
    requires OnlyDies(w.faults)
    ensures OnlyDies(w.Spent().faults) && (w.Next().Fine? || (w.Next().Bad? && w.Next().dies))
  {
  }

  lemma BackUpOnlyDies(w: World, r: Record)
    requires OnlyDies(w.faults)
    ensures OnlyDies(BackUpRun(w, r).0.faults)
  {
    SpentOnlyDies(w);
    var w1 := w.Spent();
    SpentOnlyDies(w1);
    var w2 := CopyOutRun(w1, r.dest).0;
    SpentOnlyDies(w2);
    hide OnlyDies, BackupGood;
  }

  lemma AbandonOnlyDies(w: World, code: int)
    requires OnlyDies(w.faults)
    ensures OnlyDies(AbandonRun(w, code).0.faults)
  {
    SpentOnlyDies(w);
    SpentOnlyDies(RemoveRun(w).0);
    hide OnlyDies;
  }

  lemma PlaceOnlyDies(w: World, sources: Files, r: Record, src: string)
    requires OnlyDies(w.faults) && src in sources && sources[src] == r.post
    ensures OnlyDies(PlaceRun(w, sources, r, src).0.faults) && !PlaceRun(w, sources, r, src).1.Failed?
  {
    SpentOnlyDies(w);
    var w1 := w.Spent();
    SpentOnlyDies(w1);
    var w2 := ReplaceRun(w1, sources, src, r.dest).0;
    SpentOnlyDies(w2);
    hide OnlyDies;
  }

  lemma DeployOneOnlyDies(
    w: World, sources: Files, base: seq<Record>, recs: seq<Record>, i: nat, src: string)
    requires i < |base| == |recs| && OnlyDies(w.faults) && src in sources && sources[src] == base[i].post
    ensures OnlyDies(DeployOneRun(w, sources, base, recs, i, src).0.faults)
    ensures !DeployOneRun(w, sources, base, recs, i, src).1.Failed?
  {
    SpentOnlyDies(w);
    var (w1, s1) := SaveRun(w, Journal(Unfinished, Marked(recs, i, Writing)));
    if s1.Done? {
      PlaceOnlyDies(w1, sources, base[i], src);
      SpentOnlyDies(PlaceRun(w1, sources, base[i], src).0);
    }
    hide PlaceRun, OnlyDies;
  }

  lemma {:induction false} WriteOnlyDies(
    w: World, sources: Files, files: Files, base: seq<Record>, recs: seq<Record>, targets: seq<Target>, i: nat)
    requires i <= |base| == |recs| == |targets| && base == RecordsOf(targets)
    requires OnlyDies(w.faults) && AllReady(files, sources, targets)
    ensures !WriteFails(w, sources, base, recs, targets, i)
    decreases |base| - i
  {
    if i < |base| {
      assert Ready(files, sources, targets[i]);
      DeployOneOnlyDies(w, sources, base, recs, i, targets[i].src);
      hide DeployOneRun;
      var (w1, s, _) := DeployOneRun(w, sources, base, recs, i, targets[i].src);
      if s.Done? {
        WriteOnlyDies(w1, sources, files, base, Marked(Marked(recs, i, Writing), i, Written), targets, i + 1);
      }
    }
  }

  /** Deaths alone never lead into rollback. */
  lemma OnlyDyingNeverFails(w: World, sources: Files, targets: seq<Target>)
    requires OnlyDies(w.faults)
    ensures !ApplyFails(w, sources, targets)
  {
    if w.disk.journal.None? && AllReady(w.disk.files, sources, targets) {
      var base := RecordsOf(targets);
      PrepareOnlyDies(w.Started(), base, 0);
      var (w1, early) := PrepareRun(w.Started(), base, 0);
      if early.None? { WriteOnlyDies(w1, sources, w.disk.files, base, base, targets, 0); }
    }
  }
}
