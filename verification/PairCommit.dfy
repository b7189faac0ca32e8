/** WritePairAtomic: replace two files together, with backups and rollback, on a disk any of whose
    operations may fail.

    The disk is a map from paths to contents; a single rename or remove either happens or leaves the
    map as it was. Which operations fail is an arbitrary schedule, so every contract below holds for
    all of them. */
module PairCommit {

  type Path = string
  type Content = string
  type Files = map<Path, Content>

  datatype OpResult = Done | NotExist | Failed

  datatype ReadResult = Read(data: Content) | ReadFailed

  /** What an operation has done, as far as the order of operations matters: a move, a sync of the
      directory, or reading a file back; anything else, and every failure, is Other. */
  datatype Op = Moved(from: Path, to: Path) | Synced | ReadBack(path: Path, data: Content) | Other

  class Disk {
    var files: Files
    var tick: nat
    const schedule: nat -> bool  // which operations fail
    ghost var trace: seq<Files>  // the files after each operation
    ghost var log: seq<Op>       // what each operation has done
    ghost var faults: nat        // how many operations have failed

    constructor (initial: Files, schedule: nat -> bool)
      ensures files == initial && trace == [] && log == [] && faults == 0 && this.schedule == schedule
    {
      files, tick := initial, 0;
      this.schedule := schedule;
      trace, log, faults := [], [], 0;
    }

    /** Whether the next operation fails. */
    method Fault() returns (fail: bool)
      modifies this`tick, this`faults
      ensures faults == old(faults) + if fail then 1 else 0
    {
      fail := schedule(tick);
      tick := tick + 1;
      if fail { faults := faults + 1; }
    }

    method Rename(from: Path, to: Path) returns (r: OpResult)
      modifies this
      ensures r == Done ==> from in old(files) && files == (old(files) - {from})[to := old(files)[from]]
      ensures r == NotExist ==> from !in old(files)
      ensures r != Done ==> files == old(files)
      ensures trace == old(trace) + [files] && faults == old(faults) + if r == Failed then 1 else 0
      ensures log == old(log) + [if r == Done then Moved(from, to) else Other]
    {
      var fail := Fault();
      if fail {
        r := Failed;
      } else if from in files {
        files := (files - {from})[to := files[from]];
        r := Done;
      } else {
        r := NotExist;
      }
      trace, log := trace + [files], log + [if r == Done then Moved(from, to) else Other];
    }

    method Remove(p: Path) returns (r: OpResult)
      modifies this
      ensures r == Done ==> p in old(files) && files == old(files) - {p}
      ensures r == NotExist ==> p !in old(files)
      ensures r != Done ==> files == old(files)
      ensures trace == old(trace) + [files] && faults == old(faults) + if r == Failed then 1 else 0
      ensures log == old(log) + [Other]
    {
      var fail := Fault();
      if fail {
        r := Failed;
      } else if p in files {
        files := files - {p};
        r := Done;
      } else {
        r := NotExist;
      }
      trace, log := trace + [files], log + [Other];
    }

    /** Create and fill a file; a write that fails may leave a part of it behind. */
    method Create(p: Path, data: Content) returns (r: OpResult)
      requires p !in files
      modifies this
      ensures r == Done ==> files == old(files)[p := data]
      ensures r != Done ==> r == Failed && (files == old(files) || (p in files && files == old(files)[p := files[p]]))
      ensures trace == old(trace) + [files] && faults == old(faults) + if r == Failed then 1 else 0
      ensures log == old(log) + [Other]
    {
      var fail := Fault();
      if !fail {
        files := files[p := data];
        r := Done;
      } else {
        if |data| > 0 { files := files[p := data[..1]]; }
        r := Failed;
      }
      trace, log := trace + [files], log + [Other];
    }

    method SyncDir() returns (r: OpResult)
      modifies this
      ensures r != NotExist && files == old(files)
      ensures trace == old(trace) + [files] && faults == old(faults) + if r == Failed then 1 else 0
      ensures log == old(log) + [if r == Done then Synced else Other]
    {
      var fail := Fault();
      r := if fail then Failed else Done;
      trace, log := trace + [files], log + [if r == Done then Synced else Other];
    }

    method Stat(p: Path) returns (r: OpResult)
      modifies this
      ensures r == Done ==> p in files
      ensures r == NotExist ==> p !in files
      ensures files == old(files)
      ensures trace == old(trace) + [files] && faults == old(faults) + if r == Failed then 1 else 0
      ensures log == old(log) + [Other]
    {
      var fail := Fault();
      r := if fail then Failed else if p in files then Done else NotExist;
      trace, log := trace + [files], log + [Other];
    }

    /** Reading back may fail or return other bytes than were written. */
    method ReadFile(p: Path) returns (r: ReadResult)
      modifies this
      ensures files == old(files)
      ensures trace == old(trace) + [files] && log == old(log) + [if r.Read? then ReadBack(p, r.data) else Other]
      ensures p in files && r != Read(files[p]) ==> faults == old(faults) + 1
      ensures p in files && r == Read(files[p]) ==> faults == old(faults)
    {
      var fail := Fault();
      r := if fail then ReadFailed else if p in files then Read(files[p]) else ReadFailed;
      trace, log := trace + [files], log + [if r.Read? then ReadBack(p, r.data) else Other];
    }
  }

  // ---------- What the protocol promises ----------

  datatype PairResult =
    | Ok
    | CommittedStaleBackups  // "commit succeeded; stale backup cleanup failed"
    | Rejected               // the paths were refused
    | Aborted                // an error before anything was replaced, or a complete rollback
    | RollbackFailed         // an error, and the rollback reported failures

  /** The names one call works with: the targets, and for each a staged file and a backup. */
  datatype Names = Names(pack: Path, report: Path, packTmp: Path, reportTmp: Path, packBak: Path, reportBak: Path)
  {
    /** The staged files and backups have names of their own. */
    ghost predicate Fresh(files: Files) {
      && packTmp !in files && reportTmp !in files && packBak !in files && reportBak !in files
      && packTmp != reportTmp && packBak != reportBak
      && {packTmp, reportTmp} !! {packBak, reportBak}
      && {pack, report} !! {packTmp, reportTmp, packBak, reportBak}
    }

    predicate Temporary(p: Path) {
      p == packTmp || p == reportTmp || p == packBak || p == reportBak
    }
  }

  ghost predicate SameAt(a: Files, b: Files, p: Path) {
    (p in a <==> p in b) && (p in a && p in b ==> a[p] == b[p])
  }

  /** p's original content, if it had any, is at p or at its backup. */
  ghost predicate Recoverable(orig: Files, s: Files, p: Path, bak: Path) {
    p in orig ==> (p in s && s[p] == orig[p]) || (bak in s && s[bak] == orig[p])
  }

  ghost predicate BothNew(s: Files, n: Names, packData: Content, reportData: Content) {
    n.pack in s && s[n.pack] == packData && n.report in s && s[n.report] == reportData
  }

  /** Nothing is lost in s: both originals can be recovered, or both new files are in place. */
  ghost predicate Safe(orig: Files, s: Files, n: Names, packData: Content, reportData: Content) {
    || (Recoverable(orig, s, n.pack, n.packBak) && Recoverable(orig, s, n.report, n.reportBak))
    || BothNew(s, n, packData, reportData)
  }

  ghost predicate SafeSince(orig: Files, trace: seq<Files>, from: nat, n: Names, packData: Content, reportData: Content) {
    forall k :: from <= k < |trace| ==> Safe(orig, trace[k], n, packData, reportData)
  }

  /** Since position from on, every move has been followed at once by a sync of the directory. */
  ghost predicate Settled(log: seq<Op>, from: nat) {
    forall k :: from <= k < |log| && log[k].Moved? ==> k + 1 < |log| && log[k + 1] == Synced
  }

  /** And nothing has been moved before both staged files had been read back as they should be. */
  ghost predicate ReadFirst(log: seq<Op>, from: nat, n: Names, packData: Content, reportData: Content) {
    forall k :: from <= k < |log| && log[k].Moved? ==>
                  && (exists i :: from <= i < k && log[i] == ReadBack(n.packTmp, packData))
                  && (exists i :: from <= i < k && log[i] == ReadBack(n.reportTmp, reportData))
  }

  lemma SettledNone(log: seq<Op>)
    ensures Settled(log, |log|)
  {
  }

  lemma SettledOther(log: seq<Op>, from: nat, op: Op)
    requires Settled(log, from) && !op.Moved?
    ensures Settled(log + [op], from)
  {
  }

  lemma SettledMove(log: seq<Op>, from: nat, a: Path, b: Path)
    requires Settled(log, from)
    ensures Settled(log + [Moved(a, b)] + [Synced], from)
  {
  }

  lemma SettledTwice(before: seq<Op>, log: seq<Op>, from: nat)
    requires Settled(before, from) && from <= |before| && before <= log && Settled(log, |before|)
    ensures Settled(log, from)
  {
  }

  /** Nothing was moved while both files were read back. */
  lemma ReadBackFirst(before: seq<Op>, log: seq<Op>, from: nat, n: Names, packData: Content, reportData: Content)
    requires from <= |before| && before <= log && ReadBackBoth(before, from, n, packData, reportData)
    ensures ReadFirst(log, from, n, packData, reportData)
  {
    var i :| from <= i < |before| && before[i] == ReadBack(n.packTmp, packData);
    var j :| from <= j < |before| && before[j] == ReadBack(n.reportTmp, reportData);
    assert log[i] == before[i] && log[j] == before[j];
    forall k | from <= k < |before| ensures !log[k].Moved? {
      assert log[k] == before[k];
    }
  }

  /** Since position from on, both staged files have been read back as they should be, and nothing has been
      moved. */
  ghost predicate ReadBackBoth(log: seq<Op>, from: nat, n: Names, packData: Content, reportData: Content) {
    && (forall k :: from <= k < |log| ==> !log[k].Moved?)
    && (exists i :: from <= i < |log| && log[i] == ReadBack(n.packTmp, packData))
    && (exists i :: from <= i < |log| && log[i] == ReadBack(n.reportTmp, reportData))
  }

  lemma BothReadBack(log: seq<Op>, n: Names, packData: Content, reportData: Content)
    ensures var after := log + [Other] + [Other] + [ReadBack(n.packTmp, packData)] + [ReadBack(n.reportTmp, reportData)];
            ReadBackBoth(after, |log|, n, packData, reportData)
  {
    var after := log + [Other] + [Other] + [ReadBack(n.packTmp, packData)] + [ReadBack(n.reportTmp, reportData)];
    assert after[|log| + 2] == ReadBack(n.packTmp, packData) && after[|log| + 3] == ReadBack(n.reportTmp, reportData);
  }

  /** How far the replacement has gone. */
  datatype Flags = Flags(packBackedUp: bool, reportBackedUp: bool, packInstalled: bool, reportInstalled: bool)

  /** The exact files while the protocol is under way. */
  ghost predicate At(orig: Files, s: Files, n: Names, packData: Content, reportData: Content, f: Flags) {
    && (forall p :: p != n.pack && p != n.report && !n.Temporary(p) ==> SameAt(orig, s, p))
    && (n.packTmp in s <==> !f.packInstalled) && (n.packTmp in s ==> s[n.packTmp] == packData)
    && (n.reportTmp in s <==> !f.reportInstalled) && (n.reportTmp in s ==> s[n.reportTmp] == reportData)
    && (n.packBak in s <==> f.packBackedUp) && (f.packBackedUp ==> n.pack in orig && s[n.packBak] == orig[n.pack])
    && (n.reportBak in s <==> f.reportBackedUp) && (f.reportBackedUp ==> n.report in orig && s[n.reportBak] == orig[n.report])
    && TargetAt(orig, s, n, packData, reportData, f, n.pack)
    && TargetAt(orig, s, n, packData, reportData, f, n.report)
    // backups come first
    && (f.packInstalled && n.pack in orig ==> f.packBackedUp)
    && (f.reportInstalled ==> f.packInstalled)
    && (n.pack != n.report && f.packInstalled && n.report in orig ==> f.reportBackedUp)
  }

  ghost predicate TargetAt(orig: Files, s: Files, n: Names, packData: Content, reportData: Content, f: Flags, p: Path) {
    if p == n.report && f.reportInstalled then p in s && s[p] == reportData
    else if p == n.pack && f.packInstalled then p in s && s[p] == packData
    else if (p == n.pack && f.packBackedUp) || (p == n.report && f.reportBackedUp) then p !in s
    else SameAt(orig, s, p)
  }

  // ---------- The rollback closure ----------

  /** Between removing what was installed and restoring the backups. clean: no removal has failed. */
  ghost predicate Removed(orig: Files, s: Files, n: Names, f: Flags, clean: bool) {
    && (forall p :: p != n.pack && p != n.report && !n.Temporary(p) ==> SameAt(orig, s, p))
    && (n.packBak in s <==> f.packBackedUp) && (f.packBackedUp ==> n.pack in orig && s[n.packBak] == orig[n.pack])
    && (n.reportBak in s <==> f.reportBackedUp) && (f.reportBackedUp ==> n.report in orig && s[n.reportBak] == orig[n.report])
    && (n.pack != n.report ==>
          && (!f.packBackedUp && (clean || n.pack in orig) ==> SameAt(orig, s, n.pack))
          && (!f.reportBackedUp && (clean || n.report in orig) ==> SameAt(orig, s, n.report)))
  }

  method RemoveInstalled(d: Disk, n: Names, f: Flags, ghost orig: Files, ghost packData: Content, ghost reportData: Content)
    returns (ok: bool)
    requires n.Fresh(orig) && At(orig, d.files, n, packData, reportData, f)
    modifies d
    ensures Removed(orig, d.files, n, f, ok)
    ensures n.pack != n.report ==> SafeSince(orig, d.trace, |old(d.trace)|, n, packData, reportData)
    ensures old(d.trace) <= d.trace
    ensures d.faults >= old(d.faults) && (!ok ==> d.faults > old(d.faults))
  {
    ok := true;
    if f.packInstalled {
      var r := d.Remove(n.pack);
      if r == Failed { ok := false; }
    }
    assert n.pack != n.report ==> SafeSince(orig, d.trace, |old(d.trace)|, n, packData, reportData);
    if f.reportInstalled {
      var r := d.Remove(n.report);
      if r == Failed { ok := false; }
    }
  }

  /** Between restoring the pack and restoring the report. ok: nothing has failed so far. */
  ghost predicate PackRestored(orig: Files, s: Files, n: Names, f: Flags, ok: bool) {
    && (forall p :: p != n.pack && p != n.report && !n.Temporary(p) ==> SameAt(orig, s, p))
    && Recoverable(orig, s, n.pack, n.packBak) && (ok ==> SameAt(orig, s, n.pack) && SameAt(orig, s, n.packBak))
    && (n.reportBak in s <==> f.reportBackedUp) && (f.reportBackedUp ==> n.report in orig && s[n.reportBak] == orig[n.report])
    && (!f.reportBackedUp && (ok || n.report in orig) ==> SameAt(orig, s, n.report))
  }

  lemma BackupsThere(orig: Files, s: Files, n: Names, f: Flags, clean: bool)
    requires n.Fresh(orig) && Removed(orig, s, n, f, clean)
    ensures f.packBackedUp ==> n.packBak in s
    ensures f.reportBackedUp ==> n.reportBak in s && n.reportBak != n.packBak
  {
  }

  lemma RestorePack(orig: Files, s: Files, n: Names, f: Flags, clean: bool)
    requires n.Fresh(orig) && n.pack != n.report && Removed(orig, s, n, f, clean)
    ensures !f.packBackedUp ==> PackRestored(orig, s, n, f, clean)
    ensures f.packBackedUp ==> n.packBak in s && PackRestored(orig, s, n, f, false)
    ensures f.packBackedUp ==> PackRestored(orig, (s - {n.packBak})[n.pack := s[n.packBak]], n, f, clean)
  {
  }

  lemma RestoreReport(orig: Files, s: Files, n: Names, f: Flags, ok: bool)
    requires n.Fresh(orig) && n.pack != n.report && PackRestored(orig, s, n, f, ok)
    ensures !f.reportBackedUp ==> RolledBack(orig, s, n, ok)
    ensures f.reportBackedUp ==> n.reportBak in s && RolledBack(orig, s, n, false)
    ensures f.reportBackedUp ==> RolledBack(orig, (s - {n.reportBak})[n.report := s[n.reportBak]], n, ok)
  {
    assert n.packBak !in orig && n.reportBak !in orig;
    if f.reportBackedUp {
      var t := (s - {n.reportBak})[n.report := s[n.reportBak]];
      assert SameAt(s, t, n.pack) && SameAt(s, t, n.packBak) && SameAt(orig, t, n.report) && SameAt(orig, t, n.reportBak);
      forall p | p != n.packTmp && p != n.reportTmp && p != n.packBak && p != n.pack ensures SameAt(orig, t, p) {
        assert p == n.report || p == n.reportBak || SameAt(orig, s, p);
      }
      assert Recoverable(orig, t, n.pack, n.packBak);
    } else {
      assert ok ==> SameAt(orig, s, n.reportBak);
    }
  }

  lemma WeakerRollback(orig: Files, s: Files, n: Names, f: Flags, ok: bool)
    ensures RolledBack(orig, s, n, ok) ==> RolledBack(orig, s, n, false)
    ensures PackRestored(orig, s, n, f, ok) ==> Recoverable(orig, s, n.pack, n.packBak) && Recoverable(orig, s, n.report, n.reportBak)
    ensures RolledBack(orig, s, n, ok) ==> Recoverable(orig, s, n.pack, n.packBak) && Recoverable(orig, s, n.report, n.reportBak)
  {
  }

  /** Put the backups back; ok if nothing has failed so far. */
  method RestoreTargets(d: Disk, n: Names, f: Flags, clean: bool, ghost orig: Files, ghost packData: Content, ghost reportData: Content)
    returns (ok: bool)
    requires n.Fresh(orig) && Removed(orig, d.files, n, f, clean)
    modifies d
    ensures n.pack != n.report ==> RolledBack(orig, d.files, n, ok)
    ensures n.pack != n.report ==> SafeSince(orig, d.trace, |old(d.trace)|, n, packData, reportData)
    ensures old(d.trace) <= d.trace
    ensures d.faults >= old(d.faults) && (!ok ==> !clean || d.faults > old(d.faults))
  {
    hide PackRestored, RolledBack, Recoverable, Removed, SameAt, Safe;
    ok := clean;
    BackupsThere(orig, d.files, n, f, ok);
    if n.pack != n.report { RestorePack(orig, d.files, n, f, ok); }
    if f.packBackedUp {
      var r := d.Rename(n.packBak, n.pack);
      if r != Done { ok := false; }
    }
    if n.pack != n.report {
      assert PackRestored(orig, d.files, n, f, ok);
      WeakerRollback(orig, d.files, n, f, ok);
      RecoverableIsSafe(orig, d.files, n, packData, reportData);
      RestoreReport(orig, d.files, n, f, ok);
    }
    if f.reportBackedUp {
      var r := d.Rename(n.reportBak, n.report);
      if r != Done { ok := false; }
    }
    if n.pack != n.report {
      assert RolledBack(orig, d.files, n, ok);
      WeakerRollback(orig, d.files, n, f, ok);
      RecoverableIsSafe(orig, d.files, n, packData, reportData);
    }
  }

  /** Undo as far as possible; ok if nothing failed. */
  method Rollback(d: Disk, n: Names, f: Flags, ghost orig: Files, ghost packData: Content, ghost reportData: Content)
    returns (ok: bool)
    requires n.Fresh(orig) && At(orig, d.files, n, packData, reportData, f)
    modifies d
    ensures n.pack != n.report ==> RolledBack(orig, d.files, n, ok)
    ensures n.pack != n.report ==> SafeSince(orig, d.trace, |old(d.trace)|, n, packData, reportData)
    ensures old(d.trace) <= d.trace
    ensures d.faults >= old(d.faults) && (!ok ==> d.faults > old(d.faults))
  {
    hide At, TargetAt, RolledBack, Recoverable, Removed, SameAt, Safe;
    ok := RemoveInstalled(d, n, f, orig, packData, reportData);
    ok := RestoreTargets(d, n, f, ok, orig, packData, reportData);
    if n.pack != n.report {
      WeakerRollback(orig, d.files, n, f, ok);
      RecoverableIsSafe(orig, d.files, n, packData, reportData);
    }
    var r := d.SyncDir();
    if r == Failed { ok := false; }
  }

  /** After a rollback: nothing is lost, and after a clean one only staged files are left over. */
  ghost predicate RolledBack(orig: Files, s: Files, n: Names, ok: bool) {
    && Recoverable(orig, s, n.pack, n.packBak) && Recoverable(orig, s, n.report, n.reportBak)
    && (forall p :: p != n.pack && p != n.report && !n.Temporary(p) ==> SameAt(orig, s, p))
    && (ok ==> forall p :: p != n.packTmp && p != n.reportTmp ==> SameAt(orig, s, p))
  }

  // ---------- The protocol ----------

  /** s agrees with t but for staged files. */
  ghost predicate SameButStaged(t: Files, s: Files, n: Names) {
    forall p :: p != n.packTmp && p != n.reportTmp ==> SameAt(t, s, p)
  }

  /** So do all files from position from on. */
  ghost predicate StagedOnly(t: Files, trace: seq<Files>, from: nat, n: Names) {
    forall k :: from <= k < |trace| ==> SameButStaged(t, trace[k], n)
  }

  lemma SameButStagedTrans(a: Files, b: Files, c: Files, n: Names)
    requires SameButStaged(a, b, n) && SameButStaged(b, c, n)
    ensures SameButStaged(a, c, n)
  {
    forall p | p != n.packTmp && p != n.reportTmp ensures SameAt(a, c, p) {
      assert SameAt(a, b, p) && SameAt(b, c, p);
    }
  }

  lemma StagedOnlyTrans(a: Files, b: Files, trace: seq<Files>, from: nat, n: Names)
    requires SameButStaged(a, b, n) && StagedOnly(b, trace, from, n)
    ensures StagedOnly(a, trace, from, n)
  {
    forall k | from <= k < |trace| ensures SameButStaged(a, trace[k], n) {
      SameButStagedTrans(a, b, trace[k], n);
    }
  }

  /** stageTempFile: the staged file, or an error after an attempt to remove it. */
  method Stage(d: Disk, n: Names, p: Path, data: Content) returns (ok: bool)
    requires p !in d.files && (p == n.packTmp || p == n.reportTmp)
    modifies d
    ensures ok ==> d.files == old(d.files)[p := data] && d.faults == old(d.faults) && d.log == old(d.log) + [Other]
    ensures !ok ==> d.faults > old(d.faults)
    ensures SameButStaged(old(d.files), d.files, n)
    ensures old(d.trace) <= d.trace && StagedOnly(old(d.files), d.trace, |old(d.trace)|, n)
  {
    var r := d.Create(p, data);
    ok := r == Done;
    if !ok {
      var _ := d.Remove(p);
    }
  }

  /** The deferred clean-up of staged files. */
  method RemoveStaged(d: Disk, n: Names)
    modifies d
    ensures SameButStaged(old(d.files), d.files, n)
    ensures n.packTmp !in old(d.files) && n.reportTmp !in old(d.files) ==> d.files == old(d.files)
    ensures old(d.log) <= d.log && Settled(d.log, |old(d.log)|)
    ensures d.faults >= old(d.faults)
    ensures old(d.trace) <= d.trace && StagedOnly(old(d.files), d.trace, |old(d.trace)|, n)
  {
    var _ := d.Remove(n.packTmp);
    var _ := d.Remove(n.reportTmp);
  }

  const START: Flags := Flags(false, false, false, false)

  lemma Staged(orig: Files, n: Names, packData: Content, reportData: Content)
    requires n.Fresh(orig)
    ensures At(orig, orig[n.packTmp := packData][n.reportTmp := reportData], n, packData, reportData, START)
  {
  }

  lemma PackBackedUp(orig: Files, s: Files, n: Names, packData: Content, reportData: Content)
    requires n.Fresh(orig) && At(orig, s, n, packData, reportData, START) && n.pack in s
    ensures At(orig, (s - {n.pack})[n.packBak := s[n.pack]], n, packData, reportData, START.(packBackedUp := true))
  {
  }

  lemma ReportBackedUp(orig: Files, s: Files, n: Names, packData: Content, reportData: Content, f: Flags)
    requires n.Fresh(orig) && At(orig, s, n, packData, reportData, f) && n.report in s
    requires !f.packInstalled && !f.reportBackedUp
    ensures At(orig, (s - {n.report})[n.reportBak := s[n.report]], n, packData, reportData, f.(reportBackedUp := true))
  {
  }

  /** Both files are out of the way: the new ones may be installed. */
  ghost predicate Cleared(orig: Files, n: Names, f: Flags) {
    && !f.packInstalled && !f.reportInstalled
    && (n.pack in orig ==> f.packBackedUp)
    && (n.pack != n.report && n.report in orig ==> f.reportBackedUp)
  }

  lemma PackInstalled(orig: Files, s: Files, n: Names, packData: Content, reportData: Content, f: Flags)
    requires n.Fresh(orig) && At(orig, s, n, packData, reportData, f) && Cleared(orig, n, f) && n.packTmp in s
    ensures At(orig, (s - {n.packTmp})[n.pack := s[n.packTmp]], n, packData, reportData, f.(packInstalled := true))
  {
  }

  lemma ReportInstalled(orig: Files, s: Files, n: Names, packData: Content, reportData: Content, f: Flags)
    requires n.Fresh(orig) && At(orig, s, n, packData, reportData, f) && n.reportTmp in s
    requires f.packInstalled && !f.reportInstalled
    ensures At(orig, (s - {n.reportTmp})[n.report := s[n.reportTmp]], n, packData, reportData, f.(reportInstalled := true))
  {
  }

  lemma MissingIsMissing(orig: Files, s: Files, n: Names, packData: Content, reportData: Content, f: Flags)
    requires n.Fresh(orig) && At(orig, s, n, packData, reportData, f) && !f.packInstalled && !f.reportInstalled
    ensures !f.packBackedUp && n.pack !in s && n.pack != n.report ==> n.pack !in orig
    ensures !f.packBackedUp && !f.reportBackedUp && n.pack !in s ==> n.pack !in orig
    ensures !f.reportBackedUp && n.report !in s && n.pack != n.report ==> n.report !in orig
    ensures n.packTmp in s && n.reportTmp in s
  {
  }

  ghost predicate SafeTrace(orig: Files, trace: seq<Files>, from: nat, n: Names, packData: Content, reportData: Content) {
    n.pack != n.report ==> SafeSince(orig, trace, from, n, packData, reportData)
  }

  lemma TraceStep(orig: Files, trace: seq<Files>, from: nat, s: Files, n: Names,
                  packData: Content, reportData: Content, f: Flags)
    requires SafeTrace(orig, trace, from, n, packData, reportData)
    requires At(orig, s, n, packData, reportData, f)
    ensures SafeTrace(orig, trace + [s], from, n, packData, reportData)
  {
  }

  /** An error after something was replaced. */
  method Abort(d: Disk, n: Names, f: Flags, ghost orig: Files, ghost packData: Content, ghost reportData: Content, ghost from: nat)
    returns (r: PairResult)
    requires n.Fresh(orig) && At(orig, d.files, n, packData, reportData, f)
    requires from <= |d.trace| && SafeTrace(orig, d.trace, from, n, packData, reportData)
    modifies d
    ensures Failure(orig, d.files, n, r)
    ensures old(d.trace) <= d.trace && SafeTrace(orig, d.trace, from, n, packData, reportData)
    ensures d.faults >= old(d.faults) && (r == RollbackFailed ==> d.faults > old(d.faults))
  {
    var ok := Rollback(d, n, f, orig, packData, reportData);
    r := if ok then Aborted else RollbackFailed;
  }

  /** What is true after an error. */
  ghost predicate Failure(orig: Files, s: Files, n: Names, r: PairResult) {
    r in [Aborted, RollbackFailed] && (n.pack != n.report ==> RolledBack(orig, s, n, r == Aborted))
  }

  lemma NothingReplaced(orig: Files, s: Files, n: Names, packData: Content, reportData: Content)
    requires n.Fresh(orig) && At(orig, s, n, packData, reportData, START)
    ensures Failure(orig, s, n, Aborted)
  {
  }

  datatype Next = Go | Stop(result: PairResult)

  /** Move the old files out of the way. */
  method BackUp(d: Disk, n: Names, ghost orig: Files, ghost packData: Content, ghost reportData: Content, ghost from: nat)
    returns (next: Next, f: Flags)
    requires n.Fresh(orig) && At(orig, d.files, n, packData, reportData, START)
    requires from <= |d.trace| && SafeTrace(orig, d.trace, from, n, packData, reportData)
    modifies d
    ensures next == Go ==> At(orig, d.files, n, packData, reportData, f) && Cleared(orig, n, f)
    ensures next == Go ==> d.faults == old(d.faults)
    ensures next == Go ==> old(d.log) <= d.log && Settled(d.log, |old(d.log)|)
    ensures next != Go ==> Failure(orig, d.files, n, next.result) && d.faults > old(d.faults)
    ensures next == Stop(RollbackFailed) ==> d.faults > old(d.faults) + 1
    ensures old(d.trace) <= d.trace && SafeTrace(orig, d.trace, from, n, packData, reportData)
  {
    hide At, TargetAt, SafeTrace, SafeSince, Failure, Settled;
    f := START;
    ghost var log := d.log;
    SettledNone(log);
    var r := d.Stat(n.pack);
    SettledOther(log, |log|, Other);
    ghost var before := d.log;
    TraceStep(orig, old(d.trace), from, d.files, n, packData, reportData, f);
    MissingIsMissing(orig, d.files, n, packData, reportData, f);
    NothingReplaced(orig, d.files, n, packData, reportData);
    if r == Failed {
      return Stop(Aborted), f;
    }
    if r == Done {
      PackBackedUp(orig, d.files, n, packData, reportData);
      ghost var trace := d.trace;
      r := d.Rename(n.pack, n.packBak);
      if r != Done {
        TraceStep(orig, trace, from, d.files, n, packData, reportData, f);
        return Stop(Aborted), f;
      }
      f := f.(packBackedUp := true);
      TraceStep(orig, trace, from, d.files, n, packData, reportData, f);
      trace := d.trace;
      r := d.SyncDir();
      TraceStep(orig, trace, from, d.files, n, packData, reportData, f);
      if r != Done {
        var e := Abort(d, n, f, orig, packData, reportData, from);
        return Stop(e), f;
      }
    }
    SettledMove(before, |log|, n.pack, n.packBak);
    assert n.pack in orig ==> f.packBackedUp;
    before := d.log;
    next, f := BackUpReport(d, n, f, orig, packData, reportData, from);
    if next == Go {
      SettledTwice(before, d.log, |log|);
    }
  }

  method BackUpReport(d: Disk, n: Names, f: Flags, ghost orig: Files, ghost packData: Content, ghost reportData: Content, ghost from: nat)
    returns (next: Next, g: Flags)
    requires n.Fresh(orig) && At(orig, d.files, n, packData, reportData, f)
    requires !f.packInstalled && !f.reportInstalled && !f.reportBackedUp && (n.pack in orig ==> f.packBackedUp)
    requires from <= |d.trace| && SafeTrace(orig, d.trace, from, n, packData, reportData)
    modifies d
    ensures next == Go ==> At(orig, d.files, n, packData, reportData, g) && Cleared(orig, n, g)
    ensures next == Go ==> d.faults == old(d.faults)
    ensures next == Go ==> old(d.log) <= d.log && Settled(d.log, |old(d.log)|)
    ensures next != Go ==> Failure(orig, d.files, n, next.result) && d.faults > old(d.faults)
    ensures next == Stop(RollbackFailed) ==> d.faults > old(d.faults) + 1
    ensures old(d.trace) <= d.trace && SafeTrace(orig, d.trace, from, n, packData, reportData)
  {
    hide At, TargetAt, SafeTrace, SafeSince, Failure, Settled;
    g := f;
    ghost var log := d.log;
    SettledNone(log);
    var r := d.Stat(n.report);
    SettledOther(log, |log|, Other);
    SettledMove(d.log, |log|, n.report, n.reportBak);
    TraceStep(orig, old(d.trace), from, d.files, n, packData, reportData, g);
    MissingIsMissing(orig, d.files, n, packData, reportData, g);
    if r == Failed {
      var e := Abort(d, n, g, orig, packData, reportData, from);
      return Stop(e), g;
    }
    if r == Done {
      ReportBackedUp(orig, d.files, n, packData, reportData, g);
      ghost var trace := d.trace;
      r := d.Rename(n.report, n.reportBak);
      if r != Done {
        TraceStep(orig, trace, from, d.files, n, packData, reportData, g);
        var e := Abort(d, n, g, orig, packData, reportData, from);
        return Stop(e), g;
      }
      g := g.(reportBackedUp := true);
      TraceStep(orig, trace, from, d.files, n, packData, reportData, g);
      trace := d.trace;
      r := d.SyncDir();
      TraceStep(orig, trace, from, d.files, n, packData, reportData, g);
      if r != Done {
        var e := Abort(d, n, g, orig, packData, reportData, from);
        return Stop(e), g;
      }
    }
    next := Go;
  }

  /** Put the new files in place. */
  method Install(d: Disk, n: Names, f: Flags, ghost orig: Files, ghost packData: Content, ghost reportData: Content, ghost from: nat)
    returns (next: Next, g: Flags)
    requires n.Fresh(orig) && At(orig, d.files, n, packData, reportData, f) && Cleared(orig, n, f)
    requires from <= |d.trace| && SafeTrace(orig, d.trace, from, n, packData, reportData)
    modifies d
    ensures g == f.(packInstalled := g.packInstalled, reportInstalled := g.reportInstalled)
    ensures next == Go ==> At(orig, d.files, n, packData, reportData, g) && g.packInstalled && g.reportInstalled
    ensures next == Go ==> d.faults == old(d.faults)
    ensures next == Go ==> old(d.log) <= d.log && Settled(d.log, |old(d.log)|)
    ensures next != Go ==> Failure(orig, d.files, n, next.result) && d.faults > old(d.faults)
    ensures next == Stop(RollbackFailed) ==> d.faults > old(d.faults) + 1
    ensures old(d.trace) <= d.trace && SafeTrace(orig, d.trace, from, n, packData, reportData)
  {
    hide At, TargetAt, SafeTrace, SafeSince, Failure, Names.Fresh, Settled;
    g := f;
    ghost var log := d.log;
    SettledNone(log);
    SettledMove(log, |log|, n.packTmp, n.pack);
    MissingIsMissing(orig, d.files, n, packData, reportData, g);
    PackInstalled(orig, d.files, n, packData, reportData, g);
    var r := d.Rename(n.packTmp, n.pack);
    if r != Done {
      TraceStep(orig, old(d.trace), from, d.files, n, packData, reportData, g);
      var e := Abort(d, n, g, orig, packData, reportData, from);
      return Stop(e), g;
    }
    g := g.(packInstalled := true);
    TraceStep(orig, old(d.trace), from, d.files, n, packData, reportData, g);
    ghost var trace := d.trace;
    r := d.SyncDir();
    TraceStep(orig, trace, from, d.files, n, packData, reportData, g);
    if r != Done {
      var e := Abort(d, n, g, orig, packData, reportData, from);
      return Stop(e), g;
    }
    ghost var before := d.log;
    next, g := InstallReport(d, n, g, orig, packData, reportData, from);
    if next == Go {
      SettledTwice(before, d.log, |log|);
    }
  }

  method InstallReport(d: Disk, n: Names, f: Flags, ghost orig: Files, ghost packData: Content, ghost reportData: Content, ghost from: nat)
    returns (next: Next, g: Flags)
    requires n.Fresh(orig) && At(orig, d.files, n, packData, reportData, f) && f.packInstalled && !f.reportInstalled
    requires from <= |d.trace| && SafeTrace(orig, d.trace, from, n, packData, reportData)
    modifies d
    ensures g == f.(reportInstalled := g.reportInstalled)
    ensures next == Go ==> At(orig, d.files, n, packData, reportData, g) && g.reportInstalled
    ensures next == Go ==> d.faults == old(d.faults)
    ensures next == Go ==> old(d.log) <= d.log && Settled(d.log, |old(d.log)|)
    ensures next != Go ==> Failure(orig, d.files, n, next.result) && d.faults > old(d.faults)
    ensures next == Stop(RollbackFailed) ==> d.faults > old(d.faults) + 1
    ensures old(d.trace) <= d.trace && SafeTrace(orig, d.trace, from, n, packData, reportData)
  {
    hide At, TargetAt, SafeTrace, SafeSince, Failure, Names.Fresh, Settled;
    g := f;
    ghost var trace, log := d.trace, d.log;
    SettledNone(log);
    SettledMove(log, |log|, n.reportTmp, n.report);
    StagedReport(orig, d.files, n, packData, reportData, g);
    ReportInstalled(orig, d.files, n, packData, reportData, g);
    var r := d.Rename(n.reportTmp, n.report);
    if r != Done {
      TraceStep(orig, trace, from, d.files, n, packData, reportData, g);
      var e := Abort(d, n, g, orig, packData, reportData, from);
      return Stop(e), g;
    }
    g := g.(reportInstalled := true);
    TraceStep(orig, trace, from, d.files, n, packData, reportData, g);
    trace := d.trace;
    r := d.SyncDir();
    TraceStep(orig, trace, from, d.files, n, packData, reportData, g);
    if r != Done {
      var e := Abort(d, n, g, orig, packData, reportData, from);
      return Stop(e), g;
    }
    next := Go;
  }

  lemma StagedReport(orig: Files, s: Files, n: Names, packData: Content, reportData: Content, f: Flags)
    requires At(orig, s, n, packData, reportData, f) && !f.reportInstalled
    ensures n.reportTmp in s
  {
  }

  /** After the commit only the backups, and after a complete clean-up not even those, are left over. */
  ghost predicate Committed(orig: Files, s: Files, n: Names, packData: Content, reportData: Content, clean: bool) {
    && n.report in s && s[n.report] == reportData
    && (n.pack != n.report ==> n.pack in s && s[n.pack] == packData)
    && (forall p :: p != n.pack && p != n.report && !n.Temporary(p) ==> SameAt(orig, s, p))
    && n.packTmp !in s && n.reportTmp !in s
    && (clean ==> n.packBak !in s && n.reportBak !in s)
  }

  /** Remove the backups; failures are only reported. */
  method CleanUp(d: Disk, n: Names, f: Flags, ghost orig: Files, ghost packData: Content, ghost reportData: Content)
    returns (clean: bool)
    requires n.Fresh(orig) && At(orig, d.files, n, packData, reportData, f)
    requires f.packInstalled && f.reportInstalled
    modifies d
    ensures Committed(orig, d.files, n, packData, reportData, clean)
    ensures old(d.trace) <= d.trace
    ensures forall k :: |old(d.trace)| <= k < |d.trace| ==> n.pack != n.report ==> BothNew(d.trace[k], n, packData, reportData)
    ensures d.faults >= old(d.faults) && (!clean ==> d.faults > old(d.faults))
    ensures old(d.log) <= d.log && Settled(d.log, |old(d.log)|)
  {
    hide At, TargetAt, Committed, BothNew, Settled;
    ghost var log, before := d.log, d.log;
    SettledNone(log);
    Installed(orig, d.files, n, packData, reportData, f);
    clean := true;
    if f.packBackedUp {
      WithoutBackup(orig, d.files, n, packData, reportData, n.packBak);
      var r := d.Remove(n.packBak);
      if r == Failed { clean := false; }
      SettledOther(before, |log|, Other);
      before := d.log;
    }
    if f.reportBackedUp {
      WithoutBackup(orig, d.files, n, packData, reportData, n.reportBak);
      var r := d.Remove(n.reportBak);
      if r == Failed { clean := false; }
      SettledOther(before, |log|, Other);
      before := d.log;
    }
    var r := d.SyncDir();
    SettledOther(before, |log|, if r == Done then Synced else Other);
    if r == Failed { clean := false; }
    WithoutBackups(orig, d.files, n, packData, reportData);
  }

  lemma Installed(orig: Files, s: Files, n: Names, packData: Content, reportData: Content, f: Flags)
    requires n.Fresh(orig) && At(orig, s, n, packData, reportData, f) && f.packInstalled && f.reportInstalled
    ensures Committed(orig, s, n, packData, reportData, false) && (n.pack != n.report ==> BothNew(s, n, packData, reportData))
    ensures (n.packBak in s <==> f.packBackedUp) && (n.reportBak in s <==> f.reportBackedUp)
  {
  }

  lemma WithoutBackup(orig: Files, s: Files, n: Names, packData: Content, reportData: Content, p: Path)
    requires n.Fresh(orig) && Committed(orig, s, n, packData, reportData, false) && (p == n.packBak || p == n.reportBak)
    ensures Committed(orig, s - {p}, n, packData, reportData, false)
    ensures n.pack != n.report ==> BothNew(s, n, packData, reportData) && BothNew(s - {p}, n, packData, reportData)
  {
  }

  lemma WithoutBackups(orig: Files, s: Files, n: Names, packData: Content, reportData: Content)
    requires Committed(orig, s, n, packData, reportData, false)
    ensures n.packBak !in s && n.reportBak !in s ==> Committed(orig, s, n, packData, reportData, true)
  {
  }

  lemma StagedFilesDoNotMatter(orig: Files, t: Files, s: Files, n: Names, packData: Content, reportData: Content)
    requires n.Fresh(orig) && SameButStaged(t, s, n)
    ensures t == orig ==> Safe(orig, s, n, packData, reportData)
    ensures Safe(orig, t, n, packData, reportData) ==> Safe(orig, s, n, packData, reportData)
  {
    assert SameAt(t, s, n.pack) && SameAt(t, s, n.report) && SameAt(t, s, n.packBak) && SameAt(t, s, n.reportBak);
  }

  lemma FailureButStaged(orig: Files, t: Files, s: Files, n: Names, r: PairResult)
    requires n.Fresh(orig) && SameButStaged(t, s, n) && Failure(orig, t, n, r)
    ensures Failure(orig, s, n, r)
    ensures n.pack != n.report ==> Recoverable(orig, t, n.pack, n.packBak) && Recoverable(orig, t, n.report, n.reportBak)
  {
    assert SameAt(t, s, n.pack) && SameAt(t, s, n.report) && SameAt(t, s, n.packBak) && SameAt(t, s, n.reportBak);
    if n.pack != n.report {
      forall p | p != n.packTmp && p != n.reportTmp && (r == Aborted || (p != n.pack && p != n.report && !n.Temporary(p)))
        ensures SameAt(orig, s, p)
      {
        assert SameAt(t, s, p) && SameAt(orig, t, p);
      }
    }
  }

  /** Removing staged files after an error keeps every state safe. */
  lemma StillSafe(orig: Files, t: Files, trace: seq<Files>, from: nat, mid: nat, n: Names, packData: Content, reportData: Content)
    requires n.Fresh(orig) && Safe(orig, t, n, packData, reportData)
    requires from <= mid <= |trace| && SafeSince(orig, trace[..mid], from, n, packData, reportData)
    requires StagedOnly(t, trace, mid, n)
    ensures SafeSince(orig, trace, from, n, packData, reportData)
  {
    forall k | from <= k < |trace| ensures Safe(orig, trace[k], n, packData, reportData) {
      if k < mid {
        assert trace[..mid][k] == trace[k];
      } else {
        StagedFilesDoNotMatter(orig, t, trace[k], n, packData, reportData);
      }
    }
  }

  lemma AfterFailure(orig: Files, s: Files, n: Names, r: PairResult)
    requires Failure(orig, s, n, r)
    ensures r == Aborted && n.pack != n.report ==> forall p :: p != n.packTmp && p != n.reportTmp ==> SameAt(orig, s, p)
    ensures r == RollbackFailed && n.pack != n.report ==> RolledBack(orig, s, n, false)
  {
  }

  lemma RecoverableIsSafe(orig: Files, s: Files, n: Names, packData: Content, reportData: Content)
    requires Recoverable(orig, s, n.pack, n.packBak) && Recoverable(orig, s, n.report, n.reportBak)
    ensures Safe(orig, s, n, packData, reportData)
  {
  }

  lemma FailureIsSafe(orig: Files, t: Files, trace: seq<Files>, from: nat, mid: nat, n: Names, packData: Content, reportData: Content)
    requires n.Fresh(orig) && Recoverable(orig, t, n.pack, n.packBak) && Recoverable(orig, t, n.report, n.reportBak)
    requires from <= mid <= |trace| && SafeSince(orig, trace[..mid], from, n, packData, reportData)
    requires StagedOnly(t, trace, mid, n)
    ensures SafeSince(orig, trace, from, n, packData, reportData)
  {
    RecoverableIsSafe(orig, t, n, packData, reportData);
    StillSafe(orig, t, trace, from, mid, n, packData, reportData);
  }

  lemma BothNewIsSafe(orig: Files, s: Files, trace: seq<Files>, mid: nat, mid': nat, n: Names, packData: Content, reportData: Content)
    requires mid <= mid' <= |trace| && BothNew(s, n, packData, reportData)
    requires forall k :: mid <= k < mid' ==> BothNew(trace[k], n, packData, reportData)
    ensures Safe(orig, s, n, packData, reportData)
    ensures forall k :: mid <= k < mid' ==> Safe(orig, trace[k], n, packData, reportData)
  {
  }

  lemma SettledAfterStaging(log: seq<Op>, before: seq<Op>, after: seq<Op>, n: Names, packData: Content, reportData: Content)
    requires log <= before <= after && ReadBackBoth(before, |log|, n, packData, reportData) && Settled(after, |before|)
    ensures Settled(after, |log|) && ReadFirst(after, |log|, n, packData, reportData)
  {
    ReadBackFirst(before, after, |log|, n, packData, reportData);
    SettledTwice(before, after, |log|);
  }

  lemma NoneStaged(orig: Files, s: Files, n: Names, packData: Content, reportData: Content, clean: bool)
    requires Committed(orig, s, n, packData, reportData, clean)
    ensures n.packTmp !in s && n.reportTmp !in s
    ensures n.pack != n.report ==> BothNew(s, n, packData, reportData)
  {
  }

  /** Both staged files take the place of the targets, or the old ones are put back. */
  method Replace(d: Disk, n: Names, ghost orig: Files, ghost packData: Content, ghost reportData: Content, ghost from: nat)
    returns (r: PairResult)
    requires n.Fresh(orig) && At(orig, d.files, n, packData, reportData, START)
    requires from <= |d.trace| && SafeTrace(orig, d.trace, from, n, packData, reportData)
    modifies d
    ensures r != Rejected
    ensures r in [Ok, CommittedStaleBackups] ==> old(d.log) <= d.log && Settled(d.log, |old(d.log)|)
    ensures r in [Ok, CommittedStaleBackups] ==> Committed(orig, d.files, n, packData, reportData, r == Ok)
    ensures r in [Aborted, RollbackFailed] ==> Failure(orig, d.files, n, r) && d.faults > old(d.faults)
    ensures r == RollbackFailed ==> d.faults > old(d.faults) + 1
    ensures d.faults >= old(d.faults) && (d.faults == old(d.faults) ==> r == Ok)
    ensures old(d.trace) <= d.trace && SafeTrace(orig, d.trace, from, n, packData, reportData)
  {
    hide At, TargetAt, Safe, RolledBack, SameAt, Recoverable, Committed, BothNew, SameButStaged, Failure, Settled;
    ghost var log := d.log;
    var next, f := BackUp(d, n, orig, packData, reportData, from);
    ghost var settled := d.log;
    if next == Go {
      next, f := Install(d, n, f, orig, packData, reportData, from);
      if next == Go { SettledTwice(settled, d.log, |log|); }
      settled := d.log;
    }
    ghost var t, mid := d.files, |d.trace|;
    if next != Go {
      RemoveStaged(d, n);
      r := next.result;
      FailureButStaged(orig, t, d.files, n, r);
      if n.pack != n.report {
        FailureIsSafe(orig, t, d.trace, from, mid, n, packData, reportData);
      }
      return;
    }
    var clean := CleanUp(d, n, f, orig, packData, reportData);
    ghost var t', mid' := d.files, |d.trace|;
    NoneStaged(orig, d.files, n, packData, reportData, clean);
    SettledTwice(settled, d.log, |log|);
    settled := d.log;
    RemoveStaged(d, n);
    SettledTwice(settled, d.log, |log|);
    r := if clean then Ok else CommittedStaleBackups;
    if n.pack != n.report {
      BothNewIsSafe(orig, t', d.trace, mid, mid', n, packData, reportData);
      StillSafe(orig, t', d.trace, from, mid', n, packData, reportData);
    }
  }

  /** Stage both files and read them back; the deferred removal of staged files covers the errors. */
  method StageBoth(d: Disk, n: Names, packData: Content, reportData: Content) returns (ok: bool)
    requires n.Fresh(d.files)
    modifies d
    ensures ok ==> d.files == old(d.files)[n.packTmp := packData][n.reportTmp := reportData] && d.faults == old(d.faults)
    ensures !ok ==> d.faults > old(d.faults)
    ensures ok ==> old(d.log) <= d.log && ReadBackBoth(d.log, |old(d.log)|, n, packData, reportData)
    ensures SameButStaged(old(d.files), d.files, n)
    ensures old(d.trace) <= d.trace && StagedOnly(old(d.files), d.trace, |old(d.trace)|, n)
  {
    hide ReadBackBoth;
    ghost var log := d.log;
    ghost var orig, from := d.files, |d.trace|;
    ok := Stage(d, n, n.packTmp, packData);
    if !ok {
      return;
    }
    ghost var mid, staged := d.files, |d.trace|;
    ok := Stage(d, n, n.reportTmp, reportData);
    SameButStagedTrans(orig, mid, d.files, n);
    StagedOnlyTrans(orig, mid, d.trace, staged, n);
    if !ok {
      mid := d.files;
      var _ := d.Remove(n.packTmp);
      assert SameButStaged(mid, d.files, n);
      SameButStagedTrans(orig, mid, d.files, n);
      return;
    }
    var read := d.ReadFile(n.packTmp);
    if read == Read(packData) {
      read := d.ReadFile(n.reportTmp);
      ok := read == Read(reportData);
      BothReadBack(log, n, packData, reportData);
    } else {
      ok := false;
    }
    if !ok {
      mid, staged := d.files, |d.trace|;
      RemoveStaged(d, n);
      SameButStagedTrans(orig, mid, d.files, n);
      StagedOnlyTrans(orig, mid, d.trace, staged, n);
    }
  }

  /** Replace both files, or neither. sameDir: the targets share a directory. raw paths are what the
      caller passed, n holds what they resolve to.

      For targets that differ: success means both new files are in place; any other result without a
      reported rollback failure leaves both targets, and everything but staged files, as they were;
      and after every single operation nothing is lost. Without faults the call succeeds and changes
      nothing else. If both paths resolve to one file, success leaves the report there. */
  method WritePairAtomic(d: Disk, rawPack: string, rawReport: string, sameDir: bool, n: Names,
                         packData: Content, reportData: Content)
    returns (r: PairResult)
    requires n.Fresh(d.files)
    requires rawPack == rawReport ==> n.pack == n.report
    modifies d
    ensures r in [Ok, CommittedStaleBackups] ==> Committed(old(d.files), d.files, n, packData, reportData, r == Ok)
    ensures r in [Aborted, Rejected] && n.pack != n.report ==>
              forall p :: p != n.packTmp && p != n.reportTmp ==> SameAt(old(d.files), d.files, p)
    ensures r == RollbackFailed && n.pack != n.report ==> RolledBack(old(d.files), d.files, n, false)
    // a success is one in which both files were read back before anything moved, and every move was synced
    ensures r in [Ok, CommittedStaleBackups] ==>
              && old(d.log) <= d.log && Settled(d.log, |old(d.log)|)
              && ReadFirst(d.log, |old(d.log)|, n, packData, reportData)
    // one failing operation is always rolled back
    ensures r == RollbackFailed ==> d.faults > old(d.faults) + 1
    ensures n.pack != n.report ==> SafeSince(old(d.files), d.trace, |old(d.trace)|, n, packData, reportData)
    ensures d.faults == old(d.faults) && rawPack != rawReport && sameDir ==> r == Ok
    ensures r == Rejected <==> rawPack == rawReport || !sameDir
    ensures r == Rejected ==> d.files == old(d.files)
  {
    if rawPack == rawReport || !sameDir {
      return Rejected;
    }
    ghost var orig, from := d.files, |d.trace|;
    hide At, TargetAt, Safe, RolledBack, SameAt, Committed, Settled, ReadBackBoth, ReadFirst;
    ghost var log := d.log;
    var staged := StageBoth(d, n, packData, reportData);
    forall k | from <= k < |d.trace| ensures Safe(orig, d.trace[k], n, packData, reportData) {
      StagedFilesDoNotMatter(orig, orig, d.trace[k], n, packData, reportData);
    }
    if !staged {
      return Aborted;
    }
    Staged(orig, n, packData, reportData);
    ghost var before := d.log;
    r := Replace(d, n, orig, packData, reportData, from);
    if r in [Ok, CommittedStaleBackups] {
      SettledAfterStaging(log, before, d.log, n, packData, reportData);
    }
    if r in [Aborted, RollbackFailed] {
      AfterFailure(orig, d.files, n, r);
    }
  }

  /** Success puts both new contents in place if and only if the paths resolve to different files (or
      the contents are the same). Only the paths as given are compared, so two spellings of one path
      get through, and the report replaces the pack. */
  lemma CommitPlacesBothIff(orig: Files, s: Files, n: Names, packData: Content, reportData: Content, clean: bool)
    requires Committed(orig, s, n, packData, reportData, clean)
    ensures BothNew(s, n, packData, reportData) <==> n.pack != n.report || packData == reportData
  {
  }
}
