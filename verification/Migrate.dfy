/** One run of Migrate as the source executes it (internal/db/postgres.go, lines 137-195),
    and its place among the runs of the step machine. */
module Migrate {
  import opened Results
  import opened Migration
  import opened MigrationFiles
  import MigrationRuns

  /** The database behind the connection; the mutable state a run works on. */
  class Database {
    var log: seq<string>
    var versions: seq<string>
    var locked: bool

    constructor ()
      ensures log == [] && versions == [] && !locked
    {
      log, versions, locked := [], [], false;
    }

    function Content(): Db
      reads this
    {
      Db(log, versions)
    }
  }

  /** What goes wrong with one file, if it is reached. */
  datatype Fault = NoFault | CheckFails | ReadFails | BeginFails | SqlFails | RecordFails
                 | CommitFails | CommitLies

  /** This run, not yet started, alone on database db. */
  function Idle(db: Db, files: seq<string>): State {
    State(db, None, [Runner(files, Waiting, NO_TX, [])], [], 0)
  }

  /** The run holding the lock. */
  function Scanning(db: Db, files: seq<string>, st: Stage, applied: seq<string>, lies: nat): State {
    State(db, Some(0), [Runner(files, st, NO_TX, applied)], [0], lies)
  }

  const CHECKED: seq<Label> := [Act(0, Check)]
  const BEGUN: seq<Label> := CHECKED + [Act(0, Begin)]
  const RAN: seq<Label> := BEGUN + [Act(0, RunSql)]
  const RECORDED: seq<Label> := RAN + [Act(0, Record)]

  lemma RecordedState(db: Db, files: seq<string>, i: nat, applied: seq<string>, lies: nat)
    requires i < |files| && files[i] !in db.versions
    ensures var s := Scanning(db, files, At(i), applied, lies);
            && Exec(s, BEGUN) == s.(runners := [Runner(files, Begun(i), NO_TX, applied)])
            && Exec(s, RAN) == s.(runners := [Runner(files, Ran(i), Db([files[i]], []), applied)])
            && Exec(s, RECORDED) == s.(runners := [Runner(files, Recorded(i), Db([files[i]], [files[i]]), applied)])
  {
    var s := Scanning(db, files, At(i), applied, lies);
    ExecSnoc(s, CHECKED, Act(0, Begin));
    ExecSnoc(s, BEGUN, Act(0, RunSql));
    ExecSnoc(s, RAN, Act(0, Record));
    assert [] + [files[i]] == [files[i]];
    assert files[i] !in db.versions + [];
  }

  /** The steps of one pass of the loop: what comes after the version check is skipped for a
      recorded file. */
  function PassLabels(recorded: bool, fault: Fault): seq<Label> {
    if fault.CheckFails? then [] + [Act(0, Fail)]
    else if recorded then CHECKED
    else match fault
      case CheckFails => []
      case ReadFails => CHECKED + [Act(0, Fail)]
      case BeginFails => CHECKED + [Act(0, Fail)]
      case SqlFails => BEGUN + [Act(0, Fail)]
      case RecordFails => RAN + [Act(0, Fail)]
      case CommitFails => RECORDED + [Act(0, Commit(false, false))]
      case CommitLies => RECORDED + [Act(0, Commit(true, false))]
      case NoFault => RECORDED + [Act(0, Commit(true, true))]
  }

  /** Does one pass leave the file's SQL and its version in the database? */
  predicate Lands(recorded: bool, fault: Fault) {
    !recorded && (fault.NoFault? || fault.CommitLies?)
  }

  /** Does the loop go on after one pass? */
  predicate GoesOn(recorded: bool, fault: Fault) {
    fault.NoFault? || (recorded && !fault.CheckFails?)
  }

  function PassDb(db: Db, file: string, fault: Fault): Db {
    if Lands(file in db.versions, fault) then Db(db.log + [file], db.versions + [file]) else db
  }

  /** What each fault means: a recorded file is passed unless its check fails; another is passed only
      without fault, and enters the database then or when its commit lies. */
  lemma FaultsMean(db: Db, file: string, fault: Fault)
    ensures GoesOn(file in db.versions, fault) <==>
            if file in db.versions then fault != CheckFails else fault == NoFault
    ensures PassDb(db, file, fault) ==
            if file !in db.versions && (fault == NoFault || fault == CommitLies)
            then Db(db.log + [file], db.versions + [file]) else db
  {
  }

  /** The run after one pass of the loop. */
  function AfterPass(db: Db, files: seq<string>, i: nat, applied: seq<string>, lies: nat, fault: Fault): State
    requires i < |files|
  {
    var recorded := files[i] in db.versions;
    Scanning(PassDb(db, files[i], fault), files,
             if GoesOn(recorded, fault) then At(i + 1) else Leaving(false),
             if !recorded && fault.NoFault? then applied + [files[i]] else applied,
             if !recorded && fault.CommitLies? then lies + 1 else lies)
  }

  lemma FailedBegin(db: Db, files: seq<string>, i: nat, applied: seq<string>, lies: nat)
    requires i < |files| && files[i] !in db.versions
    ensures Exec(Scanning(db, files, At(i), applied, lies), CHECKED + [Act(0, Fail)]) ==
            Scanning(db, files, Leaving(false), applied, lies)
  {
    ExecSnoc(Scanning(db, files, At(i), applied, lies), CHECKED, Act(0, Fail));
  }

  lemma EarlyPass(db: Db, files: seq<string>, i: nat, applied: seq<string>, lies: nat, fault: Fault)
    requires i < |files|
    requires files[i] in db.versions || fault.CheckFails? || fault.ReadFails? || fault.BeginFails?
    ensures Exec(Scanning(db, files, At(i), applied, lies), PassLabels(files[i] in db.versions, fault)) ==
            AfterPass(db, files, i, applied, lies, fault)
  {
    if fault.CheckFails? {
    } else if files[i] in db.versions {
    } else {
      FailedBegin(db, files, i, applied, lies);
    }
  }

  lemma RolledBackPass(db: Db, files: seq<string>, i: nat, applied: seq<string>, lies: nat, fault: Fault)
    requires i < |files| && files[i] !in db.versions
    requires fault.SqlFails? || fault.RecordFails? || fault.CommitFails?
    ensures Exec(Scanning(db, files, At(i), applied, lies), PassLabels(false, fault)) ==
            AfterPass(db, files, i, applied, lies, fault)
  {
    var s := Scanning(db, files, At(i), applied, lies);
    RecordedState(db, files, i, applied, lies);
    ExecSnoc(s, BEGUN, Act(0, Fail));
    ExecSnoc(s, RAN, Act(0, Fail));
    ExecSnoc(s, RECORDED, Act(0, Commit(false, false)));
  }

  lemma CommittedPass(db: Db, files: seq<string>, i: nat, applied: seq<string>, lies: nat, fault: Fault)
    requires i < |files| && Lands(files[i] in db.versions, fault)
    ensures Exec(Scanning(db, files, At(i), applied, lies), PassLabels(false, fault)) ==
            AfterPass(db, files, i, applied, lies, fault)
  {
    var s := Scanning(db, files, At(i), applied, lies);
    RecordedState(db, files, i, applied, lies);
    ExecSnoc(s, RECORDED, Act(0, Commit(true, fault.NoFault?)));
  }

  lemma Pass(db: Db, files: seq<string>, i: nat, applied: seq<string>, lies: nat, fault: Fault)
    requires i < |files|
    ensures Exec(Scanning(db, files, At(i), applied, lies), PassLabels(files[i] in db.versions, fault)) ==
            AfterPass(db, files, i, applied, lies, fault)
  {
    if Lands(files[i] in db.versions, fault) {
      CommittedPass(db, files, i, applied, lies, fault);
    } else if files[i] !in db.versions && (fault.SqlFails? || fault.RecordFails? || fault.CommitFails?) {
      RolledBackPass(db, files, i, applied, lies, fault);
    } else {
      EarlyPass(db, files, i, applied, lies, fault);
    }
  }

  /** One pass appended to a schedule that has brought the run to file i. */
  lemma PassFrom(s0: State, schedule: seq<Label>, db: Db, files: seq<string>, i: nat,
                 applied: seq<string>, lies: nat, fault: Fault)
    returns (longer: seq<Label>)
    requires i < |files| && Exec(s0, schedule) == Scanning(db, files, At(i), applied, lies)
    ensures Exec(s0, longer) == AfterPass(db, files, i, applied, lies, fault)
  {
    var labels := PassLabels(files[i] in db.versions, fault);
    Pass(db, files, i, applied, lies, fault);
    ExecConcat(s0, schedule, labels);
    longer := schedule + labels;
  }

  lemma LastCheck(s0: State, schedule: seq<Label>, db: Db, files: seq<string>, applied: seq<string>, lies: nat)
    returns (longer: seq<Label>)
    requires Exec(s0, schedule) == Scanning(db, files, At(|files|), applied, lies)
    ensures Exec(s0, longer) == Scanning(db, files, Leaving(true), applied, lies)
  {
    ExecSnoc(s0, schedule, Act(0, Check));
    longer := schedule + [Act(0, Check)];
  }

  /** One pass of the loop (lines 163-192): the version check, then one transaction for the SQL
      and its version. */
  method ApplyFile(db: Database, version: string, fault: Fault) returns (recorded: bool, ok: bool)
    modifies db`log, db`versions
    ensures ok == GoesOn(version in old(db.versions), fault)
    ensures ok ==> recorded == (version in old(db.versions)) && version in db.versions
    ensures db.Content() == PassDb(old(db.Content()), version, fault)
  {
    recorded, ok := false, false;
    if fault.CheckFails? {
      return;
    }
    recorded := version in db.versions;
    if recorded {
      ok := true;
      return;
    }
    if fault.ReadFails? || fault.BeginFails? {
      return;
    }
    var txLog, txVersions := [], [];
    if fault.SqlFails? {
      return;
    }
    txLog := txLog + [version];
    if fault.RecordFails? {
      return;
    }
    txVersions := txVersions + [version];
    if !fault.CommitFails? {
      db.log, db.versions := db.log + txLog, db.versions + txVersions;
    }
    ok := fault.NoFault?;
  }

  // ---- what a run does, said without its steps

  /** The files without a record, in order. */
  function Unrecorded(files: seq<string>, versions: seq<string>): seq<string> {
    if files == [] then []
    else
      var u := Unrecorded(files[..|files| - 1], versions);
      var f := files[|files| - 1];
      if f in versions then u else u + [f]
  }

  function Added(db: Db, files: seq<string>): Db {
    Db(db.log + files, db.versions + files)
  }

  /** Does the loop get past each of the first n files? */
  predicate Passes(db: Db, files: seq<string>, faults: nat -> Fault, n: nat)
    requires n <= |files|
  {
    forall i: nat :: i < n ==> GoesOn(files[i] in db.versions, faults(i))
  }

  /** The files whose SQL and version a run adds that gets past n files: the unrecorded ones among
      them and the one after them, if its commit took effect without being reported. */
  function Landed(db: Db, files: seq<string>, faults: nat -> Fault, n: nat): seq<string>
    requires n <= |files|
  {
    Unrecorded(files[..n], db.versions)
    + if n < |files| && Lands(files[n] in db.versions, faults(n)) then [files[n]] else []
  }

  lemma {:induction false} UnrecordedIn(files: seq<string>, versions: seq<string>)
    ensures forall f :: f in Unrecorded(files, versions) <==> f in files && f !in versions
  {
    if files != [] {
      UnrecordedIn(files[..|files| - 1], versions);
      assert files == files[..|files| - 1] + [files[|files| - 1]];
    }
  }

  lemma UnrecordedNext(files: seq<string>, versions: seq<string>, i: nat)
    requires i < |files| && Distinct(files)
    ensures Unrecorded(files[..i + 1], versions) ==
            Unrecorded(files[..i], versions) + if files[i] in versions then [] else [files[i]]
    ensures files[i] in versions + Unrecorded(files[..i], versions) <==> files[i] in versions
  {
    assert files[..i + 1][..i] == files[..i];
    UnrecordedIn(files[..i], versions);
  }

  /** The loop's state before file i. */
  predicate Reached(db: Db, files: seq<string>, faults: nat -> Fault, i: nat, now: Db, applied: seq<string>) {
    && i <= |files| && Passes(db, files, faults, i)
    && applied == Unrecorded(files[..i], db.versions)
    && now == Added(db, applied)
  }

  lemma PassReaches(db: Db, files: seq<string>, faults: nat -> Fault, i: nat, now: Db, applied: seq<string>)
    requires i < |files| && Distinct(files) && Reached(db, files, faults, i, now, applied)
    ensures (files[i] in now.versions) == (files[i] in db.versions)
    ensures var recorded := files[i] in db.versions;
            if GoesOn(recorded, faults(i))
            then Reached(db, files, faults, i + 1, PassDb(now, files[i], faults(i)),
                         if recorded then applied else applied + [files[i]])
            else PassDb(now, files[i], faults(i)) == Added(db, Landed(db, files, faults, i))
  {
    UnrecordedNext(files, db.versions, i);
    assert now.log + [files[i]] == db.log + (applied + [files[i]]);
    assert now.versions + [files[i]] == db.versions + (applied + [files[i]]);
    assert applied + [] == applied;
  }

  lemma PassStops(db: Db, files: seq<string>, i: nat, applied: seq<string>, lies: nat, fault: Fault, now: Db)
    returns (lies': nat)
    requires i < |files| && !GoesOn(files[i] in db.versions, fault) && now == PassDb(db, files[i], fault)
    ensures AfterPass(db, files, i, applied, lies, fault) == Scanning(now, files, Leaving(false), applied, lies')
  {
    lies' := if files[i] !in db.versions && fault.CommitLies? then lies + 1 else lies;
  }

  /** The loop over the sorted files, with the lock held. It gets past `stop` files and ends at
      the first one with a fault that matters, or at the end. */
  method ApplyFiles(db: Database, files: seq<string>, faults: nat -> Fault)
    returns (applied: seq<string>, ok: bool, ghost stop: nat, ghost lies: nat, ghost schedule: seq<Label>)
    requires Distinct(files)
    modifies db`log, db`versions
    ensures Exec(Scanning(old(db.Content()), files, At(0), [], 0), schedule) ==
            Scanning(db.Content(), files, Leaving(ok), applied, lies)
    ensures stop <= |files| && Passes(old(db.Content()), files, faults, stop) && (ok <==> stop == |files|)
    ensures !ok ==> !GoesOn(files[stop] in old(db.versions), faults(stop))
    ensures applied == Unrecorded(files[..stop], old(db.versions))
    ensures db.Content() == Added(old(db.Content()), Landed(old(db.Content()), files, faults, stop))
  {
    ghost var db0 := db.Content();
    ghost var s0 := Scanning(db0, files, At(0), [], 0);
    applied, lies, schedule := [], 0, [];
    var i := 0;
    while i < |files|
      invariant 0 <= i <= |files|
      invariant Exec(s0, schedule) == Scanning(db.Content(), files, At(i), applied, lies)
      invariant Reached(db0, files, faults, i, db.Content(), applied)
    {
      ghost var before, reported := db.Content(), applied;
      PassReaches(db0, files, faults, i, before, applied);
      schedule := PassFrom(s0, schedule, before, files, i, applied, lies, faults(i));
      var recorded;
      recorded, ok := ApplyFile(db, files[i], faults(i));
      if !ok {
        stop := i;
        lies := PassStops(before, files, i, applied, lies, faults(i), db.Content());
        return;
      }
      if !recorded {
        applied := applied + [files[i]];
      }
      i := i + 1;
    }
    stop, ok := i, true;
    schedule := LastCheck(s0, schedule, db.Content(), files, applied, lies);
  }

  /** The names of the directory's SQL files, in order, without their suffix (lines 154-164). */
  method ListFiles(entries: seq<DirEntry>) returns (files: seq<string>)
    ensures files == FilesOf(entries)
  {
    var names := [];
    for i := 0 to |entries|
      invariant names == SqlNames(entries[..i])
    {
      assert entries[..i + 1][..i] == entries[..i];
      if IsSql(entries[i]) {
        names := names + [entries[i].name];
      }
    }
    assert entries[..|entries|] == entries;
    SortedFit(entries);
    files := Versions(Sort(names));
  }

  lemma LockedRun(db: Db, files: seq<string>, prepareFails: bool) returns (schedule: seq<Label>)
    ensures Exec(Idle(db, files), schedule) ==
            Scanning(db, files, if prepareFails then Leaving(false) else At(0), [], 0)
  {
    var s0 := Idle(db, files);
    var l := Act(0, if prepareFails then Fail else Prepare);
    ExecSnoc(s0, [], Act(0, Lock));
    ExecSnoc(s0, [] + [Act(0, Lock)], l);
    PreparedState(db, files, prepareFails);
    schedule := [] + [Act(0, Lock)] + [l];
  }

  lemma PreparedState(db: Db, files: seq<string>, prepareFails: bool)
    ensures Next(Scanning(db, files, Locked, [], 0), Act(0, if prepareFails then Fail else Prepare)) ==
            Scanning(db, files, if prepareFails then Leaving(false) else At(0), [], 0)
  {
  }

  /** The run when Migrate returns. If the unlock fails the lock stays with the session. */
  function AtReturn(db: Db, files: seq<string>, ok: bool, applied: seq<string>, lies: nat, unlockFails: bool): State {
    if unlockFails then Scanning(db, files, Leaving(ok), applied, lies)
    else State(db, None, [Runner(files, Finished(ok), NO_TX, applied)], [0], lies)
  }

  lemma LastStep(s0: State, schedule: seq<Label>, db: Db, files: seq<string>, ok: bool, applied: seq<string>,
                 lies: nat, unlockFails: bool)
    returns (longer: seq<Label>)
    requires Exec(s0, schedule) == Scanning(db, files, Leaving(ok), applied, lies)
    ensures Exec(s0, longer) == AtReturn(db, files, ok, applied, lies, unlockFails)
  {
    if unlockFails {
      longer := schedule;
    } else {
      ExecSnoc(s0, schedule, Act(0, Unlock));
      longer := schedule + [Act(0, Unlock)];
    }
  }

  /** When the session of a run whose unlock failed ends, that is its unlock. */
  lemma SessionEnds(db: Db, files: seq<string>, ok: bool, applied: seq<string>, lies: nat)
    ensures Next(AtReturn(db, files, ok, applied, lies, true), Act(0, Crash)) ==
            AtReturn(db, files, ok, applied, lies, false)
  {
  }

  /** Migrate, from taking the lock to giving it back, which may fail. The directory lists no name
      twice. A session that dies is a fault of the call at hand and a failing unlock. The ghost
      schedule shows that this execution is a run of the step machine with the same database and
      the same result; `stop` is the number of files it gets past. */
  method Migrate(db: Database, entries: seq<DirEntry>, lockFails: bool, prepareFails: bool, faults: nat -> Fault,
                 unlockFails: bool)
    returns (applied: seq<string>, ok: bool, ghost stop: nat, ghost lies: nat, ghost schedule: seq<Label>)
    requires !db.locked && DistinctNames(entries)
    modifies db
    ensures db.locked == (!lockFails && unlockFails)
    ensures var s, files := Exec(Idle(old(db.Content()), FilesOf(entries)), schedule), FilesOf(entries);
            if lockFails
            then s == Idle(db.Content(), files).(runners := [Runner(files, Finished(false), NO_TX, [])])
            else s == AtReturn(db.Content(), files, ok, applied, lies, unlockFails)
    ensures !lockFails && unlockFails ==>
              var s, files := Exec(Idle(old(db.Content()), FilesOf(entries)), schedule), FilesOf(entries);
              Next(s, Act(0, Crash)) == AtReturn(db.Content(), files, ok, applied, lies, false)
    ensures lockFails || prepareFails ==> !ok && applied == [] && db.Content() == old(db.Content())
    ensures !lockFails && !prepareFails ==>
              var files, db0 := FilesOf(entries), old(db.Content());
              && stop <= |files| && Passes(db0, files, faults, stop) && (ok <==> stop == |files|)
              && (!ok ==> !GoesOn(files[stop] in db0.versions, faults(stop)))
              && applied == Unrecorded(files[..stop], db0.versions)
              && db.Content() == Added(db0, Landed(db0, files, faults, stop))
  {
    ghost var s0 := Idle(db.Content(), FilesOf(entries));
    applied, ok, stop, lies := [], false, 0, 0;
    if lockFails {
      schedule := [] + [Act(0, Crash)];
      ExecSnoc(s0, [], Act(0, Crash));
      return;
    }
    db.locked := true;
    schedule := LockedRun(db.Content(), FilesOf(entries), prepareFails);
    if !prepareFails {
      var files := ListFiles(entries);
      FilesDistinct(entries);
      ghost var more;
      applied, ok, stop, lies, more := ApplyFiles(db, files, faults);
      ExecConcat(s0, schedule, more);
      schedule := schedule + more;
    }
    schedule := LastStep(s0, schedule, db.Content(), FilesOf(entries), ok, applied, lies, unlockFails);
    SessionEnds(db.Content(), FilesOf(entries), ok, applied, lies);
    if !unlockFails {
      db.locked := false;
    }
  }

  // ---- runs whose lists are incomplete

  lemma Started(files: seq<string>) returns (ls: seq<Label>)
    ensures Exec(INIT, ls) == Idle(NO_TX, files)
  {
    ls := [] + [Start(files)];
    ExecSnoc(INIT, [], Start(files));
    assert [] + [Runner(files, Waiting, NO_TX, [])] == [Runner(files, Waiting, NO_TX, [])];
  }

  /** A run over one file, up to the end of its one pass. */
  lemma OnePass(file: string, fault: Fault) returns (ls: seq<Label>)
    ensures Exec(INIT, ls) == AfterPass(NO_TX, [file], 0, [], 0, fault)
  {
    var started := Started([file]);
    var locked := LockedRun(NO_TX, [file], false);
    ExecConcat(INIT, started, locked);
    ls := PassFrom(INIT, started + locked, NO_TX, [file], 0, [], 0, fault);
  }

  /** The lists that the runs have returned. */
  function Lists(s: State): seq<string>
    requires MigrationRuns.OrderFits(s)
  {
    MigrationRuns.Returned(s.order, s.runners)
  }

  /** One file whose commit takes effect and reports an error: the version is recorded, and all
      that ran has returned, but not the file. */
  lemma LyingCommit(file: string) returns (ls: seq<Label>)
    ensures var s := Exec(INIT, ls);
            && s.lies == 1 && s.db == Db([file], [file])
            && |s.runners| == 1 && s.runners[0].stage == Finished(false)
            && MigrationRuns.OrderFits(s) && Lists(s) == []
  {
    var pass := OnePass(file, CommitLies);
    ls := LastStep(INIT, pass, Db([file], [file]), [file], false, [], 1, false);
    MigrationRuns.ReportsIffTruthful(ls);
  }

  /** A process killed after a truthful commit: the version is recorded and nobody reports it. */
  lemma KilledRun(file: string) returns (ls: seq<Label>)
    ensures var s := Exec(INIT, ls);
            && s.lies == 0 && s.db == Db([file], [file]) && |s.runners| == 1 && s.runners[0].stage == Killed
            && MigrationRuns.OrderFits(s) && Lists(s) == []
  {
    var pass := OnePass(file, NoFault);
    ExecSnoc(INIT, pass, Act(0, Kill));
    ls := pass + [Act(0, Kill)];
    KilledState(file);
    MigrationRuns.ReportsIffTruthful(ls);
  }

  lemma KilledState(file: string)
    ensures Next(AfterPass(NO_TX, [file], 0, [], 0, NoFault), Act(0, Kill)) ==
            State(Db([file], [file]), None, [Runner([file], Killed, NO_TX, [file])], [0], 0)
  {
    assert [] + [file] == [file];
  }
}
