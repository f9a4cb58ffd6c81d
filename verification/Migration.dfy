/** The migration runner (Migrate, internal/db/postgres.go, lines 129-195) as a step machine:
    any number of runs, each an advisory lock, a scan of the sorted files and one transaction per
    missing file. Every step may fail, a session may die anywhere (Crash), so may the process that
    runs it (Kill), and a commit may take effect and still be reported as failed. A label that does
    not fit the state changes nothing. */
module Migration {
  import opened Results

  /** log: the files whose SQL has taken effect, in order; versions: the rows of
      schema_migrations, in order of insertion. */
  datatype Db = Db(log: seq<string>, versions: seq<string>)

  datatype Stage =
    | Waiting
    | Locked
    | At(i: nat)
    | Missing(i: nat)
    | Begun(i: nat)
    | Ran(i: nat)
    | Recorded(i: nat)
    | Leaving(ok: bool)
    | Finished(ok: bool)
    | Killed

  /** files: the sorted versions this run sees; tx: what its open transaction would add. */
  datatype Runner = Runner(files: seq<string>, stage: Stage, tx: Db, applied: seq<string>)

  /** order: the runs in the order they got the lock; lies: commits that took effect but were
      reported as failed. */
  datatype State = State(db: Db, lock: Option<nat>, runners: seq<Runner>, order: seq<nat>, lies: nat)

  datatype Action = Lock | Prepare | Check | Begin | RunSql | Record | Commit(landed: bool, reported: bool)
                  | Fail | Unlock | Crash | Kill

  datatype Label = Start(files: seq<string>) | Act(r: nat, action: Action)

  const NO_TX := Db([], [])
  const INIT := State(NO_TX, None, [], [], 0)

  predicate Holds(stage: Stage) {
    !stage.Waiting? && !stage.Finished? && !stage.Killed?
  }

  function Become(s: State, r: nat, stage: Stage, tx: Db): State
    requires r < |s.runners|
  {
    s.(runners := s.runners[r := s.runners[r].(stage := stage, tx := tx)])
  }

  /** Giving up rolls the transaction back and leads to the deferred unlock. */
  function GiveUp(s: State, r: nat): State
    requires r < |s.runners|
  {
    Become(s, r, Leaving(false), NO_TX)
  }

  function Apply(db: Db, tx: Db): Db {
    Db(db.log + tx.log, db.versions + tx.versions)
  }

  function Step(s: State, r: nat, a: Action): State
    requires r < |s.runners|
  {
    var run := s.runners[r];
    var f := run.files;
    match (run.stage, a)
    case (Finished(_), _) => s
    case (Killed, _) => s
    case (_, Kill) => Become(s, r, Killed, NO_TX).(lock := if Holds(run.stage) then None else s.lock)
    case (Waiting, Lock) =>
      if s.lock.Some? then s
      else Become(s, r, Locked, NO_TX).(lock := Some(r), order := s.order + [r])
    case (Locked, Prepare) => Become(s, r, At(0), NO_TX)
    case (At(i), Check) =>
      if i >= |f| then Become(s, r, Leaving(true), NO_TX)
      else if f[i] in s.db.versions then Become(s, r, At(i + 1), NO_TX)
      else Become(s, r, Missing(i), NO_TX)
    case (Missing(i), Begin) => Become(s, r, Begun(i), NO_TX)
    case (Begun(i), RunSql) =>
      if i < |f| then Become(s, r, Ran(i), run.tx.(log := run.tx.log + [f[i]])) else s
    case (Ran(i), Record) =>
      if i >= |f| || f[i] in s.db.versions + run.tx.versions then GiveUp(s, r)
      else Become(s, r, Recorded(i), run.tx.(versions := run.tx.versions + [f[i]]))
    case (Recorded(i), Commit(landed, reported)) =>
      if landed && reported && i < |f| then
        var s' := Become(s, r, At(i + 1), NO_TX);
        s'.(db := Apply(s.db, run.tx),
            runners := s'.runners[r := s'.runners[r].(applied := run.applied + [f[i]])])
      else if landed then GiveUp(s, r).(db := Apply(s.db, run.tx), lies := s.lies + 1)
      else GiveUp(s, r)
    case (Leaving(ok), Unlock) => Become(s, r, Finished(ok), NO_TX).(lock := None)
    case (Leaving(ok), Crash) => Become(s, r, Finished(ok), NO_TX).(lock := None)
    case (Leaving(_), _) => s
    case (Waiting, Crash) => Become(s, r, Finished(false), NO_TX)
    case (Waiting, _) => s
    case (_, Fail) => GiveUp(s, r)
    case (_, Crash) => Become(s, r, Finished(false), NO_TX).(lock := None)
    case _ => s
  }

  // ---- the three kinds of steps

  /** Only run r differs between s and s', and it sees the same files. */
  predicate OnlyRun(s: State, s': State, r: nat)
    requires r < |s.runners|
  {
    && |s'.runners| == |s.runners| && s'.runners[r].files == s.runners[r].files
    && forall q :: 0 <= q < |s.runners| && q != r ==> s'.runners[q] == s.runners[q]
  }

  predicate Locking(s: State, s': State, r: nat)
    requires r < |s.runners| && OnlyRun(s, s', r)
  {
    && s.runners[r].stage.Waiting? && s.lock.None? && s'.runners[r].stage.Locked?
    && s'.lock == Some(r) && s'.order == s.order + [r]
    && s'.db == s.db && s'.lies == s.lies && s'.runners[r].applied == s.runners[r].applied
  }

  predicate Committing(s: State, s': State, r: nat)
    requires r < |s.runners| && OnlyRun(s, s', r)
  {
    var run := s.runners[r];
    && run.stage.Recorded? && s'.lock == s.lock && s'.order == s.order
    && s'.db == Apply(s.db, run.tx)
    && if s'.lies == s.lies
       then run.stage.i < |run.files| && s'.runners[r].stage == At(run.stage.i + 1)
            && s'.runners[r].applied == run.applied + [run.files[run.stage.i]]
       else s'.runners[r].stage == Leaving(false) && s'.lies == s.lies + 1 && s'.runners[r].applied == run.applied
  }

  predicate Local(s: State, s': State, r: nat)
    requires r < |s.runners| && OnlyRun(s, s', r)
  {
    && s'.db == s.db && s'.order == s.order && s'.lies == s.lies
    && s'.lock in [s.lock, None] && s'.runners[r].applied == s.runners[r].applied
    && (s'.runners[r].stage.Waiting? ==> s.runners[r].stage.Waiting?)
  }

  lemma StepKinds(s: State, r: nat, a: Action)
    requires r < |s.runners|
    ensures var s' := Step(s, r, a);
            OnlyRun(s, s', r) && (Locking(s, s', r) || Committing(s, s', r) || Local(s, s', r))
  {
  }

  function Next(s: State, l: Label): State {
    match l
    case Start(files) => s.(runners := s.runners + [Runner(files, Waiting, NO_TX, [])])
    case Act(r, a) => if r < |s.runners| then Step(s, r, a) else s
  }

  function Exec(s: State, ls: seq<Label>): State {
    if ls == [] then s
    else Next(Exec(s, ls[..|ls| - 1]), ls[|ls| - 1])
  }

  lemma ExecSnoc(s: State, ls: seq<Label>, l: Label)
    ensures Exec(s, ls + [l]) == Next(Exec(s, ls), l)
  {
    assert (ls + [l])[..|ls|] == ls;
  }

  lemma {:induction false} ExecConcat(s: State, ls: seq<Label>, more: seq<Label>)
    ensures Exec(s, ls + more) == Exec(Exec(s, ls), more)
  {
    if more == [] {
      assert ls + more == ls;
    } else {
      ExecConcat(s, ls, more[..|more| - 1]);
      assert (ls + more)[..|ls + more| - 1] == ls + more[..|more| - 1];
    }
  }

  predicate Distinct(xs: seq<string>) {
    forall i, j :: 0 <= i < j < |xs| ==> xs[i] != xs[j]
  }

  // ---- exactly once, whatever file lists the runs see

  /** The transaction of a run holds exactly what its stage says. */
  predicate TxFits(run: Runner) {
    match run.stage
    case Begun(i) => i < |run.files| && run.tx == NO_TX
    case Ran(i) => i < |run.files| && run.tx == Db([run.files[i]], [])
    case Recorded(i) => i < |run.files| && run.tx == Db([run.files[i]], [run.files[i]])
    case Missing(i) => i < |run.files| && run.tx == NO_TX
    case _ => run.tx == NO_TX
  }

  function Target(run: Runner): Option<string> {
    if (run.stage.Missing? || run.stage.Begun? || run.stage.Ran? || run.stage.Recorded?)
       && run.stage.i < |run.files|
    then Some(run.files[run.stage.i]) else None
  }

  predicate RunnerOk(s: State, r: nat)
    requires r < |s.runners|
  {
    var run := s.runners[r];
    && TxFits(run)
    && (Holds(run.stage) <==> s.lock == Some(r))
    && (Target(run).Some? ==> Target(run).value !in s.db.versions)
  }

  predicate Once(s: State) {
    && s.db.log == s.db.versions
    && Distinct(s.db.versions)
    && (forall r :: 0 <= r < |s.runners| ==> RunnerOk(s, r))
    && (s.lock.Some? ==> s.lock.value < |s.runners|)
  }

  /** A commit keeps the run's own facts and the database's. */
  lemma CommitOwn(s: State, r: nat, a: Action)
    requires r < |s.runners| && Once(s) && a.Commit?
    ensures var s' := Step(s, r, a);
            RunnerOk(s', r) && s'.db.log == s'.db.versions && Distinct(s'.db.versions) && s'.lock == s.lock
  {
    assert RunnerOk(s, r);
  }

  /** So does every other step. */
  lemma StepOwn(s: State, r: nat, a: Action)
    requires r < |s.runners| && Once(s) && !a.Commit?
    ensures var s' := Step(s, r, a);
            RunnerOk(s', r) && s'.db == s.db && s'.lock in [s.lock, None, Some(r)]
  {
    assert RunnerOk(s, r);
  }

  /** Another run keeps its own: only the holder of the lock has a target, and only it commits. */
  lemma StepOthers(s: State, r: nat, a: Action, q: nat)
    requires r < |s.runners| && q < |s.runners| && q != r && Once(s)
    ensures RunnerOk(Step(s, r, a), q)
  {
    assert RunnerOk(s, r) && RunnerOk(s, q);
    assert Step(s, r, a).runners[q] == s.runners[q];
  }

  lemma StepOnce(s: State, r: nat, a: Action)
    requires r < |s.runners| && Once(s)
    ensures Once(Step(s, r, a))
  {
    if a.Commit? { CommitOwn(s, r, a); } else { StepOwn(s, r, a); }
    forall q | 0 <= q < |s.runners| && q != r ensures RunnerOk(Step(s, r, a), q) {
      StepOthers(s, r, a, q);
    }
  }

  lemma {:induction false} RunOnce(ls: seq<Label>)
    ensures Once(Exec(INIT, ls))
  {
    if ls != [] {
      var s, l := Exec(INIT, ls[..|ls| - 1]), ls[|ls| - 1];
      RunOnce(ls[..|ls| - 1]);
      match l
      case Start(files) =>
        var s' := Next(s, l);
        forall q | 0 <= q < |s'.runners| ensures RunnerOk(s', q) {
          if q < |s.runners| { assert RunnerOk(s, q); }
        }
      case Act(r, a) =>
        if r < |s.runners| { StepOnce(s, r, a); }
    }
  }
}
