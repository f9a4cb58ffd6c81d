/** Migration runs that all see the same files: the database always holds a prefix of them,
    whatever fails, and any successful run completes it. */
module MigrationRuns {
  import opened Results
  import opened Migration

  predicate SameFiles(s: State, files: seq<string>) {
    forall r :: 0 <= r < |s.runners| ==> s.runners[r].files == files
  }

  /** How far each stage knows the database to be. */
  predicate StageFits(run: Runner, k: nat) {
    match run.stage
    case At(i) => i <= k
    case Missing(i) => i == k
    case Begun(i) => i == k
    case Ran(i) => i == k
    case Recorded(i) => i == k
    case Leaving(ok) => ok ==> k == |run.files|
    case Finished(ok) => ok ==> k == |run.files|
    case _ => true
  }

  predicate Prefix(s: State, files: seq<string>) {
    && Once(s) && SameFiles(s, files)
    && s.db.versions <= files
    && forall r :: 0 <= r < |s.runners| ==> StageFits(s.runners[r], |s.db.versions|)
  }

  /** The run that steps knows afterwards what its new stage says. */
  lemma OwnFits(s: State, files: seq<string>, r: nat, a: Action)
    requires r < |s.runners| && Distinct(files) && Prefix(s, files)
    ensures StageFits(Step(s, r, a).runners[r], |Step(s, r, a).db.versions|)
  {
    var run, k := s.runners[r], |s.db.versions|;
    assert RunnerOk(s, r) && StageFits(run, k);
    assert s.db.versions == files[..k];
    if run.stage.At? && run.stage.i < |files| {
    }
  }

  /** The others are not affected: whoever commits holds the lock. */
  lemma OthersFit(s: State, s': State, files: seq<string>, r: nat, q: nat)
    requires r < |s.runners| && q < |s.runners| && q != r && Prefix(s, files) && OnlyRun(s, s', r)
    requires s'.db == s.db || Committing(s, s', r)
    ensures StageFits(s'.runners[q], |s'.db.versions|)
  {
    assert RunnerOk(s, r) && RunnerOk(s, q);
    assert StageFits(s.runners[r], |s.db.versions|) && StageFits(s.runners[q], |s.db.versions|);
  }

  lemma CommitExtends(s: State, s': State, files: seq<string>, r: nat)
    requires r < |s.runners| && Prefix(s, files) && OnlyRun(s, s', r)
    requires s'.db == s.db || Committing(s, s', r)
    ensures s'.db.versions <= files
  {
    assert RunnerOk(s, r) && StageFits(s.runners[r], |s.db.versions|);
  }

  lemma StepPrefix(s: State, files: seq<string>, r: nat, a: Action)
    requires r < |s.runners| && Distinct(files) && Prefix(s, files)
    ensures Prefix(Step(s, r, a), files)
  {
    var s' := Step(s, r, a);
    StepOnce(s, r, a);
    StepKinds(s, r, a);
    OwnFits(s, files, r, a);
    CommitExtends(s, s', files, r);
    forall q | 0 <= q < |s'.runners| && q != r ensures StageFits(s'.runners[q], |s'.db.versions|) {
      OthersFit(s, s', files, r, q);
    }
  }

  /** Every run of the schedule is started with these files. */
  predicate OneFileSet(ls: seq<Label>, files: seq<string>) {
    forall i :: 0 <= i < |ls| && ls[i].Start? ==> ls[i].files == files
  }

  lemma NextPrefix(s: State, files: seq<string>, l: Label)
    requires Distinct(files) && Prefix(s, files) && (l.Start? ==> l.files == files)
    ensures Prefix(Next(s, l), files)
  {
    match l
    case Start(_) =>
      forall r | 0 <= r < |s.runners| ensures RunnerOk(Next(s, l), r) {
        assert RunnerOk(s, r);
      }
    case Act(r, a) =>
      if r < |s.runners| { StepPrefix(s, files, r, a); }
  }

  /** After any sequence of concurrent, failing or lying runs the recorded versions are a prefix of
      the sorted files, and the SQL that has taken effect is that of exactly this prefix, once each. */
  lemma {:induction false} RunPrefix(ls: seq<Label>, files: seq<string>)
    requires Distinct(files) && OneFileSet(ls, files)
    ensures Prefix(Exec(INIT, ls), files)
  {
    if ls != [] {
      RunPrefix(ls[..|ls| - 1], files);
      NextPrefix(Exec(INIT, ls[..|ls| - 1]), files, ls[|ls| - 1]);
    }
  }

  predicate SomeSuccess(s: State) {
    exists r :: 0 <= r < |s.runners| && s.runners[r].stage == Finished(true)
  }

  /** One successful run, after any number of failed ones, leaves the same database as an
      undisturbed run would: all files, each applied once. */
  lemma SuccessCompletes(ls: seq<Label>, files: seq<string>)
    requires Distinct(files) && OneFileSet(ls, files) && SomeSuccess(Exec(INIT, ls))
    ensures Exec(INIT, ls).db == Db(files, files)
  {
    RunPrefix(ls, files);
    var s := Exec(INIT, ls);
    var r :| 0 <= r < |s.runners| && s.runners[r].stage == Finished(true);
    assert StageFits(s.runners[r], |s.db.versions|);
  }

  // ---- nothing happens to a complete database

  /** s' is s with the same database and applied lists, and runs added that have applied nothing. */
  predicate Unchanged(s: State, s': State) {
    && s'.db == s.db && |s.runners| <= |s'.runners|
    && (forall r :: 0 <= r < |s.runners| ==> s'.runners[r].applied == s.runners[r].applied)
    && (forall r :: |s.runners| <= r < |s'.runners| ==> s'.runners[r].applied == [])
  }

  lemma CompleteStep(s: State, files: seq<string>, r: nat, a: Action)
    requires r < |s.runners| && Prefix(s, files) && s.db.versions == files
    ensures Unchanged(s, Step(s, r, a))
  {
    assert RunnerOk(s, r) && StageFits(s.runners[r], |s.db.versions|);
  }

  /** Once a run has succeeded, every further run applies nothing and reports nothing. */
  lemma {:induction false} CompleteIsFinal(ls: seq<Label>, more: seq<Label>, files: seq<string>)
    requires Distinct(files) && OneFileSet(ls + more, files) && SomeSuccess(Exec(INIT, ls))
    ensures Unchanged(Exec(INIT, ls), Exec(INIT, ls + more))
  {
    assert OneFileSet(ls, files) by {
      assert forall i :: 0 <= i < |ls| ==> ls[i] == (ls + more)[i];
    }
    SuccessCompletes(ls, files);
    if more == [] {
      assert ls + more == ls;
    } else {
      var before, l := more[..|more| - 1], more[|more| - 1];
      assert ls + more == ls + before + [l];
      assert OneFileSet(ls + before, files) by {
        assert forall i :: 0 <= i < |ls + before| ==> (ls + before)[i] == (ls + more)[i];
      }
      CompleteIsFinal(ls, before, files);
      RunPrefix(ls + before, files);
      var s := Exec(INIT, ls + before);
      ExecSnoc(INIT, ls + before, l);
      if l.Act? && l.r < |s.runners| {
        CompleteStep(s, files, l.r, l.action);
      }
    }
  }

  // ---- what the runs report

  /** The applied lists of the runs in the order they got the lock. */
  function Reported(order: seq<nat>, runners: seq<Runner>): seq<string>
    requires forall i :: 0 <= i < |order| ==> order[i] < |runners|
  {
    if order == [] then []
    else Reported(order[..|order| - 1], runners) + runners[order[|order| - 1]].applied
  }

  predicate OrderFits(s: State) {
    && (forall i :: 0 <= i < |s.order| ==> s.order[i] < |s.runners|)
    && (forall i, j :: 0 <= i < j < |s.order| ==> s.order[i] != s.order[j])
    && (s.lock.Some? ==> s.order != [] && s.order[|s.order| - 1] == s.lock.value)
    && (forall r :: 0 <= r < |s.runners| && r !in s.order ==> s.runners[r].applied == [])
    && (forall r :: 0 <= r < |s.runners| && r in s.order ==> !s.runners[r].stage.Waiting?)
  }

  ghost predicate Reporting(s: State) {
    && OrderFits(s)
    && |Reported(s.order, s.runners)| + s.lies == |s.db.versions|
    && (s.lies == 0 ==> Reported(s.order, s.runners) == s.db.versions)
  }

  lemma {:induction false} ReportedFrame(order: seq<nat>, rs: seq<Runner>, rs': seq<Runner>)
    requires forall i :: 0 <= i < |order| ==> order[i] < |rs| && order[i] < |rs'|
    requires forall i :: 0 <= i < |order| ==> rs'[order[i]].applied == rs[order[i]].applied
    ensures Reported(order, rs') == Reported(order, rs)
  {
    if order != [] {
      ReportedFrame(order[..|order| - 1], rs, rs');
    }
  }

  lemma ReportedLast(s: State, s': State)
    requires OrderFits(s) && s.lock.Some? && s'.order == s.order && |s'.runners| == |s.runners|
    requires forall q :: 0 <= q < |s.runners| && q != s.lock.value ==> s'.runners[q].applied == s.runners[q].applied
    requires s.runners[s.lock.value].applied <= s'.runners[s.lock.value].applied
    ensures var n := |s.runners[s.lock.value].applied|;
            Reported(s'.order, s'.runners) == Reported(s.order, s.runners) + s'.runners[s.lock.value].applied[n..]
  {
    ReportedFrame(s.order[..|s.order| - 1], s.runners, s'.runners);
  }

  lemma OrderKept(s: State, s': State, r: nat)
    requires r < |s.runners| && Once(s) && OrderFits(s) && OnlyRun(s, s', r)
    requires Locking(s, s', r) || Committing(s, s', r) || Local(s, s', r)
    ensures OrderFits(s')
  {
    assert RunnerOk(s, r);
  }

  lemma CommitReported(s: State, s': State, r: nat)
    requires r < |s.runners| && Once(s) && Reporting(s) && OnlyRun(s, s', r)
    requires Committing(s, s', r) && OrderFits(s')
    ensures Reporting(s')
  {
    assert RunnerOk(s, r);
    ReportedLast(s, s');
  }

  lemma OthersReported(s: State, s': State, r: nat)
    requires r < |s.runners| && Reporting(s) && OnlyRun(s, s', r)
    requires (Locking(s, s', r) || Local(s, s', r)) && OrderFits(s')
    ensures Reporting(s')
  {
    ReportedFrame(s.order, s.runners, s'.runners);
    assert Locking(s, s', r) ==> s'.order[..|s.order|] == s.order;
  }

  lemma ReportingKept(s: State, s': State, r: nat)
    requires r < |s.runners| && Once(s) && Reporting(s) && OnlyRun(s, s', r)
    requires Locking(s, s', r) || Committing(s, s', r) || Local(s, s', r)
    ensures Reporting(s')
  {
    OrderKept(s, s', r);
    if Committing(s, s', r) {
      CommitReported(s, s', r);
    } else {
      OthersReported(s, s', r);
    }
  }

  lemma StartReporting(s: State, files: seq<string>)
    requires Reporting(s)
    ensures Reporting(Next(s, Start(files)))
  {
    ReportedFrame(s.order, s.runners, Next(s, Start(files)).runners);
  }

  lemma StepReporting(s: State, r: nat, a: Action)
    requires r < |s.runners| && Once(s) && Reporting(s)
    ensures Reporting(Step(s, r, a))
  {
    StepKinds(s, r, a);
    ReportingKept(s, Step(s, r, a), r);
  }

  lemma NextReporting(s: State, l: Label)
    requires Once(s) && Reporting(s)
    ensures Reporting(Next(s, l))
  {
    match l
    case Start(files) => StartReporting(s, files);
    case Act(r, a) =>
      if r < |s.runners| {
        StepReporting(s, r, a);
      }
  }

  lemma {:induction false} RunReporting(ls: seq<Label>)
    ensures Reporting(Exec(INIT, ls))
  {
    if ls != [] {
      RunReporting(ls[..|ls| - 1]);
      RunOnce(ls[..|ls| - 1]);
      NextReporting(Exec(INIT, ls[..|ls| - 1]), ls[|ls| - 1]);
    }
  }

  /** The lists that the runs have returned: a run that was killed, or is still under way, has not
      returned its own. */
  function Returned(order: seq<nat>, runners: seq<Runner>): seq<string>
    requires forall i :: 0 <= i < |order| ==> order[i] < |runners|
  {
    if order == [] then []
    else
      var run := runners[order[|order| - 1]];
      Returned(order[..|order| - 1], runners) + if run.stage.Finished? then run.applied else []
  }

  lemma {:induction false} ReturnedOrLost(order: seq<nat>, rs: seq<Runner>)
    requires forall i :: 0 <= i < |order| ==> order[i] < |rs|
    ensures |Returned(order, rs)| <= |Reported(order, rs)|
    ensures |Returned(order, rs)| == |Reported(order, rs)| <==>
            forall i :: 0 <= i < |order| && !rs[order[i]].stage.Finished? ==> rs[order[i]].applied == []
    ensures |Returned(order, rs)| == |Reported(order, rs)| ==> Returned(order, rs) == Reported(order, rs)
  {
    if order != [] {
      ReturnedOrLost(order[..|order| - 1], rs);
    }
  }

  /** No run has applied files without having returned. */
  predicate NothingUnreturned(s: State) {
    forall r :: 0 <= r < |s.runners| && !s.runners[r].stage.Finished? ==> s.runners[r].applied == []
  }

  /** The lists returned, one after the other in the order of the lock, are the recorded versions
      exactly when no commit that took effect was reported as failed and no run ended, or is under
      way, with files applied and not returned; whatever files the runs see. */
  lemma ReportsIffTruthful(ls: seq<Label>)
    ensures var s := Exec(INIT, ls);
            && OrderFits(s)
            && (Returned(s.order, s.runners) == s.db.versions <==> s.lies == 0 && NothingUnreturned(s))
  {
    var s := Exec(INIT, ls);
    RunReporting(ls);
    ReturnedOrLost(s.order, s.runners);
  }
}
