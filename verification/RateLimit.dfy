/** The hourly limit under concurrency. Counting and inserting are two critical sections, so
    handlers that are between them are not yet counted. The bound below says what is left of
    the limit, for every schedule, and that nothing better is true. */
module RateLimit {
  import opened Results
  import opened Counting
  import opened Memory
  import opened Intake

  /** Stored leads of one address, admitted by a successful count, with lo < createdAt <= hi. */
  function InWindow(ipHash: string, lo: int, hi: int): Entry -> bool {
    (e: Entry) => e.how.Counted? && e.row.quote.ipHash == ipHash && lo < e.row.createdAt <= hi
  }

  /** Handlers of one address between a successful count and their insert. */
  function IsPending(ipHash: string): Handler -> bool {
    (h: Handler) => h.stage.Saving? && h.stage.how.Counted? && h.sub.ipHash == ipHash
  }

  function HourUpTo(s: State, ipHash: string, t: int): nat {
    CountOf(s.log, InWindow(ipHash, t - HOUR, t))
  }

  function Pending(s: State, ipHash: string): nat {
    CountOf(s.handlers, IsPending(ipHash))
  }

  /** At no point of the schedule are more than k handlers of this address pending. */
  predicate AtMostPending(cfg: Config, ls: seq<Label>, ipHash: string, k: nat) {
    Pending(Exec(cfg, INIT, ls), ipHash) <= k
    && (ls != [] ==> AtMostPending(cfg, ls[..|ls| - 1], ipHash, k))
  }

  // ---- the inductive bound

  predicate Timely(s: State) {
    && (forall i :: 0 <= i < |s.log| ==> s.log[i].row.createdAt <= s.now)
    && (forall p :: 0 <= p < |s.handlers| && s.handlers[p].stage.Clocked? ==>
          s.handlers[p].stage.since <= s.now - HOUR)
  }

  /** Rows of the last hour together with the pending handlers, and every past window, stay below. */
  ghost predicate Limited(s: State, ipHash: string, bound: int) {
    && Timely(s)
    && HourUpTo(s, ipHash, s.now) + Pending(s, ipHash) <= bound
    && forall t: int :: HourUpTo(s, ipHash, t) <= bound
  }

  /** What the store counts includes the window that ends now. */
  lemma CountCoversWindow(s: State, ipHash: string, since: int)
    requires Timely(s) && since <= s.now - HOUR
    ensures HourUpTo(s, ipHash, s.now) <= CountOf(Rows(s.log), IsRecent(ipHash, since))
  {
    SubsetSize(Where(s.log, InWindow(ipHash, s.now - HOUR, s.now)), Where(Rows(s.log), IsRecent(ipHash, since)));
  }

  lemma LaterWindow(s: State, s': State, ipHash: string, t: int)
    requires Timely(s) && s'.log == s.log && s.now <= t
    ensures HourUpTo(s', ipHash, t) <= HourUpTo(s, ipHash, s.now)
  {
    CountMonotone(s.log, InWindow(ipHash, t - HOUR, t), InWindow(ipHash, s.now - HOUR, s.now));
  }

  /** A handler becomes pending only when the store has counted fewer leads than the limit. */
  lemma AdmissionLimited(cfg: Config, s: State, p: nat, a: Action, ipHash: string, k: nat)
    requires p < |s.handlers| && Limited(s, ipHash, cfg.limit - 1 + k) && cfg.limit > 0
    requires Step(cfg, s, p, a).log == s.log
    requires Pending(Step(cfg, s, p, a), ipHash) <= k
    ensures HourUpTo(s, ipHash, s.now) + Pending(Step(cfg, s, p, a), ipHash) <= cfg.limit - 1 + k
  {
    var h, s' := s.handlers[p], Step(cfg, s, p, a);
    assert s.handlers == s.handlers[p := h];
    var h' := s'.handlers[p];
    CountChanged(s.handlers, p, h', IsPending(ipHash));
    if IsPending(ipHash)(h') && !IsPending(ipHash)(h) {
      CountCoversWindow(s, ipHash, h.stage.since);
    }
  }

  /** An insert turns a pending handler into a row. */
  lemma InsertLimited(s: State, s': State, p: nat, e: Entry, ipHash: string, bound: int)
    requires p < |s.handlers| && Limited(s, ipHash, bound)
    requires s.handlers[p].stage.Saving? && s.handlers[p].stage.how == e.how
    requires s.handlers[p].sub.ipHash == e.row.quote.ipHash && e.row.createdAt == s.now
    requires s'.log == s.log + [e] && s'.now == s.now
    requires |s'.handlers| == |s.handlers| && s'.handlers == s.handlers[p := s'.handlers[p]]
    requires !s'.handlers[p].stage.Saving? && !s'.handlers[p].stage.Clocked?
    ensures Limited(s', ipHash, bound)
  {
    CountChanged(s.handlers, p, s'.handlers[p], IsPending(ipHash));
    forall t: int ensures HourUpTo(s', ipHash, t) == HourUpTo(s, ipHash, t) + Bit(InWindow(ipHash, t - HOUR, t)(e)) {
      CountAppended(s.log, e, InWindow(ipHash, t - HOUR, t));
    }
    forall t: int ensures HourUpTo(s', ipHash, t) <= bound {
      if s.now <= t {
        LaterWindow(s, s, ipHash, t);
      }
    }
  }

  lemma SameLogLimited(s: State, s': State, ipHash: string, bound: int)
    requires Limited(s, ipHash, bound) && s'.log == s.log && s'.now == s.now
    requires HourUpTo(s, ipHash, s.now) + Pending(s', ipHash) <= bound
    requires Timely(s')
    ensures Limited(s', ipHash, bound)
  {
    assert forall t :: HourUpTo(s', ipHash, t) == HourUpTo(s, ipHash, t);
  }

  lemma StepLimited(cfg: Config, s: State, p: nat, a: Action, ipHash: string, k: nat)
    requires p < |s.handlers| && Limited(s, ipHash, cfg.limit - 1 + k) && cfg.limit > 0
    requires Pending(Step(cfg, s, p, a), ipHash) <= k
    ensures Limited(Step(cfg, s, p, a), ipHash, cfg.limit - 1 + k)
  {
    var s' := Step(cfg, s, p, a);
    if s'.log == s.log {
      AdmissionLimited(cfg, s, p, a, ipHash, k);
      assert s'.now == s.now;
      SameLogLimited(s, s', ipHash, cfg.limit - 1 + k);
    } else {
      InsertLimited(s, s', p, s'.log[|s.log|], ipHash, cfg.limit - 1 + k);
    }
  }

  lemma NextLimited(cfg: Config, s: State, l: Label, ipHash: string, k: nat)
    requires Limited(s, ipHash, cfg.limit - 1 + k) && cfg.limit > 0
    requires Pending(Next(cfg, s, l), ipHash) <= k
    ensures Limited(Next(cfg, s, l), ipHash, cfg.limit - 1 + k)
  {
    var s' := Next(cfg, s, l);
    match l
    case Tick(_) =>
      LaterWindow(s, s', ipHash, s'.now);
      assert forall t :: HourUpTo(s', ipHash, t) == HourUpTo(s, ipHash, t);
    case Arrive(sub) =>
      CountAppended(s.handlers, Handler(sub, Arrived), IsPending(ipHash));
      assert forall t :: HourUpTo(s', ipHash, t) == HourUpTo(s, ipHash, t);
    case Act(p, a) =>
      if p < |s.handlers| {
        StepLimited(cfg, s, p, a, ipHash, k);
      }
  }

  lemma {:induction false} RunLimited(cfg: Config, ls: seq<Label>, ipHash: string, k: nat)
    requires cfg.limit > 0 && AtMostPending(cfg, ls, ipHash, k)
    ensures Limited(Exec(cfg, INIT, ls), ipHash, cfg.limit - 1 + k)
  {
    if ls == [] {
      assert Where(INIT.handlers, IsPending(ipHash)) == {};
      forall t: int ensures HourUpTo(INIT, ipHash, t) == 0 {
        assert Where(INIT.log, InWindow(ipHash, t - HOUR, t)) == {};
      }
    } else {
      RunLimited(cfg, ls[..|ls| - 1], ipHash, k);
      NextLimited(cfg, Exec(cfg, INIT, ls[..|ls| - 1]), ls[|ls| - 1], ipHash, k);
    }
  }

  /** No hour holds more than limit + k - 1 counted leads of one address, if never more than k of
      its handlers are pending at once. */
  lemma WindowBound(cfg: Config, ls: seq<Label>, ipHash: string, k: nat, t: int)
    requires cfg.limit > 0 && AtMostPending(cfg, ls, ipHash, k)
    ensures HourUpTo(Exec(cfg, INIT, ls), ipHash, t) <= cfg.limit - 1 + k
  {
    RunLimited(cfg, ls, ipHash, k);
  }

  // ---- leads let through without a count

  function StoredIn(ipHash: string, lo: int, hi: int): Entry -> bool {
    (e: Entry) => e.row.quote.ipHash == ipHash && lo < e.row.createdAt <= hi
  }

  function FailedOpenIn(ipHash: string, lo: int, hi: int): Entry -> bool {
    (e: Entry) => e.how.FailedOpen? && e.row.quote.ipHash == ipHash && lo < e.row.createdAt <= hi
  }

  predicate AllChecked(s: State) {
    && (forall i :: 0 <= i < |s.log| ==> !s.log[i].how.Unlimited?)
    && (forall p :: 0 <= p < |s.handlers| && s.handlers[p].stage.Saving? ==> !s.handlers[p].stage.how.Unlimited?)
  }

  lemma NextChecked(cfg: Config, s: State, l: Label)
    requires cfg.limit > 0 && AllChecked(s)
    ensures AllChecked(Next(cfg, s, l))
  {
    if l.Act? && l.p < |s.handlers| {
    }
  }

  lemma {:induction false} RunChecked(cfg: Config, ls: seq<Label>)
    requires cfg.limit > 0
    ensures AllChecked(Exec(cfg, INIT, ls))
  {
    if ls != [] {
      RunChecked(cfg, ls[..|ls| - 1]);
      NextChecked(cfg, Exec(cfg, INIT, ls[..|ls| - 1]), ls[|ls| - 1]);
    }
  }

  /** Failing open adds only the leads that were let through because a count failed. */
  lemma TotalBound(cfg: Config, ls: seq<Label>, ipHash: string, k: nat, t: int)
    requires cfg.limit > 0 && AtMostPending(cfg, ls, ipHash, k)
    ensures var log := Exec(cfg, INIT, ls).log;
            CountOf(log, StoredIn(ipHash, t - HOUR, t))
            <= cfg.limit - 1 + k + CountOf(log, FailedOpenIn(ipHash, t - HOUR, t))
  {
    var log := Exec(cfg, INIT, ls).log;
    RunChecked(cfg, ls);
    WindowBound(cfg, ls, ipHash, k, t);
    CountSplit(log, StoredIn(ipHash, t - HOUR, t), InWindow(ipHash, t - HOUR, t), FailedOpenIn(ipHash, t - HOUR, t));
  }

  // ---- the bound is reached

  const LEAD := Lead("", "", "", "", "", "", "", "", "", "", "")

  function Client(ipHash: string): Submission {
    Submission(true, Parsed, false, true, ipHash, LEAD)
  }

  function Name(i: nat): string {
    seq(i, _ => 'x')
  }

  /** n leads of one address stored at time 0 and m more of its handlers pending. */
  function Crowd(ipHash: string, n: nat, m: nat): State {
    State(0,
          seq(n, i requires 0 <= i < n => Entry(Row(Name(i), 0, QuoteRequest(Name(i), ipHash, LEAD)), Counted)),
          [], [],
          seq(n, i requires 0 <= i < n => Handler(Client(ipHash), Notifying(Name(i), Name(i))))
          + seq(m, _ => Handler(Client(ipHash), Saving(0, Counted))),
          0, 0)
  }

  lemma CrowdPending(ipHash: string, n: nat, m: nat)
    ensures Pending(Crowd(ipHash, n, m), ipHash) == m
  {
    var done := seq(n, i requires 0 <= i < n => Handler(Client(ipHash), Notifying(Name(i), Name(i))));
    var waiting := seq(m, _ => Handler(Client(ipHash), Saving(0, Counted)));
    CountConcat(done, waiting, IsPending(ipHash));
    CountNone(done, IsPending(ipHash));
    CountAll(waiting, IsPending(ipHash));
  }

  lemma CrowdWindow(ipHash: string, n: nat, m: nat)
    ensures HourUpTo(Crowd(ipHash, n, m), ipHash, 0) == n
    ensures CountOf(Rows(Crowd(ipHash, n, m).log), IsRecent(ipHash, -HOUR)) == n
  {
    CountAll(Crowd(ipHash, n, m).log, InWindow(ipHash, -HOUR, 0));
    CountAll(Rows(Crowd(ipHash, n, m).log), IsRecent(ipHash, -HOUR));
  }

  lemma Extend(cfg: Config, ls: seq<Label>, l: Label, ipHash: string, k: nat)
    requires AtMostPending(cfg, ls, ipHash, k)
    requires Pending(Next(cfg, Exec(cfg, INIT, ls), l), ipHash) <= k
    ensures AtMostPending(cfg, ls + [l], ipHash, k)
    ensures Exec(cfg, INIT, ls + [l]) == Next(cfg, Exec(cfg, INIT, ls), l)
  {
    ExecSnoc(cfg, INIT, ls, l);
    assert (ls + [l])[..|ls|] == ls;
  }

  /** The crowd with one more handler, in stage st. */
  function Joined(ipHash: string, n: nat, m: nat, st: Stage): State {
    var s := Crowd(ipHash, n, m);
    s.(handlers := s.handlers + [Handler(Client(ipHash), st)])
  }

  lemma JoinedPending(ipHash: string, n: nat, m: nat, st: Stage)
    ensures Pending(Joined(ipHash, n, m, st), ipHash) == m + Bit(IsPending(ipHash)(Handler(Client(ipHash), st)))
  {
    CrowdPending(ipHash, n, m);
    CountAppended(Crowd(ipHash, n, m).handlers, Handler(Client(ipHash), st), IsPending(ipHash));
  }

  lemma JoinedMoves(cfg: Config, ipHash: string, n: nat, m: nat)
    requires 0 <= n < cfg.limit
    ensures Next(cfg, Crowd(ipHash, n, m), Arrive(Client(ipHash))) == Joined(ipHash, n, m, Arrived)
    ensures Next(cfg, Joined(ipHash, n, m, Arrived), Act(n + m, Enter)) == Joined(ipHash, n, m, Clocked(-HOUR))
    ensures Next(cfg, Joined(ipHash, n, m, Clocked(-HOUR)), Act(n + m, Count)) ==
            Joined(ipHash, n, m, Saving(0, Counted))
    ensures Joined(ipHash, n, m, Saving(0, Counted)) == Crowd(ipHash, n, m + 1)
  {
    CrowdWindow(ipHash, n, m);
    assert Joined(ipHash, n, m, Saving(0, Counted)).handlers == Crowd(ipHash, n, m + 1).handlers;
  }

  /** One more handler arrives and is counted in. */
  lemma Admit(cfg: Config, ls: seq<Label>, ipHash: string, k: nat, n: nat, m: nat) returns (ls': seq<Label>)
    requires Exec(cfg, INIT, ls) == Crowd(ipHash, n, m) && AtMostPending(cfg, ls, ipHash, k)
    requires n < cfg.limit && m < k
    ensures Exec(cfg, INIT, ls') == Crowd(ipHash, n, m + 1) && AtMostPending(cfg, ls', ipHash, k)
  {
    JoinedMoves(cfg, ipHash, n, m);
    JoinedPending(ipHash, n, m, Arrived);
    Extend(cfg, ls, Arrive(Client(ipHash)), ipHash, k);
    ls' := ls + [Arrive(Client(ipHash))];
    JoinedPending(ipHash, n, m, Clocked(-HOUR));
    Extend(cfg, ls', Act(n + m, Enter), ipHash, k);
    ls' := ls' + [Act(n + m, Enter)];
    JoinedPending(ipHash, n, m, Saving(0, Counted));
    Extend(cfg, ls', Act(n + m, Count), ipHash, k);
    ls' := ls' + [Act(n + m, Count)];
  }

  lemma CrowdInserts(cfg: Config, ipHash: string, n: nat, m: nat)
    requires m > 0
    ensures Next(cfg, Crowd(ipHash, n, m), Act(n, Insert(Name(n), Name(n)))) == Crowd(ipHash, n + 1, m - 1)
  {
    var s, s' := Crowd(ipHash, n, m), Crowd(ipHash, n + 1, m - 1);
    forall i | 0 <= i < n ensures Name(i) != Name(n) {
      assert |Name(i)| == i && |Name(n)| == n;
    }
    assert !HasReference(Rows(s.log), Name(n)) && !HasId(Rows(s.log), Name(n));
    assert s'.log == s.log + [Entry(Row(Name(n), 0, QuoteRequest(Name(n), ipHash, LEAD)), Counted)];
    assert s.handlers[n] == Handler(Client(ipHash), Saving(0, Counted));
    assert s'.handlers == s.handlers[n := Handler(Client(ipHash), Notifying(Name(n), Name(n)))];
  }

  /** The first pending handler inserts its lead. */
  lemma Release(cfg: Config, ls: seq<Label>, ipHash: string, k: nat, n: nat, m: nat) returns (ls': seq<Label>)
    requires Exec(cfg, INIT, ls) == Crowd(ipHash, n, m) && AtMostPending(cfg, ls, ipHash, k)
    requires 0 < m <= k
    ensures Exec(cfg, INIT, ls') == Crowd(ipHash, n + 1, m - 1) && AtMostPending(cfg, ls', ipHash, k)
  {
    var l := Act(n, Insert(Name(n), Name(n)));
    CrowdInserts(cfg, ipHash, n, m);
    CrowdPending(ipHash, n + 1, m - 1);
    Extend(cfg, ls, l, ipHash, k);
    ls' := ls + [l];
  }

  /** A schedule that stores limit - 1 leads one by one, then counts k handlers in before any of
      them inserts. */
  lemma Burst(cfg: Config, ipHash: string, k: nat) returns (ls: seq<Label>)
    requires cfg.limit > 0 && k > 0
    ensures AtMostPending(cfg, ls, ipHash, k)
    ensures Exec(cfg, INIT, ls) == Crowd(ipHash, cfg.limit - 1 + k, 0)
  {
    ls := [];
    CrowdPending(ipHash, 0, 0);
    assert Crowd(ipHash, 0, 0) == INIT;
    for n := 0 to cfg.limit - 1
      invariant Exec(cfg, INIT, ls) == Crowd(ipHash, n, 0) && AtMostPending(cfg, ls, ipHash, k)
    {
      ls := Admit(cfg, ls, ipHash, k, n, 0);
      ls := Release(cfg, ls, ipHash, k, n, 1);
    }
    var n := cfg.limit - 1;
    for m := 0 to k
      invariant Exec(cfg, INIT, ls) == Crowd(ipHash, n, m) && AtMostPending(cfg, ls, ipHash, k)
    {
      ls := Admit(cfg, ls, ipHash, k, n, m);
    }
    for i := 0 to k
      invariant Exec(cfg, INIT, ls) == Crowd(ipHash, n + i, k - i) && AtMostPending(cfg, ls, ipHash, k)
    {
      ls := Release(cfg, ls, ipHash, k, n + i, k - i);
    }
  }

  /** In every schedule with at most k pending handlers, no hour holds more than bound leads. */
  ghost predicate Enforces(cfg: Config, k: nat, bound: int) {
    forall ls: seq<Label>, ipHash: string, t: int ::
      AtMostPending(cfg, ls, ipHash, k) ==> HourUpTo(Exec(cfg, INIT, ls), ipHash, t) <= bound
  }

  /** limit + k - 1 is the exact bound; so the configured limit itself is kept by every schedule
      if and only if a second handler never counts before the first one has inserted. */
  lemma ExactBound(cfg: Config, k: nat, bound: int)
    requires cfg.limit > 0 && k > 0
    ensures Enforces(cfg, k, bound) <==> cfg.limit - 1 + k <= bound
    ensures Enforces(cfg, k, cfg.limit) <==> k == 1
  {
    var ls := Burst(cfg, "", k);
    CrowdWindow("", cfg.limit - 1 + k, 0);
    assert HourUpTo(Exec(cfg, INIT, ls), "", 0) == cfg.limit - 1 + k;
    forall b | cfg.limit - 1 + k <= b ensures Enforces(cfg, k, b) {
      forall ls: seq<Label>, ipHash: string, t: int | AtMostPending(cfg, ls, ipHash, k)
        ensures HourUpTo(Exec(cfg, INIT, ls), ipHash, t) <= b
      {
        WindowBound(cfg, ls, ipHash, k, t);
      }
    }
  }

  // ---- the bound on all stored leads is exact too

  /** Row i of the schedules below. */
  function Opening(ipHash: string, i: nat): Entry {
    Entry(Row(Name(i), 0, QuoteRequest(Name(i), ipHash, LEAD)), FailedOpen)
  }

  function Openings(ipHash: string, n: nat, f: nat): seq<Entry> {
    seq(f, i requires 0 <= i < f => Opening(ipHash, n + i))
  }

  /** n counted leads and f more whose count failed. */
  function Flood(ipHash: string, n: nat, f: nat): State {
    var s := Crowd(ipHash, n, 0);
    s.(log := s.log + Openings(ipHash, n, f),
       handlers := s.handlers
         + seq(f, i requires 0 <= i < f => Handler(Client(ipHash), Notifying(Name(n + i), Name(n + i)))))
  }

  /** The flood with one more handler, in stage st. */
  function Flooding(ipHash: string, n: nat, f: nat, st: Stage): State {
    var s := Flood(ipHash, n, f);
    s.(handlers := s.handlers + [Handler(Client(ipHash), st)])
  }

  lemma FloodingPending(ipHash: string, n: nat, f: nat, st: Stage)
    requires !(st.Saving? && st.how.Counted?)
    ensures Pending(Flooding(ipHash, n, f, st), ipHash) == 0
  {
    CountNone(Flooding(ipHash, n, f, st).handlers, IsPending(ipHash));
  }

  lemma FloodRow(ipHash: string, n: nat, f: nat, i: nat)
    requires i < n + f
    ensures var log := Flood(ipHash, n, f).log;
            && |log| == n + f && log[i].row == Row(Name(i), 0, QuoteRequest(Name(i), ipHash, LEAD))
            && log[i].how == if i < n then Counted else FailedOpen
  {
    if i >= n {
      assert Flood(ipHash, n, f).log[i] == Openings(ipHash, n, f)[i - n] == Opening(ipHash, n + (i - n));
    }
  }

  lemma FloodStored(ipHash: string, n: nat, f: nat)
    ensures CountOf(Flood(ipHash, n, f).log, StoredIn(ipHash, -HOUR, 0)) == n + f
    ensures CountOf(Flood(ipHash, n, f).log, FailedOpenIn(ipHash, -HOUR, 0)) == f
  {
    var log, counted := Flood(ipHash, n, f).log, Crowd(ipHash, n, 0).log;
    var uncounted := Openings(ipHash, n, f);
    forall i | 0 <= i < |log| ensures StoredIn(ipHash, -HOUR, 0)(log[i]) && (i >= n ==> log[i].how.FailedOpen?) {
      FloodRow(ipHash, n, f, i);
    }
    CountAll(log, StoredIn(ipHash, -HOUR, 0));
    forall i | 0 <= i < f ensures FailedOpenIn(ipHash, -HOUR, 0)(uncounted[i]) {
      assert uncounted[i] == Opening(ipHash, n + i);
    }
    CountConcat(counted, uncounted, FailedOpenIn(ipHash, -HOUR, 0));
    CountNone(counted, FailedOpenIn(ipHash, -HOUR, 0));
    CountAll(uncounted, FailedOpenIn(ipHash, -HOUR, 0));
  }

  lemma FloodNames(ipHash: string, n: nat, f: nat)
    ensures var rows := Rows(Flood(ipHash, n, f).log);
            !HasReference(rows, Name(n + f)) && !HasId(rows, Name(n + f))
  {
    var rows := Rows(Flood(ipHash, n, f).log);
    forall i | 0 <= i < |rows| ensures |rows[i].id| == i && |rows[i].quote.reference| == i {
      FloodRow(ipHash, n, f, i);
    }
    assert |Name(n + f)| == n + f;
  }

  lemma FloodMoves(cfg: Config, ipHash: string, n: nat, f: nat)
    requires cfg.limit > 0
    ensures Next(cfg, Flood(ipHash, n, f), Arrive(Client(ipHash))) == Flooding(ipHash, n, f, Arrived)
    ensures Next(cfg, Flooding(ipHash, n, f, Arrived), Act(n + f, Enter)) == Flooding(ipHash, n, f, Clocked(-HOUR))
    ensures Next(cfg, Flooding(ipHash, n, f, Clocked(-HOUR)), Act(n + f, CountFails)) ==
            Flooding(ipHash, n, f, Saving(0, FailedOpen))
  {
  }

  lemma FloodInserts(cfg: Config, ipHash: string, n: nat, f: nat)
    ensures Next(cfg, Flooding(ipHash, n, f, Saving(0, FailedOpen)), Act(n + f, Insert(Name(n + f), Name(n + f)))) ==
            Flood(ipHash, n, f + 1)
  {
    var s, s' := Flooding(ipHash, n, f, Saving(0, FailedOpen)), Flood(ipHash, n, f + 1);
    FloodNames(ipHash, n, f);
    assert s'.log == s.log + [Opening(ipHash, n + f)];
    assert s'.handlers ==
           s.handlers[n + f := Handler(Client(ipHash), Notifying(Name(n + f), Name(n + f)))];
  }

  /** One more handler arrives, fails to count and inserts. */
  lemma Open(cfg: Config, ls: seq<Label>, ipHash: string, k: nat, n: nat, f: nat) returns (ls': seq<Label>)
    requires Exec(cfg, INIT, ls) == Flood(ipHash, n, f) && AtMostPending(cfg, ls, ipHash, k) && cfg.limit > 0
    ensures Exec(cfg, INIT, ls') == Flood(ipHash, n, f + 1) && AtMostPending(cfg, ls', ipHash, k)
  {
    FloodMoves(cfg, ipHash, n, f);
    FloodingPending(ipHash, n, f, Arrived);
    Extend(cfg, ls, Arrive(Client(ipHash)), ipHash, k);
    ls' := ls + [Arrive(Client(ipHash))];
    FloodingPending(ipHash, n, f, Clocked(-HOUR));
    Extend(cfg, ls', Act(n + f, Enter), ipHash, k);
    ls' := ls' + [Act(n + f, Enter)];
    FloodingPending(ipHash, n, f, Saving(0, FailedOpen));
    Extend(cfg, ls', Act(n + f, CountFails), ipHash, k);
    ls' := ls' + [Act(n + f, CountFails)];
    FloodInserts(cfg, ipHash, n, f);
    Extend(cfg, ls', Act(n + f, Insert(Name(n + f), Name(n + f))), ipHash, k);
    ls' := ls' + [Act(n + f, Insert(Name(n + f), Name(n + f)))];
  }

  /** The schedule of Burst, and then f handlers whose count fails. */
  lemma BurstOpen(cfg: Config, ipHash: string, k: nat, f: nat) returns (ls: seq<Label>)
    requires cfg.limit > 0 && k > 0
    ensures AtMostPending(cfg, ls, ipHash, k)
    ensures Exec(cfg, INIT, ls) == Flood(ipHash, cfg.limit - 1 + k, f)
  {
    var n := cfg.limit - 1 + k;
    ls := Burst(cfg, ipHash, k);
    assert Flood(ipHash, n, 0) == Crowd(ipHash, n, 0);
    for i := 0 to f
      invariant Exec(cfg, INIT, ls) == Flood(ipHash, n, i) && AtMostPending(cfg, ls, ipHash, k)
    {
      ls := Open(cfg, ls, ipHash, k, n, i);
    }
  }

  /** One schedule keeps every hour's stored leads within bound, if at most k of its handlers are ever
      pending at once and at most f leads of that hour were let through by a failing count. */
  ghost predicate KeepsTotal(cfg: Config, k: nat, f: nat, bound: int, ls: seq<Label>, ipHash: string, t: int) {
    var log := Exec(cfg, INIT, ls).log;
    AtMostPending(cfg, ls, ipHash, k) && CountOf(log, FailedOpenIn(ipHash, t - HOUR, t)) <= f ==>
      CountOf(log, StoredIn(ipHash, t - HOUR, t)) <= bound
  }

  ghost predicate EnforcesTotal(cfg: Config, k: nat, f: nat, bound: int) {
    forall ls: seq<Label>, ipHash: string, t: int :: KeepsTotal(cfg, k, f, bound, ls, ipHash, t)
  }

  /** Over all stored leads the exact bound is limit + k - 1 + f; so the configured limit is kept if
      and only if handlers count one at a time and no count fails. */
  lemma ExactTotal(cfg: Config, k: nat, f: nat, bound: int)
    requires cfg.limit > 0 && k > 0
    ensures EnforcesTotal(cfg, k, f, bound) <==> cfg.limit - 1 + k + f <= bound
    ensures EnforcesTotal(cfg, k, f, cfg.limit) <==> k == 1 && f == 0
  {
    var ls := BurstOpen(cfg, "", k, f);
    FloodStored("", cfg.limit - 1 + k, f);
    forall b: int | EnforcesTotal(cfg, k, f, b) ensures cfg.limit - 1 + k + f <= b {
      assert KeepsTotal(cfg, k, f, b, ls, "", 0);
    }
    forall b: int | cfg.limit - 1 + k + f <= b ensures EnforcesTotal(cfg, k, f, b) {
      forall ls: seq<Label>, ipHash: string, t: int ensures KeepsTotal(cfg, k, f, b, ls, ipHash, t) {
        if AtMostPending(cfg, ls, ipHash, k) {
          TotalBound(cfg, ls, ipHash, k, t);
        }
      }
    }
  }
}
