/** One submission, as QuoteHandler runs it over the in-memory store
    (internal/handlers/quote.go, lines 86-236), and its place among the runs of Intake. */
module Quotes {
  import opened Results
  import opened Counting
  import opened Memory
  import opened Intake

  /** What the store's surroundings do to one call: nothing, fail it, or lose the answer of an
      insert that has taken effect. MemoryStore calls are always Clear. */
  datatype Weather = Clear | Refused | AnswerLost

  /** One pass of saveQuote's loop: the reference drawn, the store's next id, the call's fate. */
  datatype Attempt = Attempt(reference: string, id: string, weather: Weather)

  predicate FreshIds(rows: seq<Row>, attempts: seq<Attempt>) {
    forall i :: 0 <= i < |attempts| ==> !HasId(rows, attempts[i].id)
  }

  /** The first n attempts drew references that were taken. */
  predicate AllTaken(rows: seq<Row>, attempts: seq<Attempt>, n: nat)
    requires n <= |attempts|
  {
    forall i :: 0 <= i < n ==> attempts[i].weather.Clear? && HasReference(rows, attempts[i].reference)
  }

  /** saveQuote. The last attempt decides: the row is there exactly when its reference was free
      and the call was not refused, and success is reported exactly when, besides, the answer came
      through. Only a lost answer makes a failure leave a row. */
  method SaveQuote(store: MemoryStore, quote: QuoteRequest, attempts: seq<Attempt>, now: int)
    returns (r: Result<string, StoreError>, q: QuoteRequest, ghost used: nat)
    requires |attempts| == SAVE_ATTEMPTS
    modifies store`quotes
    ensures used < SAVE_ATTEMPTS && AllTaken(old(store.quotes), attempts, used)
    ensures q == quote.(reference := attempts[used].reference)
    ensures r.Ok? <==> attempts[used].weather.Clear? && !HasReference(old(store.quotes), q.reference)
    ensures r.Ok? ==> r.value == attempts[used].id
    ensures r.Err? ==> r.error == if attempts[used].weather.Clear? then DuplicateReference else Unavailable
    ensures r == Err(DuplicateReference) ==> used == SAVE_ATTEMPTS - 1
    ensures r == Err(DuplicateReference) <==>
            && attempts[0].weather.Clear? && HasReference(old(store.quotes), attempts[0].reference)
            && attempts[1].weather.Clear? && HasReference(old(store.quotes), attempts[1].reference)
            && attempts[2].weather.Clear? && HasReference(old(store.quotes), attempts[2].reference)
    ensures store.quotes ==
            if HasReference(old(store.quotes), q.reference) || attempts[used].weather.Refused?
            then old(store.quotes)
            else old(store.quotes) + [Row(attempts[used].id, now, q)]
  {
    q, used := quote, 0;
    var lastErr := Unavailable;
    var i := 0;
    while i < SAVE_ATTEMPTS
      invariant 0 <= i <= SAVE_ATTEMPTS
      invariant store.quotes == old(store.quotes)
      invariant AllTaken(old(store.quotes), attempts, i)
      invariant i > 0 ==> used == i - 1 && lastErr == DuplicateReference
                          && q == quote.(reference := attempts[used].reference)
      decreases SAVE_ATTEMPTS - i
    {
      used := i;
      q := quote.(reference := attempts[i].reference);
      r := Err(Unavailable);
      if !attempts[i].weather.Refused? {
        r := store.CreateQuoteRequest(q, attempts[i].id, now);
      }
      if !attempts[i].weather.Clear? {
        r := Err(Unavailable);
      }
      if r.Ok? {
        return;
      }
      lastErr := r.error;
      if !lastErr.DuplicateReference? {
        break;
      }
      i := i + 1;
    }
    r := Err(lastErr);
  }

  // ---- the handler

  /** The outcome of the provider's call: a message id, or an error text. */
  datatype Mail = Delivered(messageId: string, taken: nat) | Failed(error: string, taken: nat)

  /** The event that follows the provider's call. */
  function MailEvent(id: string, mail: Mail): EmailEvent {
    match mail
    case Delivered(messageId, _) => EmailEvent(id, messageId, "sent", "")
    case Failed(error, _) => EmailEvent(id, "", "failed", error)
  }

  /** What the surroundings do during one request: whether the count fails, how long it takes
      until the insert, the insert attempts, the mail, and whether its event is lost. */
  datatype World = World(countFails: bool, delay: nat, attempts: seq<Attempt>, mail: Mail, eventLost: bool)

  /** MemoryStore's world: no call fails. */
  predicate AllClear(world: World) {
    !world.countFails && !world.eventLost && forall i :: 0 <= i < |world.attempts| ==> world.attempts[i].weather.Clear?
  }

  predicate AllFaultless(ls: seq<Label>) {
    ls == [] || (Faultless(ls[|ls| - 1]) && AllFaultless(ls[..|ls| - 1]))
  }

  lemma FaultlessSnoc(ls: seq<Label>, l: Label)
    ensures AllFaultless(ls + [l]) <==> AllFaultless(ls) && Faultless(l)
  {
    assert (ls + [l])[..|ls|] == ls;
  }

  lemma {:induction false} FaultlessConcat(ls: seq<Label>, more: seq<Label>)
    requires AllFaultless(ls) && AllFaultless(more)
    ensures AllFaultless(ls + more)
  {
    if more == [] {
      assert ls + more == ls;
    } else {
      FaultlessConcat(ls, more[..|more| - 1]);
      assert (ls + more)[..|ls + more| - 1] == ls + more[..|more| - 1];
    }
  }

  function OldEntries(rows: seq<Row>): (log: seq<Entry>)
    ensures Rows(log) == rows
  {
    seq(|rows|, i requires 0 <= i < |rows| => Entry(rows[i], Unlimited))
  }

  /** The store as it is, and this one handler before its gate. */
  function Before(rows: seq<Row>, events: seq<EmailEvent>, now: int, sub: Submission): State {
    State(now, OldEntries(rows), events, [], [Handler(sub, Arrived)], 0, 0)
  }

  function InsertLabel(a: Attempt): Label {
    Act(0, match a.weather
           case Clear => Insert(a.reference, a.id)
           case Refused => InsertFails(a.reference, a.id, false)
           case AnswerLost => InsertFails(a.reference, a.id, true))
  }

  function InsertLabels(attempts: seq<Attempt>, n: nat): seq<Label>
    requires n <= |attempts|
  {
    seq(n, i requires 0 <= i < n => InsertLabel(attempts[i]))
  }

  lemma {:induction false} InsertsFaultless(attempts: seq<Attempt>, n: nat)
    requires n <= |attempts| && forall i :: 0 <= i < |attempts| ==> attempts[i].weather.Clear?
    ensures AllFaultless(InsertLabels(attempts, n))
  {
    if n > 0 {
      InsertsFaultless(attempts, n - 1);
      assert InsertLabels(attempts, (n - 1) + 1) == InsertLabels(attempts, (n - 1)) + [InsertLabel(attempts[(n - 1)])];
      FaultlessSnoc(InsertLabels(attempts, n - 1), InsertLabel(attempts[n - 1]));
    }
  }

  lemma TakenStep(cfg: Config, s: State, how: Admission, tried: nat, a: Attempt)
    requires |s.handlers| == 1 && tried + 1 < SAVE_ATTEMPTS
    requires a.weather.Clear? && HasReference(Rows(s.log), a.reference)
    ensures Next(cfg, Move(s, 0, Saving(tried, how)), InsertLabel(a)) == Move(s, 0, Saving(tried + 1, how))
  {
  }

  /** A taken reference sends the handler into its next attempt. */
  lemma {:induction false} TakenAttempts(cfg: Config, s: State, how: Admission, attempts: seq<Attempt>, n: nat)
    requires |s.handlers| == 1 && s.handlers[0].stage == Saving(0, how)
    requires n < SAVE_ATTEMPTS && |attempts| == SAVE_ATTEMPTS && AllTaken(Rows(s.log), attempts, n)
    ensures Exec(cfg, s, InsertLabels(attempts, n)) == Move(s, 0, Saving(n, how))
  {
    if n == 0 {
      assert s.handlers == [s.handlers[0]];
    } else {
      TakenAttempts(cfg, s, how, attempts, n - 1);
      assert InsertLabels(attempts, (n - 1) + 1) == InsertLabels(attempts, (n - 1)) + [InsertLabel(attempts[(n - 1)])];
      ExecSnoc(cfg, s, InsertLabels(attempts, n - 1), InsertLabel(attempts[n - 1]));
      TakenStep(cfg, s, how, n - 1, attempts[n - 1]);
    }
  }

  /** What one attempt leaves behind that ends the loop. */
  ghost predicate Saved(s: State, s': State, quote: QuoteRequest, a: Attempt)
    requires |s.handlers| == 1
  {
    var taken := HasReference(Rows(s.log), a.reference);
    && s'.events == s.events && s'.sends == s.sends && s'.now == s.now
    && s'.handlers == [Handler(s.handlers[0].sub,
                               if a.weather.Clear? && !taken then Notifying(a.id, a.reference)
                               else Done(Response(503, None)))]
    && Rows(s'.log) == if taken || a.weather.Refused? then Rows(s.log)
                       else Rows(s.log) + [Row(a.id, s.now, quote.(reference := a.reference))]
  }

  lemma LastAttempt(cfg: Config, s: State, tried: nat, how: Admission, quote: QuoteRequest, a: Attempt)
    requires |s.handlers| == 1 && s.handlers[0].stage == Saving(tried, how)
    requires quote.ipHash == s.handlers[0].sub.ipHash && quote.lead == s.handlers[0].sub.lead
    requires !HasId(Rows(s.log), a.id)
    requires a.weather.Clear? && HasReference(Rows(s.log), a.reference) ==> tried == SAVE_ATTEMPTS - 1
    ensures Saved(s, Next(cfg, s, InsertLabel(a)), quote, a)
  {
  }

  /** The state after saveQuote's attempts, in the terms of SaveQuote's contract. */
  lemma SaveIsRun(cfg: Config, s: State, how: Admission, quote: QuoteRequest, attempts: seq<Attempt>, used: nat)
    requires |s.handlers| == 1 && s.handlers[0].stage == Saving(0, how)
    requires quote.ipHash == s.handlers[0].sub.ipHash && quote.lead == s.handlers[0].sub.lead
    requires used < SAVE_ATTEMPTS && |attempts| == SAVE_ATTEMPTS && AllTaken(Rows(s.log), attempts, used)
    requires FreshIds(Rows(s.log), attempts)
    requires attempts[used].weather.Clear? && HasReference(Rows(s.log), attempts[used].reference) ==>
               used == SAVE_ATTEMPTS - 1
    ensures Saved(s, Exec(cfg, s, InsertLabels(attempts, used + 1)), quote, attempts[used])
  {
    TakenAttempts(cfg, s, how, attempts, used);
    assert InsertLabels(attempts, used + 1) == InsertLabels(attempts, used) + [InsertLabel(attempts[used])];
    ExecSnoc(cfg, s, InsertLabels(attempts, used), InsertLabel(attempts[used]));
    LastAttempt(cfg, Move(s, 0, Saving(used, how)), used, how, quote, attempts[used]);
  }

  /** The handler of s, alone, in stage st at time now. */
  function InStage(s: State, now: int, st: Stage): State
    requires |s.handlers| == 1
  {
    s.(now := now, handlers := [Handler(s.handlers[0].sub, st)])
  }

  /** The response to a submission that goes no further than the gate and the rate limit, which
      a failing count does not enforce. */
  function Denial(cfg: Config, rows: seq<Row>, sub: Submission, countFails: bool, now: int): Option<Response> {
    if Gate(sub).Some? then Gate(sub)
    else if cfg.limit > 0 && !countFails && CountOf(rows, IsRecent(sub.ipHash, now - HOUR)) >= cfg.limit
    then Some(Response(429, None))
    else None
  }

  /** A good submission is denied exactly when the store holds as many leads of its own address,
      younger than an hour, as the limit allows. Other addresses and older leads do not matter. */
  lemma DeniedIff(cfg: Config, rows: seq<Row>, sub: Submission, now: int)
    requires sub.sameOrigin && sub.parse == Parsed && !sub.honeypot && sub.valid
    ensures Denial(cfg, rows, sub, false, now) == Some(Response(429, None)) <==>
            && cfg.limit > 0
            && |set i: nat | i < |rows| && rows[i].quote.ipHash == sub.ipHash
                             && rows[i].createdAt > now - 3_600_000_000_000| >= cfg.limit
    ensures Denial(cfg, rows, sub, false, now) in [None, Some(Response(429, None))]
    ensures Denial(cfg, rows, sub, true, now) == None
  {
    RecentRows(rows, sub.ipHash, now - HOUR);
  }

  /** A handler that entered at s and counts in s' is denied exactly when s' holds as many leads of
      its address, younger than an hour when it entered, as the limit allows. */
  lemma CountDecides(cfg: Config, s: State, s': State, p: nat)
    requires cfg.limit > 0 && p < |s.handlers| && p < |s'.handlers|
    requires s.handlers[p].stage == Arrived && Gate(s.handlers[p].sub).None?
    requires s'.handlers[p] == Step(cfg, s, p, Enter).handlers[p]
    ensures var recent := set i: nat | i < |s'.log| && s'.log[i].row.quote.ipHash == s.handlers[p].sub.ipHash
                                       && s'.log[i].row.createdAt > s.now - 3_600_000_000_000;
            Step(cfg, s', p, Count).handlers[p].stage ==
            if |recent| >= cfg.limit then Done(Response(429, None)) else Saving(0, Counted)
  {
    var ipHash := s.handlers[p].sub.ipHash;
    RecentRows(Rows(s'.log), ipHash, s.now - HOUR);
    assert (set i: nat | i < |Rows(s'.log)| && Rows(s'.log)[i].quote.ipHash == ipHash
                         && Rows(s'.log)[i].createdAt > s.now - HOUR) ==
           set i: nat | i < |s'.log| && s'.log[i].row.quote.ipHash == ipHash
                        && s'.log[i].row.createdAt > s.now - HOUR;
  }

  /** What the provider's outcome becomes in the event. */
  lemma EventSays(id: string, messageId: string, error: string, taken: nat)
    ensures MailEvent(id, Delivered(messageId, taken)) == EmailEvent(id, messageId, "sent", "")
    ensures MailEvent(id, Failed(error, taken)) == EmailEvent(id, "", "failed", error)
  {
  }

  /** Gate and rate limit: a response if the submission goes no further, and otherwise the way it
      was let through. */
  method Admit(cfg: Config, store: MemoryStore, sub: Submission, world: World, now: int, ghost s: State)
    returns (denied: Option<Response>, ghost how: Admission, ghost schedule: seq<Label>)
    requires s == Before(store.quotes, store.events, now, sub)
    ensures Exec(cfg, s, schedule) ==
            if denied.Some? then InStage(s, now, Done(denied.value)) else InStage(s, now, Saving(0, how))
    ensures denied == Denial(cfg, store.quotes, sub, world.countFails, now)
    ensures denied.Some? ==> denied.value.reference.None?
    ensures AllClear(world) ==> AllFaultless(schedule)
  {
    how := Unlimited;
    denied := Gate(sub);
    schedule := [Act(0, Enter)];
    ExecSnoc(cfg, s, [], Act(0, Enter));
    assert [] + schedule == schedule;
    assert s.handlers == [Handler(sub, Arrived)];
    if denied.Some? || cfg.limit <= 0 {
      return;
    }
    var n := 0;
    if !world.countFails {
      n := store.CountQuoteRequestsSince(sub.ipHash, now - HOUR);
    }
    how := if world.countFails then FailedOpen else Counted;
    if !world.countFails && n >= cfg.limit {
      denied := Some(Response(429, None));
    }
    ghost var l := Act(0, if world.countFails then CountFails else Count);
    ExecSnoc(cfg, s, schedule, l);
    FaultlessSnoc(schedule, l);
    schedule := schedule + [l];
  }

  /** Attempt `used` is the one that decides: those before it drew taken references. */
  predicate Decides(rows: seq<Row>, attempts: seq<Attempt>, used: nat)
    requires |attempts| == SAVE_ATTEMPTS
  {
    && used < SAVE_ATTEMPTS && AllTaken(rows, attempts, used)
    && (attempts[used].weather.Clear? && HasReference(rows, attempts[used].reference) ==> used == SAVE_ATTEMPTS - 1)
  }

  /** Attempt a, made at time now, puts the lead of sub into the store, fails, or both. */
  predicate Submitted(rows: seq<Row>, rows': seq<Row>, sub: Submission, a: Attempt, now: int, response: Response) {
    var taken := HasReference(rows, a.reference);
    && response == (if a.weather.Clear? && !taken then Response(200, Some(a.reference)) else Response(503, None))
    && rows' == if taken || a.weather.Refused? then rows
                else rows + [Row(a.id, now, QuoteRequest(a.reference, sub.ipHash, sub.lead))]
  }

  /** QuoteHandler and notifySales from the gate to the response. The ghost schedule shows that
      this execution is a run of the step machine, with the same store and the same response;
      `used` is the save attempt that decided. */
  method HandleQuote(cfg: Config, store: MemoryStore, sub: Submission, world: World, now: int)
    returns (response: Response, ghost schedule: seq<Label>, ghost used: nat)
    requires |world.attempts| == SAVE_ATTEMPTS && FreshIds(store.quotes, world.attempts)
    modifies store
    ensures var s := Exec(cfg, Before(old(store.quotes), old(store.events), now, sub), schedule);
            && Rows(s.log) == store.quotes
            && s.events == store.events
            && s.handlers == [Handler(sub, Done(response))]
    ensures AllClear(world) ==> AllFaultless(schedule)
    ensures var denied := Denial(cfg, old(store.quotes), sub, world.countFails, now);
            if denied.Some? then response == denied.value && store.quotes == old(store.quotes)
            else Decides(old(store.quotes), world.attempts, used)
                 && Submitted(old(store.quotes), store.quotes, sub, world.attempts[used], now + world.delay, response)
    ensures store.events == old(store.events) +
              if response.reference.None? || world.eventLost then []
              else [MailEvent(world.attempts[used].id, world.mail)]
  {
    ghost var s0 := Before(store.quotes, store.events, now, sub);
    var denied;
    ghost var how;
    denied, how, schedule := Admit(cfg, store, sub, world, now, s0);
    used := 0;
    if denied.Some? {
      return denied.value, schedule, used;
    }
    ghost var s := InStage(s0, now + world.delay, Saving(0, how));
    ghost var more;
    response, more, used := Fulfil(cfg, store, s, how, sub, world, now + world.delay);
    ghost var admitted := schedule;
    schedule := admitted + [Tick(world.delay)] + more;
    AfterDelay(cfg, s0, how, admitted, world.delay, s, more, schedule);
  }

  /** A run that has let its handler through goes on after a delay. */
  lemma AfterDelay(cfg: Config, s0: State, how: Admission, schedule: seq<Label>, delay: nat,
                   s: State, more: seq<Label>, all: seq<Label>)
    requires |s0.handlers| == 1 && s == InStage(s0, s0.now + delay, Saving(0, how))
    requires Exec(cfg, s0, schedule) == InStage(s0, s0.now, Saving(0, how))
    requires all == schedule + [Tick(delay)] + more
    ensures Exec(cfg, s0, all) == Exec(cfg, s, more)
    ensures AllFaultless(schedule) && AllFaultless(more) ==> AllFaultless(all)
  {
    var ticked := schedule + [Tick(delay)];
    ExecSnoc(cfg, s0, schedule, Tick(delay));
    assert Next(cfg, InStage(s0, s0.now, Saving(0, how)), Tick(delay)) == InStage(s0, s0.now + delay, Saving(0, how));
    ExecConcat(cfg, s0, ticked, more);
    FaultlessSnoc(schedule, Tick(delay));
    if AllFaultless(schedule) && AllFaultless(more) {
      FaultlessConcat(ticked, more);
    }
  }

  /** saveQuote and notifySales for a submission that was let through. */
  method Fulfil(cfg: Config, store: MemoryStore, ghost s: State, ghost how: Admission, sub: Submission,
                world: World, now: int)
    returns (response: Response, ghost schedule: seq<Label>, ghost used: nat)
    requires s.handlers == [Handler(sub, Saving(0, how))] && s.now == now
    requires Rows(s.log) == store.quotes && s.events == store.events
    requires |world.attempts| == SAVE_ATTEMPTS && FreshIds(store.quotes, world.attempts)
    modifies store
    ensures var s' := Exec(cfg, s, schedule);
            && Rows(s'.log) == store.quotes
            && s'.events == store.events
            && s'.handlers == [Handler(sub, Done(response))]
    ensures AllClear(world) ==> AllFaultless(schedule)
    ensures Decides(old(store.quotes), world.attempts, used)
    ensures Submitted(old(store.quotes), store.quotes, sub, world.attempts[used], now, response)
    ensures store.events == old(store.events) +
              if response.reference.None? || world.eventLost then []
              else [MailEvent(world.attempts[used].id, world.mail)]
  {
    var blank := QuoteRequest("", sub.ipHash, sub.lead);
    var saved, quote;
    saved, quote, used := SaveQuote(store, blank, world.attempts, now);
    SaveIsRun(cfg, s, how, blank, world.attempts, used);
    schedule := InsertLabels(world.attempts, used + 1);
    if AllClear(world) {
      InsertsFaultless(world.attempts, used + 1);
    }
    if saved.Err? {
      response := Response(503, None);
      return;
    }
    ghost var s1 := Exec(cfg, s, schedule);
    ghost var more := NotifySales(cfg, store, s1, saved.value, quote, world);
    ExecConcat(cfg, s, schedule, more);
    if AllClear(world) {
      FaultlessConcat(schedule, more);
    }
    schedule := schedule + more;
    response := Response(200, Some(quote.reference));
  }

  lemma ThreeSteps(cfg: Config, s: State, l1: Label, l2: Label, l3: Label)
    ensures Exec(cfg, s, [l1] + [l2] + [l3]) == Next(cfg, Next(cfg, Next(cfg, s, l1), l2), l3)
    ensures AllFaultless([l1] + [l2] + [l3]) <==> Faultless(l1) && Faultless(l2) && Faultless(l3)
  {
    ExecSnoc(cfg, s, [l1] + [l2], l3);
    ExecSnoc(cfg, s, [l1], l2);
    ExecSnoc(cfg, s, [], l1);
    FaultlessSnoc([l1] + [l2], l3);
    FaultlessSnoc([l1], l2);
    FaultlessSnoc([], l1);
    assert [] + [l1] == [l1];
  }

  function SendLabel(mail: Mail): Label {
    Act(0, SendMail(mail.Failed?, mail.taken))
  }

  function RecordLabel(mail: Mail, lost: bool): Label {
    Act(0, if lost then RecordFails
           else match mail
             case Delivered(messageId, _) => Record(messageId, "")
             case Failed(error, _) => Record("", error))
  }

  /** The step machine's way through notifySales and the response. */
  lemma NotifyRun(cfg: Config, s: State, id: string, reference: string, mail: Mail, lost: bool)
    returns (schedule: seq<Label>)
    requires |s.handlers| == 1 && s.handlers[0].stage == Notifying(id, reference)
    ensures var s' := Exec(cfg, s, schedule);
            && s'.log == s.log && s'.events == s.events + (if lost then [] else [MailEvent(id, mail)])
            && s'.handlers == [Handler(s.handlers[0].sub, Done(Response(200, Some(reference))))]
    ensures !lost ==> AllFaultless(schedule)
  {
    var l1, l2, l3 := SendLabel(mail), RecordLabel(mail, lost), Act(0, Respond);
    schedule := [l1] + [l2] + [l3];
    ThreeSteps(cfg, s, l1, l2, l3);
    var s1 := Next(cfg, s, l1);
  }

  /** notifySales and the response after it. */
  method NotifySales(cfg: Config, store: MemoryStore, ghost s: State, id: string, q: QuoteRequest, world: World)
    returns (ghost schedule: seq<Label>)
    requires |s.handlers| == 1 && s.handlers[0].stage == Notifying(id, q.reference)
    requires s.events == store.events
    modifies store`events
    ensures var s' := Exec(cfg, s, schedule);
            && s'.log == s.log && s'.events == store.events
            && s'.handlers == [Handler(s.handlers[0].sub, Done(Response(200, Some(q.reference))))]
    ensures store.events ==
            if world.eventLost then old(store.events)
            else old(store.events) + [MailEvent(id, world.mail)]
    ensures AllClear(world) ==> AllFaultless(schedule)
  {
    var event := EmailEvent(id, "", "sent", "");
    if world.mail.Failed? {
      event := event.(eventType := "failed", errorMessage := world.mail.error);
    } else {
      event := event.(messageId := world.mail.messageId);
    }
    if !world.eventLost {
      store.RecordEmailEvent(event);
    }
    schedule := NotifyRun(cfg, s, id, q.reference, world.mail, world.eventLost);
  }
}
