/** Lead intake as a step machine (QuoteHandler, saveQuote and notifySales of
    internal/handlers/quote.go over the Store contract). Any number of handlers run at once;
    a step is one critical section of the store, one reading of the clock, one send or one
    response, and a schedule is any sequence of labels. A label that does not fit the state
    changes nothing. */
module Intake {
  import opened Results
  import opened Counting
  import opened Memory

  /** time.Hour, in nanoseconds. */
  const HOUR := 3_600_000_000_000
  const SAVE_ATTEMPTS := 3

  datatype Parse = Parsed | Malformed | TooLarge

  /** A request as the gate sees it. */
  datatype Submission = Submission(sameOrigin: bool, parse: Parse, honeypot: bool, valid: bool,
                                   ipHash: string, lead: Lead)

  datatype Response = Response(status: nat, reference: Option<string>)

  /** The checks before the rate limit, in the source's order (lines 93-123). */
  function Gate(sub: Submission): Option<Response> {
    if !sub.sameOrigin then Some(Response(403, None))
    else if sub.parse.TooLarge? then Some(Response(413, None))
    else if sub.parse.Malformed? then Some(Response(400, None))
    else if sub.honeypot then Some(Response(200, None))
    else if !sub.valid then Some(Response(422, None))
    else None
  }

  /** QuoteRateLimitPerHour; the limit is off unless positive. */
  datatype Config = Config(limit: int)

  /** Why a lead was let through to the insert. */
  datatype Admission = Counted | FailedOpen | Unlimited

  datatype Stage =
    | Arrived
    | Clocked(since: int)
    | Saving(tried: nat, how: Admission)
    | Notifying(id: string, reference: string)
    | Recording(id: string, reference: string, failed: bool)
    | Responding(id: string, reference: string)
    | Done(response: Response)

  datatype Handler = Handler(sub: Submission, stage: Stage)

  datatype Entry = Entry(row: Row, how: Admission)

  /** One call of the mail provider: its outcome and how many mails the server took. */
  datatype Sent = Sent(quoteId: string, reference: string, failed: bool, accepted: nat)

  /** lostInserts counts rows whose insert was reported as failed, lostEvents the sends whose
      event could not be recorded; both stay 0 over MemoryStore. */
  datatype State = State(now: int, log: seq<Entry>, events: seq<EmailEvent>, sends: seq<Sent>,
                         handlers: seq<Handler>, lostInserts: nat, lostEvents: nat)

  datatype Action =
    | Enter
    | Count
    | CountFails
    | Insert(reference: string, id: string)
    | InsertFails(reference: string, id: string, landed: bool)
    | SendMail(failed: bool, accepted: nat)
    | Record(messageId: string, error: string)
    | RecordFails
    | Respond

  datatype Label = Tick(elapsed: nat) | Arrive(sub: Submission) | Act(p: nat, action: Action)

  function Rows(log: seq<Entry>): (rows: seq<Row>)
    ensures |rows| == |log| && forall i :: 0 <= i < |log| ==> rows[i] == log[i].row
  {
    seq(|log|, i requires 0 <= i < |log| => log[i].row)
  }

  function Move(s: State, p: nat, stage: Stage): State
    requires p < |s.handlers|
  {
    s.(handlers := s.handlers[p := s.handlers[p].(stage := stage)])
  }

  predicate Fresh(s: State, reference: string, id: string) {
    !HasReference(Rows(s.log), reference) && !HasId(Rows(s.log), id)
  }

  function Stored(s: State, h: Handler, reference: string, id: string): Row {
    Row(id, s.now, QuoteRequest(reference, h.sub.ipHash, h.sub.lead))
  }

  function EventType(failed: bool): string {
    if failed then "failed" else "sent"
  }

  /** One action of handler p. */
  function Step(cfg: Config, s: State, p: nat, a: Action): State
    requires p < |s.handlers|
  {
    var h := s.handlers[p];
    match (h.stage, a)
    case (Arrived, Enter) =>
      var gate := Gate(h.sub);
      if gate.Some? then Move(s, p, Done(gate.value))
      else if cfg.limit > 0 then Move(s, p, Clocked(s.now - HOUR))
      else Move(s, p, Saving(0, Unlimited))
    case (Clocked(since), Count) =>
      if CountOf(Rows(s.log), IsRecent(h.sub.ipHash, since)) >= cfg.limit
      then Move(s, p, Done(Response(429, None)))
      else Move(s, p, Saving(0, Counted))
    case (Clocked(_), CountFails) => Move(s, p, Saving(0, FailedOpen))
    case (Saving(tried, how), Insert(reference, id)) =>
      if HasReference(Rows(s.log), reference) then
        Move(s, p, if tried + 1 < SAVE_ATTEMPTS then Saving(tried + 1, how) else Done(Response(503, None)))
      else if HasId(Rows(s.log), id) then s
      else Move(s, p, Notifying(id, reference)).(log := s.log + [Entry(Stored(s, h, reference, id), how)])
    case (Saving(tried, how), InsertFails(reference, id, landed)) =>
      var s' := Move(s, p, Done(Response(503, None)));
      if landed && Fresh(s, reference, id)
      then s'.(log := s.log + [Entry(Stored(s, h, reference, id), how)], lostInserts := s.lostInserts + 1)
      else s'
    case (Notifying(id, reference), SendMail(failed, accepted)) =>
      Move(s, p, Recording(id, reference, failed)).(sends := s.sends + [Sent(id, reference, failed, accepted)])
    case (Recording(id, reference, failed), Record(messageId, error)) =>
      Move(s, p, Responding(id, reference)).(
        events := s.events + [EmailEvent(id, messageId, EventType(failed), if failed then error else "")])
    case (Recording(id, reference, _), RecordFails) =>
      Move(s, p, Responding(id, reference)).(lostEvents := s.lostEvents + 1)
    case (Responding(_, reference), Respond) => Move(s, p, Done(Response(200, Some(reference))))
    case _ => s
  }

  function Next(cfg: Config, s: State, l: Label): State {
    match l
    case Tick(elapsed) => s.(now := s.now + elapsed)
    case Arrive(sub) => s.(handlers := s.handlers + [Handler(sub, Arrived)])
    case Act(p, a) => if p < |s.handlers| then Step(cfg, s, p, a) else s
  }

  function Exec(cfg: Config, s: State, ls: seq<Label>): State {
    if ls == [] then s
    else Next(cfg, Exec(cfg, s, ls[..|ls| - 1]), ls[|ls| - 1])
  }

  lemma ExecSnoc(cfg: Config, s: State, ls: seq<Label>, l: Label)
    ensures Exec(cfg, s, ls + [l]) == Next(cfg, Exec(cfg, s, ls), l)
  {
    assert (ls + [l])[..|ls|] == ls;
  }

  lemma {:induction false} ExecConcat(cfg: Config, s: State, ls: seq<Label>, more: seq<Label>)
    ensures Exec(cfg, s, ls + more) == Exec(cfg, Exec(cfg, s, ls), more)
  {
    if more == [] {
      assert ls + more == ls;
    } else {
      var before := more[..|more| - 1];
      ExecConcat(cfg, s, ls, before);
      assert (ls + more)[..|ls + more| - 1] == ls + before;
    }
  }

  const INIT := State(0, [], [], [], [], 0, 0)

  /** A run over MemoryStore: no store call fails. */
  predicate Faultless(l: Label) {
    l.Act? ==> !l.action.CountFails? && !l.action.InsertFails? && !l.action.RecordFails?
  }
}
