/** Which lead is which, in every run of lead intake: references and ids are unique, a send
    belongs to one stored lead, an event to one send, a success response to one reference. */
module Identity {
  import opened Results
  import opened Memory
  import opened Intake

  predicate RowAt(s: State, i: nat, id: string, reference: string) {
    i < |s.log| && s.log[i].row.id == id && s.log[i].row.quote.reference == reference
  }

  predicate HasRow(s: State, id: string, reference: string) {
    exists i: nat :: i < |s.log| && RowAt(s, i, id, reference)
  }

  predicate SentAt(s: State, k: nat, id: string, reference: string, failed: bool) {
    k < |s.sends| && s.sends[k].quoteId == id && s.sends[k].reference == reference && s.sends[k].failed == failed
  }

  predicate HasSent(s: State, id: string, reference: string, failed: bool) {
    exists k: nat :: k < |s.sends| && SentAt(s, k, id, reference, failed)
  }

  predicate SentId(s: State, id: string) {
    exists k :: 0 <= k < |s.sends| && s.sends[k].quoteId == id
  }

  predicate EventId(s: State, id: string) {
    exists k :: 0 <= k < |s.events| && s.events[k].quoteId == id
  }

  /** The reference a handler's lead was stored under. */
  function Ticket(h: Handler): Option<string> {
    match h.stage
    case Notifying(_, reference) => Some(reference)
    case Recording(_, reference, _) => Some(reference)
    case Responding(_, reference) => Some(reference)
    case Done(response) => response.reference
    case _ => None
  }

  predicate DistinctRows(s: State) {
    forall i, j :: 0 <= i < j < |s.log| ==>
      && s.log[i].row.id != s.log[j].row.id
      && s.log[i].row.quote.reference != s.log[j].row.quote.reference
  }

  predicate DistinctTickets(s: State) {
    forall p, q :: 0 <= p < q < |s.handlers| ==>
      Ticket(s.handlers[p]).None? || Ticket(s.handlers[p]) != Ticket(s.handlers[q])
  }

  /** Every send is for one stored lead, and no lead has two. */
  predicate SendsSound(s: State) {
    && (forall k :: 0 <= k < |s.sends| ==> HasRow(s, s.sends[k].quoteId, s.sends[k].reference))
    && (forall j, k :: 0 <= j < k < |s.sends| ==> s.sends[j].quoteId != s.sends[k].quoteId)
  }

  /** Event e reports a send to the lead it names, as failed exactly when the send failed. */
  predicate Reports(s: State, e: EmailEvent) {
    exists k :: 0 <= k < |s.sends| && s.sends[k].quoteId == e.quoteId && e.eventType == EventType(s.sends[k].failed)
  }

  predicate EventsSound(s: State) {
    && (forall k :: 0 <= k < |s.events| ==> Reports(s, s.events[k]))
    && (forall j, k :: 0 <= j < k < |s.events| ==> s.events[j].quoteId != s.events[k].quoteId)
  }

  predicate HandlerOk(s: State, h: Handler) {
    match h.stage
    case Notifying(id, reference) => HasRow(s, id, reference) && !SentId(s, id)
    case Recording(id, reference, failed) =>
      HasRow(s, id, reference) && HasSent(s, id, reference, failed) && !EventId(s, id)
    case Responding(id, reference) => HasRow(s, id, reference) && SentId(s, id)
    case Done(response) => response.reference.Some? ==>
      response.status == 200 && HasReference(Rows(s.log), response.reference.value)
    case _ => true
  }

  predicate HandlersOk(s: State) {
    forall p :: 0 <= p < |s.handlers| ==> HandlerOk(s, s.handlers[p])
  }

  predicate Sound(s: State) {
    && DistinctRows(s) && DistinctTickets(s) && HandlersOk(s)
    && SendsSound(s) && EventsSound(s)
  }

  // ---- growing lists

  lemma RowsGrow(s: State, s': State, id: string, reference: string)
    requires s.log <= s'.log
    ensures HasRow(s, id, reference) ==> HasRow(s', id, reference)
    ensures HasReference(Rows(s.log), reference) ==> HasReference(Rows(s'.log), reference)
  {
    if HasRow(s, id, reference) {
      var i: nat :| i < |s.log| && RowAt(s, i, id, reference);
      assert RowAt(s', i, id, reference);
    }
    if HasReference(Rows(s.log), reference) {
      var i :| 0 <= i < |s.log| && Rows(s.log)[i].quote.reference == reference;
      assert Rows(s'.log)[i].quote.reference == reference;
    }
  }

  lemma SendsGrow(s: State, s': State, id: string, reference: string, failed: bool)
    requires s.sends <= s'.sends
    ensures HasSent(s, id, reference, failed) ==> HasSent(s', id, reference, failed)
    ensures SentId(s, id) ==> SentId(s', id)
  {
    if HasSent(s, id, reference, failed) {
      var k: nat :| k < |s.sends| && SentAt(s, k, id, reference, failed);
      assert SentAt(s', k, id, reference, failed);
    }
    if SentId(s, id) {
      var k :| 0 <= k < |s.sends| && s.sends[k].quoteId == id;
      assert s'.sends[k].quoteId == id;
    }
  }

  // ---- one step

  /** Steps that leave rows, sends and events alone keep everything sound, if the moved handler
      keeps its ticket or holds none. */
  lemma PlainMove(s: State, p: nat, stage: Stage)
    requires p < |s.handlers| && Sound(s)
    requires var h := s.handlers[p].(stage := stage);
             HandlerOk(s, h) && (Ticket(h).None? || Ticket(h) == Ticket(s.handlers[p]))
    ensures Sound(Move(s, p, stage))
  {
    var s' := Move(s, p, stage);
    forall q | 0 <= q < |s'.handlers| ensures HandlerOk(s', s'.handlers[q]) {
      assert q != p ==> s'.handlers[q] == s.handlers[q];
      assert HandlerOk(s, s'.handlers[q]);
      SameLists(s, s', s'.handlers[q]);
    }
    SameSound(s, s');
  }

  lemma SameLists(s: State, s': State, h: Handler)
    requires s.log == s'.log && s.sends == s'.sends && s.events == s'.events && HandlerOk(s, h)
    ensures HandlerOk(s', h)
  {
    var id := if h.stage.Notifying? || h.stage.Recording? || h.stage.Responding? then h.stage.id else "";
    var reference := if h.stage.Notifying? || h.stage.Recording? || h.stage.Responding? then h.stage.reference else "";
    RowsGrow(s, s', id, reference);
    SendsGrow(s, s', id, reference, false);
    SendsGrow(s, s', id, reference, true);
  }

  lemma SameSound(s: State, s': State)
    requires s.log == s'.log && s.sends == s'.sends && s.events == s'.events
    requires DistinctRows(s) && SendsSound(s) && EventsSound(s)
    ensures DistinctRows(s') && SendsSound(s') && EventsSound(s')
  {
    forall k | 0 <= k < |s'.sends| ensures HasRow(s', s'.sends[k].quoteId, s'.sends[k].reference) {
      RowsGrow(s, s', s.sends[k].quoteId, s.sends[k].reference);
    }
    forall k | 0 <= k < |s'.events| ensures Reports(s', s'.events[k]) {
      assert Reports(s, s.events[k]);
    }
  }

  /** A handler that was right stays right while the lists grow, unless the new send or event is its own. */
  lemma HandlerGrows(s: State, s': State, h: Handler)
    requires HandlerOk(s, h) && s.log <= s'.log && s.sends <= s'.sends
    requires h.stage.Notifying? && SentId(s', h.stage.id) ==> SentId(s, h.stage.id)
    requires h.stage.Recording? && EventId(s', h.stage.id) ==> EventId(s, h.stage.id)
    ensures HandlerOk(s', h)
  {
    match h.stage
    case Notifying(id, reference) => RowsGrow(s, s', id, reference);
    case Recording(id, reference, failed) =>
      RowsGrow(s, s', id, reference);
      SendsGrow(s, s', id, reference, failed);
    case Responding(id, reference) =>
      RowsGrow(s, s', id, reference);
      SendsGrow(s, s', id, reference, false);
    case Done(response) =>
      if response.reference.Some? {
        RowsGrow(s, s', "", response.reference.value);
      }
    case _ =>
  }

  lemma SendsGrowSound(s: State, s': State)
    requires SendsSound(s) && s.log <= s'.log && s.sends == s'.sends
    ensures SendsSound(s')
  {
    forall k | 0 <= k < |s'.sends| ensures HasRow(s', s'.sends[k].quoteId, s'.sends[k].reference) {
      RowsGrow(s, s', s.sends[k].quoteId, s.sends[k].reference);
    }
  }

  /** Appending a fresh row for handler p keeps everything sound. */
  lemma InsertSound(s: State, s': State, p: nat, e: Entry)
    requires Sound(s) && p < |s.handlers| && s.handlers[p].stage.Saving?
    requires Fresh(s, e.row.quote.reference, e.row.id)
    requires s'.log == s.log + [e] && s'.sends == s.sends && s'.events == s.events
    requires |s'.handlers| == |s.handlers|
    requires s'.handlers[p].stage == Notifying(e.row.id, e.row.quote.reference)
             || s'.handlers[p].stage == Done(Response(503, None))
    requires forall q :: 0 <= q < |s.handlers| && q != p ==> s'.handlers[q] == s.handlers[q]
    ensures Sound(s')
  {
    SendsGrowSound(s, s');
    assert EventsSound(s') by {
      forall k | 0 <= k < |s'.events| ensures Reports(s', s'.events[k]) {
        assert Reports(s, s.events[k]);
      }
    }
    forall q | 0 <= q < |s.handlers| && q != p
      ensures HandlerOk(s', s'.handlers[q]) && Ticket(s'.handlers[q]) != Some(e.row.quote.reference)
    {
      HandlerGrows(s, s', s.handlers[q]);
      if Ticket(s.handlers[q]).Some? {
      }
    }
    assert HandlerOk(s', s'.handlers[p]) by {
      assert RowAt(s', |s.log|, e.row.id, e.row.quote.reference);
    }
    assert Ticket(s'.handlers[p]) in [None, Some(e.row.quote.reference)];
  }

  /** The send of handler p is the first for its lead. */
  lemma SendSound(s: State, s': State, p: nat, failed: bool, accepted: nat)
    requires Sound(s) && p < |s.handlers| && s.handlers[p].stage.Notifying?
    requires var st := s.handlers[p].stage;
             && s'.handlers == Move(s, p, Recording(st.id, st.reference, failed)).handlers
             && s'.sends == s.sends + [Sent(st.id, st.reference, failed, accepted)]
    requires s'.log == s.log && s'.events == s.events
    ensures Sound(s')
  {
    var st := s.handlers[p].stage;
    assert HandlerOk(s, s.handlers[p]);
    SendsAppended(s, s', st.id, st.reference, failed, accepted);
    forall q | 0 <= q < |s.handlers| && q != p ensures HandlerOk(s', s'.handlers[q]) {
      var h := s.handlers[q];
      assert HandlerOk(s, h);
      if h.stage.Notifying? {
      }
      HandlerGrows(s, s', h);
    }
    RowsGrow(s, s', st.id, st.reference);
    assert SentAt(s', |s.sends|, st.id, st.reference, failed);
    assert EventsSound(s') by {
      forall k | 0 <= k < |s'.events| ensures Reports(s', s'.events[k]) {
        assert Reports(s, s.events[k]);
        var j :| 0 <= j < |s.sends| && s.sends[j].quoteId == s.events[k].quoteId
                 && s.events[k].eventType == EventType(s.sends[j].failed);
        assert s'.sends[j] == s.sends[j];
      }
    }
  }

  lemma SendsAppended(s: State, s': State, id: string, reference: string, failed: bool, accepted: nat)
    requires SendsSound(s) && HasRow(s, id, reference) && !SentId(s, id)
    requires s'.sends == s.sends + [Sent(id, reference, failed, accepted)] && s'.log == s.log
    ensures SendsSound(s')
  {
    forall k | 0 <= k < |s'.sends| ensures HasRow(s', s'.sends[k].quoteId, s'.sends[k].reference) {
      RowsGrow(s, s', s'.sends[k].quoteId, s'.sends[k].reference);
      assert k < |s.sends| ==> s'.sends[k] == s.sends[k];
    }
  }

  /** The event of handler p is the first for its lead and reports its send. */
  lemma RecordSound(s: State, s': State, p: nat, e: EmailEvent)
    requires Sound(s) && p < |s.handlers| && s.handlers[p].stage.Recording?
    requires var st := s.handlers[p].stage;
             && s'.handlers == Move(s, p, Responding(st.id, st.reference)).handlers
             && e.quoteId == st.id && e.eventType == EventType(st.failed)
    requires s'.log == s.log && s'.sends == s.sends && s'.events == s.events + [e]
    ensures Sound(s')
  {
    var st := s.handlers[p].stage;
    assert HandlerOk(s, s.handlers[p]);
    var k: nat :| k < |s.sends| && SentAt(s, k, st.id, st.reference, st.failed);
    forall q | 0 <= q < |s.handlers| && q != p ensures HandlerOk(s', s'.handlers[q]) {
      var h := s.handlers[q];
      assert HandlerOk(s, h);
      if h.stage.Recording? {
      }
      HandlerGrows(s, s', h);
    }
    RowsGrow(s, s', st.id, st.reference);
    SendsGrowSound(s, s');
    assert s.sends[k].quoteId == e.quoteId;
  }

  lemma StepSound(cfg: Config, s: State, p: nat, a: Action)
    requires p < |s.handlers| && Sound(s)
    ensures Sound(Step(cfg, s, p, a))
  {
    var h := s.handlers[p];
    var s' := Step(cfg, s, p, a);
    assert HandlerOk(s, h);
    if s'.log != s.log {
      InsertSound(s, s', p, s'.log[|s.log|]);
    } else if s'.sends != s.sends {
      SendSound(s, s', p, a.failed, a.accepted);
    } else if s'.events != s.events {
      RecordSound(s, s', p, s'.events[|s.events|]);
    } else {
      MoveSound(cfg, s, p, a);
    }
  }

  lemma MoveSound(cfg: Config, s: State, p: nat, a: Action)
    requires p < |s.handlers| && Sound(s)
    requires var s' := Step(cfg, s, p, a); s'.log == s.log && s'.sends == s.sends && s'.events == s.events
    ensures Sound(Step(cfg, s, p, a))
  {
    var h := s.handlers[p];
    var s' := Step(cfg, s, p, a);
    assert HandlerOk(s, h);
    if h.stage.Responding? {
    }
    if h.stage.Recording? {
      var k: nat :| k < |s.sends| && SentAt(s, k, h.stage.id, h.stage.reference, h.stage.failed);
      assert SentId(s, h.stage.id);
    }
    if s' != s {
      PlainMove(s, p, s'.handlers[p].stage);
      SameState(Move(s, p, s'.handlers[p].stage), s');
    }
  }

  lemma SameState(s: State, s': State)
    requires s.log == s'.log && s.sends == s'.sends && s.events == s'.events && s.handlers == s'.handlers
    requires Sound(s)
    ensures Sound(s')
  {
    SameSound(s, s');
    forall q | 0 <= q < |s'.handlers| ensures HandlerOk(s', s'.handlers[q]) {
      assert HandlerOk(s, s.handlers[q]);
      SameLists(s, s', s.handlers[q]);
    }
  }

  lemma NextSound(cfg: Config, s: State, l: Label)
    requires Sound(s)
    ensures Sound(Next(cfg, s, l))
  {
    match l
    case Tick(_) => SameState(s, Next(cfg, s, l));
    case Arrive(sub) =>
      var s' := Next(cfg, s, l);
      SameSound(s, s');
      forall q | 0 <= q < |s.handlers| ensures HandlerOk(s', s'.handlers[q]) {
        assert HandlerOk(s, s.handlers[q]);
        SameLists(s, s', s.handlers[q]);
      }
    case Act(p, a) =>
      if p < |s.handlers| {
        StepSound(cfg, s, p, a);
      }
  }

  // ---- runs

  /** In every state of every run, faulty or not: ids and references are unique, each send is the
      only one for its lead, each event reports that send, and each success response carries a
      stored reference that no other response carries. */
  lemma {:induction false} RunSound(cfg: Config, ls: seq<Label>)
    ensures Sound(Exec(cfg, INIT, ls))
  {
    if ls != [] {
      RunSound(cfg, ls[..|ls| - 1]);
      NextSound(cfg, Exec(cfg, INIT, ls[..|ls| - 1]), ls[|ls| - 1]);
    }
  }

  /** Stored leads, sends and events are never changed or removed. */
  lemma {:induction false} RunAppends(cfg: Config, s: State, ls: seq<Label>)
    ensures var s' := Exec(cfg, s, ls);
            s.log <= s'.log && s.sends <= s'.sends && s.events <= s'.events
  {
    if ls != [] {
      RunAppends(cfg, s, ls[..|ls| - 1]);
    }
  }
}
