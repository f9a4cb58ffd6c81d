/** What every run of lead intake keeps: no lead is lost, doubled or answered with a reference
    that is not stored. */
module Conservation {
  import opened Results
  import opened Counting
  import opened Memory
  import opened Intake

  // ---- numbers

  predicate IsNotifying(h: Handler) { h.stage.Notifying? }
  predicate IsRecording(h: Handler) { h.stage.Recording? }
  predicate IsResponding(h: Handler) { h.stage.Responding? }
  predicate IsSuccess(h: Handler) { h.stage.Done? && h.stage.response.reference.Some? }

  predicate Balanced(s: State) {
    && |s.log| == |s.sends| + CountOf(s.handlers, IsNotifying) + s.lostInserts
    && |s.sends| == |s.events| + CountOf(s.handlers, IsRecording) + s.lostEvents
    && |s.sends| == CountOf(s.handlers, IsRecording) + CountOf(s.handlers, IsResponding)
                    + CountOf(s.handlers, IsSuccess)
  }

  lemma MoveCounts(s: State, p: nat, stage: Stage)
    requires p < |s.handlers|
    ensures var h, h' := s.handlers[p], s.handlers[p].(stage := stage);
            var hs := Move(s, p, stage).handlers;
            && CountOf(hs, IsNotifying) + Bit(IsNotifying(h)) ==
               CountOf(s.handlers, IsNotifying) + Bit(IsNotifying(h'))
            && CountOf(hs, IsRecording) + Bit(IsRecording(h)) ==
               CountOf(s.handlers, IsRecording) + Bit(IsRecording(h'))
            && CountOf(hs, IsResponding) + Bit(IsResponding(h)) ==
               CountOf(s.handlers, IsResponding) + Bit(IsResponding(h'))
            && CountOf(hs, IsSuccess) + Bit(IsSuccess(h)) ==
               CountOf(s.handlers, IsSuccess) + Bit(IsSuccess(h'))
  {
    var h' := s.handlers[p].(stage := stage);
    CountChanged(s.handlers, p, h', IsNotifying);
    CountChanged(s.handlers, p, h', IsRecording);
    CountChanged(s.handlers, p, h', IsResponding);
    CountChanged(s.handlers, p, h', IsSuccess);
  }

  /** What a step adds to the lists its handler's change of stage accounts for. */
  lemma StepAccounts(cfg: Config, s: State, p: nat, a: Action)
    requires p < |s.handlers|
    ensures var s' := Step(cfg, s, p, a);
            |s'.handlers| == |s.handlers|
            && var h, h' := s.handlers[p], s'.handlers[p];
            && |s'.log| - |s'.sends| - s'.lostInserts - Bit(IsNotifying(h'))
               == |s.log| - |s.sends| - s.lostInserts - Bit(IsNotifying(h))
            && |s'.sends| - |s'.events| - s'.lostEvents - Bit(IsRecording(h'))
               == |s.sends| - |s.events| - s.lostEvents - Bit(IsRecording(h))
            && |s'.sends| - Bit(IsRecording(h')) - Bit(IsResponding(h')) - Bit(IsSuccess(h'))
               == |s.sends| - Bit(IsRecording(h)) - Bit(IsResponding(h)) - Bit(IsSuccess(h))
  {
  }

  lemma StepBalanced(cfg: Config, s: State, p: nat, a: Action)
    requires p < |s.handlers| && Balanced(s)
    ensures Balanced(Step(cfg, s, p, a))
  {
    StepAccounts(cfg, s, p, a);
    Balance(s, Step(cfg, s, p, a), p);
  }

  lemma Balance(s: State, s': State, p: nat)
    requires Balanced(s) && p < |s.handlers| == |s'.handlers|
    requires s'.handlers == Move(s, p, s'.handlers[p].stage).handlers
    requires var h, h' := s.handlers[p], s'.handlers[p];
             && |s'.log| - |s'.sends| - s'.lostInserts - Bit(IsNotifying(h'))
                == |s.log| - |s.sends| - s.lostInserts - Bit(IsNotifying(h))
             && |s'.sends| - |s'.events| - s'.lostEvents - Bit(IsRecording(h'))
                == |s.sends| - |s.events| - s.lostEvents - Bit(IsRecording(h))
             && |s'.sends| - Bit(IsRecording(h')) - Bit(IsResponding(h')) - Bit(IsSuccess(h'))
                == |s.sends| - Bit(IsRecording(h)) - Bit(IsResponding(h)) - Bit(IsSuccess(h))
    ensures Balanced(s')
  {
    MoveCounts(s, p, s'.handlers[p].stage);
  }

  lemma NextBalanced(cfg: Config, s: State, l: Label)
    requires Balanced(s)
    ensures Balanced(Next(cfg, s, l))
  {
    match l
    case Tick(_) =>
    case Arrive(sub) =>
      var h := Handler(sub, Arrived);
      CountAppended(s.handlers, h, IsNotifying);
      CountAppended(s.handlers, h, IsRecording);
      CountAppended(s.handlers, h, IsResponding);
      CountAppended(s.handlers, h, IsSuccess);
    case Act(p, a) =>
      if p < |s.handlers| {
        StepBalanced(cfg, s, p, a);
      }
  }

  lemma {:induction false} RunBalanced(cfg: Config, ls: seq<Label>)
    ensures Balanced(Exec(cfg, INIT, ls))
  {
    if ls == [] {
      assert Where(INIT.handlers, IsNotifying) == {};
      assert Where(INIT.handlers, IsRecording) == {};
      assert Where(INIT.handlers, IsResponding) == {};
      assert Where(INIT.handlers, IsSuccess) == {};
    } else {
      RunBalanced(cfg, ls[..|ls| - 1]);
      NextBalanced(cfg, Exec(cfg, INIT, ls[..|ls| - 1]), ls[|ls| - 1]);
    }
  }

  lemma {:induction false} FaultlessLosesNothing(cfg: Config, ls: seq<Label>)
    requires forall l <- ls :: Faultless(l)
    ensures Exec(cfg, INIT, ls).lostInserts == 0 && Exec(cfg, INIT, ls).lostEvents == 0
  {
    if ls != [] {
      assert Faultless(ls[|ls| - 1]);
      FaultlessLosesNothing(cfg, ls[..|ls| - 1]);
    }
  }

  /** No handler is between its insert and its response. */
  predicate Quiet(s: State) {
    forall i :: 0 <= i < |s.handlers| ==>
      !IsNotifying(s.handlers[i]) && !IsRecording(s.handlers[i]) && !IsResponding(s.handlers[i])
  }

  /** When no handler is between insert and response, every stored lead has had one send, one event and one
      success response, but for what a failing store has lost. */
  lemma QuietRunConserves(cfg: Config, ls: seq<Label>)
    ensures var s := Exec(cfg, INIT, ls);
            Quiet(s) ==>
              && |s.log| == |s.sends| + s.lostInserts
              && |s.sends| == |s.events| + s.lostEvents
              && |s.sends| == CountOf(s.handlers, IsSuccess)
    ensures var s := Exec(cfg, INIT, ls);
            Quiet(s) && (forall l <- ls :: Faultless(l)) ==>
              |s.log| == |s.sends| == |s.events| == CountOf(s.handlers, IsSuccess)
  {
    var s := Exec(cfg, INIT, ls);
    RunBalanced(cfg, ls);
    if Quiet(s) {
      CountNone(s.handlers, IsNotifying);
      CountNone(s.handlers, IsRecording);
      CountNone(s.handlers, IsResponding);
      if forall l <- ls :: Faultless(l) {
        FaultlessLosesNothing(cfg, ls);
      }
    }
  }

  // ---- who gets this far

  /** Only an untampered request reaches the store, and every other is told why. */
  lemma GateDecides(sub: Submission)
    ensures Gate(sub).None? <==> sub.sameOrigin && sub.parse == Parsed && !sub.honeypot && sub.valid
    ensures Gate(sub).Some? ==> Gate(sub).value.reference == None
    ensures !sub.sameOrigin <==> Gate(sub) == Some(Response(403, None))
    ensures sub.sameOrigin && sub.parse == TooLarge <==> Gate(sub) == Some(Response(413, None))
    ensures sub.sameOrigin && sub.parse == Malformed <==> Gate(sub) == Some(Response(400, None))
    ensures sub.sameOrigin && sub.parse == Parsed && sub.honeypot <==> Gate(sub) == Some(Response(200, None))
    ensures sub.sameOrigin && sub.parse == Parsed && !sub.honeypot && !sub.valid <==>
            Gate(sub) == Some(Response(422, None))
  {
  }

  predicate Admissible(sub: Submission) {
    sub.sameOrigin && sub.parse == Parsed && !sub.honeypot && sub.valid
  }

  /** Only admissible submissions are under way, and only they are told a reference. */
  predicate Gated(s: State) {
    forall p :: 0 <= p < |s.handlers| ==>
      Admissible(s.handlers[p].sub)
      || s.handlers[p].stage.Arrived?
      || (s.handlers[p].stage.Done? && s.handlers[p].stage.response.reference == None)
  }

  lemma StepGated(cfg: Config, s: State, p: nat, a: Action)
    requires p < |s.handlers| && Gated(s)
    ensures Gated(Step(cfg, s, p, a))
  {
    GateDecides(s.handlers[p].sub);
  }

  lemma {:induction false} RunGated(cfg: Config, ls: seq<Label>)
    ensures Gated(Exec(cfg, INIT, ls))
  {
    if ls != [] {
      var s, l := Exec(cfg, INIT, ls[..|ls| - 1]), ls[|ls| - 1];
      RunGated(cfg, ls[..|ls| - 1]);
      if l.Act? && l.p < |s.handlers| {
        StepGated(cfg, s, l.p, l.action);
      }
    }
  }
}
