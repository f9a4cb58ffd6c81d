/** Lead intake with the Brevo provider: mails the server accepts against stored leads. */
module Mails {
  import opened Results
  import opened Intake
  import Brevo
  import Conservation
  import Identity

  /** A send step is one Brevo send to an honest server, or one that never reached the server. */
  ghost predicate ByBrevo(l: Label) {
    l.Act? && l.action.SendMail? ==>
      (l.action.failed && l.action.accepted == 0)
      || exists max: int, deadline: Option<int>, now: int, rounds: nat -> Brevo.Round ::
           IsSend(l.action, max, deadline, now, rounds)
  }

  ghost predicate IsSend(a: Action, max: int, deadline: Option<int>, now: int, rounds: nat -> Brevo.Round)
    requires a.SendMail?
  {
    var out := Brevo.Send(max, deadline, now, rounds, 1);
    Brevo.Honest(rounds) && a.failed == out.result.Err? && a.accepted == Brevo.AcceptedCount(out.posts)
  }

  function AcceptedMails(sends: seq<Sent>): nat {
    if sends == [] then 0
    else AcceptedMails(sends[..|sends| - 1]) + sends[|sends| - 1].accepted
  }

  lemma BrevoTakesOne(l: Label)
    requires ByBrevo(l) && l.Act? && l.action.SendMail?
    ensures l.action.accepted <= 1
  {
    if l.action.accepted != 0 {
      var max: int, deadline: Option<int>, now: int, rounds: nat -> Brevo.Round :|
        IsSend(l.action, max, deadline, now, rounds);
      Brevo.AtMostOneAcceptance(max, deadline, now, rounds, 1);
    }
  }

  lemma {:induction false} AcceptedPerSend(cfg: Config, ls: seq<Label>)
    requires forall i :: 0 <= i < |ls| ==> ByBrevo(ls[i])
    ensures AcceptedMails(Exec(cfg, INIT, ls).sends) <= |Exec(cfg, INIT, ls).sends|
  {
    if ls != [] {
      var before, l := ls[..|ls| - 1], ls[|ls| - 1];
      AcceptedPerSend(cfg, before);
      var s := Exec(cfg, INIT, before);
      if l.Act? && l.p < |s.handlers| {
        if l.action.SendMail? {
          BrevoTakesOne(l);
        }
      }
    }
  }

  /** Sales never gets more mails than there are stored leads, in any run. */
  lemma MailsWithinLeads(cfg: Config, ls: seq<Label>)
    requires forall i :: 0 <= i < |ls| ==> ByBrevo(ls[i])
    ensures AcceptedMails(Exec(cfg, INIT, ls).sends) <= |Exec(cfg, INIT, ls).log|
  {
    AcceptedPerSend(cfg, ls);
    Conservation.RunBalanced(cfg, ls);
  }

  // ---- what an event tells about its mail

  /** A send step is one Brevo send to a truthful server, or one that never reached the server. */
  ghost predicate ByTruthfulBrevo(l: Label) {
    l.Act? && l.action.SendMail? ==>
      (l.action.failed && l.action.accepted == 0)
      || exists max: int, deadline: Option<int>, now: int, rounds: nat -> Brevo.Round ::
           IsTruthfulSend(l.action, max, deadline, now, rounds)
  }

  ghost predicate IsTruthfulSend(a: Action, max: int, deadline: Option<int>, now: int, rounds: nat -> Brevo.Round)
    requires a.SendMail?
  {
    var out := Brevo.Send(max, deadline, now, rounds, 1);
    Brevo.Truthful(rounds) && a.failed == out.result.Err? && a.accepted == Brevo.AcceptedCount(out.posts)
  }

  predicate Tells(sent: Sent) {
    if sent.failed then sent.accepted <= 1 else sent.accepted == 1
  }

  lemma TruthfulTells(a: Action, id: string, reference: string)
    requires a.SendMail? && ByTruthfulBrevo(Act(0, a))
    ensures Tells(Sent(id, reference, a.failed, a.accepted))
  {
    if !(a.failed && a.accepted == 0) {
      var max: int, deadline: Option<int>, now: int, rounds: nat -> Brevo.Round :|
        IsTruthfulSend(a, max, deadline, now, rounds);
      Brevo.ResultTells(max, deadline, now, rounds, 1);
    }
  }

  lemma StepTells(cfg: Config, s: State, p: nat, a: Action)
    requires p < |s.handlers| && ByTruthfulBrevo(Act(p, a))
    requires forall k :: 0 <= k < |s.sends| ==> Tells(s.sends[k])
    ensures forall k :: 0 <= k < |Step(cfg, s, p, a).sends| ==> Tells(Step(cfg, s, p, a).sends[k])
  {
    var h := s.handlers[p];
    if h.stage.Notifying? && a.SendMail? {
      TruthfulTells(a, h.stage.id, h.stage.reference);
    }
  }

  lemma {:induction false} RunTells(cfg: Config, ls: seq<Label>)
    requires forall i :: 0 <= i < |ls| ==> ByTruthfulBrevo(ls[i])
    ensures forall k :: 0 <= k < |Exec(cfg, INIT, ls).sends| ==> Tells(Exec(cfg, INIT, ls).sends[k])
  {
    if ls != [] {
      var before, l := ls[..|ls| - 1], ls[|ls| - 1];
      RunTells(cfg, before);
      var s := Exec(cfg, INIT, before);
      if l.Act? && l.p < |s.handlers| {
        StepTells(cfg, s, l.p, l.action);
      }
    }
  }

  /** With a truthful server an event "sent" stands for exactly one mail that the server took for
      its lead, in any run; an event "failed" for at most one. */
  lemma EventTells(cfg: Config, ls: seq<Label>, i: nat) returns (k: nat)
    requires forall i :: 0 <= i < |ls| ==> ByTruthfulBrevo(ls[i])
    requires i < |Exec(cfg, INIT, ls).events|
    ensures var s := Exec(cfg, INIT, ls);
            && k < |s.sends| && s.sends[k].quoteId == s.events[i].quoteId
            && (forall j :: 0 <= j < |s.sends| && s.sends[j].quoteId == s.events[i].quoteId ==> j == k)
            && (if s.events[i].eventType == "sent" then s.sends[k].accepted == 1 else s.sends[k].accepted <= 1)
  {
    var s := Exec(cfg, INIT, ls);
    Identity.RunSound(cfg, ls);
    RunTells(cfg, ls);
    assert Identity.Reports(s, s.events[i]);
    k :| 0 <= k < |s.sends| && s.sends[k].quoteId == s.events[i].quoteId
         && s.events[i].eventType == EventType(s.sends[k].failed);
    assert Tells(s.sends[k]);
  }
}
