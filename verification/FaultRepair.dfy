/**
 The repair workflow and recurrence over whole runs: what each action needs, what it leaves, and when a key gets a
 new record.
 */
module FaultRepair {
  import opened Wrappers
  import opened Faults

  /** An action takes effect in one state only. */
  predicate Ready(s: FaultState, a: Action)
  {
    match a
    case Acknowledge => s == Confirmed
    case StartRepair => s == Acknowledged
    case ReportRepaired => s == UnderRepair
    case Verify(_) => s == Verifying
  }

  /** Event `k` of the run is an action on fault `i` that took effect. */
  predicate Effective(p: Policy, es: seq<Event>, k: nat, i: nat)
    requires k < |es|
  {
    var t := Run([], p, es[..k]);
    es[k].Performed? && es[k].index == i && i < |t| && Ready(t[i].state, es[k].action)
  }

  /** How a fault looks after an action on it: only a successful verification closes it. */
  predicate ShowsWork(f: Fault, a: Action)
  {
    match a
    case Acknowledge => f.state == Acknowledged && f.repair == NotStarted && f.verification == NotVerified
    case StartRepair => f.state == UnderRepair && f.repair == InProgress && f.verification == NotVerified
    case ReportRepaired => f.state == Verifying && f.repair == Repaired && f.verification == BeingVerified
    case Verify(true) => f.state == Closed && f.repair == Repaired && f.verification == Verified
    case Verify(false) => f.state == UnderRepair && f.repair == NotRepaired && f.verification == VerificationFailed
  }

  predicate Untouched(f: Fault)
  {
    && f.state in {Suspected, Confirmed, Normal} && f.repair == NotStarted && f.verification == NotVerified
    && f.acknowledgedTicks.None? && f.actor.None? && f.closedTicks.None? && f.closedActor.None?
  }

  /** Every fault is untouched or looks as one of the actions leaves it. */
  predicate Orderly(f: Fault)
  {
    Untouched(f) || ShowsWork(f, Acknowledge) || ShowsWork(f, StartRepair) || ShowsWork(f, ReportRepaired)
    || ShowsWork(f, Verify(true)) || ShowsWork(f, Verify(false))
  }

  predicate SameWork(f: Fault, g: Fault)
  {
    && g.repair == f.repair && g.verification == f.verification
    && g.acknowledgedTicks == f.acknowledgedTicks && g.actor == f.actor
    && g.closedTicks == f.closedTicks && g.closedActor == f.closedActor
  }

  /** One action, refused or carried out. */
  lemma PerformedIs(t: Table, p: Policy, i: int, a: Action, actor: string, ticks: int)
    ensures var t' := Step(t, p, Performed(i, a, actor, ticks));
      if 0 <= i < |t| && Ready(t[i].state, a) then
        && |t'| == |t| && (forall j :: 0 <= j < |t| && j != i ==> t'[j] == t[j])
        && (Orderly(t[i]) ==> ShowsWork(t'[i], a))
        && t'[i].acknowledgedTicks == (if a == Acknowledge then Some(ticks) else t[i].acknowledgedTicks)
        && t'[i].actor == (if a == Acknowledge then Some(actor) else t[i].actor)
        && t'[i].closedTicks == (if a == Verify(true) then Some(ticks) else t[i].closedTicks)
        && t'[i].closedActor == (if a == Verify(true) then Some(actor) else t[i].closedActor)
      else t' == t
  {
  }

  /** An observation leaves the work on every fault alone, and the state unless the fault was only suspected. */
  lemma ObservedKeeps(t: Table, p: Policy, e: Event, i: nat)
    requires WellFormed(t) && e.Observed? && i < |t|
    ensures var t' := Step(t, p, e);
      && i < |t'| && SameWork(t[i], t'[i])
      && (t[i].state != Suspected ==> t'[i].state == t[i].state)
      && (t[i].state == Suspected ==> t'[i].state in {Suspected, Confirmed, Normal})
  {
    if e.diagnosis.Abnormal? {
      FindActiveFinds(t, KeyOf(e.lamp, e.diagnosis));
    }
  }

  /** A new fault is untouched. */
  lemma RaisedUntouched(p: Policy, k: Key, evidence: string, ticks: int)
    ensures Untouched(Raised(p, k, evidence, ticks))
  {
  }

  lemma StepOrderly(t: Table, p: Policy, e: Event)
    requires WellFormed(t) && forall i :: 0 <= i < |t| ==> Orderly(t[i])
    ensures forall i :: 0 <= i < |Step(t, p, e)| ==> Orderly(Step(t, p, e)[i])
  {
    var t' := Step(t, p, e);
    StepEvolves(t, p, e);
    forall i | 0 <= i < |t'|
      ensures Orderly(t'[i])
    {
      if i == |t| {
        RaisedUntouched(p, t'[i].key, e.diagnosis.evidence, e.ticks);
      } else if e.Observed? {
        ObservedKeeps(t, p, e, i);
      } else {
        PerformedIs(t, p, e.index, e.action, e.actor, e.ticks);
      }
    }
  }

  lemma {:induction false} RunOrderly(p: Policy, es: seq<Event>)
    ensures WellFormed(Run([], p, es))
    ensures forall i :: 0 <= i < |Run([], p, es)| ==> Orderly(Run([], p, es)[i])
  {
    RunWellFormed([], p, es);
    if es != [] {
      RunOrderly(p, es[..|es| - 1]);
      StepOrderly(Run([], p, es[..|es| - 1]), p, es[|es| - 1]);
    }
  }

  /** An event that does not act on the fault leaves the work on it and any state past suspicion as they are. */
  lemma IdleStep(p: Policy, es: seq<Event>, i: nat)
    requires es != [] && !Effective(p, es, |es| - 1, i) && i < |Run([], p, es[..|es| - 1])|
    ensures var f, r := Run([], p, es[..|es| - 1])[i], Run([], p, es);
      && i < |r| && SameWork(f, r[i])
      && (f.state != Suspected ==> r[i].state == f.state)
      && (f.state == Suspected ==> r[i].state in {Suspected, Confirmed, Normal})
  {
    var t, e := Run([], p, es[..|es| - 1]), es[|es| - 1];
    RunOrderly(p, es[..|es| - 1]);
    if e.Observed? {
      ObservedKeeps(t, p, e, i);
    } else {
      PerformedIs(t, p, e.index, e.action, e.actor, e.ticks);
    }
  }

  lemma EffectiveAt(p: Policy, es: seq<Event>, j: nat, i: nat)
    requires j < |es| - 1
    ensures Effective(p, es[..|es| - 1], j, i) == Effective(p, es, j, i) && es[..|es| - 1][j] == es[j]
  {
    assert es[..|es| - 1][..j] == es[..j];
  }

  /** No action on fault `i` took effect from event `k` on. */
  predicate IdleFrom(p: Policy, es: seq<Event>, k: nat, i: nat)
  {
    forall j :: k <= j < |es| ==> !Effective(p, es, j, i)
  }

  lemma IdleBefore(p: Policy, es: seq<Event>, k: nat, i: nat)
    requires es != [] && IdleFrom(p, es, k, i)
    ensures IdleFrom(p, es[..|es| - 1], k, i)
  {
    var before := es[..|es| - 1];
    forall j | k <= j < |before|
      ensures !Effective(p, before, j, i)
    {
      EffectiveAt(p, es, j, i);
    }
  }

  lemma EffectiveStep(p: Policy, es: seq<Event>, i: nat)
    requires es != [] && Effective(p, es, |es| - 1, i)
    ensures var t, e, r := Run([], p, es[..|es| - 1]), es[|es| - 1], Run([], p, es);
      && i < |t| == |r| && ShowsWork(r[i], e.action)
      && r[i].acknowledgedTicks == (if e.action == Acknowledge then Some(e.ticks) else t[i].acknowledgedTicks)
      && r[i].actor == (if e.action == Acknowledge then Some(e.actor) else t[i].actor)
      && r[i].closedTicks == (if e.action == Verify(true) then Some(e.ticks) else t[i].closedTicks)
      && r[i].closedActor == (if e.action == Verify(true) then Some(e.actor) else t[i].closedActor)
  {
    var t, e := Run([], p, es[..|es| - 1]), es[|es| - 1];
    RunOrderly(p, es[..|es| - 1]);
    PerformedIs(t, p, e.index, e.action, e.actor, e.ticks);
  }

  /** The latest action that took effect decides the state of a fault and of its repair. */
  lemma {:induction false} LatestWorkDecides(p: Policy, es: seq<Event>, i: nat, k: nat)
    requires k < |es| && Effective(p, es, k, i) && IdleFrom(p, es, k + 1, i)
    ensures i < |Run([], p, es)| && ShowsWork(Run([], p, es)[i], es[k].action)
  {
    if k == |es| - 1 {
      EffectiveStep(p, es, i);
    } else {
      EffectiveAt(p, es, k, i);
      IdleBefore(p, es, k + 1, i);
      LatestWorkDecides(p, es[..|es| - 1], i, k);
      IdleStep(p, es, i);
    }
  }

  /** Without one the fault is suspected, confirmed or cleared, and nothing is stamped. */
  lemma {:induction false} NoWorkYet(p: Policy, es: seq<Event>, i: nat)
    requires i < |Run([], p, es)| && IdleFrom(p, es, 0, i)
    ensures Untouched(Run([], p, es)[i])
  {
    var before, e := es[..|es| - 1], es[|es| - 1];
    var t := Run([], p, before);
    RunOrderly(p, before);
    StepEvolves(t, p, e);
    if i < |t| {
      IdleBefore(p, es, 0, i);
      NoWorkYet(p, before, i);
      IdleStep(p, es, i);
    } else {
      RaisedUntouched(p, Run([], p, es)[i].key, e.diagnosis.evidence, e.ticks);
    }
  }

  /** The acknowledgement stamps the fault for good with its tick and actor. */
  lemma {:induction false} AcknowledgementStamps(p: Policy, es: seq<Event>, i: nat, k: nat)
    requires k < |es| && Effective(p, es, k, i) && es[k].action == Acknowledge
    ensures i < |Run([], p, es)|
    ensures var f := Run([], p, es)[i];
      && f.acknowledgedTicks == Some(es[k].ticks) && f.actor == Some(es[k].actor)
      && f.state in {Acknowledged, UnderRepair, Verifying, Closed}
  {
    var n := |es| - 1;
    if k < n {
      EffectiveAt(p, es, k, i);
      AcknowledgementStamps(p, es[..n], i, k);
    }
    if Effective(p, es, n, i) {
      EffectiveStep(p, es, i);
    } else {
      IdleStep(p, es, i);
    }
  }

  /** A successful verification closes the fault for good and stamps it. */
  lemma {:induction false} VerificationCloses(p: Policy, es: seq<Event>, i: nat, k: nat)
    requires k < |es| && Effective(p, es, k, i) && es[k].action == Verify(true)
    ensures i < |Run([], p, es)|
    ensures var f := Run([], p, es)[i];
      f.state == Closed && f.closedTicks == Some(es[k].ticks) && f.closedActor == Some(es[k].actor)
  {
    var n := |es| - 1;
    if k < n {
      EffectiveAt(p, es, k, i);
      VerificationCloses(p, es[..n], i, k);
      assert !Effective(p, es, n, i);
      IdleStep(p, es, i);
    } else {
      EffectiveStep(p, es, i);
    }
  }

  /** The last of the first `m` events that acted on the fault, if any. */
  lemma {:induction false} LatestWork(p: Policy, es: seq<Event>, i: nat, m: nat) returns (k: Option<nat>)
    requires m <= |es| && IdleFrom(p, es, m, i)
    ensures k.None? ==> IdleFrom(p, es, 0, i)
    ensures k.Some? ==> k.value < |es| && Effective(p, es, k.value, i) && IdleFrom(p, es, k.value + 1, i)
  {
    if m == 0 {
      k := None;
    } else if Effective(p, es, m - 1, i) {
      k := Some(m - 1);
    } else {
      k := LatestWork(p, es, i, m - 1);
    }
  }

  /** A fault is closed exactly if some event of the run was a successful verification that found it in VERIFYING. */
  lemma ClosedIff(p: Policy, es: seq<Event>, i: nat)
    requires i < |Run([], p, es)|
    ensures Run([], p, es)[i].state == Closed
       <==> exists k :: 0 <= k < |es| && Effective(p, es, k, i) && es[k].action == Verify(true)
  {
    if k :| 0 <= k < |es| && Effective(p, es, k, i) && es[k].action == Verify(true) {
      VerificationCloses(p, es, i, k);
    }
    var last := LatestWork(p, es, i, |es|);
    if last.Some? {
      LatestWorkDecides(p, es, i, last.value);
    } else {
      NoWorkYet(p, es, i);
    }
  }

  /** An abnormal observation raises a new record exactly if every earlier one of its key is closed or cleared. */
  lemma RecurrenceIff(t: Table, p: Policy, lamp: string, d: Diagnosis, ticks: int)
    requires d.Abnormal?
    ensures var t', k := Step(t, p, Observed(lamp, d, ticks)), KeyOf(lamp, d);
      |t'| == |t| + 1 <==> forall i :: 0 <= i < |t| && t[i].key == k ==> t[i].state in {Closed, Normal}
  {
    FindActiveFinds(t, KeyOf(lamp, d));
  }

  /** Of the records of one key, in any run, only the newest can be open. */
  lemma {:induction false} OnlyTheNewestIsOpen(p: Policy, es: seq<Event>, i: nat, j: nat)
    requires i < j < |Run([], p, es)| && Run([], p, es)[i].key == Run([], p, es)[j].key
    ensures Run([], p, es)[i].state in {Closed, Normal}
  {
    var before, e := es[..|es| - 1], es[|es| - 1];
    var t := Run([], p, before);
    RunWellFormed([], p, before);
    StepEvolves(t, p, e);
    assert Evolves(t[i], Run([], p, es)[i]);
    if j < |t| {
      assert Evolves(t[j], Run([], p, es)[j]);
      OnlyTheNewestIsOpen(p, before, i, j);
    }
  }
}
