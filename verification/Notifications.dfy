/**
 The notification machine of a fault, driven by confirmation, delivery attempts and elapsed time, independently
 of the fault lifecycle.
 */
module Notifications {
  import opened Wrappers

  datatype NotificationState = NotRequired | Pending | Sent | AckPending | ReminderDue | Escalated | DeliveryFailed

  /** Configuration validation makes the intervals positive and the retry count non-negative. */
  datatype Policy = Policy(ackRequired: bool, reminderInterval: int, escalationTimeout: int, retryCount: nat)

  datatype Kind = Notified | Failed | Reminder | Escalation

  function Transitions(s: NotificationState): set<NotificationState>
  {
    match s
    case NotRequired => {}
    case Pending => {Sent, DeliveryFailed}
    case Sent => {AckPending, DeliveryFailed}
    case AckPending => {ReminderDue, Escalated, DeliveryFailed}
    case ReminderDue => {AckPending, Escalated, DeliveryFailed}
    case Escalated => {AckPending, DeliveryFailed}
    case DeliveryFailed => {Pending, Escalated}
  }

  /** What the engine and the fault record hold about one fault. */
  datatype Note = Note(state: NotificationState, lastNotified: Option<int>, attempts: Option<nat>)

  const INITIAL := Note(Pending, None, None)

  datatype Op = Confirm(ticks: int) | Notify(ticks: int, delivered: bool) | ReportFailure(ticks: int) | Tick(ticks: int)

  datatype Outcome = Outcome(note: Note, emitted: Option<Kind>, raised: bool)

  function Attempts(n: Note): nat
  {
    if n.attempts.Some? then n.attempts.value else 0
  }

  function Confirmed(n: Note, p: Policy, ticks: int): Note
  {
    if p.ackRequired then Note(Pending, Some(ticks), Some(0)) else n.(state := NotRequired)
  }

  /** A failed delivery is retried at once while attempts last; where no notification is required it raises. */
  function FailDelivery(n: Note, p: Policy): Outcome
  {
    var n' := n.(attempts := Some(Attempts(n) + 1));
    if n.state == DeliveryFailed then Outcome(n', Some(Failed), false)
    else if DeliveryFailed !in Transitions(n.state) then Outcome(n', None, true)
    else Outcome(n'.(state := if Attempts(n') <= p.retryCount then Pending else DeliveryFailed), Some(Failed), false)
  }

  function Deliver(n: Note, p: Policy, ticks: int, delivered: bool): Outcome
  {
    if n.state == NotRequired then Outcome(n, None, false)
    else if !delivered then FailDelivery(n, p)
    else if n.state == Pending then Outcome(n.(state := AckPending, lastNotified := Some(ticks)), Some(Notified), false)
    else Outcome(n, None, false)
  }

  function Elapse(n: Note, p: Policy, ticks: int): Outcome
  {
    if n.lastNotified.None? || (n.state != AckPending && n.state != ReminderDue) then Outcome(n, None, false)
    else
      var elapsed := ticks - n.lastNotified.value;
      if elapsed >= p.escalationTimeout then Outcome(n.(state := Escalated), Some(Escalation), false)
      else if elapsed >= p.reminderInterval && n.state == AckPending
      then Outcome(n.(state := ReminderDue), Some(Reminder), false)
      else Outcome(n, None, false)
  }

  function Apply(n: Note, p: Policy, op: Op): Outcome
  {
    match op
    case Confirm(ticks) => Outcome(Confirmed(n, p, ticks), None, false)
    case Notify(ticks, delivered) => Deliver(n, p, ticks, delivered)
    case ReportFailure(_) => FailDelivery(n, p)
    case Tick(ticks) => Elapse(n, p, ticks)
  }

  function Tagged(id: nat, kind: Option<Kind>): seq<(nat, Kind)>
  {
    if kind.Some? then [(id, kind.value)] else []
  }

  // ---------- the engine ----------

  class NotificationEngine {
    const policy: Policy
    /** The notification state of each fault record; a record not mentioned here is pending, as created. */
    var states: map<nat, NotificationState>
    var lastNotified: map<nat, int>
    var deliveryAttempts: map<nat, nat>
    var emitted: seq<(nat, Kind)>

    constructor (policy: Policy)
      ensures this.policy == policy && emitted == []
      ensures forall id :: View(id) == INITIAL
    {
      this.policy := policy;
      states, lastNotified, deliveryAttempts, emitted := map[], map[], map[], [];
    }

    function StateOf(id: nat): NotificationState
      reads this
    {
      if id in states then states[id] else Pending
    }

    function View(id: nat): Note
      reads this
    {
      Note(StateOf(id),
           if id in lastNotified then Some(lastNotified[id]) else None,
           if id in deliveryAttempts then Some(deliveryAttempts[id]) else None)
    }

    /** One guarded transition: refused, changing nothing, when the table does not list the target. */
    method Transition(id: nat, target: NotificationState) returns (legal: bool)
      modifies `states
      ensures legal <==> target in Transitions(old(StateOf(id)))
      ensures states == if legal then old(states)[id := target] else old(states)
    {
      if target !in Transitions(StateOf(id)) {
        return false;
      }
      states := states[id := target];
      return true;
    }

    method OnFaultConfirmed(id: nat, ticks: int)
      modifies this
      ensures View(id) == Confirmed(old(View(id)), policy, ticks)
      ensures forall x: nat :: x != id ==> View(x) == old(View(x))
      ensures emitted == old(emitted)
    {
      if !policy.ackRequired {
        states := states[id := NotRequired];
        return;
      }
      states := states[id := Pending];
      lastNotified := lastNotified[id := ticks];
      deliveryAttempts := deliveryAttempts[id := 0];
    }

    method NotifyFault(id: nat, ticks: int, delivered: bool) returns (raised: bool)
      modifies this
      ensures var o := Deliver(old(View(id)), policy, ticks, delivered);
        View(id) == o.note && raised == o.raised && emitted == old(emitted) + Tagged(id, o.emitted)
      ensures forall x: nat :: x != id ==> View(x) == old(View(x))
    {
      if StateOf(id) == NotRequired {
        return false;
      }
      if !delivered {
        raised := DeliveryFailure(id);
        return;
      }
      if StateOf(id) == Pending {
        var legal := Transition(id, Sent);
        legal := Transition(id, AckPending);
        lastNotified := lastNotified[id := ticks];
        emitted := emitted + [(id, Notified)];
      }
      return false;
    }

    method DeliveryFailure(id: nat) returns (raised: bool)
      modifies this
      ensures var o := FailDelivery(old(View(id)), policy);
        View(id) == o.note && raised == o.raised && emitted == old(emitted) + Tagged(id, o.emitted)
      ensures forall x: nat :: x != id ==> View(x) == old(View(x))
    {
      var attempts := (if id in deliveryAttempts then deliveryAttempts[id] else 0) + 1;
      deliveryAttempts := deliveryAttempts[id := attempts];
      if StateOf(id) == DeliveryFailed {
        emitted := emitted + [(id, Failed)];
        return false;
      }
      var legal := Transition(id, DeliveryFailed);
      if !legal {
        return true;
      }
      emitted := emitted + [(id, Failed)];
      if attempts <= policy.retryCount {
        legal := Transition(id, Pending);
        return !legal;
      }
      return false;
    }

    method Advance(id: nat, ticks: int) returns (raised: bool)
      modifies this
      ensures var o := Elapse(old(View(id)), policy, ticks);
        View(id) == o.note && raised == o.raised && emitted == old(emitted) + Tagged(id, o.emitted)
      ensures forall x: nat :: x != id ==> View(x) == old(View(x))
    {
      if StateOf(id) == NotRequired || id !in lastNotified {
        return false;
      }
      var elapsed := ticks - lastNotified[id];
      if StateOf(id) == AckPending || StateOf(id) == ReminderDue {
        if elapsed >= policy.escalationTimeout {
          var legal := Transition(id, Escalated);
          emitted := emitted + [(id, Escalation)];
          return !legal;
        }
        if elapsed >= policy.reminderInterval {
          if StateOf(id) == ReminderDue {
            return false;
          }
          var legal := Transition(id, ReminderDue);
          emitted := emitted + [(id, Reminder)];
          return !legal;
        }
      }
      return false;
    }
  }

  // ---------- runs ----------

  function Run(p: Policy, ops: seq<Op>): Note
  {
    if ops == [] then INITIAL else Apply(Run(p, ops[..|ops| - 1]), p, ops[|ops| - 1]).note
  }

  /** What the last operation of a non-empty run did. */
  function LastOutcome(p: Policy, ops: seq<Op>): Outcome
    requires ops != []
  {
    Apply(Run(p, ops[..|ops| - 1]), p, ops[|ops| - 1])
  }

  /** How often a run emitted a kind of event. */
  function CountOf(p: Policy, ops: seq<Op>, kind: Kind): nat
  {
    if ops == [] then 0
    else CountOf(p, ops[..|ops| - 1], kind) + if LastOutcome(p, ops).emitted == Some(kind) then 1 else 0
  }

  /** The tick of the latest confirmation or successful send of a run. */
  function LastNotice(p: Policy, ops: seq<Op>): Option<int>
  {
    if ops == [] then None
    else
      var last := ops[|ops| - 1];
      if last.Confirm? || LastOutcome(p, ops).emitted == Some(Notified) then Some(last.ticks)
      else LastNotice(p, ops[..|ops| - 1])
  }

  /** How many delivery attempts failed since the latest confirmation. */
  function FailuresSince(p: Policy, ops: seq<Op>): nat
  {
    if ops == [] || ops[|ops| - 1].Confirm? then 0
    else FailuresSince(p, ops[..|ops| - 1]) + if LastOutcome(p, ops).emitted == Some(Failed) then 1 else 0
  }

  /** How many of them were followed by a retry. */
  function RetriesSince(p: Policy, ops: seq<Op>): nat
  {
    if ops == [] || ops[|ops| - 1].Confirm? then 0
    else
      var o := LastOutcome(p, ops);
      RetriesSince(p, ops[..|ops| - 1]) + if o.emitted == Some(Failed) && o.note.state == Pending then 1 else 0
  }

  function Min(a: nat, b: nat): nat
  {
    if a < b then a else b
  }

  /** The notification is required, or the run never confirmed the fault and so never found out that it is not. */
  predicate Live(p: Policy, ops: seq<Op>)
  {
    p.ackRequired || forall i :: 0 <= i < |ops| ==> !ops[i].Confirm?
  }

  lemma LiveBefore(p: Policy, ops: seq<Op>)
    requires Live(p, ops) && ops != []
    ensures Live(p, ops[..|ops| - 1]) && (ops[|ops| - 1].Confirm? ==> p.ackRequired)
  {
  }

  /** Where a notification rests, given the latest notice and the failures since the latest confirmation. */
  predicate RestsAs(n: Note, p: Policy, notice: Option<int>, failures: nat)
  {
    && n.state in {Pending, AckPending, ReminderDue, Escalated, DeliveryFailed}
    && n.lastNotified == notice
    && Attempts(n) == failures
    && (n.state == DeliveryFailed <==> failures > p.retryCount)
  }

  lemma StepRests(n: Note, p: Policy, op: Op, notice: Option<int>, failures: nat)
    requires RestsAs(n, p, notice, failures) && (op.Confirm? ==> p.ackRequired)
    ensures var o := Apply(n, p, op);
      RestsAs(o.note, p,
              if op.Confirm? || o.emitted == Some(Notified) then Some(op.ticks) else notice,
              if op.Confirm? then 0 else failures + if o.emitted == Some(Failed) then 1 else 0)
  {
    match op
    case Confirm(_) =>
    case Notify(_, _) =>
    case ReportFailure(_) =>
    case Tick(_) =>
  }

  lemma {:induction false} RunRests(p: Policy, ops: seq<Op>)
    requires Live(p, ops)
    ensures RestsAs(Run(p, ops), p, LastNotice(p, ops), FailuresSince(p, ops))
  {
    if ops != [] {
      var before, last := ops[..|ops| - 1], ops[|ops| - 1];
      LiveBefore(p, ops);
      RunRests(p, before);
      StepRests(Run(p, before), p, last, LastNotice(p, before), FailuresSince(p, before));
      assert LastOutcome(p, ops) == Apply(Run(p, before), p, last);
    }
  }

  /**
   Where a required notification rests.  It has failed for good exactly when more attempts failed since the latest
   confirmation than retries are allowed.
   */
  lemma Resting(p: Policy, ops: seq<Op>)
    requires Live(p, ops)
    ensures var n := Run(p, ops);
      && n.state in {Pending, AckPending, ReminderDue, Escalated, DeliveryFailed}
      && n.lastNotified == LastNotice(p, ops)
      && Attempts(n) == FailuresSince(p, ops)
      && (n.state == DeliveryFailed <==> FailuresSince(p, ops) > p.retryCount)
  {
    RunRests(p, ops);
  }

  /** The latest event emitted since the latest confirmation. */
  function LastMark(p: Policy, ops: seq<Op>): Option<Kind>
  {
    if ops == [] || ops[|ops| - 1].Confirm? then None
    else if LastOutcome(p, ops).emitted.Some? then LastOutcome(p, ops).emitted
    else LastMark(p, ops[..|ops| - 1])
  }

  /** The state a latest event stands for. */
  function StateOfMark(p: Policy, mark: Option<Kind>, failures: nat): NotificationState
  {
    match mark
    case None => Pending
    case Some(Notified) => AckPending
    case Some(Reminder) => ReminderDue
    case Some(Escalation) => Escalated
    case Some(Failed) => if failures <= p.retryCount then Pending else DeliveryFailed
  }

  lemma StepMark(n: Note, p: Policy, op: Op, mark: Option<Kind>, failures: nat)
    requires Attempts(n) == failures && n.state == StateOfMark(p, mark, failures)
    requires op.Confirm? ==> p.ackRequired
    ensures var o := Apply(n, p, op);
      o.note.state == StateOfMark(p, if op.Confirm? then None else if o.emitted.Some? then o.emitted else mark,
                                  if op.Confirm? then 0 else failures + if o.emitted == Some(Failed) then 1 else 0)
  {
    match op
    case Confirm(_) =>
    case Notify(_, _) =>
    case ReportFailure(_) =>
    case Tick(_) =>
  }

  lemma {:induction false} RunMark(p: Policy, ops: seq<Op>)
    requires Live(p, ops)
    ensures Run(p, ops).state == StateOfMark(p, LastMark(p, ops), FailuresSince(p, ops))
  {
    if ops != [] {
      var before, last := ops[..|ops| - 1], ops[|ops| - 1];
      LiveBefore(p, ops);
      RunMark(p, before);
      RunRests(p, before);
      StepMark(Run(p, before), p, last, LastMark(p, before), FailuresSince(p, before));
      assert LastOutcome(p, ops) == Apply(Run(p, before), p, last);
    }
  }

  /** The state is that of the latest event. */
  lemma StateFromMark(p: Policy, ops: seq<Op>)
    requires Live(p, ops)
    ensures Run(p, ops).state ==
      match LastMark(p, ops)
      case None => Pending
      case Some(Notified) => AckPending
      case Some(Reminder) => ReminderDue
      case Some(Escalation) => Escalated
      case Some(Failed) => if FailuresSince(p, ops) <= p.retryCount then Pending else DeliveryFailed
  {
    RunMark(p, ops);
  }

  /** A notification can be sent when nothing was yet since the confirmation, or a retry is still allowed. */
  predicate MaySend(p: Policy, ops: seq<Op>)
  {
    || LastMark(p, ops) == None
    || (LastMark(p, ops) == Some(Failed) && FailuresSince(p, ops) <= p.retryCount)
  }

  predicate Waiting(p: Policy, ops: seq<Op>)
  {
    LastMark(p, ops) == Some(Notified) || LastMark(p, ops) == Some(Reminder)
  }

  lemma {:induction false} WaitingIsNoticed(p: Policy, ops: seq<Op>)
    requires Live(p, ops) && Waiting(p, ops)
    ensures LastNotice(p, ops).Some?
  {
    if LastMark(p, ops[..|ops| - 1]) == LastMark(p, ops) && LastOutcome(p, ops).emitted.None? {
      LiveBefore(p, ops);
      WaitingIsNoticed(p, ops[..|ops| - 1]);
    } else if LastOutcome(p, ops).emitted == Some(Reminder) {
      LiveBefore(p, ops);
      Resting(p, ops[..|ops| - 1]);
    }
  }

  /**
   Exactly what each call emits, over every history: a send when one is possible, every failure, an escalation as soon
   as its timeout has passed since the latest notice, and before that one reminder from its interval on.
   */
  lemma {:induction false} EmitsExactly(p: Policy, ops: seq<Op>, op: Op)
    requires Live(p, ops)
    ensures Waiting(p, ops) ==> LastNotice(p, ops).Some?
    ensures Apply(Run(p, ops), p, op).emitted ==
      match op
      case Confirm(_) => None
      case Notify(_, true) => if MaySend(p, ops) then Some(Notified) else None
      case Notify(_, false) => Some(Failed)
      case ReportFailure(_) => Some(Failed)
      case Tick(ticks) =>
        if !Waiting(p, ops) then None
        else
          var gone := ticks - LastNotice(p, ops).value;
          if gone >= p.escalationTimeout then Some(Escalation)
          else if gone >= p.reminderInterval && LastMark(p, ops) == Some(Notified) then Some(Reminder)
          else None
  {
    Resting(p, ops);
    StateFromMark(p, ops);
    if Waiting(p, ops) {
      WaitingIsNoticed(p, ops);
    }
  }

  /** Once confirmed where no acknowledgement is required, nothing is ever emitted again. */
  lemma {:induction false} UnrequiredIsSilent(p: Policy, ops: seq<Op>, ticks: int, more: seq<Op>, op: Op)
    requires !p.ackRequired
    ensures Run(p, ops + [Confirm(ticks)] + more).state == NotRequired
    ensures Apply(Run(p, ops + [Confirm(ticks)] + more), p, op).emitted == None
  {
    var start := ops + [Confirm(ticks)];
    if more == [] {
      assert start + more == start && start[..|ops|] == ops;
    } else {
      var n := |more| - 1;
      UnrequiredIsSilent(p, ops, ticks, more[..n], op);
      assert (start + more)[..|start + more| - 1] == start + more[..n];
    }
  }

  /** A failure is retried exactly while the allowance lasts. */
  lemma StepRetries(n: Note, p: Policy, op: Op, failures: nat)
    requires Attempts(n) == failures && !op.Confirm?
    requires n.state in {Pending, AckPending, ReminderDue, Escalated, DeliveryFailed}
    requires n.state == DeliveryFailed <==> failures > p.retryCount
    ensures var o := Apply(n, p, op);
      o.emitted == Some(Failed) ==> (o.note.state == Pending <==> failures < p.retryCount)
  {
  }

  /** Every failure since the latest confirmation is retried until the allowance is used up, and no more. */
  lemma {:induction false} RetriesAreBounded(p: Policy, ops: seq<Op>)
    requires p.ackRequired
    ensures RetriesSince(p, ops) == Min(FailuresSince(p, ops), p.retryCount)
  {
    if ops != [] && !ops[|ops| - 1].Confirm? {
      var before, last := ops[..|ops| - 1], ops[|ops| - 1];
      RetriesAreBounded(p, before);
      Resting(p, before);
      StepRetries(Run(p, before), p, last, FailuresSince(p, before));
      assert LastOutcome(p, ops) == Apply(Run(p, before), p, last);
    }
  }

  /** No illegal transition is ever attempted on a required notification. */
  lemma {:induction false} NeverRaises(p: Policy, ops: seq<Op>, op: Op)
    requires p.ackRequired
    ensures !Apply(Run(p, ops), p, op).raised
  {
    Resting(p, ops);
  }

  lemma {:induction false} OnlyWhenUnrequired(p: Policy, ops: seq<Op>)
    ensures Run(p, ops).state != Sent
    ensures Run(p, ops).state == NotRequired ==> !p.ackRequired
  {
    if ops != [] {
      OnlyWhenUnrequired(p, ops[..|ops| - 1]);
    }
  }

  /** Under any policy a call raises exactly when it reports a failed delivery of a notification not required. */
  lemma {:induction false} RaisesExactly(p: Policy, ops: seq<Op>, op: Op)
    ensures Apply(Run(p, ops), p, op).raised <==> op.ReportFailure? && Run(p, ops).state == NotRequired
  {
    OnlyWhenUnrequired(p, ops);
  }

  /** Reminders and escalations each number at most one per successful send, counting the one still open. */
  lemma {:induction false} AtMostOnePerSend(p: Policy, ops: seq<Op>)
    requires p.ackRequired
    ensures var n := Run(p, ops);
      && CountOf(p, ops, Reminder) + (if n.state == AckPending then 1 else 0) <= CountOf(p, ops, Notified)
      && CountOf(p, ops, Escalation) + (if n.state in {AckPending, ReminderDue} then 1 else 0)
         <= CountOf(p, ops, Notified)
  {
    if ops != [] {
      AtMostOnePerSend(p, ops[..|ops| - 1]);
    }
  }

  /** Neither fires before its interval has passed since the latest notice in the history. */
  lemma {:induction false} NotTooEarly(p: Policy, ops: seq<Op>, ticks: int)
    requires p.ackRequired
    ensures var o := Apply(Run(p, ops), p, Tick(ticks));
      && (o.emitted == Some(Reminder) ==>
            LastNotice(p, ops).Some? && p.reminderInterval <= ticks - LastNotice(p, ops).value < p.escalationTimeout)
      && (o.emitted == Some(Escalation) ==>
            LastNotice(p, ops).Some? && ticks - LastNotice(p, ops).value >= p.escalationTimeout)
  {
    Resting(p, ops);
  }

  /** After the retries are used up nothing but a new confirmation moves the notification. */
  lemma {:induction false} FailureIsAbsorbing(p: Policy, ops: seq<Op>, more: seq<Op>)
    requires p.ackRequired && Run(p, ops).state == DeliveryFailed
    requires forall i :: 0 <= i < |more| ==> !more[i].Confirm?
    ensures Run(p, ops + more).state == DeliveryFailed
    ensures CountOf(p, ops + more, Notified) == CountOf(p, ops, Notified)
  {
    if more == [] {
      assert ops + more == ops;
    } else {
      FailureIsAbsorbing(p, ops, more[..|more| - 1]);
      assert (ops + more)[..|ops + more| - 1] == ops + more[..|more| - 1];
    }
  }

  /**
   A lamp node confirms and notifies again on every abnormal observation of a still-confirmed fault, and then lets
   time elapse at the same tick: the clock restarts, and that step emits neither reminder nor escalation.
   */
  lemma ReobservationRestartsTheClock(p: Policy, n: Note, ticks: int)
    requires p.ackRequired && p.reminderInterval > 0 && p.escalationTimeout > p.reminderInterval
    ensures var n1 := Apply(n, p, Confirm(ticks)).note;
      var n2 := Apply(n1, p, Notify(ticks, true)).note;
      n2 == Note(AckPending, Some(ticks), Some(0)) && Apply(n2, p, Tick(ticks)) == Outcome(n2, None, false)
  {
  }
}
