/**
 The fault engine.  Faults are numbered in creation order and never removed, so the table is a sequence and
 fault F-0001 is entry 0.  The table alone determines every answer; the engine also keeps an index from keys to
 active faults, and its methods are proved against the table.
 */
module Faults {
  import opened Wrappers

  datatype FaultState = Normal | Suspected | Confirmed | Acknowledged | UnderRepair | Verifying | Closed

  datatype RepairStatus = NotStarted | InProgress | Repaired | NotRepaired

  datatype VerificationStatus = NotVerified | BeingVerified | Verified | VerificationFailed

  datatype Key = Key(lamp: string, category: string, classification: string)

  datatype Fault = Fault(
    key: Key,
    created: int,
    state: FaultState,
    count: int,
    first: int,
    last: int,
    evidence: string,
    confirmedTicks: Option<int>,
    acknowledgedTicks: Option<int>,
    closedTicks: Option<int>,
    actor: Option<string>,
    closedActor: Option<string>,
    repair: RepairStatus,
    verification: VerificationStatus)

  /** The confirmation policy; configuration validation makes the count at least one and the window positive. */
  datatype Policy = Policy(count: int, window: int)

  datatype Diagnosis = NormalReading | Abnormal(category: Option<string>, classification: string, evidence: string)

  datatype FaultError = IllegalTransition | UnknownFault

  type Table = seq<Fault>

  function Transitions(s: FaultState): set<FaultState>
  {
    match s
    case Normal => {Suspected}
    case Suspected => {Confirmed, Normal}
    case Confirmed => {Acknowledged}
    case Acknowledged => {UnderRepair}
    case UnderRepair => {Verifying}
    case Verifying => {Closed, UnderRepair}
    case Closed => {Suspected}
  }

  predicate Active(f: Fault)
  {
    f.state != Closed && f.state != Normal
  }

  function KeyOf(lamp: string, d: Diagnosis): Key
    requires d.Abnormal?
  {
    Key(lamp, if d.category.Some? then d.category.value else "UNKNOWN", d.classification)
  }

  // ---------- the table ----------

  /** The active fault with a key, by scanning the table; -1 if there is none. */
  function FindActive(t: Table, k: Key): int
  {
    if t == [] then -1
    else
      var n := |t| - 1;
      if Active(t[n]) && t[n].key == k then n else FindActive(t[..n], k)
  }

  function Confirm(f: Fault, ticks: int): Fault
  {
    f.(state := Confirmed, confirmedTicks := Some(ticks))
  }

  function Raised(p: Policy, k: Key, evidence: string, ticks: int): Fault
  {
    var f := Fault(k, ticks, Suspected, 1, ticks, ticks, evidence, None, None, None, None, None,
                   NotStarted, NotVerified);
    if f.count >= p.count then Confirm(f, ticks) else f
  }

  /** The window is anchored at the first observation; one past its end starts a new window. */
  function Reobserved(p: Policy, f: Fault, evidence: string, ticks: int): Fault
  {
    var f1 := f.(last := ticks, evidence := evidence);
    var f2 := if ticks - f.first > p.window then f1.(count := 1, first := ticks) else f1.(count := f.count + 1);
    if f2.state == Suspected && f2.count >= p.count then Confirm(f2, ticks) else f2
  }

  function ObserveAbnormal(t: Table, p: Policy, k: Key, evidence: string, ticks: int): Table
  {
    var i := FindActive(t, k);
    if 0 <= i < |t| then t[i := Reobserved(p, t[i], evidence, ticks)] else t + [Raised(p, k, evidence, ticks)]
  }

  /** A normal reading clears an unconfirmed suspicion and leaves every later state latched. */
  function Cleared(f: Fault, lamp: string): Fault
  {
    if f.key.lamp == lamp && f.state == Suspected then f.(state := Normal) else f
  }

  function ObserveNormal(t: Table, lamp: string): Table
  {
    seq(|t|, i requires 0 <= i < |t| => Cleared(t[i], lamp))
  }

  /** The table when the first `n` entries have been looked at. */
  function Swept(t: Table, lamp: string, n: nat): Table
  {
    seq(|t|, i requires 0 <= i < |t| => if i < n then Cleared(t[i], lamp) else t[i])
  }

  predicate SuspectedFor(f: Fault, lamp: string)
  {
    f.key.lamp == lamp && f.state == Suspected
  }

  /** The last suspicion of the lamp in the table, the one a normal reading reports as cleared. */
  function LastSuspicion(t: Table, lamp: string): Option<nat>
  {
    if t == [] then None
    else if SuspectedFor(t[|t| - 1], lamp) then Some(|t| - 1)
    else LastSuspicion(t[..|t| - 1], lamp)
  }

  lemma {:induction false} LastSuspicionIsLast(t: Table, lamp: string)
    ensures var c := LastSuspicion(t, lamp);
      if c.Some?
      then c.value < |t| && SuspectedFor(t[c.value], lamp)
           && forall i :: c.value < i < |t| ==> !SuspectedFor(t[i], lamp)
      else forall i :: 0 <= i < |t| ==> !SuspectedFor(t[i], lamp)
  {
    if t != [] {
      LastSuspicionIsLast(t[..|t| - 1], lamp);
    }
  }

  /** One more entry looked at. */
  lemma SweptNext(t: Table, lamp: string, n: nat)
    requires n < |t|
    ensures Swept(t, lamp, n)[n] == t[n]
    ensures Swept(t, lamp, n + 1) == Swept(t, lamp, n)[n := Cleared(t[n], lamp)]
    ensures LastSuspicion(t[..n + 1], lamp)
         == if SuspectedFor(t[n], lamp) then Some(n) else LastSuspicion(t[..n], lamp)
  {
    assert t[..n + 1][..n] == t[..n];
  }

  function Observe(t: Table, p: Policy, lamp: string, d: Diagnosis, ticks: int): Table
  {
    if d.NormalReading? then ObserveNormal(t, lamp) else ObserveAbnormal(t, p, KeyOf(lamp, d), d.evidence, ticks)
  }

  datatype Action = Acknowledge | StartRepair | ReportRepaired | Verify(verified: bool)

  /** The state the workflow action needs. */
  function Needs(a: Action): FaultState
  {
    match a
    case Acknowledge => Confirmed
    case StartRepair => Acknowledged
    case ReportRepaired => UnderRepair
    case Verify(_) => Verifying
  }

  function Worked(f: Fault, a: Action, actor: string, ticks: int): Fault
  {
    match a
    case Acknowledge => f.(state := Acknowledged, acknowledgedTicks := Some(ticks), actor := Some(actor))
    case StartRepair => f.(state := UnderRepair, repair := InProgress)
    case ReportRepaired => f.(state := Verifying, repair := Repaired, verification := BeingVerified)
    case Verify(true) =>
      f.(state := Closed, verification := Verified, closedTicks := Some(ticks), closedActor := Some(actor))
    case Verify(false) => f.(state := UnderRepair, verification := VerificationFailed, repair := NotRepaired)
  }

  /** A workflow action on fault `i`; an unknown fault or a wrong state raises and changes nothing. */
  function Work(t: Table, i: int, a: Action, actor: string, ticks: int): Result<Table, FaultError>
  {
    if !(0 <= i < |t|) then Err(UnknownFault)
    else if t[i].state != Needs(a) then Err(IllegalTransition)
    else Ok(t[i := Worked(t[i], a, actor, ticks)])
  }

  /** A fault has been observed, and carries a confirmation tick exactly when it got past suspicion. */
  predicate Plausible(f: Fault)
  {
    f.count >= 1 && (f.confirmedTicks.Some? <==> f.state != Suspected && f.state != Normal)
  }

  /** At most one active fault per key, and every fault plausible. */
  predicate WellFormed(t: Table)
  {
    && (forall i :: 0 <= i < |t| ==> Plausible(t[i]))
    && (forall i, j :: 0 <= i < j < |t| && Active(t[i]) && Active(t[j]) ==> t[i].key != t[j].key)
  }

  lemma {:induction false} FindActiveFinds(t: Table, k: Key)
    ensures var i := FindActive(t, k);
      if 0 <= i then i < |t| && Active(t[i]) && t[i].key == k
      else i == -1 && forall j :: 0 <= j < |t| && Active(t[j]) ==> t[j].key != k
  {
    if t != [] {
      FindActiveFinds(t[..|t| - 1], k);
    }
  }

  // ---------- the engine ----------

  type Index = map<Key, nat>

  /** A key maps to a fault exactly when that fault is active with that key. */
  predicate Agrees(index: Index, t: Table)
  {
    && (forall k :: k in index ==> index[k] < |t| && Active(t[index[k]]) && t[index[k]].key == k)
    && (forall i :: 0 <= i < |t| && Active(t[i]) ==> t[i].key in index && index[t[i].key] == i)
  }

  /** The scan and the index give the same answer. */
  lemma IndexIsScan(index: Index, t: Table, k: Key)
    requires Agrees(index, t)
    ensures FindActive(t, k) == if k in index then index[k] else -1
  {
    FindActiveFinds(t, k);
  }

  lemma AppendAgrees(index: Index, t: Table, f: Fault)
    requires Agrees(index, t) && WellFormed(t) && Active(f) && Plausible(f) && f.key !in index
    ensures Agrees(index[f.key := |t|], t + [f]) && WellFormed(t + [f])
  {
  }

  lemma UpdateAgrees(index: Index, t: Table, i: nat, f: Fault)
    requires Agrees(index, t) && WellFormed(t) && i < |t| && Active(t[i]) && Plausible(f) && f.key == t[i].key
    ensures var t' := t[i := f];
      Agrees(if Active(f) then index else index - {f.key}, t') && WellFormed(t')
  {
  }

  class FaultEngine {
    var policy: Policy
    var faults: Table
    var activeByKey: Index
    var sequence: nat

    ghost predicate Valid()
      reads this
    {
      sequence == |faults| && WellFormed(faults) && Agrees(activeByKey, faults)
    }

    constructor (policy: Policy)
      ensures Valid() && faults == [] && this.policy == policy
    {
      this.policy := policy;
      faults, activeByKey, sequence := [], map[], 0;
    }

    /** A configuration write replaces the policy and leaves the faults alone. */
    method SetPolicy(policy: Policy)
      requires Valid()
      modifies `policy
      ensures Valid() && this.policy == policy
    {
      this.policy := policy;
    }

    method ClearOne(i: nat)
      requires Valid() && i < |faults| && faults[i].state == Suspected
      modifies `faults, `activeByKey
      ensures Valid() && faults == old(faults)[i := old(faults)[i].(state := Normal)]
    {
      var key := faults[i].key;
      UpdateAgrees(activeByKey, faults, i, faults[i].(state := Normal));
      faults := faults[i := faults[i].(state := Normal)];
      activeByKey := activeByKey - {key};
    }

    method ObserveResult(lamp: string, d: Diagnosis, ticks: int) returns (touched: Option<nat>)
      requires Valid()
      modifies `faults, `activeByKey, `sequence
      ensures Valid()
      ensures faults == Observe(old(faults), policy, lamp, d, ticks)
      ensures d.Abnormal? ==> touched.Some? && touched.value == FindActive(faults, KeyOf(lamp, d))
      ensures d.NormalReading? ==> touched == LastSuspicion(old(faults), lamp)
    {
      if d.NormalReading? {
        touched := ClearSuspicions(lamp);
        return;
      }
      var key := KeyOf(lamp, d);
      IndexIsScan(activeByKey, faults, key);
      if key !in activeByKey {
        sequence := sequence + 1;
        var fault := Raised(policy, key, d.evidence, ticks);
        AppendAgrees(activeByKey, faults, fault);
        faults := faults + [fault];
        activeByKey := activeByKey[key := sequence - 1];
        IndexIsScan(activeByKey, faults, key);
        return Some(sequence - 1);
      }
      var id := activeByKey[key];
      UpdateAgrees(activeByKey, faults, id, Reobserved(policy, faults[id], d.evidence, ticks));
      faults := faults[id := Reobserved(policy, faults[id], d.evidence, ticks)];
      IndexIsScan(activeByKey, faults, key);
      return Some(id);
    }

    method ClearSuspicions(lamp: string) returns (cleared: Option<nat>)
      requires Valid()
      modifies `faults, `activeByKey
      ensures Valid()
      ensures faults == ObserveNormal(old(faults), lamp)
      ensures cleared == LastSuspicion(old(faults), lamp)
    {
      cleared := None;
      assert faults == Swept(faults, lamp, 0);
      for i := 0 to |faults|
        invariant Valid() && faults == Swept(old(faults), lamp, i)
        invariant cleared == LastSuspicion(old(faults)[..i], lamp)
      {
        SweptNext(old(faults), lamp, i);
        if faults[i].key.lamp == lamp && Active(faults[i]) && faults[i].state == Suspected {
          ClearOne(i);
          cleared := Some(i);
        }
      }
      assert faults == ObserveNormal(old(faults), lamp);
      assert old(faults)[..|faults|] == old(faults);
    }

    method Perform(i: int, a: Action, actor: string, ticks: int) returns (r: Result<(), FaultError>)
      requires Valid()
      modifies `faults, `activeByKey
      ensures Valid()
      ensures var outcome := Work(old(faults), i, a, actor, ticks);
        match outcome
        case Ok(t) => r == Ok(()) && faults == t
        case Err(e) => r == Err(e) && faults == old(faults)
    {
      if !(0 <= i < |faults|) {
        return Err(UnknownFault);
      }
      if faults[i].state != Needs(a) {
        return Err(IllegalTransition);
      }
      var key := faults[i].key;
      UpdateAgrees(activeByKey, faults, i, Worked(faults[i], a, actor, ticks));
      faults := faults[i := Worked(faults[i], a, actor, ticks)];
      if a == Verify(true) {
        activeByKey := activeByKey - {key};
      }
      return Ok(());
    }
  }

  // ---------- one step ----------

  datatype Event =
    | Observed(lamp: string, diagnosis: Diagnosis, ticks: int)
    | Performed(index: int, action: Action, actor: string, ticks: int)

  function Step(t: Table, p: Policy, e: Event): Table
  {
    match e
    case Observed(lamp, d, ticks) => Observe(t, p, lamp, d, ticks)
    case Performed(i, a, actor, ticks) =>
      match Work(t, i, a, actor, ticks)
      case Ok(t') => t'
      case Err(_) => t
  }

  predicate Terminal(s: FaultState)
  {
    s == Normal || s == Closed
  }

  /** How one existing record may change: along the lifecycle, keeping its identity; terminal ones are frozen. */
  predicate Evolves(f: Fault, g: Fault)
  {
    && g.key == f.key && g.created == f.created
    && (g.state == f.state || g.state in Transitions(f.state))
    && (Terminal(f.state) ==> g == f)
    && (f.confirmedTicks.Some? ==> g.confirmedTicks == f.confirmedTicks)
  }

  lemma ReobservedEvolves(p: Policy, f: Fault, evidence: string, ticks: int)
    requires Active(f) && Plausible(f)
    ensures var g := Reobserved(p, f, evidence, ticks);
      Evolves(f, g) && Active(g) && Plausible(g)
  {
  }

  lemma WorkedEvolves(f: Fault, a: Action, actor: string, ticks: int)
    requires Plausible(f) && f.state == Needs(a)
    ensures var g := Worked(f, a, actor, ticks);
      Evolves(f, g) && Plausible(g)
  {
  }

  lemma ReplaceEvolves(t: Table, i: nat, g: Fault)
    requires WellFormed(t) && i < |t| && Active(t[i]) && Evolves(t[i], g) && Plausible(g)
    ensures WellFormed(t[i := g]) && forall j :: 0 <= j < |t| ==> Evolves(t[j], t[i := g][j])
  {
  }

  lemma StepEvolves(t: Table, p: Policy, e: Event)
    requires WellFormed(t)
    ensures var t' := Step(t, p, e);
      && WellFormed(t') && |t| <= |t'| <= |t| + 1
      && (forall i :: 0 <= i < |t| ==> Evolves(t[i], t'[i]))
      && (|t'| > |t| ==> e.Observed? && e.diagnosis.Abnormal?
                         && t'[|t|] == Raised(p, KeyOf(e.lamp, e.diagnosis), e.diagnosis.evidence, e.ticks)
                         && forall i :: 0 <= i < |t| && Active(t[i]) ==> t[i].key != t'[|t|].key)
  {
    if e.Performed? {
      if Work(t, e.index, e.action, e.actor, e.ticks).Ok? {
        WorkedEvolves(t[e.index], e.action, e.actor, e.ticks);
        ReplaceEvolves(t, e.index, Worked(t[e.index], e.action, e.actor, e.ticks));
      }
    } else if e.diagnosis.Abnormal? {
      var k := KeyOf(e.lamp, e.diagnosis);
      FindActiveFinds(t, k);
      var i := FindActive(t, k);
      if i >= 0 {
        ReobservedEvolves(p, t[i], e.diagnosis.evidence, e.ticks);
        ReplaceEvolves(t, i, Reobserved(p, t[i], e.diagnosis.evidence, e.ticks));
      }
    }
  }

  function Run(t: Table, p: Policy, es: seq<Event>): Table
  {
    if es == [] then t else Step(Run(t, p, es[..|es| - 1]), p, es[|es| - 1])
  }

  lemma {:induction false} RunWellFormed(t: Table, p: Policy, es: seq<Event>)
    requires WellFormed(t)
    ensures WellFormed(Run(t, p, es)) && |Run(t, p, es)| >= |t|
  {
    if es != [] {
      RunWellFormed(t, p, es[..|es| - 1]);
      StepEvolves(Run(t, p, es[..|es| - 1]), p, es[|es| - 1]);
    }
  }

  /** A fault that reached NORMAL or CLOSED stays exactly as it is; recurrence makes a new record. */
  lemma {:induction false} TerminalForever(t: Table, p: Policy, es: seq<Event>, i: nat)
    requires WellFormed(t) && i < |t| && Terminal(t[i].state)
    ensures |Run(t, p, es)| >= |t| && Run(t, p, es)[i] == t[i]
  {
    if es != [] {
      TerminalForever(t, p, es[..|es| - 1], i);
      RunWellFormed(t, p, es[..|es| - 1]);
      StepEvolves(Run(t, p, es[..|es| - 1]), p, es[|es| - 1]);
    }
  }
}
