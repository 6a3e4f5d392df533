/**
 Lamps do not disturb one another: what the engine records for one lamp is a function of that lamp's own
 observations and repair work, however they are interleaved with those of other lamps.  Only the numbering of faults
 differs, so an action on a fault is followed under the fault's rank among its lamp's own.
 */
module FaultIsolation {
  import opened Wrappers
  import opened Faults

  /** The records of one lamp, in creation order, without their numbers. */
  function View(t: Table, lamp: string): Table
  {
    if t == [] then []
    else
      var n := |t| - 1;
      View(t[..n], lamp) + if t[n].key.lamp == lamp then [t[n]] else []
  }

  /** How many of the lamp's faults come before entry `i`. */
  function Rank(t: Table, i: nat, lamp: string): nat
    requires i <= |t|
  {
    |View(t[..i], lamp)|
  }

  /** Whether an event on the table concerns the lamp: an observation of it, or an action on one of its faults. */
  predicate Concerns(t: Table, e: Event, lamp: string)
  {
    match e
    case Observed(l, _, _) => l == lamp
    case Performed(i, _, _, _) => 0 <= i < |t| && t[i].key.lamp == lamp
  }

  /** The event as it looks when the lamp is alone. */
  function Alone(t: Table, e: Event, lamp: string): Event
    requires Concerns(t, e, lamp)
  {
    if e.Performed? then e.(index := Rank(t, e.index, lamp)) else e
  }

  /** The events of a run that concern the lamp, with its faults numbered from the first. */
  function Own(p: Policy, es: seq<Event>, lamp: string): seq<Event>
  {
    if es == [] then []
    else
      var before, last := es[..|es| - 1], es[|es| - 1];
      var t := Run([], p, before);
      Own(p, before, lamp) + if Concerns(t, last, lamp) then [Alone(t, last, lamp)] else []
  }

  lemma {:induction false} OtherUpdate(t: Table, lamp: string, i: nat, f: Fault)
    requires i < |t| && t[i].key == f.key && f.key.lamp != lamp
    ensures View(t[i := f], lamp) == View(t, lamp)
  {
    var n := |t| - 1;
    if i == n {
      assert t[i := f][..n] == t[..n];
    } else {
      OtherUpdate(t[..n], lamp, i, f);
      assert t[i := f][..n] == t[..n][i := f];
    }
  }

  lemma {:induction false} OwnUpdate(t: Table, lamp: string, i: nat, f: Fault)
    requires i < |t| && t[i].key == f.key && f.key.lamp == lamp
    ensures var rank := Rank(t, i, lamp);
      rank < |View(t, lamp)| && View(t, lamp)[rank] == t[i] && View(t[i := f], lamp) == View(t, lamp)[rank := f]
  {
    var n := |t| - 1;
    if i == n {
      assert t[i := f][..n] == t[..n];
    } else {
      OwnUpdate(t[..n], lamp, i, f);
      assert t[i := f][..n] == t[..n][i := f] && t[..n][..i] == t[..i];
    }
  }

  lemma ViewUpdate(t: Table, lamp: string, i: nat, f: Fault)
    requires i < |t| && t[i].key == f.key
    ensures t[i].key.lamp != lamp ==> View(t[i := f], lamp) == View(t, lamp)
    ensures t[i].key.lamp == lamp ==>
      var rank := Rank(t, i, lamp);
      rank < |View(t, lamp)| && View(t, lamp)[rank] == t[i] && View(t[i := f], lamp) == View(t, lamp)[rank := f]
  {
    if f.key.lamp == lamp {
      OwnUpdate(t, lamp, i, f);
    } else {
      OtherUpdate(t, lamp, i, f);
    }
  }

  /** Scanning the view finds the same fault, at its rank among the lamp's own. */
  lemma {:induction false} ViewFind(t: Table, k: Key)
    ensures var i := FindActive(t, k);
      FindActive(View(t, k.lamp), k) == if 0 <= i < |t| then |View(t[..i], k.lamp)| else -1
  {
    if t != [] {
      var n := |t| - 1;
      var v := View(t[..n], k.lamp);
      ViewFind(t[..n], k);
      FindActiveFinds(t[..n], k);
      var i := FindActive(t[..n], k);
      if t[n].key.lamp == k.lamp {
        assert View(t, k.lamp) == v + [t[n]];
        assert (v + [t[n]])[..|v|] == v;
      } else {
        assert View(t, k.lamp) == v;
      }
      assert 0 <= i < n ==> t[..n][..i] == t[..i];
    }
  }

  lemma {:induction false} ViewClear(t: Table, lamp: string, other: string)
    ensures View(ObserveNormal(t, other), lamp)
         == if other == lamp then ObserveNormal(View(t, lamp), lamp) else View(t, lamp)
  {
    if t != [] {
      var n := |t| - 1;
      ViewClear(t[..n], lamp, other);
      assert ObserveNormal(t, other)[..n] == ObserveNormal(t[..n], other);
      var v := View(t[..n], lamp);
      assert ObserveNormal(v + [t[n]], lamp) == ObserveNormal(v, lamp) + [Cleared(t[n], lamp)];
    }
  }

  lemma ViewAppend(t: Table, f: Fault, lamp: string)
    ensures View(t + [f], lamp) == View(t, lamp) + if f.key.lamp == lamp then [f] else []
  {
    assert (t + [f])[..|t|] == t;
  }

  /** An observation of the lamp acts on its view as on a table of its own; any other leaves the view alone. */
  lemma ViewObserve(t: Table, p: Policy, l: string, d: Diagnosis, ticks: int, lamp: string)
    ensures View(Observe(t, p, l, d, ticks), lamp)
         == if l == lamp then Observe(View(t, lamp), p, lamp, d, ticks) else View(t, lamp)
  {
    if d.NormalReading? {
      ViewClear(t, lamp, l);
    } else {
      var k := KeyOf(l, d);
      var i := FindActive(t, k);
      FindActiveFinds(t, k);
      ViewFind(t, k);
      if i >= 0 {
        ViewUpdate(t, lamp, i, Reobserved(p, t[i], d.evidence, ticks));
      } else {
        ViewAppend(t, Raised(p, k, d.evidence, ticks), lamp);
      }
    }
  }

  /** Work on a fault of the lamp is the same work, refused or done, on the fault of that rank in its view. */
  lemma ViewWork(t: Table, i: nat, a: Action, actor: string, ticks: int, lamp: string)
    requires i < |t|
    ensures var w := Work(t, i, a, actor, ticks);
      if t[i].key.lamp == lamp then
        var v := Work(View(t, lamp), Rank(t, i, lamp), a, actor, ticks);
        if w.Ok? then v == Ok(View(w.value, lamp)) else v == Err(w.error)
      else w.Ok? ==> View(w.value, lamp) == View(t, lamp)
  {
    ViewUpdate(t, lamp, i, t[i]);
    if Work(t, i, a, actor, ticks).Ok? {
      ViewUpdate(t, lamp, i, Worked(t[i], a, actor, ticks));
    }
  }

  lemma ViewStep(t: Table, p: Policy, e: Event, lamp: string)
    ensures View(Step(t, p, e), lamp)
         == if Concerns(t, e, lamp) then Step(View(t, lamp), p, Alone(t, e, lamp)) else View(t, lamp)
  {
    match e
    case Observed(l, d, ticks) => ViewObserve(t, p, l, d, ticks, lamp);
    case Performed(i, a, actor, ticks) =>
      if 0 <= i < |t| {
        ViewWork(t, i, a, actor, ticks, lamp);
      }
  }

  /** Interleaving is invisible: the lamp's records are those its own observations and work alone would produce. */
  lemma {:induction false} LampsAreIsolated(p: Policy, es: seq<Event>, lamp: string)
    ensures View(Run([], p, es), lamp) == Run([], p, Own(p, es, lamp))
  {
    if es != [] {
      var before, last := es[..|es| - 1], es[|es| - 1];
      var t := Run([], p, before);
      LampsAreIsolated(p, before, lamp);
      ViewStep(t, p, last, lamp);
      var own := Own(p, before, lamp);
      if Concerns(t, last, lamp) {
        assert Own(p, es, lamp) == own + [Alone(t, last, lamp)];
        assert (own + [Alone(t, last, lamp)])[..|own|] == own;
      } else {
        assert Own(p, es, lamp) == own;
      }
    }
  }
}
