/**
 What confirmation means over whole runs of the fault engine: it is never given without enough evidence, enough
 evidence always earns it, and the bound on "enough" cannot be lowered.
 */
module FaultConfirmation {
  import opened Wrappers
  import opened Faults

  predicate IsObservation(e: Event, k: Key)
  {
    e.Observed? && e.diagnosis.Abnormal? && KeyOf(e.lamp, e.diagnosis) == k
  }

  predicate IsNormalFor(e: Event, lamp: string)
  {
    e.Observed? && e.diagnosis.NormalReading? && e.lamp == lamp
  }

  /** How many events of a stretch observe the key. */
  function CountOf(h: seq<Event>, k: Key): nat
  {
    if h == [] then 0 else CountOf(h[..|h| - 1], k) + if IsObservation(h[|h| - 1], k) then 1 else 0
  }

  predicate NoNormal(h: seq<Event>, lamp: string)
  {
    forall i :: 0 <= i < |h| ==> !IsNormalFor(h[i], lamp)
  }

  /** The stretch starts by observing the key, and every observation of it falls inside the window from there. */
  predicate InWindow(h: seq<Event>, k: Key, window: int)
  {
    && h != [] && IsObservation(h[0], k)
    && forall i :: 0 <= i < |h| && IsObservation(h[i], k) ==> h[i].ticks - h[0].ticks <= window
  }

  /** `h[from..to]` holds `n` observations of the key inside one window and no normal reading of its lamp. */
  predicate Evidence(h: seq<Event>, from: nat, to: nat, k: Key, n: int, window: int)
  {
    && from < to <= |h|
    && CountOf(h[from..to], k) == n
    && InWindow(h[from..to], k, window)
    && NoNormal(h[from..to], k.lamp)
  }

  // ---------- soundness ----------

  /** A suspicion counts exactly the observations since its window opened; a confirmation once had enough. */
  ghost predicate Supported(f: Fault, h: seq<Event>, p: Policy)
  {
    && (f.state == Suspected ==>
          exists from: nat :: Evidence(h, from, |h|, f.key, f.count, p.window) && h[from].ticks == f.first)
    && (f.confirmedTicks.Some? ==>
          exists from: nat, to: nat, n: int :: Evidence(h, from, to, f.key, n, p.window) && n >= p.count
                                            && IsObservation(h[to - 1], f.key)
                                            && h[to - 1].ticks == f.confirmedTicks.value)
  }

  lemma ExtendSlice(h: seq<Event>, e: Event, from: nat)
    requires from <= |h|
    ensures (h + [e])[from..|h| + 1] == h[from..|h|] + [e]
    ensures (h + [e])[from..|h| + 1][..|h| - from] == h[from..|h|]
  {
  }

  /** One more event keeps an open window open unless it is a late observation or a normal reading. */
  lemma ExtendEvidence(h: seq<Event>, e: Event, from: nat, k: Key, n: int, window: int)
    requires Evidence(h, from, |h|, k, n, window) && !IsNormalFor(e, k.lamp)
    requires IsObservation(e, k) ==> e.ticks - h[from].ticks <= window
    ensures Evidence(h + [e], from, |h| + 1, k, n + (if IsObservation(e, k) then 1 else 0), window)
  {
    ExtendSlice(h, e, from);
  }

  lemma OpenEvidence(h: seq<Event>, e: Event, k: Key, window: int)
    requires IsObservation(e, k) && window >= 0
    ensures Evidence(h + [e], |h|, |h| + 1, k, 1, window)
  {
    assert (h + [e])[|h|..|h| + 1] == [e];
    assert CountOf([e], k) == CountOf([], k) + 1;
  }

  lemma KeepEvidence(h: seq<Event>, e: Event, from: nat, to: nat, k: Key, n: int, window: int)
    requires Evidence(h, from, to, k, n, window)
    ensures Evidence(h + [e], from, to, k, n, window)
  {
    assert (h + [e])[from..to] == h[from..to];
  }

  lemma SuspicionKept(f: Fault, h: seq<Event>, p: Policy, e: Event)
    requires Supported(f, h, p) && f.state == Suspected
    requires !IsObservation(e, f.key) && !IsNormalFor(e, f.key.lamp)
    ensures exists from: nat ::
      Evidence(h + [e], from, |h + [e]|, f.key, f.count, p.window) && (h + [e])[from].ticks == f.first
  {
    var from: nat :| Evidence(h, from, |h|, f.key, f.count, p.window) && h[from].ticks == f.first;
    ExtendEvidence(h, e, from, f.key, f.count, p.window);
    assert (h + [e])[from] == h[from];
  }

  lemma ConfirmationKept(f: Fault, h: seq<Event>, p: Policy, e: Event, g: Fault)
    requires Supported(f, h, p) && g.key == f.key && g.confirmedTicks == f.confirmedTicks
    ensures g.confirmedTicks.Some? ==>
      exists from: nat, to: nat, n: int :: Evidence(h + [e], from, to, g.key, n, p.window) && n >= p.count
        && IsObservation((h + [e])[to - 1], g.key) && (h + [e])[to - 1].ticks == g.confirmedTicks.value
  {
    if g.confirmedTicks.Some? {
      var from: nat, to: nat, n: int :| Evidence(h, from, to, f.key, n, p.window) && n >= p.count
        && IsObservation(h[to - 1], f.key) && h[to - 1].ticks == f.confirmedTicks.value;
      KeepEvidence(h, e, from, to, f.key, n, p.window);
      assert (h + [e])[to - 1] == h[to - 1];
    }
  }

  /** A record the event did not touch stays supported, provided the event is not an observation of its key. */
  lemma StillSupported(f: Fault, h: seq<Event>, p: Policy, e: Event)
    requires Supported(f, h, p)
    requires f.state == Suspected ==> !IsObservation(e, f.key) && !IsNormalFor(e, f.key.lamp)
    ensures Supported(f, h + [e], p)
  {
    if f.state == Suspected {
      SuspicionKept(f, h, p, e);
    }
    ConfirmationKept(f, h, p, e, f);
  }

  lemma RaisedSupported(h: seq<Event>, p: Policy, e: Event, k: Key)
    requires IsObservation(e, k) && p.window >= 0
    ensures Supported(Raised(p, k, e.diagnosis.evidence, e.ticks), h + [e], p)
  {
    OpenEvidence(h, e, k, p.window);
    assert (h + [e])[|h|] == e;
  }

  lemma SuspicionSupported(f: Fault, h: seq<Event>, p: Policy, e: Event)
    requires Supported(f, h, p) && Plausible(f) && f.state == Suspected && IsObservation(e, f.key) && p.window >= 0
    ensures Supported(Reobserved(p, f, e.diagnosis.evidence, e.ticks), h + [e], p)
  {
    var from: nat :| Evidence(h, from, |h|, f.key, f.count, p.window) && h[from].ticks == f.first;
    assert (h + [e])[|h|] == e && (h + [e])[from] == h[from];
    if e.ticks - f.first > p.window {
      OpenEvidence(h, e, f.key, p.window);
    } else {
      ExtendEvidence(h, e, from, f.key, f.count, p.window);
    }
  }

  lemma ReobservedSupported(f: Fault, h: seq<Event>, p: Policy, e: Event)
    requires Supported(f, h, p) && Plausible(f) && Active(f) && IsObservation(e, f.key) && p.window >= 0
    ensures Supported(Reobserved(p, f, e.diagnosis.evidence, e.ticks), h + [e], p)
  {
    var g := Reobserved(p, f, e.diagnosis.evidence, e.ticks);
    assert (h + [e])[|h|] == e;
    if f.state == Suspected {
      SuspicionSupported(f, h, p, e);
    } else {
      ConfirmationKept(f, h, p, e, g);
    }
  }

  ghost predicate AllSupported(t: Table, h: seq<Event>, p: Policy)
  {
    forall i :: 0 <= i < |t| ==> Supported(t[i], h, p)
  }

  lemma StepSupported(t: Table, h: seq<Event>, p: Policy, e: Event)
    requires WellFormed(t) && AllSupported(t, h, p) && p.window >= 0
    ensures AllSupported(Step(t, p, e), h + [e], p)
  {
    var t' := Step(t, p, e);
    StepEvolves(t, p, e);
    forall i | 0 <= i < |t'|
      ensures Supported(t'[i], h + [e], p)
    {
      if i == |t| {
        RaisedSupported(h, p, e, t'[i].key);
      } else if t'[i] == t[i] {
        if t[i].state == Suspected {
          Untouched(t, p, e, i);
        }
        StillSupported(t[i], h, p, e);
      } else if e.Observed? && e.diagnosis.Abnormal? {
        FindActiveFinds(t, KeyOf(e.lamp, e.diagnosis));
        ReobservedSupported(t[i], h, p, e);
      } else {
        ConfirmationKept(t[i], h, p, e, t'[i]);
      }
    }
  }

  /** A suspicion that an event leaves alone was neither observed nor cleared by it. */
  lemma Untouched(t: Table, p: Policy, e: Event, i: nat)
    requires WellFormed(t) && p.window >= 0
    requires i < |t| && t[i].state == Suspected && |Step(t, p, e)| >= |t| && Step(t, p, e)[i] == t[i]
    ensures !IsObservation(e, t[i].key) && !IsNormalFor(e, t[i].key.lamp)
  {
    if IsObservation(e, t[i].key) {
      FindActiveFinds(t, t[i].key);
    }
  }

  lemma {:induction false} RunSupported(p: Policy, es: seq<Event>)
    requires p.window >= 0
    ensures WellFormed(Run([], p, es)) && AllSupported(Run([], p, es), es, p)
  {
    RunWellFormed([], p, es);
    if es != [] {
      var before := es[..|es| - 1];
      RunSupported(p, before);
      StepSupported(Run([], p, before), before, p, es[|es| - 1]);
      assert es == before + [es[|es| - 1]];
    }
  }

  /**
   Soundness: whatever the run, a fault that got past suspicion was confirmed by an observation that ended a
   stretch holding at least `count` observations of its key, all within the window from the first of them, with
   no normal reading of its lamp in between.
   */
  lemma ConfirmationSound(p: Policy, es: seq<Event>, i: nat)
    requires p.window >= 0
    requires i < |Run([], p, es)| && Run([], p, es)[i].state !in {Suspected, Normal}
    ensures var f := Run([], p, es)[i];
      exists from: nat, to: nat, n: int :: Evidence(es, from, to, f.key, n, p.window) && n >= p.count
        && IsObservation(es[to - 1], f.key) && f.confirmedTicks == Some(es[to - 1].ticks)
  {
    RunSupported(p, es);
    var f := Run([], p, es)[i];
    assert Supported(f, es, p) && Plausible(f);
  }

  // ---------- what an open record shows ----------

  /** The latest observation of the key in the run was event `j`. */
  predicate LatestObservation(h: seq<Event>, k: Key, j: nat)
  {
    && j < |h| && IsObservation(h[j], k)
    && forall x :: j < x < |h| ==> !IsObservation(h[x], k)
  }

  /** `h[from..]` starts a window of the key and holds `n` observations of it, all within the window. */
  predicate Counted(h: seq<Event>, from: nat, k: Key, n: int, window: int)
  {
    from < |h| && CountOf(h[from..], k) == n && InWindow(h[from..], k, window)
  }

  /** Its last tick and evidence are those of the latest observation; its count is that of the running window. */
  ghost predicate ShowsLatest(f: Fault, h: seq<Event>, p: Policy)
  {
    && (exists j: nat :: LatestObservation(h, f.key, j)
                         && f.last == h[j].ticks && f.evidence == h[j].diagnosis.evidence)
    && (exists from: nat :: Counted(h, from, f.key, f.count, p.window) && f.first == h[from].ticks)
  }

  lemma LatestIsNew(h: seq<Event>, e: Event, k: Key)
    requires IsObservation(e, k)
    ensures LatestObservation(h + [e], k, |h|) && (h + [e])[|h|] == e
  {
  }

  lemma LatestStays(h: seq<Event>, e: Event, k: Key, j: nat)
    requires !IsObservation(e, k) && LatestObservation(h, k, j)
    ensures LatestObservation(h + [e], k, j) && (h + [e])[j] == h[j]
  {
  }

  lemma CountedNext(h: seq<Event>, e: Event, from: nat, k: Key, n: int, window: int)
    requires Counted(h, from, k, n, window) && (IsObservation(e, k) ==> e.ticks - h[from].ticks <= window)
    ensures Counted(h + [e], from, k, n + (if IsObservation(e, k) then 1 else 0), window)
    ensures (h + [e])[from] == h[from]
  {
    ExtendSlice(h, e, from);
    assert (h + [e])[from..] == h[from..] + [e] && h[from..] == h[from..|h|];
  }

  lemma CountedNew(h: seq<Event>, e: Event, k: Key, window: int)
    requires IsObservation(e, k) && window >= 0
    ensures Counted(h + [e], |h|, k, 1, window) && (h + [e])[|h|] == e
  {
    OpenEvidence(h, e, k, window);
    assert (h + [e])[|h|..] == (h + [e])[|h|..|h| + 1];
  }

  lemma ObservedShows(f: Fault, h: seq<Event>, p: Policy, e: Event)
    requires ShowsLatest(f, h, p) && IsObservation(e, f.key) && p.window >= 0
    ensures ShowsLatest(Reobserved(p, f, e.diagnosis.evidence, e.ticks), h + [e], p)
  {
    LatestIsNew(h, e, f.key);
    var from: nat :| Counted(h, from, f.key, f.count, p.window) && f.first == h[from].ticks;
    if e.ticks - f.first > p.window {
      CountedNew(h, e, f.key, p.window);
    } else {
      CountedNext(h, e, from, f.key, f.count, p.window);
    }
  }

  lemma RaisedShows(h: seq<Event>, p: Policy, e: Event, k: Key)
    requires IsObservation(e, k) && p.window >= 0
    ensures ShowsLatest(Raised(p, k, e.diagnosis.evidence, e.ticks), h + [e], p)
  {
    LatestIsNew(h, e, k);
    CountedNew(h, e, k, p.window);
  }

  lemma OtherShows(f: Fault, g: Fault, h: seq<Event>, p: Policy, e: Event)
    requires ShowsLatest(f, h, p) && !IsObservation(e, f.key)
    requires g.key == f.key && g.last == f.last && g.evidence == f.evidence && g.count == f.count && g.first == f.first
    ensures ShowsLatest(g, h + [e], p)
  {
    var j: nat :| LatestObservation(h, f.key, j) && f.last == h[j].ticks && f.evidence == h[j].diagnosis.evidence;
    LatestStays(h, e, f.key, j);
    var from: nat :| Counted(h, from, f.key, f.count, p.window) && f.first == h[from].ticks;
    CountedNext(h, e, from, f.key, f.count, p.window);
  }

  /** How one step changes the observation fields of a fault that is open afterwards. */
  lemma StepFields(t: Table, p: Policy, e: Event, i: nat)
    requires WellFormed(t) && i < |t| && Active(Step(t, p, e)[i])
    ensures var g := Step(t, p, e)[i];
      if IsObservation(e, t[i].key) then g == Reobserved(p, t[i], e.diagnosis.evidence, e.ticks)
      else g.key == t[i].key && g.last == t[i].last && g.evidence == t[i].evidence && g.count == t[i].count
           && g.first == t[i].first
    ensures Active(t[i])
  {
    StepEvolves(t, p, e);
    assert Evolves(t[i], Step(t, p, e)[i]);
    if e.Observed? && e.diagnosis.Abnormal? {
      FindActiveFinds(t, KeyOf(e.lamp, e.diagnosis));
    }
  }

  /** In every run every open record shows the latest observation of its key and counts its running window. */
  lemma {:induction false} OpenRecordsShow(p: Policy, es: seq<Event>, i: nat)
    requires p.window >= 0 && i < |Run([], p, es)| && Active(Run([], p, es)[i])
    ensures ShowsLatest(Run([], p, es)[i], es, p)
  {
    var before, e := es[..|es| - 1], es[|es| - 1];
    var t := Run([], p, before);
    assert es == before + [e];
    RunWellFormed([], p, before);
    StepEvolves(t, p, e);
    if i < |t| {
      StepFields(t, p, e, i);
      OpenRecordsShow(p, before, i);
      if IsObservation(e, t[i].key) {
        ObservedShows(t[i], before, p, e);
      } else {
        OtherShows(t[i], Run([], p, es)[i], before, p, e);
      }
    } else {
      RaisedShows(before, p, e, KeyOf(e.lamp, e.diagnosis));
    }
  }

  // ---------- completeness ----------

  /** A fault with the key that is new in `t`, or was not yet over in the earlier table `s`, has been confirmed. */
  predicate Reached(s: Table, t: Table, k: Key)
  {
    exists i :: 0 <= i < |t| && t[i].key == k && t[i].confirmedTicks.Some? && (i < |s| ==> Active(s[i]))
  }

  /** Whatever of `s` is still active in the later table `t` was active in `s`. */
  predicate NoneRevived(s: Table, t: Table)
  {
    |s| <= |t| && forall i :: 0 <= i < |s| && Active(t[i]) ==> Active(s[i])
  }

  /**
   After `m` observations of a burst that began at tick `t1`, a key not yet confirmed is suspected, and its count
   has either grown with every one of them in a window opened before, or restarted inside the burst after at most
   count - 2 of them.
   */
  predicate Progress(f: Fault, p: Policy, m: nat, t1: int)
  {
    && f.state == Suspected
    && (m > 0 ==> f.count < p.count)
    && (f.count > m || (f.first >= t1 && f.count >= m - p.count + 2))
  }

  predicate Tracking(s: Table, t: Table, p: Policy, k: Key, m: nat, t1: int)
  {
    && NoneRevived(s, t)
    && (Reached(s, t, k)
        || (&& (m > 0 ==> FindActive(t, k) >= 0)
            && (forall i :: 0 <= i < |t| && Active(t[i]) && t[i].key == k ==> Progress(t[i], p, m, t1))))
  }

  lemma StartTracking(t: Table, p: Policy, k: Key, t1: int)
    requires WellFormed(t)
    ensures Tracking(t, t, p, k, 0, t1)
  {
    if !Reached(t, t, k) {
      forall i | 0 <= i < |t| && Active(t[i]) && t[i].key == k
        ensures Progress(t[i], p, 0, t1)
      {
        assert Plausible(t[i]);
      }
    }
  }

  lemma NoneRevivedByStep(s: Table, t: Table, p: Policy, e: Event)
    requires WellFormed(t) && NoneRevived(s, t)
    ensures NoneRevived(s, Step(t, p, e))
  {
    StepEvolves(t, p, e);
    assert forall i :: 0 <= i < |s| ==> Evolves(t[i], Step(t, p, e)[i]);
  }

  lemma ReachedStays(s: Table, t: Table, p: Policy, k: Key, e: Event)
    requires WellFormed(t) && Reached(s, t, k)
    ensures Reached(s, Step(t, p, e), k)
  {
    StepEvolves(t, p, e);
    var i :| 0 <= i < |t| && t[i].key == k && t[i].confirmedTicks.Some? && (i < |s| ==> Active(s[i]));
    assert Evolves(t[i], Step(t, p, e)[i]);
  }

  /** While nothing is reached, the active fault of the key is still only suspected. */
  lemma UnreachedIsSuspected(s: Table, t: Table, k: Key, i: nat)
    requires WellFormed(t) && NoneRevived(s, t) && !Reached(s, t, k)
    requires i < |t| && t[i].key == k && Active(t[i])
    ensures t[i].state == Suspected
  {
    assert Plausible(t[i]);
  }

  lemma ObservationProgress(p: Policy, f: Fault, evidence: string, ticks: int, m: nat, t1: int)
    requires p.count >= 1 && Plausible(f) && Progress(f, p, m, t1) && t1 <= ticks <= t1 + p.window
    ensures var g := Reobserved(p, f, evidence, ticks);
      g.confirmedTicks.Some? || Progress(g, p, m + 1, t1)
  {
  }

  lemma TrackObservation(s: Table, t: Table, p: Policy, k: Key, e: Event, m: nat, t1: int)
    requires WellFormed(t) && Tracking(s, t, p, k, m, t1) && p.count >= 1
    requires IsObservation(e, k) && t1 <= e.ticks <= t1 + p.window
    ensures Tracking(s, Step(t, p, e), p, k, m + 1, t1)
  {
    NoneRevivedByStep(s, t, p, e);
    if Reached(s, t, k) {
      ReachedStays(s, t, p, k, e);
    } else {
      var t', i := Step(t, p, e), FindActive(t, k);
      FindActiveFinds(t, k);
      StepEvolves(t, p, e);
      FindActiveFinds(t', k);
      if i >= 0 {
        ObservationProgress(p, t[i], e.diagnosis.evidence, e.ticks, m, t1);
        assert t'[i] == Reobserved(p, t[i], e.diagnosis.evidence, e.ticks);
      } else {
        assert t'[|t|] == Raised(p, k, e.diagnosis.evidence, e.ticks);
      }
    }
  }

  /** Any other event leaves the unconfirmed faults of the key alone. */
  lemma OtherSpares(t: Table, p: Policy, k: Key, e: Event, i: nat)
    requires WellFormed(t) && i < |t| && t[i].key == k && (Active(t[i]) ==> t[i].state == Suspected)
    requires !IsObservation(e, k) && !IsNormalFor(e, k.lamp)
    ensures i < |Step(t, p, e)| && Step(t, p, e)[i] == t[i]
  {
    StepEvolves(t, p, e);
    if Terminal(t[i].state) {
      assert Evolves(t[i], Step(t, p, e)[i]);
    } else if e.Observed? && e.diagnosis.Abnormal? {
      FindActiveFinds(t, KeyOf(e.lamp, e.diagnosis));
    }
  }

  lemma TrackOther(s: Table, t: Table, p: Policy, k: Key, e: Event, m: nat, t1: int)
    requires WellFormed(t) && Tracking(s, t, p, k, m, t1)
    requires !IsObservation(e, k) && !IsNormalFor(e, k.lamp)
    ensures Tracking(s, Step(t, p, e), p, k, m, t1)
  {
    NoneRevivedByStep(s, t, p, e);
    if Reached(s, t, k) {
      ReachedStays(s, t, p, k, e);
    } else {
      var t' := Step(t, p, e);
      StepEvolves(t, p, e);
      FindActiveFinds(t, k);
      FindActiveFinds(t', k);
      forall i | 0 <= i < |t| && t[i].key == k
        ensures t'[i] == t[i]
      {
        if Active(t[i]) {
          UnreachedIsSuspected(s, t, k, i);
        }
        OtherSpares(t, p, k, e, i);
      }
    }
  }

  /** Every observation of the key in the stretch lies within one window from `t1`, no normal reading between. */
  predicate Burst(es: seq<Event>, k: Key, t1: int, window: int)
  {
    && NoNormal(es, k.lamp)
    && forall i :: 0 <= i < |es| && IsObservation(es[i], k) ==> t1 <= es[i].ticks <= t1 + window
  }

  lemma {:induction false} TrackBurst(t: Table, p: Policy, k: Key, es: seq<Event>, t1: int)
    requires WellFormed(t) && p.count >= 1 && Burst(es, k, t1, p.window)
    ensures WellFormed(Run(t, p, es)) && Tracking(t, Run(t, p, es), p, k, CountOf(es, k), t1)
  {
    RunWellFormed(t, p, es);
    if es == [] {
      StartTracking(t, p, k, t1);
    } else {
      var before, e := es[..|es| - 1], es[|es| - 1];
      TrackBurst(t, p, k, before, t1);
      if IsObservation(e, k) {
        TrackObservation(t, Run(t, p, before), p, k, e, CountOf(before, k), t1);
      } else {
        TrackOther(t, Run(t, p, before), p, k, e, CountOf(before, k), t1);
      }
    }
  }

  function Enough(count: int): int
  {
    if count > 2 * count - 2 then count else 2 * count - 2
  }

  /**
   Completeness: from any table the engine can be in, max(count, 2 * count - 2) observations of one key inside a
   single window span, without a normal reading of its lamp between them, always leave a confirmed fault that was
   not over when they began, whatever else happens in between.
   */
  lemma ConfirmationComplete(t: Table, p: Policy, k: Key, es: seq<Event>, t1: int)
    requires WellFormed(t) && p.count >= 1 && Burst(es, k, t1, p.window)
    requires CountOf(es, k) >= Enough(p.count)
    ensures Reached(t, Run(t, p, es), k)
  {
    TrackBurst(t, p, k, es, t1);
    FindActiveFinds(Run(t, p, es), k);
  }

  // ---------- the bound is sharp ----------

  function Sighting(k: Key, ticks: int): Event
  {
    Observed(k.lamp, Abnormal(Some(k.category), k.classification, ""), ticks)
  }

  function Sightings(k: Key, n: nat, ticks: int): seq<Event>
  {
    seq(n, i => Sighting(k, ticks))
  }

  lemma {:induction false} CountSightings(k: Key, n: nat, ticks: int)
    ensures CountOf(Sightings(k, n, ticks), k) == n
  {
    if n > 0 {
      assert Sightings(k, n, ticks)[..n - 1] == Sightings(k, n - 1, ticks);
      CountSightings(k, n - 1, ticks);
    }
  }

  lemma {:induction false} CountConcat(a: seq<Event>, b: seq<Event>, k: Key)
    ensures CountOf(a + b, k) == CountOf(a, k) + CountOf(b, k)
  {
    if b == [] {
      assert a + b == a;
    } else {
      assert (a + b)[..|a + b| - 1] == a + b[..|b| - 1];
      CountConcat(a, b[..|b| - 1], k);
    }
  }

  lemma {:induction false} RunConcat(t: Table, p: Policy, a: seq<Event>, b: seq<Event>)
    ensures Run(t, p, a + b) == Run(Run(t, p, a), p, b)
  {
    if b == [] {
      assert a + b == a;
    } else {
      assert (a + b)[..|a + b| - 1] == a + b[..|b| - 1];
      RunConcat(t, p, a, b[..|b| - 1]);
    }
  }

  /** A lone suspicion of `k` with the given count and window start. */
  predicate Lone(t: Table, k: Key, count: int, first: int)
  {
    |t| == 1 && t[0].key == k && t[0].state == Suspected && t[0].count == count && t[0].first == first
  }

  lemma LoneStep(t: Table, p: Policy, k: Key, count: int, first: int, ticks: int)
    requires Lone(t, k, count, first)
    ensures ticks - first <= p.window && count + 1 < p.count ==>
      Lone(Step(t, p, Sighting(k, ticks)), k, count + 1, first)
    ensures ticks - first > p.window && 1 < p.count ==> Lone(Step(t, p, Sighting(k, ticks)), k, 1, ticks)
  {
    FindActiveFinds(t, k);
  }

  lemma {:induction false} LoneRun(t: Table, p: Policy, k: Key, count: int, first: int, ticks: int, n: nat)
    requires Lone(t, k, count, first) && ticks - first <= p.window && count + n < p.count
    ensures Lone(Run(t, p, Sightings(k, n, ticks)), k, count + n, first)
  {
    if n > 0 {
      assert Sightings(k, n, ticks)[..n - 1] == Sightings(k, n - 1, ticks);
      LoneRun(t, p, k, count, first, ticks, n - 1);
      LoneStep(Run(t, p, Sightings(k, n - 1, ticks)), p, k, count + n - 1, first, ticks);
    }
  }

  /** One sighting at 0, then count - 2 at the end of its window and count - 1 just past it. */
  function Early(p: Policy, k: Key): seq<Event>
    requires p.count >= 3
  {
    Sightings(k, p.count - 2, p.window)
  }

  function Late(p: Policy, k: Key): seq<Event>
    requires p.count >= 3
  {
    Sightings(k, 1, p.window + 1) + Sightings(k, p.count - 2, p.window + 1)
  }

  lemma RunOne(t: Table, p: Policy, k: Key, ticks: int)
    ensures Run(t, p, Sightings(k, 1, ticks)) == Step(t, p, Sighting(k, ticks))
  {
    assert Sightings(k, 1, ticks)[..0] == [];
  }

  lemma SharpFirst(p: Policy, k: Key)
    requires p.count >= 3
    ensures Lone(Run([], p, Sightings(k, 1, 0)), k, 1, 0)
  {
    RunOne([], p, k, 0);
    FindActiveFinds([], k);
  }

  lemma SharpLate(t: Table, p: Policy, k: Key)
    requires p.count >= 3 && p.window >= 1 && Lone(t, k, p.count - 1, 0)
    ensures Lone(Run(t, p, Late(p, k)), k, p.count - 1, p.window + 1)
  {
    var w, n := p.window + 1, p.count - 2;
    LoneStep(t, p, k, p.count - 1, 0, w);
    RunOne(t, p, k, w);
    LoneRun(Run(t, p, Sightings(k, 1, w)), p, k, 1, w, w, n);
    RunConcat(t, p, Sightings(k, 1, w), Sightings(k, n, w));
  }

  lemma SharpRun(p: Policy, k: Key)
    requires p.count >= 3 && p.window >= 1
    ensures Lone(Run(Run([], p, Sightings(k, 1, 0)), p, Early(p, k) + Late(p, k)), k, p.count - 1, p.window + 1)
  {
    SharpFirst(p, k);
    var t := Run([], p, Sightings(k, 1, 0));
    LoneRun(t, p, k, 1, 0, p.window, p.count - 2);
    SharpLate(Run(t, p, Early(p, k)), p, k);
    RunConcat(t, p, Early(p, k), Late(p, k));
  }

  lemma SharpCount(p: Policy, k: Key)
    requires p.count >= 3
    ensures CountOf(Early(p, k) + Late(p, k), k) == Enough(p.count) - 1
  {
    var w, n := p.window, p.count - 2;
    CountSightings(k, n, w);
    CountSightings(k, n, w + 1);
    CountSightings(k, 1, w + 1);
    CountConcat(Sightings(k, 1, w + 1), Sightings(k, n, w + 1), k);
    CountConcat(Early(p, k), Late(p, k), k);
  }

  lemma SharpBurst(p: Policy, k: Key)
    requires p.count >= 3
    ensures Burst(Early(p, k) + Late(p, k), k, p.window, 1)
  {
    var es := Early(p, k) + Late(p, k);
    assert forall i :: 0 <= i < |es| ==> es[i] == Sighting(k, p.window) || es[i] == Sighting(k, p.window + 1);
  }

  /**
   Sharpness: for every policy that asks for at least three observations there is a reachable table and a burst
   one observation short of the bound, spanning a single tick, that leaves the fault unconfirmed.
   */
  lemma BoundIsSharp(p: Policy, k: Key) returns (earlier: seq<Event>, burst: seq<Event>)
    requires p.count >= 3 && p.window >= 1
    ensures Burst(burst, k, p.window, 1) && CountOf(burst, k) == Enough(p.count) - 1
    ensures !Reached(Run([], p, earlier), Run(Run([], p, earlier), p, burst), k)
  {
    earlier, burst := Sightings(k, 1, 0), Early(p, k) + Late(p, k);
    SharpBurst(p, k);
    SharpCount(p, k);
    SharpRun(p, k);
    RunWellFormed([], p, earlier);
    RunWellFormed(Run([], p, earlier), p, burst);
    var t := Run(Run([], p, earlier), p, burst);
    assert Plausible(t[0]);
  }
}
