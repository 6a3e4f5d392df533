/** The per-link communication health machine. */
module LinkHealth {
  import opened Wrappers

  datatype CommState = CommHealthy | Retry | Degraded | CommFault | Recovery

  datatype CommTransition = CommTransition(fromState: CommState, toState: CommState, atIndex: nat)

  datatype Link = Link(state: CommState, retryLimit: nat, failures: nat, successes: nat, history: seq<CommTransition>)

  function Transitions(s: CommState): set<CommState>
  {
    match s
    case CommHealthy => {Retry}
    case Retry => {CommHealthy, Degraded}
    case Degraded => {CommHealthy, CommFault}
    case CommFault => {Recovery}
    case Recovery => {CommHealthy, CommFault}
  }

  function Initial(retryLimit: nat): Link
  {
    Link(CommHealthy, retryLimit, 0, 0, [])
  }

  function Moved(l: Link, target: CommState): Link
  {
    l.(state := target, history := l.history + [CommTransition(l.state, target, |l.history|)])
  }

  function OnSuccess(l: Link): Link
  {
    var l' := l.(failures := 0, successes := l.successes + 1);
    match l.state
    case CommHealthy => l'
    case CommFault => Moved(l', Recovery)
    case _ => Moved(l', CommHealthy)
  }

  function OnFailure(l: Link): Link
  {
    var l' := l.(failures := l.failures + 1, successes := 0);
    match l.state
    case CommHealthy => Moved(l', Retry)
    case Retry => if l'.failures > l.retryLimit then Moved(l', Degraded) else l'
    case Degraded => Moved(l', CommFault)
    case CommFault => l'
    case Recovery => Moved(l', CommFault)
  }

  function OnBeginRecovery(l: Link): Link
  {
    if l.state == CommFault then Moved(l, Recovery) else l
  }

  function OnReset(l: Link): Link
  {
    l.(state := CommHealthy, failures := 0, successes := 0)
  }

  class CommunicationStateMachine {
    var state: CommState
    const retryLimit: nat
    var failures: nat
    var successes: nat
    var history: seq<CommTransition>

    constructor (retryLimit: nat)
      ensures State() == Initial(retryLimit)
    {
      this.retryLimit := retryLimit;
      state, failures, successes, history := CommHealthy, 0, 0, [];
    }

    /** The construction with its check: a negative retry limit is refused. */
    static method Create(limit: int) returns (r: Option<CommunicationStateMachine>)
      ensures r.Some? <==> limit >= 0
      ensures r.Some? ==> fresh(r.value) && r.value.State() == Initial(limit)
    {
      if limit < 0 {
        return None;
      }
      var m := new CommunicationStateMachine(limit);
      return Some(m);
    }

    function State(): Link
      reads this
    {
      Link(state, retryLimit, failures, successes, history)
    }

    /** The guarded move: refused, with nothing changed, when the table does not list the target. */
    method Move(target: CommState) returns (legal: bool)
      modifies `state, `history
      ensures legal <==> target in Transitions(old(state))
      ensures State() == if legal then Moved(old(State()), target) else old(State())
    {
      if target !in Transitions(state) {
        return false;
      }
      history := history + [CommTransition(state, target, |history|)];
      state := target;
      return true;
    }

    /** `raised` is never true: every move these methods attempt is in the table. */
    method RecordSuccess() returns (raised: bool)
      modifies this
      ensures !raised && State() == OnSuccess(old(State()))
    {
      failures := 0;
      successes := successes + 1;
      if state == CommHealthy {
        return false;
      }
      if state == CommFault {
        raised := BeginRecovery();
        return;
      }
      if state == Recovery {
        if successes >= 1 {
          var legal := Move(CommHealthy);
          return !legal;
        }
        return false;
      }
      var legal := Move(CommHealthy);
      return !legal;
    }

    method RecordFailure() returns (raised: bool)
      modifies this
      ensures !raised && State() == OnFailure(old(State()))
    {
      successes := 0;
      failures := failures + 1;
      var legal := true;
      if state == CommHealthy {
        legal := Move(Retry);
      } else if state == Retry {
        if failures > retryLimit {
          legal := Move(Degraded);
        }
      } else if state == Degraded {
        legal := Move(CommFault);
      } else if state == Recovery {
        legal := Move(CommFault);
      }
      return !legal;
    }

    method BeginRecovery() returns (raised: bool)
      modifies `state, `history
      ensures !raised && State() == OnBeginRecovery(old(State()))
    {
      if state == CommFault {
        var legal := Move(Recovery);
        return !legal;
      }
      return false;
    }

    method Reset()
      modifies this
      ensures State() == OnReset(old(State()))
    {
      state, failures, successes := CommHealthy, 0, 0;
    }
  }

  // ---------- runs ----------

  datatype LinkEvent = Success | Failure | Began | WasReset

  function Step(l: Link, e: LinkEvent): Link
  {
    match e
    case Success => OnSuccess(l)
    case Failure => OnFailure(l)
    case Began => OnBeginRecovery(l)
    case WasReset => OnReset(l)
  }

  function Run(l: Link, es: seq<LinkEvent>): Link
  {
    if es == [] then l else Step(Run(l, es[..|es| - 1]), es[|es| - 1])
  }

  /** The failures since the latest success or reset. */
  function FailuresInARow(es: seq<LinkEvent>): nat
  {
    if es == [] then 0
    else
      match es[|es| - 1]
      case Failure => FailuresInARow(es[..|es| - 1]) + 1
      case Began => FailuresInARow(es[..|es| - 1])
      case _ => 0
  }

  /** The successes since the latest failure or reset. */
  function SuccessesInARow(es: seq<LinkEvent>): nat
  {
    if es == [] then 0
    else
      match es[|es| - 1]
      case Success => SuccessesInARow(es[..|es| - 1]) + 1
      case Began => SuccessesInARow(es[..|es| - 1])
      case _ => 0
  }

  /** The counters count the calls in a row, and the next state depends on the state and the failures in a row. */
  lemma {:induction false} NextState(limit: nat, es: seq<LinkEvent>, e: LinkEvent)
    ensures var l := Run(Initial(limit), es);
      && l.failures == FailuresInARow(es) && l.successes == SuccessesInARow(es) && l.retryLimit == limit
      && Step(l, e).state ==
        match e {
          case Success => if l.state == CommFault then Recovery else CommHealthy
          case Failure =>
            if l.state == CommHealthy then Retry
            else if l.state == Retry then (if FailuresInARow(es) < limit then Retry else Degraded)
            else CommFault
          case Began => if l.state == CommFault then Recovery else l.state
          case WasReset => CommHealthy
        }
  {
    if es != [] {
      NextState(limit, es[..|es| - 1], es[|es| - 1]);
    }
  }

  function Failures(n: nat): seq<LinkEvent>
  {
    seq(n, i => Failure)
  }

  function Max(a: nat, b: nat): nat
  {
    if a > b then a else b
  }

  /** What holds of the counters in every reachable state. */
  predicate Consistent(l: Link)
  {
    && (l.state == CommHealthy ==> l.failures == 0)
    && (l.state == Retry ==> 1 <= l.failures <= Max(1, l.retryLimit))
  }

  lemma {:induction false} Reachable(limit: nat, es: seq<LinkEvent>)
    ensures Consistent(Run(Initial(limit), es)) && Run(Initial(limit), es).retryLimit == limit
  {
    if es != [] {
      Reachable(limit, es[..|es| - 1]);
    }
  }

  /** The state after `n` consecutive failures of a healthy link with the given limit. */
  function AfterFailures(limit: nat, n: nat): CommState
  {
    if n == 0 then CommHealthy
    else if n <= Max(1, limit) then Retry
    else if n == Max(2, limit + 1) then Degraded
    else CommFault
  }

  lemma {:induction false} FailureRun(l: Link, n: nat)
    requires l.state == CommHealthy && l.failures == 0
    ensures var r := Run(l, Failures(n));
      r.state == AfterFailures(l.retryLimit, n) && r.failures == n && r.retryLimit == l.retryLimit
  {
    if n > 0 {
      assert Failures(n)[..n - 1] == Failures(n - 1);
      FailureRun(l, n - 1);
    }
  }

  /** Closed form: from any healthy state ever reached, only the number of failures since matters. */
  lemma ClosedForm(limit: nat, es: seq<LinkEvent>, n: nat)
    requires Run(Initial(limit), es).state == CommHealthy
    ensures Run(Run(Initial(limit), es), Failures(n)).state == AfterFailures(limit, n)
  {
    Reachable(limit, es);
    FailureRun(Run(Initial(limit), es), n);
  }

  lemma {:induction false} FaultIsSticky(l: Link, n: nat)
    requires l.state == CommFault
    ensures Run(l, Failures(n)).state == CommFault
  {
    if n > 0 {
      assert Failures(n)[..n - 1] == Failures(n - 1);
      FaultIsSticky(l, n - 1);
    }
  }

  lemma {:induction false} RunTail(l: Link, n: nat)
    requires n > 0
    ensures Run(l, Failures(n)) == Run(OnFailure(l), Failures(n - 1))
  {
    assert Failures(n)[..n - 1] == Failures(n - 1);
    if n > 1 {
      RunTail(l, n - 1);
      assert Failures(n - 1)[..n - 2] == Failures(n - 2);
    } else {
      assert Run(l, Failures(0)) == l;
    }
  }

  lemma {:induction false} RetryToFault(l: Link, n: nat)
    requires l.state == Retry && l.failures >= 1 && n >= 2
    requires n + l.failures >= Max(3, l.retryLimit + 2)
    ensures Run(l, Failures(n)).state == CommFault
    decreases n
  {
    RunTail(l, n);
    var l1 := OnFailure(l);
    if l1.state == Degraded {
      RunTail(l1, n - 1);
      FaultIsSticky(OnFailure(l1), n - 2);
    } else {
      RetryToFault(l1, n - 1);
    }
  }

  /** From any reachable state that many failures end in a communication fault. */
  lemma AlwaysFaultsInTheEnd(limit: nat, es: seq<LinkEvent>, n: nat)
    requires n >= Max(3, limit + 2)
    ensures Run(Run(Initial(limit), es), Failures(n)).state == CommFault
  {
    var l := Run(Initial(limit), es);
    Reachable(limit, es);
    RunTail(l, n);
    var l1 := OnFailure(l);
    match l.state {
      case CommHealthy => FailureRun(l, n);
      case Retry => RetryToFault(l, n);
      case Degraded => FaultIsSticky(l1, n - 1);
      case CommFault => FaultIsSticky(l, n);
      case Recovery => FaultIsSticky(l1, n - 1);
    }
  }

  /** Any two successes in a row restore health, and from a fault one is not enough. */
  lemma TwoSuccessesHeal(l: Link)
    ensures OnSuccess(OnSuccess(l)).state == CommHealthy
    ensures OnSuccess(l).state == CommHealthy <==> l.state != CommFault
  {
  }

  // ---------- history ----------

  /** Consecutive entries of a legal path from `start` to `end`, each legal and correctly numbered. */
  predicate LinkedPath(h: seq<CommTransition>, first: nat, start: CommState, end: CommState)
    decreases h
  {
    if h == [] then start == end
    else
      var last := h[|h| - 1];
      && last.toState == end && last.toState in Transitions(last.fromState)
      && last.atIndex == first + |h| - 1
      && LinkedPath(h[..|h| - 1], first, start, last.fromState)
  }

  lemma StepHistory(l: Link, e: LinkEvent)
    requires e != WasReset
    ensures var r := Step(l, e);
      || (r.history == l.history && r.state == l.state)
      || (r.history == l.history + [CommTransition(l.state, r.state, |l.history|)] && r.state in Transitions(l.state))
  {
  }

  lemma ExtendPath(h: seq<CommTransition>, first: nat, start: CommState, middle: CommState, end: CommState)
    requires LinkedPath(h, first, start, middle) && end in Transitions(middle)
    ensures LinkedPath(h + [CommTransition(middle, end, first + |h|)], first, start, end)
  {
    assert (h + [CommTransition(middle, end, first + |h|)])[..|h|] == h;
  }

  /** The history has grown from that of `l` by one legal path to the present state. */
  predicate GrownPath(l: Link, r: Link)
  {
    && |r.history| >= |l.history| && r.history[..|l.history|] == l.history
    && LinkedPath(r.history[|l.history|..], |l.history|, l.state, r.state)
  }

  lemma StepPath(l: Link, m: Link, e: LinkEvent)
    requires e != WasReset && GrownPath(l, m)
    ensures GrownPath(l, Step(m, e))
  {
    var n, r := |l.history|, Step(m, e);
    StepHistory(m, e);
    if r.history != m.history {
      var entry := CommTransition(m.state, r.state, |m.history|);
      assert r.history == m.history + [entry];
      ExtendPath(m.history[n..], n, l.state, m.state, r.state);
      assert r.history[n..] == m.history[n..] + [entry] && r.history[..n] == m.history[..n];
    }
  }

  /** Between resets the entries added to the history form one legal path ending in the current state. */
  lemma {:induction false} HistoryIsAPath(l: Link, es: seq<LinkEvent>)
    requires WasReset !in es
    ensures GrownPath(l, Run(l, es))
  {
    if es == [] {
      assert l.history[|l.history|..] == [];
    } else {
      HistoryIsAPath(l, es[..|es| - 1]);
      StepPath(l, Run(l, es[..|es| - 1]), es[|es| - 1]);
    }
  }

  /** The whole history of a link is one legal path from healthy to its state. */
  predicate Linked(l: Link)
  {
    LinkedPath(l.history, 0, CommHealthy, l.state)
  }

  /** The state is healthy or the one the last history entry led to. */
  predicate Tracked(l: Link)
  {
    l.state == CommHealthy || (l.history != [] && l.history[|l.history| - 1].toState == l.state)
  }

  lemma StepLinked(l: Link, e: LinkEvent)
    requires Tracked(l)
    ensures Tracked(Step(l, e))
    ensures Linked(Step(l, e)) <==> Linked(l) && (e == WasReset ==> l.state == CommHealthy)
  {
    if e != WasReset {
      var r := Step(l, e);
      StepHistory(l, e);
      if r.history != l.history {
        assert r.history[..|l.history|] == l.history;
      }
    }
  }

  /** No reset of the run found the link unhealthy. */
  predicate ResetsOnlyHealthy(l: Link, es: seq<LinkEvent>)
  {
    forall i :: 0 <= i < |es| && es[i] == WasReset ==> Run(l, es[..i]).state == CommHealthy
  }

  lemma ResetsSoFar(l: Link, es: seq<LinkEvent>)
    requires es != []
    ensures var before, last := es[..|es| - 1], es[|es| - 1];
      ResetsOnlyHealthy(l, es)
      <==> ResetsOnlyHealthy(l, before) && (last == WasReset ==> Run(l, before).state == CommHealthy)
  {
    var before := es[..|es| - 1];
    assert forall i :: 0 <= i < |before| ==> before[..i] == es[..i] && before[i] == es[i];
    if ResetsOnlyHealthy(l, es) {
      forall i | 0 <= i < |before| && before[i] == WasReset
        ensures Run(l, before[..i]).state == CommHealthy
      {
        assert es[i] == WasReset;
      }
    }
  }

  /**
   Exactly when the history is one legal path: a reset moves to healthy without leaving a trace, so the path is
   broken for good by the first reset of a link that is not healthy, and by nothing else.
   */
  lemma {:induction false} HistoryIsLinkedIff(limit: nat, es: seq<LinkEvent>)
    ensures Tracked(Run(Initial(limit), es))
    ensures Linked(Run(Initial(limit), es)) <==> ResetsOnlyHealthy(Initial(limit), es)
  {
    if es != [] {
      var before := es[..|es| - 1];
      HistoryIsLinkedIff(limit, before);
      StepLinked(Run(Initial(limit), before), es[|es| - 1]);
      ResetsSoFar(Initial(limit), es);
    }
  }

  /** A run whose history is not linked: its third entry does not start where its second one ends. */
  lemma ResetLeavesNoTrace()
    ensures Run(Initial(0), [Failure, Failure, WasReset, Failure]).history
         == [CommTransition(CommHealthy, Retry, 0), CommTransition(Retry, Degraded, 1),
             CommTransition(CommHealthy, Retry, 2)]
    ensures !Linked(Run(Initial(0), [Failure, Failure, WasReset, Failure]))
  {
    var l, es := Initial(0), [Failure, Failure, WasReset, Failure];
    assert es[..3] == [Failure, Failure, WasReset] && es[..3][..2] == es[..2] == [Failure, Failure];
    assert es[..2][..1] == [Failure];
    assert Run(l, [Failure]) == OnFailure(l);
    assert Run(l, es[..2]) == OnFailure(OnFailure(l));
    assert Run(l, es[..3]) == OnReset(OnFailure(OnFailure(l)));
    HistoryIsLinkedIff(0, es);
    assert es[2] == WasReset;
  }
}
