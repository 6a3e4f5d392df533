/** Store-and-forward: pending records are offered to an upstream link that may answer anything at any time. */
module Forwarding {
  import opened Wrappers
  import opened Sorting
  import opened Storage

  /** What the link does with one record: not reachable, or reached and accepting or refusing. */
  datatype Answer = Unavailable | Accepted | Refused

  /** The upstream link is an arbitrary oracle; where its answers run out it counts as unreachable. */
  function First(answers: seq<Answer>): Answer
  {
    if answers == [] then Unavailable else answers[0]
  }

  function Rest(answers: seq<Answer>): seq<Answer>
  {
    if answers == [] then [] else answers[1..]
  }

  /** The offered records the link accepted, in order. */
  function AcceptedOf(offered: seq<nat>, answers: seq<Answer>): seq<nat>
    decreases offered
  {
    if offered == [] then []
    else (if First(answers) == Accepted then [offered[0]] else []) + AcceptedOf(offered[1..], Rest(answers))
  }

  /** The offered records that stay queued, in order. */
  function StillPending(offered: seq<nat>, answers: seq<Answer>): seq<nat>
    decreases offered
  {
    if offered == [] then []
    else (if First(answers) == Accepted then [] else [offered[0]]) + StillPending(offered[1..], Rest(answers))
  }

  /** A record after it was offered. */
  function Offered(r: Record, a: Answer): Record
  {
    match a
    case Unavailable => r
    case Accepted => r.(attempts := r.attempts + 1, state := Retained)
    case Refused => r.(attempts := r.attempts + 1, state := Uploaded)
  }

  lemma {:induction false} Split(offered: seq<nat>, answers: seq<Answer>, s: nat)
    ensures s in offered <==> s in AcceptedOf(offered, answers) || s in StillPending(offered, answers)
    decreases offered
  {
    if offered != [] {
      Split(offered[1..], Rest(answers), s);
      assert s in offered <==> s == offered[0] || s in offered[1..];
    }
  }

  lemma {:induction false} SplitSizes(offered: seq<nat>, answers: seq<Answer>)
    ensures |AcceptedOf(offered, answers)| + |StillPending(offered, answers)| == |offered|
    decreases offered
  {
    if offered != [] {
      SplitSizes(offered[1..], Rest(answers));
    }
  }

  predicate AllAbove(x: nat, q: seq<nat>)
  {
    forall i :: 0 <= i < |q| ==> x < q[i]
  }

  lemma {:induction false} SplitAbove(x: nat, offered: seq<nat>, answers: seq<Answer>)
    requires AllAbove(x, offered)
    ensures AllAbove(x, AcceptedOf(offered, answers)) && AllAbove(x, StillPending(offered, answers))
    decreases offered
  {
    if offered != [] {
      assert x < offered[0];
      assert AllAbove(x, offered[1..]) by {
        assert forall i :: 0 <= i < |offered| - 1 ==> offered[1..][i] == offered[i + 1];
      }
      SplitAbove(x, offered[1..], Rest(answers));
      AbovePrefix(x, offered[0], AcceptedOf(offered[1..], Rest(answers)));
      AbovePrefix(x, offered[0], StillPending(offered[1..], Rest(answers)));
    }
  }

  lemma AbovePrefix(x: nat, y: nat, q: seq<nat>)
    requires x < y && AllAbove(x, q)
    ensures AllAbove(x, [y] + q) && [] + q == q
  {
  }

  lemma IncreasingTail(q: seq<nat>)
    requires Increasing(q) && q != []
    ensures Increasing(q[1..]) && AllAbove(q[0], q[1..])
  {
    assert forall i :: 0 <= i < |q| - 1 ==> q[1..][i] == q[i + 1];
  }

  lemma AbovePrepend(x: nat, q: seq<nat>)
    requires Increasing(q) && AllAbove(x, q)
    ensures Increasing([x] + q)
  {
  }

  lemma {:induction false} SplitIncreasing(offered: seq<nat>, answers: seq<Answer>)
    requires Increasing(offered)
    ensures Increasing(AcceptedOf(offered, answers)) && Increasing(StillPending(offered, answers))
    decreases offered
  {
    if offered != [] {
      var a, p := AcceptedOf(offered[1..], Rest(answers)), StillPending(offered[1..], Rest(answers));
      IncreasingTail(offered);
      SplitIncreasing(offered[1..], Rest(answers));
      SplitAbove(offered[0], offered[1..], Rest(answers));
      if First(answers) == Accepted {
        AbovePrepend(offered[0], a);
        assert StillPending(offered, answers) == p;
      } else {
        AbovePrepend(offered[0], p);
        assert AcceptedOf(offered, answers) == a;
      }
    }
  }

  lemma {:induction false} SplitDisjoint(offered: seq<nat>, answers: seq<Answer>, s: nat)
    requires Increasing(offered) && s in AcceptedOf(offered, answers)
    ensures s !in StillPending(offered, answers)
    decreases offered
  {
    var a, p := AcceptedOf(offered[1..], Rest(answers)), StillPending(offered[1..], Rest(answers));
    IncreasingTail(offered);
    SplitAbove(offered[0], offered[1..], Rest(answers));
    if s in a {
      SplitDisjoint(offered[1..], Rest(answers), s);
      var i :| 0 <= i < |a| && a[i] == s;
    } else {
      assert First(answers) == Accepted && s == offered[0] && StillPending(offered, answers) == p;
    }
  }

  // ---------- one pass over the queue ----------

  datatype Pass = Pass(records: Records, queue: seq<nat>, uploaded: nat, failed: nat)

  function Offer(p: Pass, s: nat, a: Answer): Pass
  {
    var records := if s in p.records then p.records[s := Offered(p.records[s], a)] else p.records;
    if a == Accepted then Pass(records, Keep(p.queue, {s}), p.uploaded + 1, p.failed)
    else Pass(records, p.queue, p.uploaded, p.failed + 1)
  }

  function OfferAll(p: Pass, todo: seq<nat>, answers: seq<Answer>): Pass
    decreases todo
  {
    if todo == [] then p else OfferAll(Offer(p, todo[0], First(answers)), todo[1..], Rest(answers))
  }

  lemma {:induction false} KeepConcat(a: seq<nat>, b: seq<nat>, drop: set<nat>)
    ensures Keep(a + b, drop) == Keep(a, drop) + Keep(b, drop)
  {
    if a == [] {
      assert a + b == b;
    } else {
      assert (a + b)[1..] == a[1..] + b;
      KeepConcat(a[1..], b, drop);
    }
  }

  lemma KeepAround(kept: seq<nat>, s: nat, rest: seq<nat>)
    requires (forall i :: 0 <= i < |kept| ==> kept[i] != s) && forall i :: 0 <= i < |rest| ==> rest[i] != s
    ensures Keep(kept + ([s] + rest), {s}) == kept + rest
  {
    KeepConcat(kept, [s] + rest, {s});
    KeepAll(kept, {s});
    KeepAll(rest, {s});
    assert ([s] + rest)[1..] == rest;
    assert Keep([s] + rest, {s}) == [] + rest == rest;
  }

  /** Confirming the next record of the snapshot takes it out from between those passed over and those to come. */
  lemma ConfirmNext(kept: seq<nat>, s: nat, rest: seq<nat>)
    requires Increasing(kept + [s] + rest)
    ensures Keep(kept + [s] + rest, {s}) == kept + rest
  {
    var q := kept + [s] + rest;
    forall i | 0 <= i < |kept|
      ensures kept[i] != s
    {
      assert q[i] < q[|kept|];
    }
    forall i | 0 <= i < |rest|
      ensures rest[i] != s
    {
      assert q[|kept|] < q[|kept| + 1 + i];
    }
    KeepAround(kept, s, rest);
    assert kept + [s] + rest == kept + ([s] + rest);
  }

  lemma {:induction false} QueueAfterPass(p: Pass, kept: seq<nat>, todo: seq<nat>, answers: seq<Answer>)
    requires p.queue == kept + todo && Increasing(p.queue)
    ensures OfferAll(p, todo, answers).queue == kept + StillPending(todo, answers)
    decreases todo
  {
    if todo != [] {
      var s, a := todo[0], First(answers);
      var rest := StillPending(todo[1..], Rest(answers));
      assert kept + todo == kept + [s] + todo[1..];
      if a == Accepted {
        ConfirmNext(kept, s, todo[1..]);
        RemoveKeepsOrder(kept, s, todo[1..]);
        QueueAfterPass(Offer(p, s, a), kept, todo[1..], Rest(answers));
        assert StillPending(todo, answers) == rest;
      } else {
        QueueAfterPass(Offer(p, s, a), kept + [s], todo[1..], Rest(answers));
        assert kept + [s] + rest == kept + ([s] + rest);
      }
    }
  }

  lemma {:induction false} CountsAfterPass(p: Pass, todo: seq<nat>, answers: seq<Answer>)
    ensures var r := OfferAll(p, todo, answers);
      && r.uploaded == p.uploaded + |AcceptedOf(todo, answers)|
      && r.uploaded + r.failed == p.uploaded + p.failed + |todo|
      && r.records.Keys == p.records.Keys
    decreases todo
  {
    if todo != [] {
      CountsAfterPass(Offer(p, todo[0], First(answers)), todo[1..], Rest(answers));
    }
  }

  lemma RemoveKeepsOrder(kept: seq<nat>, s: nat, rest: seq<nat>)
    requires Increasing(kept + [s] + rest)
    ensures Increasing(kept + rest)
  {
    var q, r := kept + [s] + rest, kept + rest;
    assert forall i :: 0 <= i < |r| ==> r[i] == q[if i < |kept| then i else i + 1];
  }

  /** The pass leaves alone every record it does not offer. */
  lemma {:induction false} NotOffered(p: Pass, todo: seq<nat>, answers: seq<Answer>, s: nat)
    requires s in p.records && s !in todo
    ensures s in OfferAll(p, todo, answers).records && OfferAll(p, todo, answers).records[s] == p.records[s]
    decreases todo
  {
    if todo != [] {
      NotOffered(Offer(p, todo[0], First(answers)), todo[1..], Rest(answers), s);
    }
  }

  /** ... and touches each offered one once, as its answer says. */
  lemma {:induction false} OfferedOnce(p: Pass, todo: seq<nat>, answers: seq<Answer>, i: nat)
    requires i < |todo| && todo[i] in p.records && Increasing(todo)
    ensures var r, s := OfferAll(p, todo, answers), todo[i];
      s in r.records
      && r.records[s] == Offered(p.records[s], if i < |answers| then answers[i] else Unavailable)
    decreases todo
  {
    var p1 := Offer(p, todo[0], First(answers));
    IncreasingTail(todo);
    if i == 0 {
      NotOffered(p1, todo[1..], Rest(answers), todo[0]);
    } else {
      assert todo[1..][i - 1] == todo[i] && todo[i] != todo[0];
      OfferedOnce(p1, todo[1..], Rest(answers), i - 1);
    }
  }

  method OfferOne(store: RecordStore, s: nat, answer: Answer) returns (accepted: bool)
    requires store.Valid() && s in store.records
    modifies store`records, store`pendingUpload
    ensures store.Valid()
    ensures accepted <==> answer == Accepted
    ensures answer == Unavailable ==> store.records == old(store.records)
    ensures answer != Unavailable ==>
      var o := old(store.records)[s];
      var after := o.(attempts := o.attempts + 1, state := if answer == Accepted then Retained else Uploaded);
      store.records == old(store.records)[s := after]
    ensures store.records == old(store.records)[s := Offered(old(store.records)[s], answer)]
    ensures store.pendingUpload == if accepted then Keep(old(store.pendingUpload), {s}) else old(store.pendingUpload)
  {
    if answer == Unavailable {
      assert store.records == store.records[s := store.records[s]];
      return false;
    }
    var marked := store.MarkUploaded(s);
    if answer == Accepted {
      marked := store.MarkConfirmed(s);
      return true;
    }
    return false;
  }

  /**
   Offer every pending record once.  Exactly the accepted ones leave the queue, every record stays in the store,
   and each upload that was tried either succeeded and was confirmed or failed.
   */
  method ForwardUpstream(store: RecordStore, answers: seq<Answer>)
    returns (uploaded: nat, confirmed: nat, failed: nat)
    requires store.Valid()
    modifies store`records, store`pendingUpload
    ensures store.Valid()
    ensures store.records == OfferAll(Pass(old(store.records), old(store.pendingUpload), 0, 0),
                                      old(store.pendingUpload), answers).records
    ensures store.records.Keys == old(store.records).Keys
    ensures store.pendingUpload == StillPending(old(store.pendingUpload), answers)
    ensures uploaded == confirmed == |AcceptedOf(old(store.pendingUpload), answers)|
    ensures uploaded + failed == |old(store.pendingUpload)|
  {
    uploaded, confirmed, failed := 0, 0, 0;
    var snapshot := store.pendingUpload;
    var left := answers;
    ghost var start := Pass(store.records, snapshot, 0, 0);
    ghost var goal, pass := OfferAll(start, snapshot, answers), start;
    assert snapshot[0..] == snapshot;
    var i := 0;
    while i < |snapshot|
      invariant i <= |snapshot| && store.Valid()
      invariant store.records == pass.records && store.pendingUpload == pass.queue
      invariant uploaded == pass.uploaded && failed == pass.failed
      invariant OfferAll(pass, snapshot[i..], left) == goal
      invariant confirmed == uploaded
      invariant forall j :: 0 <= j < |snapshot| ==> snapshot[j] in store.records
    {
      var s := snapshot[i];
      assert snapshot[i..][0] == s && snapshot[i..][1..] == snapshot[i + 1..];
      var accepted := OfferOne(store, s, First(left));
      if accepted {
        uploaded, confirmed := uploaded + 1, confirmed + 1;
      } else {
        failed := failed + 1;
      }
      pass := Offer(pass, s, First(left));
      left := Rest(left);
      i := i + 1;
    }
    assert snapshot[i..] == [];
    assert [] + snapshot == snapshot;
    QueueAfterPass(start, [], snapshot, answers);
    CountsAfterPass(start, snapshot, answers);
  }

  // ---------- runs ----------

  /** What a run of creations and uploads leaves: how many were created, which are queued, which were accepted. */
  datatype Ledger = Ledger(created: nat, queue: seq<nat>, accepted: seq<nat>)

  const EMPTY := Ledger(0, [], [])

  datatype Op = Create | Forward(answers: seq<Answer>)

  /** Nothing is ever removed from the store by these operations, so it is full once `capacity` were created. */
  function Step(capacity: Option<nat>, l: Ledger, op: Op): Ledger
  {
    match op
    case Create =>
      if capacity.Some? && l.created >= capacity.value then l
      else l.(created := l.created + 1, queue := l.queue + [l.created + 1])
    case Forward(answers) =>
      l.(queue := StillPending(l.queue, answers), accepted := l.accepted + AcceptedOf(l.queue, answers))
  }

  function Run(capacity: Option<nat>, ops: seq<Op>): Ledger
  {
    if ops == [] then EMPTY else Step(capacity, Run(capacity, ops[..|ops| - 1]), ops[|ops| - 1])
  }

  /** Accepted and pending records partition the created ones, and nothing was accepted twice. */
  ghost predicate Partitioned(l: Ledger)
  {
    && Increasing(l.queue)
    && (forall i, j :: 0 <= i < j < |l.accepted| ==> l.accepted[i] != l.accepted[j])
    && (forall s :: 1 <= s <= l.created <==> s in l.accepted || s in l.queue)
    && (forall s :: s in l.accepted ==> s !in l.queue)
    && |l.accepted| + |l.queue| == l.created
  }

  lemma ForwardPartitions(l: Ledger, answers: seq<Answer>)
    requires Partitioned(l)
    ensures Partitioned(Step(None, l, Forward(answers)))
  {
    var a, p := AcceptedOf(l.queue, answers), StillPending(l.queue, answers);
    SplitIncreasing(l.queue, answers);
    SplitSizes(l.queue, answers);
    forall s: nat
      ensures s in l.queue <==> s in a || s in p
    {
      Split(l.queue, answers, s);
    }
    forall s | s in a
      ensures s !in p
    {
      SplitDisjoint(l.queue, answers, s);
    }
    assert forall i :: 0 <= i < |a| ==> a[i] in a;
    assert forall i :: 0 <= i < |l.accepted| ==> l.accepted[i] in l.accepted;
  }

  /** Over every run, against every upstream: each record is uploaded at most once and none is lost. */
  lemma {:induction false} UploadedAtMostOnce(capacity: Option<nat>, ops: seq<Op>)
    ensures Partitioned(Run(capacity, ops))
    ensures capacity.Some? ==> Run(capacity, ops).created <= capacity.value
  {
    if ops != [] {
      var before, op := ops[..|ops| - 1], ops[|ops| - 1];
      UploadedAtMostOnce(capacity, before);
      var l := Run(capacity, before);
      if op.Forward? {
        ForwardPartitions(l, op.answers);
      } else {
        CreatePartitions(l);
      }
    }
  }

  lemma CreatePartitions(l: Ledger)
    requires Partitioned(l)
    ensures Partitioned(Step(None, l, Create))
  {
    var l' := Step(None, l, Create);
    assert forall i :: 0 <= i < |l.queue| ==> l.queue[i] in l.queue;
    forall s: int
      ensures 1 <= s <= l'.created <==> s in l'.accepted || s in l'.queue
    {
      assert s in l'.queue <==> s in l.queue || s == l.created + 1;
    }
  }

  // ---------- the store follows the ledger ----------

  /** 1 to `n`. */
  function Numbers(n: nat): (r: set<nat>)
    ensures |r| == n && forall s :: s in r <==> 1 <= s <= n
  {
    if n == 0 then {} else Numbers(n - 1) + {n}
  }

  function RetainedOf(records: Records): set<nat>
  {
    set s | s in records && records[s].state == Retained
  }

  /** The records are numbered 1 to `created`, none missing, and the retained ones are the accepted ones. */
  predicate Describes(l: Ledger, records: Records)
  {
    records.Keys == Numbers(l.created) && RetainedOf(records) == Elements(l.accepted)
  }

  ghost predicate Reached(capacity: Option<nat>, l: Ledger)
  {
    exists ops :: Run(capacity, ops) == l
  }

  /** What a store comes down to: its last number, its queue, and which records it has, retains and finds bad. */
  datatype Picture = Picture(created: nat, queue: seq<nat>, numbers: set<nat>, retained: set<nat>, bad: set<nat>)

  function PictureOf(hash: Hash, records: Records, queue: seq<nat>, sequence: nat): Picture
  {
    Picture(sequence, queue, records.Keys, RetainedOf(records), BadOf(hash, records))
  }

  /** The records are numbered 1 to `created`, none missing, the retained ones are the accepted ones, none is bad. */
  function Drawn(l: Ledger): Picture
  {
    Picture(l.created, l.queue, Numbers(l.created), Elements(l.accepted), {})
  }

  /** The store is what the ledger of some run describes. */
  ghost predicate Shows(store: RecordStore, l: Ledger)
    reads store
  {
    && store.Valid() && !store.powerLost && Reached(store.capacity, l)
    && PictureOf(store.hash, store.records, store.pendingUpload, store.sequence) == Drawn(l)
  }

  /** Nothing bad is added, and offering a record leaves its content, code and commit marker alone. */
  lemma AddedPasses(hash: Hash, records: Records, n: nat, r: Record)
    requires BadOf(hash, records) == {} && PassesCheck(hash, r)
    ensures BadOf(hash, records[n := r]) == {}
  {
    var after := records[n := r];
    forall s | s in after
      ensures IsValid(hash, after[s])
    {
      assert s != n ==> s !in BadOf(hash, records);
    }
  }

  lemma {:induction false} OfferedPass(hash: Hash, p: Pass, todo: seq<nat>, answers: seq<Answer>)
    requires BadOf(hash, p.records) == {}
    ensures BadOf(hash, OfferAll(p, todo, answers).records) == {}
    decreases todo
  {
    if todo != [] {
      var s := todo[0];
      if s in p.records {
        assert s !in BadOf(hash, p.records);
        AddedPasses(hash, p.records, s, Offered(p.records[s], First(answers)));
      }
      OfferedPass(hash, Offer(p, s, First(answers)), todo[1..], Rest(answers));
    }
  }

  lemma StepReached(capacity: Option<nat>, l: Ledger, op: Op)
    requires Reached(capacity, l)
    ensures Reached(capacity, Step(capacity, l, op))
  {
    var ops :| Run(capacity, ops) == l;
    assert (ops + [op])[..|ops|] == ops;
    assert Run(capacity, ops + [op]) == Step(capacity, l, op);
  }

  lemma ReachedIsPartitioned(capacity: Option<nat>, l: Ledger)
    requires Reached(capacity, l)
    ensures Partitioned(l)
  {
    var ops :| Run(capacity, ops) == l;
    UploadedAtMostOnce(capacity, ops);
  }

  lemma AddOne(records: Records, n: nat, r: Record)
    requires records.Keys == Numbers(n) && r.state != Retained
    ensures |records| == n && records[n + 1 := r].Keys == Numbers(n + 1)
    ensures RetainedOf(records[n + 1 := r]) == RetainedOf(records)
  {
    assert |records| == |records.Keys|;
    assert n + 1 !in records.Keys;
    assert records[n + 1 := r].Keys == records.Keys + {n + 1};
  }

  lemma CreateDescribed(capacity: Option<nat>, l: Ledger, hash: Hash, records: Records, c: Content)
    requires Reached(capacity, l) && PictureOf(hash, records, l.queue, l.created) == Drawn(l)
    ensures |records| == l.created && Reached(capacity, Step(capacity, l, Create))
    ensures Step(capacity, l, Create) != l ==>
      PictureOf(hash, records[l.created + 1 := Fresh(hash, c)], l.queue + [l.created + 1], l.created + 1)
      == Drawn(Step(capacity, l, Create))
  {
    StepReached(capacity, l, Create);
    FreshPasses(hash, c);
    AddOne(records, l.created, Fresh(hash, c));
    AddedPasses(hash, records, l.created + 1, Fresh(hash, c));
  }

  /** What a creation, carried out or refused, makes of the picture. */
  lemma CreateOutcome(capacity: Option<nat>, l: Ledger, hash: Hash, records: Records, c: Content, created: bool,
                      after: Records, queue: seq<nat>, sequence: nat)
    requires Reached(capacity, l) && PictureOf(hash, records, l.queue, l.created) == Drawn(l)
    requires created <==> (capacity.Some? ==> |records| < capacity.value)
    requires if created
             then after == records[l.created + 1 := Fresh(hash, c)] && queue == l.queue + [sequence]
                  && sequence == l.created + 1
             else after == records && queue == l.queue && sequence == l.created
    ensures Reached(capacity, Step(capacity, l, Create))
    ensures PictureOf(hash, after, queue, sequence) == Drawn(Step(capacity, l, Create))
  {
    CreateDescribed(capacity, l, hash, records, c);
    if created {
      assert Step(capacity, l, Create).created == l.created + 1;
    }
  }

  lemma {:induction false} AcceptedAt(offered: seq<nat>, answers: seq<Answer>, i: nat)
    requires Increasing(offered) && i < |offered|
    ensures offered[i] in AcceptedOf(offered, answers)
       <==> (if i < |answers| then answers[i] else Unavailable) == Accepted
    decreases offered
  {
    var rest := AcceptedOf(offered[1..], Rest(answers));
    IncreasingTail(offered);
    if i == 0 {
      SplitAbove(offered[0], offered[1..], Rest(answers));
    } else {
      assert offered[1..][i - 1] == offered[i] && offered[i] != offered[0];
      AcceptedAt(offered[1..], Rest(answers), i - 1);
    }
  }

  lemma OfferedRetained(l: Ledger, records: Records, answers: seq<Answer>, s: nat)
    requires Partitioned(l) && Describes(l, records) && s in records
    ensures var after := OfferAll(Pass(records, l.queue, 0, 0), l.queue, answers).records;
      s in after && (after[s].state == Retained <==> s in l.accepted || s in AcceptedOf(l.queue, answers))
  {
    var start := Pass(records, l.queue, 0, 0);
    assert s in RetainedOf(records) <==> s in Elements(l.accepted);
    if s in l.queue {
      var i :| 0 <= i < |l.queue| && l.queue[i] == s;
      OfferedOnce(start, l.queue, answers, i);
      AcceptedAt(l.queue, answers, i);
    } else {
      NotOffered(start, l.queue, answers, s);
      Split(l.queue, answers, s);
    }
  }

  lemma ForwardDescribed(capacity: Option<nat>, l: Ledger, hash: Hash, records: Records, answers: seq<Answer>)
    requires Reached(capacity, l) && Describes(l, records) && BadOf(hash, records) == {}
    ensures var after := OfferAll(Pass(records, l.queue, 0, 0), l.queue, answers).records;
      PictureOf(hash, after, StillPending(l.queue, answers), l.created) == Drawn(Step(capacity, l, Forward(answers)))
    ensures Reached(capacity, Step(capacity, l, Forward(answers)))
  {
    var after := OfferAll(Pass(records, l.queue, 0, 0), l.queue, answers).records;
    OfferedPass(hash, Pass(records, l.queue, 0, 0), l.queue, answers);
    var accepted := AcceptedOf(l.queue, answers);
    StepReached(capacity, l, Forward(answers));
    ReachedIsPartitioned(capacity, l);
    CountsAfterPass(Pass(records, l.queue, 0, 0), l.queue, answers);
    forall s: nat
      ensures s in RetainedOf(after) <==> s in Elements(l.accepted + accepted)
    {
      assert s in after <==> s in records.Keys;
      if s in records {
        OfferedRetained(l, records, answers, s);
      } else {
        Split(l.queue, answers, s);
        assert s !in Numbers(l.created);
      }
    }
  }

  /** What a caller does to the store: create a record or forward the queue. */
  datatype Call =
    | Make(recordType: RecordType, payload: Payload, ticks: int, device: string)
    | Send(answers: seq<Answer>)

  function OpOf(c: Call): Op
  {
    match c
    case Make(_, _, _, _) => Create
    case Send(answers) => Forward(answers)
  }

  function OpsOf(calls: seq<Call>): seq<Op>
  {
    seq(|calls|, i requires 0 <= i < |calls| => OpOf(calls[i]))
  }

  method MakeOne(store: RecordStore, ghost l: Ledger, recordType: RecordType, payload: Payload, ticks: int,
                 device: string)
    requires Shows(store, l)
    modifies store`records, store`pendingUpload, store`sequence, store`full
    ensures Shows(store, Step(store.capacity, l, Create))
  {
    ghost var records, c := store.records, Content(store.sequence + 1, ticks, recordType, payload, device);
    var outcome := store.Create(recordType, payload, ticks, device);
    CreateOutcome(store.capacity, l, store.hash, records, c, outcome.Ok?, store.records, store.pendingUpload,
                  store.sequence);
  }

  method SendAll(store: RecordStore, ghost l: Ledger, answers: seq<Answer>)
    requires Shows(store, l)
    modifies store`records, store`pendingUpload
    ensures Shows(store, Step(store.capacity, l, Forward(answers)))
  {
    ForwardDescribed(store.capacity, l, store.hash, store.records, answers);
    var uploaded, confirmed, failed := ForwardUpstream(store, answers);
  }

  /**
   Any sequence of creations and forwards, against any upstream, leaves the store the ledger describes: every record
   ever created is still in it, under its number, it is retained exactly if it was accepted, and accepted and queued
   records partition the created ones.
   */
  method Play(store: RecordStore, calls: seq<Call>)
    requires Shows(store, EMPTY)
    modifies store`records, store`pendingUpload, store`sequence, store`full
    ensures Shows(store, Run(store.capacity, OpsOf(calls)))
    ensures Partitioned(Run(store.capacity, OpsOf(calls)))
    decreases |calls|
  {
    UploadedAtMostOnce(store.capacity, OpsOf(calls));
    if calls == [] {
      return;
    }
    var n := |calls| - 1;
    Play(store, calls[..n]);
    ghost var l := Run(store.capacity, OpsOf(calls[..n]));
    assert OpsOf(calls)[..n] == OpsOf(calls[..n]);
    match calls[n] {
      case Make(recordType, payload, ticks, device) => MakeOne(store, l, recordType, payload, ticks, device);
      case Send(answers) => SendAll(store, l, answers);
    }
  }

  /** A power loss after any such run costs nothing: no record is incomplete and recovery discards none. */
  method CrashAndRecover(store: RecordStore, ghost l: Ledger) returns (incomplete: seq<nat>, discarded: seq<Record>)
    requires Shows(store, l)
    modifies store`powerLost, store`records, store`pendingUpload
    ensures Shows(store, l) && incomplete == [] && discarded == []
    ensures store.records == old(store.records) && store.pendingUpload == old(store.pendingUpload)
  {
    AllPass(store.hash, store.records);
    NothingDiscarded(store.hash, store.records, store.pendingUpload, Sorted(store.records.Keys, Less));
    incomplete := store.SimulatePowerLoss();
    NoneUncommitted(store.hash, store.records, Sorted(store.records.Keys, Less));
    discarded := store.Recover();
  }

  lemma AllPass(hash: Hash, records: Records)
    requires BadOf(hash, records) == {}
    ensures forall s :: s in records ==> PassesCheck(hash, records[s])
  {
    assert forall s :: s in records ==> s !in BadOf(hash, records);
  }

  lemma {:induction false} NoneUncommitted(hash: Hash, records: Records, todo: seq<nat>)
    requires forall s :: s in records ==> PassesCheck(hash, records[s])
    ensures Uncommitted(records, todo) == []
  {
    if todo != [] {
      NoneUncommitted(hash, records, todo[1..]);
    }
  }

  lemma DamageUnseen(hash: Hash, records: Records, q: seq<nat>, s: nat, damaged: Record)
    requires BadOf(hash, records) == {} && s in records && PassesCheck(hash, damaged)
    ensures var after := records[s := damaged];
      Recovered(hash, after, q, Swept(after, q, []))
  {
    var after := records[s := damaged];
    AddedPasses(hash, records, s, damaged);
    AllPass(hash, after);
    NothingDiscarded(hash, after, q, Sorted(after.Keys, Less));
  }

  lemma OneBad(hash: Hash, records: Records, s: nat, damaged: Record, keys: seq<nat>)
    requires BadOf(hash, records) == {} && s in records && !PassesCheck(hash, damaged) && damaged.state == Corrupt
    requires Distinct(keys) && s in keys
    ensures BadOf(hash, records[s := damaged]) == {s}
    ensures Discards(hash, records[s := damaged], keys) == [damaged]
  {
    AllPass(hash, records);
    OneDiscarded(hash, records[s := damaged], s, keys);
  }

  lemma DamageSeen(hash: Hash, records: Records, q: seq<nat>, s: nat, damaged: Record)
    requires BadOf(hash, records) == {} && s in records && !PassesCheck(hash, damaged) && damaged.state == Corrupt
    ensures Recovered(hash, records[s := damaged], q, Swept(records - {s}, Keep(q, {s}), [damaged]))
  {
    var after := records[s := damaged];
    var keys := Sorted(after.Keys, Less);
    AscendingIsDistinct(keys, Less);
    assert s in Elements(keys);
    OneBad(hash, records, s, damaged, keys);
    assert after - {s} == records - {s};
  }

  lemma RecoveredIsUnique(hash: Hash, records: Records, q: seq<nat>, a: Swept, b: Swept)
    requires Recovered(hash, records, q, a) && Recovered(hash, records, q, b)
    ensures a == b
  {
  }

  /** What recovery makes of one damaged record. */
  lemma DamageOutcome(hash: Hash, records: Records, q: seq<nat>, s: nat, r: Swept)
    requires BadOf(hash, records) == {} && s in records
    requires Recovered(hash, records[s := Spoil(records[s])], q, r)
    ensures var damaged := Spoil(records[s]);
      if hash(damaged.content) != hash(records[s].content)
      then r == Swept(records - {s}, Keep(q, {s}), [damaged])
      else r == Swept(records[s := damaged], q, [])
  {
    var damaged := Spoil(records[s]);
    SpoilIs(records[s]);
    AllPass(hash, records);
    if hash(damaged.content) != hash(records[s].content) {
      DamageSeen(hash, records, q, s, damaged);
      RecoveredIsUnique(hash, records[s := damaged], q, r, Swept(records - {s}, Keep(q, {s}), [damaged]));
    } else {
      DamageUnseen(hash, records, q, s, damaged);
      RecoveredIsUnique(hash, records[s := damaged], q, r, Swept(records[s := damaged], q, []));
    }
  }

  /** Damage to one record is found by recovery exactly if it changes the integrity code, and costs that record only. */
  method DamageAndRecover(store: RecordStore, ghost l: Ledger, s: nat) returns (discarded: seq<Record>)
    requires Shows(store, l) && s in store.records
    modifies store`powerLost, store`records, store`pendingUpload
    ensures var r, damaged := old(store.records)[s], Spoil(old(store.records)[s]);
      if store.hash(damaged.content) != store.hash(r.content) then
        && discarded == [damaged] && store.records == old(store.records) - {s}
        && store.pendingUpload == Keep(old(store.pendingUpload), {s})
      else
        && discarded == [] && store.records == old(store.records)[s := damaged]
        && store.pendingUpload == old(store.pendingUpload)
  {
    ghost var records, q := store.records, store.pendingUpload;
    ghost var marked := store.DamageRecord(s);
    discarded := store.Recover();
    DamageOutcome(store.hash, records, q, s, Swept(store.records, store.pendingUpload, discarded));
  }

  // ---------- the in-memory link ----------

  class InMemoryUpstreamLink {
    var reachable: bool
    var uploaded: seq<nat>
    var failed: seq<nat>

    constructor (reachable: bool)
      ensures this.reachable == reachable && uploaded == [] && failed == []
    {
      this.reachable, uploaded, failed := reachable, [], [];
    }

    method SetAvailable(available: bool)
      modifies `reachable
      ensures reachable == available
    {
      reachable := available;
    }

    method UploadRecord(s: nat) returns (accepted: bool)
      modifies `uploaded, `failed
      ensures accepted == reachable
      ensures uploaded == old(uploaded) + if accepted then [s] else []
      ensures failed == old(failed) + if accepted then [] else [s]
    {
      if !reachable {
        failed := failed + [s];
        assert uploaded + [] == uploaded;
        return false;
      }
      uploaded := uploaded + [s];
      assert failed + [] == failed;
      return true;
    }
  }

  function LinkAnswer(available: bool): Answer
  {
    if available then Accepted else Unavailable
  }

  /** The in-memory link is reachable or not for a whole call, and accepts whatever reaches it. */
  function LinkAnswers(available: bool, n: nat): seq<Answer>
  {
    seq(n, i => LinkAnswer(available))
  }

  datatype LinkOp = NewRecord | Upload(available: bool)

  function LinkStep(capacity: Option<nat>, l: Ledger, op: LinkOp): Ledger
  {
    match op
    case NewRecord => Step(capacity, l, Create)
    case Upload(available) => Step(capacity, l, Forward(LinkAnswers(available, |l.queue|)))
  }

  function LinkRun(capacity: Option<nat>, ops: seq<LinkOp>): Ledger
  {
    if ops == [] then EMPTY else LinkStep(capacity, LinkRun(capacity, ops[..|ops| - 1]), ops[|ops| - 1])
  }

  function UpTo(n: nat): seq<nat>
  {
    seq(n, i => i + 1)
  }

  lemma {:induction false} AllOrNothing(offered: seq<nat>, available: bool)
    ensures AcceptedOf(offered, LinkAnswers(available, |offered|)) == if available then offered else []
    ensures StillPending(offered, LinkAnswers(available, |offered|)) == if available then [] else offered
  {
    if offered != [] {
      AllOrNothing(offered[1..], available);
      assert Rest(LinkAnswers(available, |offered|)) == LinkAnswers(available, |offered| - 1);
      assert offered == [offered[0]] + offered[1..];
    }
  }

  method OfferToLink(store: RecordStore, link: InMemoryUpstreamLink, s: nat) returns (accepted: bool)
    requires store.Valid() && s in store.records
    modifies store`records, store`pendingUpload, link`uploaded, link`failed
    ensures store.Valid() && accepted == link.reachable
    ensures store.records == old(store.records)[s := Offered(old(store.records)[s], LinkAnswer(accepted))]
    ensures store.pendingUpload == if accepted then Keep(old(store.pendingUpload), {s}) else old(store.pendingUpload)
    ensures link.uploaded == old(link.uploaded) + if accepted then [s] else []
    ensures link.failed == old(link.failed)
  {
    if !link.reachable {
      assert store.records == store.records[s := store.records[s]];
      assert link.uploaded + [] == link.uploaded;
      return false;
    }
    var marked := store.MarkUploaded(s);
    accepted := link.UploadRecord(s);
    assert link.failed == old(link.failed);
    if accepted {
      marked := store.MarkConfirmed(s);
    }
  }

  /** The pass in which every offer gets the same answer. */
  function OfferSame(p: Pass, todo: seq<nat>, a: Answer): Pass
    decreases todo
  {
    if todo == [] then p else OfferSame(Offer(p, todo[0], a), todo[1..], a)
  }

  lemma {:induction false} OfferSameIs(p: Pass, todo: seq<nat>, available: bool)
    ensures OfferSame(p, todo, LinkAnswer(available)) == OfferAll(p, todo, LinkAnswers(available, |todo|))
    decreases todo
  {
    if todo != [] {
      var answers := LinkAnswers(available, |todo|);
      assert First(answers) == LinkAnswer(available) && Rest(answers) == LinkAnswers(available, |todo| - 1);
      OfferSameIs(Offer(p, todo[0], LinkAnswer(available)), todo[1..], available);
    }
  }

  lemma OfferNext(p: Pass, q: seq<nat>, i: nat, a: Answer)
    requires i < |q|
    ensures OfferSame(p, q[i..], a) == OfferSame(Offer(p, q[i], a), q[i + 1..], a)
  {
    assert q[i..][0] == q[i] && q[i..][1..] == q[i + 1..];
  }

  lemma ReceivedNext(before: seq<nat>, q: seq<nat>, i: nat, available: bool)
    requires i < |q|
    ensures Received(before, q, i + 1, available)
         == Received(before, q, i, available) + if available then [q[i]] else []
  {
    assert before + q[..i + 1] == before + q[..i] + [q[i]] && before + [] == before;
  }

  /** What the link holds when the first `i` records of the queue have been offered. */
  function Received(before: seq<nat>, q: seq<nat>, i: nat, available: bool): seq<nat>
    requires i <= |q|
  {
    if available then before + q[..i] else before
  }

  lemma QueueOverLink(start: Pass, available: bool)
    requires Increasing(start.queue)
    ensures OfferSame(start, start.queue, LinkAnswer(available)).queue == if available then [] else start.queue
  {
    var q := start.queue;
    assert [] + q == q;
    OfferSameIs(start, q, available);
    AllOrNothing(q, available);
    QueueAfterPass(start, [], q, LinkAnswers(available, |q|));
  }

  /** The store holds what a pass has come to. */
  ghost predicate At(store: RecordStore, p: Pass)
    reads store
  {
    store.Valid() && store.records == p.records && store.pendingUpload == p.queue
  }

  lemma AfterOffer(store: RecordStore, p: Pass, s: nat, a: Answer)
    requires store.Valid() && s in p.records && a != Refused
    requires store.records == p.records[s := Offered(p.records[s], a)]
    requires store.pendingUpload == if a == Accepted then Keep(p.queue, {s}) else p.queue
    ensures At(store, Offer(p, s, a)) && forall x :: x in p.records ==> x in Offer(p, s, a).records
  {
  }

  /** The loop of a forward through the in-memory link. */
  method OfferEach(store: RecordStore, link: InMemoryUpstreamLink, snapshot: seq<nat>)
    returns (uploaded: nat, failed: nat)
    requires store.Valid() && forall j :: 0 <= j < |snapshot| ==> snapshot[j] in store.records
    modifies store`records, store`pendingUpload, link`uploaded, link`failed
    ensures store.Valid()
    ensures var r := OfferSame(Pass(old(store.records), old(store.pendingUpload), 0, 0), snapshot,
                               LinkAnswer(link.reachable));
      store.records == r.records && store.pendingUpload == r.queue
    ensures uploaded == (if link.reachable then |snapshot| else 0) && uploaded + failed == |snapshot|
    ensures link.uploaded == Received(old(link.uploaded), snapshot, |snapshot|, link.reachable)
    ensures link.failed == old(link.failed)
  {
    uploaded, failed := 0, 0;
    ghost var before, answer := link.uploaded, LinkAnswer(link.reachable);
    ghost var pass := Pass(store.records, store.pendingUpload, 0, 0);
    ghost var goal := OfferSame(pass, snapshot, answer);
    assert snapshot[0..] == snapshot && before + snapshot[..0] == before;
    var i := 0;
    while i < |snapshot|
      invariant i <= |snapshot| && link.failed == old(link.failed) && At(store, pass)
      invariant forall j :: 0 <= j < |snapshot| ==> snapshot[j] in pass.records
      invariant uploaded == (if link.reachable then i else 0) && uploaded + failed == i
      invariant OfferSame(pass, snapshot[i..], answer) == goal
      invariant link.uploaded == Received(before, snapshot, i, link.reachable)
    {
      OfferNext(pass, snapshot, i, answer);
      ReceivedNext(before, snapshot, i, link.reachable);
      var accepted := OfferToLink(store, link, snapshot[i]);
      AfterOffer(store, pass, snapshot[i], answer);
      if accepted {
        uploaded := uploaded + 1;
      } else {
        failed := failed + 1;
      }
      pass := Offer(pass, snapshot[i], answer);
      i := i + 1;
    }
    assert snapshot[i..] == [];
  }

  /** Forwarding to the in-memory link: the whole queue in order, or nothing at all. */
  method ForwardToLink(store: RecordStore, link: InMemoryUpstreamLink) returns (uploaded: nat, failed: nat)
    requires store.Valid()
    modifies store`records, store`pendingUpload, link`uploaded, link`failed
    ensures store.Valid()
    ensures store.records
         == OfferAll(Pass(old(store.records), old(store.pendingUpload), 0, 0), old(store.pendingUpload),
                     LinkAnswers(link.reachable, |old(store.pendingUpload)|)).records
    ensures store.pendingUpload == if link.reachable then [] else old(store.pendingUpload)
    ensures link.uploaded == old(link.uploaded) + if link.reachable then old(store.pendingUpload) else []
    ensures link.failed == old(link.failed)
    ensures uploaded == if link.reachable then |old(store.pendingUpload)| else 0
    ensures uploaded + failed == |old(store.pendingUpload)|
  {
    ghost var q, before := store.pendingUpload, link.uploaded;
    QueueOverLink(Pass(store.records, q, 0, 0), link.reachable);
    OfferSameIs(Pass(store.records, q, 0, 0), q, link.reachable);
    uploaded, failed := OfferEach(store, link, store.pendingUpload);
    assert q[..|q|] == q && before + [] == before;
  }

  lemma CountUp(a: seq<nat>, q: seq<nat>, n: nat)
    requires a + q == UpTo(n)
    ensures a + (q + [n + 1]) == UpTo(n + 1)
  {
    assert a + (q + [n + 1]) == a + q + [n + 1];
  }

  /** With the in-memory link what was uploaded followed by what is pending is exactly 1, 2, ..., in order. */
  lemma {:induction false} InOrder(capacity: Option<nat>, ops: seq<LinkOp>)
    ensures var l := LinkRun(capacity, ops);
      l.accepted + l.queue == UpTo(l.created)
  {
    if ops != [] {
      var before, op := ops[..|ops| - 1], ops[|ops| - 1];
      InOrder(capacity, before);
      var l := LinkRun(capacity, before);
      if op.Upload? {
        AllOrNothing(l.queue, op.available);
        assert l.accepted + l.queue + [] == l.accepted + l.queue && l.accepted + [] == l.accepted;
      } else {
        CountUp(l.accepted, l.queue, l.created);
      }
    }
  }

  /** What a caller does with an in-memory link: create a record, or set the link and forward the queue. */
  datatype LinkCall =
    | MakeFor(recordType: RecordType, payload: Payload, ticks: int, device: string)
    | SendOver(available: bool)

  function LinkOpsOf(calls: seq<LinkCall>): seq<LinkOp>
  {
    seq(|calls|, i requires 0 <= i < |calls| => if calls[i].MakeFor? then NewRecord else Upload(calls[i].available))
  }

  lemma LinkDescribed(capacity: Option<nat>, l: Ledger, hash: Hash, records: Records, available: bool)
    requires Reached(capacity, l) && Describes(l, records) && BadOf(hash, records) == {}
    ensures var l' := LinkStep(capacity, l, Upload(available));
      var after := OfferAll(Pass(records, l.queue, 0, 0), l.queue, LinkAnswers(available, |l.queue|)).records;
      && Reached(capacity, l') && l'.accepted == l.accepted + (if available then l.queue else [])
      && PictureOf(hash, after, if available then [] else l.queue, l.created) == Drawn(l')
  {
    AllOrNothing(l.queue, available);
    ForwardDescribed(capacity, l, hash, records, LinkAnswers(available, |l.queue|));
  }

  method SendOverLink(store: RecordStore, link: InMemoryUpstreamLink, ghost l: Ledger, available: bool)
    requires Shows(store, l) && link.uploaded == l.accepted
    modifies store`records, store`pendingUpload, link
    ensures Shows(store, LinkStep(store.capacity, l, Upload(available)))
    ensures link.uploaded == LinkStep(store.capacity, l, Upload(available)).accepted
  {
    LinkDescribed(store.capacity, l, store.hash, store.records, available);
    link.SetAvailable(available);
    var uploaded, failed := ForwardToLink(store, link);
  }

  /**
   Over any run of creations and forwards through an in-memory link that comes and goes, what the link received
   followed by what the store still has queued is 1, 2, ..., in order, and all of it is in the store.
   */
  method PlayLink(store: RecordStore, link: InMemoryUpstreamLink, calls: seq<LinkCall>)
    requires Shows(store, EMPTY) && link.uploaded == []
    modifies store`records, store`pendingUpload, store`sequence, store`full, link
    ensures Shows(store, LinkRun(store.capacity, LinkOpsOf(calls)))
    ensures link.uploaded + store.pendingUpload == UpTo(store.sequence)
    ensures link.uploaded == LinkRun(store.capacity, LinkOpsOf(calls)).accepted
    decreases |calls|
  {
    InOrder(store.capacity, LinkOpsOf(calls));
    if calls == [] {
      return;
    }
    var n := |calls| - 1;
    PlayLink(store, link, calls[..n]);
    ghost var l := LinkRun(store.capacity, LinkOpsOf(calls[..n]));
    assert LinkOpsOf(calls)[..n] == LinkOpsOf(calls[..n]);
    match calls[n] {
      case MakeFor(recordType, payload, ticks, device) => MakeOne(store, l, recordType, payload, ticks, device);
      case SendOver(available) => SendOverLink(store, link, l, available);
    }
  }
}
