/** The record store: committed, integrity-checked records and the queue of those not yet confirmed upstream. */
module Storage {
  import opened Wrappers
  import opened Sorting

  datatype RecordType = MeasurementRecord | EventRecord | FaultRecord | BufferedRecord

  datatype LifecycleState = Created | Stored | PendingUpload | Uploaded | Confirmed | Retained | Corrupt | Deleted

  type Payload = map<string, int>

  /** Everything the integrity code covers. */
  datatype Content = Content(sequence: nat, ticks: int, recordType: RecordType, payload: Payload, device: string)

  datatype Record = Record(content: Content, state: LifecycleState, crc: Option<int>, committed: bool, attempts: nat)

  datatype StorageError = StorageError | StorageFullError

  /** The integrity code is an arbitrary function of the content. */
  type Hash = Content -> int

  type Records = map<nat, Record>

  predicate IntegrityOk(hash: Hash, r: Record)
  {
    r.crc == Some(hash(r.content))
  }

  predicate IsValid(hash: Hash, r: Record)
  {
    r.committed && IntegrityOk(hash, r)
  }

  /** Committed, and the stored code is the code of the content. */
  predicate PassesCheck(hash: Hash, r: Record)
  {
    r.committed && r.crc == Some(hash(r.content))
  }

  predicate WithinMinimumRetention(minimum: Option<int>, r: Record, ticks: int)
  {
    minimum.Some? && ticks - r.content.ticks < minimum.value
  }

  /** A freshly committed record: integrity code first, then the commit marker. */
  function Fresh(hash: Hash, c: Content): Record
  {
    Record(c, PendingUpload, Some(hash(c)), true, 0)
  }

  function Spoil(r: Record): Record
  {
    r.(content := r.content.(payload := r.content.payload["__corrupted__" := 1]), state := Corrupt)
  }

  function TriedOnce(r: Record, state: LifecycleState): Record
  {
    r.(attempts := r.attempts + 1, state := state)
  }

  /** A fresh record holds its content, passes its check, and waits for its first upload. */
  lemma FreshPasses(hash: Hash, c: Content)
    ensures var r := Fresh(hash, c);
      r.content == c && PassesCheck(hash, r) && r.state == PendingUpload && r.attempts == 0
  {
  }

  /** Damage alters the payload and marks the record; code, commit marker and attempts stay as they were. */
  lemma SpoilIs(r: Record)
    ensures var d := Spoil(r);
      && d.content == r.content.(payload := r.content.payload["__corrupted__" := 1])
      && d.state == Corrupt && d.crc == r.crc && d.committed == r.committed && d.attempts == r.attempts
  {
  }

  function Less(a: nat, b: nat): bool
  {
    a < b
  }

  // ---------- the queue ----------

  predicate Increasing(q: seq<nat>)
  {
    forall i, j :: 0 <= i < j < |q| ==> q[i] < q[j]
  }

  /** The queue without the dropped numbers, in the same order. */
  function Keep(q: seq<nat>, drop: set<nat>): seq<nat>
  {
    if q == [] then [] else (if q[0] in drop then [] else [q[0]]) + Keep(q[1..], drop)
  }

  /** Removal of the first occurrence, as lists do it. */
  function RemoveFirst(q: seq<nat>, s: nat): seq<nat>
  {
    if q == [] then [] else if q[0] == s then q[1..] else [q[0]] + RemoveFirst(q[1..], s)
  }

  lemma {:induction false} KeepMembers(q: seq<nat>, drop: set<nat>, s: nat)
    ensures s in Keep(q, drop) <==> s in q && s !in drop
  {
    if q != [] {
      KeepMembers(q[1..], drop, s);
      assert s in q <==> s == q[0] || s in q[1..];
    }
  }

  lemma {:induction false} KeepAll(q: seq<nat>, drop: set<nat>)
    requires forall i :: 0 <= i < |q| ==> q[i] !in drop
    ensures Keep(q, drop) == q
  {
    if q != [] {
      KeepAll(q[1..], drop);
    }
  }

  lemma {:induction false} KeepAscending(q: seq<nat>, drop: set<nat>)
    requires Increasing(q)
    ensures Increasing(Keep(q, drop))
  {
    if q != [] {
      KeepAscending(q[1..], drop);
      var rest := Keep(q[1..], drop);
      forall i | 0 <= i < |rest|
        ensures q[0] < rest[i]
      {
        assert rest[i] in rest;
        KeepMembers(q[1..], drop, rest[i]);
        var j :| 0 <= j < |q[1..]| && q[1..][j] == rest[i];
        assert q[j + 1] == rest[i] && q[0] < q[j + 1];
      }
    }
  }

  /** On a queue without repeats, removing one more number is dropping it from what was kept. */
  lemma {:induction false} RemoveKept(q: seq<nat>, drop: set<nat>, s: nat)
    requires Increasing(q)
    ensures RemoveFirst(Keep(q, drop), s) == Keep(q, drop + {s})
  {
    if q != [] {
      assert forall i, j :: 0 <= i < j < |q[1..]| ==> q[1..][i] == q[i + 1] && q[1..][j] == q[j + 1];
      RemoveKept(q[1..], drop, s);
      var rest := Keep(q[1..], drop);
      assert [] + rest == rest && [] + Keep(q[1..], drop + {s}) == Keep(q[1..], drop + {s});
      if q[0] !in drop {
        assert ([q[0]] + rest)[1..] == rest;
        if q[0] == s {
          assert forall i :: 1 <= i < |q| ==> q[0] < q[i];
          assert s !in q[1..];
          KeepMembers(q[1..], drop, s);
          Absent(rest, s);
        }
      }
    }
  }

  lemma {:induction false} Absent(q: seq<nat>, s: nat)
    requires s !in q
    ensures RemoveFirst(q, s) == q
  {
    if q != [] {
      Absent(q[1..], s);
    }
  }

  // ---------- recovery ----------

  predicate Bad(hash: Hash, records: Records, s: nat)
  {
    s in records && !IsValid(hash, records[s])
  }

  /** The numbers of all incomplete or corrupt records. */
  function BadOf(hash: Hash, records: Records): set<nat>
  {
    set s | s in records && !IsValid(hash, records[s])
  }

  /** The bad ones among `todo`, marked corrupt, in order. */
  function Discards(hash: Hash, records: Records, todo: seq<nat>): seq<Record>
  {
    if todo == [] then []
    else
      (if Bad(hash, records, todo[0]) then [records[todo[0]].(state := Corrupt)] else [])
      + Discards(hash, records, todo[1..])
  }

  lemma {:induction false} DiscardsAre(hash: Hash, records: Records, todo: seq<nat>, r: Record)
    ensures r in Discards(hash, records, todo)
       <==> exists i :: 0 <= i < |todo| && todo[i] in records && records[todo[i]].(state := Corrupt) == r
              && !(records[todo[i]].committed && records[todo[i]].crc == Some(hash(records[todo[i]].content)))
  {
    if todo != [] {
      DiscardsAre(hash, records, todo[1..], r);
      assert forall i :: 0 <= i < |todo| - 1 ==> todo[1..][i] == todo[i + 1];
    }
  }

  lemma {:induction false} DiscardsMinus(hash: Hash, records: Records, todo: seq<nat>, x: nat)
    requires x !in todo
    ensures Discards(hash, records - {x}, todo) == Discards(hash, records, todo)
  {
    if todo != [] {
      DiscardsMinus(hash, records, todo[1..], x);
    }
  }

  /** The state of a sweep: what is left of records and queue, and what has been discarded. */
  datatype Swept = Swept(records: Records, queue: seq<nat>, discarded: seq<Record>)

  /** The numbers of `todo` are looked at one by one, deleting on the way. */
  function Sweep(hash: Hash, records: Records, q: seq<nat>, d: seq<Record>, todo: seq<nat>): Swept
    decreases todo
  {
    if todo == [] then Swept(records, q, d)
    else
      var s := todo[0];
      if Bad(hash, records, s)
      then Sweep(hash, records - {s}, RemoveFirst(q, s), d + [records[s].(state := Corrupt)], todo[1..])
      else Sweep(hash, records, q, d, todo[1..])
  }

  function BadIn(hash: Hash, records: Records, todo: seq<nat>): set<nat>
  {
    set s | s in todo && Bad(hash, records, s)
  }

  lemma BadInTail(hash: Hash, records: Records, todo: seq<nat>)
    requires Distinct(todo) && todo != []
    ensures var s := todo[0];
      BadIn(hash, records, todo) == BadIn(hash, records, todo[1..]) + (if Bad(hash, records, s) then {s} else {})
      && BadIn(hash, records - {s}, todo[1..]) == BadIn(hash, records, todo[1..])
  {
    var s := todo[0];
    assert forall i :: 0 <= i < |todo| - 1 ==> todo[1..][i] == todo[i + 1];
    assert forall x :: x in todo <==> x == s || x in todo[1..];
    assert s !in todo[1..];
  }

  lemma {:induction false} KeepKeep(q: seq<nat>, a: set<nat>, b: set<nat>)
    ensures Keep(Keep(q, a), b) == Keep(q, a + b)
  {
    if q != [] {
      KeepKeep(q[1..], a, b);
      if q[0] !in a {
        assert ([q[0]] + Keep(q[1..], a))[1..] == Keep(q[1..], a);
      } else {
        assert Keep(q, a) == Keep(q[1..], a);
      }
    }
  }

  /** The first number is bad: what the rest of the sweep does after its deletion is what the whole sweep does. */
  lemma AfterDeletion(hash: Hash, records: Records, q: seq<nat>, d: seq<Record>, todo: seq<nat>, r: Swept)
    requires Distinct(todo) && todo != [] && Bad(hash, records, todo[0])
    requires var s, rest := todo[0], todo[1..];
      && r.records == records - {s} - BadIn(hash, records - {s}, rest)
      && r.queue == Keep(Keep(q, {s}), BadIn(hash, records - {s}, rest))
      && r.discarded == d + [records[s].(state := Corrupt)] + Discards(hash, records - {s}, rest)
    ensures r.records == records - BadIn(hash, records, todo)
    ensures r.queue == Keep(q, BadIn(hash, records, todo))
    ensures r.discarded == d + Discards(hash, records, todo)
  {
    var s, rest := todo[0], todo[1..];
    var mark := records[s].(state := Corrupt);
    BadInTail(hash, records, todo);
    assert {s} + BadIn(hash, records, rest) == BadIn(hash, records, todo);
    KeepKeep(q, {s}, BadIn(hash, records, rest));
    DiscardsMinus(hash, records, rest, s);
    assert d + [mark] + Discards(hash, records, rest) == d + ([mark] + Discards(hash, records, rest));
  }

  /** Deleting inside the loop comes to the same as removing all bad records at once, in either container. */
  lemma {:induction false} SweepAll(hash: Hash, records: Records, q: seq<nat>, d: seq<Record>, todo: seq<nat>)
    requires Distinct(todo) && Increasing(q)
    ensures var r := Sweep(hash, records, q, d, todo);
      && r.records == records - BadIn(hash, records, todo)
      && r.queue == Keep(q, BadIn(hash, records, todo))
      && r.discarded == d + Discards(hash, records, todo)
    decreases todo
  {
    if todo == [] {
      KeepAll(q, {});
      assert BadIn(hash, records, todo) == {} && records - {} == records;
    } else {
      var s, rest := todo[0], todo[1..];
      if Bad(hash, records, s) {
        RemoveFirstIsKeep(q, s);
        KeepAscending(q, {s});
        var marked := d + [records[s].(state := Corrupt)];
        SweepAll(hash, records - {s}, Keep(q, {s}), marked, rest);
        AfterDeletion(hash, records, q, d, todo, Sweep(hash, records - {s}, Keep(q, {s}), marked, rest));
      } else {
        BadInTail(hash, records, todo);
        assert BadIn(hash, records, todo) == BadIn(hash, records, rest);
        SweepAll(hash, records, q, d, rest);
        assert [] + Discards(hash, records, rest) == Discards(hash, records, rest);
      }
    }
  }

  /** One number looked at: what is left to do is the rest of `todo` on what is left of records and queue. */
  lemma SweepStep(hash: Hash, records: Records, q: seq<nat>, d: seq<Record>, sequence: nat, todo: seq<nat>, i: nat)
    requires i < |todo| && Consistent(records, q, sequence)
    ensures var s, rest := todo[i], todo[i + 1..];
      if Bad(hash, records, s)
      then
        && Sweep(hash, records, q, d, todo[i..])
           == Sweep(hash, records - {s}, RemoveFirst(q, s), d + [records[s].(state := Corrupt)], rest)
        && Consistent(records - {s}, RemoveFirst(q, s), sequence)
      else Sweep(hash, records, q, d, todo[i..]) == Sweep(hash, records, q, d, rest)
  {
    assert todo[i..][0] == todo[i] && todo[i..][1..] == todo[i + 1..];
    DropKeeps(records, q, sequence, {todo[i]});
    RemoveFirstIsKeep(q, todo[i]);
  }

  lemma RemoveFirstIsKeep(q: seq<nat>, s: nat)
    requires Increasing(q)
    ensures RemoveFirst(q, s) == Keep(q, {s})
  {
    KeepAll(q, {});
    RemoveKept(q, {}, s);
    assert {} + {s} == {s};
  }

  lemma SortedKeysBad(hash: Hash, records: Records)
    ensures BadIn(hash, records, Sorted(records.Keys, Less)) == BadOf(hash, records)
  {
    var todo := Sorted(records.Keys, Less);
    assert forall s :: s in todo <==> s in Elements(todo);
  }

  /** Recovery leaves nothing for a second recovery to discard. */
  lemma RecoveryIsIdempotent(hash: Hash, records: Records, q: seq<nat>)
    ensures BadOf(hash, records - BadOf(hash, records)) == {}
    ensures Keep(Keep(q, BadOf(hash, records)), BadOf(hash, records - BadOf(hash, records)))
         == Keep(q, BadOf(hash, records))
  {
    KeepAll(Keep(q, BadOf(hash, records)), {});
  }

  /** The numbers among `todo` of records whose commit marker was never set. */
  function Uncommitted(records: Records, todo: seq<nat>): seq<nat>
  {
    if todo == [] then []
    else
      (if todo[0] in records && !records[todo[0]].committed then [todo[0]] else []) + Uncommitted(records, todo[1..])
  }

  ghost function AllUncommitted(records: Records): seq<nat>
  {
    Uncommitted(records, Sorted(records.Keys, Less))
  }

  lemma UncommittedNext(records: Records, todo: seq<nat>, i: nat, found: seq<nat>)
    requires i < |todo|
    ensures var s := todo[i];
      found + Uncommitted(records, todo[i..])
      == (if s in records && !records[s].committed then found + [s] else found) + Uncommitted(records, todo[i + 1..])
  {
    assert todo[i..][0] == todo[i] && todo[i..][1..] == todo[i + 1..];
    assert [] + Uncommitted(records, todo[i + 1..]) == Uncommitted(records, todo[i + 1..]);
  }

  /** A power loss announces exactly the uncommitted records, and recovery discards every one of them. */
  lemma {:induction false} UncommittedAreDiscarded(hash: Hash, records: Records, todo: seq<nat>, s: nat)
    ensures s in Uncommitted(records, todo) <==> s in todo && s in records && !records[s].committed
    ensures s in Uncommitted(records, todo) ==> s in BadOf(hash, records)
  {
    if todo != [] {
      UncommittedAreDiscarded(hash, records, todo[1..], s);
      assert s in todo <==> s == todo[0] || s in todo[1..];
    }
  }

  // ---------- corruption detection ----------

  /** A failing record that is not deleted is marked. */
  function Marked(hash: Hash, r: Record): Record
  {
    if r.state != Deleted && !IsValid(hash, r) then r.(state := Corrupt) else r
  }

  function MarkAll(hash: Hash, records: Records, todo: seq<nat>): Records
    decreases todo
  {
    if todo == [] then records
    else
      var s := todo[0];
      MarkAll(hash, if s in records then records[s := Marked(hash, records[s])] else records, todo[1..])
  }

  /** Marking looks at each record by itself and depends on nothing else. */
  lemma {:induction false} MarkAllAt(hash: Hash, records: Records, todo: seq<nat>, s: nat)
    requires s in records
    ensures s in MarkAll(hash, records, todo)
    ensures var r := records[s];
      MarkAll(hash, records, todo)[s]
      == if s in todo && r.state != Deleted && !(r.committed && r.crc == Some(hash(r.content)))
         then r.(state := Corrupt) else r
    decreases todo
  {
    if todo != [] {
      var x := todo[0];
      var next := if x in records then records[x := Marked(hash, records[x])] else records;
      MarkAllAt(hash, next, todo[1..], s);
      assert s in todo <==> s in todo[1..] || s == x;
    }
  }

  /** The marked records that are not deleted and fail their check, in order. */
  function Failing(hash: Hash, records: Records, todo: seq<nat>): seq<Record>
  {
    if todo == [] then []
    else
      var s := todo[0];
      (if s in records && records[s].state != Deleted && !IsValid(hash, records[s])
       then [Marked(hash, records[s])] else [])
      + Failing(hash, records, todo[1..])
  }

  /** The reported records are exactly those. */
  lemma {:induction false} FailingAre(hash: Hash, records: Records, todo: seq<nat>, r: Record)
    ensures r in Failing(hash, records, todo)
       <==> exists i :: 0 <= i < |todo| && todo[i] in records && records[todo[i]].(state := Corrupt) == r
              && records[todo[i]].state != Deleted
              && !(records[todo[i]].committed && records[todo[i]].crc == Some(hash(records[todo[i]].content)))
  {
    if todo != [] {
      FailingAre(hash, records, todo[1..], r);
      assert forall i :: 0 <= i < |todo| - 1 ==> todo[1..][i] == todo[i + 1];
    }
  }

  /** One number looked at. */
  lemma MarkStep(hash: Hash, records: Records, todo: seq<nat>, i: nat)
    requires i < |todo| && Distinct(todo) && todo[i] in records
    ensures var s, rest := todo[i], todo[i + 1..];
      if records[s].state != Deleted && !IsValid(hash, records[s])
      then
        && MarkAll(hash, records, todo[i..]) == MarkAll(hash, records[s := Marked(hash, records[s])], rest)
        && Failing(hash, records, todo[i..])
           == [Marked(hash, records[s])] + Failing(hash, records[s := Marked(hash, records[s])], rest)
      else
        && MarkAll(hash, records, todo[i..]) == MarkAll(hash, records, rest)
        && Failing(hash, records, todo[i..]) == Failing(hash, records, rest)
  {
    assert records[todo[i] := records[todo[i]]] == records;
    var rest := todo[i + 1..];
    assert todo[i..][0] == todo[i] && todo[i..][1..] == rest;
    assert todo[i] !in rest;
    FailingUpdate(hash, records, rest, todo[i], Marked(hash, records[todo[i]]));
  }

  lemma MoveOn(found: seq<Record>, next: Record, rest: seq<Record>)
    ensures found + ([next] + rest) == found + [next] + rest
  {
  }

  lemma {:induction false} FailingUpdate(hash: Hash, records: Records, todo: seq<nat>, x: nat, r: Record)
    requires x !in todo
    ensures Failing(hash, records[x := r], todo) == Failing(hash, records, todo)
  {
    if todo != [] {
      FailingUpdate(hash, records, todo[1..], x, r);
    }
  }

  // ---------- the store ----------

  /** Numbers are in range and match their records; the queue is strictly increasing and inside the store. */
  predicate Consistent(records: Records, queue: seq<nat>, sequence: nat)
  {
    && (forall s :: s in records ==> 1 <= s <= sequence && records[s].content.sequence == s)
    && Increasing(queue)
    && (forall i :: 0 <= i < |queue| ==> queue[i] in records)
  }

  lemma UpdateKeeps(records: Records, queue: seq<nat>, sequence: nat, s: nat, r: Record)
    requires Consistent(records, queue, sequence) && s in records && r.content.sequence == s
    ensures Consistent(records[s := r], queue, sequence) && records[s := r].Keys == records.Keys
    ensures |records[s := r]| == |records|
  {
    assert records[s := r].Keys == records.Keys;
    assert |records.Keys| == |records| && |records[s := r].Keys| == |records[s := r]|;
  }

  lemma AppendKeeps(records: Records, queue: seq<nat>, sequence: nat, r: Record)
    requires Consistent(records, queue, sequence) && r.content.sequence == sequence + 1
    ensures Consistent(records[sequence + 1 := r], queue + [sequence + 1], sequence + 1)
    ensures |records[sequence + 1 := r]| == |records| + 1
  {
  }

  lemma DropKeeps(records: Records, queue: seq<nat>, sequence: nat, drop: set<nat>)
    requires Consistent(records, queue, sequence)
    ensures Consistent(records - drop, Keep(queue, drop), sequence) && |records - drop| <= |records|
  {
    var kept := Keep(queue, drop);
    KeepAscending(queue, drop);
    forall i | 0 <= i < |kept|
      ensures kept[i] in records - drop
    {
      assert kept[i] in kept;
      KeepMembers(queue, drop, kept[i]);
    }
    assert (records - drop).Keys <= records.Keys;
    Subset((records - drop).Keys, records.Keys);
    assert |records.Keys| == |records| && |(records - drop).Keys| == |records - drop|;
  }

  lemma UnqueueKeeps(records: Records, queue: seq<nat>, sequence: nat, s: nat)
    requires Consistent(records, queue, sequence)
    ensures Consistent(records, Keep(queue, {s}), sequence) && RemoveFirst(queue, s) == Keep(queue, {s})
  {
    RemoveFirstIsKeep(queue, s);
    KeepAscending(queue, {s});
    forall i | 0 <= i < |Keep(queue, {s})|
      ensures Keep(queue, {s})[i] in records
    {
      assert Keep(queue, {s})[i] in Keep(queue, {s});
      KeepMembers(queue, {s}, Keep(queue, {s})[i]);
    }
  }

  lemma {:induction false} Subset(a: set<nat>, b: set<nat>)
    requires a <= b
    ensures |a| <= |b|
    decreases a
  {
    if a != {} {
      var x :| x in a;
      Subset(a - {x}, b - {x});
    }
  }

  /** A complete sweep removes exactly the bad records, keeps the queue's order and reports in key order. */
  ghost predicate Recovered(hash: Hash, records: Records, q: seq<nat>, r: Swept)
  {
    && r.records == records - BadOf(hash, records)
    && r.queue == Keep(q, BadOf(hash, records))
    && r.discarded == Discards(hash, records, Sorted(records.Keys, Less))
  }

  lemma RecoveredKeeps(hash: Hash, records: Records, q: seq<nat>, r: Swept)
    requires Recovered(hash, records, q, r)
    ensures forall s :: s in r.records <==> s in records && PassesCheck(hash, records[s])
    ensures forall s :: s in r.records ==> r.records[s] == records[s]
  {
  }

  /** With nothing bad in the store recovery discards nothing. */
  lemma {:induction false} NothingDiscarded(hash: Hash, records: Records, q: seq<nat>, todo: seq<nat>)
    requires forall s :: s in records ==> PassesCheck(hash, records[s])
    ensures Discards(hash, records, todo) == []
    ensures records - BadOf(hash, records) == records && Keep(q, BadOf(hash, records)) == q
  {
    if todo != [] {
      NothingDiscarded(hash, records, q, todo[1..]);
    } else {
      KeepAll(q, BadOf(hash, records));
    }
  }

  /** With one bad record it discards that one. */
  lemma {:induction false} OneDiscarded(hash: Hash, records: Records, bad: nat, todo: seq<nat>)
    requires Distinct(todo) && bad in records && !PassesCheck(hash, records[bad])
    requires forall s :: s in records && s != bad ==> PassesCheck(hash, records[s])
    ensures Discards(hash, records, todo) == if bad in todo then [records[bad].(state := Corrupt)] else []
    ensures BadOf(hash, records) == {bad}
  {
    if todo != [] {
      assert forall i :: 0 <= i < |todo| - 1 ==> todo[1..][i] == todo[i + 1];
      OneDiscarded(hash, records, bad, todo[1..]);
      assert bad in todo <==> bad == todo[0] || bad in todo[1..];
    }
  }

  lemma SweepResult(hash: Hash, records: Records, q: seq<nat>, sequence: nat, r: Swept)
    requires Consistent(records, q, sequence)
    requires r == Sweep(hash, records, q, [], Sorted(records.Keys, Less))
    ensures Recovered(hash, records, q, r)
    ensures Consistent(r.records, r.queue, sequence) && |r.records| <= |records|
  {
    var todo := Sorted(records.Keys, Less);
    AscendingIsDistinct(todo, Less);
    SortedKeysBad(hash, records);
    DropKeeps(records, q, sequence, BadOf(hash, records));
    SweepAll(hash, records, q, [], todo);
    assert [] + Discards(hash, records, todo) == Discards(hash, records, todo);
  }

  class RecordStore {
    const hash: Hash
    const capacity: Option<nat>
    const minimumRetention: Option<int>
    var records: Records
    var pendingUpload: seq<nat>
    var sequence: nat
    var full: bool
    var powerLost: bool
    var deleted: seq<nat>

    /** The queue is strictly increasing and inside the store, and the capacity bound holds. */
    ghost predicate Valid()
      reads this
    {
      && Consistent(records, pendingUpload, sequence)
      && (capacity.Some? ==> 0 < capacity.value && |records| <= capacity.value)
    }

    constructor (hash: Hash, capacity: Option<nat>, minimumRetention: Option<int>)
      requires capacity.Some? ==> capacity.value > 0
      ensures Valid() && records == map[] && pendingUpload == [] && sequence == 0 && deleted == []
      ensures !full && !powerLost
      ensures this.hash == hash && this.capacity == capacity && this.minimumRetention == minimumRetention
    {
      this.hash, this.capacity, this.minimumRetention := hash, capacity, minimumRetention;
      records, pendingUpload, sequence, deleted := map[], [], 0, [];
      full, powerLost := false, false;
    }

    /** The construction with its check: a capacity of zero or less is refused. */
    static method Open(hash: Hash, capacity: Option<int>, minimumRetention: Option<int>)
      returns (r: Result<RecordStore, StorageError>)
      ensures r.Err? <==> capacity.Some? && capacity.value <= 0
      ensures r.Ok? ==> fresh(r.value) && r.value.Valid() && r.value.records == map[]
    {
      if capacity.Some? && capacity.value <= 0 {
        return Err(StorageError);
      }
      var limit: Option<nat> := if capacity.Some? then Some(capacity.value) else None;
      var store := new RecordStore(hash, limit, minimumRetention);
      return Ok(store);
    }

    predicate HasRoom()
      reads this
    {
      capacity.Some? ==> |records| < capacity.value
    }

    /** Create, commit and queue a record, or say why not; a refusal stores nothing. */
    method Create(recordType: RecordType, payload: Payload, ticks: int, device: string)
      returns (r: Result<nat, StorageError>)
      requires Valid()
      modifies `records, `pendingUpload, `sequence, `full
      ensures Valid()
      ensures r.Ok? <==> !powerLost && (capacity.Some? ==> |old(records)| < capacity.value)
      ensures r.Ok? ==>
        && r.value == sequence == old(sequence) + 1 && full == old(full)
        && pendingUpload == old(pendingUpload) + [sequence]
        && records == old(records)[sequence := Fresh(hash, Content(sequence, ticks, recordType, payload, device))]
      ensures r.Err? ==>
        && records == old(records) && pendingUpload == old(pendingUpload) && sequence == old(sequence)
        && r.error == (if powerLost then StorageError else StorageFullError)
        && full == (old(full) || !powerLost)
    {
      if powerLost {
        return Err(StorageError);
      }
      if capacity.Some? && |records| >= capacity.value {
        full := true;
        return Err(StorageFullError);
      }
      AppendKeeps(records, pendingUpload, sequence,
                  Fresh(hash, Content(sequence + 1, ticks, recordType, payload, device)));
      sequence := sequence + 1;
      var content := Content(sequence, ticks, recordType, payload, device);
      var record := Record(content, Created, None, false, 0);
      record := record.(crc := Some(hash(content)));
      record := record.(committed := true);
      record := record.(state := Stored);
      record := record.(state := PendingUpload);
      records := records[sequence := record];
      pendingUpload := pendingUpload + [sequence];
      return Ok(sequence);
    }

    method MarkUploaded(s: nat) returns (r: Result<(), StorageError>)
      requires Valid()
      modifies `records
      ensures Valid()
      ensures r.Ok? <==> s in old(records)
      ensures r.Err? ==> records == old(records)
      ensures r.Ok? ==>
        var o := old(records)[s];
        records == old(records)[s := o.(attempts := o.attempts + 1, state := Uploaded)]
    {
      if s !in records {
        return Err(StorageError);
      }
      UpdateKeeps(records, pendingUpload, sequence, s, TriedOnce(records[s], Uploaded));
      records := records[s := TriedOnce(records[s], Uploaded)];
      return Ok(());
    }

    /** Upstream confirmation takes the record out of the queue and keeps it in the store. */
    method MarkConfirmed(s: nat) returns (r: Result<(), StorageError>)
      requires Valid()
      modifies `records, `pendingUpload
      ensures Valid()
      ensures r.Ok? <==> s in old(records)
      ensures r.Ok? ==> records == old(records)[s := old(records)[s].(state := Retained)]
      ensures r.Ok? ==> pendingUpload == Keep(old(pendingUpload), {s})
      ensures r.Err? ==> records == old(records) && pendingUpload == old(pendingUpload)
    {
      if s !in records {
        return Err(StorageError);
      }
      UnqueueKeeps(records, pendingUpload, sequence, s);
      UpdateKeeps(records, Keep(pendingUpload, {s}), sequence, s, records[s].(state := Retained));
      var record := records[s].(state := Confirmed);
      if s in pendingUpload {
        pendingUpload := RemoveFirst(pendingUpload, s);
      } else {
        Absent(pendingUpload, s);
      }
      records := records[s := record.(state := Retained)];
      return Ok(());
    }

    method DamageRecord(s: nat) returns (r: Result<(), StorageError>)
      requires Valid()
      modifies `records
      ensures Valid()
      ensures r.Ok? <==> s in old(records)
      ensures r.Err? ==> records == old(records)
      ensures r.Ok? ==>
        records == old(records)[s := Spoil(old(records)[s])]
    {
      if s !in records {
        return Err(StorageError);
      }
      UpdateKeeps(records, pendingUpload, sequence, s, Spoil(records[s]));
      records := records[s := Spoil(records[s])];
      return Ok(());
    }

    /** Mark every record that fails its check, except deleted ones, and return those in order. */
    method DetectCorruption() returns (corrupt: seq<Record>)
      requires Valid()
      modifies `records
      ensures Valid()
      ensures records == MarkAll(hash, old(records), Sorted(old(records).Keys, Less))
      ensures corrupt == Failing(hash, old(records), Sorted(old(records).Keys, Less))
    {
      var todo := Sort(records.Keys, Less);
      AscendingIsDistinct(todo, Less);
      assert forall j :: 0 <= j < |todo| ==> todo[j] in Elements(todo);
      corrupt := CheckEach(todo);
      assert |records.Keys| == |records| && |old(records).Keys| == |old(records)|;
    }

    method CheckEach(todo: seq<nat>) returns (corrupt: seq<Record>)
      requires Consistent(records, pendingUpload, sequence)
      requires Distinct(todo) && forall j :: 0 <= j < |todo| ==> todo[j] in records
      modifies `records
      ensures Consistent(records, pendingUpload, sequence) && records.Keys == old(records).Keys
      ensures records == MarkAll(hash, old(records), todo)
      ensures corrupt == Failing(hash, old(records), todo)
    {
      corrupt := [];
      ghost var marked, failing := MarkAll(hash, records, todo), Failing(hash, records, todo);
      var i := 0;
      while i < |todo|
        invariant i <= |todo| && records.Keys == old(records).Keys
        invariant Consistent(records, pendingUpload, sequence)
        invariant MarkAll(hash, records, todo[i..]) == marked
        invariant corrupt + Failing(hash, records, todo[i..]) == failing
      {
        var s := todo[i];
        MarkStep(hash, records, todo, i);
        UpdateKeeps(records, pendingUpload, sequence, s, Marked(hash, records[s]));
        MoveOn(corrupt, Marked(hash, records[s]), Failing(hash, records[s := Marked(hash, records[s])], todo[i + 1..]));
        if records[s].state != Deleted && !IsValid(hash, records[s]) {
          records := records[s := records[s].(state := Corrupt)];
          corrupt := corrupt + [records[s]];
        }
        i := i + 1;
      }
    }

    /** An abrupt power loss: the numbers of the records without a commit marker, in order. */
    method SimulatePowerLoss() returns (incomplete: seq<nat>)
      requires Valid()
      modifies `powerLost
      ensures Valid() && powerLost
      ensures incomplete == AllUncommitted(records)
    {
      incomplete := ListAllUncommitted();
      powerLost := true;
    }

    method ListAllUncommitted() returns (incomplete: seq<nat>)
      ensures incomplete == AllUncommitted(records)
    {
      var todo := Sort(records.Keys, Less);
      incomplete := ListUncommitted(todo);
    }

    method ListUncommitted(todo: seq<nat>) returns (incomplete: seq<nat>)
      ensures incomplete == Uncommitted(records, todo)
    {
      incomplete := [];
      assert todo[0..] == todo && [] + Uncommitted(records, todo) == Uncommitted(records, todo);
      for i := 0 to |todo|
        invariant incomplete + Uncommitted(records, todo[i..]) == Uncommitted(records, todo)
      {
        UncommittedNext(records, todo, i, incomplete);
        if todo[i] in records && !records[todo[i]].committed {
          incomplete := incomplete + [todo[i]];
        }
      }
    }

    /**
     Recovery from any crash state: whatever the flags and contents of the records, exactly the committed and
     integrity-checked ones stay, exactly the others are returned, and the queue keeps its order.
     */
    method Recover() returns (discarded: seq<Record>)
      requires Valid()
      modifies `records, `pendingUpload, `powerLost
      ensures Valid() && !powerLost
      ensures Recovered(hash, old(records), old(pendingUpload), Swept(records, pendingUpload, discarded))
      ensures forall s :: s in records <==> s in old(records) && PassesCheck(hash, old(records)[s])
      ensures forall s :: s in records ==> records[s] == old(records)[s]
    {
      ghost var r;
      discarded, r := SweepAllRecords();
      SweepResult(hash, old(records), old(pendingUpload), sequence, r);
      RecoveredKeeps(hash, old(records), old(pendingUpload), r);
      powerLost := false;
    }

    method SweepAllRecords() returns (discarded: seq<Record>, ghost r: Swept)
      requires Consistent(records, pendingUpload, sequence)
      modifies `records, `pendingUpload
      ensures r == Sweep(hash, old(records), old(pendingUpload), [], Sorted(old(records).Keys, Less))
      ensures r == Swept(records, pendingUpload, discarded)
    {
      var todo := Sort(records.Keys, Less);
      discarded := SweepEach(todo);
      r := Swept(records, pendingUpload, discarded);
    }

    method SweepEach(todo: seq<nat>) returns (discarded: seq<Record>)
      requires Consistent(records, pendingUpload, sequence)
      modifies `records, `pendingUpload
      ensures var r := Sweep(hash, old(records), old(pendingUpload), [], todo);
        records == r.records && pendingUpload == r.queue && discarded == r.discarded
    {
      discarded := [];
      ghost var goal := Sweep(hash, records, pendingUpload, [], todo);
      var i := 0;
      while i < |todo|
        invariant i <= |todo| && Consistent(records, pendingUpload, sequence)
        invariant Sweep(hash, records, pendingUpload, discarded, todo[i..]) == goal
      {
        var s := todo[i];
        SweepStep(hash, records, pendingUpload, discarded, sequence, todo, i);
        if s in records && !IsValid(hash, records[s]) {
          discarded := discarded + [records[s].(state := Corrupt)];
          records := records - {s};
          if s in pendingUpload {
            pendingUpload := RemoveFirst(pendingUpload, s);
          } else {
            Absent(pendingUpload, s);
          }
        }
        i := i + 1;
      }
    }

    /** Deletion marks a retained record; it is refused while the record is queued or too young. */
    method Delete(s: nat, ticks: int) returns (r: Result<(), StorageError>)
      requires Valid()
      modifies `records, `deleted
      ensures Valid()
      ensures r.Ok? <==> s in old(records) && s !in pendingUpload
                         && (minimumRetention.Some? ==>
                               ticks - old(records)[s].content.ticks >= minimumRetention.value)
      ensures r.Ok? ==> records == old(records)[s := old(records)[s].(state := Deleted)]
      ensures r.Ok? ==> deleted == old(deleted) + [s]
      ensures r.Err? ==> records == old(records) && deleted == old(deleted)
    {
      if s !in records {
        return Err(StorageError);
      }
      if s in pendingUpload {
        return Err(StorageError);
      }
      if WithinMinimumRetention(minimumRetention, records[s], ticks) {
        return Err(StorageError);
      }
      UpdateKeeps(records, pendingUpload, sequence, s, records[s].(state := Deleted));
      records := records[s := records[s].(state := Deleted)];
      deleted := deleted + [s];
      return Ok(());
    }
  }
}
