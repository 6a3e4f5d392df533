/**
 Per-source tracking of 16-bit sequence numbers.  Ahead and behind are decided by modular distance, the test of
 section 3.2 of RFC 1982 with SERIAL_BITS = 16; every accepted number is remembered for good.
 */
module SequenceTracking {
  import opened Wrappers

  const MODULUS := 0x10000
  const HALF_SPACE := 0x8000
  const DEFAULT_WINDOW := 32

  datatype Verdict = New | Duplicate | Stale | Invalid

  datatype Tracker = Tracker(window: int, seen: map<int, nat>, newest: Option<int>)

  const FRESH := Tracker(DEFAULT_WINDOW, map[], None)

  function Classify(t: Tracker, sequence: int): Verdict
  {
    if !(0 <= sequence < MODULUS) then Invalid
    else if t.newest.None? then New
    else if sequence in t.seen then Duplicate
    else
      var ahead := (sequence - t.newest.value) % MODULUS;
      if ahead == 0 then Duplicate
      else if ahead < HALF_SPACE then New
      else if MODULUS - ahead <= t.window then Duplicate
      else Stale
  }

  function Record(t: Tracker, sequence: int): Tracker
  {
    var seen := t.seen[sequence := (if sequence in t.seen then t.seen[sequence] else 0) + 1];
    if t.newest.None? then t.(seen := seen, newest := Some(sequence))
    else
      var ahead := (sequence - t.newest.value) % MODULUS;
      t.(seen := seen, newest := if 0 < ahead < HALF_SPACE then Some(sequence) else t.newest)
  }

  /** What the receiver does with one number: classify it and record it unless it is a repeat. */
  function Receive(t: Tracker, sequence: int): Tracker
  {
    if Classify(t, sequence) in {Duplicate, Stale} then t else Record(t, sequence)
  }

  class SequenceTracker {
    const window: int
    var seen: map<int, nat>
    var newest: Option<int>

    constructor (window: int)
      ensures State() == Tracker(window, map[], None)
    {
      this.window := window;
      seen, newest := map[], None;
    }

    /** The construction with the check on the window: a non-positive one is refused. */
    static method Create(window: int) returns (r: Option<SequenceTracker>)
      ensures r.Some? <==> window > 0
      ensures r.Some? ==> fresh(r.value) && r.value.State() == Tracker(window, map[], None)
    {
      if window <= 0 {
        return None;
      }
      var t := new SequenceTracker(window);
      return Some(t);
    }

    function State(): Tracker
      reads this
    {
      Tracker(window, seen, newest)
    }

    method ClassifySequence(sequence: int) returns (v: Verdict)
      ensures v == Classify(State(), sequence)
    {
      if !(0 <= sequence < MODULUS) {
        return Invalid;
      }
      if newest.None? {
        return New;
      }
      if sequence in seen {
        return Duplicate;
      }
      var ahead := (sequence - newest.value) % MODULUS;
      if ahead == 0 {
        return Duplicate;
      }
      if ahead < HALF_SPACE {
        return New;
      }
      var behind := MODULUS - ahead;
      return if behind <= window then Duplicate else Stale;
    }

    method RecordSequence(sequence: int)
      modifies this
      ensures State() == Record(old(State()), sequence)
    {
      seen := seen[sequence := (if sequence in seen then seen[sequence] else 0) + 1];
      if newest.None? {
        newest := Some(sequence);
        return;
      }
      var ahead := (sequence - newest.value) % MODULUS;
      if 0 < ahead < HALF_SPACE {
        newest := Some(sequence);
      }
    }
  }

  // ---------- at most once, whatever arrives ----------

  function ReceiveAll(t: Tracker, arrivals: seq<int>): Tracker
  {
    if arrivals == [] then t else Receive(ReceiveAll(t, arrivals[..|arrivals| - 1]), arrivals[|arrivals| - 1])
  }

  /** The arrivals the tracker lets through, in order. */
  function AcceptedOf(t: Tracker, arrivals: seq<int>): seq<int>
  {
    if arrivals == [] then []
    else
      var before, last := arrivals[..|arrivals| - 1], arrivals[|arrivals| - 1];
      if Classify(ReceiveAll(t, before), last) in {Duplicate, Stale} then AcceptedOf(t, before)
      else AcceptedOf(t, before) + [last]
  }

  predicate OnWire(arrivals: seq<int>)
  {
    forall i :: 0 <= i < |arrivals| ==> 0 <= arrivals[i] < MODULUS
  }

  /** A tracker that has only ever recorded numbers it had classified as new. */
  predicate Sound(t: Tracker)
  {
    && (forall s :: s in t.seen ==> 0 <= s < MODULUS && t.seen[s] == 1)
    && (t.newest.None? <==> t.seen == map[])
    && (t.newest.Some? ==> t.newest.value in t.seen)
  }

  lemma ReceiveSound(t: Tracker, s: int)
    requires Sound(t) && 0 <= s < MODULUS
    ensures Sound(Receive(t, s))
    ensures Classify(t, s) == New ==> s !in t.seen && Receive(t, s).seen == t.seen[s := 1]
    ensures Classify(t, s) != New ==> Receive(t, s) == t
  {
  }

  /** No number is accepted twice from one source, under any duplication, reordering or replay. */
  lemma {:induction false} AcceptedAtMostOnce(arrivals: seq<int>)
    requires OnWire(arrivals)
    ensures Sound(ReceiveAll(FRESH, arrivals))
    ensures forall s :: s in ReceiveAll(FRESH, arrivals).seen <==> s in AcceptedOf(FRESH, arrivals)
    ensures forall i, j :: 0 <= i < j < |AcceptedOf(FRESH, arrivals)| ==>
      AcceptedOf(FRESH, arrivals)[i] != AcceptedOf(FRESH, arrivals)[j]
    ensures |AcceptedOf(FRESH, arrivals)| <= 65536
  {
    if arrivals != [] {
      var before, last := arrivals[..|arrivals| - 1], arrivals[|arrivals| - 1];
      AcceptedAtMostOnce(before);
      ReceiveSound(ReceiveAll(FRESH, before), last);
    }
    var accepted := AcceptedOf(FRESH, arrivals);
    forall i | 0 <= i < |accepted|
      ensures 0 <= accepted[i] < MODULUS
    {
      assert accepted[i] in accepted;
    }
    Pigeonhole(accepted, MODULUS);
  }

  lemma {:induction false} Pigeonhole(s: seq<int>, n: nat)
    requires forall i, j :: 0 <= i < j < |s| ==> s[i] != s[j]
    requires forall i :: 0 <= i < |s| ==> 0 <= s[i] < n
    ensures |s| <= n
    decreases n
  {
    if s != [] {
      assert 0 <= s[0] < n;
      if n - 1 in s {
        var k :| 0 <= k < |s| && s[k] == n - 1;
        Pigeonhole(s[..k] + s[k + 1..], n - 1);
      } else {
        assert forall i :: 0 <= i < |s| ==> s[i] in s;
        Pigeonhole(s, n - 1);
      }
    }
  }

  // ---------- refinement of an unbounded tracker ----------

  /** The same bookkeeping on the sender's true, unbounded numbers. */
  datatype Ideal = Ideal(accepted: set<int>, newest: Option<int>)

  const IDEAL_FRESH := Ideal({}, None)

  function IdealVerdict(i: Ideal, window: int, n: int): Verdict
  {
    if i.newest.None? || n > i.newest.value then New
    else if n in i.accepted || i.newest.value - n <= window then Duplicate
    else Stale
  }

  function IdealReceive(i: Ideal, window: int, n: int): Ideal
  {
    if IdealVerdict(i, window, n) == New then Ideal(i.accepted + {n}, Some(n)) else i
  }

  /** The wire tracker holds the residues of the numbers the ideal one accepted. */
  ghost predicate Represents(t: Tracker, i: Ideal)
  {
    && (t.newest.None? <==> i.newest.None?)
    && (i.newest.None? ==> i.accepted == {} && t.seen == map[])
    && (i.newest.Some? ==> t.newest.value == i.newest.value % MODULUS && i.newest.value in i.accepted)
    && (forall n :: n in i.accepted ==> n <= i.newest.value && n % MODULUS in t.seen)
    && (forall s :: s in t.seen ==> exists n :: n in i.accepted && n % MODULUS == s)
  }

  /** The arrival is less than half the number space from the newest one. */
  predicate Near(i: Ideal, n: int)
  {
    i.newest.Some? ==> -HALF_SPACE <= n - i.newest.value < HALF_SPACE
  }

  predicate InLap(i: Ideal, n: int, base: int)
  {
    base <= n < base + MODULUS && forall m :: m in i.accepted ==> base <= m < base + MODULUS
  }

  /** The distance on the wire is the true distance, reduced into one lap. */
  lemma Distance(n: int, newest: int)
    requires -HALF_SPACE <= n - newest < HALF_SPACE
    ensures (n % MODULUS - newest % MODULUS) % MODULUS == if n >= newest then n - newest else n - newest + MODULUS
  {
  }

  /** The verdict on a number near the newest, in terms of the true numbers. */
  lemma ClassifyNear(t: Tracker, n: int, newest: int)
    requires t.newest == Some(newest % MODULUS) && -HALF_SPACE <= n - newest < HALF_SPACE
    ensures Classify(t, n % MODULUS)
         == if n % MODULUS in t.seen || n == newest then Duplicate
            else if n > newest then New
            else if newest - n <= t.window then Duplicate
            else Stale
  {
    Distance(n, newest);
  }

  /** Without any bound on the lap: new means ahead of the newest and never accepted modulo 2^16. */
  lemma NewExactly(t: Tracker, i: Ideal, n: int)
    requires Represents(t, i) && Near(i, n)
    ensures Classify(t, n % MODULUS) == New
       <==> IdealVerdict(i, t.window, n) == New && forall m :: m in i.accepted ==> m % MODULUS != n % MODULUS
  {
    if i.newest.Some? {
      ClassifyNear(t, n, i.newest.value);
    }
  }

  /** Two numbers of one lap with the same residue are the same number. */
  lemma SameResidue(m: int, n: int)
    requires -MODULUS < m - n < MODULUS && m % MODULUS == n % MODULUS
    ensures m == n
  {
  }

  lemma SeenIsAccepted(t: Tracker, i: Ideal, n: int, base: int)
    requires Represents(t, i) && InLap(i, n, base)
    ensures n % MODULUS in t.seen <==> n in i.accepted
  {
    if n % MODULUS in t.seen {
      var m :| m in i.accepted && m % MODULUS == n % MODULUS;
      SameResidue(m, n);
    }
  }

  /** Within one lap the residue identifies the number, so the two verdicts agree. */
  lemma VerdictAgrees(t: Tracker, i: Ideal, n: int, base: int)
    requires Represents(t, i) && Near(i, n) && InLap(i, n, base)
    ensures Classify(t, n % MODULUS) == IdealVerdict(i, t.window, n)
  {
    if i.newest.Some? {
      ClassifyNear(t, n, i.newest.value);
      SeenIsAccepted(t, i, n, base);
    }
  }

  /**
   Beyond the lap, exactly when the two verdicts agree: unless the residue was seen on a number that is neither
   accepted nor inside the window.
   */
  lemma VerdictAgreesIff(t: Tracker, i: Ideal, n: int)
    requires Represents(t, i) && Near(i, n)
    ensures Classify(t, n % MODULUS) == IdealVerdict(i, t.window, n)
       <==> (n % MODULUS in t.seen ==>
               n <= i.newest.value && (n in i.accepted || i.newest.value - n <= t.window))
  {
    if i.newest.Some? {
      ClassifyNear(t, n, i.newest.value);
    }
  }

  lemma ReceiveAgrees(t: Tracker, i: Ideal, n: int, base: int)
    requires Represents(t, i) && Near(i, n) && InLap(i, n, base)
    ensures Represents(Receive(t, n % MODULUS), IdealReceive(i, t.window, n))
    ensures Receive(t, n % MODULUS).window == t.window
    ensures IdealVerdict(i, t.window, n) == New && i.newest.Some? ==>
      IdealReceive(i, t.window, n).newest.value > i.newest.value
  {
    VerdictAgrees(t, i, n, base);
    if i.newest.Some? {
      Distance(n, i.newest.value);
    }
    var t', i' := Receive(t, n % MODULUS), IdealReceive(i, t.window, n);
    if IdealVerdict(i, t.window, n) == New {
      forall s | s in t'.seen
        ensures exists m :: m in i'.accepted && m % MODULUS == s
      {
        if s in t.seen {
          var m :| m in i.accepted && m % MODULUS == s;
          assert m in i'.accepted;
        } else {
          assert n in i'.accepted;
        }
      }
    }
  }

  /** The true numbers stay in one lap, each within half a lap of the newest accepted before it. */
  predicate Tame(i: Ideal, window: int, numbers: seq<int>, base: int)
    decreases numbers
  {
    numbers == []
    || (Near(i, numbers[0]) && base <= numbers[0] < base + MODULUS
        && Tame(IdealReceive(i, window, numbers[0]), window, numbers[1..], base))
  }

  function Verdicts(t: Tracker, numbers: seq<int>): seq<Verdict>
    decreases numbers
  {
    if numbers == [] then []
    else [Classify(t, numbers[0] % MODULUS)] + Verdicts(Receive(t, numbers[0] % MODULUS), numbers[1..])
  }

  function IdealVerdicts(i: Ideal, window: int, numbers: seq<int>): seq<Verdict>
    decreases numbers
  {
    if numbers == [] then []
    else
      [IdealVerdict(i, window, numbers[0])]
      + IdealVerdicts(IdealReceive(i, window, numbers[0]), window, numbers[1..])
  }

  /** Over a whole run the 16-bit tracker gives the verdicts of the unbounded one. */
  lemma {:induction false} RefinesIdeal(t: Tracker, i: Ideal, numbers: seq<int>, base: int)
    requires Represents(t, i) && Tame(i, t.window, numbers, base)
    requires forall m :: m in i.accepted ==> base <= m < base + MODULUS
    ensures Verdicts(t, numbers) == IdealVerdicts(i, t.window, numbers)
    decreases numbers
  {
    if numbers != [] {
      var n := numbers[0];
      VerdictAgrees(t, i, n, base);
      ReceiveAgrees(t, i, n, base);
      RefinesIdeal(Receive(t, n % MODULUS), IdealReceive(i, t.window, n), numbers[1..], base);
    }
  }

  lemma FreshRepresents()
    ensures Represents(FRESH, IDEAL_FRESH)
  {
  }

  /** ... in particular from a new registration on. */
  lemma FreshRefinesIdeal(numbers: seq<int>, base: int)
    requires Tame(IDEAL_FRESH, DEFAULT_WINDOW, numbers, base)
    ensures Verdicts(FRESH, numbers) == IdealVerdicts(IDEAL_FRESH, DEFAULT_WINDOW, numbers)
  {
    FreshRepresents();
    RefinesIdeal(FRESH, IDEAL_FRESH, numbers, base);
  }

  // ---------- the same in plain terms ----------

  /** The numbers as they travel. */
  function Wire(numbers: seq<int>): (r: seq<int>)
    ensures |r| == |numbers|
    ensures forall k :: 0 <= k < |numbers| ==> r[k] == numbers[k] % 65536
  {
    seq(|numbers|, k requires 0 <= k < |numbers| => numbers[k] % 65536)
  }

  predicate AboveAll(n: int, numbers: seq<int>)
  {
    forall k :: 0 <= k < |numbers| ==> numbers[k] < n
  }

  /** The numbers that are above all before them. */
  function Peaks(numbers: seq<int>): seq<int>
  {
    if numbers == [] then []
    else
      var before, last := numbers[..|numbers| - 1], numbers[|numbers| - 1];
      Peaks(before) + if AboveAll(last, before) then [last] else []
  }

  function Highest(numbers: seq<int>): (h: int)
    requires numbers != []
    ensures h in numbers && forall k :: 0 <= k < |numbers| ==> numbers[k] <= h
  {
    var before, last := numbers[..|numbers| - 1], numbers[|numbers| - 1];
    if before == [] || AboveAll(last, before) then last else Highest(before)
  }

  /** All within one lap, and each within half a lap of the highest before it. */
  predicate Steady(numbers: seq<int>, base: int)
    decreases numbers
  {
    if numbers == [] then true
    else
      var before, last := numbers[..|numbers| - 1], numbers[|numbers| - 1];
      && Steady(before, base)
      && base <= last < base + 65536
      && (before != [] ==> -32768 <= last - Highest(before) < 32768)
  }

  /** The unbounded tracker after these numbers: it accepted their peaks, and the newest is the highest. */
  function PeaksSeen(numbers: seq<int>): Ideal
  {
    if numbers == [] then IDEAL_FRESH else Ideal((set n | n in Peaks(numbers)), Some(Highest(numbers)))
  }

  lemma {:induction false} PeaksAreAmong(numbers: seq<int>, n: int)
    requires n in Peaks(numbers)
    ensures n in numbers
  {
    if numbers != [] {
      var before := numbers[..|numbers| - 1];
      if n in Peaks(before) {
        PeaksAreAmong(before, n);
      }
    }
  }

  lemma {:induction false} SteadyStaysInLap(numbers: seq<int>, base: int)
    requires Steady(numbers, base)
    ensures forall k :: 0 <= k < |numbers| ==> base <= numbers[k] < base + 65536
  {
    if numbers != [] {
      SteadyStaysInLap(numbers[..|numbers| - 1], base);
    }
  }

  /** One more number moves the unbounded tracker as its peaks say. */
  lemma NextPeak(before: seq<int>, last: int)
    ensures PeaksSeen(before + [last]) == IdealReceive(PeaksSeen(before), DEFAULT_WINDOW, last)
  {
    var numbers := before + [last];
    assert numbers[..|before|] == before;
    if before != [] {
      assert AboveAll(last, before) <==> last > Highest(before);
    }
  }

  lemma {:induction false} FollowsThePeaks(numbers: seq<int>, base: int)
    requires Steady(numbers, base)
    ensures Represents(ReceiveAll(FRESH, Wire(numbers)), PeaksSeen(numbers))
    ensures ReceiveAll(FRESH, Wire(numbers)).window == DEFAULT_WINDOW
  {
    if numbers == [] {
      FreshRepresents();
    } else {
      var before, last := numbers[..|numbers| - 1], numbers[|numbers| - 1];
      assert numbers == before + [last] && Wire(numbers)[..|before|] == Wire(before);
      FollowsThePeaks(before, base);
      InTheLap(before, last, base);
      ReceiveAgrees(ReceiveAll(FRESH, Wire(before)), PeaksSeen(before), last, base);
      NextPeak(before, last);
    }
  }

  lemma InTheLap(before: seq<int>, last: int, base: int)
    requires Steady(before + [last], base)
    ensures Near(PeaksSeen(before), last) && InLap(PeaksSeen(before), last, base)
  {
    var numbers := before + [last];
    assert numbers[..|before|] == before;
    SteadyStaysInLap(before, base);
    forall n | n in PeaksSeen(before).accepted
      ensures base <= n < base + 65536
    {
      PeaksAreAmong(before, n);
    }
  }

  /**
   What a newly registered sender's numbers are called, over any run that stays in one lap and near its highest
   number: new exactly when above all before, a duplicate when it was new before or lags by at most 32, else stale.
   */
  lemma VerdictInRun(numbers: seq<int>, n: int, base: int)
    requires Steady(numbers + [n], base)
    ensures Classify(ReceiveAll(FRESH, Wire(numbers)), n % 65536) ==
      if AboveAll(n, numbers) then New
      else if n in Peaks(numbers) || Highest(numbers) - n <= 32 then Duplicate
      else Stale
  {
    assert (numbers + [n])[..|numbers|] == numbers;
    FollowsThePeaks(numbers, base);
    InTheLap(numbers, n, base);
    VerdictAgrees(ReceiveAll(FRESH, Wire(numbers)), PeaksSeen(numbers), n, base);
  }

  lemma NextAccepted(arrivals: seq<int>, s: int, verdict: Verdict)
    requires verdict == Classify(ReceiveAll(FRESH, arrivals), s)
    ensures AcceptedOf(FRESH, arrivals + [s])
         == AcceptedOf(FRESH, arrivals) + if verdict == Duplicate || verdict == Stale then [] else [s]
  {
    assert (arrivals + [s])[..|arrivals|] == arrivals;
  }

  lemma WireOfNext(numbers: seq<int>, n: int)
    ensures Wire(numbers + [n]) == Wire(numbers) + [n % 65536]
  {
  }

  /** ... so what gets through is, in order, exactly the numbers above all before them. */
  lemma {:induction false} AcceptsThePeaks(numbers: seq<int>, base: int)
    requires Steady(numbers, base)
    ensures AcceptedOf(FRESH, Wire(numbers)) == Wire(Peaks(numbers))
  {
    if numbers != [] {
      var before, last := numbers[..|numbers| - 1], numbers[|numbers| - 1];
      assert numbers == before + [last];
      AcceptsThePeaks(before, base);
      VerdictInRun(before, last, base);
      WireOfNext(before, last);
      WireOfNext(Peaks(before), last);
      NextAccepted(Wire(before), last % 65536, Classify(ReceiveAll(FRESH, Wire(before)), last % 65536));
    }
  }

  // ---------- the end of the lap ----------

  /** The wire numbers of a sender that counts 0, 1, 2, ... */
  function Counting(k: nat): (s: seq<int>)
    ensures |s| == k
  {
    if k == 0 then [] else Counting(k - 1) + [(k - 1) % MODULUS]
  }

  /** A tracker that let through exactly 0, 1, ..., up to `k` of them but at most a lap. */
  predicate HasCounted(t: Tracker, k: nat)
  {
    && Sound(t) && t.window == DEFAULT_WINDOW
    && (forall s :: 0 <= s < k && s < MODULUS ==> s in t.seen)
    && (forall s :: s in t.seen ==> 0 <= s < k && s < MODULUS)
    && (k > 0 ==> t.newest == Some(if k <= MODULUS then k - 1 else MODULUS - 1))
  }

  lemma VerdictOnNext(t: Tracker, k: nat)
    requires HasCounted(t, k)
    ensures Classify(t, k % MODULUS) == if k < MODULUS then New else Duplicate
  {
    if 0 < k < MODULUS {
      ClassifyNear(t, k, k - 1);
    }
  }

  lemma CountOne(t: Tracker, k: nat)
    requires HasCounted(t, k)
    ensures HasCounted(Receive(t, k % MODULUS), k + 1)
  {
    VerdictOnNext(t, k);
    ReceiveSound(t, k % MODULUS);
    if 0 < k < MODULUS {
      Distance(k, k - 1);
    }
  }

  /** The tracker after the first `k` of them. */
  function Counted(k: nat): Tracker
  {
    if k == 0 then FRESH else Receive(Counted(k - 1), (k - 1) % MODULUS)
  }

  lemma {:induction false} CountedIs(k: nat)
    ensures ReceiveAll(FRESH, Counting(k)) == Counted(k)
  {
    if k > 0 {
      CountedIs(k - 1);
      assert Counting(k)[..k - 1] == Counting(k - 1);
    }
  }

  lemma {:induction false} Consecutive(k: nat)
    ensures HasCounted(Counted(k), k)
  {
    if k > 0 {
      Consecutive(k - 1);
      CountOne(Counted(k - 1), k - 1);
    }
  }

  /**
   A sender that counts past 2^16 is not followed around the wrap: of the numbers 0, 1, 2, ... exactly the first
   65536 are accepted, and every later one is called a duplicate although it was never sent before.
   */
  lemma EndlessStream(k: nat)
    ensures Classify(ReceiveAll(FRESH, Counting(k)), k % 65536) == if k < 65536 then New else Duplicate
  {
    Consecutive(k);
    CountedIs(k);
    VerdictOnNext(Counted(k), k);
  }
}
