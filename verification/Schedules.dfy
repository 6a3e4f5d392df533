/** Daily schedules made of windows that may wrap past midnight. */
module Schedules {
  import opened Wrappers

  datatype TimeWindow = TimeWindow(start: int, end: int) {

    /** The checks made when a window is built. */
    predicate Valid()
    {
      start >= 0 && end >= 0 && start != end
    }

    predicate Contains(tickOfDay: int)
    {
      if start < end then start <= tickOfDay < end else tickOfDay >= start || tickOfDay < end
    }
  }

  datatype Schedule = Schedule(dayLength: int, windows: seq<TimeWindow>) {

    /** The checks made when a schedule is built. */
    predicate Valid()
    {
      && dayLength > 0
      && forall i :: 0 <= i < |windows| ==>
           windows[i].Valid() && windows[i].start < dayLength && windows[i].end <= dayLength
    }

    predicate IsOn(ticks: int)
      requires Valid()
    {
      exists i :: 0 <= i < |windows| && windows[i].Contains(ticks % dayLength)
    }
  }

  /** The distance from a tick of day to the next occurrence of a bound, a whole day if they coincide. */
  function DeltaTo(day: int, tickOfDay: int, bound: int): int
    requires day > 0
  {
    var delta := (bound - tickOfDay) % day;
    if delta != 0 then delta else day
  }

  method NextTransition(s: Schedule, ticks: int) returns (next: Option<int>)
    requires s.Valid()
    ensures next.None? <==> s.windows == []
    ensures next.Some? ==> IsNext(s, ticks, next.value)
  {
    var tickOfDay := ticks % s.dayLength;
    var candidates: seq<int> := [];
    for i := 0 to |s.windows|
      invariant |candidates| == 2 * i
      invariant forall k :: 0 <= k < i ==>
        && candidates[2 * k] == DeltaTo(s.dayLength, tickOfDay, s.windows[k].start)
        && candidates[2 * k + 1] == DeltaTo(s.dayLength, tickOfDay, s.windows[k].end)
    {
      var delta := (s.windows[i].start - tickOfDay) % s.dayLength;
      candidates := candidates + [if delta != 0 then delta else s.dayLength];
      delta := (s.windows[i].end - tickOfDay) % s.dayLength;
      candidates := candidates + [if delta != 0 then delta else s.dayLength];
    }
    if s.windows == [] {
      return None;
    }
    var at := LeastIndex(candidates);
    var least := candidates[at];
    ghost var k := at / 2;
    assert at == 2 * k || at == 2 * k + 1;
    assert candidates[2 * k] == DeltaTo(s.dayLength, tickOfDay, s.windows[k].start);
    assert candidates[2 * k + 1] == DeltaTo(s.dayLength, tickOfDay, s.windows[k].end);
    forall i | 0 <= i < |s.windows|
      ensures least <= DeltaTo(s.dayLength, tickOfDay, s.windows[i].start)
      ensures least <= DeltaTo(s.dayLength, tickOfDay, s.windows[i].end)
    {
      assert least <= candidates[2 * i] && least <= candidates[2 * i + 1];
    }
    return Some(ticks + least);
  }

  method LeastIndex(candidates: seq<int>) returns (at: nat)
    requires candidates != []
    ensures at < |candidates| && forall k :: 0 <= k < |candidates| ==> candidates[at] <= candidates[k]
  {
    at := 0;
    for j := 1 to |candidates|
      invariant at < |candidates| && forall k :: 0 <= k < j ==> candidates[at] <= candidates[k]
    {
      if candidates[j] < candidates[at] {
        at := j;
      }
    }
  }

  predicate IsBound(s: Schedule, i: nat, bound: int)
    requires i < |s.windows|
  {
    bound == s.windows[i].start || bound == s.windows[i].end
  }

  /** `next` is the nearest later occurrence of some window bound. */
  ghost predicate IsNext(s: Schedule, ticks: int, next: int)
    requires s.Valid()
  {
    var t := ticks % s.dayLength;
    && (forall k :: 0 <= k < |s.windows| ==>
          && next - ticks <= DeltaTo(s.dayLength, t, s.windows[k].start)
          && next - ticks <= DeltaTo(s.dayLength, t, s.windows[k].end))
    && (exists k :: 0 <= k < |s.windows| &&
          (next - ticks == DeltaTo(s.dayLength, t, s.windows[k].start)
           || next - ticks == DeltaTo(s.dayLength, t, s.windows[k].end)))
  }

  // ---------- modular facts ----------

  lemma AtLeastOnce(x: int, day: int)
    requires x >= 1 && day > 0
    ensures x * day >= day
  {
  }

  lemma Unique(a: int, day: int, q: int, r: int)
    requires day > 0 && 0 <= r < day && a == q * day + r
    ensures a % day == r
  {
    var q', r' := a / day, a % day;
    assert a == q' * day + r';
    assert (q' - q) * day == r - r';
    assert (q - q') * day == r' - r;
    if q' > q {
      AtLeastOnce(q' - q, day);
    } else if q' < q {
      AtLeastOnce(q - q', day);
    }
  }

  /** Moving `k` ticks on from tick-of-day `t` lands on `r`, possibly across midnight. */
  lemma Residue(ticks: int, k: int, day: int, r: int)
    requires day > 0 && 0 <= r < day
    requires ticks % day + k == r || ticks % day + k == r + day
    ensures (ticks + k) % day == r
  {
    var q, t := ticks / day, ticks % day;
    assert ticks == q * day + t;
    if t + k == r {
      Unique(ticks + k, day, q, r);
    } else {
      assert (q + 1) * day == q * day + day;
      Unique(ticks + k, day, q + 1, r);
    }
  }

  lemma NextTick(t: int, day: int)
    requires day > 0
    ensures (t + 1) % day == if t % day == day - 1 then 0 else t % day + 1
  {
    Residue(t, 1, day, if t % day == day - 1 then 0 else t % day + 1);
  }

  /** A bound of a window as a tick of day: the end of the day is its start. */
  function Wrap(day: int, bound: int): int
  {
    if bound == day then 0 else bound
  }

  lemma WrapIsMod(day: int, bound: int)
    requires day > 0 && 0 <= bound <= day
    ensures bound % day == Wrap(day, bound)
  {
    if bound == day {
      Unique(bound, day, 1, 0);
    } else {
      Unique(bound, day, 0, bound);
    }
  }

  lemma DeltaValue(day: int, t: int, bound: int)
    requires 0 <= t < day && 0 <= bound <= day
    ensures DeltaTo(day, t, bound) == Wrap(day, bound) - t + (if Wrap(day, bound) > t then 0 else day)
  {
    var b := Wrap(day, bound);
    var q := if bound == day then 1 else 0;
    if b >= t {
      Unique(bound - t, day, q, b - t);
    } else {
      assert (q - 1) * day == q * day - day;
      Unique(bound - t, day, q - 1, b - t + day);
    }
  }

  /** A bound is met again exactly `DeltaTo` ticks ahead, within a day. */
  lemma AtBound(day: int, ticks: int, bound: int)
    requires day > 0 && 0 <= bound <= day
    ensures 1 <= DeltaTo(day, ticks % day, bound) <= day
    ensures (ticks + DeltaTo(day, ticks % day, bound)) % day == Wrap(day, bound)
  {
    DeltaValue(day, ticks % day, bound);
    Residue(ticks, DeltaTo(day, ticks % day, bound), day, Wrap(day, bound));
  }

  lemma MeetsBound(day: int, ticks: int, bound: int, next: int)
    requires day > 0 && 0 <= bound <= day
    requires next - ticks == DeltaTo(day, ticks % day, bound)
    ensures next % day == bound % day
  {
    var d := DeltaTo(day, ticks % day, bound);
    AtBound(day, ticks, bound);
    assert ticks + d == next;
    WrapIsMod(day, bound);
  }

  /** ... and not before. */
  lemma NotBefore(day: int, ticks: int, bound: int, k: nat)
    requires day > 0 && 0 <= bound <= day
    requires 0 < k < DeltaTo(day, ticks % day, bound)
    ensures (ticks + k) % day != Wrap(day, bound)
  {
    var t := ticks % day;
    DeltaValue(day, t, bound);
    Residue(ticks, k, day, if t + k < day then t + k else t + k - day);
  }

  lemma SamePrevious(a: int, b: int, day: int)
    requires day > 0 && a % day == b % day
    ensures (a - 1) % day == (b - 1) % day
  {
    var r := if a % day == 0 then day - 1 else a % day - 1;
    NextTick(a - 1, day);
    NextTick(b - 1, day);
  }

  // ---------- what the next transition means ----------

  /** A window changes between a tick and the one before only at one of its bounds. */
  /** Whether a window is open, counted forward from its start: for as many ticks as lie between its bounds. */
  lemma ContainsIff(w: TimeWindow, day: int, t: int)
    requires w.Valid() && w.start < day && w.end <= day && 0 <= t < day
    ensures w.Contains(t) <==> (t - w.start) % day <= (w.end - 1 - w.start) % day
  {
    WrappedDifference(t, w.start, day);
    if w.end > 0 {
      WrappedDifference(w.end - 1, w.start, day);
    } else {
      assert (w.end - 1 - w.start) % day == day - 1 - w.start by {
        Unique(w.end - 1 - w.start, day, -1, day - 1 - w.start);
      }
    }
  }

  lemma WrappedDifference(t: int, start: int, day: int)
    requires 0 <= t < day && 0 <= start < day
    ensures (t - start) % day == if t >= start then t - start else t - start + day
  {
    Unique(t - start, day, if t >= start then 0 else -1, if t >= start then t - start else t - start + day);
  }

  /** A schedule is on exactly while one of its windows is open, on every day. */
  lemma IsOnIff(s: Schedule, ticks: int)
    requires s.Valid()
    ensures s.IsOn(ticks)
       <==> exists i :: 0 <= i < |s.windows| &&
              var w := s.windows[i];
              (ticks % s.dayLength - w.start) % s.dayLength <= (w.end - 1 - w.start) % s.dayLength
  {
    forall i | 0 <= i < |s.windows|
      ensures var w := s.windows[i];
        w.Contains(ticks % s.dayLength)
        <==> (ticks % s.dayLength - w.start) % s.dayLength <= (w.end - 1 - w.start) % s.dayLength
    {
      ContainsIff(s.windows[i], s.dayLength, ticks % s.dayLength);
    }
  }

  lemma WindowSteady(w: TimeWindow, day: int, t: int)
    requires w.Valid() && day > 0 && w.start < day && w.end <= day
    requires (t + 1) % day != Wrap(day, w.start) && (t + 1) % day != Wrap(day, w.end)
    ensures w.Contains((t + 1) % day) == w.Contains(t % day)
  {
    NextTick(t, day);
  }

  lemma {:induction false} SteadyFor(s: Schedule, ticks: int, next: int, k: nat)
    requires s.Valid() && IsNext(s, ticks, next) && k < next - ticks
    ensures s.IsOn(ticks + k) == s.IsOn(ticks)
    decreases k
  {
    if k > 0 {
      SteadyFor(s, ticks, next, k - 1);
      var a := ticks + k - 1;
      forall i | 0 <= i < |s.windows|
        ensures s.windows[i].Contains((a + 1) % s.dayLength) == s.windows[i].Contains(a % s.dayLength)
      {
        NotBefore(s.dayLength, ticks, s.windows[i].start, k);
        NotBefore(s.dayLength, ticks, s.windows[i].end, k);
        WindowSteady(s.windows[i], s.dayLength, a);
      }
      SameWindows(s, a + 1, a);
    }
  }

  lemma SameWindows(s: Schedule, a: int, b: int)
    requires s.Valid()
    requires forall i :: 0 <= i < |s.windows| ==>
      s.windows[i].Contains(a % s.dayLength) == s.windows[i].Contains(b % s.dayLength)
    ensures s.IsOn(a) == s.IsOn(b)
  {
  }

  /** No transition is missed: the state is constant up to, and not including, the announced tick. */
  lemma ConstantUntilNext(s: Schedule, ticks: int, next: int)
    requires s.Valid() && IsNext(s, ticks, next)
    ensures 1 <= next - ticks <= s.dayLength
    ensures forall t :: ticks <= t < next ==> s.IsOn(t) == s.IsOn(ticks)
  {
    forall k | 0 <= k < |s.windows|
      ensures 1 <= DeltaTo(s.dayLength, ticks % s.dayLength, s.windows[k].start) <= s.dayLength
      ensures 1 <= DeltaTo(s.dayLength, ticks % s.dayLength, s.windows[k].end) <= s.dayLength
    {
      AtBound(s.dayLength, ticks, s.windows[k].start);
      AtBound(s.dayLength, ticks, s.windows[k].end);
    }
    forall t | ticks <= t < next
      ensures s.IsOn(t) == s.IsOn(ticks)
    {
      SteadyFor(s, ticks, next, t - ticks);
    }
  }

  lemma OnlyDependsOnTickOfDay(s: Schedule, a: int, b: int)
    requires s.Valid() && a % s.dayLength == b % s.dayLength
    ensures s.IsOn(a) == s.IsOn(b)
  {
  }

  /** The window bound `b` is an edge of the whole schedule: the state differs on its two sides. */
  predicate Edge(s: Schedule, b: int)
    requires s.Valid()
  {
    s.IsOn(b) != s.IsOn(b - 1)
  }

  predicate BothEdges(s: Schedule, i: nat)
    requires s.Valid() && i < |s.windows|
  {
    Edge(s, s.windows[i].start) && Edge(s, s.windows[i].end)
  }

  predicate AllBoundsAreEdges(s: Schedule)
    requires s.Valid()
  {
    forall i :: 0 <= i < |s.windows| ==> BothEdges(s, i)
  }

  predicate Uncovered(s: Schedule, t: int)
    requires s.Valid()
  {
    forall j :: 0 <= j < |s.windows| ==> !s.windows[j].Contains(t % s.dayLength)
  }

  predicate Alone(s: Schedule, i: nat)
    requires s.Valid() && i < |s.windows|
  {
    Uncovered(s, s.windows[i].start - 1) && Uncovered(s, s.windows[i].end)
  }

  /** Windows neither overlap nor touch: none contains the tick before a start or the tick at an end, cyclically. */
  predicate Separated(s: Schedule)
    requires s.Valid()
  {
    forall i :: 0 <= i < |s.windows| ==> Alone(s, i)
  }

  lemma WindowEnds(w: TimeWindow, day: int)
    requires w.Valid() && day > 0 && w.start < day && w.end <= day
    ensures w.Contains(w.start % day) && w.Contains((w.end - 1) % day)
  {
    WrapIsMod(day, w.start);
    WrapIsMod(day, w.end);
    NextTick(w.end - 1, day);
  }

  /** A window is on at its start and just before its end, so its bounds are edges if nothing else covers them. */
  lemma EdgesOf(s: Schedule, i: nat)
    requires s.Valid() && i < |s.windows|
    ensures Edge(s, s.windows[i].start) <==> Uncovered(s, s.windows[i].start - 1)
    ensures Edge(s, s.windows[i].end) <==> Uncovered(s, s.windows[i].end)
  {
    WindowEnds(s.windows[i], s.dayLength);
    assert s.IsOn(s.windows[i].start) && s.IsOn(s.windows[i].end - 1);
  }

  lemma SeparatedIffEdges(s: Schedule)
    requires s.Valid()
    ensures Separated(s) <==> AllBoundsAreEdges(s)
  {
    forall i | 0 <= i < |s.windows|
      ensures Alone(s, i) <==> BothEdges(s, i)
    {
      EdgesOf(s, i);
    }
  }

  /**
   The announced tick is a real transition from every starting tick exactly when the windows are separated.  For
   touching windows it can fail, as `TouchingWindowsMislead` shows.
   */
  lemma RealTransitionIff(s: Schedule)
    requires s.Valid()
    ensures Separated(s)
       <==> forall ticks, next :: IsNext(s, ticks, next) ==> s.IsOn(next) != s.IsOn(next - 1)
  {
    SeparatedIffEdges(s);
    if AllBoundsAreEdges(s) {
      forall ticks, next | IsNext(s, ticks, next)
        ensures s.IsOn(next) != s.IsOn(next - 1)
      {
        NextIsABound(s, ticks, next);
      }
    }
    if forall ticks, next :: IsNext(s, ticks, next) ==> s.IsOn(next) != s.IsOn(next - 1) {
      forall i | 0 <= i < |s.windows|
        ensures BothEdges(s, i)
      {
        JustBeforeABound(s, i, s.windows[i].start);
        JustBeforeABound(s, i, s.windows[i].end);
      }
    }
  }

  lemma NextIsABound(s: Schedule, ticks: int, next: int)
    requires s.Valid() && IsNext(s, ticks, next) && AllBoundsAreEdges(s)
    ensures s.IsOn(next) != s.IsOn(next - 1)
  {
    var day, t := s.dayLength, ticks % s.dayLength;
    var k :| 0 <= k < |s.windows| && (next - ticks == DeltaTo(day, t, s.windows[k].start)
                                      || next - ticks == DeltaTo(day, t, s.windows[k].end));
    var b := if next - ticks == DeltaTo(day, t, s.windows[k].start) then s.windows[k].start else s.windows[k].end;
    assert BothEdges(s, k);
    AtEdge(s, b, ticks, next);
  }

  lemma AtEdge(s: Schedule, b: int, ticks: int, next: int)
    requires s.Valid() && 0 <= b <= s.dayLength && Edge(s, b)
    requires next - ticks == DeltaTo(s.dayLength, ticks % s.dayLength, b)
    ensures s.IsOn(next) != s.IsOn(next - 1)
  {
    MeetsBound(s.dayLength, ticks, b, next);
    EdgeEveryDay(s, b, next);
  }

  lemma EdgeEveryDay(s: Schedule, b: int, t: int)
    requires s.Valid() && t % s.dayLength == b % s.dayLength
    ensures (s.IsOn(t) != s.IsOn(t - 1)) == Edge(s, b)
  {
    SamePrevious(t, b, s.dayLength);
    OnlyDependsOnTickOfDay(s, t, b);
    OnlyDependsOnTickOfDay(s, t - 1, b - 1);
  }

  lemma JustBeforeABound(s: Schedule, i: nat, b: int)
    requires s.Valid() && i < |s.windows| && IsBound(s, i, b)
    ensures IsNext(s, b - 1, b)
  {
    var day := s.dayLength;
    var t := (b - 1) % day;
    NextTick(b - 1, day);
    WrapIsMod(day, b);
    DeltaValue(day, t, b);
    forall k | 0 <= k < |s.windows|
      ensures 1 <= DeltaTo(day, t, s.windows[k].start) && 1 <= DeltaTo(day, t, s.windows[k].end)
    {
      AtBound(day, b - 1, s.windows[k].start);
      AtBound(day, b - 1, s.windows[k].end);
    }
  }

  /** One window whose bounds differ modulo the day really switches at the announced tick. */
  lemma SingleWindowFlips(s: Schedule, ticks: int, next: int)
    requires s.Valid() && |s.windows| == 1 && IsNext(s, ticks, next)
    requires s.windows[0].start % s.dayLength != s.windows[0].end % s.dayLength
    ensures s.IsOn(next) != s.IsOn(next - 1)
  {
    WindowEdges(s.windows[0], s.dayLength);
    assert Uncovered(s, s.windows[0].start - 1) && Uncovered(s, s.windows[0].end);
    assert Alone(s, 0) && Separated(s);
    SeparatedIffEdges(s);
    NextIsABound(s, ticks, next);
  }

  lemma WindowEdges(w: TimeWindow, day: int)
    requires w.Valid() && day > 0 && w.start < day && w.end <= day && w.start % day != w.end % day
    ensures !w.Contains((w.start - 1) % day) && !w.Contains(w.end % day)
  {
    WrapIsMod(day, w.start);
    WrapIsMod(day, w.end);
    NextTick(w.start - 1, day);
  }

  /** Two touching windows: the announced tick is no transition at all. */
  lemma TouchingWindowsMislead()
    ensures var s := Schedule(10, [TimeWindow(2, 5), TimeWindow(5, 8)]);
      s.Valid() && IsNext(s, 3, 5) && s.IsOn(4) && s.IsOn(5) && !Separated(s)
  {
    var s := Schedule(10, [TimeWindow(2, 5), TimeWindow(5, 8)]);
    assert s.windows[0].Contains(4 % 10) && s.windows[1].Contains(5 % 10);
    assert DeltaTo(10, 3, 2) == 9 && DeltaTo(10, 3, 5) == 2 && DeltaTo(10, 3, 8) == 5;
    assert 5 - 3 == DeltaTo(s.dayLength, 3 % s.dayLength, s.windows[0].end);
    assert !Uncovered(s, s.windows[0].end) && !Alone(s, 0);
  }

  function AlwaysOn(day: int): Schedule
  {
    Schedule(day, [TimeWindow(0, day - 1)])
  }

  /** The always-on schedule is off at the last tick of every day, and cannot be built for a one-tick day. */
  lemma AlwaysOnHasAGap(day: int, ticks: int)
    requires day > 0
    ensures AlwaysOn(day).Valid() <==> day > 1
    ensures day > 1 ==> (AlwaysOn(day).IsOn(ticks) <==> ticks % day != day - 1)
  {
    var s := AlwaysOn(day);
    assert s.windows[0].Valid() <==> day > 1;
    if day > 1 {
      assert s.windows[0].Contains(ticks % day) <==> ticks % day != day - 1;
    }
  }
}
