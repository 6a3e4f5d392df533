/** The in-memory bus: addressing, silent nodes, injected corruption and delivery counters. */
module Bus {
  import opened Wrappers
  import opened Bytes
  import opened Bits
  import opened Crc
  import opened Frames
  import opened Sorting

  const BROADCAST_DESTINATION := 0xFF

  /** `inboxes[a]` lists the frames received so far by the endpoint attached at address `a`. */
  type Inboxes = map<int, seq<Frame>>

  function Less(a: int, b: int): bool
  {
    a < b
  }

  /** The attached addresses a destination stands for. */
  function Addressed(attached: set<int>, destination: int): set<int>
  {
    if destination == BROADCAST_DESTINATION then attached else attached * {destination}
  }

  /** Each live address in turn gains the frame. */
  function Deliver(inboxes: Inboxes, silent: set<int>, f: Frame, d: seq<int>): Inboxes
    requires forall j :: 0 <= j < |d| ==> d[j] in inboxes
    decreases d
  {
    if d == [] then inboxes
    else if d[0] in silent then Deliver(inboxes, silent, f, d[1..])
    else Deliver(inboxes[d[0] := inboxes[d[0]] + [f]], silent, f, d[1..])
  }

  /** Every live addressee gains the frame exactly once and nobody else gains anything. */
  lemma {:induction false} DeliverAt(inboxes: Inboxes, silent: set<int>, f: Frame, d: seq<int>, a: int)
    requires Distinct(d) && forall j :: 0 <= j < |d| ==> d[j] in inboxes
    requires a in inboxes
    ensures Deliver(inboxes, silent, f, d).Keys == inboxes.Keys
    ensures Deliver(inboxes, silent, f, d)[a] == if a in d && a !in silent then inboxes[a] + [f] else inboxes[a]
    decreases d
  {
    if d != [] {
      var next := if d[0] in silent then inboxes else inboxes[d[0] := inboxes[d[0]] + [f]];
      assert a in d <==> a == d[0] || a in d[1..];
      DeliverAt(next, silent, f, d[1..], a);
    }
  }

  /** How many addresses are skipped as silent before the first live one. */
  function LeadingSilent(d: seq<int>, silent: set<int>): nat
  {
    if d == [] || d[0] !in silent then 0 else 1 + LeadingSilent(d[1..], silent)
  }

  /** How many of the addresses are live. */
  function LiveCount(d: seq<int>, silent: set<int>): (n: nat)
    ensures n <= |d|
  {
    if d == [] then 0 else (if d[0] in silent then 0 else 1) + LiveCount(d[1..], silent)
  }

  /** Whether a transmission gets as far as the wire. */
  predicate Transmitted(attached: set<int>, f: Frame, fromEndpoint: bool)
  {
    Encodable(f) && (fromEndpoint ==> f.source in attached)
  }

  // ---------- injected corruption ----------

  /** The wire with its last octet inverted. */
  function Corrupt(wire: bytes): (r: bytes)
    requires wire != []
    ensures |r| == |wire|
  {
    wire[|wire| - 1 := XorByte(wire[|wire| - 1], 0xFF)]
  }

  /** The injected corruption is an eight-bit burst, so the receiver's CRC check always catches it. */
  lemma CorruptionRejected(f: Frame)
    requires Encodable(f)
    ensures Decode(Corrupt(Encode(f).value)) == Err(IntegrityError)
  {
    var w := Encode(f).value;
    var n := |w|;
    var e: bytes := seq(n, i => if i == n - 1 then 0xFF else 0);
    forall i | 0 <= i < n
      ensures XorBytes(w, e)[i] == Corrupt(w)[i]
    {
      XorByteIsIdentity(w[i], 0);
    }
    assert XorBytes(w, e) == Corrupt(w);
    LastOctetBurst(e);
    BurstDetected(BitsOf(e), 8 * n - 16);
    CorruptedResidue(f, e);
    ResidueTest(Corrupt(w));
    DecodeEncode(f);
    Accepted(w);
    assert Corrupt(w)[5..7] == w[5..7];
  }

  lemma LastOctetBurst(e: bytes)
    requires |e| >= 2
    requires forall i :: 0 <= i < |e| ==> e[i] == if i == |e| - 1 then 0xFF else 0
    ensures BurstAt(BitsOf(e), 8 * |e| - 16)
  {
    var n := |e|;
    assert e == e[..n - 1] + [e[n - 1]];
    BitsOfConcat(e[..n - 1], [e[n - 1]]);
    BitsOfOctet(e[n - 1]);
    BitsOfZeros(e[..n - 1]);
    assert ToBits(0xFF, 8) == ToBits(0xFF / 2, 7) + [true];
    assert BitsOf(e)[8 * n - 1];
  }

  lemma {:induction false} BitsOfZeros(e: bytes)
    requires forall i :: 0 <= i < |e| ==> e[i] == 0
    ensures BitsOf(e) == Zeros(8 * |e|)
  {
    if e != [] {
      BitsOfZeros(e[1..]);
      ZeroBits(8);
    }
  }

  /** Encode, perhaps corrupt, then decode. */
  method Carry(f: Frame, spoil: bool) returns (decoded: Result<Frame, FrameError>)
    requires Encodable(f)
    ensures decoded == if spoil then Err(IntegrityError) else Ok(f)
  {
    var wire := Encode(f).value;
    if spoil {
      wire := Corrupt(wire);
      CorruptionRejected(f);
    } else {
      DecodeEncode(f);
    }
    decoded := Decode(wire);
  }

  /** The attached addressees in ascending order. */
  ghost function Destinations(attached: set<int>, destination: int): (d: seq<int>)
    ensures Distinct(d) && forall j :: 0 <= j < |d| ==> d[j] in attached
  {
    var d := Sorted(Addressed(attached, destination), Less);
    assert forall j :: 0 <= j < |d| ==> d[j] in Elements(d);
    d
  }

  // ---------- who gains what ----------

  predicate Addresses(destination: int, a: int)
  {
    destination == 255 || destination == a
  }

  /** The addresses whose inbox holds more frames than before. */
  function Grown(before: Inboxes, after: Inboxes): set<int>
  {
    set a | a in before && a in after && |after[a]| > |before[a]|
  }

  function Live(d: seq<int>, silent: set<int>): set<int>
  {
    set a | a in d && a !in silent
  }

  lemma {:induction false} LiveCountIs(d: seq<int>, silent: set<int>)
    requires Distinct(d)
    ensures LiveCount(d, silent) == |Live(d, silent)|
  {
    if d == [] {
      assert Live(d, silent) == {};
    } else {
      LiveCountIs(d[1..], silent);
      assert d[0] !in d[1..];
      assert Live(d, silent) == Live(d[1..], silent) + if d[0] in silent then {} else {d[0]};
    }
  }

  lemma DestinationsAre(attached: set<int>, destination: int, a: int)
    ensures a in Destinations(attached, destination) <==> a in attached && Addresses(destination, a)
  {
    var d := Destinations(attached, destination);
    assert Elements(d) == Addressed(attached, destination);
    assert a in d <==> a in Elements(d);
  }

  /** Every live addressee has the frame once more if it was sent intact, and every other inbox is as it was. */
  ghost predicate Reached(before: Inboxes, after: Inboxes, silent: set<int>, f: Frame, intact: bool)
  {
    && after.Keys == before.Keys
    && forall a :: a in before ==>
         after[a] == before[a] + if intact && Addresses(f.destination, a) && a !in silent then [f] else []
  }

  lemma {:induction false} DeliverKeys(inboxes: Inboxes, silent: set<int>, f: Frame, d: seq<int>)
    requires forall j :: 0 <= j < |d| ==> d[j] in inboxes
    ensures Deliver(inboxes, silent, f, d).Keys == inboxes.Keys
    decreases d
  {
    if d != [] {
      var next := if d[0] in silent then inboxes else inboxes[d[0] := inboxes[d[0]] + [f]];
      assert next.Keys == inboxes.Keys;
      DeliverKeys(next, silent, f, d[1..]);
    }
  }

  lemma DeliveredAt(inboxes: Inboxes, silent: set<int>, f: Frame, a: int)
    requires a in inboxes
    ensures var after := Deliver(inboxes, silent, f, Destinations(inboxes.Keys, f.destination));
      && after.Keys == inboxes.Keys
      && after[a] == inboxes[a] + if Addresses(f.destination, a) && a !in silent then [f] else []
  {
    DestinationsAre(inboxes.Keys, f.destination, a);
    DeliverAt(inboxes, silent, f, Destinations(inboxes.Keys, f.destination), a);
  }

  /** A delivery reaches exactly the live addressees, and the inboxes that grew are as many as are counted live. */
  lemma DeliveredIs(inboxes: Inboxes, silent: set<int>, f: Frame)
    ensures var d := Destinations(inboxes.Keys, f.destination);
      var after := Deliver(inboxes, silent, f, d);
      && Reached(inboxes, after, silent, f, true)
      && LiveCount(d, silent) == |Grown(inboxes, after)|
  {
    var d := Destinations(inboxes.Keys, f.destination);
    var after := Deliver(inboxes, silent, f, d);
    forall a | a in inboxes
      ensures after.Keys == inboxes.Keys
      ensures after[a] == inboxes[a] + if Addresses(f.destination, a) && a !in silent then [f] else []
    {
      DeliveredAt(inboxes, silent, f, a);
    }
    DeliverKeys(inboxes, silent, f, d);
    LiveCountIs(d, silent);
    forall a
      ensures a in Live(d, silent) <==> a in Grown(inboxes, after)
    {
      DestinationsAre(inboxes.Keys, f.destination, a);
    }
    assert Live(d, silent) == Grown(inboxes, after);
  }

  /** What a transmission comes to: the frames gained are those counted, and success means that there are some. */
  ghost predicate Accounted(before: Inboxes, after: Inboxes, silent: set<int>, f: Frame, intact: bool, gained: int,
                            success: bool)
  {
    && Reached(before, after, silent, f, intact)
    && gained == |Grown(before, after)|
    && (success <==> Grown(before, after) != {})
  }

  lemma Sent(before: Inboxes, after: Inboxes, silent: set<int>, f: Frame, intact: bool, gained: int, success: bool)
    requires if intact
      then var d := Destinations(before.Keys, f.destination);
        after == Deliver(before, silent, f, d) && gained == LiveCount(d, silent)
      else after == before && gained == 0
    requires success <==> gained > 0
    ensures Accounted(before, after, silent, f, intact, gained, success)
  {
    if intact {
      DeliveredIs(before, silent, f);
      assert |Grown(before, after)| > 0 <==> Grown(before, after) != {};
    } else {
      assert forall a :: a in before ==> before[a] + [] == before[a];
      assert Grown(before, before) == {};
    }
  }

  /** The skipped addresses are silent, and the one after them is live. */
  lemma {:induction false} LeadingSilentIs(d: seq<int>, silent: set<int>)
    ensures var k := LeadingSilent(d, silent);
      && k <= |d| && (forall j :: 0 <= j < k ==> d[j] in silent)
      && (k < |d| ==> d[k] !in silent)
  {
    if d != [] && d[0] in silent {
      LeadingSilentIs(d[1..], silent);
    }
  }

  // ---------- the bus ----------

  class InMemoryBus {
    var inboxes: Inboxes
    var silent: set<int>
    var corruptNext: bool
    var transmitted: nat
    var delivered: nat
    var dropped: nat
    var corrupted: nat
    var undeliverable: nat

    constructor ()
      ensures inboxes == map[] && silent == {} && !corruptNext
      ensures transmitted == delivered == dropped == corrupted == undeliverable == 0
    {
      inboxes, silent, corruptNext := map[], {}, false;
      transmitted, delivered, dropped, corrupted, undeliverable := 0, 0, 0, 0, 0;
    }

    method Attach(address: int) returns (r: Result<(), FrameError>)
      modifies `inboxes
      ensures r.Err? <==> address in old(inboxes)
      ensures inboxes == if r.Err? then old(inboxes) else old(inboxes)[address := []]
    {
      if address in inboxes {
        return Err(ProtocolError);
      }
      inboxes := inboxes[address := []];
      return Ok(());
    }

    method Detach(address: int)
      modifies `inboxes
      ensures inboxes == old(inboxes) - {address}
    {
      inboxes := inboxes - {address};
    }

    method SetSilent(address: int, on: bool)
      modifies `silent
      ensures silent == if on then old(silent) + {address} else old(silent) - {address}
    {
      if on {
        silent := silent + {address};
      } else {
        silent := silent - {address};
      }
    }

    method CorruptNextFrame()
      modifies `corruptNext
      ensures corruptNext
    {
      corruptNext := true;
    }

    method ResolveDestinations(destination: int) returns (r: seq<int>)
      ensures r == Destinations(inboxes.Keys, destination)
    {
      if destination == BROADCAST_DESTINATION {
        r := Sort(inboxes.Keys, Less);
      } else {
        r := if destination !in inboxes then [] else [destination];
        UniqueEnumeration(r, Sorted(Addressed(inboxes.Keys, destination), Less), Less);
      }
    }

    /**
     Encode, perhaps corrupt, then decode once per live addressee.  The contract speaks of frames only: an
     endpoint gains the frame that was sent or nothing.
     */
    method Send(f: Frame, fromEndpoint: bool) returns (r: Result<bool, FrameError>)
      modifies this
      ensures silent == old(silent)
      ensures transmitted == old(transmitted) + 1
      ensures !Transmitted(old(inboxes).Keys, f, fromEndpoint) ==>
        && r == Err(if fromEndpoint && f.source !in inboxes then ProtocolError else ValueError)
        && inboxes == old(inboxes) && corruptNext == old(corruptNext) && delivered == old(delivered)
        && dropped == old(dropped) && corrupted == old(corrupted) && undeliverable == old(undeliverable)
      ensures Transmitted(old(inboxes).Keys, f, fromEndpoint) ==>
        var d := Destinations(old(inboxes).Keys, f.destination);
        var live := LiveCount(d, silent);
        && !corruptNext && corrupted == old(corrupted) + (if old(corruptNext) then 1 else 0)
        && undeliverable == old(undeliverable) + (if d == [] then 1 else 0)
        && inboxes == (if old(corruptNext) then old(inboxes) else Deliver(old(inboxes), silent, f, d))
        && delivered == old(delivered) + (if old(corruptNext) then 0 else live)
        && dropped == old(dropped) + (if old(corruptNext) then LeadingSilent(d, silent) else |d| - live)
        && r == (if old(corruptNext) && live > 0 then Err(IntegrityError) else Ok(live > 0))
      ensures Accounted(old(inboxes), inboxes, silent, f,
                        Transmitted(old(inboxes).Keys, f, fromEndpoint) && !old(corruptNext),
                        delivered - old(delivered), r == Ok(true))
    {
      ghost var was := inboxes;
      transmitted := transmitted + 1;
      if fromEndpoint && f.source !in inboxes {
        Sent(was, inboxes, silent, f, false, 0, false);
        return Err(ProtocolError);
      }
      if !Encodable(f) {
        Sent(was, inboxes, silent, f, false, 0, false);
        return Err(ValueError);
      }
      var spoil := corruptNext;
      if corruptNext {
        corruptNext := false;
        corrupted := corrupted + 1;
      }
      r := Distribute(f, spoil);
    }

    /** From the wire to the addressees. */
    method Distribute(f: Frame, spoil: bool) returns (r: Result<bool, FrameError>)
      requires Encodable(f)
      modifies `inboxes, `delivered, `dropped, `undeliverable
      ensures var d := Destinations(old(inboxes).Keys, f.destination);
        var live := LiveCount(d, silent);
        && undeliverable == old(undeliverable) + (if d == [] then 1 else 0)
        && inboxes == (if spoil then old(inboxes) else Deliver(old(inboxes), silent, f, d))
        && delivered == old(delivered) + (if spoil then 0 else live)
        && dropped == old(dropped) + (if spoil then LeadingSilent(d, silent) else |d| - live)
        && r == (if spoil && live > 0 then Err(IntegrityError) else Ok(live > 0))
      ensures Accounted(old(inboxes), inboxes, silent, f, !spoil, delivered - old(delivered), r == Ok(true))
    {
      ghost var was := inboxes;
      var decoded := Carry(f, spoil);
      var destinations := ResolveDestinations(f.destination);
      if destinations == [] {
        undeliverable := undeliverable + 1;
        Sent(was, inboxes, silent, f, !spoil, 0, false);
        return Ok(false);
      }
      r := ReceiveAll(decoded, destinations);
      Sent(was, inboxes, silent, f, !spoil, delivered - old(delivered), r == Ok(true));
    }

    /** Hand the decoded wire to each addressee in turn; decoding is pure, so its result is passed in. */
    method ReceiveAll(decoded: Result<Frame, FrameError>, destinations: seq<int>) returns (r: Result<bool, FrameError>)
      requires forall j :: 0 <= j < |destinations| ==> destinations[j] in inboxes
      modifies `inboxes, `delivered, `dropped
      ensures var live := LiveCount(destinations, silent);
        if decoded.Ok? then
          && inboxes == Deliver(old(inboxes), silent, decoded.value, destinations)
          && delivered == old(delivered) + live
          && dropped == old(dropped) + |destinations| - live
          && r == Ok(live > 0)
        else
          && inboxes == old(inboxes) && delivered == old(delivered)
          && dropped == old(dropped) + LeadingSilent(destinations, silent)
          && r == (if live > 0 then Err(decoded.error) else Ok(false))
    {
      if decoded.Err? {
        r := RefuseAll(decoded.error, destinations);
        return;
      }
      var deliveredAny := false;
      var i := 0;
      while i < |destinations|
        invariant i <= |destinations|
        invariant forall j :: 0 <= j < |destinations| ==> destinations[j] in inboxes
        invariant Deliver(inboxes, silent, decoded.value, destinations[i..])
               == Deliver(old(inboxes), silent, decoded.value, destinations)
        invariant delivered + LiveCount(destinations[i..], silent) == old(delivered) + LiveCount(destinations, silent)
        invariant dropped - old(dropped) == i - (delivered - old(delivered))
        invariant delivered >= old(delivered) && (deliveredAny <==> delivered > old(delivered))
      {
        var address := destinations[i];
        assert destinations[i..][1..] == destinations[i + 1..];
        if address in silent {
          dropped := dropped + 1;
        } else {
          inboxes := inboxes[address := inboxes[address] + [decoded.value]];
          delivered := delivered + 1;
          deliveredAny := true;
        }
        i := i + 1;
      }
      return Ok(deliveredAny);
    }

    method RefuseAll(error: FrameError, destinations: seq<int>) returns (r: Result<bool, FrameError>)
      modifies `dropped
      ensures dropped == old(dropped) + LeadingSilent(destinations, silent)
      ensures r == if LiveCount(destinations, silent) > 0 then Err(error) else Ok(false)
    {
      var i := 0;
      while i < |destinations|
        invariant i <= |destinations|
        invariant LiveCount(destinations[i..], silent) == LiveCount(destinations, silent)
        invariant dropped + LeadingSilent(destinations[i..], silent)
               == old(dropped) + LeadingSilent(destinations, silent)
      {
        if destinations[i] in silent {
          dropped := dropped + 1;
        } else {
          return Err(error);
        }
        assert destinations[i..][1..] == destinations[i + 1..];
        i := i + 1;
      }
      return Ok(false);
    }
  }
}
