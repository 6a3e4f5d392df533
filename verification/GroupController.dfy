/**
 The receiving side of the group controller: registered nodes, duplicate and replay rejection, and ingestion of
 reports into the record store.
 */
module GroupController {
  import opened Wrappers
  import opened Bytes
  import opened Frames
  import opened SequenceTracking
  import LinkHealth
  import opened Storage

  /** What the payload codecs make of a payload: its content and, for a measurement, its time stamp. */
  datatype Report = Report(ticks: int, payload: Payload)

  /** The payload codecs are a parameter; a decoder that raises gives nothing. */
  type Decoder = (MessageType, bytes) -> Option<Report>

  datatype EventKind = NodeStarted | FrameRejected | DuplicateFrameDetected | StaleFrameDetected | StorageFull

  datatype Registration = Registration(
    lamp: string,
    tracker: Tracker,
    link: LinkHealth.Link,
    awaiting: bool,
    lastSeen: Option<int>,
    lastMeasurement: Option<Report>,
    duplicateFrames: nat,
    staleFrames: nat)

  type Registrations = map<int, Registration>

  function NewRegistration(lamp: string, retryLimit: nat): Registration
  {
    Registration(lamp, FRESH, LinkHealth.Initial(retryLimit), false, None, None, 0, 0)
  }

  /** What becomes of a received frame.  `Raised` is a measurement whose time stamp the program refuses. */
  datatype Disposition = NotRegistered | WasDuplicate | WasStale | NotDecodable | Raised | Accepted

  function RecordTypeOf(t: MessageType): Option<RecordType>
  {
    match t
    case MeasurementResponse => Some(MeasurementRecord)
    case FaultReport => Some(FaultRecord)
    case EventReport => Some(EventRecord)
    case _ => None
  }

  function Judge(decode: Decoder, registrations: Registrations, f: Frame): Disposition
  {
    if f.source !in registrations then NotRegistered
    else
      match Classify(registrations[f.source].tracker, f.sequence)
      case Duplicate => WasDuplicate
      case Stale => WasStale
      case _ =>
        var report := decode(f.messageType, f.payload);
        if report.None? then NotDecodable
        else if f.messageType == MeasurementResponse && report.value.ticks < 0 then Raised
        else Accepted
  }

  /** The sending node's registration once the frame has been classified and, if it is new, recorded. */
  function Admitted(now: int, r: Registration, d: Disposition, f: Frame): Registration
  {
    match d
    case WasDuplicate => r.(duplicateFrames := r.duplicateFrames + 1)
    case WasStale => r.(staleFrames := r.staleFrames + 1)
    case _ =>
      r.(tracker := SequenceTracking.Record(r.tracker, f.sequence),
         link := LinkHealth.OnSuccess(r.link),
         lastSeen := Some(now),
         awaiting := false)
  }

  /** ... and once its report, if any, has been taken in. */
  function Updated(decode: Decoder, now: int, r: Registration, d: Disposition, f: Frame): Registration
  {
    var admitted := Admitted(now, r, d, f);
    if d == Accepted && f.messageType == MeasurementResponse
    then admitted.(lastMeasurement := decode(f.messageType, f.payload))
    else admitted
  }

  function AfterFrame(decode: Decoder, now: int, registrations: Registrations, f: Frame): Registrations
  {
    if f.source !in registrations then registrations
    else
      var d := Judge(decode, registrations, f);
      registrations[f.source := Updated(decode, now, registrations[f.source], d, f)]
  }

  function RejectionEvent(d: Disposition): seq<EventKind>
  {
    match d
    case NotRegistered => [FrameRejected]
    case NotDecodable => [FrameRejected]
    case WasDuplicate => [DuplicateFrameDetected]
    case WasStale => [StaleFrameDetected]
    case _ => []
  }

  /** Whether the frame is a report to be stored if it is new. */
  predicate IsReport(decode: Decoder, f: Frame)
  {
    && f.messageType in {MeasurementResponse, FaultReport, EventReport}
    && decode(f.messageType, f.payload).Some?
    && (f.messageType == MeasurementResponse ==> decode(f.messageType, f.payload).value.ticks >= 0)
  }

  /** Whether the frame is a report that must be stored. */
  predicate IsIngested(decode: Decoder, registrations: Registrations, f: Frame)
  {
    Judge(decode, registrations, f) == Accepted && RecordTypeOf(f.messageType).Some?
  }

  /** A report is stored exactly when its sender is registered and its number is new. */
  lemma IngestedIff(decode: Decoder, registrations: Registrations, f: Frame)
    ensures IsIngested(decode, registrations, f) <==>
      && f.source in registrations
      && Classify(registrations[f.source].tracker, f.sequence) == New
      && IsReport(decode, f)
  {
  }

  /** A measurement whose time stamp is negative. */
  predicate FromBeforeTheStart(decode: Decoder, f: Frame)
  {
    && f.messageType == MeasurementResponse
    && decode(f.messageType, f.payload).Some? && decode(f.messageType, f.payload).value.ticks < 0
  }

  /** What each disposition means. */
  lemma DispositionIs(decode: Decoder, registrations: Registrations, f: Frame)
    ensures var d := Judge(decode, registrations, f);
      if f.source !in registrations then d == NotRegistered
      else
        var verdict := Classify(registrations[f.source].tracker, f.sequence);
        && (d == WasDuplicate <==> verdict == Duplicate)
        && (d == WasStale <==> verdict == Stale)
        && (d == NotDecodable <==> verdict == New && decode(f.messageType, f.payload).None?)
        && (d == Raised <==> verdict == New && FromBeforeTheStart(decode, f))
        && (d == Accepted <==>
              verdict == New && decode(f.messageType, f.payload).Some? && !FromBeforeTheStart(decode, f))
  {
  }

  /** What a frame leaves in its sender's registration. */
  lemma RegistrationShows(decode: Decoder, now: int, registrations: Registrations, f: Frame)
    requires f.source in registrations
    ensures var r, r' := registrations[f.source], AfterFrame(decode, now, registrations, f)[f.source];
      match Classify(r.tracker, f.sequence)
      case Duplicate => r' == r.(duplicateFrames := r.duplicateFrames + 1)
      case Stale => r' == r.(staleFrames := r.staleFrames + 1)
      case _ =>
        && r'.tracker == SequenceTracking.Record(r.tracker, f.sequence) && r'.link == LinkHealth.OnSuccess(r.link)
        && r'.lastSeen == Some(now) && !r'.awaiting && r'.lamp == r.lamp
        && r'.duplicateFrames == r.duplicateFrames && r'.staleFrames == r.staleFrames
        && r'.lastMeasurement == (if f.messageType == MeasurementResponse && IsReport(decode, f)
                                  then decode(f.messageType, f.payload) else r.lastMeasurement)
  {
  }

  /** The record a report is stored as. */
  function RecordOf(hash: Hash, device: string, decode: Decoder, now: int, sequence: nat, f: Frame): Record
    requires IsReport(decode, f)
  {
    Fresh(hash, Content(sequence, now, RecordTypeOf(f.messageType).value,
                        decode(f.messageType, f.payload).value.payload, device))
  }

  /** It is of the type of the report, holds its payload, passes its check and waits for upload. */
  lemma RecordOfIs(hash: Hash, device: string, decode: Decoder, now: int, sequence: nat, f: Frame)
    requires IsReport(decode, f)
    ensures var r := RecordOf(hash, device, decode, now, sequence, f);
      && (f.messageType == MeasurementResponse ==> r.content.recordType == MeasurementRecord)
      && (f.messageType == FaultReport ==> r.content.recordType == FaultRecord)
      && (f.messageType == EventReport ==> r.content.recordType == EventRecord)
      && Some(r.content.payload) == (if decode(f.messageType, f.payload).Some?
                                     then Some(decode(f.messageType, f.payload).value.payload) else None)
      && r.content.sequence == sequence && r.content.ticks == now && r.content.device == device
      && PassesCheck(hash, r) && r.state == PendingUpload && r.attempts == 0
  {
    FreshPasses(hash, Content(sequence, now, RecordTypeOf(f.messageType).value,
                              decode(f.messageType, f.payload).value.payload, device));
  }

  // ---------- the two indexes ----------

  ghost predicate Agree(registrations: Registrations, byLamp: map<string, int>)
  {
    && (forall a :: a in registrations ==> registrations[a].lamp in byLamp && byLamp[registrations[a].lamp] == a)
    && (forall l :: l in byLamp ==> byLamp[l] in registrations && registrations[byLamp[l]].lamp == l)
  }

  lemma RemovalKeeps(registrations: Registrations, byLamp: map<string, int>, address: int)
    requires Agree(registrations, byLamp) && address in registrations
    ensures Agree(registrations - {address}, byLamp - {registrations[address].lamp})
    ensures |registrations - {address}| == |registrations| - 1
  {
    assert registrations == (registrations - {address})[address := registrations[address]];
  }

  lemma SameKeys(registrations: Registrations, address: int, r: Registration)
    requires address in registrations
    ensures registrations[address := r].Keys == registrations.Keys
    ensures |registrations[address := r]| == |registrations|
  {
    assert registrations[address := r].Keys == registrations.Keys;
    assert |registrations.Keys| == |registrations|;
    assert |registrations[address := r].Keys| == |registrations[address := r]|;
  }

  lemma ReplacementKeeps(registrations: Registrations, byLamp: map<string, int>, address: int, r: Registration)
    requires Agree(registrations, byLamp) && address in registrations && r.lamp == registrations[address].lamp
    ensures Agree(registrations[address := r], byLamp) && |registrations[address := r]| == |registrations|
  {
    SameKeys(registrations, address, r);
  }

  lemma AdditionKeeps(registrations: Registrations, byLamp: map<string, int>, address: int, r: Registration)
    requires Agree(registrations, byLamp) && address !in registrations && r.lamp !in byLamp
    ensures Agree(registrations[address := r], byLamp[r.lamp := address])
    ensures |registrations[address := r]| == |registrations| + 1
  {
  }

  // ---------- a sequence of frames ----------

  function AfterFrames(decode: Decoder, now: int, registrations: Registrations, fs: seq<Frame>): Registrations
    decreases fs
  {
    if fs == [] then registrations
    else AfterFrame(decode, now, AfterFrames(decode, now, registrations, fs[..|fs| - 1]), fs[|fs| - 1])
  }

  function Dispositions(decode: Decoder, now: int, registrations: Registrations, fs: seq<Frame>): seq<Disposition>
    decreases fs
  {
    if fs == [] then []
    else
      var before := fs[..|fs| - 1];
      Dispositions(decode, now, registrations, before)
      + [Judge(decode, AfterFrames(decode, now, registrations, before), fs[|fs| - 1])]
  }

  /** The frames among them that are reports to be stored. */
  function Taken(decode: Decoder, now: int, registrations: Registrations, fs: seq<Frame>): (taken: seq<Frame>)
    ensures forall i :: 0 <= i < |taken| ==> IsReport(decode, taken[i])
    decreases fs
  {
    if fs == [] then []
    else
      var before, last := fs[..|fs| - 1], fs[|fs| - 1];
      Taken(decode, now, registrations, before)
      + if IsIngested(decode, AfterFrames(decode, now, registrations, before), last) then [last] else []
  }

  function Count<T(==)>(s: seq<T>, x: T): nat
  {
    if s == [] then 0 else Count(s[..|s| - 1], x) + if s[|s| - 1] == x then 1 else 0
  }

  /** The events and records added account for every frame: nothing is silent and nothing is counted twice. */
  predicate Traced(events0: seq<EventKind>, events: seq<EventKind>, sequence0: int, sequence: int,
                   done: seq<Disposition>, ingested: nat)
  {
    && Count(events, FrameRejected)
       == Count(events0, FrameRejected) + Count(done, NotRegistered) + Count(done, NotDecodable)
    && Count(events, DuplicateFrameDetected) == Count(events0, DuplicateFrameDetected) + Count(done, WasDuplicate)
    && Count(events, StaleFrameDetected) == Count(events0, StaleFrameDetected) + Count(done, WasStale)
    && (sequence - sequence0) + Count(events, StorageFull) == Count(events0, StorageFull) + ingested
    && sequence >= sequence0
  }

  lemma CountNext<T>(s: seq<T>, y: T, x: T)
    ensures Count(s + [y], x) == Count(s, x) + if y == x then 1 else 0
  {
    assert (s + [y])[..|s|] == s;
  }

  lemma OneMore(decode: Decoder, now: int, registrations: Registrations, fs: seq<Frame>, f: Frame)
    ensures var r := AfterFrames(decode, now, registrations, fs);
      && AfterFrames(decode, now, registrations, fs + [f]) == AfterFrame(decode, now, r, f)
      && Dispositions(decode, now, registrations, fs + [f])
         == Dispositions(decode, now, registrations, fs) + [Judge(decode, r, f)]
      && Taken(decode, now, registrations, fs + [f])
         == Taken(decode, now, registrations, fs) + if IsIngested(decode, r, f) then [f] else []
  {
    assert (fs + [f])[..|fs|] == fs;
  }

  // ---------- the records of a drain ----------

  /** What a report changes in the store. */
  datatype Stock = Stock(records: Records, queue: seq<nat>, sequence: nat)

  /** One more record under the next number. */
  function Add(hash: Hash, device: string, now: int, stock: Stock, recordType: RecordType, payload: Payload): Stock
  {
    var s := stock.sequence + 1;
    var record := Fresh(hash, Content(s, now, recordType, payload, device));
    Stock(stock.records[s := record], stock.queue + [s], s)
  }

  /** One more report. */
  function Put(hash: Hash, device: string, decode: Decoder, now: int, stock: Stock, f: Frame): Stock
    requires IsReport(decode, f)
  {
    Add(hash, device, now, stock, RecordTypeOf(f.messageType).value, decode(f.messageType, f.payload).value.payload)
  }

  function PutAll(hash: Hash, device: string, decode: Decoder, now: int, stock: Stock, taken: seq<Frame>): (r: Stock)
    requires forall i :: 0 <= i < |taken| ==> IsReport(decode, taken[i])
    ensures |r.records| <= |stock.records| + |taken|
    decreases taken
  {
    if taken == [] then stock
    else
      var before := taken[..|taken| - 1];
      Put(hash, device, decode, now, PutAll(hash, device, decode, now, stock, before), taken[|taken| - 1])
  }

  /** The numbers the reports get. */
  function NumbersAfter(sequence: nat, n: nat): seq<nat>
  {
    seq(n, i => sequence + 1 + i)
  }

  lemma {:induction false} PutAllNumbers(hash: Hash, device: string, decode: Decoder, now: int, stock: Stock,
                                         taken: seq<Frame>)
    requires forall i :: 0 <= i < |taken| ==> IsReport(decode, taken[i])
    ensures var after := PutAll(hash, device, decode, now, stock, taken);
      && after.sequence == stock.sequence + |taken|
      && after.queue == stock.queue + NumbersAfter(stock.sequence, |taken|)
    decreases taken
  {
    if taken != [] {
      var n, q := |taken|, stock.sequence;
      PutAllNumbers(hash, device, decode, now, stock, taken[..n - 1]);
      assert NumbersAfter(q, n) == NumbersAfter(q, n - 1) + [q + n];
    }
  }

  lemma PutAt(hash: Hash, device: string, decode: Decoder, now: int, stock: Stock, f: Frame, s: nat)
    requires IsReport(decode, f)
    ensures var after := Put(hash, device, decode, now, stock, f);
      if s == stock.sequence + 1
      then s in after.records && after.records[s] == RecordOf(hash, device, decode, now, s, f)
      else (s in after.records <==> s in stock.records) && (s in stock.records ==> after.records[s] == stock.records[s])
  {
  }

  /** Each report is found under its own number, in order, and every earlier record is as it was. */
  lemma {:induction false} PutAllAt(hash: Hash, device: string, decode: Decoder, now: int, stock: Stock,
                                    taken: seq<Frame>, s: nat)
    requires forall i :: 0 <= i < |taken| ==> IsReport(decode, taken[i])
    ensures var after := PutAll(hash, device, decode, now, stock, taken).records;
      if stock.sequence < s <= stock.sequence + |taken|
      then s in after && after[s] == RecordOf(hash, device, decode, now, s, taken[s - stock.sequence - 1])
      else (s in after <==> s in stock.records) && (s in stock.records ==> after[s] == stock.records[s])
    decreases taken
  {
    if taken != [] {
      var before, last := taken[..|taken| - 1], taken[|taken| - 1];
      PutAllAt(hash, device, decode, now, stock, before, s);
      PutAllNumbers(hash, device, decode, now, stock, before);
      PutAt(hash, device, decode, now, PutAll(hash, device, decode, now, stock, before), last, s);
    }
  }

  lemma PutNext(hash: Hash, device: string, decode: Decoder, now: int, stock: Stock, taken: seq<Frame>, f: Frame)
    requires forall i :: 0 <= i < |taken| ==> IsReport(decode, taken[i])
    requires IsReport(decode, f)
    ensures PutAll(hash, device, decode, now, stock, taken + [f])
         == Put(hash, device, decode, now, PutAll(hash, device, decode, now, stock, taken), f)
  {
    assert (taken + [f])[..|taken|] == taken;
  }

  lemma {:induction false} TakenAreFew(decode: Decoder, now: int, registrations: Registrations, fs: seq<Frame>)
    ensures |Taken(decode, now, registrations, fs)| <= |fs|
    decreases fs
  {
    if fs != [] {
      TakenAreFew(decode, now, registrations, fs[..|fs| - 1]);
    }
  }

  /** The store after the first `n` frames of a drain, if it takes them. */
  function StockAfter(hash: Hash, device: string, decode: Decoder, now: int, registrations: Registrations,
                      stock: Stock, fs: seq<Frame>): (r: Stock)
    ensures |r.records| <= |stock.records| + |fs|
  {
    TakenAreFew(decode, now, registrations, fs);
    PutAll(hash, device, decode, now, stock, Taken(decode, now, registrations, fs))
  }

  lemma StockNext(hash: Hash, device: string, decode: Decoder, now: int, registrations: Registrations, stock: Stock,
                  was: seq<Frame>, n: nat)
    requires n < |was|
    ensures var w := StockAfter(hash, device, decode, now, registrations, stock, was[..n]);
      StockAfter(hash, device, decode, now, registrations, stock, was[..n + 1])
      == if IsIngested(decode, AfterFrames(decode, now, registrations, was[..n]), was[n])
         then Put(hash, device, decode, now, w, was[n])
         else w
  {
    var fs, f := was[..n], was[n];
    assert was[..n + 1] == fs + [f];
    OneMore(decode, now, registrations, fs, f);
    var taken := Taken(decode, now, registrations, fs);
    if IsIngested(decode, AfterFrames(decode, now, registrations, fs), f) {
      PutNext(hash, device, decode, now, stock, taken, f);
    } else {
      assert taken + [] == taken;
    }
  }

  // ---------- the trace of a drain ----------

  /** What the drain reads and writes. */
  datatype View = View(registrations: Registrations, events: seq<EventKind>, stock: Stock)

  /** The trace of one frame. */
  ghost predicate OneFrame(hash: Hash, device: string, decode: Decoder, now: int, v: View, f: Frame, w: View,
                           d: Disposition, room: bool)
  {
    var ingested := IsIngested(decode, v.registrations, f);
    && d == Judge(decode, v.registrations, f)
    && w.registrations == AfterFrame(decode, now, v.registrations, f)
    && w.events == v.events + (if !ingested then RejectionEvent(d) else if room then [] else [StorageFull])
    && w.stock == if ingested && room then Put(hash, device, decode, now, v.stock, f) else v.stock
  }

  /** The trace of all the frames of `fs`; `takes` says that the store has room for them. */
  ghost predicate Drained(hash: Hash, device: string, decode: Decoder, now: int, takes: bool, v: View, fs: seq<Frame>,
                          w: View, done: seq<Disposition>)
  {
    && done == Dispositions(decode, now, v.registrations, fs)
    && w.registrations == AfterFrames(decode, now, v.registrations, fs)
    && Traced(v.events, w.events, v.stock.sequence, w.stock.sequence, done,
              |Taken(decode, now, v.registrations, fs)|)
    && (takes ==> w.stock == StockAfter(hash, device, decode, now, v.registrations, v.stock, fs))
  }

  lemma NothingDrained(hash: Hash, device: string, decode: Decoder, now: int, takes: bool, v: View)
    ensures Drained(hash, device, decode, now, takes, v, [], v, [])
  {
  }

  lemma TracedStep(events0: seq<EventKind>, events: seq<EventKind>, events': seq<EventKind>, sequence0: nat,
                   sequence: nat, sequence': nat, done: seq<Disposition>, d: Disposition, ingested: nat,
                   isIngested: bool, room: bool)
    requires Traced(events0, events, sequence0, sequence, done, ingested)
    requires isIngested ==> d == Accepted
    requires events' == events + (if !isIngested then RejectionEvent(d) else if room then [] else [StorageFull])
    requires sequence' == sequence + if isIngested && room then 1 else 0
    ensures Traced(events0, events', sequence0, sequence', done + [d], ingested + if isIngested then 1 else 0)
  {
    CountNext(done, d, NotRegistered);
    CountNext(done, d, NotDecodable);
    CountNext(done, d, WasDuplicate);
    CountNext(done, d, WasStale);
    if events' != events {
      var e := events'[|events|];
      assert events' == events + [e];
      CountNext(events, e, FrameRejected);
      CountNext(events, e, DuplicateFrameDetected);
      CountNext(events, e, StaleFrameDetected);
      CountNext(events, e, StorageFull);
    }
  }

  lemma NextFrame(hash: Hash, device: string, decode: Decoder, now: int, takes: bool, v: View, was: seq<Frame>,
                  w: View, x: View, done: seq<Disposition>, d: Disposition, room: bool)
    requires |done| < |was| && (takes ==> room)
    requires Drained(hash, device, decode, now, takes, v, was[..|done|], w, done)
    requires OneFrame(hash, device, decode, now, w, was[|done|], x, d, room)
    ensures Drained(hash, device, decode, now, takes, v, was[..|done| + 1], x, done + [d])
  {
    var fs, f := was[..|done|], was[|done|];
    var ingested := IsIngested(decode, w.registrations, f);
    assert was[..|done| + 1] == fs + [f];
    OneMore(decode, now, v.registrations, fs, f);
    TracedStep(v.events, w.events, x.events, v.stock.sequence, w.stock.sequence, x.stock.sequence, done, d,
               |Taken(decode, now, v.registrations, fs)|, ingested, room);
    StockNext(hash, device, decode, now, v.registrations, v.stock, was, |done|);
  }

  // ---------- the controller ----------

  class Controller {
    const maxNodes: nat
    const retryLimit: nat
    const decode: Decoder
    const device: string
    const storage: RecordStore
    var now: int
    var registrations: Registrations
    /** The second index: for each lamp the address its registration is found under. */
    var byLamp: map<string, int>
    var incoming: seq<Frame>
    var events: seq<EventKind>

    constructor (maxNodes: nat, retryLimit: nat, decode: Decoder, device: string, storage: RecordStore)
      requires maxNodes >= 1 && storage.Valid()
      ensures Valid() && registrations == map[] && incoming == [] && events == []
      ensures this.maxNodes == maxNodes && this.retryLimit == retryLimit && this.decode == decode
      ensures this.device == device && this.storage == storage
    {
      this.maxNodes, this.retryLimit, this.decode, this.device, this.storage
        := maxNodes, retryLimit, decode, device, storage;
      now, registrations, byLamp, incoming, events := 0, map[], map[], [], [];
    }

    /** The two indexes hold the same registrations, and no more of them than configured. */
    ghost predicate Valid()
      reads this, storage
    {
      && storage.Valid()
      && Agree(registrations, byLamp)
      && |registrations| <= maxNodes
    }

    /** The part of the store that a report changes. */
    ghost function Shelf(): Stock
      reads storage
    {
      Stock(storage.records, storage.pendingUpload, storage.sequence)
    }

    ghost function Seen(): View
      reads this, storage
    {
      View(registrations, events, Shelf())
    }

    /** Refused for a taken address, a full group or a lamp that is registered already. */
    method RegisterNode(lamp: string, address: int) returns (ok: bool)
      requires Valid()
      modifies `registrations, `byLamp, `events
      ensures Valid()
      ensures ok <==> address !in old(registrations) && |old(registrations)| < maxNodes && lamp !in old(byLamp)
      ensures ok ==>
        && registrations == old(registrations)[address := NewRegistration(lamp, retryLimit)]
        && byLamp == old(byLamp)[lamp := address] && events == old(events) + [NodeStarted]
      ensures !ok ==> registrations == old(registrations) && byLamp == old(byLamp) && events == old(events)
    {
      if address in registrations {
        return false;
      }
      if |registrations| >= maxNodes {
        return false;
      }
      if lamp in byLamp {
        return false;
      }
      registrations := registrations[address := NewRegistration(lamp, retryLimit)];
      byLamp := byLamp[lamp := address];
      events := events + [NodeStarted];
      return true;
    }

    method UnregisterNode(address: int)
      requires Valid()
      modifies `registrations, `byLamp
      ensures Valid()
      ensures registrations == old(registrations) - {address}
      ensures byLamp == if address in old(registrations) then old(byLamp) - {old(registrations)[address].lamp}
                        else old(byLamp)
    {
      if address in registrations {
        RemovalKeeps(registrations, byLamp, address);
        byLamp := byLamp - {registrations[address].lamp};
        registrations := registrations - {address};
      } else {
        assert registrations - {address} == registrations;
      }
    }

    method ReceiveFrame(f: Frame)
      modifies `incoming
      ensures incoming == old(incoming) + [f]
    {
      incoming := incoming + [f];
    }

    /** One record more, or one event saying that there is none. */
    method BufferRecord(recordType: RecordType, payload: Payload) returns (stored: bool)
      requires Valid()
      modifies `events, storage`records, storage`pendingUpload, storage`sequence, storage`full
      ensures Valid()
      ensures stored <==> !storage.powerLost && old(storage.HasRoom())
      ensures Shelf() == if stored then Add(storage.hash, device, now, old(Shelf()), recordType, payload)
                         else old(Shelf())
      ensures events == old(events) + if stored then [] else [StorageFull]
    {
      var r := storage.Create(recordType, payload, now, device);
      if r.Err? {
        events := events + [StorageFull];
      } else {
        assert events + [] == events;
      }
      return r.Ok?;
    }

    /**
     Handle one frame.  It has exactly one disposition; only the sender's registration changes; and a report that
     is accepted adds one record or one storage-full event, everything else adds no record.
     */
    method HandleFrame(f: Frame) returns (d: Disposition)
      requires Valid()
      modifies `registrations, `events, storage`records, storage`pendingUpload, storage`sequence, storage`full
      ensures Valid() && registrations.Keys == old(registrations).Keys
      ensures OneFrame(storage.hash, device, decode, now, old(Seen()), f, Seen(), d,
                       !storage.powerLost && old(storage.HasRoom()))
    {
      if f.source !in registrations {
        events := events + [FrameRejected];
        return NotRegistered;
      }
      var report;
      d, report := Admit(f);
      if d == Accepted {
        Ingest(f, report.value);
      }
    }

    /** Classify, record and decode. */
    method Admit(f: Frame) returns (d: Disposition, report: Option<Report>)
      requires Valid() && f.source in registrations
      modifies `registrations, `events
      ensures Valid() && d == Judge(decode, old(registrations), f)
      ensures registrations == old(registrations)[f.source := Admitted(now, old(registrations)[f.source], d, f)]
      ensures events == old(events) + RejectionEvent(d)
      ensures d == Accepted ==> report.Some? && report == decode(f.messageType, f.payload)
    {
      var r := registrations[f.source];
      var verdict := Classify(r.tracker, f.sequence);
      if verdict == Duplicate {
        Replace(f.source, r.(duplicateFrames := r.duplicateFrames + 1));
        events := events + [DuplicateFrameDetected];
        return WasDuplicate, None;
      }
      if verdict == Stale {
        Replace(f.source, r.(staleFrames := r.staleFrames + 1));
        events := events + [StaleFrameDetected];
        return WasStale, None;
      }
      r := r.(tracker := SequenceTracking.Record(r.tracker, f.sequence));
      r := r.(link := LinkHealth.OnSuccess(r.link), lastSeen := Some(now), awaiting := false);
      Replace(f.source, r);
      report := decode(f.messageType, f.payload);
      if report.None? {
        events := events + [FrameRejected];
        return NotDecodable, None;
      }
      assert events + [] == events;
      return if f.messageType == MeasurementResponse && report.value.ticks < 0 then Raised else Accepted, report;
    }

    /** Store an accepted report; other messages leave no record. */
    method Ingest(f: Frame, report: Report)
      requires Valid() && f.source in registrations
      modifies `registrations, `events, storage`records, storage`pendingUpload, storage`sequence, storage`full
      ensures Valid()
      ensures registrations ==
        if f.messageType == MeasurementResponse
        then old(registrations)[f.source := old(registrations)[f.source].(lastMeasurement := Some(report))]
        else old(registrations)
      ensures var t, room := RecordTypeOf(f.messageType), !storage.powerLost && old(storage.HasRoom());
        && Shelf() == (if t.Some? && room then Add(storage.hash, device, now, old(Shelf()), t.value, report.payload)
                       else old(Shelf()))
        && events == old(events) + if t.Some? && !room then [StorageFull] else []
    {
      if f.messageType == MeasurementResponse {
        Replace(f.source, registrations[f.source].(lastMeasurement := Some(report)));
        var stored := BufferRecord(MeasurementRecord, report.payload);
      } else if f.messageType == FaultReport {
        var stored := BufferRecord(FaultRecord, report.payload);
      } else if f.messageType == EventReport {
        var stored := BufferRecord(EventRecord, report.payload);
      } else {
        assert events + [] == events;
      }
    }

    /** Update the fields of a registration other than its lamp. */
    method Replace(address: int, r: Registration)
      requires Valid() && address in registrations && r.lamp == registrations[address].lamp
      modifies `registrations
      ensures Valid() && registrations == old(registrations)[address := r]
      ensures registrations.Keys == old(registrations).Keys
    {
      SameKeys(registrations, address, r);
      registrations := registrations[address := r];
    }

    /** The store takes `n` records in all. */
    ghost predicate Takes(n: nat)
      reads storage`powerLost
    {
      !storage.powerLost && (storage.capacity.Some? ==> n <= storage.capacity.value)
    }

    /** The drain has come to the present state; the store takes a report from every frame if it has the room. */
    ghost predicate DrainedTo(before: View, was: seq<Frame>, done: seq<Disposition>)
      requires |done| <= |was|
      reads this, storage
    {
      Drained(storage.hash, device, decode, now, Takes(|before.stock.records| + |was|), before, was[..|done|], Seen(),
              done)
    }

    /**
     Drain the received frames.  Every frame taken off the queue gets exactly one disposition and leaves exactly its
     trace: an event of its kind, or, for an accepted report, one record or one storage-full event.  A frame that
     raises ends the drain and leaves the frames after it where they are.  With room for them the store gains
     exactly the reports, in order.
     */
    method CollectResponses() returns (raised: bool, ghost done: seq<Disposition>)
      requires Valid()
      modifies `incoming, `registrations, `events, storage`records, storage`pendingUpload, storage`sequence,
               storage`full
      ensures Valid()
      ensures |done| <= |old(incoming)| && incoming == old(incoming)[|done|..]
      ensures if raised then done != [] && done[|done| - 1] == Raised else incoming == []
      ensures forall i :: 0 <= i < |done| && done[i] == Raised ==> raised && i == |done| - 1
      ensures DrainedTo(old(Seen()), old(incoming), done)
    {
      ghost var was, before := incoming, Seen();
      done := [];
      NothingDrained(storage.hash, device, decode, now, Takes(|before.stock.records| + |was|), before);
      assert was[..0] == [] && was[0..] == was;
      while incoming != []
        invariant Valid() && |done| <= |was| && incoming == was[|done|..]
        invariant Raised !in done
        invariant DrainedTo(before, was, done)
        decreases |incoming|
      {
        var d := HandleNext(before, was, done);
        done := done + [d];
        if d == Raised {
          return true, done;
        }
      }
      return false, done;
    }

    method HandleNext(ghost before: View, ghost was: seq<Frame>, ghost done: seq<Disposition>) returns (d: Disposition)
      requires Valid() && |done| < |was| && incoming == was[|done|..]
      requires DrainedTo(before, was, done)
      modifies `incoming, `registrations, `events, storage`records, storage`pendingUpload, storage`sequence,
               storage`full
      ensures Valid() && incoming == was[|done| + 1..]
      ensures DrainedTo(before, was, done + [d])
    {
      var f := incoming[0];
      incoming := incoming[1..];
      ghost var middle, takes := Seen(), Takes(|before.stock.records| + |was|);
      ghost var room := !storage.powerLost && storage.HasRoom();
      d := HandleFrame(f);
      NextFrame(storage.hash, device, decode, now, takes, before, was, middle, Seen(), done, d, room);
      assert (done + [d])[..|done|] == done;
    }
  }

  // ---------- at most once per registration ----------

  datatype Input = Joined(lamp: string, address: int) | Left(address: int) | Came(frame: Frame, now: int)

  datatype Group = Group(registrations: Registrations, byLamp: map<string, int>)

  function Step(decode: Decoder, maxNodes: nat, retryLimit: nat, g: Group, i: Input): Group
  {
    match i
    case Joined(lamp, a) =>
      if a in g.registrations || |g.registrations| >= maxNodes || lamp in g.byLamp then g
      else Group(g.registrations[a := NewRegistration(lamp, retryLimit)], g.byLamp[lamp := a])
    case Left(a) =>
      if a in g.registrations then Group(g.registrations - {a}, g.byLamp - {g.registrations[a].lamp}) else g
    case Came(f, now) => g.(registrations := AfterFrame(decode, now, g.registrations, f))
  }

  function Run(decode: Decoder, maxNodes: nat, retryLimit: nat, h: seq<Input>): Group
  {
    if h == [] then Group(map[], map[])
    else Step(decode, maxNodes, retryLimit, Run(decode, maxNodes, retryLimit, h[..|h| - 1]), h[|h| - 1])
  }

  /** The numbers of the frames let through from address `a` since its present registration. */
  function LetThrough(decode: Decoder, maxNodes: nat, retryLimit: nat, h: seq<Input>, a: int): seq<int>
  {
    if h == [] then []
    else
      var before, last := h[..|h| - 1], h[|h| - 1];
      var g, earlier := Run(decode, maxNodes, retryLimit, before), LetThrough(decode, maxNodes, retryLimit, before, a);
      match last
      case Left(b) => if b == a then [] else earlier
      case Joined(_, _) => earlier
      case Came(f, _) =>
        if f.source == a && Judge(decode, g.registrations, f) in {NotDecodable, Raised, Accepted}
        then earlier + [f.sequence] else earlier
  }

  /** The frames among them that carried a report to be stored. */
  function Reports(decode: Decoder, maxNodes: nat, retryLimit: nat, h: seq<Input>, a: int): seq<Frame>
  {
    if h == [] then []
    else
      var before, last := h[..|h| - 1], h[|h| - 1];
      var g, earlier := Run(decode, maxNodes, retryLimit, before), Reports(decode, maxNodes, retryLimit, before, a);
      match last
      case Left(b) => if b == a then [] else earlier
      case Joined(_, _) => earlier
      case Came(f, _) => if f.source == a && IsIngested(decode, g.registrations, f) then earlier + [f] else earlier
  }

  /** The numbers frames carry. */
  function Numbers(fs: seq<Frame>): (r: seq<int>)
    ensures |r| == |fs| && OnWire(r)
    ensures forall k :: 0 <= k < |fs| ==> r[k] == fs[k].sequence
  {
    seq(|fs|, k requires 0 <= k < |fs| => fs[k].sequence)
  }

  /** The tracker of `a` has seen exactly the numbers let through, none of them twice. */
  ghost predicate Remembers(registrations: Registrations, a: int, through: seq<int>, reports: seq<int>)
  {
    if a in registrations then
      var t := registrations[a].tracker;
      && Sound(t)
      && (forall s :: s in through <==> s in t.seen)
      && (forall i, j :: 0 <= i < j < |through| ==> through[i] != through[j])
      && (forall s :: s in reports ==> s in through)
      && (forall i, j :: 0 <= i < j < |reports| ==> reports[i] != reports[j])
    else through == [] && reports == []
  }

  lemma ExtendDistinct(q: seq<int>, s: int)
    requires s !in q && forall i, j :: 0 <= i < j < |q| ==> q[i] != q[j]
    ensures forall i, j :: 0 <= i < j < |q + [s]| ==> (q + [s])[i] != (q + [s])[j]
  {
  }

  lemma FrameRemembered(decode: Decoder, now: int, r: Registrations, f: Frame, through: seq<int>, reports: seq<int>)
    requires Remembers(r, f.source, through, reports)
    ensures Remembers(AfterFrame(decode, now, r, f), f.source,
      if Judge(decode, r, f) in {NotDecodable, Raised, Accepted} then through + [f.sequence] else through,
      if IsIngested(decode, r, f) then reports + [f.sequence] else reports)
  {
    if f.source in r {
      ReceiveSound(r[f.source].tracker, f.sequence);
      if Classify(r[f.source].tracker, f.sequence) == New {
        assert f.sequence !in through && f.sequence !in reports;
        ExtendDistinct(through, f.sequence);
        ExtendDistinct(reports, f.sequence);
      }
    }
  }

  lemma NumbersOfNext(fs: seq<Frame>, f: Frame)
    ensures Numbers(fs + [f]) == Numbers(fs) + [f.sequence]
  {
  }

  lemma {:induction false} Remembered(decode: Decoder, maxNodes: nat, retryLimit: nat, h: seq<Input>, a: int)
    ensures Remembers(Run(decode, maxNodes, retryLimit, h).registrations, a,
                      LetThrough(decode, maxNodes, retryLimit, h, a),
                      Numbers(Reports(decode, maxNodes, retryLimit, h, a)))
  {
    if h != [] {
      var before, last := h[..|h| - 1], h[|h| - 1];
      Remembered(decode, maxNodes, retryLimit, before, a);
      if last.Came? && last.frame.source == a {
        FrameRemembered(decode, last.now, Run(decode, maxNodes, retryLimit, before).registrations, last.frame,
                        LetThrough(decode, maxNodes, retryLimit, before, a),
                        Numbers(Reports(decode, maxNodes, retryLimit, before, a)));
        NumbersOfNext(Reports(decode, maxNodes, retryLimit, before, a), last.frame);
      }
    }
  }

  /**
   Under any registrations, removals, duplications, reorderings and replays: no sequence number of a registration is
   let through or stored twice, and at most 65536 frames of a registration are ever let through.
   */
  lemma IngestedAtMostOnce(decode: Decoder, maxNodes: nat, retryLimit: nat, h: seq<Input>, a: int)
    ensures var through := LetThrough(decode, maxNodes, retryLimit, h, a);
      var reports := Reports(decode, maxNodes, retryLimit, h, a);
      && (forall i, j :: 0 <= i < j < |through| ==> through[i] != through[j])
      && (forall i, j :: 0 <= i < j < |reports| ==> reports[i].sequence != reports[j].sequence)
      && |reports| <= 65536 && |through| <= 65536
  {
    Remembered(decode, maxNodes, retryLimit, h, a);
    var through, reports := LetThrough(decode, maxNodes, retryLimit, h, a), Reports(decode, maxNodes, retryLimit, h, a);
    var numbers := Numbers(reports);
    assert forall i :: 0 <= i < |through| ==> through[i] in through;
    assert forall i :: 0 <= i < |reports| ==> reports[i].sequence == numbers[i];
    Pigeonhole(through, MODULUS);
    Pigeonhole(numbers, MODULUS);
  }

  // ---------- exactly what gets through ----------

  /** All the frames that came from address `a` since its present registration. */
  function Heard(decode: Decoder, maxNodes: nat, retryLimit: nat, h: seq<Input>, a: int): seq<Frame>
  {
    if h == [] then []
    else
      var before, last := h[..|h| - 1], h[|h| - 1];
      var g, earlier := Run(decode, maxNodes, retryLimit, before), Heard(decode, maxNodes, retryLimit, before, a);
      match last
      case Left(b) => if b == a then [] else earlier
      case Joined(_, _) => earlier
      case Came(f, _) => if f.source == a && a in g.registrations then earlier + [f] else earlier
  }

  /** What a new tracker calls each of these numbers. */
  function Called(arrivals: seq<int>): seq<Verdict>
  {
    if arrivals == [] then []
    else
      var before, last := arrivals[..|arrivals| - 1], arrivals[|arrivals| - 1];
      Called(before) + [Classify(ReceiveAll(FRESH, before), last)]
  }

  /** The reports among these frames that a new tracker lets through. */
  function NewReports(decode: Decoder, fs: seq<Frame>): seq<Frame>
  {
    if fs == [] then []
    else
      var before, f := fs[..|fs| - 1], fs[|fs| - 1];
      NewReports(decode, before)
      + if Classify(ReceiveAll(FRESH, Numbers(before)), f.sequence) == New && IsReport(decode, f) then [f] else []
  }

  /** What the frames heard leave in the registration: the tracker, and every frame counted exactly once. */
  ghost predicate Reflects(r: Registration, heard: seq<Frame>)
  {
    var called := Called(Numbers(heard));
    && r.tracker == ReceiveAll(FRESH, Numbers(heard)) && Sound(r.tracker)
    && r.duplicateFrames == Count(called, Duplicate) && r.staleFrames == Count(called, Stale)
    && r.link.successes == Count(called, New) && r.link.failures == 0 && r.link.state == LinkHealth.CommHealthy
    && r.duplicateFrames + r.staleFrames + r.link.successes == |heard|
  }

  lemma ReflectsNext(decode: Decoder, now: int, registrations: Registrations, heard: seq<Frame>, f: Frame)
    requires f.source in registrations && Reflects(registrations[f.source], heard)
    ensures Reflects(AfterFrame(decode, now, registrations, f)[f.source], heard + [f])
  {
    var r, numbers := registrations[f.source], Numbers(heard);
    var verdict := Classify(r.tracker, f.sequence);
    NumbersOfNext(heard, f);
    assert Numbers(heard + [f])[..|heard|] == numbers;
    ReceiveSound(r.tracker, f.sequence);
    RegistrationShows(decode, now, registrations, f);
    CountNext(Called(numbers), verdict, Duplicate);
    CountNext(Called(numbers), verdict, Stale);
    CountNext(Called(numbers), verdict, New);
  }

  lemma NewRegistrationReflects(lamp: string, retryLimit: nat)
    ensures Reflects(NewRegistration(lamp, retryLimit), [])
  {
  }

  /** After every history each registration shows exactly the frames heard since it was made. */
  lemma {:induction false} RegistrationReflects(decode: Decoder, maxNodes: nat, retryLimit: nat, h: seq<Input>, a: int)
    ensures var registrations := Run(decode, maxNodes, retryLimit, h).registrations;
      var heard := Heard(decode, maxNodes, retryLimit, h, a);
      if a in registrations then Reflects(registrations[a], heard) else heard == []
  {
    if h != [] {
      var before, last := h[..|h| - 1], h[|h| - 1];
      RegistrationReflects(decode, maxNodes, retryLimit, before, a);
      var registrations := Run(decode, maxNodes, retryLimit, before).registrations;
      match last
      case Left(_) =>
      case Joined(lamp, _) => NewRegistrationReflects(lamp, retryLimit);
      case Came(f, now) =>
        if f.source == a && a in registrations {
          ReflectsNext(decode, now, registrations, Heard(decode, maxNodes, retryLimit, before, a), f);
        }
    }
  }

  lemma ThroughNext(decode: Decoder, registrations: Registrations, heard: seq<Frame>, f: Frame)
    requires f.source in registrations && Reflects(registrations[f.source], heard)
    ensures AcceptedOf(FRESH, Numbers(heard + [f])) == AcceptedOf(FRESH, Numbers(heard))
      + if Judge(decode, registrations, f) in {NotDecodable, Raised, Accepted} then [f.sequence] else []
    ensures NewReports(decode, heard + [f])
      == NewReports(decode, heard) + if IsIngested(decode, registrations, f) then [f] else []
  {
    assert (heard + [f])[..|heard|] == heard;
    NumbersOfNext(heard, f);
    ReceiveSound(registrations[f.source].tracker, f.sequence);
    NextAccepted(Numbers(heard), f.sequence, Classify(registrations[f.source].tracker, f.sequence));
    DispositionIs(decode, registrations, f);
    IngestedIff(decode, registrations, f);
  }

  /** What got through is decided by these frames alone. */
  lemma {:induction false} ThroughIs(decode: Decoder, maxNodes: nat, retryLimit: nat, h: seq<Input>, a: int)
    ensures LetThrough(decode, maxNodes, retryLimit, h, a)
         == AcceptedOf(FRESH, Numbers(Heard(decode, maxNodes, retryLimit, h, a)))
  {
    if h != [] {
      var before, last := h[..|h| - 1], h[|h| - 1];
      ThroughIs(decode, maxNodes, retryLimit, before, a);
      if last.Came? && last.frame.source == a {
        RegistrationReflects(decode, maxNodes, retryLimit, before, a);
        var registrations := Run(decode, maxNodes, retryLimit, before).registrations;
        if a in registrations {
          ThroughNext(decode, registrations, Heard(decode, maxNodes, retryLimit, before, a), last.frame);
        }
      }
    }
  }

  /** ... and so is what was to be stored. */
  lemma {:induction false} ReportsAre(decode: Decoder, maxNodes: nat, retryLimit: nat, h: seq<Input>, a: int)
    ensures Reports(decode, maxNodes, retryLimit, h, a)
         == NewReports(decode, Heard(decode, maxNodes, retryLimit, h, a))
  {
    if h != [] {
      var before, last := h[..|h| - 1], h[|h| - 1];
      ReportsAre(decode, maxNodes, retryLimit, before, a);
      if last.Came? && last.frame.source == a {
        RegistrationReflects(decode, maxNodes, retryLimit, before, a);
        var registrations := Run(decode, maxNodes, retryLimit, before).registrations;
        if a in registrations {
          ThroughNext(decode, registrations, Heard(decode, maxNodes, retryLimit, before, a), last.frame);
        }
      }
    }
  }

  /** The reports among these frames whose true numbers are above all before them. */
  function PeakReports(decode: Decoder, fs: seq<Frame>, numbers: seq<int>): seq<Frame>
    requires |fs| == |numbers|
  {
    if fs == [] then []
    else
      var n := |fs| - 1;
      PeakReports(decode, fs[..n], numbers[..n])
      + if AboveAll(numbers[n], numbers[..n]) && IsReport(decode, fs[n]) then [fs[n]] else []
  }

  lemma {:induction false} NewReportsArePeaks(decode: Decoder, fs: seq<Frame>, numbers: seq<int>, base: int)
    requires Numbers(fs) == Wire(numbers) && Steady(numbers, base)
    ensures NewReports(decode, fs) == PeakReports(decode, fs, numbers)
  {
    if fs != [] {
      var n := |fs| - 1;
      assert Numbers(fs[..n]) == Numbers(fs)[..n] == Wire(numbers)[..n] == Wire(numbers[..n]);
      assert numbers == numbers[..n] + [numbers[n]] && fs[n].sequence == Wire(numbers)[n];
      NewReportsArePeaks(decode, fs[..n], numbers[..n], base);
      VerdictInRun(numbers[..n], numbers[n], base);
    }
  }

  /**
   From every sender whose true numbers stay in one lap and near the highest, whatever the other senders do: exactly
   the numbers above all before them get through, and exactly the reports among those frames are to be stored.
   */
  lemma NewReportsAreIngested(decode: Decoder, maxNodes: nat, retryLimit: nat, h: seq<Input>, a: int,
                              numbers: seq<int>, base: int)
    requires Numbers(Heard(decode, maxNodes, retryLimit, h, a)) == Wire(numbers) && Steady(numbers, base)
    ensures LetThrough(decode, maxNodes, retryLimit, h, a) == Wire(Peaks(numbers))
    ensures |Heard(decode, maxNodes, retryLimit, h, a)| == |numbers|
    ensures Reports(decode, maxNodes, retryLimit, h, a)
         == PeakReports(decode, Heard(decode, maxNodes, retryLimit, h, a), numbers)
  {
    var heard := Heard(decode, maxNodes, retryLimit, h, a);
    ThroughIs(decode, maxNodes, retryLimit, h, a);
    ReportsAre(decode, maxNodes, retryLimit, h, a);
    AcceptsThePeaks(numbers, base);
    assert |heard| == |Numbers(heard)| == |Wire(numbers)|;
    NewReportsArePeaks(decode, heard, numbers, base);
  }

  /** The frames from one address. */
  function From(a: int, fs: seq<Frame>): seq<Frame>
  {
    if fs == [] then []
    else
      var f := fs[|fs| - 1];
      From(a, fs[..|fs| - 1]) + if f.source == a then [f] else []
  }

  /** A drain as part of a history. */
  function Arrivals(fs: seq<Frame>, now: int): (r: seq<Input>)
    ensures |r| == |fs|
  {
    seq(|fs|, k requires 0 <= k < |fs| => Came(fs[k], now))
  }

  lemma FrameInHistory(decode: Decoder, maxNodes: nat, retryLimit: nat, h: seq<Input>, now: int, f: Frame, a: int)
    ensures var registrations := Run(decode, maxNodes, retryLimit, h).registrations;
      && Run(decode, maxNodes, retryLimit, h + [Came(f, now)]).registrations
         == AfterFrame(decode, now, registrations, f)
      && Reports(decode, maxNodes, retryLimit, h + [Came(f, now)], a)
         == Reports(decode, maxNodes, retryLimit, h, a)
            + if f.source == a && IsIngested(decode, registrations, f) then [f] else []
  {
    assert (h + [Came(f, now)])[..|h|] == h;
  }

  lemma FromNext(a: int, fs: seq<Frame>, f: Frame)
    ensures From(a, fs + [f]) == From(a, fs) + if f.source == a then [f] else []
  {
    assert (fs + [f])[..|fs|] == fs;
  }

  lemma TakenFromNext(decode: Decoder, now: int, r: Registrations, fs: seq<Frame>, f: Frame, a: int)
    ensures From(a, Taken(decode, now, r, fs + [f])) == From(a, Taken(decode, now, r, fs))
      + if f.source == a && IsIngested(decode, AfterFrames(decode, now, r, fs), f) then [f] else []
  {
    var taken := Taken(decode, now, r, fs);
    OneMore(decode, now, r, fs, f);
    if IsIngested(decode, AfterFrames(decode, now, r, fs), f) {
      FromNext(a, taken, f);
    } else {
      assert taken + [] == taken;
    }
  }

  lemma Regroup<T>(p: seq<T>, q: seq<T>, r: seq<T>)
    ensures p + q + r == p + (q + r)
  {
  }

  lemma ArrivalsNext(h: seq<Input>, fs: seq<Frame>, f: Frame, now: int)
    ensures h + Arrivals(fs + [f], now) == h + Arrivals(fs, now) + [Came(f, now)]
  {
  }

  /** A drain takes the registrations where the history goes, and stores the reports it counts. */
  lemma {:induction false} DrainIsHistory(decode: Decoder, maxNodes: nat, retryLimit: nat, h: seq<Input>, now: int,
                                          fs: seq<Frame>, a: int)
    ensures var r, h' := Run(decode, maxNodes, retryLimit, h).registrations, h + Arrivals(fs, now);
      && Run(decode, maxNodes, retryLimit, h').registrations == AfterFrames(decode, now, r, fs)
      && Reports(decode, maxNodes, retryLimit, h', a)
         == Reports(decode, maxNodes, retryLimit, h, a) + From(a, Taken(decode, now, r, fs))
    decreases fs
  {
    if fs == [] {
      assert h + Arrivals(fs, now) == h;
    } else {
      var before, f := fs[..|fs| - 1], fs[|fs| - 1];
      var r, middle := Run(decode, maxNodes, retryLimit, h).registrations, h + Arrivals(before, now);
      assert fs == before + [f];
      DrainIsHistory(decode, maxNodes, retryLimit, h, now, before, a);
      ArrivalsNext(h, before, f, now);
      FrameInHistory(decode, maxNodes, retryLimit, middle, now, f, a);
      OneMore(decode, now, r, before, f);
      TakenFromNext(decode, now, r, before, f, a);
      Regroup(Reports(decode, maxNodes, retryLimit, h, a), From(a, Taken(decode, now, r, before)),
              if f.source == a && IsIngested(decode, AfterFrames(decode, now, r, before), f) then [f] else []);
    }
  }

  ghost predicate WellIndexed(g: Group, maxNodes: nat)
  {
    Agree(g.registrations, g.byLamp) && |g.registrations| <= maxNodes
  }

  lemma StepWellIndexed(decode: Decoder, maxNodes: nat, retryLimit: nat, g: Group, i: Input)
    requires WellIndexed(g, maxNodes)
    ensures WellIndexed(Step(decode, maxNodes, retryLimit, g, i), maxNodes)
  {
    match i
    case Left(a) =>
      if a in g.registrations {
        RemovalKeeps(g.registrations, g.byLamp, a);
      }
    case Came(f, now) =>
      if f.source in g.registrations {
        ReplacementKeeps(g.registrations, g.byLamp, f.source, AfterFrame(decode, now, g.registrations, f)[f.source]);
      }
    case Joined(lamp, a) =>
      if a !in g.registrations && lamp !in g.byLamp {
        AdditionKeeps(g.registrations, g.byLamp, a, NewRegistration(lamp, retryLimit));
      }
  }

  /** After every run the two indexes agree and hold no more registrations than configured. */
  lemma {:induction false} IndexesAgree(decode: Decoder, maxNodes: nat, retryLimit: nat, h: seq<Input>)
    ensures WellIndexed(Run(decode, maxNodes, retryLimit, h), maxNodes)
  {
    if h != [] {
      IndexesAgree(decode, maxNodes, retryLimit, h[..|h| - 1]);
      StepWellIndexed(decode, maxNodes, retryLimit, Run(decode, maxNodes, retryLimit, h[..|h| - 1]), h[|h| - 1]);
    }
  }
}
