# Smart Street Light V1 in Dafny

A model of the lamp-group controller of Smart Street Light V1 and proofs about it: the wire protocol from bits to
payloads, the group controller's receiver and store, the fault, notification, command and control engines of a lamp
node, and the schedule arithmetic underneath. `dafny verify dfyconfig.toml` checks the whole project.

Objects the program updates in place are classes, and each of their methods is proved against a function of the old
state; the results about whole runs are then lemmas about those functions. Frozen records, codecs and predicates are
datatypes and functions.

| file | about |
|---|---|
| `Bits`, `Crc` | bit strings as polynomials over GF(2), and the CRC-16/XMODEM loop |
| `Frames`, `Bus` | frames, their decoding and error detection; the in-memory bus |
| `Structs`, `Protocol`, `ConfigWrite` | big-endian formats, length-prefixed strings and the payload codecs |
| `SequenceTracking`, `GroupController` | 16-bit sequence numbers; registration and ingestion of frames |
| `Storage`, `Forwarding` | the record store, power loss and recovery; store-and-forward |
| `Faults`, `FaultConfirmation`, `FaultRepair`, `FaultIsolation` | the fault engine, its confirmation window, the repair workflow, lamps kept apart |
| `Notifications` | reminders, escalation, retries |
| `LinkHealth` | communication health of one link |
| `Commands`, `Control`, `Schedules` | command lifecycle and execution, the control model, daily schedules |
| `Bytes`, `Sorting`, `Wrappers` | shared vocabulary |

The main results:

- **Wire integrity.** The byte-wise loop computes the remainder of polynomial division by x^16 + x^12 + x^5 + 1.
  Every error inside 16 consecutive bits of an encoded frame and every odd number of flipped bits is rejected by the
  decoder, and the errors that pass are characterised exactly. Encoding and decoding are inverse both ways, so what
  an endpoint gets from the bus is the frame that was sent.
- **Codecs.** What each modelled decoder accepts is decided: exactly the octet strings that start with (for
  measurements: are) the encoding of what it returns. Every configuration map that can be encoded is decoded to
  itself, and which maps can be encoded is decided as well.
- **Sequence numbers.** The 16-bit tracker gives the verdicts of a tracker over unbounded numbers as long as the true
  numbers stay in one lap and near the newest; a sender that runs past 65536 is never accepted again.
- **Ingestion.** Every drained frame has one disposition and leaves exactly its trace. Over all runs no sequence number
  of a registration is let through or stored twice. From a sender that stays in one lap near its highest number exactly
  the numbers above all before them get through, and exactly the reports among those frames are stored, whatever other
  senders do.
- **Store-and-forward.** Records are uploaded at most once against any upstream, none leaves the store, and with the
  in-memory link they arrive in order; recovery keeps exactly the valid records from any crash state and is idempotent.
  A power loss after any run costs nothing, and damage costs one record exactly if it changes the integrity code.
- **Faults.** Confirmation is sound, complete from max(count, 2*count-2) observations on, also for a key whose earlier
  faults are over, and that bound is sharp. A fault is closed exactly if a successful verification found it in
  VERIFYING, and only then, or when cleared, can it recur. The index agrees with the table, ended faults stay ended,
  and lamps do not disturb each other.
- **Notifications, commands, link health.** Exactly what is emitted over every history, with bounded retries; commands
  executed at most once per id under any replay, and a lamp forced by command only under the grant for it; a closed
  form for link health.
- **Control and schedules.** The lamp shows the latest decisive event of the whole history, and a forced lamp stays as
  forced; in sensor mode it switches exactly as often as the light crosses the whole dead band, up to one initial
  switching; the schedule is constant up to the announced transition, and the schedules whose announcements are all
  real are exactly those whose windows neither overlap nor touch.

Where the code and its own documentation disagree, the code is modelled:

- `Schedule.next_transition` is documented as the next ON/OFF transition; it is the next window bound.
  `Schedules.TouchingWindowsMislead` is an input where nothing changes there, `Schedules.RealTransitionIff` the exact
  condition.
- `Schedule.always_on` is off at the last tick of each day (`Schedules.AlwaysOnHasAGap`).
- The comment on the sequence window speaks of repeats; a number never seen before that lags by at most 32 is called a
  duplicate as well, and accepted numbers are never forgotten (`SequenceTracking.EndlessStream`).
- `CommunicationStateMachine.reset` changes state without writing history. The history is one linked path exactly as
  long as no reset finds the link unhealthy (`LinkHealth.HistoryIsLinkedIff`); `LinkHealth.ResetLeavesNoTrace` is a
  run where it is not.
- The comment in `notify` says that delivering from a waiting state raises; it returns without doing anything.
- The confirmation window does not slide; it is anchored at its first observation (`FaultConfirmation.BoundIsSharp`).

## Model

| member | source | states |
|---|---|---|
| `Crc.Crc16Xmodem` | src/sslv1/comm/crc.py:12-22 | the two nested loops compute the register fed with the message bits one by one, from any initial value, negative or too wide ones included |
| `Crc.CrcIsRemainder` | src/sslv1/comm/crc.py:1-22 | the CRC is the remainder of message times x^16 on division by the generator, and the only polynomial of degree below 16 that is |
| `Crc.GeneratorTerms` | src/sslv1/comm/crc.py:1-9 | the generator has the terms 16, 12, 5 and 0 and no others |
| `Crc.Chain` | src/sslv1/comm/crc.py:15-21 | a message may be fed in two parts |
| `Crc.Linear` | src/sslv1/comm/crc.py:15-21 | the CRC of a difference of equally long messages is the difference of the CRCs |
| `Crc.ParityKept` | src/sslv1/comm/crc.py:15-21 | the parity of the register is the parity of all bits consumed |
| `Crc.Residue` | src/sslv1/comm/crc.py:15-21 | feeding the register sixteen more bits gives zero exactly when they are its own contents |
| `Crc.BurstDetected` | src/sslv1/comm/crc.py:12-22 | a non-zero error inside 16 consecutive bits never has CRC zero |
| `Crc.OddDetected` | src/sslv1/comm/crc.py:12-22 | an error with an odd number of bits never has CRC zero |
| `Frames.CodeFor` | src/sslv1/comm/frame.py:50-55 | the wire code of a message type is its position in the list of types |
| `Frames.CodeForInverse` | src/sslv1/comm/frame.py:58-63 | known codes and message types are in bijection |
| `Frames.WireLayout` | src/sslv1/comm/frame.py:3-20 | where each field of an encoded frame lies, as the documented layout says |
| `Frames.DecodeEncode` | src/sslv1/comm/frame.py:88-153 | every frame whose version fits an octet is encoded, and decoding gives it back |
| `Frames.EncodeDecode` | src/sslv1/comm/frame.py:111-153 | every accepted octet string is the encoding of the frame it decodes to |
| `Frames.ResidueTest` | src/sslv1/comm/frame.py:139-143 | the receiver's comparison is the test that the whole wire has residue zero |
| `Frames.Accepted` | src/sslv1/comm/frame.py:118-153 | exactly which octet strings are accepted |
| `Frames.RefusedWith` | src/sslv1/comm/frame.py:118-153 | which error a refused octet string gets: integrity exactly if start byte and length are right and the residue is not zero, protocol otherwise |
| `Frames.BurstRejected` | src/sslv1/comm/frame.py:111-153 | an encoded frame with any non-zero error inside 16 consecutive bits is rejected |
| `Frames.OddFlipsRejected` | src/sslv1/comm/frame.py:111-153 | an encoded frame with any odd number of flipped bits is rejected |
| `Frames.UndetectedErrors` | src/sslv1/comm/frame.py:111-153 | an error goes undetected if and only if its CRC is zero, start byte and length field are untouched and the type code stays a known one |
| `Bus.InMemoryBus.Attach` | src/sslv1/comm/bus.py:49-52 | an address is taken at most once |
| `Bus.InMemoryBus.Detach` | src/sslv1/comm/bus.py:54-55 | the address is freed, nobody else is affected |
| `Bus.InMemoryBus.SetSilent` | src/sslv1/comm/bus.py:63-68 | exactly that address becomes silent or live |
| `Bus.InMemoryBus.ResolveDestinations` | src/sslv1/comm/bus.py:105-110 | the attached addressees in ascending order: all for a broadcast, at most one otherwise |
| `Bus.InMemoryBus.Send` | src/sslv1/comm/bus.py:75-103 | every live addressee gains exactly the frame sent, or, under injected corruption, nobody gains anything; all counters and both errors; the inboxes that grew are as many as are counted delivered, and success is returned exactly if there are any |
| `Bus.InMemoryBus.ReceiveAll` | src/sslv1/comm/bus.py:95-103 | the delivery loop hands the decoded frame to the live addressees and counts delivered and dropped |
| `Bus.Carry` | src/sslv1/comm/bus.py:82-88 | encode, perhaps corrupt, decode: the same frame or an integrity error |
| `Bus.CorruptionRejected` | src/sslv1/comm/bus.py:83-88 | inverting the last octet is caught for every frame |
| `Bus.DeliverAt` | src/sslv1/comm/bus.py:96-102 | each live addressee gains the frame once and no other inbox changes |
| `Bus.DeliveredIs` | src/sslv1/comm/bus.py:92-110 | a delivery reaches the attached addresses that are not silent and are the destination or all of them for 255, each once, and as many inboxes grow as are counted live |
| `Bus.LeadingSilentIs` | src/sslv1/comm/bus.py:95-103 | the addresses counted as dropped before a corrupted frame raises are silent ones up to the first live one |
| `Structs.ItemRanges` | src/sslv1/comm/protocol.py:134-138 | which integers fit the format items B, H, i and q |
| `Structs.ItemSpells` | src/sslv1/comm/protocol.py:154-169 | the octets of a packed item spell the value, a negative one plus 256^width |
| `Bytes.FirstOctetLeads` | src/sslv1/comm/protocol.py:134-175 | the first octet of a number is the most significant one |
| `Structs.ItemRoundTrip` | src/sslv1/comm/protocol.py:154-169 | unpacking a big-endian two's-complement item undoes packing |
| `Structs.ItemOfBytes` | src/sslv1/comm/protocol.py:172-175 | packing undoes unpacking, for every octet string of the width |
| `Structs.UnpackPack` | src/sslv1/comm/protocol.py:154-175 | unpacking a format undoes packing it |
| `Structs.PackUnpack` | src/sslv1/comm/protocol.py:172-175 | a format is a bijection between its value tuples and the octet strings of its size |
| `Structs.UnpackAt` | src/sslv1/comm/protocol.py:172-175 | every field is read at its own offset |
| `Structs.UnpackStrIff` | src/sslv1/comm/protocol.py:43-57 | a string is read exactly where a written one stands, with at most 255 octets |
| `Structs.UnpackStringsIff` | src/sslv1/comm/protocol.py:389-403 | n strings are read exactly where n written ones stand |
| `Protocol.FixedIff` | src/sslv1/comm/protocol.py:60-71 | enumeration members and numbers of a fixed layout: decoding and encoding are inverse, errors included |
| `Protocol.MixedIff` | src/sslv1/comm/protocol.py:193-218 | a fixed part and one string: decoded is exactly what some prefix of the data encodes |
| `Protocol.MeasurementIff` | src/sslv1/comm/protocol.py:137-190 | measurement decoding is the exact inverse of encoding |
| `Protocol.MeasurementEncodes` | src/sslv1/comm/protocol.py:137-169 | exactly which measurements can be encoded, the size of each enumeration included, in 39 octets |
| `Protocol.MeasurementOffsets` | src/sslv1/comm/protocol.py:134-190 | where each of the thirteen fields lies on the wire |
| `Protocol.ControlCommandIff` | src/sslv1/comm/protocol.py:193-218 | control command round trip, whatever follows the encoding, and nothing else is accepted |
| `Protocol.ControlCommandOffsets` | src/sslv1/comm/protocol.py:193-218 | where each field of a control command lies on the wire |
| `Protocol.ControlCommandEncodes` | src/sslv1/comm/protocol.py:193-206 | exactly which control commands can be encoded |
| `Protocol.FaultReportOffsets` | src/sslv1/comm/protocol.py:247-293 | where each field of a fault report lies on the wire |
| `Protocol.FaultReportIff` | src/sslv1/comm/protocol.py:247-293 | fault report round trip, whatever follows the encoding, and nothing else is accepted |
| `Protocol.FaultReportEncodes` | src/sslv1/comm/protocol.py:247-279 | exactly which fault reports can be encoded |
| `Protocol.IdentityIff` | src/sslv1/comm/protocol.py:389-409 | five-string identity round trip, whatever follows the encoding, and nothing else is accepted |
| `Protocol.IdentityLayout` | src/sslv1/comm/protocol.py:389-396 | the five strings are written in order, each after its length |
| `Protocol.DecodeIdentifyAck` | src/sslv1/comm/protocol.py:397-409 | the loop with its moving offset reads the five strings in order or reports the first truncation |
| `ConfigWrite.EncodeConfigWrite` | src/sslv1/comm/protocol.py:321-330 | the encoder's result is a function of version and map, its pairs in the one ascending order of the keys |
| `ConfigWrite.AppendEntries` | src/sslv1/comm/protocol.py:327-330 | the growing body ends as head followed by all pairs, or stops at the first that does not fit |
| `ConfigWrite.EncodingIsCanonical` | src/sslv1/comm/protocol.py:327 | every ascending enumeration of the keys gives the same octets |
| `ConfigWrite.ConfigEncodes` | src/sslv1/comm/protocol.py:321-330 | encoding succeeds exactly for 16-bit versions and maps of at most 255 keys of at most 255 octets with 32-bit values |
| `ConfigWrite.DecodeConfigWrite` | src/sslv1/comm/protocol.py:333-345 | the decoding loop with its moving offset, map and truncation errors |
| `ConfigWrite.ConfigRoundTrip` | src/sslv1/comm/protocol.py:321-345 | every map that can be encoded is decoded to itself, whatever follows the encoding |
| `ConfigWrite.DecodedIff` | src/sslv1/comm/protocol.py:333-345 | exactly what the decoder accepts: pairs in any order with repeated keys, the last one counting, followed by anything |
| `ConfigWrite.EncodingIsInjective` | src/sslv1/comm/protocol.py:321-345 | equal encodings come from equal versions and equal maps |
| `ConfigWrite.KeyOrder` | src/sslv1/comm/protocol.py:327 | the order keys are sorted by is a strict total order |
| `ConfigWrite.BeforeIff` | src/sslv1/comm/protocol.py:327 | a key comes before its proper extensions, and otherwise the smaller octet at the first difference decides |
| `ConfigWrite.WireLayout` | src/sslv1/comm/protocol.py:321-330 | two octets of version, one of count, then the pairs |
| `ConfigWrite.EntryLayout` | src/sslv1/comm/protocol.py:327-330 | a pair is the length of its key, the key and four octets spelling the value in two's complement |
| `SequenceTracking.SequenceTracker.Create` | src/sslv1/nodes/group_controller.py:122-126 | a non-positive window is refused, a new tracker has seen nothing |
| `SequenceTracking.SequenceTracker.ClassifySequence` | src/sslv1/nodes/group_controller.py:136-161 | the verdict by modular distance from the newest number |
| `SequenceTracking.SequenceTracker.RecordSequence` | src/sslv1/nodes/group_controller.py:163-173 | the count of the number grows and the newest marker moves only forward |
| `SequenceTracking.ReceiveSound` | src/sslv1/nodes/group_controller.py:360-385 | classify-then-record counts every number at most once and keeps the newest among the seen |
| `SequenceTracking.AcceptedAtMostOnce` | src/sslv1/nodes/group_controller.py:136-173 | whatever arrives, no number is accepted twice and at most 65536 are accepted |
| `SequenceTracking.NewExactly` | src/sslv1/nodes/group_controller.py:136-161 | on true numbers: new if and only if greater than the newest |
| `SequenceTracking.VerdictAgrees` | src/sslv1/nodes/group_controller.py:136-161 | in one lap and near the newest, the 16-bit verdict is the unbounded one |
| `SequenceTracking.VerdictAgreesIff` | src/sslv1/nodes/group_controller.py:136-161 | without a bound on the lap: the verdicts agree if and only if a residue seen before belongs to a number accepted or inside the window |
| `SequenceTracking.ReceiveAgrees` | src/sslv1/nodes/group_controller.py:163-173 | recording keeps the two trackers in step |
| `SequenceTracking.RefinesIdeal` | src/sslv1/nodes/group_controller.py:136-173 | over a whole run the 16-bit tracker gives the verdicts of the unbounded one |
| `SequenceTracking.FreshRefinesIdeal` | src/sslv1/nodes/group_controller.py:111-173 | in particular from a new registration on |
| `SequenceTracking.VerdictInRun` | src/sslv1/nodes/group_controller.py:111-173 | over a run of true numbers that stays in one lap and near its highest: new exactly when above all before, duplicate when new before or at most 32 behind the highest, else stale |
| `SequenceTracking.AcceptsThePeaks` | src/sslv1/nodes/group_controller.py:111-173 | over such a run what gets through is, in order, exactly the numbers above all before them |
| `SequenceTracking.EndlessStream` | src/sslv1/nodes/group_controller.py:125-165 | of 0, 1, 2, ... exactly the first 65536 are accepted, each later one is called a duplicate |
| `GroupController.Controller.RegisterNode` | src/sslv1/nodes/group_controller.py:249-282 | refused for a taken address, a full group or a known lamp; otherwise both indexes gain the same registration |
| `GroupController.Controller.UnregisterNode` | src/sslv1/nodes/group_controller.py:284-287 | both indexes lose the registration |
| `GroupController.Controller.BufferRecord` | src/sslv1/nodes/group_controller.py:608-622 | one more record with these contents, or one storage-full event |
| `GroupController.Controller.HandleFrame` | src/sslv1/nodes/group_controller.py:350-410 | exactly one disposition; only the sender's registration changes; a report that is new adds one record, or one storage-full event when the store takes none; every other frame adds no record and at most the event of its disposition |
| `GroupController.Controller.Admit` | src/sslv1/nodes/group_controller.py:363-403 | classify, then count, record and decode; the sender's registration and the events follow the disposition |
| `GroupController.Controller.Ingest` | src/sslv1/nodes/group_controller.py:412-468 | measurements, faults and events are stored under their record types |
| `GroupController.Controller.CollectResponses` | src/sslv1/nodes/group_controller.py:334-345 | the drained prefix is handled in order, events and records account for every frame of it, with room the store gains exactly the new reports in order, and an exception leaves the rest queued |
| `GroupController.IngestedIff` | src/sslv1/nodes/group_controller.py:350-410 | a frame is stored exactly if its sender is registered, its number is new, it is a measurement, fault or event, its payload decodes and a measurement's time stamp is not negative |
| `GroupController.DispositionIs` | src/sslv1/nodes/group_controller.py:350-410 | the exact condition of each disposition |
| `GroupController.RegistrationShows` | src/sslv1/nodes/group_controller.py:366-391 | what a duplicate, a stale and a new frame leave in the sender's registration |
| `GroupController.RecordOfIs` | src/sslv1/nodes/group_controller.py:412-468 | a stored report has the record type of its message, its payload, the present tick, passes its integrity check and waits for upload |
| `GroupController.PutAllAt` | src/sslv1/nodes/group_controller.py:608-622 | after a drain each new report is found under its own number, in order, and every earlier record is as it was |
| `GroupController.IngestedAtMostOnce` | src/sslv1/nodes/group_controller.py:249-410 | over every run no number of a registration is let through or stored twice, and at most 65536 are let through |
| `GroupController.Remembered` | src/sslv1/nodes/group_controller.py:360-385 | in every run the tracker of a registration has seen exactly the numbers let through since it was made |
| `GroupController.RegistrationReflects` | src/sslv1/nodes/group_controller.py:350-385 | after every history a registration's tracker, duplicate and stale counters and link successes are those of exactly the frames heard since it was made, each counted once |
| `GroupController.ThroughIs` | src/sslv1/nodes/group_controller.py:350-410 | in every history what got through from a sender is what a new tracker accepts of its own frames, whatever the other senders do |
| `GroupController.ReportsAre` | src/sslv1/nodes/group_controller.py:350-410 | in every history what was to be stored from a sender is decided by its own frames alone |
| `GroupController.NewReportsAreIngested` | src/sslv1/nodes/group_controller.py:350-410 | in every history, from a sender whose true numbers stay in one lap and near the highest, exactly the numbers above all before them get through and exactly the reports among those frames are to be stored, in order |
| `GroupController.DrainIsHistory` | src/sslv1/nodes/group_controller.py:334-345 | the reports a drain stores are those the history counts for each sender |
| `GroupController.IndexesAgree` | src/sslv1/nodes/group_controller.py:249-287 | after every run the two indexes hold the same registrations, at most the configured number |
| `Storage.RecordStore.Open` | src/sslv1/storage.py:115-138 | a capacity of zero or less is refused |
| `Storage.RecordStore.Create` | src/sslv1/storage.py:178-214 | a committed, integrity-coded, queued record under the next number, or a refusal that stores nothing, with the error that says why |
| `Storage.FreshPasses` | src/sslv1/storage.py:194-214 | a new record holds its content, passes its integrity check and waits for its first upload |
| `Storage.RecordStore.MarkUploaded` | src/sslv1/storage.py:219-223 | one attempt more and state uploaded, from any state |
| `Storage.RecordStore.MarkConfirmed` | src/sslv1/storage.py:225-236 | the record leaves the queue, whose order is kept, and stays in the store |
| `Storage.RecordStore.DamageRecord` | src/sslv1/storage.py:261-267 | the payload is altered and the record marked, the queue is not touched |
| `Storage.SpoilIs` | src/sslv1/storage.py:261-267 | damage changes payload and state and leaves code, commit marker and attempts |
| `Storage.RecordStore.DetectCorruption` | src/sslv1/storage.py:249-259 | every failing record that is not deleted is marked and returned, in order |
| `Storage.MarkAllAt` | src/sslv1/storage.py:252-258 | marking looks at each record by itself |
| `Storage.FailingAre` | src/sslv1/storage.py:249-259 | the records returned are exactly those whose stored code is not that of their content and that are not deleted |
| `Storage.RecordStore.SimulatePowerLoss` | src/sslv1/storage.py:272-282 | the store is in the power-loss state and the numbers of the uncommitted records are returned in order |
| `Storage.UncommittedAreDiscarded` | src/sslv1/storage.py:272-300 | those numbers are exactly the uncommitted ones, and recovery discards every one of them |
| `Storage.RecordStore.Recover` | src/sslv1/storage.py:284-300 | from any crash state exactly the records that are committed and whose stored code is that of their content stay, exactly the others are returned, and the queue keeps its order |
| `Storage.RecordStore.SweepEach` | src/sslv1/storage.py:290-298 | the loop that deletes from the record map and the queue while it runs |
| `Storage.SweepAll` | src/sslv1/storage.py:290-298 | deleting one by one inside the loop comes to removing all bad records at once |
| `Storage.DiscardsAre` | src/sslv1/storage.py:293-295 | the returned records are exactly the bad ones, marked corrupt |
| `Storage.RecoveryIsIdempotent` | src/sslv1/storage.py:284-300 | a second recovery finds nothing to discard |
| `Storage.RecordStore.Delete` | src/sslv1/storage.py:305-325 | refused while queued or while younger than the minimum retention, otherwise marked and listed |
| `Forwarding.ForwardUpstream` | src/sslv1/nodes/group_controller.py:624-654 | exactly the accepted records leave the queue, none leaves the store, every offer is counted once |
| `Forwarding.OfferOne` | src/sslv1/nodes/group_controller.py:634-644 | one record offered: unreachable, refused or accepted, with the state, attempts and place in the queue that follow |
| `Forwarding.QueueAfterPass` | src/sslv1/nodes/group_controller.py:634-644 | a pass over a snapshot of the queue leaves the order-preserving rest |
| `Forwarding.OfferedOnce` | src/sslv1/nodes/group_controller.py:634-644 | a pass touches each offered record once, as its answer says |
| `Forwarding.NotOffered` | src/sslv1/nodes/group_controller.py:634-644 | a pass touches no other record |
| `Forwarding.UploadedAtMostOnce` | src/sslv1/nodes/group_controller.py:624-654 | over every run against every upstream, accepted and pending records partition the created ones and none is accepted twice |
| `Forwarding.Play` | src/sslv1/nodes/group_controller.py:624-654 | any sequence of creations and forwards leaves the store that ledger describes: all records 1 to n still in it and passing their check, retained exactly if accepted |
| `Forwarding.CrashAndRecover` | src/sslv1/storage.py:272-300 | a power loss after any run of creations and forwards loses nothing: no record is incomplete, none is discarded, records and queue are as they were |
| `Forwarding.DamageAndRecover` | src/sslv1/storage.py:261-300 | damage to one record of such a run is found by recovery exactly if it changes the integrity code, and then costs exactly that record |
| `Forwarding.InOrder` | src/sslv1/nodes/group_controller.py:56-75 | with a link that accepts all or nothing, accepted followed by pending is exactly 1, 2, ..., in order |
| `Forwarding.ForwardToLink` | src/sslv1/nodes/group_controller.py:624-654 | forwarding to the in-memory link sends it the whole queue in order, or nothing |
| `Forwarding.PlayLink` | src/sslv1/nodes/group_controller.py:56-75 | over any run with an in-memory link that comes and goes, what the link received followed by the store's queue is 1, 2, ..., up to the last number created |
| `Faults.FaultEngine.ObserveResult` | src/sslv1/fault.py:191-246 | one observation through the index does what scanning the table would: raise, count within the anchored window, confirm, clear; the fault returned is the active one of the key or the last one cleared |
| `Faults.FaultEngine.ClearSuspicions` | src/sslv1/fault.py:325-338 | a normal reading clears exactly the lamp's unconfirmed suspicions, leaves later states latched and returns the last one cleared |
| `Faults.FaultEngine.Perform` | src/sslv1/fault.py:249-322 | the repair workflow, its outcome the one the results below speak of; a wrong state or unknown fault raises and changes nothing |
| `Faults.IndexIsScan` | src/sslv1/fault.py:208-212 | the index finds exactly what a scan for the active fault finds |
| `Faults.StepEvolves` | src/sslv1/fault.py:84-123 | every step keeps one active fault per key, moves faults along the lifecycle only and keeps their identity |
| `Faults.RunWellFormed` | src/sslv1/fault.py:171-173 | in every run at most one fault per key is active and none disappears |
| `Faults.TerminalForever` | src/sslv1/fault.py:305-338 | a fault that reached NORMAL or CLOSED never changes again |
| `FaultConfirmation.ConfirmationSound` | src/sslv1/fault.py:221-246 | a confirmed fault had at least count observations of its key within one window and no normal reading between |
| `FaultConfirmation.ConfirmationComplete` | src/sslv1/fault.py:221-246 | from any state, recurrence included, max(count, 2*count-2) observations in one window span always leave a confirmed fault that was not over when they began, whatever else happens |
| `FaultConfirmation.BoundIsSharp` | src/sslv1/fault.py:221-225 | one observation fewer can leave the fault unconfirmed, for every policy of three or more |
| `FaultConfirmation.OpenRecordsShow` | src/sslv1/fault.py:214-225 | in every run an open record shows the tick and evidence of the latest observation of its key and counts the running window |
| `FaultRepair.LatestWorkDecides` | src/sslv1/fault.py:249-322 | in every run the latest repair action that took effect decides the state of the fault and of its repair: acknowledged, under repair, verifying, closed, or under repair again |
| `FaultRepair.NoWorkYet` | src/sslv1/fault.py:249-258 | without one the fault is suspected, confirmed or cleared and carries no stamp |
| `FaultRepair.AcknowledgementStamps` | src/sslv1/fault.py:249-258 | acknowledgement stamps tick and actor for good |
| `FaultRepair.VerificationCloses` | src/sslv1/fault.py:284-322 | a successful verification closes for good and stamps tick and actor |
| `FaultRepair.ClosedIff` | src/sslv1/fault.py:284-322 | a fault is closed if and only if some event of the run was a successful verification that found it in VERIFYING |
| `FaultRepair.RecurrenceIff` | src/sslv1/fault.py:208-212 | an abnormal observation raises a new record if and only if every earlier one of its key is closed or cleared |
| `FaultRepair.OnlyTheNewestIsOpen` | src/sslv1/fault.py:340-381 | in every run only the newest record of a key can be open |
| `FaultIsolation.LampsAreIsolated` | src/sslv1/fault.py:191-322 | over any interleaving of observations and repair work, what is recorded for a lamp is what its own observations and work alone would record |
| `FaultIsolation.ViewObserve` | src/sslv1/fault.py:191-246 | an observation acts on its lamp's records as on a table of their own and on no other lamp's |
| `FaultIsolation.ViewWork` | src/sslv1/fault.py:249-322 | repair work on a lamp's fault is the same work on the fault of that rank among its own, and invisible to every other lamp |
| `Notifications.NotificationEngine.Transition` | src/sslv1/notification.py:64-73 | a transition outside the table is refused and changes nothing |
| `Notifications.NotificationEngine.OnFaultConfirmed` | src/sslv1/notification.py:117-124 | confirmation restarts the notification of that fault and of no other |
| `Notifications.NotificationEngine.NotifyFault` | src/sslv1/notification.py:126-150 | delivery from pending, failure, and silence in every other state |
| `Notifications.NotificationEngine.DeliveryFailure` | src/sslv1/notification.py:152-181 | the attempt is counted; retry while the allowance lasts |
| `Notifications.NotificationEngine.Advance` | src/sslv1/notification.py:183-235 | escalation or one reminder when their interval has passed, as a function of state and clock |
| `Notifications.Resting` | src/sslv1/notification.py:117-235 | where a required notification can rest, and failed for good if and only if the failures since confirmation exceed the allowance |
| `Notifications.StateFromMark` | src/sslv1/notification.py:117-235 | the state of a required notification is that of the latest event emitted since the latest confirmation |
| `Notifications.EmitsExactly` | src/sslv1/notification.py:117-235 | exactly what each call emits over every history: a send when one is possible, every failure, escalation from its timeout on since the latest notice, and before that one reminder from its interval on |
| `Notifications.UnrequiredIsSilent` | src/sslv1/notification.py:117-124 | once confirmed where no acknowledgement is required, nothing is emitted again |
| `Notifications.RetriesAreBounded` | src/sslv1/notification.py:152-181 | the retries since a confirmation are its failures, capped by the allowance |
| `Notifications.NeverRaises` | src/sslv1/notification.py:64-73 | no illegal transition is attempted on a required notification |
| `Notifications.RaisesExactly` | src/sslv1/notification.py:152-170 | a call raises if and only if it reports failed delivery of a notification not required |
| `Notifications.AtMostOnePerSend` | src/sslv1/notification.py:183-235 | reminders and escalations each never outnumber successful sends |
| `Notifications.NotTooEarly` | src/sslv1/notification.py:194-234 | neither fires before its interval since the latest notice |
| `Notifications.FailureIsAbsorbing` | src/sslv1/notification.py:155-167 | after the retries only a new confirmation moves it |
| `LinkHealth.CommunicationStateMachine.Create` | src/sslv1/comm/state_machine.py:39-46 | a negative retry limit is refused |
| `LinkHealth.CommunicationStateMachine.Move` | src/sslv1/comm/state_machine.py:110-124 | a move outside the table is refused, one inside is recorded |
| `LinkHealth.CommunicationStateMachine.RecordSuccess` | src/sslv1/comm/state_machine.py:62-80 | the state after a success; never raises |
| `LinkHealth.CommunicationStateMachine.RecordFailure` | src/sslv1/comm/state_machine.py:82-96 | the state after a failure; never raises |
| `LinkHealth.CommunicationStateMachine.BeginRecovery` | src/sslv1/comm/state_machine.py:98-102 | recovery begins from a fault only; never raises |
| `LinkHealth.CommunicationStateMachine.Reset` | src/sslv1/comm/state_machine.py:104-107 | healthy again, the history as it was |
| `LinkHealth.NextState` | src/sslv1/comm/state_machine.py:62-107 | in every run the counters are the failures and successes in a row, and the next state follows from state, event, failures and limit |
| `LinkHealth.ClosedForm` | src/sslv1/comm/state_machine.py:31-96 | from any healthy state ever reached, the state after n failures as a function of n and the limit |
| `LinkHealth.AlwaysFaultsInTheEnd` | src/sslv1/comm/state_machine.py:82-96 | from any reachable state max(3, limit+2) failures end in a fault |
| `LinkHealth.TwoSuccessesHeal` | src/sslv1/comm/state_machine.py:62-80 | two successes always heal; one does if and only if there is no fault |
| `LinkHealth.HistoryIsAPath` | src/sslv1/comm/state_machine.py:110-124 | from any state on, a stretch without resets adds one legal, numbered path to the current state |
| `LinkHealth.HistoryIsLinkedIff` | src/sslv1/comm/state_machine.py:104-124 | over every run, resets included: the whole history is one legal path to the current state if and only if no reset found the link unhealthy |
| `LinkHealth.ResetLeavesNoTrace` | src/sslv1/comm/state_machine.py:104-107 | a run with a reset whose history is not linked |
| `Commands.LampNode.Transition` | src/sslv1/command.py:103-121 | a lifecycle step outside the table is refused, one inside stamps its stage |
| `Commands.LampNode.Execute` | src/sslv1/nodes/lamp_node.py:633-699 | which commands a lamp node carries out, their effect, and the one check that raises |
| `Commands.LampNode.Verify` | src/sslv1/nodes/lamp_node.py:701-723 | what the check of the actual state finds |
| `Commands.LampNode.SubmitCommand` | src/sslv1/command.py:156-213 | a known id returns its record and changes nothing; a new one is authorized, executed once and ends stamped for exactly its stages; never raises |
| `Commands.LampNode.RunStages` | src/sslv1/command.py:185-213 | from receipt to the end of an authorized command |
| `Commands.EffectsAre` | src/sslv1/nodes/lamp_node.py:633-699 | exactly what an authorized new command does to mode, override, lamp and energy; SET_MODE with code n sets the n-th mode |
| `Commands.AuthorizedIff` | src/sslv1/command.py:216-240 | a command is authorized exactly for an authenticated actor whose role has the grant that command needs |
| `Commands.ForcedByLicense` | src/sslv1/nodes/lamp_node.py:633-699 | where only commands act on the control model, a lamp is forced, or its mode is not the configured one, only after a verified command that says so by an authenticated actor with the grant for it |
| `Commands.ConsumptionAddsUp` | src/sslv1/nodes/lamp_node.py:288-295 | an hour at constant power consumes that power once, and consumption adds up over intervals |
| `Commands.ExecutedIsConfirmed` | src/sslv1/nodes/lamp_node.py:633-723 | verification never fails a command the lamp node executed |
| `Commands.ReplayIsHarmless` | src/sslv1/command.py:156-168 | a stream with repeated ids leaves control state, energy, records and executions of the stream without the repeats |
| `Commands.ExecutedAtMostOnce` | src/sslv1/command.py:156-213 | in every run the executor ran at most once per id and exactly for authorized ones, and states and stamps are those of the stages reached |
| `Commands.NewNodeExecutesAtMostOnce` | src/sslv1/command.py:136-213 | in particular in every run of a new lamp node |
| `Control.ControlModel.Override` | src/sslv1/control.py:120-137 | an override takes effect on the lamp at once |
| `Control.ControlModel.MakeDecision` | src/sslv1/control.py:152-226 | protection over override over schedule over sensor; which of the four layers decided, and the state it commands |
| `Control.ControlModel.SensorDecision` | src/sslv1/control.py:231-248 | thresholds switch, the dead band and a missing reading retain |
| `Control.LatestDecisiveEvent` | src/sslv1/control.py:120-248 | after any interleaving of calls the lamp shows what the latest decisive event of the history dictates |
| `Control.DecisionIs` | src/sslv1/control.py:152-248 | what a decision does to the lamp by what the history left in force: protection as forced, override as forced, fixed schedule by its windows, outside the window as configured, else by the thresholds |
| `Control.CallIs` | src/sslv1/control.py:114-147 | of the other calls only a forcing override moves the lamp, at once |
| `Control.ForcedStays` | src/sslv1/control.py:120-184 | a forced lamp stays as forced through decisions and mode changes |
| `Control.OffUntilDecided` | src/sslv1/control.py:74-85 | before the first decisive event the lamp is off |
| `Control.SettingsInHistory` | src/sslv1/control.py:114-147 | mode, override and protection are those last set in the history |
| `Control.SensorRun` | src/sslv1/control.py:219-248 | an unforced run in sensor mode is the fold of its readings |
| `Control.SwitchingsAreCrossings` | src/sslv1/control.py:231-248 | the lamp switches exactly once per full crossing of the dead band, and once more if the first decisive reading differs from the start |
| `Control.CrossingsAreEarned` | src/sslv1/control.py:231-248 | with thresholds ordered as configuration validation requires, every crossing takes one width of light movement |
| `Control.SwitchingsAreEarned` | src/sslv1/control.py:231-248 | so switchings after the first never outnumber the widths of the dead band the light has moved |
| `Control.SwingingIsTight` | src/sslv1/control.py:231-248 | that bound is reached for every number of switchings |
| `Schedules.NextTransition` | src/sslv1/configuration.py:82-92 | the nearest later occurrence of a window bound, none without windows |
| `Schedules.IsOnIff` | src/sslv1/configuration.py:44-48 | on exactly while a window is open, counted forward from its start for as many ticks as lie between its bounds, across midnight too |
| `Schedules.ConstantUntilNext` | src/sslv1/configuration.py:77-92 | the state is constant up to, and not including, the announced tick, 1 to one day ahead |
| `Schedules.RealTransitionIff` | src/sslv1/configuration.py:82-92 | the announced tick is a real transition from everywhere if and only if no window covers the tick before a start or the tick at an end of any window |
| `Schedules.SingleWindowFlips` | src/sslv1/configuration.py:44-48 | a single window whose bounds differ modulo the day really flips there |
| `Schedules.TouchingWindowsMislead` | src/sslv1/configuration.py:82-92 | two touching windows announce a transition that is none |
| `Schedules.AlwaysOnHasAGap` | src/sslv1/configuration.py:70-75 | the always-on schedule is off at the last tick of the day and impossible for one-tick days |

## Left out

- Aliasing: faults, stored records, command records and registrations are values held by their engine, so updates through a record handed out earlier are not captured; the second registration index holds addresses instead of shared objects.
- Dictionary order: the store's dictionary is walked in key order, which is its insertion order; fault F-0001 is entry 0 of a sequence.
- Bus endpoints: an endpoint is the inbox of its address, so one object attached twice counts as two; a transmission is decoded once instead of once per addressee, decoding being a function.
- Structs.UnpackStrIff: strings are octets; UTF-8 encoding and its errors are not modelled.
- Protocol.FixedIff: enumeration members are positions in declaration order; missing fields and the codecs for status, events, acknowledgements and time are left out.
- GroupController.Controller.HandleFrame: the payload codecs are a parameter that yields a payload and a time stamp or fails, and the stored payload is what it yields; conversion to physical units is left out.
- Polling, sending and pending requests of the group controller; a corrupted poll raises out of the loop, so no containment holds for it.
- Storage.RecordStore.Create: the integrity code is an arbitrary function of the record, so nothing is claimed about which corruptions it detects; payload values are integers.
- Storage.RecordStore.Delete: the deletion callback and actor are left out; deletion frees no capacity and is not terminal, as in the code.
- Forwarding.UploadedAtMostOnce: stated for runs of creation and forwarding without corruption and recovery in between.
- Faults.FaultEngine.ObserveResult: severity, site and group, related events, verification evidence and reason texts are left out, among them the confirmation reason that the notification machine overwrites.
- FaultConfirmation.ConfirmationSound: stated for one policy throughout a run, as are completeness and sharpness.
- Diagnostics: a diagnostic result is an input, normal or a key with evidence.
- Notifications.Resting: stated, like all runs of the notification machine, for one policy; a configuration write replaces it.
- Notifications.NotificationEngine.Advance: acknowledgement only emits an event and is left out, as are destinations and texts.
- Commands.LampNode.Execute: energy is a real number, an energy reading with zero ticks an hour raises as in the code, a mode parameter that overflows on conversion is left out, and so are events and reason texts.
- Commands.LampNode.SubmitCommand: the table of grants is a parameter; the group controller's own command service, whose executor and verifier always succeed, is not a separate class.
- Control.LatestDecisiveEvent: stated for one configuration; a configuration write replaces thresholds and schedule and leaves mode, override and lamp alone.
- Control.ControlModel.MakeDecision: reasons and ticks of a decision are left out; `light_hysteresis` takes no part in decisions.
- Time model, event log, identities, summaries and snapshots: reporting and one-step checks only.
