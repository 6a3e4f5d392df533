/**
 Payload codecs with a fixed layout, with a fixed part followed by one string, and with strings only.  A member of
 an enumeration is its position in declaration order; any other integer stands for a value that is no member.
 */
module Protocol {
  import opened Wrappers
  import opened Bytes
  import opened Structs

  datatype Slot = Number(item: Item) | Member(count: nat)

  type Layout = seq<Slot>

  function ItemOf(slot: Slot): Item
  {
    if slot.Number? then slot.item else UInt8
  }

  function FormatOf(layout: Layout): (f: Format)
    ensures |f| == |layout|
  {
    seq(|layout|, i requires 0 <= i < |layout| => ItemOf(layout[i]))
  }

  predicate Known(layout: Layout, values: seq<int>)
  {
    |values| == |layout| && forall i :: 0 <= i < |layout| && layout[i].Member? ==> 0 <= values[i] < layout[i].count
  }

  /** Members are looked up before anything is packed, so an unknown one is reported first. */
  function EncodeFixed(layout: Layout, values: seq<int>): Result<bytes, CodecError>
  {
    if !Known(layout, values) then Err(ProtocolError) else Pack(FormatOf(layout), values)
  }

  /** A code that is no member's position is an indexing error, not a protocol error. */
  function DecodeFixed(layout: Layout, data: bytes): Result<seq<int>, CodecError>
    requires |data| == Size(FormatOf(layout))
  {
    var values := Unpack(FormatOf(layout), data);
    if Known(layout, values) then Ok(values) else Err(IndexError)
  }

  lemma FixedIff(layout: Layout, values: seq<int>, data: bytes)
    requires |data| == Size(FormatOf(layout))
    ensures DecodeFixed(layout, data) == Ok(values) <==> EncodeFixed(layout, values) == Ok(data)
  {
    var f := FormatOf(layout);
    PackUnpack(f, data);
    if AllFit(f, values) {
      UnpackPack(f, values);
    }
  }

  /** A fixed part followed by one string. */
  function EncodeMixed(layout: Layout, values: seq<int>, text: bytes): Result<bytes, CodecError>
  {
    var fixed :- EncodeFixed(layout, values);
    var packed :- PackStr(text);
    Ok(fixed + packed)
  }

  datatype Mixed = Mixed(values: seq<int>, text: bytes)

  /** Octets after the string are not looked at. */
  function DecodeMixed(layout: Layout, data: bytes): Result<Mixed, CodecError>
  {
    var size := Size(FormatOf(layout));
    if |data| < size + 1 then Err(ProtocolError)
    else
      var text :- UnpackStr(data, size);
      var values :- DecodeFixed(layout, data[..size]);
      Ok(Mixed(values, text.value))
  }

  lemma MixedLayout(fixed: bytes, text: bytes, data: bytes)
    requires PackStr(text).Ok? && |fixed| < |data|
    ensures var next := |fixed| + 1 + |text|;
      fixed + PackStr(text).value <= data
      <==> next <= |data| && data[..|fixed|] == fixed && data[|fixed|..next] == PackStr(text).value
  {
    var next := |fixed| + 1 + |text|;
    if next <= |data| {
      Adjacent(data, 0, |fixed|, next, fixed, PackStr(text).value);
      assert data[0..next] == data[..next] && data[0..|fixed|] == data[..|fixed|];
    }
  }

  /** What is decoded is exactly what was encoded into some prefix of the data. */
  lemma MixedIff(layout: Layout, values: seq<int>, text: bytes, data: bytes)
    ensures DecodeMixed(layout, data) == Ok(Mixed(values, text))
       <==> EncodeMixed(layout, values, text).Ok? && EncodeMixed(layout, values, text).value <= data
  {
    var size := Size(FormatOf(layout));
    if |data| >= size + 1 {
      var head := data[..size];
      FixedIff(layout, values, head);
      UnpackStrIff(data, size, text, size + 1 + |text|);
      if PackStr(text).Ok? && EncodeFixed(layout, values).Ok? {
        MixedLayout(EncodeFixed(layout, values).value, text, data);
      }
      if UnpackStr(data, size).Ok? {
        var got := UnpackStr(data, size).value;
        UnpackStrIff(data, size, got.value, got.next);
      }
    }
  }

  // ---------- the message types ----------

  const OPERATING_MODES := 5
  const LAMP_STATES := 3
  const SENSOR_STATUSES := 3
  const COMMUNICATION_STATUSES := 5
  const CONTROLLER_STATUSES := 4
  const CONTROL_SUBTYPES := 5
  const FAULT_TYPES := 11
  const DIAGNOSTIC_CLASSIFICATIONS := 13
  const FAULT_STATES := 7
  const NOTIFICATION_STATES := 7
  const FAULT_SEVERITIES := 4

  /** Format >qiiiiq followed by 7B. */
  const MEASUREMENT: Layout :=
    [ Number(Int64), Number(Int32), Number(Int32), Number(Int32), Number(Int32), Number(Int64),
      Member(OPERATING_MODES), Member(LAMP_STATES), Member(LAMP_STATES), Member(LAMP_STATES),
      Member(SENSOR_STATUSES), Member(COMMUNICATION_STATUSES), Member(CONTROLLER_STATUSES) ]

  /** Format >BBi. */
  const CONTROL: Layout := [Member(CONTROL_SUBTYPES), Member(LAMP_STATES), Number(Int32)]

  /** Format >5BH. */
  const FAULT: Layout :=
    [ Member(FAULT_TYPES), Member(DIAGNOSTIC_CLASSIFICATIONS), Member(FAULT_STATES), Member(NOTIFICATION_STATES),
      Member(FAULT_SEVERITIES), Number(UInt16) ]

  datatype Measurement = Measurement(
    timestampTicks: int,
    voltageMv: int,
    currentMa: int,
    powerMw: int,
    energyMwh: int,
    lightLevel: int,
    effectiveMode: int,
    commandedState: int,
    switchingFeedback: int,
    actualState: int,
    sensorStatus: int,
    communicationStatus: int,
    controllerStatus: int)

  datatype ControlCommand = ControlCommand(subtype: int, targetState: int, parameter: int, commandId: bytes)

  datatype FaultReport = FaultReport(
    faultType: int,
    classification: int,
    faultState: int,
    notificationState: int,
    severity: int,
    confirmationCount: int,
    faultId: bytes)

  datatype Identity = Identity(productId: bytes, siteId: bytes, groupId: bytes, lampId: bytes, mcuUniqueId: bytes)

  function EncodeMeasurement(m: Measurement): Result<bytes, CodecError>
  {
    EncodeFixed(MEASUREMENT,
      [ m.timestampTicks, m.voltageMv, m.currentMa, m.powerMw, m.energyMwh, m.lightLevel,
        m.effectiveMode, m.commandedState, m.switchingFeedback, m.actualState,
        m.sensorStatus, m.communicationStatus, m.controllerStatus ])
  }

  function DecodeMeasurement(data: bytes): Result<Measurement, CodecError>
  {
    if |data| != Size(FormatOf(MEASUREMENT)) then Err(ProtocolError)
    else
      var v :- DecodeFixed(MEASUREMENT, data);
      Ok(Measurement(v[0], v[1], v[2], v[3], v[4], v[5], v[6], v[7], v[8], v[9], v[10], v[11], v[12]))
  }

  function EncodeControlCommand(c: ControlCommand): Result<bytes, CodecError>
  {
    EncodeMixed(CONTROL, [c.subtype, c.targetState, c.parameter], c.commandId)
  }

  function DecodeControlCommand(data: bytes): Result<ControlCommand, CodecError>
  {
    var m :- DecodeMixed(CONTROL, data);
    Ok(ControlCommand(m.values[0], m.values[1], m.values[2], m.text))
  }

  function EncodeFaultReport(f: FaultReport): Result<bytes, CodecError>
  {
    EncodeMixed(FAULT, [f.faultType, f.classification, f.faultState, f.notificationState, f.severity,
                        f.confirmationCount], f.faultId)
  }

  function DecodeFaultReport(data: bytes): Result<FaultReport, CodecError>
  {
    var m :- DecodeMixed(FAULT, data);
    Ok(FaultReport(m.values[0], m.values[1], m.values[2], m.values[3], m.values[4], m.values[5], m.text))
  }

  function EncodeIdentity(i: Identity): Result<bytes, CodecError>
  {
    PackStrings([i.productId, i.siteId, i.groupId, i.lampId, i.mcuUniqueId])
  }

  function DecodeIdentity(data: bytes): Result<Identity, CodecError>
  {
    var t :- UnpackStrings(data, 0, 5);
    UnpackedCount(data, 0, 5);
    Ok(Identity(t.values[0], t.values[1], t.values[2], t.values[3], t.values[4]))
  }

  /** The loop over the five strings, with its growing list and moving offset. */
  method DecodeIdentifyAck(data: bytes) returns (r: Result<Identity, CodecError>)
    ensures r == DecodeIdentity(data)
  {
    var offset: nat := 0;
    var values: seq<bytes> := [];
    ghost var goal := UnpackStrings(data, 0, 5);
    assert goal.Ok? ==> [] + goal.value.values == goal.value.values;
    var i := 0;
    while i < 5
      invariant i <= 5 && |values| == i
      invariant goal == Prefixed(values, UnpackStrings(data, offset, 5 - i))
    {
      var text := UnpackStr(data, offset);
      if text.Err? {
        return Err(text.error);
      }
      NextString(values, data, offset, 5 - i);
      values := values + [text.value.value];
      offset := text.value.next;
      i := i + 1;
    }
    return Ok(Identity(values[0], values[1], values[2], values[3], values[4]));
  }

  function Prefixed(values: seq<bytes>, rest: Result<Texts, CodecError>): Result<Texts, CodecError>
  {
    if rest.Err? then rest else Ok(Texts(values + rest.value.values, rest.value.next))
  }

  lemma NextString(values: seq<bytes>, data: bytes, offset: nat, n: nat)
    requires n > 0 && UnpackStr(data, offset).Ok?
    ensures var text := UnpackStr(data, offset).value;
      Prefixed(values, UnpackStrings(data, offset, n))
      == Prefixed(values + [text.value], UnpackStrings(data, text.next, n - 1))
  {
    var text := UnpackStr(data, offset).value;
    var rest := UnpackStrings(data, text.next, n - 1);
    if rest.Ok? {
      assert values + ([text.value] + rest.value.values) == values + [text.value] + rest.value.values;
    }
  }

  // ---------- round trips ----------

  /** A measurement is 39 octets and decoding is the exact inverse of encoding, errors included. */
  lemma MeasurementIff(m: Measurement, data: bytes)
    ensures DecodeMeasurement(data) == Ok(m) <==> EncodeMeasurement(m) == Ok(data)
  {
    var v := [ m.timestampTicks, m.voltageMv, m.currentMa, m.powerMw, m.energyMwh, m.lightLevel,
               m.effectiveMode, m.commandedState, m.switchingFeedback, m.actualState,
               m.sensorStatus, m.communicationStatus, m.controllerStatus ];
    if |data| == Size(FormatOf(MEASUREMENT)) {
      FixedIff(MEASUREMENT, v, data);
      if DecodeMeasurement(data) == Ok(m) {
        assert DecodeFixed(MEASUREMENT, data).value == v;
      }
    }
  }

  /** Decoding a command gives back what was encoded, whatever follows it, and accepts nothing else. */
  lemma ControlCommandIff(c: ControlCommand, data: bytes)
    ensures DecodeControlCommand(data) == Ok(c)
       <==> EncodeControlCommand(c).Ok? && EncodeControlCommand(c).value <= data
  {
    var v := [c.subtype, c.targetState, c.parameter];
    MixedIff(CONTROL, v, c.commandId, data);
    if DecodeControlCommand(data) == Ok(c) {
      assert DecodeMixed(CONTROL, data).value.values == v;
    }
  }

  lemma FaultReportIff(f: FaultReport, data: bytes)
    ensures DecodeFaultReport(data) == Ok(f) <==> EncodeFaultReport(f).Ok? && EncodeFaultReport(f).value <= data
  {
    var v := [f.faultType, f.classification, f.faultState, f.notificationState, f.severity, f.confirmationCount];
    MixedIff(FAULT, v, f.faultId, data);
    if DecodeFaultReport(data) == Ok(f) {
      assert DecodeMixed(FAULT, data).value.values == v;
    }
  }

  lemma IdentityIff(i: Identity, data: bytes)
    ensures DecodeIdentity(data) == Ok(i) <==> EncodeIdentity(i).Ok? && EncodeIdentity(i).value <= data
  {
    var texts := [i.productId, i.siteId, i.groupId, i.lampId, i.mcuUniqueId];
    if EncodeIdentity(i).Ok? {
      var b := EncodeIdentity(i).value;
      UnpackStringsIff(data, 0, 5, texts, |b|);
      if b <= data {
        assert data[0..|b|] == b;
      }
    }
    if DecodeIdentity(data) == Ok(i) {
      UnpackedCount(data, 0, 5);
      var t := UnpackStrings(data, 0, 5).value;
      assert t.values == texts;
      UnpackStringsIff(data, 0, 5, texts, t.next);
    }
  }

  lemma FirstString(texts: seq<bytes>, first: bytes, rest: seq<bytes>)
    requires texts == [first] + rest
    ensures PackStrings(texts).Ok? <==> |first| <= 255 && PackStrings(rest).Ok?
    ensures PackStrings(texts).Ok? ==> PackStrings(texts).value == ([|first|] + first) + PackStrings(rest).value
  {
    assert texts[0] == first && texts[1..] == rest;
  }

  /** The five strings are written in this order, each after its length. */
  lemma IdentityLayout(i: Identity)
    requires EncodeIdentity(i).Ok?
    ensures |i.productId| <= 255 && |i.siteId| <= 255 && |i.groupId| <= 255 && |i.lampId| <= 255
    ensures |i.mcuUniqueId| <= 255
    ensures EncodeIdentity(i).value
         == ([|i.productId|] + i.productId) + (([|i.siteId|] + i.siteId) + (([|i.groupId|] + i.groupId)
            + (([|i.lampId|] + i.lampId) + ([|i.mcuUniqueId|] + i.mcuUniqueId))))
  {
    FirstString([i.mcuUniqueId], i.mcuUniqueId, []);
    FirstString([i.lampId, i.mcuUniqueId], i.lampId, [i.mcuUniqueId]);
    FirstString([i.groupId, i.lampId, i.mcuUniqueId], i.groupId, [i.lampId, i.mcuUniqueId]);
    FirstString([i.siteId, i.groupId, i.lampId, i.mcuUniqueId], i.siteId, [i.groupId, i.lampId, i.mcuUniqueId]);
    FirstString([i.productId, i.siteId, i.groupId, i.lampId, i.mcuUniqueId], i.productId,
                [i.siteId, i.groupId, i.lampId, i.mcuUniqueId]);
    assert PackStrings([]) == Ok([]);
    var last := [|i.mcuUniqueId|] + i.mcuUniqueId;
    assert last + [] == last;
  }

  lemma OctetItem(data: bytes, k: nat)
    requires k < |data|
    ensures UnpackItem(UInt8, data[k..k + 1]) == data[k]
  {
    var b := data[k..k + 1];
    assert FromBigEndian(b) == FromBigEndian(b[..0]) * 256 + b[0];
  }

  /** Where each field of a measurement lies on the wire. */
  lemma MeasurementOffsets(data: bytes)
    requires DecodeMeasurement(data).Ok?
    ensures |data| == 39
    ensures var m := DecodeMeasurement(data).value;
      && m.timestampTicks == UnpackItem(Int64, data[0..8])
      && m.voltageMv == UnpackItem(Int32, data[8..12]) && m.currentMa == UnpackItem(Int32, data[12..16])
      && m.powerMw == UnpackItem(Int32, data[16..20]) && m.energyMwh == UnpackItem(Int32, data[20..24])
      && m.lightLevel == UnpackItem(Int64, data[24..32])
      && m.effectiveMode == data[32] && m.commandedState == data[33] && m.switchingFeedback == data[34]
      && m.actualState == data[35] && m.sensorStatus == data[36] && m.communicationStatus == data[37]
      && m.controllerStatus == data[38]
  {
    MeasurementSize(FormatOf(MEASUREMENT));
    NumbersAt(FormatOf(MEASUREMENT), data);
    MemberAt(FormatOf(MEASUREMENT), data, 6);
    MemberAt(FormatOf(MEASUREMENT), data, 7);
    MemberAt(FormatOf(MEASUREMENT), data, 8);
    MemberAt(FormatOf(MEASUREMENT), data, 9);
    MemberAt(FormatOf(MEASUREMENT), data, 10);
    MemberAt(FormatOf(MEASUREMENT), data, 11);
    MemberAt(FormatOf(MEASUREMENT), data, 12);
  }

  lemma NumberOffsets(f: Format)
    requires f == FormatOf(MEASUREMENT)
    ensures Offset(f, 0) == 0 && Offset(f, 1) == 8 && Offset(f, 2) == 12 && Offset(f, 3) == 16 && Offset(f, 4) == 20
    ensures Offset(f, 5) == 24 && Offset(f, 6) == 32
  {
    assert f[0] == f[5] == Int64 && f[1] == f[2] == f[3] == f[4] == Int32;
  }

  lemma NumbersAt(f: Format, data: bytes)
    requires f == FormatOf(MEASUREMENT) && |data| == Size(f) == 39
    ensures var v := Unpack(f, data);
      && v[0] == UnpackItem(Int64, data[0..8]) && v[1] == UnpackItem(Int32, data[8..12])
      && v[2] == UnpackItem(Int32, data[12..16]) && v[3] == UnpackItem(Int32, data[16..20])
      && v[4] == UnpackItem(Int32, data[20..24]) && v[5] == UnpackItem(Int64, data[24..32])
  {
    NumberOffsets(f);
    UnpackAt(f, data, 0);
    UnpackAt(f, data, 1);
    UnpackAt(f, data, 2);
    UnpackAt(f, data, 3);
    UnpackAt(f, data, 4);
    UnpackAt(f, data, 5);
  }

  lemma MemberAt(f: Format, data: bytes, k: nat)
    requires f == FormatOf(MEASUREMENT) && |data| == Size(f) == 39 && 6 <= k < 13
    ensures Unpack(f, data)[k] == data[k + 26]
  {
    MemberOffset(f, k - 6);
    assert f[k] == UInt8;
    UnpackAt(f, data, k);
    OctetItem(data, k + 26);
  }

  lemma {:induction false} MemberOffset(f: Format, k: nat)
    requires f == FormatOf(MEASUREMENT) && k <= 7
    ensures Offset(f, 6 + k) == 32 + k
  {
    if k == 0 {
      NumberOffsets(f);
    } else {
      assert f[5 + k] == UInt8;
      MemberOffset(f, k - 1);
    }
  }

  /** The parts of a fixed layout followed by one string. */
  lemma MixedParts(layout: Layout, data: bytes)
    requires DecodeMixed(layout, data).Ok?
    ensures var m, size := DecodeMixed(layout, data).value, Size(FormatOf(layout));
      && size + 1 + |m.text| <= |data|
      && m.values == Unpack(FormatOf(layout), data[..size])
      && data[size] == |m.text| && m.text == data[size + 1..size + 1 + |m.text|]
  {
  }

  lemma FieldOfPrefix(data: bytes, size: nat, i: nat, j: nat)
    requires i <= j <= size <= |data|
    ensures data[..size][i..j] == data[i..j]
  {
  }

  /** Where each field of a control command lies on the wire. */
  lemma ControlCommandOffsets(data: bytes)
    requires DecodeControlCommand(data).Ok?
    ensures |data| >= 7
    ensures var c := DecodeControlCommand(data).value;
      && c.subtype == data[0] && c.targetState == data[1] && c.parameter == UnpackItem(Int32, data[2..6])
      && data[6] == |c.commandId| && 7 + |c.commandId| <= |data| && c.commandId == data[7..7 + |c.commandId|]
  {
    MixedParts(CONTROL, data);
    ControlSize(FormatOf(CONTROL));
    ControlFields(FormatOf(CONTROL), data);
  }

  lemma ControlSize(f: Format)
    requires f == [UInt8, UInt8, Int32]
    ensures Size(f) == 6
  {
    UniformSize([UInt8, UInt8], UInt8, [Int32]);
    UniformSize([Int32], Int32, []);
    assert f == [UInt8, UInt8] + [Int32] && [Int32] + [] == [Int32];
  }

  lemma ControlFields(f: Format, data: bytes)
    requires f == [UInt8, UInt8, Int32] && Size(f) == 6 <= |data|
    ensures Unpack(f, data[..6]) == [data[0] as int, data[1] as int, UnpackItem(Int32, data[2..6])]
  {
    assert Offset(f, 1) == 1 && Offset(f, 2) == 2;
    UnpackAt(f, data[..6], 0);
    UnpackAt(f, data[..6], 1);
    UnpackAt(f, data[..6], 2);
    OctetItem(data[..6], 0);
    OctetItem(data[..6], 1);
    FieldOfPrefix(data, 6, 2, 6);
  }

  /** Where each field of a fault report lies on the wire. */
  lemma FaultReportOffsets(data: bytes)
    requires DecodeFaultReport(data).Ok?
    ensures |data| >= 8
    ensures var r := DecodeFaultReport(data).value;
      && r.faultType == data[0] && r.classification == data[1] && r.faultState == data[2]
      && r.notificationState == data[3] && r.severity == data[4]
      && r.confirmationCount == UnpackItem(UInt16, data[5..7])
      && data[7] == |r.faultId| && 8 + |r.faultId| <= |data| && r.faultId == data[8..8 + |r.faultId|]
  {
    MixedParts(FAULT, data);
    FaultSize(FormatOf(FAULT));
    FaultFields(FormatOf(FAULT), data);
  }

  lemma FaultSize(f: Format)
    requires f == [UInt8, UInt8, UInt8, UInt8, UInt8, UInt16]
    ensures Size(f) == 7
  {
    UniformSize(f[..5], UInt8, [UInt16]);
    UniformSize([UInt16], UInt16, []);
    assert f == f[..5] + [UInt16] && [UInt16] + [] == [UInt16];
  }

  lemma FaultFields(f: Format, data: bytes)
    requires f == [UInt8, UInt8, UInt8, UInt8, UInt8, UInt16] && Size(f) == 7 <= |data|
    ensures forall k :: 0 <= k < 5 ==> Unpack(f, data[..7])[k] == data[k]
    ensures Unpack(f, data[..7])[5] == UnpackItem(UInt16, data[5..7])
  {
    forall k | 0 <= k < 5
      ensures Unpack(f, data[..7])[k] == data[k]
    {
      OctetOffset(f, k);
      UnpackAt(f, data[..7], k);
      OctetItem(data[..7], k);
    }
    OctetOffset(f, 5);
    UnpackAt(f, data[..7], 5);
    FieldOfPrefix(data, 7, 5, 7);
  }

  lemma {:induction false} OctetOffset(f: Format, k: nat)
    requires k <= |f| && forall i :: 0 <= i < k ==> f[i] == UInt8
    ensures Offset(f, k) == k
  {
    if k > 0 {
      OctetOffset(f, k - 1);
    }
  }

  /** Exactly which measurements can be encoded, and how the others fail. */
  lemma MeasurementEncodes(m: Measurement)
    ensures EncodeMeasurement(m).Ok?
       <==> && -0x8000_0000_0000_0000 <= m.timestampTicks < 0x8000_0000_0000_0000
            && -0x8000_0000 <= m.voltageMv < 0x8000_0000 && -0x8000_0000 <= m.currentMa < 0x8000_0000
            && -0x8000_0000 <= m.powerMw < 0x8000_0000 && -0x8000_0000 <= m.energyMwh < 0x8000_0000
            && -0x8000_0000_0000_0000 <= m.lightLevel < 0x8000_0000_0000_0000
            && 0 <= m.effectiveMode < 5 && 0 <= m.commandedState < 3
            && 0 <= m.switchingFeedback < 3 && 0 <= m.actualState < 3
            && 0 <= m.sensorStatus < 3 && 0 <= m.communicationStatus < 5
            && 0 <= m.controllerStatus < 4
    ensures EncodeMeasurement(m).Ok? ==> |EncodeMeasurement(m).value| == 39
  {
    var v := [ m.timestampTicks, m.voltageMv, m.currentMa, m.powerMw, m.energyMwh, m.lightLevel,
               m.effectiveMode, m.commandedState, m.switchingFeedback, m.actualState,
               m.sensorStatus, m.communicationStatus, m.controllerStatus ];
    MeasurementSize(FormatOf(MEASUREMENT));
    KnownMeasurement(v);
    if Known(MEASUREMENT, v) {
      FittingMeasurement(v);
    }
  }

  lemma KnownMeasurement(v: seq<int>)
    requires |v| == 13
    ensures Known(MEASUREMENT, v)
       <==> && 0 <= v[6] < OPERATING_MODES && 0 <= v[7] < LAMP_STATES && 0 <= v[8] < LAMP_STATES
            && 0 <= v[9] < LAMP_STATES && 0 <= v[10] < SENSOR_STATUSES && 0 <= v[11] < COMMUNICATION_STATUSES
            && 0 <= v[12] < CONTROLLER_STATUSES
  {
    var l := MEASUREMENT;
    assert l[6].Member? && l[7].Member? && l[8].Member? && l[9].Member? && l[10].Member? && l[11].Member?
        && l[12].Member?;
  }

  lemma FittingMeasurement(v: seq<int>)
    requires |v| == 13 && Known(MEASUREMENT, v)
    ensures AllFit(FormatOf(MEASUREMENT), v)
       <==> && -0x8000_0000_0000_0000 <= v[0] < 0x8000_0000_0000_0000
            && -0x8000_0000 <= v[1] < 0x8000_0000 && -0x8000_0000 <= v[2] < 0x8000_0000
            && -0x8000_0000 <= v[3] < 0x8000_0000 && -0x8000_0000 <= v[4] < 0x8000_0000
            && -0x8000_0000_0000_0000 <= v[5] < 0x8000_0000_0000_0000
  {
    ItemRanges();
    KnownMeasurement(v);
    var f := FormatOf(MEASUREMENT);
    assert f == [Int64, Int32, Int32, Int32, Int32, Int64, UInt8, UInt8, UInt8, UInt8, UInt8, UInt8, UInt8];
    if AllFit(f, v) {
      assert Fits(f[0], v[0]) && Fits(f[1], v[1]) && Fits(f[2], v[2]) && Fits(f[3], v[3]) && Fits(f[4], v[4])
          && Fits(f[5], v[5]);
    }
  }

  /** Exactly which control commands can be encoded. */
  lemma ControlCommandEncodes(c: ControlCommand)
    ensures EncodeControlCommand(c).Ok?
       <==> && 0 <= c.subtype < 5 && 0 <= c.targetState < 3 && -0x8000_0000 <= c.parameter < 0x8000_0000
            && |c.commandId| <= 255
  {
    ItemRanges();
    var v, l, f := [c.subtype, c.targetState, c.parameter], CONTROL, FormatOf(CONTROL);
    assert f == [UInt8, UInt8, Int32] && l[0].Member? && l[1].Member?;
    if AllFit(f, v) {
      assert Fits(f[2], v[2]);
    }
  }

  /** Exactly which fault reports can be encoded. */
  lemma FaultReportEncodes(r: FaultReport)
    ensures EncodeFaultReport(r).Ok?
       <==> && 0 <= r.faultType < 11 && 0 <= r.classification < 13 && 0 <= r.faultState < 7
            && 0 <= r.notificationState < 7 && 0 <= r.severity < 4 && 0 <= r.confirmationCount < 0x10000
            && |r.faultId| <= 255
  {
    ItemRanges();
    var v := [r.faultType, r.classification, r.faultState, r.notificationState, r.severity, r.confirmationCount];
    var l, f := FAULT, FormatOf(FAULT);
    assert f == [UInt8, UInt8, UInt8, UInt8, UInt8, UInt16];
    assert l[0].Member? && l[1].Member? && l[2].Member? && l[3].Member? && l[4].Member?;
    if AllFit(f, v) {
      assert Fits(f[5], v[5]);
    }
  }

  lemma {:induction false} UniformSize(f: Format, item: Item, tail: Format)
    requires forall i :: 0 <= i < |f| ==> f[i] == item
    ensures Size(f + tail) == |f| * Width(item) + Size(tail)
  {
    if f == [] {
      assert f + tail == tail;
    } else {
      assert (f + tail)[1..] == f[1..] + tail;
      UniformSize(f[1..], item, tail);
    }
  }

  lemma MeasurementItems(f: Format)
    requires f == FormatOf(MEASUREMENT)
    ensures |f| == 13 && f[0] == f[5] == Int64
    ensures (forall i :: 1 <= i < 5 ==> f[i] == Int32) && forall i :: 6 <= i < 13 ==> f[i] == UInt8
  {
    forall i | 6 <= i < 13
      ensures f[i] == UInt8
    {
      assert MEASUREMENT[i].Member?;
    }
  }

  lemma SizeOfParts(f: Format)
    requires |f| == 13 && f[0] == f[5] == Int64
    requires (forall i :: 1 <= i < 5 ==> f[i] == Int32) && forall i :: 6 <= i < 13 ==> f[i] == UInt8
    ensures Size(f) == 39
  {
    UniformSize(f[6..], UInt8, []);
    assert f[6..] + [] == f[6..] && [f[5]] + f[6..] == f[5..];
    UniformSize([f[5]], Int64, f[6..]);
    assert f[1..5] + f[5..] == f[1..] && [f[0]] + f[1..] == f;
    UniformSize(f[1..5], Int32, f[5..]);
    UniformSize([f[0]], Int64, f[1..]);
  }

  lemma MeasurementSize(f: Format)
    requires f == FormatOf(MEASUREMENT)
    ensures Size(f) == 39
  {
    MeasurementItems(f);
    SizeOfParts(f);
  }
}
