/** The own-vessel AIS messages: packing of types 1 to 3 and 5, read back at the offsets of
    ITU-R M.1371-5, Annex 8. Angles and speeds are ideal reals. */
module AisMessages {
  import opened Angles
  import opened Basics
  import opened SixBit

  datatype AisStatic = AisStatic(
    mmsi: nat, imoNumber: nat, name: string, callSign: string, shipType: int,
    toBow: real, toStern: real, toPort: real, toStarboard: real, draught: real,
    destination: string, navigationStatus: int, positionReportType: int)

  /** The part of the vessel state that the messages read; `rateOfTurnCode` is the coded rate of turn. */
  datatype VesselState = VesselState(
    ais: AisStatic, hasFix: bool, differential: bool, rateOfTurnCode: int,
    speedOverGround: real, longitude: real, latitude: real, courseOverGround: real, headingTrue: real,
    timeUtc: int)

  /** The range the integer types of the source impose. */
  predicate Representable(s: VesselState) {
    && IsUint32(s.ais.mmsi) && IsUint32(s.ais.imoNumber)
    && (s.rateOfTurnCode == -128 || -126 <= s.rateOfTurnCode <= 126)
    && IsInt32(Round(s.longitude * 600000.0)) && IsInt32(Round(s.latitude * 600000.0))
  }

  function ClampUnsigned(value: real, maximum: nat): (clamped: nat)
    ensures clamped <= maximum
  {
    Clamp(Round(value), 0, maximum)
  }

  /** The nearest whole value of the field's range. */
  lemma ClampUnsignedIsNearest(value: real, maximum: nat)
    ensures value <= 0.0 ==> ClampUnsigned(value, maximum) == 0
    ensures value >= maximum as real ==> ClampUnsigned(value, maximum) == maximum
    ensures 0.0 <= value <= maximum as real ==> -0.5 <= ClampUnsigned(value, maximum) as real - value <= 0.5
  {
    RoundIsNearest(value);
  }

  function HeadingCode(heading: real): (code: nat)
    ensures code < 360
  {
    Round(NormalizeBearing(heading)) % 360
  }

  /** The nearest whole degree, whole turns aside; 359.5 and more is north. */
  lemma HeadingCodeIsNearest(heading: real) returns (turns: int)
    ensures -0.5 <= HeadingCode(heading) as real + 360.0 * turns as real - heading <= 0.5
    ensures NormalizeBearing(heading) >= 359.5 ==> HeadingCode(heading) == 0
  {
    turns := NormalizeBearingTurns(heading);
    hide NormalizeBearing;
    var bearing := NormalizeBearing(heading);
    RoundIsNearest(bearing);
    assert 0 <= Round(bearing) <= 360;
    if Round(bearing) == 360 {
      turns := turns + 1;
    }
  }

  function SecondOfMinute(timeUtc: int): (second: nat)
    ensures second < 60
  {
    (timeUtc % 86_400_000) / 1000 % 60
  }

  /** The time lies in that second of some whole minute. */
  lemma SecondOfMinuteIsOfMinute(timeUtc: int) returns (minutes: int)
    ensures 0 <= timeUtc - 60_000 * minutes - 1000 * SecondOfMinute(timeUtc) < 1000
  {
    var days, ms := timeUtc / 86_400_000, timeUtc % 86_400_000;
    minutes := 1440 * days + ms / 1000 / 60;
  }

  function ReportType(s: VesselState): (t: nat)
    ensures 1 <= t <= 3
  {
    if 1 <= s.ais.positionReportType <= 3 then s.ais.positionReportType else 1
  }

  function SpeedCode(s: VesselState): (code: nat)
    ensures code <= 1023
  {
    if !s.hasFix then 1023
    else
      var tenths := ClampUnsigned(s.speedOverGround * 10.0, 1023);
      if tenths < 1022 then tenths else 1022
  }

  function LongitudeCode(s: VesselState): int {
    if s.hasFix then Round(s.longitude * 600000.0) else 181 * 600000
  }

  function LatitudeCode(s: VesselState): int {
    if s.hasFix then Round(s.latitude * 600000.0) else 91 * 600000
  }

  function CourseCode(s: VesselState): (code: nat)
    ensures code <= 3600
  {
    if s.hasFix then ClampUnsigned(s.courseOverGround * 10.0, 3599) else 3600
  }

  // A message as a list of fields

  type Int32 = x: int | IsInt32(x)

  datatype Field = Unsigned(value: nat, width: nat) | Signed(number: Int32, bits: nat) | Chars(text: string, length: nat)
                 | Flag(on: bool)
  {
    function Width(): nat {
      match this
      case Unsigned(_, width) => width
      case Signed(_, bits) => bits
      case Chars(_, length) => 6 * length
      case Flag(_) => 1
    }

    /** What the packer appends. */
    function Encoded(): (encoded: seq<bool>)
      ensures |encoded| == Width()
    {
      match this
      case Unsigned(value, width) => UnsignedBits(value, width)
      case Signed(number, bits) => SignedBits(number, bits)
      case Chars(text, length) => TextBits(text, length)
      case Flag(on) => [on]
    }
  }

  predicate ArePositionFields(f: seq<Field>, s: VesselState)
    requires Representable(s)
  {
    && |f| == 16
    && f[0] == Unsigned(ReportType(s), 6) && f[1] == Unsigned(0, 2) && f[2] == Unsigned(s.ais.mmsi, 30)
    && f[3] == Unsigned(Clamp(s.ais.navigationStatus, 0, 15), 4) && f[4] == Signed(s.rateOfTurnCode, 8)
    && f[5] == Unsigned(SpeedCode(s), 10) && f[6] == Flag(s.hasFix && s.differential)
    && f[7] == Signed(LongitudeCode(s), 28) && f[8] == Signed(LatitudeCode(s), 27)
    && f[9] == Unsigned(CourseCode(s), 12) && f[10] == Unsigned(HeadingCode(s.headingTrue), 9)
    && f[11] == Unsigned(SecondOfMinute(s.timeUtc), 6) && f[12] == Unsigned(0, 2) && f[13] == Unsigned(0, 3)
    && f[14] == Flag(false) && f[15] == Unsigned(0, 19)
  }

  predicate AreStaticFields(f: seq<Field>, a: AisStatic)
  {
    && |f| == 21
    && f[0] == Unsigned(5, 6) && f[1] == Unsigned(0, 2) && f[2] == Unsigned(a.mmsi, 30) && f[3] == Unsigned(2, 2)
    && f[4] == Unsigned(a.imoNumber, 30) && f[5] == Chars(a.callSign, 7) && f[6] == Chars(a.name, 20)
    && f[7] == Unsigned(Clamp(a.shipType, 0, 255), 8) && f[8] == Unsigned(ClampUnsigned(a.toBow, 511), 9)
    && f[9] == Unsigned(ClampUnsigned(a.toStern, 511), 9) && f[10] == Unsigned(ClampUnsigned(a.toPort, 63), 6)
    && f[11] == Unsigned(ClampUnsigned(a.toStarboard, 63), 6) && f[12] == Unsigned(1, 4) && f[13] == Unsigned(0, 4)
    && f[14] == Unsigned(0, 5) && f[15] == Unsigned(24, 5) && f[16] == Unsigned(60, 6)
    && f[17] == Unsigned(ClampUnsigned(a.draught * 10.0, 255), 8) && f[18] == Chars(a.destination, 20)
    && f[19] == Flag(false) && f[20] == Flag(false)
  }

  /** The fields of a position report, in the order of the standard. */
  function PositionFields(s: VesselState): (f: seq<Field>)
    requires Representable(s)
    ensures ArePositionFields(f, s)
  {
    [Unsigned(ReportType(s), 6), Unsigned(0, 2), Unsigned(s.ais.mmsi, 30),
     Unsigned(Clamp(s.ais.navigationStatus, 0, 15), 4)]
    + [Signed(s.rateOfTurnCode, 8), Unsigned(SpeedCode(s), 10), Flag(s.hasFix && s.differential)]
    + [Signed(LongitudeCode(s), 28), Signed(LatitudeCode(s), 27)]
    + [Unsigned(CourseCode(s), 12), Unsigned(HeadingCode(s.headingTrue), 9), Unsigned(SecondOfMinute(s.timeUtc), 6)]
    + [Unsigned(0, 2), Unsigned(0, 3), Flag(false), Unsigned(0, 19)]
  }

  /** The fields of a static and voyage data report, in the order of the standard. */
  function StaticFields(a: AisStatic): (f: seq<Field>)
    ensures AreStaticFields(f, a)
  {
    [Unsigned(5, 6), Unsigned(0, 2), Unsigned(a.mmsi, 30), Unsigned(2, 2), Unsigned(a.imoNumber, 30)]
    + [Chars(a.callSign, 7), Chars(a.name, 20), Unsigned(Clamp(a.shipType, 0, 255), 8)]
    + [Unsigned(ClampUnsigned(a.toBow, 511), 9), Unsigned(ClampUnsigned(a.toStern, 511), 9),
       Unsigned(ClampUnsigned(a.toPort, 63), 6), Unsigned(ClampUnsigned(a.toStarboard, 63), 6)]
    + [Unsigned(1, 4), Unsigned(0, 4), Unsigned(0, 5), Unsigned(24, 5), Unsigned(60, 6)]
    + [Unsigned(ClampUnsigned(a.draught * 10.0, 255), 8), Chars(a.destination, 20), Flag(false), Flag(false)]
  }

  function Offset(fields: seq<Field>, i: nat): nat
    requires i <= |fields|
  {
    if i == 0 then 0 else Offset(fields, i - 1) + fields[i - 1].Width()
  }

  /** The first `count` fields one after the other. */
  function PackedUpTo(fields: seq<Field>, count: nat): (bits: seq<bool>)
    requires count <= |fields|
    ensures |bits| == Offset(fields, count)
  {
    if count == 0 then [] else PackedUpTo(fields, count - 1) + fields[count - 1].Encoded()
  }

  function Packed(fields: seq<Field>): (bits: seq<bool>)
    ensures |bits| == Offset(fields, |fields|)
  {
    PackedUpTo(fields, |fields|)
  }

  /** A field is found at its offset, whatever follows it. */
  lemma {:induction false} FieldAt(fields: seq<Field>, count: nat, i: nat)
    requires i < count <= |fields|
    ensures Offset(fields, i) + fields[i].Width() <= Offset(fields, count)
    ensures PackedUpTo(fields, count)[Offset(fields, i)..Offset(fields, i) + fields[i].Width()] == fields[i].Encoded()
    decreases count
  {
    hide Field.Encoded, Field.Width;
    var before, last := PackedUpTo(fields, count - 1), fields[count - 1].Encoded();
    if i + 1 < count {
      FieldAt(fields, count - 1, i);
      SliceOfPrefix(before, last, Offset(fields, i), Offset(fields, i) + fields[i].Width());
    } else {
      assert (before + last)[|before|..|before| + |last|] == last;
    }
  }

  lemma SliceOfPrefix<T>(before: seq<T>, last: seq<T>, start: nat, end: nat)
    requires start <= end <= |before|
    ensures (before + last)[start..end] == before[start..end]
  {
  }

  // Packing as the source does it, field by field

  method AppendPositionIdentity(packer: BitPacker, s: VesselState, ghost f: seq<Field>)
    requires Representable(s) && ArePositionFields(f, s) && packer.bits == PackedUpTo(f, 0)
    modifies packer
    ensures packer.bits == PackedUpTo(f, 4)
  {
    packer.AppendUnsigned(ReportType(s), 6);
    assert packer.bits == PackedUpTo(f, 1);
    packer.AppendUnsigned(0, 2);
    assert packer.bits == PackedUpTo(f, 2);
    packer.AppendUnsigned(s.ais.mmsi, 30);
    assert packer.bits == PackedUpTo(f, 3);
    packer.AppendUnsigned(Clamp(s.ais.navigationStatus, 0, 15), 4);
  }

  method AppendMotion(packer: BitPacker, s: VesselState, ghost f: seq<Field>)
    requires Representable(s) && ArePositionFields(f, s) && packer.bits == PackedUpTo(f, 4)
    modifies packer
    ensures packer.bits == PackedUpTo(f, 7)
  {
    packer.AppendSigned(s.rateOfTurnCode, 8);
    assert packer.bits == PackedUpTo(f, 5);
    packer.AppendUnsigned(SpeedCode(s), 10);
    assert packer.bits == PackedUpTo(f, 6);
    packer.AppendBool(s.hasFix && s.differential);
  }

  method AppendPlace(packer: BitPacker, s: VesselState, ghost f: seq<Field>)
    requires Representable(s) && ArePositionFields(f, s) && packer.bits == PackedUpTo(f, 7)
    modifies packer
    ensures packer.bits == PackedUpTo(f, 9)
  {
    packer.AppendSigned(LongitudeCode(s), 28);
    assert packer.bits == PackedUpTo(f, 8);
    packer.AppendSigned(LatitudeCode(s), 27);
  }

  method AppendCourse(packer: BitPacker, s: VesselState, ghost f: seq<Field>)
    requires Representable(s) && ArePositionFields(f, s) && packer.bits == PackedUpTo(f, 9)
    modifies packer
    ensures packer.bits == PackedUpTo(f, 12)
  {
    packer.AppendUnsigned(CourseCode(s), 12);
    assert packer.bits == PackedUpTo(f, 10);
    packer.AppendUnsigned(HeadingCode(s.headingTrue), 9);
    assert packer.bits == PackedUpTo(f, 11);
    packer.AppendUnsigned(SecondOfMinute(s.timeUtc), 6);
  }

  method AppendRadio(packer: BitPacker, s: VesselState, ghost f: seq<Field>)
    requires Representable(s) && ArePositionFields(f, s) && packer.bits == PackedUpTo(f, 12)
    modifies packer
    ensures packer.bits == PackedUpTo(f, 16)
  {
    packer.AppendUnsigned(0, 2);
    assert packer.bits == PackedUpTo(f, 13);
    packer.AppendUnsigned(0, 3);
    assert packer.bits == PackedUpTo(f, 14);
    packer.AppendBool(false);
    assert packer.bits == PackedUpTo(f, 15);
    packer.AppendUnsigned(0, 19);
  }

  method PackPositionReport(s: VesselState) returns (packer: BitPacker)
    requires Representable(s)
    ensures fresh(packer) && packer.bits == Packed(PositionFields(s))
  {
    ghost var f := PositionFields(s);
    packer := new BitPacker();
    AppendPositionIdentity(packer, s, f);
    AppendMotion(packer, s, f);
    AppendPlace(packer, s, f);
    AppendCourse(packer, s, f);
    AppendRadio(packer, s, f);
  }

  method AppendStaticIdentity(packer: BitPacker, a: AisStatic, ghost f: seq<Field>)
    requires IsUint32(a.mmsi) && IsUint32(a.imoNumber) && AreStaticFields(f, a) && packer.bits == PackedUpTo(f, 0)
    modifies packer
    ensures packer.bits == PackedUpTo(f, 5)
  {
    packer.AppendUnsigned(5, 6);
    assert packer.bits == PackedUpTo(f, 1);
    packer.AppendUnsigned(0, 2);
    assert packer.bits == PackedUpTo(f, 2);
    packer.AppendUnsigned(a.mmsi, 30);
    assert packer.bits == PackedUpTo(f, 3);
    packer.AppendUnsigned(2, 2);
    assert packer.bits == PackedUpTo(f, 4);
    packer.AppendUnsigned(a.imoNumber, 30);
  }

  method AppendNames(packer: BitPacker, a: AisStatic, ghost f: seq<Field>)
    requires IsUint32(a.mmsi) && IsUint32(a.imoNumber) && AreStaticFields(f, a) && packer.bits == PackedUpTo(f, 5)
    modifies packer
    ensures packer.bits == PackedUpTo(f, 8)
  {
    packer.AppendText(a.callSign, 7);
    assert packer.bits == PackedUpTo(f, 6);
    packer.AppendText(a.name, 20);
    assert packer.bits == PackedUpTo(f, 7);
    packer.AppendUnsigned(Clamp(a.shipType, 0, 255), 8);
  }

  method AppendHull(packer: BitPacker, a: AisStatic, ghost f: seq<Field>)
    requires IsUint32(a.mmsi) && IsUint32(a.imoNumber) && AreStaticFields(f, a) && packer.bits == PackedUpTo(f, 8)
    modifies packer
    ensures packer.bits == PackedUpTo(f, 12)
  {
    packer.AppendUnsigned(ClampUnsigned(a.toBow, 511), 9);
    assert packer.bits == PackedUpTo(f, 9);
    packer.AppendUnsigned(ClampUnsigned(a.toStern, 511), 9);
    assert packer.bits == PackedUpTo(f, 10);
    packer.AppendUnsigned(ClampUnsigned(a.toPort, 63), 6);
    assert packer.bits == PackedUpTo(f, 11);
    packer.AppendUnsigned(ClampUnsigned(a.toStarboard, 63), 6);
  }

  method AppendArrival(packer: BitPacker, a: AisStatic, ghost f: seq<Field>)
    requires IsUint32(a.mmsi) && IsUint32(a.imoNumber) && AreStaticFields(f, a) && packer.bits == PackedUpTo(f, 12)
    modifies packer
    ensures packer.bits == PackedUpTo(f, 17)
  {
    packer.AppendUnsigned(1, 4);
    assert packer.bits == PackedUpTo(f, 13);
    packer.AppendUnsigned(0, 4);
    assert packer.bits == PackedUpTo(f, 14);
    packer.AppendUnsigned(0, 5);
    assert packer.bits == PackedUpTo(f, 15);
    packer.AppendUnsigned(24, 5);
    assert packer.bits == PackedUpTo(f, 16);
    packer.AppendUnsigned(60, 6);
  }

  method AppendVoyage(packer: BitPacker, a: AisStatic, ghost f: seq<Field>)
    requires IsUint32(a.mmsi) && IsUint32(a.imoNumber) && AreStaticFields(f, a) && packer.bits == PackedUpTo(f, 17)
    modifies packer
    ensures packer.bits == PackedUpTo(f, 21)
  {
    packer.AppendUnsigned(ClampUnsigned(a.draught * 10.0, 255), 8);
    assert packer.bits == PackedUpTo(f, 18);
    packer.AppendText(a.destination, 20);
    assert packer.bits == PackedUpTo(f, 19);
    packer.AppendBool(false);
    assert packer.bits == PackedUpTo(f, 20);
    packer.AppendBool(false);
  }

  method PackStaticData(s: VesselState) returns (packer: BitPacker)
    requires IsUint32(s.ais.mmsi) && IsUint32(s.ais.imoNumber)
    ensures fresh(packer) && packer.bits == Packed(StaticFields(s.ais))
  {
    ghost var f := StaticFields(s.ais);
    packer := new BitPacker();
    AppendStaticIdentity(packer, s.ais, f);
    AppendNames(packer, s.ais, f);
    AppendHull(packer, s.ais, f);
    AppendArrival(packer, s.ais, f);
    AppendVoyage(packer, s.ais, f);
  }

  // The receiving side: the fields at the offsets of the standard

  function ReadUnsigned(bits: seq<bool>, start: nat, width: nat): nat
    requires start + width <= |bits|
  {
    BitsValue(bits[start..start + width])
  }

  function ReadSigned(bits: seq<bool>, start: nat, width: nat): int
    requires start + width <= |bits| && width > 0
  {
    SignedValue(bits[start..start + width])
  }

  function ReadText(bits: seq<bool>, start: nat, length: nat): string
    requires start + 6 * length <= |bits|
  {
    TextValue(bits[start..start + 6 * length])
  }

  datatype PositionReport = PositionReport(
    messageType: nat, repeat: nat, mmsi: nat, status: nat, rateOfTurn: int, speed: nat, accuracy: nat,
    longitude: int, latitude: int, course: nat, heading: nat, second: nat, manoeuvre: nat, spare: nat,
    raim: nat, radio: nat)

  function ReadPositionReport(bits: seq<bool>): PositionReport
    requires |bits| == 168
  {
    PositionReport(
      ReadUnsigned(bits, 0, 6), ReadUnsigned(bits, 6, 2), ReadUnsigned(bits, 8, 30), ReadUnsigned(bits, 38, 4),
      ReadSigned(bits, 42, 8), ReadUnsigned(bits, 50, 10), ReadUnsigned(bits, 60, 1), ReadSigned(bits, 61, 28),
      ReadSigned(bits, 89, 27), ReadUnsigned(bits, 116, 12), ReadUnsigned(bits, 128, 9), ReadUnsigned(bits, 137, 6),
      ReadUnsigned(bits, 143, 2), ReadUnsigned(bits, 145, 3), ReadUnsigned(bits, 148, 1), ReadUnsigned(bits, 149, 19))
  }

  datatype StaticReport = StaticReport(
    messageType: nat, repeat: nat, mmsi: nat, version: nat, imoNumber: nat, callSign: string, name: string,
    shipType: nat, toBow: nat, toStern: nat, toPort: nat, toStarboard: nat, device: nat,
    month: nat, day: nat, hour: nat, minute: nat, draught: nat, destination: string, dte: nat, spare: nat)

  function ReadStaticReport(bits: seq<bool>): StaticReport
    requires |bits| == 424
  {
    StaticReport(
      ReadUnsigned(bits, 0, 6), ReadUnsigned(bits, 6, 2), ReadUnsigned(bits, 8, 30), ReadUnsigned(bits, 38, 2),
      ReadUnsigned(bits, 40, 30), ReadText(bits, 70, 7), ReadText(bits, 112, 20), ReadUnsigned(bits, 232, 8),
      ReadUnsigned(bits, 240, 9), ReadUnsigned(bits, 249, 9), ReadUnsigned(bits, 258, 6), ReadUnsigned(bits, 264, 6),
      ReadUnsigned(bits, 270, 4), ReadUnsigned(bits, 274, 4), ReadUnsigned(bits, 278, 5), ReadUnsigned(bits, 283, 5),
      ReadUnsigned(bits, 288, 6), ReadUnsigned(bits, 294, 8), ReadText(bits, 302, 20), ReadUnsigned(bits, 422, 1),
      ReadUnsigned(bits, 423, 1))
  }

  /** A field of the packed message is found at its offset. */
  lemma {:induction false} PackedAt(f: seq<Field>, bits: seq<bool>, i: nat, start: nat)
    requires bits == Packed(f) && i < |f| && start == Offset(f, i)
    ensures start + f[i].Width() <= |bits| && bits[start..start + f[i].Width()] == f[i].Encoded()
  {
    hide PackedUpTo, Offset, Field.Encoded, Field.Width;
    FieldAt(f, |f|, i);
  }

  lemma {:induction false} LowBitsAt(f: seq<Field>, bits: seq<bool>, i: nat, start: nat, value: nat, width: nat)
    requires bits == Packed(f) && i < |f| && start == Offset(f, i) && f[i] == Unsigned(value, width)
    ensures start + width <= |bits| && ReadUnsigned(bits, start, width) == value % Pow2(width)
  {
    hide Packed, Offset, UnsignedBits, BitsValue, Pow2;
    PackedAt(f, bits, i, start);
    UnsignedReadsBack(value, width);
  }

  lemma {:induction false} UnsignedAt(f: seq<Field>, bits: seq<bool>, i: nat, start: nat, value: nat, width: nat)
    requires bits == Packed(f) && i < |f| && start == Offset(f, i) && f[i] == Unsigned(value, width)
    requires value < Pow2(width)
    ensures start + width <= |bits| && ReadUnsigned(bits, start, width) == value
  {
    hide Packed, Offset, UnsignedBits, BitsValue, Pow2;
    PackedAt(f, bits, i, start);
    UnsignedReadsBack(value, width);
  }

  lemma {:induction false} FlagAt(f: seq<Field>, bits: seq<bool>, i: nat, start: nat, value: bool)
    requires bits == Packed(f) && i < |f| && start == Offset(f, i) && f[i] == Flag(value)
    ensures start + 1 <= |bits| && ReadUnsigned(bits, start, 1) == if value then 1 else 0
  {
    hide Packed, Offset;
    PackedAt(f, bits, i, start);
    assert [value][..0] == [];
  }

  lemma {:induction false} SignedAt(f: seq<Field>, bits: seq<bool>, i: nat, start: nat, value: Int32, width: nat)
    requires bits == Packed(f) && i < |f| && start == Offset(f, i) && f[i] == Signed(value, width) && 0 < width < 32
    ensures start + width <= |bits|
    ensures ReadSigned(bits, start, width) == Clamp(value, -(Pow2(width - 1) as int), Pow2(width - 1) - 1)
  {
    hide Packed, Offset, SignedBits, SignedValue, Pow2, Clamp;
    PackedAt(f, bits, i, start);
    SignedReadsBack(value, width);
  }

  lemma {:induction false} TextAt(f: seq<Field>, bits: seq<bool>, i: nat, start: nat, text: string, length: nat)
    requires bits == Packed(f) && i < |f| && start == Offset(f, i) && f[i] == Chars(text, length)
    ensures start + 6 * length <= |bits| && ReadText(bits, start, length) == ReceivedText(text, length)
  {
    hide Packed, Offset, TextBits, TextValue, ReceivedText;
    PackedAt(f, bits, i, start);
    TextReadsBack(text, length);
  }

  lemma PowersOfTwo()
    ensures Pow2(1) == 2 && Pow2(2) == 4 && Pow2(3) == 8 && Pow2(4) == 16 && Pow2(5) == 32 && Pow2(6) == 64
    ensures Pow2(7) == 128 && Pow2(8) == 256 && Pow2(9) == 512 && Pow2(10) == 1024 && Pow2(12) == 4096
    ensures Pow2(19) == 0x8_0000 && Pow2(26) == 0x400_0000 && Pow2(27) == 0x800_0000 && Pow2(30) == 0x4000_0000
  {
    assert Pow2(6) == 64;
    assert Pow2(12) == 4096;
    assert Pow2(19) == 0x8_0000;
    assert Pow2(26) == 0x400_0000;
  }

  // The offsets of the standard: where the first fields end

  lemma {:induction false} PositionOffsets(f: seq<Field>, s: VesselState)
    requires Representable(s) && ArePositionFields(f, s)
    ensures Offset(f, 1) == 6 && Offset(f, 2) == 8 && Offset(f, 3) == 38 && Offset(f, 4) == 42
    ensures Offset(f, 5) == 50 && Offset(f, 6) == 60 && Offset(f, 7) == 61 && Offset(f, 8) == 89
    ensures Offset(f, 9) == 116 && Offset(f, 10) == 128 && Offset(f, 11) == 137 && Offset(f, 12) == 143
    ensures Offset(f, 13) == 145 && Offset(f, 14) == 148 && Offset(f, 15) == 149 && Offset(f, 16) == 168
  {
  }

  lemma {:induction false} StaticOffsets(f: seq<Field>, a: AisStatic)
    requires AreStaticFields(f, a)
    ensures Offset(f, 1) == 6 && Offset(f, 2) == 8 && Offset(f, 3) == 38 && Offset(f, 4) == 40
    ensures Offset(f, 5) == 70 && Offset(f, 6) == 112 && Offset(f, 7) == 232 && Offset(f, 8) == 240
    ensures Offset(f, 9) == 249 && Offset(f, 10) == 258 && Offset(f, 11) == 264 && Offset(f, 12) == 270
    ensures Offset(f, 13) == 274 && Offset(f, 14) == 278 && Offset(f, 15) == 283 && Offset(f, 16) == 288
    ensures Offset(f, 17) == 294 && Offset(f, 18) == 302 && Offset(f, 19) == 422 && Offset(f, 20) == 423
    ensures Offset(f, 21) == 424
  {
  }

  /** What a receiver should find in the position report. */
  function ReportedPosition(s: VesselState): PositionReport {
    PositionReport(
      ReportType(s), 0, s.ais.mmsi % 0x4000_0000, Clamp(s.ais.navigationStatus, 0, 15), s.rateOfTurnCode,
      SpeedCode(s), if s.hasFix && s.differential then 1 else 0,
      Clamp(LongitudeCode(s), -0x800_0000, 0x7FF_FFFF), Clamp(LatitudeCode(s), -0x400_0000, 0x3FF_FFFF),
      CourseCode(s), HeadingCode(s.headingTrue), SecondOfMinute(s.timeUtc), 0, 0, 0, 0)
  }

  lemma {:induction false} PositionIdentity(s: VesselState, f: seq<Field>, bits: seq<bool>)
    requires Representable(s) && ArePositionFields(f, s) && bits == Packed(f) && |bits| == 168
    ensures ReadUnsigned(bits, 0, 6) == ReportType(s)
    ensures ReadUnsigned(bits, 6, 2) == 0
    ensures ReadUnsigned(bits, 8, 30) == s.ais.mmsi % 0x4000_0000
    ensures ReadUnsigned(bits, 38, 4) == Clamp(s.ais.navigationStatus, 0, 15)
  {
    PositionOffsets(f, s);
    PowersOfTwo();
    UnsignedAt(f, bits, 0, 0, ReportType(s), 6);
    UnsignedAt(f, bits, 1, 6, 0, 2);
    LowBitsAt(f, bits, 2, 8, s.ais.mmsi, 30);
    UnsignedAt(f, bits, 3, 38, Clamp(s.ais.navigationStatus, 0, 15), 4);
  }

  lemma {:induction false} PositionMotion(s: VesselState, f: seq<Field>, bits: seq<bool>)
    requires Representable(s) && ArePositionFields(f, s) && bits == Packed(f) && |bits| == 168
    ensures ReadSigned(bits, 42, 8) == s.rateOfTurnCode
    ensures ReadUnsigned(bits, 50, 10) == SpeedCode(s)
    ensures ReadUnsigned(bits, 60, 1) == (if s.hasFix && s.differential then 1 else 0)
  {
    PositionOffsets(f, s);
    PowersOfTwo();
    SignedAt(f, bits, 4, 42, s.rateOfTurnCode, 8);
    UnsignedAt(f, bits, 5, 50, SpeedCode(s), 10);
    FlagAt(f, bits, 6, 60, s.hasFix && s.differential);
  }

  lemma {:induction false} PositionPlace(s: VesselState, f: seq<Field>, bits: seq<bool>)
    requires Representable(s) && ArePositionFields(f, s) && bits == Packed(f) && |bits| == 168
    ensures ReadSigned(bits, 61, 28) == Clamp(LongitudeCode(s), -0x800_0000, 0x7FF_FFFF)
    ensures ReadSigned(bits, 89, 27) == Clamp(LatitudeCode(s), -0x400_0000, 0x3FF_FFFF)
  {
    PositionOffsets(f, s);
    PowersOfTwo();
    SignedAt(f, bits, 7, 61, LongitudeCode(s), 28);
    SignedAt(f, bits, 8, 89, LatitudeCode(s), 27);
  }

  lemma {:induction false} PositionCourse(s: VesselState, f: seq<Field>, bits: seq<bool>)
    requires Representable(s) && ArePositionFields(f, s) && bits == Packed(f) && |bits| == 168
    ensures ReadUnsigned(bits, 116, 12) == CourseCode(s)
    ensures ReadUnsigned(bits, 128, 9) == HeadingCode(s.headingTrue)
    ensures ReadUnsigned(bits, 137, 6) == SecondOfMinute(s.timeUtc)
  {
    PositionOffsets(f, s);
    PowersOfTwo();
    UnsignedAt(f, bits, 9, 116, CourseCode(s), 12);
    UnsignedAt(f, bits, 10, 128, HeadingCode(s.headingTrue), 9);
    UnsignedAt(f, bits, 11, 137, SecondOfMinute(s.timeUtc), 6);
  }

  lemma {:induction false} PositionRadio(s: VesselState, f: seq<Field>, bits: seq<bool>)
    requires Representable(s) && ArePositionFields(f, s) && bits == Packed(f) && |bits| == 168
    ensures ReadUnsigned(bits, 143, 2) == 0
    ensures ReadUnsigned(bits, 145, 3) == 0
    ensures ReadUnsigned(bits, 148, 1) == 0
    ensures ReadUnsigned(bits, 149, 19) == 0
  {
    PositionOffsets(f, s);
    PowersOfTwo();
    UnsignedAt(f, bits, 12, 143, 0, 2);
    UnsignedAt(f, bits, 13, 145, 0, 3);
    FlagAt(f, bits, 14, 148, false);
    UnsignedAt(f, bits, 15, 149, 0, 19);
  }

  lemma {:induction false} PositionRead(s: VesselState, f: seq<Field>, bits: seq<bool>)
    requires Representable(s) && ArePositionFields(f, s) && bits == Packed(f) && |bits| == 168
    ensures ReadPositionReport(bits) == ReportedPosition(s)
  {
    PositionIdentity(s, f, bits);
    PositionMotion(s, f, bits);
    PositionPlace(s, f, bits);
    PositionCourse(s, f, bits);
    PositionRadio(s, f, bits);
  }

  /** The packed position report has 168 bits, and every field reads back at its standard offset. */
  lemma {:induction false} PositionLayout(s: VesselState)
    requires Representable(s)
    ensures var bits := Packed(PositionFields(s));
      |bits| == 168 && ReadPositionReport(bits) == ReportedPosition(s)
  {
    var f := PositionFields(s);
    PositionOffsets(f, s);
    PositionRead(s, f, Packed(f));
  }

  /** What a receiver should find in the static data report. */
  function ReportedStatic(a: AisStatic): StaticReport {
    StaticReport(
      5, 0, a.mmsi % 0x4000_0000, 2, a.imoNumber % 0x4000_0000, ReceivedText(a.callSign, 7),
      ReceivedText(a.name, 20), Clamp(a.shipType, 0, 255), ClampUnsigned(a.toBow, 511),
      ClampUnsigned(a.toStern, 511), ClampUnsigned(a.toPort, 63), ClampUnsigned(a.toStarboard, 63), 1, 0, 0,
      24, 60, ClampUnsigned(a.draught * 10.0, 255), ReceivedText(a.destination, 20), 0, 0)
  }

  lemma {:induction false} StaticIdentity(a: AisStatic, f: seq<Field>, bits: seq<bool>)
    requires AreStaticFields(f, a) && bits == Packed(f) && |bits| == 424
    ensures ReadUnsigned(bits, 0, 6) == 5
    ensures ReadUnsigned(bits, 6, 2) == 0
    ensures ReadUnsigned(bits, 8, 30) == a.mmsi % 0x4000_0000
  {
    StaticOffsets(f, a);
    PowersOfTwo();
    UnsignedAt(f, bits, 0, 0, 5, 6);
    UnsignedAt(f, bits, 1, 6, 0, 2);
    LowBitsAt(f, bits, 2, 8, a.mmsi, 30);
  }

  lemma {:induction false} StaticNumbers(a: AisStatic, f: seq<Field>, bits: seq<bool>)
    requires AreStaticFields(f, a) && bits == Packed(f) && |bits| == 424
    ensures ReadUnsigned(bits, 38, 2) == 2
    ensures ReadUnsigned(bits, 40, 30) == a.imoNumber % 0x4000_0000
    ensures ReadText(bits, 70, 7) == ReceivedText(a.callSign, 7)
  {
    StaticOffsets(f, a);
    PowersOfTwo();
    UnsignedAt(f, bits, 3, 38, 2, 2);
    LowBitsAt(f, bits, 4, 40, a.imoNumber, 30);
    TextAt(f, bits, 5, 70, a.callSign, 7);
  }

  lemma {:induction false} StaticNames(a: AisStatic, f: seq<Field>, bits: seq<bool>)
    requires AreStaticFields(f, a) && bits == Packed(f) && |bits| == 424
    ensures ReadText(bits, 112, 20) == ReceivedText(a.name, 20)
    ensures ReadUnsigned(bits, 232, 8) == Clamp(a.shipType, 0, 255)
  {
    StaticOffsets(f, a);
    PowersOfTwo();
    TextAt(f, bits, 6, 112, a.name, 20);
    UnsignedAt(f, bits, 7, 232, Clamp(a.shipType, 0, 255), 8);
  }

  lemma {:induction false} StaticHull(a: AisStatic, f: seq<Field>, bits: seq<bool>)
    requires AreStaticFields(f, a) && bits == Packed(f) && |bits| == 424
    ensures ReadUnsigned(bits, 240, 9) == ClampUnsigned(a.toBow, 511)
    ensures ReadUnsigned(bits, 249, 9) == ClampUnsigned(a.toStern, 511)
    ensures ReadUnsigned(bits, 258, 6) == ClampUnsigned(a.toPort, 63)
    ensures ReadUnsigned(bits, 264, 6) == ClampUnsigned(a.toStarboard, 63)
  {
    StaticOffsets(f, a);
    PowersOfTwo();
    UnsignedAt(f, bits, 8, 240, ClampUnsigned(a.toBow, 511), 9);
    UnsignedAt(f, bits, 9, 249, ClampUnsigned(a.toStern, 511), 9);
    UnsignedAt(f, bits, 10, 258, ClampUnsigned(a.toPort, 63), 6);
    UnsignedAt(f, bits, 11, 264, ClampUnsigned(a.toStarboard, 63), 6);
  }

  lemma {:induction false} StaticArrivalDay(a: AisStatic, f: seq<Field>, bits: seq<bool>)
    requires AreStaticFields(f, a) && bits == Packed(f) && |bits| == 424
    ensures ReadUnsigned(bits, 270, 4) == 1
    ensures ReadUnsigned(bits, 274, 4) == 0
    ensures ReadUnsigned(bits, 278, 5) == 0
  {
    StaticOffsets(f, a);
    PowersOfTwo();
    UnsignedAt(f, bits, 12, 270, 1, 4);
    UnsignedAt(f, bits, 13, 274, 0, 4);
    UnsignedAt(f, bits, 14, 278, 0, 5);
  }

  lemma {:induction false} StaticArrivalTime(a: AisStatic, f: seq<Field>, bits: seq<bool>)
    requires AreStaticFields(f, a) && bits == Packed(f) && |bits| == 424
    ensures ReadUnsigned(bits, 283, 5) == 24
    ensures ReadUnsigned(bits, 288, 6) == 60
    ensures ReadUnsigned(bits, 294, 8) == ClampUnsigned(a.draught * 10.0, 255)
  {
    StaticOffsets(f, a);
    PowersOfTwo();
    UnsignedAt(f, bits, 15, 283, 24, 5);
    UnsignedAt(f, bits, 16, 288, 60, 6);
    UnsignedAt(f, bits, 17, 294, ClampUnsigned(a.draught * 10.0, 255), 8);
  }

  lemma {:induction false} StaticDestination(a: AisStatic, f: seq<Field>, bits: seq<bool>)
    requires AreStaticFields(f, a) && bits == Packed(f) && |bits| == 424
    ensures ReadText(bits, 302, 20) == ReceivedText(a.destination, 20)
    ensures ReadUnsigned(bits, 422, 1) == 0
    ensures ReadUnsigned(bits, 423, 1) == 0
  {
    StaticOffsets(f, a);
    TextAt(f, bits, 18, 302, a.destination, 20);
    FlagAt(f, bits, 19, 422, false);
    FlagAt(f, bits, 20, 423, false);
  }

  lemma {:induction false} StaticRead(a: AisStatic, f: seq<Field>, bits: seq<bool>)
    requires AreStaticFields(f, a) && bits == Packed(f) && |bits| == 424
    ensures ReadStaticReport(bits) == ReportedStatic(a)
  {
    StaticIdentity(a, f, bits);
    StaticNumbers(a, f, bits);
    StaticNames(a, f, bits);
    StaticHull(a, f, bits);
    StaticArrivalDay(a, f, bits);
    StaticArrivalTime(a, f, bits);
    StaticDestination(a, f, bits);
  }

  /** The packed static data report has 424 bits, and every field reads back at its standard offset. */
  lemma {:induction false} StaticLayout(a: AisStatic)
    ensures var bits := Packed(StaticFields(a));
      |bits| == 424 && ReadStaticReport(bits) == ReportedStatic(a)
  {
    var f := StaticFields(a);
    StaticOffsets(f, a);
    StaticRead(a, f, Packed(f));
  }

  /** With a position on the globe and a fix, the coordinates come through unclamped. */
  lemma PositionIsExact(s: VesselState)
    requires s.hasFix && -180.0 <= s.longitude <= 180.0 && -90.0 <= s.latitude <= 90.0
    ensures ReportedPosition(s).longitude == Round(s.longitude * 600000.0)
    ensures ReportedPosition(s).latitude == Round(s.latitude * 600000.0)
    ensures ReportedPosition(s).longitude != 181 * 600000 && ReportedPosition(s).latitude != 91 * 600000
  {
    assert -108000000.0 <= s.longitude * 600000.0 <= 108000000.0;
    assert -54000000.0 <= s.latitude * 600000.0 <= 54000000.0;
  }


  // What the coded values stand for

  /** Tenths: within a half up to the largest code, never beyond it. */
  ghost predicate IsTenths(code: int, value: real, largest: nat) {
    && (value <= 0.0 ==> code == 0)
    && (10.0 * value >= largest as real ==> code == largest)
    && (0.0 <= 10.0 * value <= largest as real ==> -0.5 <= code as real - 10.0 * value <= 0.5)
  }

  /** A whole number within the field: within a half, never beyond its largest value. */
  ghost predicate IsNearest(code: int, value: real, largest: nat) {
    && (value <= 0.0 ==> code == 0)
    && (value >= largest as real ==> code == largest)
    && (0.0 <= value <= largest as real ==> -0.5 <= code as real - value <= 0.5)
  }

  lemma TenthsAreNearest(value: real, largest: nat)
    ensures IsTenths(ClampUnsigned(value * 10.0, largest), value, largest)
  {
    ClampUnsignedIsNearest(value * 10.0, largest);
  }

  /** Speed in tenths of a knot, 1022 from 102.2 knots on, 1023 without a fix. */
  lemma SpeedMeans(s: VesselState)
    ensures !s.hasFix ==> SpeedCode(s) == 1023
    ensures s.hasFix ==> IsTenths(SpeedCode(s), s.speedOverGround, 1022)
  {
    TenthsAreNearest(s.speedOverGround, 1023);
  }

  /** Course in tenths of a degree up to 3599, 3600 without a fix. */
  lemma CourseMeans(s: VesselState)
    ensures !s.hasFix ==> CourseCode(s) == 3600
    ensures s.hasFix ==> IsTenths(CourseCode(s), s.courseOverGround, 3599)
  {
    TenthsAreNearest(s.courseOverGround, 3599);
  }

  /** Message types 1, 2 and 3 are sent as set, any other as 1. */
  lemma ReportTypeMeans(s: VesselState)
    ensures s.ais.positionReportType in {1, 2, 3} ==> ReportType(s) == s.ais.positionReportType
    ensures s.ais.positionReportType !in {1, 2, 3} ==> ReportType(s) == 1
  {
  }

  /** What a receiver reads in a position report, in the units of the standard: ten-thousandths of a minute, with 181
      and 91 degrees for no position, tenths of a knot and of a degree, whole degrees, the second. */
  lemma PositionMeans(s: VesselState) returns (turns: int, minutes: int)
    requires -180.0 <= s.longitude <= 180.0 && -90.0 <= s.latitude <= 90.0
    ensures var r := ReportedPosition(s);
      && (r.mmsi - s.ais.mmsi) % 0x4000_0000 == 0 && r.mmsi < 0x4000_0000
      && (s.ais.mmsi < 0x4000_0000 ==> r.mmsi == s.ais.mmsi)
      && r.messageType in {1, 2, 3} && (s.ais.positionReportType in {1, 2, 3} ==> r.messageType == s.ais.positionReportType)
      && 0 <= r.status <= 15 && (0 <= s.ais.navigationStatus <= 15 ==> r.status == s.ais.navigationStatus)
      && r.rateOfTurn == s.rateOfTurnCode && r.accuracy == (if s.hasFix && s.differential then 1 else 0)
      && (s.hasFix ==>
            && -0.5 <= r.longitude as real - s.longitude * 600000.0 <= 0.5
            && -0.5 <= r.latitude as real - s.latitude * 600000.0 <= 0.5
            && IsTenths(r.speed, s.speedOverGround, 1022) && IsTenths(r.course, s.courseOverGround, 3599))
      && (!s.hasFix ==> r.longitude == 108600000 && r.latitude == 54600000 && r.speed == 1023 && r.course == 3600)
      && r.heading < 360 && -0.5 <= r.heading as real + 360.0 * turns as real - s.headingTrue <= 0.5
      && 0 <= s.timeUtc - 60000 * minutes - 1000 * r.second < 1000 && r.second < 60
      && r.repeat == 0 && r.manoeuvre == 0 && r.spare == 0 && r.raim == 0 && r.radio == 0
  {
    turns := HeadingCodeIsNearest(s.headingTrue);
    minutes := SecondOfMinuteIsOfMinute(s.timeUtc);
    hide SpeedCode, CourseCode, HeadingCode, SecondOfMinute, IsTenths, Round;
    SpeedMeans(s);
    CourseMeans(s);
    RoundIsNearest(s.longitude * 600000.0);
    RoundIsNearest(s.latitude * 600000.0);
    LowBits(s.ais.mmsi);
  }

  lemma LowBits(value: nat)
    ensures (value % 0x4000_0000 - value) % 0x4000_0000 == 0
  {
  }

  /** What a receiver reads in a static data report: identity, texts, dimensions in whole metres, draught in tenths. */
  lemma StaticMeans(a: AisStatic)
    ensures var r := ReportedStatic(a);
      && r.messageType == 5 && r.repeat == 0 && r.version == 2
      && (a.mmsi < 0x4000_0000 ==> r.mmsi == a.mmsi) && (a.imoNumber < 0x4000_0000 ==> r.imoNumber == a.imoNumber)
      && |r.callSign| == 7 && (forall i :: 0 <= i < 7 ==> r.callSign[i] == Received(CharAt(a.callSign, i)))
      && |r.name| == 20 && (forall i :: 0 <= i < 20 ==> r.name[i] == Received(CharAt(a.name, i)))
      && |r.destination| == 20 && (forall i :: 0 <= i < 20 ==> r.destination[i] == Received(CharAt(a.destination, i)))
      && 0 <= r.shipType <= 255 && (0 <= a.shipType <= 255 ==> r.shipType == a.shipType)
      && IsNearest(r.toBow, a.toBow, 511) && IsNearest(r.toStern, a.toStern, 511)
      && IsNearest(r.toPort, a.toPort, 63) && IsNearest(r.toStarboard, a.toStarboard, 63)
      && IsTenths(r.draught, a.draught, 255)
      && r.device == 1 && r.month == 0 && r.day == 0 && r.hour == 24 && r.minute == 60 && r.dte == 0 && r.spare == 0
  {
    hide ClampUnsigned, Received, IsTenths;
    ClampUnsignedIsNearest(a.toBow, 511);
    ClampUnsignedIsNearest(a.toStern, 511);
    ClampUnsignedIsNearest(a.toPort, 63);
    ClampUnsignedIsNearest(a.toStarboard, 63);
    TenthsAreNearest(a.draught, 255);
  }
}
