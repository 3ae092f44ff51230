/** The extended message (message id 0x65): a container whose first byte
    names one of two sub-messages, the device identification (sub id 0) and
    the attitude and heading report (sub id 1). */
module Extended {
  import opened Common
  import opened Packing

  const ID_SUB_ID: byte := 0
  const AHRS_SUB_ID: byte := 1

  // ---------------------------------------------------------------------
  // The identification sub-message.

  /** Field widths: sub id, version, serial number, 8 name bytes, 16 long
      name bytes, then a 1-bit datum flag, a 2-bit internet policy and 29
      unused bits. */
  const ID_WIDTHS: Layout := [8, 8, 64] + BYTES_8 + BYTES_8 + BYTES_8 + [1, 2, 29]

  const ID_LAYOUT: ByteLayout := (IdBits(); ID_WIDTHS)

  /** Index of the first name byte and of the first long-name byte. */
  const NAME: nat := 3
  const LONG_NAME: nat := 11
  const DATUM: nat := 27

  /** The record is 304 bits, 38 bytes. */
  lemma IdBits()
    ensures TotalBits(ID_WIDTHS) == 304
  {
    TotalBits3(8, 8, 64);
    Bytes8Bits();
    TotalBits3(1, 2, 29);
    TotalBitsAppend([8, 8, 64], BYTES_8);
    TotalBitsAppend([8, 8, 64] + BYTES_8, BYTES_8);
    TotalBitsAppend([8, 8, 64] + BYTES_8 + BYTES_8, BYTES_8);
    TotalBitsAppend([8, 8, 64] + BYTES_8 + BYTES_8 + BYTES_8, [1, 2, 29]);
  }

  type DeviceName = s: seq<byte> | |s| == 8 witness [0, 0, 0, 0, 0, 0, 0, 0]
  type DeviceLongName = s: seq<byte> | |s| == 16
    witness [0, 0, 0, 0, 0, 0, 0, 0, 0, 0, 0, 0, 0, 0, 0, 0]

  datatype IdMessage = IdMessage(
    subId: byte,
    version: byte,
    deviceSerialNumber: u64,
    deviceName: DeviceName,
    deviceLongName: DeviceLongName,
    geometricAltitudeDatum: byte,
    internetPolicy: byte,
    unused: u32)
  {
    /** The device name: the name bytes before the first zero byte, or all
        eight.  (The source goes on to check these bytes as UTF-8.) */
    method GetDeviceName() returns (name: seq<byte>)
      ensures |name| <= 8 && name == deviceName[..|name|]
      ensures forall i | 0 <= i < |name| :: name[i] != 0
      ensures |name| < 8 ==> deviceName[|name|] == 0
    {
      var end := NameEnd(deviceName);
      name := deviceName[..end];
    }

    /** The long device name: the long-name bytes up to the first zero byte
        of the SHORT name, which is where the source looks for the end.  A
        long name is therefore never more than 8 bytes. */
    method GetDeviceLongName() returns (name: seq<byte>)
      ensures |name| <= 8 && name == deviceLongName[..|name|]
      ensures forall i | 0 <= i < |name| :: deviceName[i] != 0
      ensures |name| < 8 ==> deviceName[|name|] == 0
    {
      var end := NameEnd(deviceName);
      name := deviceLongName[..end];
    }
  }

  /** The index of the first zero byte, or the length when there is none. */
  method NameEnd(name: seq<byte>) returns (end: nat)
    ensures end <= |name|
    ensures forall i | 0 <= i < end :: name[i] != 0
    ensures end < |name| ==> name[end] == 0
  {
    end := |name|;
    var idx := 0;
    while idx < |name|
      invariant 0 <= idx <= |name| && end == |name|
      invariant forall i | 0 <= i < idx :: name[i] != 0
    {
      if name[idx] == 0 {
        end := idx;
        break;
      }
      idx := idx + 1;
    }
  }

  /** The raw field values, in wire order. */
  function IdRaw(m: IdMessage): (r: seq<nat>)
    ensures |r| == |ID_WIDTHS|
  {
    [m.subId as nat, m.version as nat, m.deviceSerialNumber as nat]
      + ByteValues(m.deviceName) + ByteValues(m.deviceLongName)
      + [m.geometricAltitudeDatum as nat, m.internetPolicy as nat, m.unused as nat]
  }

  /** The fields narrower than their Rust types fit their bits. */
  predicate IdFits(m: IdMessage) {
    m.geometricAltitudeDatum < 2 && m.internetPolicy < 4 && m.unused as int < 0x2000_0000
  }

  /** What fitting the layout means for raw values. */
  lemma IdFieldBounds(values: seq<nat>)
    requires Fits(ID_WIDTHS, values)
    ensures |values| == 30
    ensures values[0] < 0x100 && values[1] < 0x100 && values[2] < 0x1_0000_0000_0000_0000
    ensures forall i | NAME <= i < DATUM :: values[i] < 0x100
    ensures values[27] < 2 && values[28] < 4 && values[29] < 0x2000_0000
  {
    Pow2Low();
    Pow2High();
    IdWidthsAt();
  }

  lemma IdWidthsAt()
    ensures |ID_WIDTHS| == 30
    ensures ID_WIDTHS[0] == 8 && ID_WIDTHS[1] == 8 && ID_WIDTHS[2] == 64
    ensures forall i | NAME <= i < DATUM :: ID_WIDTHS[i] == 8
    ensures ID_WIDTHS[27] == 1 && ID_WIDTHS[28] == 2 && ID_WIDTHS[29] == 29
  {}

  /** A message fits the layout exactly when its narrow fields fit. */
  lemma IdRawFits(m: IdMessage)
    ensures Fits(ID_WIDTHS, IdRaw(m)) <==> IdFits(m)
  {
    Pow2Low();
    Pow2High();
    IdWidthsAt();
    IdRawAt(m);
  }

  lemma IdRawAt(m: IdMessage)
    ensures IdRaw(m)[0] < 0x100 && IdRaw(m)[1] < 0x100 && IdRaw(m)[2] < 0x1_0000_0000_0000_0000
    ensures forall i | NAME <= i < DATUM :: IdRaw(m)[i] < 0x100
    ensures IdRaw(m)[27] == m.geometricAltitudeDatum as nat
    ensures IdRaw(m)[28] == m.internetPolicy as nat
    ensures IdRaw(m)[29] == m.unused as nat
  {
    var r := IdRaw(m);
    assert forall i | NAME <= i < LONG_NAME :: r[i] == m.deviceName[i - NAME] as nat;
    assert forall i | LONG_NAME <= i < DATUM :: r[i] == m.deviceLongName[i - LONG_NAME] as nat;
  }

  /** The message holding the given raw values. */
  function IdFromRaw(values: seq<nat>): (m: IdMessage)
    requires Fits(ID_WIDTHS, values)
    ensures IdRaw(m) == values && IdFits(m)
  {
    IdFieldBounds(values);
    var m := IdMessage(values[0] as byte, values[1] as byte, values[2] as u64,
      ValuesBytes(values[NAME..LONG_NAME]), ValuesBytes(values[LONG_NAME..DATUM]),
      values[27] as byte, values[28] as byte, values[29] as u32);
    IdRawGroups(values);
    m
  }

  lemma IdRawGroups(values: seq<nat>)
    requires |values| == 30
    ensures values == [values[0], values[1], values[2]] + values[NAME..LONG_NAME]
      + values[LONG_NAME..DATUM] + [values[27], values[28], values[29]]
  {}

  /** Two messages with the same raw values are the same message. */
  lemma IdRawInjective(a: IdMessage, b: IdMessage)
    requires IdRaw(a) == IdRaw(b)
    ensures a == b
  {
    var r := IdRaw(a);
    assert r[NAME..LONG_NAME] == ByteValues(a.deviceName) == ByteValues(b.deviceName);
    assert r[LONG_NAME..DATUM] == ByteValues(a.deviceLongName) == ByteValues(b.deviceLongName);
    ByteValuesInjective(a.deviceName, b.deviceName);
    ByteValuesInjective(a.deviceLongName, b.deviceLongName);
    assert r[0] == a.subId as nat == b.subId as nat;
    assert r[1] == a.version as nat == b.version as nat;
    assert r[2] == a.deviceSerialNumber as nat == b.deviceSerialNumber as nat;
    assert r[27] == a.geometricAltitudeDatum as nat == b.geometricAltitudeDatum as nat;
    assert r[28] == a.internetPolicy as nat == b.internetPolicy as nat;
    assert r[29] == a.unused as nat == b.unused as nat;
  }

  /** Every fitting message survives a trip through its raw values. */
  lemma IdRawRoundTrip(m: IdMessage)
    requires IdFits(m)
    ensures Fits(ID_WIDTHS, IdRaw(m)) && IdFromRaw(IdRaw(m)) == m
  {
    IdRawFits(m);
    IdRawInjective(IdFromRaw(IdRaw(m)), m);
  }

  /** Reads an identification message from the start of `input` (Rust
      `try_from`); the sub id read is the first input byte. */
  function IdTryFrom(input: seq<byte>): (r: Result<IdMessage>)
    ensures r.Ok? <==> |input| >= 38
    ensures r.Ok? ==> Unpack(ID_LAYOUT, input) == Ok(IdRaw(r.value)) && r.value.subId == input[0]
    ensures r.Err? ==> Unpack(ID_LAYOUT, input).Err? && r.error == Unpack(ID_LAYOUT, input).error
  {
    IdBits();
    match Unpack(ID_LAYOUT, input)
    case Ok(values) =>
      IdWidthsAt();
      UnpackFirstByte(ID_LAYOUT, input);
      Ok(IdFromRaw(values))
    case Err(e) => Err(e)
  }

  /** The 38 bytes of the record as the packer writes them. */
  function IdToBytes(m: IdMessage): (bytes: seq<byte>)
    ensures |bytes| == 38
    ensures IdFits(m) ==> Unpack(ID_LAYOUT, bytes) == Ok(IdRaw(m))
  {
    IdBits();
    IdRawFits(m);
    var bytes := Pack(ID_LAYOUT, IdRaw(m));
    if IdFits(m) then UnpackPack(ID_LAYOUT, IdRaw(m)); bytes else bytes
  }

  // ---------------------------------------------------------------------
  // The attitude and heading sub-message.

  /** Field widths: sub id, roll, pitch, a 1-bit heading type, a 15-bit
      heading, indicated and true airspeed. */
  const AHRS_WIDTHS: Layout := [8, 16, 16] + [1, 15] + [16, 16]

  const AHRS_LAYOUT: ByteLayout := (AhrsBits(); AHRS_WIDTHS)

  /** The record is 88 bits, 11 bytes. */
  lemma AhrsBits()
    ensures TotalBits(AHRS_WIDTHS) == 88
  {
    TotalBits3(8, 16, 16);
    TotalBits2(1, 15);
    TotalBits2(16, 16);
    TotalBitsAppend([8, 16, 16], [1, 15]);
    TotalBitsAppend([8, 16, 16] + [1, 15], [16, 16]);
  }

  datatype Ahrs = Ahrs(
    subId: byte,
    roll: i16,
    pitch: i16,
    headingType: byte,
    heading: u16,
    indicatedAirspeed: u16,
    trueAirspeed: u16)

  /** The raw field values; roll and pitch are written as their 16-bit
      two's-complement patterns. */
  function AhrsRaw(a: Ahrs): (r: seq<nat>)
    ensures |r| == |AHRS_WIDTHS|
  {
    [a.subId as nat, a.roll as int % 0x1_0000, a.pitch as int % 0x1_0000,
     a.headingType as nat, a.heading as nat, a.indicatedAirspeed as nat, a.trueAirspeed as nat]
  }

  predicate AhrsFits(a: Ahrs) {
    a.headingType < 2 && a.heading < 0x8000
  }

  /** What fitting the layout means field by field. */
  lemma AhrsFieldBounds(values: seq<nat>)
    ensures Fits(AHRS_WIDTHS, values) <==>
      |values| == 7 && values[0] < 0x100 && values[1] < 0x1_0000 && values[2] < 0x1_0000
      && values[3] < 2 && values[4] < 0x8000 && values[5] < 0x1_0000 && values[6] < 0x1_0000
  {
    Pow2Low();
    assert AHRS_WIDTHS == [8, 16, 16, 1, 15, 16, 16];
  }

  lemma AhrsRawFits(a: Ahrs)
    ensures Fits(AHRS_WIDTHS, AhrsRaw(a)) <==> AhrsFits(a)
  {
    AhrsFieldBounds(AhrsRaw(a));
  }

  function AhrsFromRaw(values: seq<nat>): (a: Ahrs)
    requires Fits(AHRS_WIDTHS, values)
    ensures AhrsRaw(a) == values && AhrsFits(a)
  {
    AhrsFieldBounds(values);
    Ahrs(values[0] as byte, AsI16(values[1]), AsI16(values[2]), values[3] as byte,
      values[4] as u16, values[5] as u16, values[6] as u16)
  }

  /** Two records with the same raw values are the same record: the 16-bit
      pattern determines a signed 16-bit value. */
  lemma AhrsRawInjective(a: Ahrs, b: Ahrs)
    requires AhrsRaw(a) == AhrsRaw(b)
    ensures a == b
  {
    PatternInjective(a.roll, b.roll);
    PatternInjective(a.pitch, b.pitch);
  }

  lemma PatternInjective(x: i16, y: i16)
    requires x as int % 0x1_0000 == y as int % 0x1_0000
    ensures x == y
  {}

  lemma AhrsRawRoundTrip(a: Ahrs)
    requires AhrsFits(a)
    ensures Fits(AHRS_WIDTHS, AhrsRaw(a)) && AhrsFromRaw(AhrsRaw(a)) == a
  {
    AhrsRawFits(a);
    AhrsRawInjective(AhrsFromRaw(AhrsRaw(a)), a);
  }

  /** Reads an attitude record from the start of `input` (Rust `try_from`). */
  function AhrsTryFrom(input: seq<byte>): (r: Result<Ahrs>)
    ensures r.Ok? <==> |input| >= 11
    ensures r.Ok? ==> Unpack(AHRS_LAYOUT, input) == Ok(AhrsRaw(r.value)) && r.value.subId == input[0]
    ensures r.Err? ==> Unpack(AHRS_LAYOUT, input).Err? && r.error == Unpack(AHRS_LAYOUT, input).error
  {
    AhrsBits();
    match Unpack(AHRS_LAYOUT, input)
    case Ok(values) =>
      assert AHRS_LAYOUT[0] == 8;
      UnpackFirstByte(AHRS_LAYOUT, input);
      Ok(AhrsFromRaw(values))
    case Err(e) => Err(e)
  }

  function AhrsToBytes(a: Ahrs): (bytes: seq<byte>)
    ensures |bytes| == 11
    ensures AhrsFits(a) ==> Unpack(AHRS_LAYOUT, bytes) == Ok(AhrsRaw(a))
  {
    AhrsBits();
    AhrsRawFits(a);
    var bytes := Pack(AHRS_LAYOUT, AhrsRaw(a));
    if AhrsFits(a) then UnpackPack(AHRS_LAYOUT, AhrsRaw(a)); bytes else bytes
  }

  // ---------------------------------------------------------------------
  // The container.

  datatype ExtendedX65SubMessage =
    | AhrsSubMessage(ahrs: Ahrs)
    | IdSubMessage(id: IdMessage)

  /** Overwrites the first byte with the sub id (Rust `set_sub_id`, which
      panics on an empty buffer). */
  function SetSubId(payload: seq<byte>, subId: byte): (r: seq<byte>)
    requires |payload| > 0
    ensures |r| == |payload| && r[0] == subId && r[1..] == payload[1..]
  {
    payload[0 := subId]
  }

  /** The same write done in place on the buffer, as the source does it. */
  method WriteSubId(payload: array<byte>, subId: byte)
    requires payload.Length > 0
    modifies payload
    ensures payload[..] == SetSubId(old(payload[..]), subId)
  {
    payload[0] := subId;
  }

  /** The bytes of a sub-message: the record's bytes with the first byte
      replaced by the sub id of the variant, whatever sub id the record
      holds. */
  function SubMessageToBytes(m: ExtendedX65SubMessage): (bytes: seq<byte>)
    ensures m.IdSubMessage? ==> |bytes| == 38 && bytes[0] == ID_SUB_ID && bytes[1..] == IdToBytes(m.id)[1..]
    ensures m.AhrsSubMessage? ==> |bytes| == 11 && bytes[0] == AHRS_SUB_ID && bytes[1..] == AhrsToBytes(m.ahrs)[1..]
  {
    match m
    case IdSubMessage(p) => SetSubId(IdToBytes(p), ID_SUB_ID)
    case AhrsSubMessage(p) => SetSubId(AhrsToBytes(p), AHRS_SUB_ID)
  }

  /** Reads a sub-message, choosing the record by the first input byte. */
  function SubMessageTryFrom(input: seq<byte>): (r: Result<ExtendedX65SubMessage>)
    ensures |input| == 0 ==> r == Err(Parse("Expect at least one byte containing the sub message id"))
    ensures |input| > 0 && input[0] == ID_SUB_ID ==>
      r == if IdTryFrom(input).Ok? then Ok(IdSubMessage(IdTryFrom(input).value)) else Err(IdTryFrom(input).error)
    ensures |input| > 0 && input[0] == AHRS_SUB_ID ==>
      r == if AhrsTryFrom(input).Ok? then Ok(AhrsSubMessage(AhrsTryFrom(input).value)) else Err(AhrsTryFrom(input).error)
    ensures |input| > 0 && input[0] > AHRS_SUB_ID ==>
      r == Err(Parse("Unknown sub message id " + DecimalString(input[0] as nat)))
  {
    if |input| == 0 then Err(Parse("Expect at least one byte containing the sub message id"))
    else if input[0] == ID_SUB_ID then
      match IdTryFrom(input)
      case Ok(p) => Ok(IdSubMessage(p))
      case Err(e) => Err(e)
    else if input[0] == AHRS_SUB_ID then
      match AhrsTryFrom(input)
      case Ok(p) => Ok(AhrsSubMessage(p))
      case Err(e) => Err(e)
    else Err(Parse("Unknown sub message id " + DecimalString(input[0] as nat)))
  }

  /** The sub-message with the sub id its variant writes. */
  function WithVariantSubId(m: ExtendedX65SubMessage): ExtendedX65SubMessage {
    match m
    case IdSubMessage(p) => IdSubMessage(p.(subId := ID_SUB_ID))
    case AhrsSubMessage(p) => AhrsSubMessage(p.(subId := AHRS_SUB_ID))
  }

  predicate SubMessageFits(m: ExtendedX65SubMessage) {
    match m
    case IdSubMessage(p) => IdFits(p)
    case AhrsSubMessage(p) => AhrsFits(p)
  }

  /** Writing a sub-message and reading it back gives the sub-message with
      the sub id of its variant: the stored sub id is not what is written. */
  lemma SubMessageRoundTrip(m: ExtendedX65SubMessage)
    requires SubMessageFits(m)
    ensures SubMessageTryFrom(SubMessageToBytes(m)) == Ok(WithVariantSubId(m))
  {
    match m
    case IdSubMessage(p) => IdRoundTrip(p);
    case AhrsSubMessage(p) => AhrsRoundTrip(p);
  }

  lemma IdRoundTrip(p: IdMessage)
    requires IdFits(p)
    ensures IdTryFrom(SetSubId(IdToBytes(p), ID_SUB_ID)) == Ok(p.(subId := ID_SUB_ID))
  {
    IdBits();
    var bytes := IdToBytes(p);
    assert ID_LAYOUT[0] == 8;
    UnpackSetFirstByte(ID_LAYOUT, bytes, ID_SUB_ID);
    var q := p.(subId := ID_SUB_ID);
    IdRawSetSubId(p, ID_SUB_ID);
    var r := IdTryFrom(SetSubId(bytes, ID_SUB_ID));
    IdRawInjective(r.value, q);
  }

  /** Changing the stored sub id changes the first raw value only. */
  lemma IdRawSetSubId(p: IdMessage, id: byte)
    ensures IdRaw(p.(subId := id)) == IdRaw(p)[0 := id as nat]
  {
    var a, b := IdRaw(p.(subId := id)), IdRaw(p)[0 := id as nat];
    assert forall i | 0 < i < |a| :: a[i] == b[i];
  }

  lemma AhrsRoundTrip(p: Ahrs)
    requires AhrsFits(p)
    ensures AhrsTryFrom(SetSubId(AhrsToBytes(p), AHRS_SUB_ID)) == Ok(p.(subId := AHRS_SUB_ID))
  {
    AhrsBits();
    assert AHRS_LAYOUT[0] == 8;
    var bytes := AhrsToBytes(p);
    UnpackSetFirstByte(AHRS_LAYOUT, bytes, AHRS_SUB_ID);
    var q := p.(subId := AHRS_SUB_ID);
    assert AhrsRaw(p)[0 := 1] == AhrsRaw(q);
    AhrsRawFits(q);
    var r := AhrsTryFrom(SetSubId(bytes, AHRS_SUB_ID));
    AhrsRawInjective(r.value, q);
  }

  /** A sub-message whose record already holds its variant's sub id
      survives a write and a read unchanged. */
  lemma SubMessageRoundTripExact(m: ExtendedX65SubMessage)
    requires SubMessageFits(m)
    requires m.IdSubMessage? ==> m.id.subId == ID_SUB_ID
    requires m.AhrsSubMessage? ==> m.ahrs.subId == AHRS_SUB_ID
    ensures SubMessageTryFrom(SubMessageToBytes(m)) == Ok(m)
  {
    SubMessageRoundTrip(m);
  }

  // ---------------------------------------------------------------------
  // The identification message of the unit test: version 1, serial number
  // 0x04030201, name and long name "SkyEcho".

  /** "SkyEcho" in ASCII. */
  const SKY_ECHO: seq<byte> := [0x53, 0x6B, 0x79, 0x45, 0x63, 0x68, 0x6F]

  const SAMPLE_NAME: DeviceName := SKY_ECHO + [0]
  const SAMPLE_LONG_NAME: DeviceLongName := SKY_ECHO + [0, 0, 0, 0, 0, 0, 0, 0, 0]

  const ID_SAMPLE: seq<byte> :=
    [0x00, 0x01] + [0x00, 0x00, 0x00, 0x00, 0x04, 0x03, 0x02, 0x01]
    + SAMPLE_NAME + SAMPLE_LONG_NAME + [0x00, 0x00, 0x00, 0x00]

  const ID_SAMPLE_MESSAGE: IdMessage :=
    IdMessage(0, 1, 0x04030201, SAMPLE_NAME, SAMPLE_LONG_NAME, 0, 0, 0)

  /** The 38 bytes read as the message above. */
  lemma IdSample()
    ensures IdTryFrom(ID_SAMPLE) == Ok(ID_SAMPLE_MESSAGE)
  {
    IdBits();
    IdRawFits(ID_SAMPLE_MESSAGE);
    IdSampleConcat();
    UnpackExact(ID_LAYOUT, IdRaw(ID_SAMPLE_MESSAGE), ID_SAMPLE);
    IdRawInjective(IdTryFrom(ID_SAMPLE).value, ID_SAMPLE_MESSAGE);
  }

  lemma IdSampleConcat()
    ensures FromBytes(ID_SAMPLE) == Concat(ID_WIDTHS, IdRaw(ID_SAMPLE_MESSAGE))
  {
    var front: seq<byte> := [0x00, 0x01, 0x00, 0x00, 0x00, 0x00, 0x04, 0x03, 0x02, 0x01] + SAMPLE_NAME;
    var back: seq<byte> := SAMPLE_LONG_NAME + [0x00, 0x00, 0x00, 0x00];
    SampleFront();
    SampleBack();
    Bytes8Bits();
    TotalBits3(1, 2, 29);
    TotalBitsAppend(BYTES_8 + BYTES_8, [1, 2, 29]);
    TotalBitsAppend(BYTES_8, BYTES_8);
    JoinPieces([8, 8, 64] + BYTES_8, [0, 1, 0x04030201] + ByteValues(SAMPLE_NAME), front,
      BYTES_8 + BYTES_8 + [1, 2, 29], ByteValues(SAMPLE_LONG_NAME) + [0, 0, 0], back);
    SampleHalves();
    IdHalves(ID_SAMPLE_MESSAGE);
  }

  lemma SampleHalves()
    ensures [0x00, 0x01, 0x00, 0x00, 0x00, 0x00, 0x04, 0x03, 0x02, 0x01] + SAMPLE_NAME
      + (SAMPLE_LONG_NAME + [0x00, 0x00, 0x00, 0x00]) == ID_SAMPLE
  {}

  /** The layout and the raw values in two halves: up to the name, and the
      rest. */
  lemma IdHalves(m: IdMessage)
    ensures ([8, 8, 64] + BYTES_8) + (BYTES_8 + BYTES_8 + [1, 2, 29]) == ID_WIDTHS
    ensures ([m.subId as nat, m.version as nat, m.deviceSerialNumber as nat] + ByteValues(m.deviceName))
      + (ByteValues(m.deviceLongName) + [m.geometricAltitudeDatum as nat, m.internetPolicy as nat, m.unused as nat])
      == IdRaw(m)
  {}

  /** Sub id, version, serial number and name. */
  lemma SampleFront()
    ensures FromBytes([0x00, 0x01, 0x00, 0x00, 0x00, 0x00, 0x04, 0x03, 0x02, 0x01] + SAMPLE_NAME)
      == Concat([8, 8, 64] + BYTES_8, [0, 1, 0x04030201] + ByteValues(SAMPLE_NAME))
  {
    var head: seq<byte> := [0x00, 0x01];
    var serial: seq<byte> := [0x00, 0x00, 0x00, 0x00, 0x04, 0x03, 0x02, 0x01];
    Bytes8Bits();
    SampleHead();
    SampleSerial();
    ConcatBytes(SAMPLE_NAME);
    TotalBit64();
    JoinPieces([8, 8], [0, 1], head, [64], [0x04030201], serial);
    assert [8, 8] + [64] == [8, 8, 64] && [0, 1] + [0x04030201] == [0, 1, 0x04030201];
    assert head + serial == [0x00, 0x01, 0x00, 0x00, 0x00, 0x00, 0x04, 0x03, 0x02, 0x01];
    JoinPieces([8, 8, 64], [0, 1, 0x04030201], head + serial, BYTES_8, ByteValues(SAMPLE_NAME), SAMPLE_NAME);
  }

  /** Long name, datum, policy and the unused bits. */
  lemma SampleBack()
    ensures FromBytes(SAMPLE_LONG_NAME + [0x00, 0x00, 0x00, 0x00])
      == Concat(BYTES_8 + BYTES_8 + [1, 2, 29], ByteValues(SAMPLE_LONG_NAME) + [0, 0, 0])
  {
    Bytes8Bits();
    ConcatBytes(SAMPLE_LONG_NAME);
    assert seq(16, _ => 8) == BYTES_8 + BYTES_8;
    SampleTail();
    TotalBits3(1, 2, 29);
    JoinPieces(BYTES_8 + BYTES_8, ByteValues(SAMPLE_LONG_NAME), SAMPLE_LONG_NAME,
      [1, 2, 29], [0, 0, 0], [0x00, 0x00, 0x00, 0x00]);
  }

  lemma TotalBit64()
    ensures TotalBits([64]) == 64
  {
    assert [64][..0] == [];
  }

  /** Sub id 0 and version 1. */
  lemma SampleHead()
    ensures FromBytes([0x00, 0x01]) == Concat([8, 8], [0, 1])
  {
    ConcatBytes([0x00, 0x01]);
    assert seq(2, _ => 8) == [8, 8];
    assert ByteValues([0x00, 0x01]) == [0, 1];
  }

  /** The serial number, eight bytes big-endian. */
  lemma SampleSerial()
    ensures FromBytes([0x00, 0x00, 0x00, 0x00, 0x04, 0x03, 0x02, 0x01]) == Concat([64], [0x04030201])
  {
    Pow2High();
    ConcatOne(64, 0x04030201);
    SerialBytes();
  }

  lemma SerialBytes()
    ensures FromBytes([0x00, 0x00, 0x00, 0x00, 0x04, 0x03, 0x02, 0x01]) == 0x04030201
  {
    Pow2Low();
    FromBytes2(0x04, 0x03);
    FromBytes2(0x02, 0x01);
    FromBytesZeros([0x00, 0x00, 0x00, 0x00]);
    FromBytesAppend([0x04, 0x03], [0x02, 0x01]);
    FromBytesAppend([0x00, 0x00, 0x00, 0x00], [0x04, 0x03, 0x02, 0x01]);
    assert [0x04, 0x03] + [0x02, 0x01] == [0x04, 0x03, 0x02, 0x01];
    assert [0x00, 0x00, 0x00, 0x00] + [0x04, 0x03, 0x02, 0x01]
      == [0x00, 0x00, 0x00, 0x00, 0x04, 0x03, 0x02, 0x01];
  }

  /** Datum, policy and the unused bits, all zero. */
  lemma SampleTail()
    ensures FromBytes([0x00, 0x00, 0x00, 0x00]) == Concat([1, 2, 29], [0, 0, 0])
  {
    ConcatZeros([1, 2, 29], [0, 0, 0]);
    FromBytesZeros([0x00, 0x00, 0x00, 0x00]);
  }

  /** The unit test: the sample decodes as an identification message with
      serial number 0x04030201 whose name and long name both read as
      "SkyEcho". */
  method ParseIdSample() returns (serial: u64, name: seq<byte>, longName: seq<byte>)
    ensures serial == 0x04030201
    ensures name == SKY_ECHO && longName == SKY_ECHO
  {
    var message := DecodeIdSample();
    serial := message.deviceSerialNumber;
    name := message.GetDeviceName();
    SampleNameEnd(|name|);
    longName := message.GetDeviceLongName();
    SampleNameEnd(|longName|);
    assert ID_SAMPLE_MESSAGE.deviceName == SAMPLE_NAME;
  }

  /** The message the sample decodes to. */
  method DecodeIdSample() returns (message: IdMessage)
    ensures message == ID_SAMPLE_MESSAGE
  {
    SubMessageSample();
    var r := SubMessageTryFrom(ID_SAMPLE);
    message := r.value.id;
  }

  /** The sample is an identification sub-message. */
  lemma SubMessageSample()
    ensures SubMessageTryFrom(ID_SAMPLE) == Ok(IdSubMessage(ID_SAMPLE_MESSAGE))
  {
    IdSample();
    assert ID_SAMPLE[0] == ID_SUB_ID;
  }

  /** The sample name ends at index 7 and nowhere before. */
  lemma SampleNameEnd(end: nat)
    requires end <= 8 && forall i | 0 <= i < end :: SAMPLE_NAME[i] != 0
    requires end < 8 ==> SAMPLE_NAME[end] == 0
    ensures end == 7 && SAMPLE_NAME[..end] == SKY_ECHO && SAMPLE_LONG_NAME[..end] == SKY_ECHO
  {
    assert forall i | 0 <= i < 7 :: SAMPLE_NAME[i] == SKY_ECHO[i] != 0;
    assert SAMPLE_NAME[7] == 0;
  }
}
