/** The heartbeat message (message id 0): sixteen one-bit status flags,
    a 16-bit time stamp and a 16-bit count of messages received, six bytes
    in all.  The time stamp is stored with its bytes swapped, and a flag
    among the status bits extends it. */
module Heartbeats {
  import opened Common
  import opened Packing

  /** The field widths of the record, in wire order: two bytes of flags,
      then the time stamp and the message counts. */
  const HEARTBEAT_WIDTHS: Layout := FLAGS_8 + FLAGS_8 + [16, 16]

  /** The same widths, known to fill whole bytes. */
  const HEARTBEAT_LAYOUT: ByteLayout := (HeartbeatBits(); HEARTBEAT_WIDTHS)

  // Positions of some fields in HEARTBEAT_WIDTHS.
  const GPS_POS_VALID := 0
  const UAT_INITIALIZED := 7
  const TIME_STAMP_MSB := 8
  const TIME_STAMP := 16
  const MESSAGE_COUNTS := 17

  /** The record is 48 bits, six bytes. */
  lemma HeartbeatBits()
    ensures TotalBits(HEARTBEAT_WIDTHS) == 48
  {
    Flags8Bits();
    TotalBits2(16, 16);
    TotalBitsAppend(FLAGS_8, FLAGS_8);
    TotalBitsAppend(FLAGS_8 + FLAGS_8, [16, 16]);
  }

  /** Eight flags as the raw values of eight one-bit fields. */
  function FlagsRaw(a: bool, b: bool, c: bool, d: bool, e: bool, f: bool, g: bool, h: bool): (r: seq<nat>)
    ensures |r| == 8 && forall i | 0 <= i < 8 :: r[i] < 2
    ensures r[0] == Bit(a) && r[7] == Bit(h)
  {
    [Bit(a), Bit(b), Bit(c), Bit(d), Bit(e), Bit(f), Bit(g), Bit(h)]
  }

  // ---------------------------------------------------------------------
  // The time stamp.

  /** The 16-bit value with its two bytes exchanged (Rust `swap_bytes`). */
  function SwapBytes(x: u16): (y: u16)
    ensures ToBytes(y as nat, 2) == [ToBytes(x as nat, 2)[1], ToBytes(x as nat, 2)[0]]
  {
    var low, high := x as int % 0x100, x as int / 0x100;
    var y := low * 0x100 + high;
    assert y / 0x100 == low && y % 0x100 == high by {
      DivModUnique(low, high, 0x100);
    }
    y as u16
  }

  /** Swapping twice gives the value back. */
  lemma SwapBytesInvolution(x: u16)
    ensures SwapBytes(SwapBytes(x)) == x
  {
    var low, high := x as int % 0x100, x as int / 0x100;
    DivModUnique(low, high, 0x100);
  }

  /** The time stamp the getter reports: with the extension flag set, bit
      17 over the stored value as it stands; without it, the stored value
      with its bytes swapped back. */
  function TimeStampFromRaw(msb: bool, raw: u16): (t: u32)
    ensures msb <==> t >= 0x1_0000
    ensures msb ==> t as int == 0x2_0000 + raw as int
    ensures !msb ==> SwapBytes(t as u16) == raw
  {
    if msb then (0x2_0000 + raw as int) as u32
    else
      SwapBytesInvolution(raw);
      SwapBytes(raw) as int as u32
  }

  /** The extension flag the setter stores: bit 17 of the value. */
  function TimeStampMsb(value: u32): bool {
    (value as int / 0x2_0000) % 2 == 1
  }

  /** The raw value the setter stores: the low 16 bits of the value with
      their bytes swapped. */
  function TimeStampToRaw(value: u32): u16 {
    SwapBytes((value as int % 0x1_0000) as u16)
  }

  /** What a set followed by a get reports, for every value: without bit
      17 the low 16 bits come back and bit 16 is lost; with bit 17 the
      swapped low bits come back unswapped, under bit 17. */
  lemma TimeStampSetGet(value: u32)
    ensures !TimeStampMsb(value) ==>
      TimeStampFromRaw(TimeStampMsb(value), TimeStampToRaw(value)) as int == value as int % 0x1_0000
    ensures TimeStampMsb(value) ==>
      TimeStampFromRaw(TimeStampMsb(value), TimeStampToRaw(value)) as int
      == 0x2_0000 + SwapBytes((value as int % 0x1_0000) as u16) as int
  {
    SwapBytesInvolution((value as int % 0x1_0000) as u16);
  }

  /** Every value below 2^16 survives a set and a get. */
  lemma TimeStampRoundTrip(value: u32)
    requires value < 0x1_0000
    ensures !TimeStampMsb(value)
    ensures TimeStampFromRaw(TimeStampMsb(value), TimeStampToRaw(value)) == value
  {
    TimeStampSetGet(value);
  }

  /** A stored pair survives a get and a set when the flag is clear. */
  lemma TimeStampRawRoundTrip(raw: u16)
    ensures !TimeStampMsb(TimeStampFromRaw(false, raw))
    ensures TimeStampToRaw(TimeStampFromRaw(false, raw)) == raw
  {
    var t := TimeStampFromRaw(false, raw) as int;
    DivModUnique(0, t, 0x2_0000);
    DivModUnique(0, t, 0x1_0000);
  }

  /** 53751 is stored as 0xF7D1 without the extension flag, and 0xF7D1
      reads as 53751. */
  lemma TimeStampSample()
    ensures !TimeStampMsb(53751) && TimeStampToRaw(53751) == 0xF7D1
    ensures TimeStampFromRaw(false, 0xF7D1) == 53751
  {
    TimeStampRoundTrip(53751);
  }

  /** 53236 survives a set and a get; the flagged raw value 32018 reads
      as 163090.  70000, above 2^16 but without bit 17, reads back as
      4464; 0x20001 reads back as 0x20100. */
  lemma TimeStampSamples()
    ensures TimeStampFromRaw(TimeStampMsb(53236), TimeStampToRaw(53236)) == 53236
    ensures TimeStampFromRaw(true, 32018) == 163090
    ensures TimeStampFromRaw(TimeStampMsb(70000), TimeStampToRaw(70000)) == 4464
    ensures TimeStampFromRaw(TimeStampMsb(0x2_0001), TimeStampToRaw(0x2_0001)) == 0x2_0100
  {
    TimeStampRoundTrip(53236);
    TimeStampSetGet(70000);
    TimeStampSetGet(0x2_0001);
  }

  // ---------------------------------------------------------------------
  // The record's raw values.

  /** What fitting the layout means field by field. */
  lemma HeartbeatFieldBounds(values: seq<nat>)
    requires Fits(HEARTBEAT_WIDTHS, values)
    ensures |values| == 18
    ensures forall i | 0 <= i < 16 :: values[i] < 2
    ensures values[TIME_STAMP] < 0x1_0000 && values[MESSAGE_COUNTS] < 0x1_0000
  {
    assert Pow2(1) == 2 && Pow2(16) == 0x1_0000 by {
      Pow2Low();
    }
    assert forall i | 0 <= i < 16 :: HEARTBEAT_WIDTHS[i] == 1;
    assert HEARTBEAT_WIDTHS[TIME_STAMP] == 16 && HEARTBEAT_WIDTHS[MESSAGE_COUNTS] == 16;
  }

  /** Flags of 0 or 1 and 16-bit numbers fit the layout. */
  lemma HeartbeatFits(f1: seq<nat>, f2: seq<nat>, ts: nat, mc: nat)
    requires |f1| == 8 && forall i | 0 <= i < 8 :: f1[i] < 2
    requires |f2| == 8 && forall i | 0 <= i < 8 :: f2[i] < 2
    requires ts < 0x1_0000 && mc < 0x1_0000
    ensures Fits(HEARTBEAT_WIDTHS, f1 + f2 + [ts, mc])
  {
    assert Pow2(1) == 2 && Pow2(16) == 0x1_0000 by {
      Pow2Low();
    }
    var values := f1 + f2 + [ts, mc];
    forall i | 0 <= i < 18
      ensures values[i] < Pow2(HEARTBEAT_WIDTHS[i])
    {
      if i < 8 {
        assert values[i] == f1[i];
      } else if i < 16 {
        assert values[i] == f2[i - 8];
      }
    }
  }

  /** A list of 18 raw values, cut into the record's two flag bytes and its
      two words. */
  lemma HeartbeatRawGroups(values: seq<nat>)
    requires |values| == 18
    ensures values == values[..8] + values[8..16] + [values[16], values[17]]
  {}

  /** Eight one-bit raw values read as flags and turned back into raw
      values are unchanged. */
  lemma FlagsRawOf(f: seq<nat>)
    requires |f| == 8 && forall i | 0 <= i < 8 :: f[i] < 2
    ensures FlagsRaw(f[0] == 1, f[1] == 1, f[2] == 1, f[3] == 1, f[4] == 1, f[5] == 1, f[6] == 1, f[7] == 1) == f
  {}

  /** The number eight one-bit fields make, the first one the most
      significant bit. */
  function FlagBits(f: seq<nat>): nat
    requires |f| == 8
  {
    f[0] * 128 + f[1] * 64 + f[2] * 32 + f[3] * 16 + f[4] * 8 + f[5] * 4 + f[6] * 2 + f[7]
  }

  /** Six bytes hold a record when the first two are its flag bytes and the
      other four its two words: how concrete records are checked. */
  lemma HeartbeatConcat(f1: seq<nat>, f2: seq<nat>, ts: nat, mc: nat, bytes: seq<byte>)
    requires |f1| == 8 && forall i | 0 <= i < 8 :: f1[i] < 2
    requires |f2| == 8 && forall i | 0 <= i < 8 :: f2[i] < 2
    requires ts < 0x1_0000 && mc < 0x1_0000
    requires |bytes| == 6 && bytes[0] as nat == FlagBits(f1) && bytes[1] as nat == FlagBits(f2)
    requires ts == bytes[2] as nat * 0x100 + bytes[3] as nat
    requires mc == bytes[4] as nat * 0x100 + bytes[5] as nat
    ensures FromBytes(bytes) == Concat(HEARTBEAT_WIDTHS, f1 + f2 + [ts, mc])
  {
    var flags := FLAGS_8;
    Flags8Bits();
    FlagsByte(f1);
    FlagsByte(f2);
    assert FromBytes([bytes[0]]) == Concat(flags, f1) by {
      assert [bytes[0]][..0] == [];
    }
    assert FromBytes([bytes[1]]) == Concat(flags, f2) by {
      assert [bytes[1]][..0] == [];
    }
    JoinPieces(flags, f1, [bytes[0]], flags, f2, [bytes[1]]);
    HeartbeatWords(ts, mc, bytes[2..]);
    TotalBits2(16, 16);
    JoinPieces(flags + flags, f1 + f2, [bytes[0]] + [bytes[1]], [16, 16], [ts, mc], bytes[2..]);
    assert [bytes[0]] + [bytes[1]] + bytes[2..] == bytes;
  }

  /** Four bytes read as two 16-bit words. */
  lemma HeartbeatWords(ts: nat, mc: nat, bytes: seq<byte>)
    requires ts < 0x1_0000 && mc < 0x1_0000
    requires |bytes| == 4
    requires ts == bytes[0] as nat * 0x100 + bytes[1] as nat
    requires mc == bytes[2] as nat * 0x100 + bytes[3] as nat
    ensures FromBytes(bytes) == Concat([16, 16], [ts, mc])
  {
    ConcatWords(ts, mc);
    FromBytesWords(bytes);
  }

  lemma ConcatWords(ts: nat, mc: nat)
    requires ts < 0x1_0000 && mc < 0x1_0000
    ensures Concat([16, 16], [ts, mc]) == ts * 0x1_0000 + mc
  {
    Pow2Low();
    ConcatCons(16, ts, [16], [mc]);
    ConcatOne(16, mc);
    assert [16] + [16] == [16, 16] && [ts] + [mc] == [ts, mc];
  }

  lemma FromBytesWords(bytes: seq<byte>)
    requires |bytes| == 4
    ensures FromBytes(bytes)
      == (bytes[0] as nat * 0x100 + bytes[1] as nat) * 0x1_0000 + bytes[2] as nat * 0x100 + bytes[3] as nat
  {
    FromBytes2(bytes[0], bytes[1]);
    FromBytes2(bytes[2], bytes[3]);
    FromBytesAppend([bytes[0], bytes[1]], [bytes[2], bytes[3]]);
    assert [bytes[0], bytes[1]] + [bytes[2], bytes[3]] == bytes;
    assert Pow2(16) == 0x1_0000 by {
      Pow2Low();
    }
  }

  // ---------------------------------------------------------------------
  // The record.

  class HeartBeat {
    var gpsPosValid: bool
    var maintReq: bool
    var ident: bool
    var addrType: bool
    var gpsBattLow: bool
    var ratcs: bool
    var reserved1: bool
    var uatInitialized: bool
    var timeStampMsb: bool
    var csaRequested: bool
    var csaNotAvailable: bool
    var reserved2: bool
    var reserved3: bool
    var reserved4: bool
    var reserved5: bool
    var utcOk: bool
    var timeStamp: u16
    var messageCounts: u16

    /** The raw field values, in wire order. */
    function Raw(): (r: seq<nat>)
      reads this
      ensures |r| == |HEARTBEAT_WIDTHS|
    {
        FlagsRaw(gpsPosValid, maintReq, ident, addrType, gpsBattLow, ratcs, reserved1, uatInitialized)
      + FlagsRaw(timeStampMsb, csaRequested, csaNotAvailable, reserved2, reserved3, reserved4, reserved5, utcOk)
      + [timeStamp as nat, messageCounts as nat]
    }

    /** Every state of the record fits its layout. */
    lemma RawFits()
      ensures Fits(HEARTBEAT_WIDTHS, Raw())
    {
      HeartbeatFits(
        FlagsRaw(gpsPosValid, maintReq, ident, addrType, gpsBattLow, ratcs, reserved1, uatInitialized),
        FlagsRaw(timeStampMsb, csaRequested, csaNotAvailable, reserved2, reserved3, reserved4, reserved5, utcOk),
        timeStamp as nat, messageCounts as nat);
    }

    /** The record with every flag clear and both words zero (Rust
        `Default`). */
    constructor ()
      ensures Raw() == seq(18, _ => 0)
      ensures !gpsPosValid && !maintReq && !ident && !addrType && !gpsBattLow && !ratcs
      ensures !reserved1 && !uatInitialized && !timeStampMsb && !csaRequested && !csaNotAvailable
      ensures !reserved2 && !reserved3 && !reserved4 && !reserved5 && !utcOk
      ensures timeStamp == 0 && messageCounts == 0
    {
      gpsPosValid, maintReq, ident, addrType := false, false, false, false;
      gpsBattLow, ratcs, reserved1, uatInitialized := false, false, false, false;
      timeStampMsb, csaRequested, csaNotAvailable, reserved2 := false, false, false, false;
      reserved3, reserved4, reserved5, utcOk := false, false, false, false;
      timeStamp, messageCounts := 0, 0;
    }

    /** The record holding the given raw values. */
    constructor FromRaw(values: seq<nat>)
      requires Fits(HEARTBEAT_WIDTHS, values)
      ensures Raw() == values
    {
      HeartbeatFieldBounds(values);
      HeartbeatRawGroups(values);
      var f1, f2 := values[..8], values[8..16];
      FlagsRawOf(f1);
      FlagsRawOf(f2);
      gpsPosValid := f1[0] == 1;
      maintReq := f1[1] == 1;
      ident := f1[2] == 1;
      addrType := f1[3] == 1;
      gpsBattLow := f1[4] == 1;
      ratcs := f1[5] == 1;
      reserved1 := f1[6] == 1;
      uatInitialized := f1[7] == 1;
      timeStampMsb := f2[0] == 1;
      csaRequested := f2[1] == 1;
      csaNotAvailable := f2[2] == 1;
      reserved2 := f2[3] == 1;
      reserved3 := f2[4] == 1;
      reserved4 := f2[5] == 1;
      reserved5 := f2[6] == 1;
      utcOk := f2[7] == 1;
      timeStamp := values[TIME_STAMP] as u16;
      messageCounts := values[MESSAGE_COUNTS] as u16;
    }

    /** Reads a record from the start of `bytes` (Rust `try_from`). */
    static method TryFrom(bytes: seq<byte>) returns (r: Result<HeartBeat>)
      ensures r.Ok? <==> |bytes| >= 6
      ensures r.Ok? ==> fresh(r.value) && Unpack(HEARTBEAT_LAYOUT, bytes) == Ok(r.value.Raw())
      ensures r.Err? ==> Unpack(HEARTBEAT_LAYOUT, bytes).Err? && r.error == Unpack(HEARTBEAT_LAYOUT, bytes).error
    {
      HeartbeatBits();
      var unpacked := Unpack(HEARTBEAT_LAYOUT, bytes);
      if unpacked.Ok? {
        var heartbeat := new HeartBeat.FromRaw(unpacked.value);
        r := Ok(heartbeat);
      } else {
        r := Err(unpacked.error);
      }
    }

    /** The six bytes of the record (Rust `to_bytes`); they read back as the
        record. */
    function ToBytes(): (bytes: seq<byte>)
      reads this
      ensures |bytes| == 6
      ensures Unpack(HEARTBEAT_LAYOUT, bytes) == Ok(Raw())
    {
      HeartbeatBits();
      RawFits();
      UnpackPack(HEARTBEAT_LAYOUT, Raw());
      Pack(HEARTBEAT_LAYOUT, Raw())
    }

    function GetTimeStamp(): u32
      reads this
    {
      TimeStampFromRaw(timeStampMsb, timeStamp)
    }

    /** Stores bit 17 of the value in the extension flag and its low 16 bits,
        bytes swapped, in the time stamp; nothing else changes.  A value
        below 2^16 reads back unchanged. */
    method SetTimeStamp(value: u32)
      modifies this
      ensures timeStampMsb == TimeStampMsb(value) && timeStamp == TimeStampToRaw(value)
      ensures unchanged(this`gpsPosValid, this`maintReq, this`ident, this`addrType,
          this`gpsBattLow, this`ratcs, this`reserved1, this`uatInitialized,
          this`csaRequested, this`csaNotAvailable, this`reserved2, this`reserved3,
          this`reserved4, this`reserved5, this`utcOk, this`messageCounts)
      ensures value < 0x1_0000 ==> GetTimeStamp() == value
    {
      timeStampMsb := (value as int / 0x2_0000) % 2 == 1;
      timeStamp := SwapBytes((value as int % 0x1_0000) as u16);
      if value < 0x1_0000 {
        TimeStampRoundTrip(value);
      }
    }
  }

  // ---------------------------------------------------------------------
  // The records of the unit tests.

  /** Bytes 01 00 F7 D1 00 00: only the initialised flag set, time stamp
      0xF7D1 (53751 with its bytes swapped back). */
  lemma HeartbeatSample()
    ensures Unpack(HEARTBEAT_LAYOUT, [0x01, 0x00, 0xF7, 0xD1, 0x00, 0x00])
      == Ok([0, 0, 0, 0, 0, 0, 0, 1] + [0, 0, 0, 0, 0, 0, 0, 0] + [0xF7D1, 0])
    ensures Pack(HEARTBEAT_LAYOUT, [0, 0, 0, 0, 0, 0, 0, 1] + [0, 0, 0, 0, 0, 0, 0, 0] + [0xF7D1, 0])
      == [0x01, 0x00, 0xF7, 0xD1, 0x00, 0x00]
  {
    HeartbeatBits();
    var f1, f2 := [0, 0, 0, 0, 0, 0, 0, 1], [0, 0, 0, 0, 0, 0, 0, 0];
    assert FlagBits(f1) == 1 && FlagBits(f2) == 0;
    HeartbeatConcat(f1, f2, 0xF7D1, 0, [0x01, 0x00, 0xF7, 0xD1, 0x00, 0x00]);
    HeartbeatFits(f1, f2, 0xF7D1, 0);
    UnpackExact(HEARTBEAT_LAYOUT, f1 + f2 + [0xF7D1, 0], [0x01, 0x00, 0xF7, 0xD1, 0x00, 0x00]);
  }

  /** Bytes 81 80 7D 12 00 00: the position-valid, initialised and extension
      flags set, raw time stamp 32018. */
  lemma HeartbeatFlaggedSample()
    ensures Unpack(HEARTBEAT_LAYOUT, [0x81, 0x80, 0x7D, 0x12, 0x00, 0x00])
      == Ok([1, 0, 0, 0, 0, 0, 0, 1] + [1, 0, 0, 0, 0, 0, 0, 0] + [32018, 0])
    ensures Pack(HEARTBEAT_LAYOUT, [1, 0, 0, 0, 0, 0, 0, 1] + [1, 0, 0, 0, 0, 0, 0, 0] + [32018, 0])
      == [0x81, 0x80, 0x7D, 0x12, 0x00, 0x00]
  {
    HeartbeatBits();
    var f1, f2 := [1, 0, 0, 0, 0, 0, 0, 1], [1, 0, 0, 0, 0, 0, 0, 0];
    assert FlagBits(f1) == 0x81 && FlagBits(f2) == 0x80;
    HeartbeatConcat(f1, f2, 32018, 0, [0x81, 0x80, 0x7D, 0x12, 0x00, 0x00]);
    HeartbeatFits(f1, f2, 32018, 0);
    UnpackExact(HEARTBEAT_LAYOUT, f1 + f2 + [32018, 0], [0x81, 0x80, 0x7D, 0x12, 0x00, 0x00]);
  }

  /** The flag bytes of the records of the unit tests. */
  lemma SampleFlags()
    ensures FlagsRaw(false, false, false, false, false, false, false, true) == [0, 0, 0, 0, 0, 0, 0, 1]
    ensures FlagsRaw(false, false, false, false, false, false, false, false) == [0, 0, 0, 0, 0, 0, 0, 0]
    ensures FlagsRaw(true, false, false, false, false, false, false, true) == [1, 0, 0, 0, 0, 0, 0, 1]
    ensures FlagsRaw(true, false, false, false, false, false, false, false) == [1, 0, 0, 0, 0, 0, 0, 0]
  {}

  /** Decoding 01 00 F7 D1 00 00 reports time stamp 53751; setting 53751
      again and encoding gives the same bytes. */
  method DecodeSetEncode() returns (timeStamp: u32, encoded: seq<byte>)
    ensures timeStamp == 53751
    ensures encoded == [0x01, 0x00, 0xF7, 0xD1, 0x00, 0x00]
  {
    var data: seq<byte> := [0x01, 0x00, 0xF7, 0xD1, 0x00, 0x00];
    HeartbeatSample();
    var r := HeartBeat.TryFrom(data);
    var heartbeat := r.value;
    var before := heartbeat.Raw();
    assert before[TIME_STAMP_MSB] == 0 && before[TIME_STAMP] == 0xF7D1;
    TimeStampSample();
    timeStamp := heartbeat.GetTimeStamp();
    heartbeat.SetTimeStamp(53751);
    assert heartbeat.Raw() == before;
    encoded := heartbeat.ToBytes();
  }

  /** A default record with the initialised flag set and time stamp 53751
      reports 53751 and encodes as 01 00 F7 D1 00 00. */
  method BuildEncode() returns (timeStamp: u32, encoded: seq<byte>)
    ensures timeStamp == 53751
    ensures encoded == [0x01, 0x00, 0xF7, 0xD1, 0x00, 0x00]
  {
    var heartbeat := new HeartBeat();
    heartbeat.uatInitialized := true;
    heartbeat.SetTimeStamp(53751);
    TimeStampSample();
    timeStamp := heartbeat.GetTimeStamp();
    SampleFlags();
    HeartbeatSample();
    assert heartbeat.Raw() == [0, 0, 0, 0, 0, 0, 0, 1] + [0, 0, 0, 0, 0, 0, 0, 0] + [0xF7D1, 0];
    encoded := heartbeat.ToBytes();
  }

  /** A default record with the position-valid, initialised and extension
      flags set and raw time stamp 32018. */
  method BuildFlagged() returns (heartbeat: HeartBeat)
    ensures fresh(heartbeat)
    ensures heartbeat.Raw() == [1, 0, 0, 0, 0, 0, 0, 1] + [1, 0, 0, 0, 0, 0, 0, 0] + [32018, 0]
  {
    heartbeat := new HeartBeat();
    heartbeat.gpsPosValid := true;
    heartbeat.uatInitialized := true;
    heartbeat.timeStampMsb := true;
    heartbeat.timeStamp := 32018;
    assert heartbeat.Raw()
      == FlagsRaw(true, false, false, false, false, false, false, true)
       + FlagsRaw(true, false, false, false, false, false, false, false) + [32018, 0];
    SampleFlags();
  }

  /** Decoding 81 80 7D 12 00 00 gives the same record as the one built
      above, which encodes as those bytes. */
  method DecodeMatchesBuilt() returns (decoded: seq<nat>, built: seq<nat>, encoded: seq<byte>)
    ensures decoded == built
    ensures built == [1, 0, 0, 0, 0, 0, 0, 1] + [1, 0, 0, 0, 0, 0, 0, 0] + [32018, 0]
    ensures encoded == [0x81, 0x80, 0x7D, 0x12, 0x00, 0x00]
  {
    var data: seq<byte> := [0x81, 0x80, 0x7D, 0x12, 0x00, 0x00];
    HeartbeatFlaggedSample();
    var r := HeartBeat.TryFrom(data);
    decoded := r.value.Raw();
    var heartbeat := BuildFlagged();
    built := heartbeat.Raw();
    encoded := heartbeat.ToBytes();
  }
}
