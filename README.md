# GDL 90 codec, modelled in Dafny

This project models the core of `gdl90codec`, a Rust library that encodes
and decodes GDL 90 messages. GDL 90 is the FAA's public data interface for
UAT traffic and weather receivers. The model covers four parts:

- **Frame transport** (module `Framing`, with `Crc16`). A message is
  - its id byte,
  - its payload bytes,
  - and a CRC-16 frame check sequence (polynomial 0x1021, initial value 0,
    table driven).

  It is sent between two 0x7E flags. Inside the frame, 0x7E and 0x7D are
  sent as 0x7D followed by the byte XOR 0x20. The id byte itself is not
  escaped. Modelled here: the table construction, the checksum loop, the
  encoder, the one-flag unescaper and the frame reader with its three
  errors.
- **Payload registry** (`Payloads`, `Messages`). A payload is one of the
  known records, the 0x65 extension container, or the raw bytes of a
  message whose id the decoder does not know. Modelled here:
  - the id of each variant;
  - the byte writer;
  - `create_message`;
  - `get_payload`, which picks the record reader by the message id.
- **The ForeFlight 0x65 extension** (`Extended`): the identification and
  AHRS sub-messages and the container that dispatches on the sub id. Also
  modelled: the in-place write of the sub id and the NUL-terminated device
  name scans.
- **Fixed-layout records** (`Heartbeats`, `Reports`, `Geometric`), packed
  by one generic packer (`Packing`). That packer stands in for the `deku`
  derive: fields are written most significant bit first, big-endian, and a
  short input fails with `Incomplete`. A record is modelled as:
  - an ordered list of field widths;
  - a class holding the fields;
  - the integer getter and setter transforms. These are:
    - sentinels;
    - 12- and 24-bit sign extension;
    - scaled altitudes;
    - enums read by ordinal from a variant table;
    - the byte-swapped heartbeat time stamp.

Values are unbounded integers restricted by newtypes (`byte`, `u16`, `u32`,
`u64`, `i16`, `i32`). Rust's wrap-around casts, truncating division and
two's-complement patterns are written out explicitly. Rust panics are
preconditions:
- an arithmetic overflow;
- an out-of-range enum table index;
- writing the sub id into an empty buffer.

The model follows the code where it differs from what a reader of the
interface would expect:
- the message id is not escaped (`src/message.rs:48`);
- a trailing lone 0x7D is dropped without an error;
- the vertical velocity setter stores its argument without dividing by 64;
- `AddressType` has 15 variants and `EmitterCategory` has 40;
- the long device name is cut at the terminator of the short name;
- the time stamp's extension flag is bit 17, not bit 16;
- the 0x65 writer overwrites byte 0 with the variant's sub id.

## Model

| member | source | states |
|---|---|---|
| Common.TruncDiv | src/report.rs:207 | Rust's signed `/` by a positive divisor: the quotient rounds toward zero. For a ≥ 0, q·d ≤ a < q·d + d; for a < 0, q·d − d < a ≤ q·d ≤ 0. |
| Common.AsI16 | src/report.rs:145-148 | `as i16` on a 16-bit pattern: the unique i16 congruent to the pattern modulo 2^16. |
| Common.AsI32 | src/report.rs:220-224 | `as i32` on a 32-bit pattern: the unique i32 congruent to the pattern modulo 2^32. |
| Common.DecimalString | src/extended.rs:102 | The `{id}` rendering: a non-empty string of decimal digits that spell n (by `DigitsValue`), with no leading zero. |
| Crc16.CreateCrcTable | src/message.rs:15-34 | The table the nested loops build has 256 entries. Entry i is i shifted into the high byte, clocked eight times through the 16-bit 0x1021 register. |
| Crc16.Checksum | src/message.rs:140-146 | The table-driven loop returns the CRC of the data: the left fold of the table step, started from 0. |
| Crc16.FoldAppend | src/message.rs:103-104 | The checksum of a + b is the fold over b, started from the register left by a. So id then payload can be summed as one chain. |
| Crc16.HeartbeatChecksum | src/message.rs:173-180 | The checksum of 00 81 41 DB D0 08 02 is 0x8BB3, sent as B3 8B. |
| Framing.Xor20Involution | src/message.rs:53 | Toggling bit 5 twice gives the byte back. |
| Framing.EscapeByte | src/message.rs:50-57 | 0x7E and 0x7D become 0x7D then the byte XOR 0x20. Any other byte goes out as itself. The result never contains 0x7E. |
| Framing.EscapeNoFlag | src/message.rs:50-66 | Escaped bytes never contain 0x7E. The escaped form is between one and two times as long as the input. |
| Framing.EscapeAppend | src/message.rs:50-66 | Escaping a concatenation is the concatenation of the escapes. |
| Framing.EscapePlain | src/message.rs:50-57 | A sequence with no 0x7E or 0x7D is sent unchanged. |
| Framing.LeBytes | src/message.rs:59 | The checksum as two bytes, low byte first. |
| Framing.FromLeBytes | src/message.rs:119-121 | The checksum two bytes claim, low byte first; it is the inverse of LeBytes. |
| Framing.PushEscaped | src/message.rs:51-56 | Appends one byte as it goes on the wire. |
| Framing.Encode | src/message.rs:45-70 | The loops write: the flag, the id unescaped, the escaped payload, the escaped checksum low byte first, and the flag. |
| Framing.RunAppend | src/message.rs:148-165 | Unescaping a + b continues from the state unescaping a left. |
| Framing.RunLength | src/message.rs:148-165 | Each byte read adds at most one byte to the output. |
| Framing.UnescapedShorter | src/message.rs:148-165 | `unescape` never outputs more bytes than it reads. |
| Framing.TrailingEscapeDropped | src/message.rs:151-164 | A final lone 0x7D adds nothing to the output and raises no error; it only leaves the escape flag set. |
| Framing.RunEscape | src/message.rs:50-66 | Feeding an escaped sequence to the unescaper, with no escape pending, emits exactly that sequence and ends with no escape pending. |
| Framing.UnescapeEscape | src/message.rs:148-165 | unescape(escape(s)) == s for every byte sequence s. |
| Framing.Unescape | src/message.rs:148-165 | The loop with the `is_escape` flag returns the output of the unescaping state machine. |
| Framing.SplitUnstuffed | src/message.rs:117-122 | At least three unescaped bytes split into the id, the payload and the two checksum bytes, and join back into the same bytes. |
| Framing.BuildMessage | src/message.rs:114-138 | Fewer than 3 unescaped bytes give IncorrectlyFormatted. Otherwise the result is Ok exactly when the CRC over all but the last two bytes equals the little-endian value they claim. A mismatch gives ChecksumMismatch(computed, claimed). Ok carries the first byte as the id, the bytes in between as the data, and a valid checksum. |
| Framing.ReadMessage | src/message.rs:90-96 | An empty input gives EmptyData. A one-byte input, or one that does not start and end with 0x7E, gives IncorrectlyFormatted. Otherwise the result is BuildMessage of the interior. Every message it returns has a valid checksum. |
| Framing.EncodedBody | src/message.rs:45-70 | The encoding starts and ends with 0x7E. Between them come the id and the escaped payload and checksum. |
| Framing.UnstuffedParts | src/message.rs:117-133 | The unescaped frame of m has at least 3 bytes: m's id first, m's data in the middle, and m's checksum claimed by the last two. |
| Framing.BuildUnstuffed | src/message.rs:114-138 | A body that unescapes to the frame of a checksum-valid message builds that message. |
| Framing.UnescapePlainHead | src/message.rs:48 | An id other than 0x7D followed by escaped bytes unescapes to the id followed by those bytes. |
| Framing.ReadEncoded | src/message.rs:45-138 | Round trip: read_message(encode(m)) == Ok(m) for every checksum-valid m whose id is not 0x7D. |
| Framing.EscapeThenByte | src/message.rs:48-57 | When the id is 0x7D, the unescaper takes it for a marker and it swallows the first byte sent after it. |
| Framing.EscapeIdBody | src/message.rs:45-70 | When the id is 0x7D, the interior is the id, then the first escaped payload or checksum byte, then the rest. |
| Framing.EscapeIdBreaksRoundTrip | src/message.rs:48 | A message whose id is 0x7D never reads back as itself, because the id byte is not escaped. |
| Framing.EncodedFlagsAtEnds | src/message.rs:45-70 | No 0x7E appears in an encoded frame after the id and before the closing flag. |
| Framing.HeartbeatFrameRoundTrip | src/message.rs:183-189 | 7E 00 81 41 DB D0 08 02 B3 8B 7E reads as id 0, payload 81 41 DB D0 08 02 and checksum 0x8BB3, and encodes back to the same bytes. |
| Packing.Concat | src/report.rs:6-7 | The record as one number, fields most significant first, each cut to its width. The number fits the total width. |
| Packing.Split | src/report.rs:6-7 | The raw values read back from a number, each fitting its field. |
| Packing.SplitConcat | src/report.rs:6-7 | Splitting the number of fitting raw values gives them back. |
| Packing.ConcatSplit | src/report.rs:6-7 | Joining the split values of a number that fits the width gives the number back. |
| Packing.FromToBytes | src/report.rs:6-7 | Big-endian bytes of n read back as n, for every n that fits. |
| Packing.ToFromBytes | src/report.rs:6-7 | Reading bytes as a number and writing it back at the same length gives the bytes. |
| Packing.Pack | src/report.rs:6-7 | The bytes written cover the layout's width exactly. |
| Packing.Unpack | src/report.rs:6-7 | Reading succeeds exactly when the input covers the layout. Success gives values that fit their fields. Failure is Incomplete with the width of a field of the layout. |
| Packing.UnpackPack | src/report.rs:6-7 | Fitting raw values survive a write and a read. |
| Packing.UnpackPackTruncates | src/report.rs:6-7 | A value wider than its field reads back cut to its low bits. |
| Packing.PackUnpack | src/report.rs:6-7 | Writing what was read gives back the bytes the layout covers; the rest is ignored. |
| Packing.TotalBitsAppend | src/report.rs:8-61 | The width of two joined layouts is the sum of their widths. |
| Packing.ConcatAppend | src/report.rs:8-61 | The number of two joined records is the first shifted over the second. |
| Packing.FromBytesAppend | src/report.rs:6-7 | The number of two joined byte runs is the first shifted over the second. |
| Packing.JoinPieces | src/report.rs:8-61 | Two byte runs that each hold a part of a record together hold the joined record. |
| Packing.UnpackExact | src/report.rs:6-7 | Bytes whose number is the number of fitting values read as those values, and the values write as those bytes. |
| Packing.FlagsByte | src/heartbeat.rs:7-29 | Eight one-bit fields make one byte, the first field the most significant bit. |
| Packing.UnpackFirstByte | src/extended.rs:13-14 | When the first field is 8 bits wide, the first raw value read is the first input byte. |
| Packing.UnpackSetFirstByte | src/extended.rs:113-116 | Replacing the first byte replaces the first raw value and no other. |
| Packing.ByteValuesInjective | src/extended.rs:17-18 | Byte arrays with the same raw values are equal. |
| Packing.ConcatBytes | src/extended.rs:17-18 | A run of byte-wide fields holds the number of its bytes. |
| Heartbeats.HeartbeatBits | src/heartbeat.rs:4-60 | The layout is 16 one-bit flags and two 16-bit words: 48 bits, 6 bytes. |
| Heartbeats.HeartbeatFieldBounds | src/heartbeat.rs:4-60 | Fitting raw values are 16 flags of 0 or 1 and two 16-bit words. |
| Heartbeats.SwapBytes | src/heartbeat.rs:67 | The 16-bit value with its two bytes exchanged. |
| Heartbeats.SwapBytesInvolution | src/heartbeat.rs:67-73 | Swapping twice gives the value back. |
| Heartbeats.TimeStampFromRaw | src/heartbeat.rs:63-69 | With the extension flag set the time stamp is 2^17 plus the raw value as stored. It is then at least 2^16, and it is below 2^16 without the flag. Without the flag it is the raw value with its bytes swapped back. |
| Heartbeats.TimeStampSetGet | src/heartbeat.rs:63-74 | A set then a get behaves as follows. Without bit 17, the low 16 bits come back and bit 16 is lost. With bit 17, the value comes back as 2^17 over the low bits still swapped. |
| Heartbeats.TimeStampRoundTrip | src/heartbeat.rs:63-74 | Every value below 2^16 survives a set and a get. |
| Heartbeats.TimeStampRawRoundTrip | src/heartbeat.rs:63-74 | Every stored value without the flag survives a get and a set. |
| Heartbeats.TimeStampSample | src/heartbeat.rs:84-94 | 53751 is stored as 0xF7D1, and 0xF7D1 reads as 53751. |
| Heartbeats.TimeStampSamples | src/heartbeat.rs:128-134 | 53236 survives a set and a get. Flagged raw 32018 reads as 163090. 70000 reads back as 4464. 0x20001 reads back as 0x20100. |
| Heartbeats.HeartBeat.TryFrom | src/heartbeat.rs:4-6 | Reading succeeds exactly when there are at least 6 bytes. The fresh record holds the raw values the bytes unpack to; the error is the packer's. |
| Heartbeats.HeartBeat.ToBytes | src/heartbeat.rs:4-6 | Six bytes that read back as the record. |
| Heartbeats.HeartBeat.RawFits | src/heartbeat.rs:4-60 | Every state of the record fits its layout. |
| Heartbeats.HeartBeat.SetTimeStamp | src/heartbeat.rs:71-74 | Stores bit 17 in the extension flag and the swapped low 16 bits in the time stamp; no other field changes. Values below 2^16 read back unchanged. |
| Heartbeats.HeartbeatSample | src/heartbeat.rs:84-94 | 01 00 F7 D1 00 00 reads as only the initialised flag set with raw time stamp 0xF7D1, and writes back the same way. |
| Heartbeats.HeartbeatFlaggedSample | src/heartbeat.rs:111-126 | 81 80 7D 12 00 00 reads as position-valid, initialised and extension flags set with raw time stamp 32018, and writes back the same way. |
| Heartbeats.DecodeSetEncode | src/heartbeat.rs:84-94 | Decoding the sample reports 53751. Setting 53751 and encoding gives the same bytes. |
| Heartbeats.BuildEncode | src/heartbeat.rs:97-108 | A default record with the initialised flag and time stamp 53751 reports 53751 and encodes as 01 00 F7 D1 00 00. |
| Heartbeats.DecodeMatchesBuilt | src/heartbeat.rs:111-126 | Decoding 81 80 7D 12 00 00 gives the raw values of the record built by hand: GPS position valid, UAT initialised, time stamp msb set, time stamp 32018. That record encodes as those bytes. |
| Geometric.GeometricBits | src/geometric.rs:4-14 | The layout is 16 + 1 + 15 bits, 4 bytes. |
| Geometric.GeometricFits | src/geometric.rs:4-14 | Fitting raw values are a 16-bit altitude, a flag and a 15-bit figure of merit. |
| Geometric.GeoAltitudeFromRaw | src/geometric.rs:18-20 | The altitude is a multiple of 5 below 2^16. The 16-bit product overflows above raw 13107, and that is a precondition here. |
| Geometric.GeoAltitudeSetGet | src/geometric.rs:18-25 | For every value up to 65535, a set then a get gives the value minus its remainder mod 5. |
| Geometric.GeoAltitudeRoundTrip | src/geometric.rs:18-25 | Multiples of 5 up to 65535 survive a set and a get. |
| Geometric.GeoAltitudeRawRoundTrip | src/geometric.rs:18-25 | Every raw value the getter accepts survives a get and a set. |
| Geometric.GeoAltitudeWraps | src/geometric.rs:23-25 | 170 ft is stored as 34. 327680 ft wraps to 0. |
| Geometric.FigureOfMeritFromRaw | src/geometric.rs:38-44 | None exactly for raw 0x7FFF; otherwise the raw value. |
| Geometric.FigureOfMeritToRaw | src/geometric.rs:47-53 | None stores 0x7FFF; Some(v) stores v as is. |
| Geometric.FigureOfMeritRoundTrip | src/geometric.rs:38-53 | None, and every value other than 0x7FFF, survive a set and a get. Some(0x7FFF) reads back as None. |
| Geometric.FigureOfMeritRawRoundTrip | src/geometric.rs:38-53 | Every raw value survives a get and a set. |
| Geometric.OwnershipGeometricAltitude.TryFrom | src/geometric.rs:4-6 | Reading succeeds exactly when there are at least 4 bytes. The fresh record holds the unpacked values; the error is the packer's. |
| Geometric.OwnershipGeometricAltitude.ToBytes | src/geometric.rs:4-6 | Four bytes that read back as the record whenever the figure of merit fits its 15 bits. |
| Geometric.OwnershipGeometricAltitude.SetOwnshipGeoAltitude | src/geometric.rs:23-25 | Stores the value divided by 5, cut to 16 bits; the other fields are unchanged. |
| Geometric.OwnershipGeometricAltitude.SetVerticalWarningIndicator | src/geometric.rs:28-35 | The getter then returns the value; the other fields are unchanged. |
| Geometric.OwnershipGeometricAltitude.SetVerticalFigureOfMerit | src/geometric.rs:47-53 | Stores the raw value of the figure of merit; the other fields are unchanged. |
| Geometric.GeometricSample | src/geometric.rs:62-75 | 00 22 00 75 reads as altitude 34, warning clear and figure of merit 117, and writes back the same way. |
| Geometric.BuildSample | src/geometric.rs:62-75 | A default record with altitude 170 and figure of merit Some(117) holds raw values 34, 0 and 117. |
| Geometric.DecodeMatchesBuilt | src/geometric.rs:62-75 | Decoding 00 22 00 75 gives the raw values [34, 0, 117] of the built record (altitude 170 ft, no warning, FOM 117). That record encodes as those bytes. |
| Reports.ReportBits | src/report.rs:8-61 | The layout is 216 bits, 27 bytes. |
| Reports.ReportFieldBounds | src/report.rs:8-61 | Each fitting raw value fits the width of its field. |
| Reports.CallsignFromRaw | src/report.rs:54 | Eight byte values as a call sign whose raw values are those values. |
| Reports.NIC.Ordinal | src/report.rs:234-252 | The variant's position in declaration order; the table entry at that position is the variant. |
| Reports.NICOrdinalOfVariant | src/report.rs:104-106 | The table lists each of the 16 variants once: the variant at i has ordinal i. |
| Reports.NACp.Ordinal | src/report.rs:254-272 | As for NIC, over 16 variants. |
| Reports.NACpOrdinalOfVariant | src/report.rs:108-110 | The variant at i has ordinal i. |
| Reports.EmergencyPriorityCode.Ordinal | src/report.rs:274-292 | As for NIC, over 16 variants. |
| Reports.EmergencyPriorityCodeOrdinalOfVariant | src/report.rs:158-160 | The variant at i has ordinal i. |
| Reports.EmitterCategory.Ordinal | src/report.rs:294-336 | As for NIC, over 40 variants. |
| Reports.EmitterCategoryOrdinalOfVariant | src/report.rs:154-156 | The variant at i has ordinal i, for i below 40. |
| Reports.FlightStage.Ordinal | src/report.rs:338-342 | As for NIC, over 2 variants. |
| Reports.FlightStageOrdinalOfVariant | src/report.rs:100-102 | The variant at i has ordinal i. |
| Reports.ReportType.Ordinal | src/report.rs:344-348 | As for NIC, over 2 variants. |
| Reports.ReportTypeOrdinalOfVariant | src/report.rs:96-98 | The variant at i has ordinal i. |
| Reports.HeadingType.Ordinal | src/report.rs:350-356 | As for NIC, over 4 variants. |
| Reports.HeadingTypeOrdinalOfVariant | src/report.rs:92-94 | The variant at i has ordinal i. |
| Reports.AddressType.Ordinal | src/report.rs:358-375 | As for NIC, over 15 variants. |
| Reports.AddressTypeOrdinalOfVariant | src/report.rs:88-90 | The variant at i has ordinal i, for i below 15. |
| Reports.TrafficAlertStatus.Ordinal | src/report.rs:377-395 | As for NIC, over 16 variants. |
| Reports.TrafficAlertStatusOrdinalOfVariant | src/report.rs:84-86 | The variant at i has ordinal i. |
| Reports.EnumTablesCoverFields | src/report.rs:9-57 | These tables cover every value their field can hold: traffic alert status, NIC, NACp, emergency code, heading type, report type and flight stage. The 4-bit address type has only 15 variants, so raw 15 is out of bounds. The 8-bit emitter category has only 40. |
| Reports.AltitudeFromRaw | src/report.rs:80-82 | Feet plus 1000 is 25 times the raw value. |
| Reports.AltitudeRoundTrip | src/report.rs:206-208 | An altitude v where v + 1000 is a multiple of 25 in [0, 4095 * 25] survives a set and a get, and is stored within 12 bits. |
| Reports.AltitudeRawRoundTrip | src/report.rs:206-208 | Every 16-bit raw value survives a get and a set. |
| Reports.AltitudeBelowOffset | src/report.rs:206-208 | Division rounds toward zero and the cast wraps: -1010 ft is stored as 0 and -1025 ft as 0xFFFF. |
| Reports.HorizontalVelocityFromRaw | src/report.rs:112-118 | None exactly when raw is at least 0xFFF; otherwise the raw value. |
| Reports.HorizontalVelocityToRaw | src/report.rs:128-138 | The stored value is at most 0xFFF. |
| Reports.HorizontalVelocityRoundTrip | src/report.rs:112-138 | Speeds below 0xFFF survive a set and a get. None and larger speeds are both stored as 0xFFF and read as None. |
| Reports.HorizontalVelocityRawRoundTrip | src/report.rs:112-138 | Every 12-bit raw value survives a get and a set. |
| Reports.VerticalValue | src/report.rs:145-149 | A 12-bit raw value read as an i16, sign-extended on bit 11. |
| Reports.VerticalVelocityFromRaw | src/report.rs:140-152 | None exactly for raw 0x800, otherwise 64 times the sign-extended value. The i16 product overflows outside [-512, 511], and that is a precondition here. |
| Reports.VerticalVelocityToRaw | src/report.rs:178-184 | The stored value is a 12-bit value. |
| Reports.VerticalVelocitySetGet | src/report.rs:178-184 | The setter stores its argument unscaled. For v in [-512, 511], get(set(Some(v))) is Some(64 * v). |
| Reports.VerticalVelocityNone | src/report.rs:178-184 | None is stored as 0x800 and reads back as None. |
| Reports.VerticalVelocityRawRoundTrip | src/report.rs:178-184 | Storing a 12-bit raw value's sign extension gives the raw value back. |
| Reports.VerticalVelocitySamples | src/report.rs:432 | Raw 0xFFF reads as -64. Setting -64 stores 0xFC0, which reads as -4096. |
| Reports.LatLongFraction | src/report.rs:219-224 | For a 24-bit value, the signed fraction sign-extended on bit 23. |
| Reports.LatLongMask | src/report.rs:229-232 | The low 24 bits of the two's-complement form. |
| Reports.LatLongMaskFraction | src/report.rs:219-232 | Masking undoes the sign extension for every 24-bit value. |
| Reports.LatLongFractionMask | src/report.rs:219-232 | Sign extension undoes the masking for every fraction in [-2^23, 2^23). |
| Reports.LatLongSamples | src/report.rs:450-471 | 2395560 is the fraction 2395560 and 16756978 is -20238, and both come back through the mask. |
| Reports.Report.TryFrom | src/report.rs:6-8 | Reading succeeds exactly when there are at least 27 bytes. The fresh record holds the unpacked values; the error is the packer's. |
| Reports.Report.ToBytes | src/report.rs:6-8 | 27 bytes that read back as the record whenever its raw values fit. |
| Reports.Report.SetCallsign | src/report.rs:68-70 | The getter then returns the call sign; the other fields are unchanged. |
| Reports.Report.SetLatitudeFraction | src/report.rs:210-212 | Stores the masked fraction; the other fields are unchanged. A fraction in the 24-bit range reads back unchanged. |
| Reports.Report.SetLongitudeFraction | src/report.rs:214-216 | As for the latitude, on the longitude field. |
| Reports.Report.SetAltitude | src/report.rs:206-208 | Stores (v + 1000) / 25 rounded toward zero, as a u16; the other fields are unchanged. |
| Reports.Report.SetHorizontalVelocity | src/report.rs:128-138 | Stores the capped speed; the other fields are unchanged. |
| Reports.Report.SetVerticalVelocity | src/report.rs:178-184 | Stores the low 12 bits unscaled, or 0x800; the other fields are unchanged. |
| Reports.Report.GetTrafficAlertStatus | src/report.rs:84-86 | The variant whose ordinal the field holds. |
| Reports.Report.SetTrafficAlertStatus | src/report.rs:202-204 | Stores the variant's ordinal, so the getter returns the variant; the other fields are unchanged. |
| Reports.Report.GetAddressType | src/report.rs:88-90 | The variant whose ordinal the field holds; raw 15 is out of bounds. |
| Reports.Report.SetAddressType | src/report.rs:198-200 | Stores the ordinal, so the getter returns the variant. |
| Reports.Report.GetHeadingType | src/report.rs:92-94 | The variant whose ordinal the field holds. |
| Reports.Report.SetHeadingType | src/report.rs:194-196 | Stores the ordinal, so the getter returns the variant. |
| Reports.Report.GetReportType | src/report.rs:96-98 | The variant whose ordinal the field holds. |
| Reports.Report.SetReportType | src/report.rs:190-192 | Stores the ordinal, so the getter returns the variant. |
| Reports.Report.GetFlightStage | src/report.rs:100-102 | The variant whose ordinal the field holds. |
| Reports.Report.SetFlightStage | src/report.rs:186-188 | Stores the ordinal, so the getter returns the variant. |
| Reports.Report.GetNavigationIntegrityCategory | src/report.rs:104-106 | The variant whose ordinal the field holds. |
| Reports.Report.SetNavigationIntegrityCategory | src/report.rs:170-172 | Stores the ordinal, so the getter returns the variant. |
| Reports.Report.GetNavigationAccuracyCategoryForPosition | src/report.rs:108-110 | The variant whose ordinal the field holds. |
| Reports.Report.SetNavigationAccuracyCategoryForPosition | src/report.rs:174-176 | Stores the ordinal, so the getter returns the variant. |
| Reports.Report.GetEmitterCategory | src/report.rs:154-156 | The variant whose ordinal the field holds; raw 40 and up are out of bounds. |
| Reports.Report.SetEmitterCategory | src/report.rs:166-168 | Stores the ordinal, so the getter returns the variant. |
| Reports.Report.GetEmergencyPriorityCode | src/report.rs:158-160 | The variant whose ordinal the field holds. |
| Reports.Report.SetEmergencyPriorityCode | src/report.rs:162-164 | Stores the ordinal, so the getter returns the variant. |
| Reports.ReportSample | src/report.rs:410-415 | The 27 test bytes unpack to exactly the 25 raw fields of the sample, and those fields pack back to exactly the 27 bytes. |
| Reports.ReportSampleCategories | src/report.rs:417-443 | The test bytes unpack to the raw fields of the sample, which read as: NoAlert, ADSBWithICAOAddress, Airborne, ReportIsUpdated, Lt0_1NM, HFOMlt30mAndVFOMlt45m, Heavy and NoEmergency. |
| Reports.ReportSampleValues | src/report.rs:417-432 | The raw fields the test bytes unpack to read as address 0x40AABB, 7975 ft, 260 kt, -64 ft/min and call sign "TEST    ". |
| Extended.IdBits | src/extended.rs:13-28 | The identification layout is 304 bits, 38 bytes. |
| Extended.IdMessage.GetDeviceName | src/extended.rs:31-40 | The name bytes before the first zero byte, or all 8 when there is none. |
| Extended.IdMessage.GetDeviceLongName | src/extended.rs:42-51 | The long-name bytes up to the first zero byte of the short name, so never more than 8. |
| Extended.NameEnd | src/extended.rs:32-38 | The loop with its break returns the index of the first zero byte, or the length. |
| Extended.IdFieldBounds | src/extended.rs:13-28 | Fitting raw values fit their Rust types and bit widths. |
| Extended.IdRawFits | src/extended.rs:20-27 | A message fits the layout exactly when its 1-, 2- and 29-bit fields fit. |
| Extended.IdFromRaw | src/extended.rs:11-28 | The message holding the given fitting raw values. |
| Extended.IdRawInjective | src/extended.rs:11-28 | Messages with the same raw values are equal. |
| Extended.IdRawRoundTrip | src/extended.rs:11-28 | Every fitting message survives a trip through its raw values. |
| Extended.IdTryFrom | src/extended.rs:118-121 | Reading succeeds exactly when there are at least 38 bytes; the sub id read is the first byte. The error is the packer's. |
| Extended.IdToBytes | src/extended.rs:11-12 | 38 bytes that read back as the message when it fits. |
| Extended.AhrsBits | src/extended.rs:55-71 | The AHRS layout is 88 bits, 11 bytes. |
| Extended.AhrsFieldBounds | src/extended.rs:55-71 | Fitting raw values fit their fields. |
| Extended.AhrsRawFits | src/extended.rs:62-66 | A record fits exactly when its 1- and 15-bit fields fit. |
| Extended.AhrsFromRaw | src/extended.rs:55-71 | The record holding the given fitting raw values; roll and pitch are read as two's complement. |
| Extended.AhrsRawInjective | src/extended.rs:55-71 | Records with the same raw values are equal. |
| Extended.AhrsRawRoundTrip | src/extended.rs:55-71 | Every fitting record survives a trip through its raw values. |
| Extended.AhrsTryFrom | src/extended.rs:123-126 | Reading succeeds exactly when there are at least 11 bytes; the sub id read is the first byte. |
| Extended.AhrsToBytes | src/extended.rs:55-56 | 11 bytes that read back as the record when it fits. |
| Extended.SetSubId | src/extended.rs:113-116 | Byte 0 becomes the sub id; the length and every other byte are unchanged. |
| Extended.WriteSubId | src/extended.rs:113-116 | The same write done in place on a buffer. |
| Extended.SubMessageToBytes | src/extended.rs:81-90 | Byte 0 is 0 for identification and 1 for AHRS, whatever sub id the record holds. The other bytes are the record's own. |
| Extended.SubMessageTryFrom | src/extended.rs:96-110 | An empty input gives a Parse error. Sub id 0 reads an identification message and 1 reads an AHRS record; each of these passes on its reader's error. Any other sub id gives a Parse error naming the id in decimal. |
| Extended.SubMessageRoundTrip | src/extended.rs:81-126 | Writing a fitting sub-message and reading it back gives the sub-message, with its sub id set from its variant. |
| Extended.IdRoundTrip | src/extended.rs:83-85 | A fitting identification message written with sub id 0 reads back with sub id 0. |
| Extended.IdRawSetSubId | src/extended.rs:14 | Changing the stored sub id changes only the first raw value. |
| Extended.AhrsRoundTrip | src/extended.rs:86-88 | A fitting AHRS record written with sub id 1 reads back with sub id 1. |
| Extended.SubMessageRoundTripExact | src/extended.rs:81-126 | A fitting sub-message whose record holds its variant's sub id survives exactly. |
| Extended.IdSample | src/extended.rs:134-143 | The 38-byte sample reads as sub id 0, version 1, serial 0x04030201, name and long name "SkyEcho" NUL-padded, and zero flags. |
| Extended.SubMessageSample | src/extended.rs:140-142 | The sample is an identification sub-message. |
| Extended.ParseIdSample | src/extended.rs:133-149 | Parsing the sample gives serial 0x04030201 and "SkyEcho" for both names. |
| Extended.SampleNameEnd | src/extended.rs:143-145 | The sample's name ends at index 7, and both names' prefixes up to there are "SkyEcho". |
| Payloads.GetMessageId | src/payload.rs:19-35 | The ids are 0, 10, 20, 11 and 0x65 for the known variants, each one only for its variant, and an unknown payload keeps its own id. |
| Payloads.ToBytes | src/payload.rs:37-46 | An unknown payload's bytes are its data. A heartbeat is 6 bytes, a report 27 and a geometric altitude 4, each reading back as the record whenever its values fit. An extension reads back as its sub-message with the variant's sub id. |
| Payloads.ReportsShareBytes | src/payload.rs:40-41 | Ownship and traffic reports of the same record are the same bytes under different ids. |
| Messages.CreateMessage | src/message.rs:99-112 | The message carries the payload's id and bytes, and a checksum over the id followed by the bytes. |
| Messages.DecodeError | src/message.rs:74-85 | The error get_payload fails with for an id and data; an unknown id never fails. |
| Messages.GetPayload | src/message.rs:73-86 | Fails exactly when the record reader the id selects fails, with that reader's error. On success it gives that id's variant holding what the bytes read as, or Unknown(id, data) for any other id. |
| Messages.CreateThenDecode | src/message.rs:74-112 | Decoding the message created for a fitting known payload succeeds and gives the same variant and record. |
| Messages.UnknownDecodes | src/message.rs:84 | For an id outside the five known ones, decoding never fails and gives exactly Unknown(id, data). |
| Messages.UnknownWithKnownId | src/message.rs:74-85 | Under any of the five known ids the decoder never gives an unknown payload: what it gives is the variant whose message id is that id. |
| Messages.CreateThenRead | src/message.rs:45-112 | Encoding the message created for a payload and reading the frame back gives the same message, unless the id is 0x7D. |
| Messages.EscapeIdIsUnknown | src/message.rs:99-112 | Only an unknown payload can have id 0x7D, and its message does not survive encoding and reading. |

## Left out

- Floating-point work is not modelled:
  - the degree scaling of latitude and longitude (`src/report.rs:226`, `230`);
  - the track heading getter and setter (`src/report.rs:120-126`).

  Only the 24-bit sign extension and masking around the scaling are modelled.
- UTF-8 validation is not modelled. The name getters and the call sign getter return the bytes that would be validated.
- Packing.Unpack: the model reads the expected prefix of an over-long input and ignores the rest. It does not reproduce `deku`'s other behaviour there.
- Packing.Pack: the model always succeeds and keeps a too-wide value's low bits. `deku` reports an error instead, so `create_message` and `to_bytes` returning an error are not modelled.
- The full error set of `deku` is reduced to the variants of `Common.Error`. The conversion from `DekuError` is left out; `src/error.rs` beyond the error variants is not part of this model.
- Rust panics are preconditions, not modelled failures. They are:
  - the u16 overflow in `get_ownship_geo_altitude`;
  - the i16 overflow in `get_vertical_velocity`;
  - the i32 overflow in `set_altitude`;
  - an enum table index outside the table;
  - `set_sub_id` on an empty buffer.
- Messages.GetPayload: the payload's known-record reader is described through the raw values its bytes unpack to (`Decodes`), not field by field.
- `CRC16_TABLE` is a compile-time constant in the source. Here `Crc16.Checksum` takes any table that `Crc16.CreateCrcTable` guarantees, since Dafny has no const evaluation of a method.
- The setters of the heartbeat's public flags and of the public report and identification fields are direct field writes in the source and have no members of their own.
- The decode example in `src/lib.rs` is not part of this model.
