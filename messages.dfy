/** The codec entry points that join the frame transport to the payloads:
    building a message for a payload, and decoding the payload a message
    carries by its id. */
module Messages {
  import opened Common
  import Packing
  import opened Crc16
  import opened Framing
  import opened Extended
  import opened Payloads
  import Heartbeats
  import Reports
  import Geometric

  /** The message for a payload (Rust `create_message`): its id, its bytes
      and the checksum over the id followed by the bytes. */
  function CreateMessage(p: Payload): (m: Message)
    reads Objects(p)
    ensures m.messageId == GetMessageId(p) && m.data == ToBytes(p)
    ensures ChecksumValid(m)
  {
    var data := ToBytes(p);
    var id := GetMessageId(p);
    Message(id, data, Crc([id] + data))
  }

  /** What decoding `data` under message id `id` yields when it succeeds:
      the record of the variant the id names, holding the raw values the
      bytes unpack to, or for an id the decoder does not know, the id and
      the bytes themselves. */
  predicate Decodes(p: Payload, id: byte, data: seq<byte>)
    reads Objects(p)
  {
    if id == HEARTBEAT_ID then
      p.HeartBeat? && Packing.Unpack(Heartbeats.HEARTBEAT_LAYOUT, data) == Ok(p.heartbeat.Raw())
    else if id == OWNERSHIP_REPORT_ID then
      p.OwnershipReport? && Packing.Unpack(Reports.REPORT_LAYOUT, data) == Ok(p.report.Raw())
    else if id == TRAFFIC_REPORT_ID then
      p.TrafficReport? && Packing.Unpack(Reports.REPORT_LAYOUT, data) == Ok(p.report.Raw())
    else if id == OWNERSHIP_GEOMETRIC_ALTITUDE then
      p.OwnershipGeometricAltitude? && Packing.Unpack(Geometric.GEOMETRIC_LAYOUT, data) == Ok(p.geometric.Raw())
    else if id == EXTENDED_X65 then
      p.ExtendedX65? && SubMessageTryFrom(data) == Ok(p.sub)
    else
      p == Unknown(id, data)
  }

  /** The error decoding `data` under message id `id` fails with, if it
      fails: the record reader's error; an unknown id never fails. */
  function DecodeError(id: byte, data: seq<byte>): (e: Option<Error>)
    ensures !KnownId(id) ==> e.None?
  {
    var r :=
      if id == HEARTBEAT_ID then Packing.Unpack(Heartbeats.HEARTBEAT_LAYOUT, data)
      else if id == OWNERSHIP_REPORT_ID || id == TRAFFIC_REPORT_ID then Packing.Unpack(Reports.REPORT_LAYOUT, data)
      else if id == OWNERSHIP_GEOMETRIC_ALTITUDE then Packing.Unpack(Geometric.GEOMETRIC_LAYOUT, data)
      else Ok([]);
    if id == EXTENDED_X65 then
      (if SubMessageTryFrom(data).Err? then Some(SubMessageTryFrom(data).error) else None)
    else if r.Err? then Some(r.error) else None
  }

  /** Decodes the payload of a message by its id (Rust `get_payload`). */
  method GetPayload(m: Message) returns (r: Result<Payload>)
    ensures r.Ok? <==> DecodeError(m.messageId, m.data).None?
    ensures r.Err? ==> r.error == DecodeError(m.messageId, m.data).value
    ensures r.Ok? ==> Decodes(r.value, m.messageId, m.data) && fresh(Objects(r.value))
  {
    var id := m.messageId;
    if id == HEARTBEAT_ID {
      var h := Heartbeats.HeartBeat.TryFrom(m.data);
      r := if h.Ok? then Ok(HeartBeat(h.value)) else Err(h.error);
    } else if id == OWNERSHIP_REPORT_ID {
      var report := Reports.Report.TryFrom(m.data);
      r := if report.Ok? then Ok(OwnershipReport(report.value)) else Err(report.error);
    } else if id == TRAFFIC_REPORT_ID {
      var report := Reports.Report.TryFrom(m.data);
      r := if report.Ok? then Ok(TrafficReport(report.value)) else Err(report.error);
    } else if id == OWNERSHIP_GEOMETRIC_ALTITUDE {
      var g := Geometric.OwnershipGeometricAltitude.TryFrom(m.data);
      r := if g.Ok? then Ok(OwnershipGeometricAltitude(g.value)) else Err(g.error);
    } else if id == EXTENDED_X65 {
      var sub := SubMessageTryFrom(m.data);
      r := if sub.Ok? then Ok(ExtendedX65(sub.value)) else Err(sub.error);
    } else {
      r := Ok(Unknown(id, m.data));
    }
  }

  /** Two payloads of the same variant holding the same record; an extended
      payload is compared after its sub id is set from its variant, which
      is what writing it does. */
  predicate SameRecord(p: Payload, q: Payload)
    reads Objects(p), Objects(q)
  {
    match p
    case HeartBeat(h) => q.HeartBeat? && q.heartbeat.Raw() == h.Raw()
    case OwnershipReport(r) => q.OwnershipReport? && q.report.Raw() == r.Raw()
    case TrafficReport(r) => q.TrafficReport? && q.report.Raw() == r.Raw()
    case OwnershipGeometricAltitude(g) => q.OwnershipGeometricAltitude? && q.geometric.Raw() == g.Raw()
    case ExtendedX65(sub) => q == ExtendedX65(WithVariantSubId(sub))
    case Unknown(id, data) => q == p
  }

  /** Decoding the message created for a known payload succeeds and gives
      the same record back, whenever the record's values fit their fields. */
  lemma CreateThenDecode(p: Payload, q: Payload)
    requires !p.Unknown? && Fitting(p)
    requires Decodes(q, GetMessageId(p), ToBytes(p))
    ensures DecodeError(GetMessageId(p), ToBytes(p)).None?
    ensures SameRecord(p, q)
  {
    match p
    case HeartBeat(h) =>
    case OwnershipReport(r) =>
    case TrafficReport(r) =>
    case OwnershipGeometricAltitude(g) =>
    case ExtendedX65(sub) =>
  }

  /** An unknown payload whose id the decoder does not know decodes as
      itself, and as nothing else. */
  lemma UnknownDecodes(id: byte, data: seq<byte>, q: Payload)
    requires !KnownId(id)
    ensures DecodeError(id, data).None?
    ensures Decodes(q, id, data) <==> q == Unknown(id, data)
  {}

  /** An unknown payload under a known id does not come back: the decoder
      reads the bytes as the record of the variant that id names. */
  lemma UnknownWithKnownId(id: byte, data: seq<byte>, q: Payload)
    requires KnownId(id) && Decodes(q, id, data)
    ensures !q.Unknown? && GetMessageId(q) == id
  {}

  /** Sending the message created for a payload and reading the frame back
      gives the same message, unless the payload's id is the escape marker
      0x7D, which only an unknown payload can have. */
  lemma CreateThenRead(p: Payload)
    requires GetMessageId(p) != ESCAPE
    ensures ReadMessage(Encoded(CreateMessage(p))) == Ok(CreateMessage(p))
  {
    ReadEncoded(CreateMessage(p));
  }

  lemma EscapeIdIsUnknown(p: Payload)
    requires GetMessageId(p) == ESCAPE
    ensures p.Unknown? && ReadMessage(Encoded(CreateMessage(p))) != Ok(CreateMessage(p))
  {
    EscapeIdBreaksRoundTrip(CreateMessage(p));
  }
}
