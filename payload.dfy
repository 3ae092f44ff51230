/** The payload of a message: one of the four known records, the extended
    container, or the raw bytes of a message whose id the codec does not
    know. */
module Payloads {
  import opened Common
  import opened Packing
  import opened Extended
  import Heartbeats
  import Reports
  import Geometric

  const HEARTBEAT_ID: byte := 0
  const OWNERSHIP_REPORT_ID: byte := 10
  const TRAFFIC_REPORT_ID: byte := 20
  const OWNERSHIP_GEOMETRIC_ALTITUDE: byte := 11
  const EXTENDED_X65: byte := 0x65

  /** The ids the decoder knows. */
  predicate KnownId(id: byte) {
    id == HEARTBEAT_ID || id == OWNERSHIP_REPORT_ID || id == TRAFFIC_REPORT_ID
    || id == OWNERSHIP_GEOMETRIC_ALTITUDE || id == EXTENDED_X65
  }

  datatype Payload =
    | HeartBeat(heartbeat: Heartbeats.HeartBeat)
    | OwnershipReport(report: Reports.Report)
    | TrafficReport(report: Reports.Report)
    | OwnershipGeometricAltitude(geometric: Geometric.OwnershipGeometricAltitude)
    | ExtendedX65(sub: ExtendedX65SubMessage)
    | Unknown(id: byte, data: seq<byte>)

  /** The record objects a payload holds. */
  function Objects(p: Payload): set<object> {
    match p
    case HeartBeat(h) => {h}
    case OwnershipReport(r) => {r}
    case TrafficReport(r) => {r}
    case OwnershipGeometricAltitude(g) => {g}
    case ExtendedX65(_) => {}
    case Unknown(_, _) => {}
  }

  /** The message id of a payload: each known variant has its own id, and
      an unknown payload keeps the id it came with. */
  function GetMessageId(p: Payload): (id: byte)
    ensures p.Unknown? ==> id == p.id
    ensures !p.Unknown? ==> KnownId(id)
    ensures id == HEARTBEAT_ID && !p.Unknown? <==> p.HeartBeat?
    ensures id == OWNERSHIP_REPORT_ID && !p.Unknown? <==> p.OwnershipReport?
    ensures id == TRAFFIC_REPORT_ID && !p.Unknown? <==> p.TrafficReport?
    ensures id == OWNERSHIP_GEOMETRIC_ALTITUDE && !p.Unknown? <==> p.OwnershipGeometricAltitude?
    ensures id == EXTENDED_X65 && !p.Unknown? <==> p.ExtendedX65?
  {
    match p
    case HeartBeat(_) => HEARTBEAT_ID
    case OwnershipReport(_) => OWNERSHIP_REPORT_ID
    case TrafficReport(_) => TRAFFIC_REPORT_ID
    case OwnershipGeometricAltitude(_) => OWNERSHIP_GEOMETRIC_ALTITUDE
    case ExtendedX65(_) => EXTENDED_X65
    case Unknown(id, _) => id
  }

  /** Every raw value of the payload's record fits its field, so that the
      bytes written read back as the record. */
  predicate Fitting(p: Payload)
    reads Objects(p)
  {
    match p
    case HeartBeat(_) => true
    case OwnershipReport(r) => Fits(Reports.REPORT_LAYOUT, r.Raw())
    case TrafficReport(r) => Fits(Reports.REPORT_LAYOUT, r.Raw())
    case OwnershipGeometricAltitude(g) => g.verticalFigureOfMerit < 0x8000
    case ExtendedX65(sub) => SubMessageFits(sub)
    case Unknown(_, _) => true
  }

  /** The payload bytes of a message (Rust `to_bytes`): the record's own
      bytes, or the bytes an unknown payload carries, unchanged. */
  function ToBytes(p: Payload): (bytes: seq<byte>)
    reads Objects(p)
    ensures p.Unknown? ==> bytes == p.data
    ensures p.HeartBeat? ==>
      |bytes| == 6 && Unpack(Heartbeats.HEARTBEAT_LAYOUT, bytes) == Ok(p.heartbeat.Raw())
    ensures (p.OwnershipReport? || p.TrafficReport?) ==> |bytes| == 27
    ensures (p.OwnershipReport? || p.TrafficReport?) && Fitting(p) ==>
      Unpack(Reports.REPORT_LAYOUT, bytes) == Ok(p.report.Raw())
    ensures p.OwnershipGeometricAltitude? ==> |bytes| == 4
    ensures p.OwnershipGeometricAltitude? && Fitting(p) ==>
      Unpack(Geometric.GEOMETRIC_LAYOUT, bytes) == Ok(p.geometric.Raw())
    ensures p.ExtendedX65? && Fitting(p) ==> SubMessageTryFrom(bytes) == Ok(WithVariantSubId(p.sub))
  {
    match p
    case HeartBeat(h) => h.ToBytes()
    case OwnershipReport(r) => r.ToBytes()
    case TrafficReport(r) => r.ToBytes()
    case OwnershipGeometricAltitude(g) => g.ToBytes()
    case ExtendedX65(sub) =>
      if SubMessageFits(sub) then SubMessageRoundTrip(sub); SubMessageToBytes(sub)
      else SubMessageToBytes(sub)
    case Unknown(_, data) => data
  }

  /** An ownship report and a traffic report of the same record are the
      same bytes; only the message id tells them apart. */
  lemma ReportsShareBytes(r: Reports.Report)
    ensures ToBytes(OwnershipReport(r)) == ToBytes(TrafficReport(r))
    ensures GetMessageId(OwnershipReport(r)) != GetMessageId(TrafficReport(r))
  {}
}
