/** The ownship report (message id 10) and the traffic report (message id
    20) share one 27-byte record: alert status and address type, a 24-bit
    participant address, 24-bit latitude and longitude, a 12-bit pressure
    altitude in 25 ft steps offset by 1000 ft, miscellaneous indicators,
    integrity and accuracy categories, 12-bit horizontal and vertical
    velocity, track, emitter category, an 8-byte call sign and an emergency
    code.  The record keeps the raw field values; getters and setters
    convert between them and engineering values. */
module Reports {
  import opened Common
  import opened Packing

  /** The field widths of the record, in wire order, grouped into runs
      that fill whole bytes. */
  const REPORT_WIDTHS: Layout :=
      [4, 4, 24]          // alert status, address type, participant address
    + [24, 24]            // latitude, longitude
    + [12, 2, 1, 1]       // altitude; heading type, report type, flight stage
    + [4, 4]              // integrity and accuracy categories
    + [12, 12]            // horizontal and vertical velocity
    + [8, 8]              // track or heading, emitter category
    + BYTES_8             // call sign
    + [4, 4]              // emergency code, spare

  /** The same widths, known to fill whole bytes. */
  const REPORT_LAYOUT: ByteLayout := (ReportBits(); REPORT_WIDTHS)

  // Positions of the fields in REPORT_WIDTHS; the call sign takes 15 to 22.
  const TRAFFIC_ALERT_STATUS := 0
  const ADDRESS_TYPE := 1
  const PARTICIPANT_ADDRESS := 2
  const LATITUDE := 3
  const LONGITUDE := 4
  const ALTITUDE := 5
  const HEADING_TYPE := 6
  const REPORT_TYPE := 7
  const FLIGHT_STAGE := 8
  const NIC_FIELD := 9
  const NACP_FIELD := 10
  const HORIZONTAL_VELOCITY := 11
  const VERTICAL_VELOCITY := 12
  const TRACK_HEADING := 13
  const EMITTER_CATEGORY := 14
  const CALLSIGN := 15
  const EMERGENCY_PRIORITY_CODE := 23
  const RESERVED := 24

  /** The record is 216 bits, 27 bytes. */
  lemma ReportBits()
    ensures TotalBits(REPORT_WIDTHS) == 216
  {
    TotalBits3(4, 4, 24);
    TotalBits2(24, 24);
    TotalBits4(12, 2, 1, 1);
    TotalBits2(4, 4);
    TotalBits2(12, 12);
    TotalBits2(8, 8);
    Bytes8Bits();
    var front: Layout := [4, 4, 24];
    TotalBitsAppend(front, [24, 24]);
    front := front + [24, 24];
    TotalBitsAppend(front, [12, 2, 1, 1]);
    front := front + [12, 2, 1, 1];
    TotalBitsAppend(front, [4, 4]);
    front := front + [4, 4];
    TotalBitsAppend(front, [12, 12]);
    front := front + [12, 12];
    TotalBitsAppend(front, [8, 8]);
    front := front + [8, 8];
    TotalBitsAppend(front, BYTES_8);
    front := front + BYTES_8;
    TotalBitsAppend(front, [4, 4]);
    front := front + [4, 4];
    assert front == REPORT_WIDTHS;
  }

  type Callsign = s: seq<byte> | |s| == 8 witness [0, 0, 0, 0, 0, 0, 0, 0]

  /** The call sign's bytes as raw field values. */
  function CallsignRaw(c: Callsign): (raw: seq<nat>)
    ensures |raw| == 8 && forall i | 0 <= i < 8 :: raw[i] == c[i] as nat
  {
    seq(8, i requires 0 <= i < 8 => c[i] as nat)
  }

  /** Eight raw byte fields as a call sign. */
  function CallsignFromRaw(raw: seq<nat>): (c: Callsign)
    requires |raw| == 8 && forall i | 0 <= i < 8 :: raw[i] < 0x100
    ensures CallsignRaw(c) == raw
  {
    var c := seq(8, i requires 0 <= i < 8 => raw[i] as byte);
    assert CallsignRaw(c) == raw;
    c
  }

  // ---------------------------------------------------------------------
  // Enumerations: a getter indexes the variant table with the raw field, a
  // setter stores the variant's ordinal.

  /** Navigation integrity category: the containment radius. */
  datatype NIC =
    | Unknown
    | Lt20_0NM
    | Lt8_0NM
    | Lt4_0NM
    | Lt2_0NM
    | Lt1_0NM
    | Lt0_6NM
    | Lt0_2nm
    | Lt0_1NM
    | HPLlt75mAndVPLlt112m
    | HPLlt25mAndVPLlt37_5m
    | HPLlt7_5mAndVPLlt11m
    | Unused1
    | Unused2
    | Unused3
    | Unused4 {
    /** The variant's position in declaration order (Rust `ordinal()`). */
    function Ordinal(): (r: nat)
      ensures r < NIC_COUNT && NICVariant(r) == this
    {
      match this
      case Unknown => 0
      case Lt20_0NM => 1
      case Lt8_0NM => 2
      case Lt4_0NM => 3
      case Lt2_0NM => 4
      case Lt1_0NM => 5
      case Lt0_6NM => 6
      case Lt0_2nm => 7
      case Lt0_1NM => 8
      case HPLlt75mAndVPLlt112m => 9
      case HPLlt25mAndVPLlt37_5m => 10
      case HPLlt7_5mAndVPLlt11m => 11
      case Unused1 => 12
      case Unused2 => 13
      case Unused3 => 14
      case Unused4 => 15
    }
  }

  const NIC_COUNT: nat := 16

  /** Entry `i` of the table of `NIC` variants in declaration order
      (Rust `VARIANTS[i]`). */
  function NICVariant(i: nat): NIC
    requires i < NIC_COUNT
  {
    match i
    case 0 => NIC.Unknown
    case 1 => NIC.Lt20_0NM
    case 2 => NIC.Lt8_0NM
    case 3 => NIC.Lt4_0NM
    case 4 => NIC.Lt2_0NM
    case 5 => NIC.Lt1_0NM
    case 6 => NIC.Lt0_6NM
    case 7 => NIC.Lt0_2nm
    case 8 => NIC.Lt0_1NM
    case 9 => NIC.HPLlt75mAndVPLlt112m
    case 10 => NIC.HPLlt25mAndVPLlt37_5m
    case 11 => NIC.HPLlt7_5mAndVPLlt11m
    case 12 => NIC.Unused1
    case 13 => NIC.Unused2
    case 14 => NIC.Unused3
    case _ => NIC.Unused4
  }

  /** Looking up an ordinal gives back the variant with that ordinal: the
      table lists every variant once. */
  lemma NICOrdinalOfVariant(i: nat)
    requires i < NIC_COUNT
    ensures NICVariant(i).Ordinal() == i
  {}

  /** Navigation accuracy category for position. */
  datatype NACp =
    | Unknown
    | Lt10_0NM
    | Lt4_0NM
    | Lt2_0NM
    | Lt1_0NM
    | Lt0_5NM
    | Lt0_3NM
    | Lt0_1NM
    | Lt0_05NM
    | HFOMlt30mAndVFOMlt45m
    | HFOMlt10mAndVFOMlt15m
    | HFOMlt3mandVFOMlt4m
    | Unused1
    | Unused2
    | Unused3
    | Unused4 {
    /** The variant's position in declaration order (Rust `ordinal()`). */
    function Ordinal(): (r: nat)
      ensures r < NACP_COUNT && NACpVariant(r) == this
    {
      match this
      case Unknown => 0
      case Lt10_0NM => 1
      case Lt4_0NM => 2
      case Lt2_0NM => 3
      case Lt1_0NM => 4
      case Lt0_5NM => 5
      case Lt0_3NM => 6
      case Lt0_1NM => 7
      case Lt0_05NM => 8
      case HFOMlt30mAndVFOMlt45m => 9
      case HFOMlt10mAndVFOMlt15m => 10
      case HFOMlt3mandVFOMlt4m => 11
      case Unused1 => 12
      case Unused2 => 13
      case Unused3 => 14
      case Unused4 => 15
    }
  }

  const NACP_COUNT: nat := 16

  /** Entry `i` of the table of `NACp` variants in declaration order
      (Rust `VARIANTS[i]`). */
  function NACpVariant(i: nat): NACp
    requires i < NACP_COUNT
  {
    match i
    case 0 => NACp.Unknown
    case 1 => NACp.Lt10_0NM
    case 2 => NACp.Lt4_0NM
    case 3 => NACp.Lt2_0NM
    case 4 => NACp.Lt1_0NM
    case 5 => NACp.Lt0_5NM
    case 6 => NACp.Lt0_3NM
    case 7 => NACp.Lt0_1NM
    case 8 => NACp.Lt0_05NM
    case 9 => NACp.HFOMlt30mAndVFOMlt45m
    case 10 => NACp.HFOMlt10mAndVFOMlt15m
    case 11 => NACp.HFOMlt3mandVFOMlt4m
    case 12 => NACp.Unused1
    case 13 => NACp.Unused2
    case 14 => NACp.Unused3
    case _ => NACp.Unused4
  }

  /** Looking up an ordinal gives back the variant with that ordinal: the
      table lists every variant once. */
  lemma NACpOrdinalOfVariant(i: nat)
    requires i < NACP_COUNT
    ensures NACpVariant(i).Ordinal() == i
  {}

  /** Emergency and priority status. */
  datatype EmergencyPriorityCode =
    | NoEmergency
    | GeneralEmergency
    | MedicalEmergency
    | MinimumFuel
    | NoCommunication
    | UnlawfulInterference
    | DownedAircraft
    | Reserved1
    | Reserved2
    | Reserved3
    | Reserved4
    | Reserved5
    | Reserved6
    | Reserved7
    | Reserved8
    | Reserved9 {
    /** The variant's position in declaration order (Rust `ordinal()`). */
    function Ordinal(): (r: nat)
      ensures r < EMERGENCY_PRIORITY_CODE_COUNT && EmergencyPriorityCodeVariant(r) == this
    {
      match this
      case NoEmergency => 0
      case GeneralEmergency => 1
      case MedicalEmergency => 2
      case MinimumFuel => 3
      case NoCommunication => 4
      case UnlawfulInterference => 5
      case DownedAircraft => 6
      case Reserved1 => 7
      case Reserved2 => 8
      case Reserved3 => 9
      case Reserved4 => 10
      case Reserved5 => 11
      case Reserved6 => 12
      case Reserved7 => 13
      case Reserved8 => 14
      case Reserved9 => 15
    }
  }

  const EMERGENCY_PRIORITY_CODE_COUNT: nat := 16

  /** Entry `i` of the table of `EmergencyPriorityCode` variants in declaration order
      (Rust `VARIANTS[i]`). */
  function EmergencyPriorityCodeVariant(i: nat): EmergencyPriorityCode
    requires i < EMERGENCY_PRIORITY_CODE_COUNT
  {
    match i
    case 0 => EmergencyPriorityCode.NoEmergency
    case 1 => EmergencyPriorityCode.GeneralEmergency
    case 2 => EmergencyPriorityCode.MedicalEmergency
    case 3 => EmergencyPriorityCode.MinimumFuel
    case 4 => EmergencyPriorityCode.NoCommunication
    case 5 => EmergencyPriorityCode.UnlawfulInterference
    case 6 => EmergencyPriorityCode.DownedAircraft
    case 7 => EmergencyPriorityCode.Reserved1
    case 8 => EmergencyPriorityCode.Reserved2
    case 9 => EmergencyPriorityCode.Reserved3
    case 10 => EmergencyPriorityCode.Reserved4
    case 11 => EmergencyPriorityCode.Reserved5
    case 12 => EmergencyPriorityCode.Reserved6
    case 13 => EmergencyPriorityCode.Reserved7
    case 14 => EmergencyPriorityCode.Reserved8
    case _ => EmergencyPriorityCode.Reserved9
  }

  /** Looking up an ordinal gives back the variant with that ordinal: the
      table lists every variant once. */
  lemma EmergencyPriorityCodeOrdinalOfVariant(i: nat)
    requires i < EMERGENCY_PRIORITY_CODE_COUNT
    ensures EmergencyPriorityCodeVariant(i).Ordinal() == i
  {}

  /** Emitter category: the kind of aircraft or obstacle. */
  datatype EmitterCategory =
    | NoAircraftTypeInformation
    | Light
    | Small
    | Large
    | HighVortexLarge
    | Heavy
    | HighlyManeuverable
    | Rotorcraft
    | Unassigned1
    | GliderSailplane
    | LighterThanAir
    | ParachutistSkyDiver
    | UltraLightHangGliderParaglider
    | Unassigned2
    | UnmannedAerialVehicle
    | SpaceTransatmosphericVehicle
    | Unassigned3
    | SurfaceVehicleEmergencyVehicle
    | SurfaceVehicleServiceVehicle
    | PointObstacle
    | ClusterObstacle
    | LineObstacle
    | Reserved1
    | Reserved2
    | Reserved3
    | Reserved4
    | Reserved5
    | Reserved6
    | Reserved7
    | Reserved8
    | Reserved9
    | Reserved10
    | Reserved11
    | Reserved12
    | Reserved13
    | Reserved14
    | Reserved15
    | Reserved16
    | Reserved17
    | Reserved18 {
    /** The variant's position in declaration order (Rust `ordinal()`). */
    function Ordinal(): (r: nat)
      ensures r < EMITTER_CATEGORY_COUNT && EmitterCategoryVariant(r) == this
    {
      match this
      case NoAircraftTypeInformation => 0
      case Light => 1
      case Small => 2
      case Large => 3
      case HighVortexLarge => 4
      case Heavy => 5
      case HighlyManeuverable => 6
      case Rotorcraft => 7
      case Unassigned1 => 8
      case GliderSailplane => 9
      case LighterThanAir => 10
      case ParachutistSkyDiver => 11
      case UltraLightHangGliderParaglider => 12
      case Unassigned2 => 13
      case UnmannedAerialVehicle => 14
      case SpaceTransatmosphericVehicle => 15
      case Unassigned3 => 16
      case SurfaceVehicleEmergencyVehicle => 17
      case SurfaceVehicleServiceVehicle => 18
      case PointObstacle => 19
      case ClusterObstacle => 20
      case LineObstacle => 21
      case Reserved1 => 22
      case Reserved2 => 23
      case Reserved3 => 24
      case Reserved4 => 25
      case Reserved5 => 26
      case Reserved6 => 27
      case Reserved7 => 28
      case Reserved8 => 29
      case Reserved9 => 30
      case Reserved10 => 31
      case Reserved11 => 32
      case Reserved12 => 33
      case Reserved13 => 34
      case Reserved14 => 35
      case Reserved15 => 36
      case Reserved16 => 37
      case Reserved17 => 38
      case Reserved18 => 39
    }
  }

  const EMITTER_CATEGORY_COUNT: nat := 40

  /** Entry `i` of the table of `EmitterCategory` variants in declaration order
      (Rust `VARIANTS[i]`). */
  function EmitterCategoryVariant(i: nat): EmitterCategory
    requires i < EMITTER_CATEGORY_COUNT
  {
    match i
    case 0 => EmitterCategory.NoAircraftTypeInformation
    case 1 => EmitterCategory.Light
    case 2 => EmitterCategory.Small
    case 3 => EmitterCategory.Large
    case 4 => EmitterCategory.HighVortexLarge
    case 5 => EmitterCategory.Heavy
    case 6 => EmitterCategory.HighlyManeuverable
    case 7 => EmitterCategory.Rotorcraft
    case 8 => EmitterCategory.Unassigned1
    case 9 => EmitterCategory.GliderSailplane
    case 10 => EmitterCategory.LighterThanAir
    case 11 => EmitterCategory.ParachutistSkyDiver
    case 12 => EmitterCategory.UltraLightHangGliderParaglider
    case 13 => EmitterCategory.Unassigned2
    case 14 => EmitterCategory.UnmannedAerialVehicle
    case 15 => EmitterCategory.SpaceTransatmosphericVehicle
    case 16 => EmitterCategory.Unassigned3
    case 17 => EmitterCategory.SurfaceVehicleEmergencyVehicle
    case 18 => EmitterCategory.SurfaceVehicleServiceVehicle
    case 19 => EmitterCategory.PointObstacle
    case 20 => EmitterCategory.ClusterObstacle
    case 21 => EmitterCategory.LineObstacle
    case 22 => EmitterCategory.Reserved1
    case 23 => EmitterCategory.Reserved2
    case 24 => EmitterCategory.Reserved3
    case 25 => EmitterCategory.Reserved4
    case 26 => EmitterCategory.Reserved5
    case 27 => EmitterCategory.Reserved6
    case 28 => EmitterCategory.Reserved7
    case 29 => EmitterCategory.Reserved8
    case 30 => EmitterCategory.Reserved9
    case 31 => EmitterCategory.Reserved10
    case 32 => EmitterCategory.Reserved11
    case 33 => EmitterCategory.Reserved12
    case 34 => EmitterCategory.Reserved13
    case 35 => EmitterCategory.Reserved14
    case 36 => EmitterCategory.Reserved15
    case 37 => EmitterCategory.Reserved16
    case 38 => EmitterCategory.Reserved17
    case _ => EmitterCategory.Reserved18
  }

  /** Looking up an ordinal gives back the variant with that ordinal: the
      table lists every variant once. */
  lemma EmitterCategoryOrdinalOfVariant(i: nat)
    requires i < EMITTER_CATEGORY_COUNT
    ensures EmitterCategoryVariant(i).Ordinal() == i
  {
    if i < 10 {
      EmitterCategoryOrdinalOfVariantFrom(i, 0, 10);
    } else if i < 20 {
      EmitterCategoryOrdinalOfVariantFrom(i, 10, 20);
    } else if i < 30 {
      EmitterCategoryOrdinalOfVariantFrom(i, 20, 30);
    } else {
      EmitterCategoryOrdinalOfVariantFrom(i, 30, 40);
    }
  }

  lemma EmitterCategoryOrdinalOfVariantFrom(i: nat, lo: nat, hi: nat)
    requires lo <= i < hi <= EMITTER_CATEGORY_COUNT && hi - lo <= 10
    ensures EmitterCategoryVariant(i).Ordinal() == i
  {}

  /** Whether the aircraft is on the ground or airborne. */
  datatype FlightStage =
    | OnGround
    | Airborne {
    /** The variant's position in declaration order (Rust `ordinal()`). */
    function Ordinal(): (r: nat)
      ensures r < FLIGHT_STAGE_COUNT && FlightStageVariant(r) == this
    {
      match this
      case OnGround => 0
      case Airborne => 1
    }
  }

  const FLIGHT_STAGE_COUNT: nat := 2

  /** Entry `i` of the table of `FlightStage` variants in declaration order
      (Rust `VARIANTS[i]`). */
  function FlightStageVariant(i: nat): FlightStage
    requires i < FLIGHT_STAGE_COUNT
  {
    match i
    case 0 => FlightStage.OnGround
    case _ => FlightStage.Airborne
  }

  /** Looking up an ordinal gives back the variant with that ordinal: the
      table lists every variant once. */
  lemma FlightStageOrdinalOfVariant(i: nat)
    requires i < FLIGHT_STAGE_COUNT
    ensures FlightStageVariant(i).Ordinal() == i
  {}

  /** Whether the report is updated or extrapolated. */
  datatype ReportType =
    | ReportIsUpdated
    | ReportIsExtrapolated {
    /** The variant's position in declaration order (Rust `ordinal()`). */
    function Ordinal(): (r: nat)
      ensures r < REPORT_TYPE_COUNT && ReportTypeVariant(r) == this
    {
      match this
      case ReportIsUpdated => 0
      case ReportIsExtrapolated => 1
    }
  }

  const REPORT_TYPE_COUNT: nat := 2

  /** Entry `i` of the table of `ReportType` variants in declaration order
      (Rust `VARIANTS[i]`). */
  function ReportTypeVariant(i: nat): ReportType
    requires i < REPORT_TYPE_COUNT
  {
    match i
    case 0 => ReportType.ReportIsUpdated
    case _ => ReportType.ReportIsExtrapolated
  }

  /** Looking up an ordinal gives back the variant with that ordinal: the
      table lists every variant once. */
  lemma ReportTypeOrdinalOfVariant(i: nat)
    requires i < REPORT_TYPE_COUNT
    ensures ReportTypeVariant(i).Ordinal() == i
  {}

  /** What the track field holds. */
  datatype HeadingType =
    | NotValid
    | TrueTrackAngle
    | HeadingMagnetic
    | HeadingTrue {
    /** The variant's position in declaration order (Rust `ordinal()`). */
    function Ordinal(): (r: nat)
      ensures r < HEADING_TYPE_COUNT && HeadingTypeVariant(r) == this
    {
      match this
      case NotValid => 0
      case TrueTrackAngle => 1
      case HeadingMagnetic => 2
      case HeadingTrue => 3
    }
  }

  const HEADING_TYPE_COUNT: nat := 4

  /** Entry `i` of the table of `HeadingType` variants in declaration order
      (Rust `VARIANTS[i]`). */
  function HeadingTypeVariant(i: nat): HeadingType
    requires i < HEADING_TYPE_COUNT
  {
    match i
    case 0 => HeadingType.NotValid
    case 1 => HeadingType.TrueTrackAngle
    case 2 => HeadingType.HeadingMagnetic
    case _ => HeadingType.HeadingTrue
  }

  /** Looking up an ordinal gives back the variant with that ordinal: the
      table lists every variant once. */
  lemma HeadingTypeOrdinalOfVariant(i: nat)
    requires i < HEADING_TYPE_COUNT
    ensures HeadingTypeVariant(i).Ordinal() == i
  {}

  /** The kind of participant address. */
  datatype AddressType =
    | ADSBWithICAOAddress
    | ADSBWithSelfAssignedAddress
    | TISBWithICAOAddress
    | TISBWithTrackFileID
    | SurfaceVehicle
    | GroundStationBeacon
    | Reserved1
    | Reserved2
    | Reserved3
    | Reserved4
    | Reserved5
    | Reserved6
    | Reserved7
    | Reserved8
    | Reserved9 {
    /** The variant's position in declaration order (Rust `ordinal()`). */
    function Ordinal(): (r: nat)
      ensures r < ADDRESS_TYPE_COUNT && AddressTypeVariant(r) == this
    {
      match this
      case ADSBWithICAOAddress => 0
      case ADSBWithSelfAssignedAddress => 1
      case TISBWithICAOAddress => 2
      case TISBWithTrackFileID => 3
      case SurfaceVehicle => 4
      case GroundStationBeacon => 5
      case Reserved1 => 6
      case Reserved2 => 7
      case Reserved3 => 8
      case Reserved4 => 9
      case Reserved5 => 10
      case Reserved6 => 11
      case Reserved7 => 12
      case Reserved8 => 13
      case Reserved9 => 14
    }
  }

  const ADDRESS_TYPE_COUNT: nat := 15

  /** Entry `i` of the table of `AddressType` variants in declaration order
      (Rust `VARIANTS[i]`). */
  function AddressTypeVariant(i: nat): AddressType
    requires i < ADDRESS_TYPE_COUNT
  {
    match i
    case 0 => AddressType.ADSBWithICAOAddress
    case 1 => AddressType.ADSBWithSelfAssignedAddress
    case 2 => AddressType.TISBWithICAOAddress
    case 3 => AddressType.TISBWithTrackFileID
    case 4 => AddressType.SurfaceVehicle
    case 5 => AddressType.GroundStationBeacon
    case 6 => AddressType.Reserved1
    case 7 => AddressType.Reserved2
    case 8 => AddressType.Reserved3
    case 9 => AddressType.Reserved4
    case 10 => AddressType.Reserved5
    case 11 => AddressType.Reserved6
    case 12 => AddressType.Reserved7
    case 13 => AddressType.Reserved8
    case _ => AddressType.Reserved9
  }

  /** Looking up an ordinal gives back the variant with that ordinal: the
      table lists every variant once. */
  lemma AddressTypeOrdinalOfVariant(i: nat)
    requires i < ADDRESS_TYPE_COUNT
    ensures AddressTypeVariant(i).Ordinal() == i
  {}

  /** Whether a traffic alert is active. */
  datatype TrafficAlertStatus =
    | NoAlert
    | TrafficAlert
    | Reserved1
    | Reserved2
    | Reserved3
    | Reserved4
    | Reserved5
    | Reserved6
    | Reserved7
    | Reserved8
    | Reserved9
    | Reserved10
    | Reserved11
    | Reserved12
    | Reserved13
    | Reserved14 {
    /** The variant's position in declaration order (Rust `ordinal()`). */
    function Ordinal(): (r: nat)
      ensures r < TRAFFIC_ALERT_STATUS_COUNT && TrafficAlertStatusVariant(r) == this
    {
      match this
      case NoAlert => 0
      case TrafficAlert => 1
      case Reserved1 => 2
      case Reserved2 => 3
      case Reserved3 => 4
      case Reserved4 => 5
      case Reserved5 => 6
      case Reserved6 => 7
      case Reserved7 => 8
      case Reserved8 => 9
      case Reserved9 => 10
      case Reserved10 => 11
      case Reserved11 => 12
      case Reserved12 => 13
      case Reserved13 => 14
      case Reserved14 => 15
    }
  }

  const TRAFFIC_ALERT_STATUS_COUNT: nat := 16

  /** Entry `i` of the table of `TrafficAlertStatus` variants in declaration order
      (Rust `VARIANTS[i]`). */
  function TrafficAlertStatusVariant(i: nat): TrafficAlertStatus
    requires i < TRAFFIC_ALERT_STATUS_COUNT
  {
    match i
    case 0 => TrafficAlertStatus.NoAlert
    case 1 => TrafficAlertStatus.TrafficAlert
    case 2 => TrafficAlertStatus.Reserved1
    case 3 => TrafficAlertStatus.Reserved2
    case 4 => TrafficAlertStatus.Reserved3
    case 5 => TrafficAlertStatus.Reserved4
    case 6 => TrafficAlertStatus.Reserved5
    case 7 => TrafficAlertStatus.Reserved6
    case 8 => TrafficAlertStatus.Reserved7
    case 9 => TrafficAlertStatus.Reserved8
    case 10 => TrafficAlertStatus.Reserved9
    case 11 => TrafficAlertStatus.Reserved10
    case 12 => TrafficAlertStatus.Reserved11
    case 13 => TrafficAlertStatus.Reserved12
    case 14 => TrafficAlertStatus.Reserved13
    case _ => TrafficAlertStatus.Reserved14
  }

  /** Looking up an ordinal gives back the variant with that ordinal: the
      table lists every variant once. */
  lemma TrafficAlertStatusOrdinalOfVariant(i: nat)
    requires i < TRAFFIC_ALERT_STATUS_COUNT
    ensures TrafficAlertStatusVariant(i).Ordinal() == i
  {}

  /** Four-bit tables with 16 variants, the two-bit heading type with 4 and
      the one-bit flags with 2 cover every raw value their field can hold;
      the address type has only 15 variants for a four-bit field, and the
      emitter category 40 for an eight-bit one. */
  lemma EnumTablesCoverFields()
    ensures REPORT_WIDTHS[TRAFFIC_ALERT_STATUS] == 4 && TRAFFIC_ALERT_STATUS_COUNT == Pow2(4)
    ensures REPORT_WIDTHS[ADDRESS_TYPE] == 4 && ADDRESS_TYPE_COUNT == Pow2(4) - 1
    ensures REPORT_WIDTHS[HEADING_TYPE] == 2 && HEADING_TYPE_COUNT == Pow2(2)
    ensures REPORT_WIDTHS[REPORT_TYPE] == 1 && REPORT_TYPE_COUNT == Pow2(1)
    ensures REPORT_WIDTHS[FLIGHT_STAGE] == 1 && FLIGHT_STAGE_COUNT == Pow2(1)
    ensures REPORT_WIDTHS[NIC_FIELD] == 4 && NIC_COUNT == Pow2(4)
    ensures REPORT_WIDTHS[NACP_FIELD] == 4 && NACP_COUNT == Pow2(4)
    ensures REPORT_WIDTHS[EMITTER_CATEGORY] == 8 && EMITTER_CATEGORY_COUNT == 40 < Pow2(8)
    ensures REPORT_WIDTHS[EMERGENCY_PRIORITY_CODE] == 4 && EMERGENCY_PRIORITY_CODE_COUNT == Pow2(4)
  {
    assert Pow2(4) == 16 && Pow2(8) == 256 by {
      Pow2Values();
    }
  }

  // ---------------------------------------------------------------------
  // Pressure altitude: 25 ft per step, offset by 1000 ft.

  /** The altitude in feet for a raw field value. */
  function AltitudeFromRaw(raw: u16): (feet: i32)
    ensures feet as int + 1000 == 25 * raw as int
  {
    (raw as int * 25 - 1000) as i32
  }

  /** The raw value stored for an altitude: the offset altitude divided by
      25 rounding toward zero, wrapped to 16 bits (Rust `as u16`). */
  function AltitudeToRaw(value: i32): u16
    requires value as int + 1000 <= MAX_I32
  {
    (TruncDiv(value as int + 1000, 25) % 0x1_0000) as u16
  }

  /** Setting an altitude that is a whole number of 25 ft steps above
      -1000 ft within the 12-bit field and reading it back gives it back,
      and the stored value fits the field. */
  lemma AltitudeRoundTrip(value: i32)
    requires (value as int + 1000) % 25 == 0
    requires 0 <= value as int + 1000 <= 0xFFF * 25
    ensures AltitudeToRaw(value) < 0x1000
    ensures AltitudeFromRaw(AltitudeToRaw(value)) == value
  {
    var q := (value as int + 1000) / 25;
    assert q * 25 == value as int + 1000;
    assert TruncDiv(value as int + 1000, 25) == q;
  }

  /** Reading a raw value as an altitude and storing it again gives the raw
      value back, for every 16-bit raw value. */
  lemma AltitudeRawRoundTrip(raw: u16)
    ensures AltitudeFromRaw(raw) as int + 1000 <= MAX_I32
    ensures AltitudeToRaw(AltitudeFromRaw(raw)) == raw
  {
    assert TruncDiv(25 * raw as int, 25) == raw as int;
  }

  /** Below -1000 ft the division rounds toward zero and the result wraps:
      -1010 ft is stored as 0, -1025 ft as 0xFFFF. */
  lemma AltitudeBelowOffset()
    ensures AltitudeToRaw(-1010) == 0
    ensures AltitudeToRaw(-1025) == 0xFFFF
  {
    assert TruncDiv(-10, 25) == 0;
    assert TruncDiv(-25, 25) == -1;
  }

  // ---------------------------------------------------------------------
  // Horizontal velocity: knots, 0xFFF meaning "no data".

  function HorizontalVelocityFromRaw(raw: u16): (r: Option<u16>)
    ensures r.None? <==> raw >= 0xFFF
    ensures r.Some? ==> r.value == raw
  {
    if raw >= 0xFFF then None else Some(raw)
  }

  /** The raw value stored for a horizontal velocity: the speed itself,
      capped at 0xFFF, which is also stored for no value. */
  function HorizontalVelocityToRaw(value: Option<u16>): (raw: u16)
    ensures raw <= 0xFFF
  {
    match value
    case Some(v) => if v >= 0xFFF then 0xFFF else v
    case None => 0xFFF
  }

  /** A speed below 0xFFF survives a set and a get; any larger speed and
      the absence of a speed are both stored as 0xFFF and read as none. */
  lemma HorizontalVelocityRoundTrip(value: Option<u16>)
    ensures value.Some? && value.value < 0xFFF ==>
      HorizontalVelocityFromRaw(HorizontalVelocityToRaw(value)) == value
    ensures (value.None? || value.value >= 0xFFF) ==>
      HorizontalVelocityToRaw(value) == 0xFFF &&
      HorizontalVelocityFromRaw(HorizontalVelocityToRaw(value)) == None
  {}

  /** Every raw value the 12-bit field can hold survives a get and a set. */
  lemma HorizontalVelocityRawRoundTrip(raw: u16)
    requires raw <= 0xFFF
    ensures HorizontalVelocityToRaw(HorizontalVelocityFromRaw(raw)) == raw
  {}

  // ---------------------------------------------------------------------
  // Vertical velocity: a 12-bit two's-complement count of 64 ft/min, 0x800
  // meaning "no data".

  /** The raw value as the getter reads it into an `i16`: when bit 11 is
      set the bits above the low twelve are filled with ones (Rust
      `(raw as i16) | !0x0FFF`), otherwise the raw value is taken as is. */
  function VerticalValue(raw: u16): (v: i16)
    ensures raw < 0x1000 ==> v as int == if raw >= 0x800 then raw as int - 0x1000 else raw as int
  {
    if (raw as int / 0x800) % 2 == 1 then AsI16(raw as int % 0x1000 + 0xF000)
    else AsI16(raw as int)
  }

  /** The vertical velocity in feet per minute.  The product is an `i16`
      and overflows (a panic) unless the value is within [-512, 511]. */
  function VerticalVelocityFromRaw(raw: u16): (r: Option<i16>)
    requires raw == 0x800 || -512 <= VerticalValue(raw) as int <= 511
    ensures r.None? <==> raw == 0x800
    ensures r.Some? ==> r.value as int == 64 * VerticalValue(raw) as int
  {
    if raw == 0x800 then None else Some((VerticalValue(raw) as int * 64) as i16)
  }

  /** The raw value stored for a vertical velocity: its low twelve bits,
      NOT divided by 64 (Rust `value as u16 & 0x0fff`); 0x800 for none. */
  function VerticalVelocityToRaw(value: Option<i16>): (raw: u16)
    ensures raw < 0x1000
  {
    match value
    case Some(v) => ((v as int % 0x1_0000) % 0x1000) as u16
    case None => 0x800
  }

  /** The setter stores its argument unscaled, so a set followed by a get
      multiplies by 64: for v in [-512, 511], get(set(v)) is 64 * v. */
  lemma VerticalVelocitySetGet(v: i16)
    requires -512 <= v as int <= 511
    ensures VerticalVelocityToRaw(Some(v)) != 0x800
    ensures VerticalValue(VerticalVelocityToRaw(Some(v))) == v
    ensures VerticalVelocityFromRaw(VerticalVelocityToRaw(Some(v))) == Some((64 * v as int) as i16)
  {
    var raw := VerticalVelocityToRaw(Some(v));
    assert raw as int == v as int % 0x1000;
  }

  /** Storing no value and reading it back gives no value. */
  lemma VerticalVelocityNone()
    ensures VerticalVelocityToRaw(None) == 0x800
    ensures VerticalVelocityFromRaw(VerticalVelocityToRaw(None)) == None
  {}

  /** On the raw side the setter is the inverse of the sign extension:
      every 12-bit raw value other than 0x800 is stored back unchanged. */
  lemma VerticalVelocityRawRoundTrip(raw: u16)
    requires raw < 0x1000
    ensures VerticalVelocityToRaw(Some(VerticalValue(raw))) == raw
  {}

  /** 0xFFF reads as -64 ft/min, but setting -64 stores 0xFC0, which reads
      as -4096 ft/min. */
  lemma VerticalVelocitySamples()
    ensures VerticalVelocityFromRaw(0xFFF) == Some(-64)
    ensures VerticalVelocityToRaw(Some(-64)) == 0xFC0
    ensures VerticalVelocityFromRaw(0xFC0) == Some(-4096)
  {}

  // ---------------------------------------------------------------------
  // Latitude and longitude: 24-bit two's-complement fractions of a half
  // circle.  Only the integer steps around the floating-point scaling are
  // modelled.

  /** The signed fraction the degrees are computed from (Rust
      `lat_long_u32_to_f32` before its scaling): bit 23 set fills the upper
      byte with ones, otherwise the value is read as an `i32`. */
  function LatLongFraction(value: u32): (fraction: i32)
    ensures value < 0x100_0000 ==>
      fraction as int == if value >= 0x80_0000 then value as int - 0x100_0000 else value as int
  {
    if (value as int / 0x80_0000) % 2 == 1 then AsI32(value as int % 0x100_0000 + 0xFF00_0000)
    else AsI32(value as int)
  }

  /** The raw value stored for a scaled fraction (Rust `lat_long_f32_to_u32`
      after its scaling): the low 24 bits of its two's-complement form. */
  function LatLongMask(result: i32): (value: u32)
    ensures value < 0x100_0000
  {
    ((result as int % 0x1_0000_0000) % 0x100_0000) as u32
  }

  /** Masking undoes the sign extension for every 24-bit raw value. */
  lemma LatLongMaskFraction(value: u32)
    requires value < 0x100_0000
    ensures LatLongMask(LatLongFraction(value)) == value
  {}

  /** The sign extension undoes the masking for every fraction in the
      24-bit signed range. */
  lemma LatLongFractionMask(fraction: i32)
    requires -0x80_0000 <= fraction as int < 0x80_0000
    ensures LatLongFraction(LatLongMask(fraction)) == fraction
  {}

  /** The raw values 2395560 (north) and 16756978 (west of the meridian):
      fractions 2395560 and -20238, and back. */
  lemma LatLongSamples()
    ensures LatLongFraction(2395560) == 2395560 && LatLongMask(2395560) == 2395560
    ensures LatLongFraction(16756978) == -20238 && LatLongMask(-20238) == 16756978
  {}

  /** The width of each field, by position. */
  lemma ReportWidthsAt()
    ensures |REPORT_WIDTHS| == 25
    ensures REPORT_WIDTHS[0] == 4 && REPORT_WIDTHS[1] == 4 && REPORT_WIDTHS[2] == 24 && REPORT_WIDTHS[3] == 24
    ensures REPORT_WIDTHS[4] == 24 && REPORT_WIDTHS[5] == 12 && REPORT_WIDTHS[6] == 2 && REPORT_WIDTHS[7] == 1
    ensures REPORT_WIDTHS[8] == 1 && REPORT_WIDTHS[9] == 4 && REPORT_WIDTHS[10] == 4 && REPORT_WIDTHS[11] == 12
    ensures REPORT_WIDTHS[12] == 12 && REPORT_WIDTHS[13] == 8 && REPORT_WIDTHS[14] == 8 && REPORT_WIDTHS[15] == 8
    ensures REPORT_WIDTHS[16] == 8 && REPORT_WIDTHS[17] == 8 && REPORT_WIDTHS[18] == 8 && REPORT_WIDTHS[19] == 8
    ensures REPORT_WIDTHS[20] == 8 && REPORT_WIDTHS[21] == 8 && REPORT_WIDTHS[22] == 8 && REPORT_WIDTHS[23] == 4
    ensures REPORT_WIDTHS[24] == 4
  {}

  /** What fitting the layout means field by field: each raw value fits the
      Rust type that holds it. */
  lemma ReportFieldBounds(values: seq<nat>)
    requires Fits(REPORT_WIDTHS, values)
    ensures |values| == 25
    ensures values[0] < 0x10 && values[1] < 0x10 && values[2] < 0x100_0000 && values[3] < 0x100_0000
    ensures values[4] < 0x100_0000 && values[5] < 0x1000 && values[6] < 0x4 && values[7] < 0x2
    ensures values[8] < 0x2 && values[9] < 0x10 && values[10] < 0x10 && values[11] < 0x1000
    ensures values[12] < 0x1000 && values[13] < 0x100 && values[14] < 0x100 && values[23] < 0x10
    ensures values[24] < 0x10
    ensures forall i | CALLSIGN <= i < CALLSIGN + 8 :: values[i] < 0x100
  {
    ReportWidthsAt();
    assert Pow2(1) == 2 && Pow2(2) == 4 && Pow2(4) == 0x10 && Pow2(8) == 0x100 by {
      Pow2Values();
    }
    assert Pow2(12) == 0x1000 && Pow2(24) == 0x100_0000 by {
      Pow2Values();
    }
  }

  /** A list of 25 raw values, cut into the groups of the record's layout. */
  lemma ReportRawGroups(values: seq<nat>)
    requires |values| == 25
    ensures values
      == [values[0], values[1], values[2]] + [values[3], values[4]]
       + [values[5], values[6], values[7], values[8]] + [values[9], values[10]]
       + [values[11], values[12]] + [values[13], values[14]]
       + values[CALLSIGN..CALLSIGN + 8] + [values[23], values[24]]
  {
  }

  // ---------------------------------------------------------------------
  // The record.

  class Report {
    var trafficAlertStatus: byte
    var addressType: byte
    var participantAddress: u32
    var latitude: u32
    var longitude: u32
    var altitude: u16
    var headingType: byte
    var reportType: byte
    var flightStage: byte
    var navigationIntegrityCategory: byte
    var navigationAccuracyCategoryForPosition: byte
    var horizontalVelocity: u16
    var verticalVelocity: u16
    var trackHeading: byte
    var emitterCategory: byte
    var callsign: Callsign
    var emergencyPriorityCode: byte
    var reserved: byte

    /** The raw field values, in wire order. */
    function Raw(): (r: seq<nat>)
      reads this
      ensures |r| == |REPORT_WIDTHS|
    {
        [trafficAlertStatus as nat, addressType as nat, participantAddress as nat]
      + [latitude as nat, longitude as nat]
      + [altitude as nat, headingType as nat, reportType as nat, flightStage as nat]
      + [navigationIntegrityCategory as nat, navigationAccuracyCategoryForPosition as nat]
      + [horizontalVelocity as nat, verticalVelocity as nat]
      + [trackHeading as nat, emitterCategory as nat]
      + CallsignRaw(callsign)
      + [emergencyPriorityCode as nat, reserved as nat]
    }

    /** The record with every field zero (Rust `Default`). */
    constructor ()
      ensures Raw() == seq(25, _ => 0)
    {
      trafficAlertStatus, addressType, participantAddress := 0, 0, 0;
      latitude, longitude, altitude := 0, 0, 0;
      headingType, reportType, flightStage := 0, 0, 0;
      navigationIntegrityCategory, navigationAccuracyCategoryForPosition := 0, 0;
      horizontalVelocity, verticalVelocity, trackHeading, emitterCategory := 0, 0, 0, 0;
      callsign := [0, 0, 0, 0, 0, 0, 0, 0];
      emergencyPriorityCode, reserved := 0, 0;
    }

    /** The record holding the given raw values. */
    constructor FromRaw(values: seq<nat>)
      requires Fits(REPORT_WIDTHS, values)
      ensures Raw() == values
    {
      ReportFieldBounds(values);
      trafficAlertStatus := values[0] as byte;
      addressType := values[1] as byte;
      participantAddress := values[2] as u32;
      latitude := values[3] as u32;
      longitude := values[4] as u32;
      altitude := values[5] as u16;
      headingType := values[6] as byte;
      reportType := values[7] as byte;
      flightStage := values[8] as byte;
      navigationIntegrityCategory := values[9] as byte;
      navigationAccuracyCategoryForPosition := values[10] as byte;
      horizontalVelocity := values[11] as u16;
      verticalVelocity := values[12] as u16;
      trackHeading := values[13] as byte;
      emitterCategory := values[14] as byte;
      callsign := CallsignFromRaw(values[CALLSIGN..CALLSIGN + 8]);
      emergencyPriorityCode := values[23] as byte;
      reserved := values[24] as byte;
      ReportRawGroups(values);
    }

    /** Reads a record from the start of `bytes` (Rust `try_from`). */
    static method TryFrom(bytes: seq<byte>) returns (r: Result<Report>)
      ensures r.Ok? <==> 8 * |bytes| >= 216
      ensures r.Ok? ==> fresh(r.value) && Unpack(REPORT_LAYOUT, bytes) == Ok(r.value.Raw())
      ensures r.Err? ==> Unpack(REPORT_LAYOUT, bytes).Err? && r.error == Unpack(REPORT_LAYOUT, bytes).error
    {
      ReportBits();
      var unpacked := Unpack(REPORT_LAYOUT, bytes);
      if unpacked.Ok? {
        var report := new Report.FromRaw(unpacked.value);
        r := Ok(report);
      } else {
        r := Err(unpacked.error);
      }
    }

    /** The 27 bytes of the record (Rust `to_bytes`). */
    function ToBytes(): (bytes: seq<byte>)
      reads this
      ensures |bytes| == 27
      ensures Fits(REPORT_LAYOUT, Raw()) ==> Unpack(REPORT_LAYOUT, bytes) == Ok(Raw())
    {
      ReportBits();
      var bytes := Pack(REPORT_LAYOUT, Raw());
      if Fits(REPORT_LAYOUT, Raw()) then UnpackPack(REPORT_LAYOUT, Raw()); bytes else bytes
    }

    /** The call sign bytes; their decoding as text is not modelled. */
    function GetCallsign(): Callsign
      reads this
    {
      callsign
    }

    method SetCallsign(value: Callsign)
      modifies this
      ensures GetCallsign() == value
      ensures unchanged(this`trafficAlertStatus, this`addressType, this`participantAddress,
          this`latitude, this`longitude, this`altitude, this`headingType, this`reportType,
          this`flightStage, this`navigationIntegrityCategory,
          this`navigationAccuracyCategoryForPosition, this`horizontalVelocity,
          this`verticalVelocity, this`trackHeading, this`emitterCategory,
          this`emergencyPriorityCode, this`reserved)
    {
      callsign := value;
    }

    /** The signed 24-bit latitude fraction; the scaling to degrees is not
        modelled. */
    function GetLatitudeFraction(): i32
      reads this
    {
      LatLongFraction(latitude)
    }

    function GetLongitudeFraction(): i32
      reads this
    {
      LatLongFraction(longitude)
    }

    /** Stores a latitude already scaled to a fraction of a half circle. */
    method SetLatitudeFraction(result: i32)
      modifies this
      ensures latitude == LatLongMask(result)
      ensures unchanged(this`trafficAlertStatus, this`addressType, this`participantAddress,
          this`longitude, this`altitude, this`headingType, this`reportType, this`flightStage,
          this`navigationIntegrityCategory, this`navigationAccuracyCategoryForPosition,
          this`horizontalVelocity, this`verticalVelocity, this`trackHeading,
          this`emitterCategory, this`callsign, this`emergencyPriorityCode, this`reserved)
      ensures -0x80_0000 <= result as int < 0x80_0000 ==> GetLatitudeFraction() == result
    {
      var raw := LatLongMask(result);
      latitude := raw;
      assert -0x80_0000 <= result as int < 0x80_0000 ==> GetLatitudeFraction() == result by {
        if -0x80_0000 <= result as int < 0x80_0000 {
          LatLongFractionMask(result);
        }
      }
    }

    method SetLongitudeFraction(result: i32)
      modifies this
      ensures longitude == LatLongMask(result)
      ensures unchanged(this`trafficAlertStatus, this`addressType, this`participantAddress,
          this`latitude, this`altitude, this`headingType, this`reportType, this`flightStage,
          this`navigationIntegrityCategory, this`navigationAccuracyCategoryForPosition,
          this`horizontalVelocity, this`verticalVelocity, this`trackHeading,
          this`emitterCategory, this`callsign, this`emergencyPriorityCode, this`reserved)
      ensures -0x80_0000 <= result as int < 0x80_0000 ==> GetLongitudeFraction() == result
    {
      var raw := LatLongMask(result);
      longitude := raw;
      assert -0x80_0000 <= result as int < 0x80_0000 ==> GetLongitudeFraction() == result by {
        if -0x80_0000 <= result as int < 0x80_0000 {
          LatLongFractionMask(result);
        }
      }
    }

    function GetAltitude(): i32
      reads this
    {
      AltitudeFromRaw(altitude)
    }

    method SetAltitude(value: i32)
      requires value as int + 1000 <= MAX_I32
      modifies this
      ensures altitude == AltitudeToRaw(value)
      ensures unchanged(this`trafficAlertStatus, this`addressType, this`participantAddress,
          this`latitude, this`longitude, this`headingType, this`reportType, this`flightStage,
          this`navigationIntegrityCategory, this`navigationAccuracyCategoryForPosition,
          this`horizontalVelocity, this`verticalVelocity, this`trackHeading,
          this`emitterCategory, this`callsign, this`emergencyPriorityCode, this`reserved)
    {
      var raw := (TruncDiv(value as int + 1000, 25) % 0x1_0000) as u16;
      altitude := raw;
    }

    function GetHorizontalVelocity(): Option<u16>
      reads this
    {
      HorizontalVelocityFromRaw(horizontalVelocity)
    }

    method SetHorizontalVelocity(value: Option<u16>)
      modifies this
      ensures horizontalVelocity == HorizontalVelocityToRaw(value)
      ensures unchanged(this`trafficAlertStatus, this`addressType, this`participantAddress,
          this`latitude, this`longitude, this`altitude, this`headingType, this`reportType,
          this`flightStage, this`navigationIntegrityCategory,
          this`navigationAccuracyCategoryForPosition, this`verticalVelocity,
          this`trackHeading, this`emitterCategory, this`callsign, this`emergencyPriorityCode,
          this`reserved)
    {
      var raw: u16;
      match value {
        case Some(v) =>
          if v >= 0xFFF {
            raw := 0xFFF;
          } else {
            raw := v;
          }
        case None =>
          raw := 0xFFF;
      }
      horizontalVelocity := raw;
    }

    function GetVerticalVelocity(): Option<i16>
      reads this
      requires verticalVelocity == 0x800 || -512 <= VerticalValue(verticalVelocity) as int <= 511
    {
      VerticalVelocityFromRaw(verticalVelocity)
    }

    method SetVerticalVelocity(value: Option<i16>)
      modifies this
      ensures verticalVelocity == VerticalVelocityToRaw(value)
      ensures unchanged(this`trafficAlertStatus, this`addressType, this`participantAddress,
          this`latitude, this`longitude, this`altitude, this`headingType, this`reportType,
          this`flightStage, this`navigationIntegrityCategory,
          this`navigationAccuracyCategoryForPosition, this`horizontalVelocity,
          this`trackHeading, this`emitterCategory, this`callsign, this`emergencyPriorityCode,
          this`reserved)
    {
      var raw: u16;
      match value {
        case Some(v) =>
          raw := ((v as int % 0x1_0000) % 0x1000) as u16;
        case None =>
          raw := 0x800;
      }
      verticalVelocity := raw;
    }

    /** The variant whose ordinal the field holds. */
    function GetTrafficAlertStatus(): (e: TrafficAlertStatus)
      reads this
      requires trafficAlertStatus as nat < TRAFFIC_ALERT_STATUS_COUNT
      ensures e.Ordinal() == trafficAlertStatus as nat
    {
      TrafficAlertStatusOrdinalOfVariant(trafficAlertStatus as nat);
      TrafficAlertStatusVariant(trafficAlertStatus as nat)
    }

    /** Stores the variant's ordinal; reading it back gives the variant. */
    method SetTrafficAlertStatus(value: TrafficAlertStatus)
      modifies this
      ensures trafficAlertStatus as int == value.Ordinal()
      ensures unchanged(this`addressType, this`participantAddress, this`latitude, this`longitude,
          this`altitude, this`headingType, this`reportType, this`flightStage,
          this`navigationIntegrityCategory, this`navigationAccuracyCategoryForPosition,
          this`horizontalVelocity, this`verticalVelocity, this`trackHeading,
          this`emitterCategory, this`callsign, this`emergencyPriorityCode, this`reserved)
      ensures GetTrafficAlertStatus() == value
    {
      var ord := value.Ordinal();
      trafficAlertStatus := ord as byte;
      assert GetTrafficAlertStatus() == value;
    }

    /** The variant whose ordinal the field holds. */
    function GetAddressType(): (e: AddressType)
      reads this
      requires addressType as nat < ADDRESS_TYPE_COUNT
      ensures e.Ordinal() == addressType as nat
    {
      AddressTypeOrdinalOfVariant(addressType as nat);
      AddressTypeVariant(addressType as nat)
    }

    /** Stores the variant's ordinal; reading it back gives the variant. */
    method SetAddressType(value: AddressType)
      modifies this
      ensures addressType as int == value.Ordinal()
      ensures unchanged(this`trafficAlertStatus, this`participantAddress, this`latitude,
          this`longitude, this`altitude, this`headingType, this`reportType, this`flightStage,
          this`navigationIntegrityCategory, this`navigationAccuracyCategoryForPosition,
          this`horizontalVelocity, this`verticalVelocity, this`trackHeading,
          this`emitterCategory, this`callsign, this`emergencyPriorityCode, this`reserved)
      ensures GetAddressType() == value
    {
      var ord := value.Ordinal();
      addressType := ord as byte;
      assert GetAddressType() == value;
    }

    /** The variant whose ordinal the field holds. */
    function GetHeadingType(): (e: HeadingType)
      reads this
      requires headingType as nat < HEADING_TYPE_COUNT
      ensures e.Ordinal() == headingType as nat
    {
      HeadingTypeOrdinalOfVariant(headingType as nat);
      HeadingTypeVariant(headingType as nat)
    }

    /** Stores the variant's ordinal; reading it back gives the variant. */
    method SetHeadingType(value: HeadingType)
      modifies this
      ensures headingType as int == value.Ordinal()
      ensures unchanged(this`trafficAlertStatus, this`addressType, this`participantAddress,
          this`latitude, this`longitude, this`altitude, this`reportType, this`flightStage,
          this`navigationIntegrityCategory, this`navigationAccuracyCategoryForPosition,
          this`horizontalVelocity, this`verticalVelocity, this`trackHeading,
          this`emitterCategory, this`callsign, this`emergencyPriorityCode, this`reserved)
      ensures GetHeadingType() == value
    {
      var ord := value.Ordinal();
      headingType := ord as byte;
      assert GetHeadingType() == value;
    }

    /** The variant whose ordinal the field holds. */
    function GetReportType(): (e: ReportType)
      reads this
      requires reportType as nat < REPORT_TYPE_COUNT
      ensures e.Ordinal() == reportType as nat
    {
      ReportTypeOrdinalOfVariant(reportType as nat);
      ReportTypeVariant(reportType as nat)
    }

    /** Stores the variant's ordinal; reading it back gives the variant. */
    method SetReportType(value: ReportType)
      modifies this
      ensures reportType as int == value.Ordinal()
      ensures unchanged(this`trafficAlertStatus, this`addressType, this`participantAddress,
          this`latitude, this`longitude, this`altitude, this`headingType, this`flightStage,
          this`navigationIntegrityCategory, this`navigationAccuracyCategoryForPosition,
          this`horizontalVelocity, this`verticalVelocity, this`trackHeading,
          this`emitterCategory, this`callsign, this`emergencyPriorityCode, this`reserved)
      ensures GetReportType() == value
    {
      var ord := value.Ordinal();
      reportType := ord as byte;
      assert GetReportType() == value;
    }

    /** The variant whose ordinal the field holds. */
    function GetFlightStage(): (e: FlightStage)
      reads this
      requires flightStage as nat < FLIGHT_STAGE_COUNT
      ensures e.Ordinal() == flightStage as nat
    {
      FlightStageOrdinalOfVariant(flightStage as nat);
      FlightStageVariant(flightStage as nat)
    }

    /** Stores the variant's ordinal; reading it back gives the variant. */
    method SetFlightStage(value: FlightStage)
      modifies this
      ensures flightStage as int == value.Ordinal()
      ensures unchanged(this`trafficAlertStatus, this`addressType, this`participantAddress,
          this`latitude, this`longitude, this`altitude, this`headingType, this`reportType,
          this`navigationIntegrityCategory, this`navigationAccuracyCategoryForPosition,
          this`horizontalVelocity, this`verticalVelocity, this`trackHeading,
          this`emitterCategory, this`callsign, this`emergencyPriorityCode, this`reserved)
      ensures GetFlightStage() == value
    {
      var ord := value.Ordinal();
      flightStage := ord as byte;
      assert GetFlightStage() == value;
    }

    /** The variant whose ordinal the field holds. */
    function GetNavigationIntegrityCategory(): (e: NIC)
      reads this
      requires navigationIntegrityCategory as nat < NIC_COUNT
      ensures e.Ordinal() == navigationIntegrityCategory as nat
    {
      NICOrdinalOfVariant(navigationIntegrityCategory as nat);
      NICVariant(navigationIntegrityCategory as nat)
    }

    /** Stores the variant's ordinal; reading it back gives the variant. */
    method SetNavigationIntegrityCategory(value: NIC)
      modifies this
      ensures navigationIntegrityCategory as int == value.Ordinal()
      ensures unchanged(this`trafficAlertStatus, this`addressType, this`participantAddress,
          this`latitude, this`longitude, this`altitude, this`headingType, this`reportType,
          this`flightStage, this`navigationAccuracyCategoryForPosition,
          this`horizontalVelocity, this`verticalVelocity, this`trackHeading,
          this`emitterCategory, this`callsign, this`emergencyPriorityCode, this`reserved)
      ensures GetNavigationIntegrityCategory() == value
    {
      var ord := value.Ordinal();
      navigationIntegrityCategory := ord as byte;
      assert GetNavigationIntegrityCategory() == value;
    }

    /** The variant whose ordinal the field holds. */
    function GetNavigationAccuracyCategoryForPosition(): (e: NACp)
      reads this
      requires navigationAccuracyCategoryForPosition as nat < NACP_COUNT
      ensures e.Ordinal() == navigationAccuracyCategoryForPosition as nat
    {
      NACpOrdinalOfVariant(navigationAccuracyCategoryForPosition as nat);
      NACpVariant(navigationAccuracyCategoryForPosition as nat)
    }

    /** Stores the variant's ordinal; reading it back gives the variant. */
    method SetNavigationAccuracyCategoryForPosition(value: NACp)
      modifies this
      ensures navigationAccuracyCategoryForPosition as int == value.Ordinal()
      ensures unchanged(this`trafficAlertStatus, this`addressType, this`participantAddress,
          this`latitude, this`longitude, this`altitude, this`headingType, this`reportType,
          this`flightStage, this`navigationIntegrityCategory, this`horizontalVelocity,
          this`verticalVelocity, this`trackHeading, this`emitterCategory, this`callsign,
          this`emergencyPriorityCode, this`reserved)
      ensures GetNavigationAccuracyCategoryForPosition() == value
    {
      var ord := value.Ordinal();
      navigationAccuracyCategoryForPosition := ord as byte;
      assert GetNavigationAccuracyCategoryForPosition() == value;
    }

    /** The variant whose ordinal the field holds. */
    function GetEmitterCategory(): (e: EmitterCategory)
      reads this
      requires emitterCategory as nat < EMITTER_CATEGORY_COUNT
      ensures e.Ordinal() == emitterCategory as nat
    {
      EmitterCategoryOrdinalOfVariant(emitterCategory as nat);
      EmitterCategoryVariant(emitterCategory as nat)
    }

    /** Stores the variant's ordinal; reading it back gives the variant. */
    method SetEmitterCategory(value: EmitterCategory)
      modifies this
      ensures emitterCategory as int == value.Ordinal()
      ensures unchanged(this`trafficAlertStatus, this`addressType, this`participantAddress,
          this`latitude, this`longitude, this`altitude, this`headingType, this`reportType,
          this`flightStage, this`navigationIntegrityCategory,
          this`navigationAccuracyCategoryForPosition, this`horizontalVelocity,
          this`verticalVelocity, this`trackHeading, this`callsign,
          this`emergencyPriorityCode, this`reserved)
      ensures GetEmitterCategory() == value
    {
      var ord := value.Ordinal();
      emitterCategory := ord as byte;
      assert GetEmitterCategory() == value;
    }

    /** The variant whose ordinal the field holds. */
    function GetEmergencyPriorityCode(): (e: EmergencyPriorityCode)
      reads this
      requires emergencyPriorityCode as nat < EMERGENCY_PRIORITY_CODE_COUNT
      ensures e.Ordinal() == emergencyPriorityCode as nat
    {
      EmergencyPriorityCodeOrdinalOfVariant(emergencyPriorityCode as nat);
      EmergencyPriorityCodeVariant(emergencyPriorityCode as nat)
    }

    /** Stores the variant's ordinal; reading it back gives the variant. */
    method SetEmergencyPriorityCode(value: EmergencyPriorityCode)
      modifies this
      ensures emergencyPriorityCode as int == value.Ordinal()
      ensures unchanged(this`trafficAlertStatus, this`addressType, this`participantAddress,
          this`latitude, this`longitude, this`altitude, this`headingType, this`reportType,
          this`flightStage, this`navigationIntegrityCategory,
          this`navigationAccuracyCategoryForPosition, this`horizontalVelocity,
          this`verticalVelocity, this`trackHeading, this`emitterCategory, this`callsign,
          this`reserved)
      ensures GetEmergencyPriorityCode() == value
    {
      var ord := value.Ordinal();
      emergencyPriorityCode := ord as byte;
      assert GetEmergencyPriorityCode() == value;
    }
  }

  // ---------------------------------------------------------------------
  // The record of the unit test: a heavy aircraft, call sign "TEST",
  // address 0x40AABB, at 7975 ft, 260 kt, descending at 64 ft/min.

  /** The sample's call sign, "TEST" padded with four spaces. */
  const SAMPLE_CALLSIGN: seq<byte> := [0x54, 0x45, 0x53, 0x54, 0x20, 0x20, 0x20, 0x20]

  /** The 27 bytes of the sample, grouped as the runs of REPORT_WIDTHS. */
  const REPORT_SAMPLE: seq<byte> :=
      [0x00, 0x40, 0xAA, 0xBB]
    + [0x24, 0x8E, 0x4A, 0xFF, 0xB1, 0x6E]
    + [0x16, 0x79]
    + [0x89]
    + [0x10, 0x4F, 0xFF]
    + [0x12, 0x05]
    + SAMPLE_CALLSIGN
    + [0x06]

  /** The 25 raw fields the packer splits out of those bytes. */
  const REPORT_SAMPLE_RAW: seq<nat> :=
      [0, 0, 0x40AABB]
    + [0x248E4A, 0xFFB16E]
    + [0x167, 2, 0, 1]
    + [8, 9]
    + [0x104, 0xFFF]
    + [0x12, 5]
    + [0x54, 0x45, 0x53, 0x54, 0x20, 0x20, 0x20, 0x20]
    + [0, 6]

  /** The sample unpacks to exactly those raw values, and they pack back to
      exactly the sample. */
  lemma ReportSample()
    ensures Unpack(REPORT_LAYOUT, REPORT_SAMPLE) == Ok(REPORT_SAMPLE_RAW)
    ensures Pack(REPORT_LAYOUT, REPORT_SAMPLE_RAW) == REPORT_SAMPLE
  {
    ReportBits();
    SampleConcat();
    SampleFits();
    UnpackExact(REPORT_LAYOUT, REPORT_SAMPLE_RAW, REPORT_SAMPLE);
  }

  /** The sample's bytes spell the number its raw values concatenate to,
      joined run by run. */
  lemma SampleConcat()
    ensures FromBytes(REPORT_SAMPLE) == Concat(REPORT_WIDTHS, REPORT_SAMPLE_RAW)
  {
    SampleUpToCallsign();
    SampleEmergency();
    TotalBits2(4, 4);
    JoinPieces(
      [4, 4, 24] + [24, 24] + [12, 2, 1, 1] + [4, 4] + [12, 12] + [8, 8] + BYTES_8,
      [0, 0, 0x40AABB] + [0x248E4A, 0xFFB16E] + [0x167, 2, 0, 1] + [8, 9] + [0x104, 0xFFF] + [0x12, 5]
        + [0x54, 0x45, 0x53, 0x54, 0x20, 0x20, 0x20, 0x20],
      [0x00, 0x40, 0xAA, 0xBB] + [0x24, 0x8E, 0x4A, 0xFF, 0xB1, 0x6E] + [0x16, 0x79] + [0x89]
        + [0x10, 0x4F, 0xFF] + [0x12, 0x05] + SAMPLE_CALLSIGN,
      [4, 4], [0, 6], [0x06]);
  }

  /** The first twenty-six bytes: everything up to the emergency code. */
  lemma SampleUpToCallsign()
    ensures FromBytes([0x00, 0x40, 0xAA, 0xBB] + [0x24, 0x8E, 0x4A, 0xFF, 0xB1, 0x6E] + [0x16, 0x79] + [0x89]
        + [0x10, 0x4F, 0xFF] + [0x12, 0x05] + SAMPLE_CALLSIGN)
      == Concat([4, 4, 24] + [24, 24] + [12, 2, 1, 1] + [4, 4] + [12, 12] + [8, 8] + BYTES_8,
                [0, 0, 0x40AABB] + [0x248E4A, 0xFFB16E] + [0x167, 2, 0, 1] + [8, 9] + [0x104, 0xFFF] + [0x12, 5]
                  + [0x54, 0x45, 0x53, 0x54, 0x20, 0x20, 0x20, 0x20])
  {
    SampleMiddle();
    SampleCallsign();
    Bytes8Bits();
    JoinPieces(
      [4, 4, 24] + [24, 24] + [12, 2, 1, 1] + [4, 4] + [12, 12] + [8, 8],
      [0, 0, 0x40AABB] + [0x248E4A, 0xFFB16E] + [0x167, 2, 0, 1] + [8, 9] + [0x104, 0xFFF] + [0x12, 5],
      [0x00, 0x40, 0xAA, 0xBB] + [0x24, 0x8E, 0x4A, 0xFF, 0xB1, 0x6E] + [0x16, 0x79] + [0x89]
        + [0x10, 0x4F, 0xFF] + [0x12, 0x05],
      BYTES_8, [0x54, 0x45, 0x53, 0x54, 0x20, 0x20, 0x20, 0x20], SAMPLE_CALLSIGN);
  }

  /** The first eighteen bytes: the thirteen below, the velocities, the
      track and the emitter category. */
  lemma SampleMiddle()
    ensures FromBytes([0x00, 0x40, 0xAA, 0xBB] + [0x24, 0x8E, 0x4A, 0xFF, 0xB1, 0x6E] + [0x16, 0x79] + [0x89]
        + [0x10, 0x4F, 0xFF] + [0x12, 0x05])
      == Concat([4, 4, 24] + [24, 24] + [12, 2, 1, 1] + [4, 4] + [12, 12] + [8, 8],
                [0, 0, 0x40AABB] + [0x248E4A, 0xFFB16E] + [0x167, 2, 0, 1] + [8, 9] + [0x104, 0xFFF] + [0x12, 5])
  {
    SampleFront();
    SampleVelocities();
    SampleTrackEmitter();
    TotalBits2(12, 12);
    TotalBits2(8, 8);
    var l: Layout := [4, 4, 24] + [24, 24] + [12, 2, 1, 1] + [4, 4];
    var v: seq<nat> := [0, 0, 0x40AABB] + [0x248E4A, 0xFFB16E] + [0x167, 2, 0, 1] + [8, 9];
    var b: seq<byte> := [0x00, 0x40, 0xAA, 0xBB] + [0x24, 0x8E, 0x4A, 0xFF, 0xB1, 0x6E] + [0x16, 0x79] + [0x89];
    JoinPieces(l, v, b, [12, 12], [0x104, 0xFFF], [0x10, 0x4F, 0xFF]);
    l, v, b := l + [12, 12], v + [0x104, 0xFFF], b + [0x10, 0x4F, 0xFF];
    JoinPieces(l, v, b, [8, 8], [0x12, 5], [0x12, 0x05]);
  }

  /** The first thirteen bytes: address, position, altitude and the
      categories. */
  lemma SampleFront()
    ensures FromBytes([0x00, 0x40, 0xAA, 0xBB] + [0x24, 0x8E, 0x4A, 0xFF, 0xB1, 0x6E] + [0x16, 0x79] + [0x89])
      == Concat([4, 4, 24] + [24, 24] + [12, 2, 1, 1] + [4, 4],
                [0, 0, 0x40AABB] + [0x248E4A, 0xFFB16E] + [0x167, 2, 0, 1] + [8, 9])
  {
    SampleAddress();
    SampleLatLong();
    SampleAltitudeMisc();
    SampleCategories();
    TotalBits2(24, 24);
    TotalBits4(12, 2, 1, 1);
    TotalBits2(4, 4);
    var l: Layout, v: seq<nat>, b: seq<byte> := [4, 4, 24], [0, 0, 0x40AABB], [0x00, 0x40, 0xAA, 0xBB];
    JoinPieces(l, v, b, [24, 24], [0x248E4A, 0xFFB16E], [0x24, 0x8E, 0x4A, 0xFF, 0xB1, 0x6E]);
    l, v, b := l + [24, 24], v + [0x248E4A, 0xFFB16E], b + [0x24, 0x8E, 0x4A, 0xFF, 0xB1, 0x6E];
    JoinPieces(l, v, b, [12, 2, 1, 1], [0x167, 2, 0, 1], [0x16, 0x79]);
    l, v, b := l + [12, 2, 1, 1], v + [0x167, 2, 0, 1], b + [0x16, 0x79];
    JoinPieces(l, v, b, [4, 4], [8, 9], [0x89]);
  }

  /** Alert status and address type (one byte), and the address. */
  lemma SampleAddress()
    ensures FromBytes([0x00, 0x40, 0xAA, 0xBB]) == Concat([4, 4, 24], [0, 0, 0x40AABB])
  {
    Pow2Low();
    Pow2High();
    Concat2(4, 0, 4, 0);
    FromBytes1(0x00);
    FromBytes3(0x40, 0xAA, 0xBB);
    ConcatOne(24, 0x40AABB);
    assert [24][..0] == [];
    JoinPieces([4, 4], [0, 0], [0x00], [24], [0x40AABB], [0x40, 0xAA, 0xBB]);
    assert [4, 4] + [24] == [4, 4, 24] && [0, 0] + [0x40AABB] == [0, 0, 0x40AABB];
    assert [0x00] + [0x40, 0xAA, 0xBB] == [0x00, 0x40, 0xAA, 0xBB];
  }

  /** Latitude and longitude, three bytes each. */
  lemma SampleLatLong()
    ensures FromBytes([0x24, 0x8E, 0x4A, 0xFF, 0xB1, 0x6E]) == Concat([24, 24], [0x248E4A, 0xFFB16E])
  {
    Pow2High();
    Concat2(24, 0x248E4A, 24, 0xFFB16E);
    FromBytes3(0x24, 0x8E, 0x4A);
    FromBytes3(0xFF, 0xB1, 0x6E);
    FromBytesAppend([0x24, 0x8E, 0x4A], [0xFF, 0xB1, 0x6E]);
    assert [0x24, 0x8E, 0x4A] + [0xFF, 0xB1, 0x6E] == [0x24, 0x8E, 0x4A, 0xFF, 0xB1, 0x6E];
  }

  /** Altitude 0x167, heading type 2, an updated report, airborne. */
  lemma SampleAltitudeMisc()
    ensures FromBytes([0x16, 0x79]) == Concat([12, 2, 1, 1], [0x167, 2, 0, 1])
  {
    Pow2Low();
    FromBytes2(0x16, 0x79);
    Concat2(1, 0, 1, 1);
    ConcatCons(2, 2, [1, 1], [0, 1]);
    TotalBits2(1, 1);
    assert [2] + [1, 1] == [2, 1, 1] && [2] + [0, 1] == [2, 0, 1];
    ConcatCons(12, 0x167, [2, 1, 1], [2, 0, 1]);
    TotalBits3(2, 1, 1);
    assert [12] + [2, 1, 1] == [12, 2, 1, 1] && [0x167] + [2, 0, 1] == [0x167, 2, 0, 1];
  }

  /** Integrity category 8 and accuracy category 9. */
  lemma SampleCategories()
    ensures FromBytes([0x89]) == Concat([4, 4], [8, 9])
  {
    Pow2Low();
    FromBytes1(0x89);
    Concat2(4, 8, 4, 9);
  }

  /** Horizontal velocity 0x104 and vertical velocity 0xFFF. */
  lemma SampleVelocities()
    ensures FromBytes([0x10, 0x4F, 0xFF]) == Concat([12, 12], [0x104, 0xFFF])
  {
    Pow2Low();
    FromBytes3(0x10, 0x4F, 0xFF);
    Concat2(12, 0x104, 12, 0xFFF);
  }

  /** Track 0x12 and emitter category 5. */
  lemma SampleTrackEmitter()
    ensures FromBytes([0x12, 0x05]) == Concat([8, 8], [0x12, 5])
  {
    Pow2Low();
    FromBytes2(0x12, 0x05);
    Concat2(8, 0x12, 8, 5);
  }

  /** The call sign, one field per byte. */
  lemma SampleCallsign()
    ensures FromBytes(SAMPLE_CALLSIGN) == Concat(BYTES_8, [0x54, 0x45, 0x53, 0x54, 0x20, 0x20, 0x20, 0x20])
  {
    Bytes8Bits();
    ConcatBytes(SAMPLE_CALLSIGN);
    assert ByteValues(SAMPLE_CALLSIGN) == [0x54, 0x45, 0x53, 0x54, 0x20, 0x20, 0x20, 0x20];
  }

  /** Emergency code 0 and the spare nibble 6. */
  lemma SampleEmergency()
    ensures FromBytes([0x06]) == Concat([4, 4], [0, 6])
  {
    Pow2Low();
    FromBytes1(0x06);
    Concat2(4, 0, 4, 6);
  }

  /** Every raw value of the sample fits its field. */
  lemma SampleFits()
    ensures Fits(REPORT_WIDTHS, REPORT_SAMPLE_RAW)
  {
    SampleFrontFits();
    SamplePiecesFit();
    var l: Layout := [4, 4, 24] + [24, 24] + [12, 2, 1, 1] + [4, 4];
    var v: seq<nat> := [0, 0, 0x40AABB] + [0x248E4A, 0xFFB16E] + [0x167, 2, 0, 1] + [8, 9];
    FitsAppend(l, v, [12, 12], [0x104, 0xFFF]);
    l, v := l + [12, 12], v + [0x104, 0xFFF];
    FitsAppend(l, v, [8, 8], [0x12, 5]);
    l, v := l + [8, 8], v + [0x12, 5];
    FitsAppend(l, v, BYTES_8, [0x54, 0x45, 0x53, 0x54, 0x20, 0x20, 0x20, 0x20]);
    l, v := l + BYTES_8, v + [0x54, 0x45, 0x53, 0x54, 0x20, 0x20, 0x20, 0x20];
    FitsAppend(l, v, [4, 4], [0, 6]);
  }

  lemma SampleFrontFits()
    ensures Fits([4, 4, 24] + [24, 24] + [12, 2, 1, 1] + [4, 4],
                 [0, 0, 0x40AABB] + [0x248E4A, 0xFFB16E] + [0x167, 2, 0, 1] + [8, 9])
  {
    SamplePiecesFit();
    var l: Layout, v: seq<nat> := [4, 4, 24], [0, 0, 0x40AABB];
    FitsAppend(l, v, [24, 24], [0x248E4A, 0xFFB16E]);
    l, v := l + [24, 24], v + [0x248E4A, 0xFFB16E];
    FitsAppend(l, v, [12, 2, 1, 1], [0x167, 2, 0, 1]);
    l, v := l + [12, 2, 1, 1], v + [0x167, 2, 0, 1];
    FitsAppend(l, v, [4, 4], [8, 9]);
  }

  /** Each run of the sample fits its widths. */
  lemma SamplePiecesFit()
    ensures Fits([4, 4, 24], [0, 0, 0x40AABB]) && Fits([24, 24], [0x248E4A, 0xFFB16E])
    ensures Fits([12, 2, 1, 1], [0x167, 2, 0, 1]) && Fits([4, 4], [8, 9])
    ensures Fits([12, 12], [0x104, 0xFFF]) && Fits([8, 8], [0x12, 5]) && Fits([4, 4], [0, 6])
    ensures Fits(BYTES_8, [0x54, 0x45, 0x53, 0x54, 0x20, 0x20, 0x20, 0x20])
  {
    Pow2Low();
    Pow2High();
  }

  /** The getters read the sample's categories as the unit test expects. */
  lemma ReportSampleCategories()
    ensures Unpack(REPORT_LAYOUT, REPORT_SAMPLE) == Ok(REPORT_SAMPLE_RAW)
    ensures var raw := Unpack(REPORT_LAYOUT, REPORT_SAMPLE).value;
      && TrafficAlertStatusVariant(raw[TRAFFIC_ALERT_STATUS]) == TrafficAlertStatus.NoAlert
      && AddressTypeVariant(raw[ADDRESS_TYPE]) == AddressType.ADSBWithICAOAddress
      && FlightStageVariant(raw[FLIGHT_STAGE]) == FlightStage.Airborne
      && ReportTypeVariant(raw[REPORT_TYPE]) == ReportType.ReportIsUpdated
      && NICVariant(raw[NIC_FIELD]) == NIC.Lt0_1NM
      && NACpVariant(raw[NACP_FIELD]) == NACp.HFOMlt30mAndVFOMlt45m
      && EmitterCategoryVariant(raw[EMITTER_CATEGORY]) == EmitterCategory.Heavy
      && EmergencyPriorityCodeVariant(raw[EMERGENCY_PRIORITY_CODE]) == EmergencyPriorityCode.NoEmergency
  {
    ReportSample();
  }

  /** The getters read the sample's address, altitude, velocities and call
      sign as the unit test expects. */
  lemma ReportSampleValues()
    ensures Unpack(REPORT_LAYOUT, REPORT_SAMPLE) == Ok(REPORT_SAMPLE_RAW)
    ensures var raw := Unpack(REPORT_LAYOUT, REPORT_SAMPLE).value;
      && raw[PARTICIPANT_ADDRESS] == 0x40AABB
      && AltitudeFromRaw(raw[ALTITUDE] as u16) == 7975
      && HorizontalVelocityFromRaw(raw[HORIZONTAL_VELOCITY] as u16) == Some(260)
      && VerticalVelocityFromRaw(raw[VERTICAL_VELOCITY] as u16) == Some(-64)
      && raw[CALLSIGN..CALLSIGN + 8] == [0x54, 0x45, 0x53, 0x54, 0x20, 0x20, 0x20, 0x20]
  {
    ReportSample();
    VerticalVelocitySamples();
  }
}
