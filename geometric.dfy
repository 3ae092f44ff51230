/** The ownship geometric altitude message (message id 11): the altitude
    above the WGS-84 ellipsoid in 5 ft steps, a vertical warning flag and a
    15-bit vertical figure of merit in metres, four bytes in all. */
module Geometric {
  import opened Common
  import opened Packing

  /** The field widths of the record, in wire order. */
  const GEOMETRIC_WIDTHS: Layout := [16, 1, 15]

  /** The same widths, known to fill whole bytes. */
  const GEOMETRIC_LAYOUT: ByteLayout := (GeometricBits(); GEOMETRIC_WIDTHS)

  /** The record is 32 bits, four bytes. */
  lemma GeometricBits()
    ensures TotalBits(GEOMETRIC_WIDTHS) == 32
  {
    TotalBits3(16, 1, 15);
  }

  /** What fitting the layout means field by field. */
  lemma GeometricFits(values: seq<nat>)
    ensures Fits(GEOMETRIC_WIDTHS, values)
      <==> |values| == 3 && values[0] < 0x1_0000 && values[1] < 2 && values[2] < 0x8000
  {
    Pow2Low();
  }

  // ---------------------------------------------------------------------
  // The altitude: 5 ft per step.

  /** The altitude in feet for a raw value.  The product is computed in
      16 bits and overflows (a panic) above raw 13107. */
  function GeoAltitudeFromRaw(raw: u16): (feet: i32)
    requires raw as int * 5 < 0x1_0000
    ensures 0 <= feet as int < 0x1_0000 && feet as int % 5 == 0
  {
    (raw as int * 5) as i32
  }

  /** The raw value stored for an altitude: the value divided by 5, cut to
      16 bits (Rust `as u16`). */
  function GeoAltitudeToRaw(value: u32): u16 {
    (value as int / 5 % 0x1_0000) as u16
  }

  /** A set followed by a get rounds the altitude down to a multiple of 5,
      for every value the 16-bit product can hold. */
  lemma GeoAltitudeSetGet(value: u32)
    requires value < 0x1_0000
    ensures GeoAltitudeToRaw(value) as int * 5 < 0x1_0000
    ensures GeoAltitudeFromRaw(GeoAltitudeToRaw(value)) as int == value as int - value as int % 5
  {}

  /** A multiple of 5 survives a set and a get. */
  lemma GeoAltitudeRoundTrip(value: u32)
    requires value < 0x1_0000 && value as int % 5 == 0
    ensures GeoAltitudeFromRaw(GeoAltitudeToRaw(value)) as int == value as int
  {
    GeoAltitudeSetGet(value);
  }

  /** Every raw value the getter accepts survives a get and a set. */
  lemma GeoAltitudeRawRoundTrip(raw: u16)
    requires raw as int * 5 < 0x1_0000
    ensures GeoAltitudeToRaw(GeoAltitudeFromRaw(raw) as int as u32) == raw
  {}

  /** 170 ft is stored as 34; from 2^16 * 5 ft up the stored value wraps,
      so 327680 ft is stored as 0. */
  lemma GeoAltitudeWraps()
    ensures GeoAltitudeToRaw(170) == 34
    ensures GeoAltitudeToRaw(327680) == 0
  {}

  // ---------------------------------------------------------------------
  // The vertical figure of merit: metres, 0x7FFF meaning "not available".

  function FigureOfMeritFromRaw(raw: u16): (r: Option<u16>)
    ensures r.None? <==> raw == 0x7FFF
    ensures r.Some? ==> r.value == raw
  {
    if raw == 0x7FFF then None else Some(raw)
  }

  /** The raw value stored for a figure of merit: the value itself, or
      0x7FFF for none. */
  function FigureOfMeritToRaw(value: Option<u16>): (raw: u16)
    ensures value.None? ==> raw == 0x7FFF
    ensures value.Some? ==> raw == value.value
  {
    match value
    case Some(v) => v
    case None => 0x7FFF
  }

  /** A value other than 0x7FFF, or none, survives a set and a get; 0x7FFF
      itself reads back as none. */
  lemma FigureOfMeritRoundTrip(value: Option<u16>)
    ensures (value.None? || value.value != 0x7FFF) ==>
      FigureOfMeritFromRaw(FigureOfMeritToRaw(value)) == value
    ensures value == Some(0x7FFF) ==> FigureOfMeritFromRaw(FigureOfMeritToRaw(value)) == None
  {}

  /** Every raw value survives a get and a set. */
  lemma FigureOfMeritRawRoundTrip(raw: u16)
    ensures FigureOfMeritToRaw(FigureOfMeritFromRaw(raw)) == raw
  {}

  // ---------------------------------------------------------------------
  // The record.

  class OwnershipGeometricAltitude {
    var ownshipGeoAltitude: u16
    var verticalWarningIndicator: bool
    var verticalFigureOfMerit: u16

    /** The raw field values, in wire order. */
    function Raw(): (r: seq<nat>)
      reads this
      ensures |r| == |GEOMETRIC_WIDTHS|
    {
      [ownshipGeoAltitude as nat, Bit(verticalWarningIndicator), verticalFigureOfMerit as nat]
    }

    /** The record with every field zero (Rust `Default`). */
    constructor ()
      ensures Raw() == [0, 0, 0]
    {
      ownshipGeoAltitude, verticalWarningIndicator, verticalFigureOfMerit := 0, false, 0;
    }

    /** The record holding the given raw values. */
    constructor FromRaw(values: seq<nat>)
      requires Fits(GEOMETRIC_WIDTHS, values)
      ensures Raw() == values
    {
      GeometricFits(values);
      ownshipGeoAltitude := values[0] as u16;
      verticalWarningIndicator := values[1] == 1;
      verticalFigureOfMerit := values[2] as u16;
    }

    /** Reads a record from the start of `bytes` (Rust `try_from`). */
    static method TryFrom(bytes: seq<byte>) returns (r: Result<OwnershipGeometricAltitude>)
      ensures r.Ok? <==> |bytes| >= 4
      ensures r.Ok? ==> fresh(r.value) && Unpack(GEOMETRIC_LAYOUT, bytes) == Ok(r.value.Raw())
      ensures r.Err? ==> Unpack(GEOMETRIC_LAYOUT, bytes).Err? && r.error == Unpack(GEOMETRIC_LAYOUT, bytes).error
    {
      GeometricBits();
      var unpacked := Unpack(GEOMETRIC_LAYOUT, bytes);
      if unpacked.Ok? {
        var geo := new OwnershipGeometricAltitude.FromRaw(unpacked.value);
        r := Ok(geo);
      } else {
        r := Err(unpacked.error);
      }
    }

    /** The four bytes of the record (Rust `to_bytes`); they read back as the
        record whenever the figure of merit fits its 15 bits. */
    function ToBytes(): (bytes: seq<byte>)
      reads this
      ensures |bytes| == 4
      ensures verticalFigureOfMerit < 0x8000 ==> Unpack(GEOMETRIC_LAYOUT, bytes) == Ok(Raw())
    {
      GeometricBits();
      GeometricFits(Raw());
      var bytes := Pack(GEOMETRIC_LAYOUT, Raw());
      if verticalFigureOfMerit < 0x8000 then UnpackPack(GEOMETRIC_LAYOUT, Raw()); bytes else bytes
    }

    function GetOwnshipGeoAltitude(): i32
      reads this
      requires ownshipGeoAltitude as int * 5 < 0x1_0000
    {
      GeoAltitudeFromRaw(ownshipGeoAltitude)
    }

    method SetOwnshipGeoAltitude(value: u32)
      modifies this
      ensures ownshipGeoAltitude == GeoAltitudeToRaw(value)
      ensures unchanged(this`verticalWarningIndicator, this`verticalFigureOfMerit)
    {
      ownshipGeoAltitude := (value as int / 5 % 0x1_0000) as u16;
    }

    function GetVerticalWarningIndicator(): bool
      reads this
    {
      verticalWarningIndicator
    }

    method SetVerticalWarningIndicator(value: bool)
      modifies this
      ensures GetVerticalWarningIndicator() == value
      ensures unchanged(this`ownshipGeoAltitude, this`verticalFigureOfMerit)
    {
      verticalWarningIndicator := value;
    }

    function GetVerticalFigureOfMerit(): Option<u16>
      reads this
    {
      FigureOfMeritFromRaw(verticalFigureOfMerit)
    }

    method SetVerticalFigureOfMerit(value: Option<u16>)
      modifies this
      ensures verticalFigureOfMerit == FigureOfMeritToRaw(value)
      ensures unchanged(this`ownshipGeoAltitude, this`verticalWarningIndicator)
    {
      match value {
        case Some(v) => verticalFigureOfMerit := v;
        case None => verticalFigureOfMerit := 0x7FFF;
      }
    }
  }

  // ---------------------------------------------------------------------
  // The record of the unit test.

  /** Bytes 00 22 00 75: raw altitude 34 (170 ft), warning clear, figure of
      merit 117. */
  lemma GeometricSample()
    ensures Unpack(GEOMETRIC_LAYOUT, [0x00, 0x22, 0x00, 0x75]) == Ok([34, 0, 117])
    ensures Pack(GEOMETRIC_LAYOUT, [34, 0, 117]) == [0x00, 0x22, 0x00, 0x75]
  {
    GeometricBits();
    GeometricFits([34, 0, 117]);
    GeometricConcat();
    UnpackExact(GEOMETRIC_LAYOUT, [34, 0, 117], [0x00, 0x22, 0x00, 0x75]);
  }

  lemma GeometricConcat()
    ensures FromBytes([0x00, 0x22, 0x00, 0x75]) == Concat(GEOMETRIC_WIDTHS, [34, 0, 117])
  {
    Pow2Low();
    ConcatOne(15, 117);
    TotalBits2(1, 15);
    ConcatCons(1, 0, [15], [117]);
    ConcatCons(16, 34, [1, 15], [0, 117]);
    assert [1] + [15] == [1, 15] && [0] + [117] == [0, 117];
    assert [16] + [1, 15] == [16, 1, 15] && [34] + [0, 117] == [34, 0, 117];
    FromBytes2(0x00, 0x22);
    FromBytes2(0x00, 0x75);
    FromBytesAppend([0x00, 0x22], [0x00, 0x75]);
    assert [0x00, 0x22] + [0x00, 0x75] == [0x00, 0x22, 0x00, 0x75];
  }

  /** A default record with altitude 170 ft and figure of merit 117. */
  method BuildSample() returns (geo: OwnershipGeometricAltitude)
    ensures fresh(geo)
    ensures geo.Raw() == [34, 0, 117]
  {
    geo := new OwnershipGeometricAltitude();
    geo.SetOwnshipGeoAltitude(170);
    geo.SetVerticalFigureOfMerit(Some(117));
    GeoAltitudeWraps();
  }

  /** Decoding 00 22 00 75 gives the same record as the one built above,
      which encodes as those bytes. */
  method DecodeMatchesBuilt() returns (decoded: seq<nat>, built: seq<nat>, encoded: seq<byte>)
    ensures decoded == built && built == [34, 0, 117]
    ensures encoded == [0x00, 0x22, 0x00, 0x75]
  {
    var data: seq<byte> := [0x00, 0x22, 0x00, 0x75];
    GeometricSample();
    var r := OwnershipGeometricAltitude.TryFrom(data);
    decoded := r.value.Raw();
    var geo := BuildSample();
    built := geo.Raw();
    encoded := geo.ToBytes();
  }
}
