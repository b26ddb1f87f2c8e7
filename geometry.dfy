/** The closed set of six geometry types (RFC 7946, sections 3.1.2 to
    3.1.7), their wire tags, and the `type`-dispatched codec of a Geometry
    object.  GeometryCollection (section 3.1.8) is not handled. */
module Geometries {
  import opened Errors
  import opened Json
  import opened Positions

  /** Which of the six variants a geometry is. */
  datatype Kind = PointKind | MultiPointKind | LineStringKind | MultiLineStringKind | PolygonKind | MultiPolygonKind

  /** The `type` member each variant's encoder writes. */
  function Tag(k: Kind): (r: string)
    ensures KindOf(r) == Some(k)
  {
    match k
    case PointKind => "Point"
    case MultiPointKind => "MultiPoint"
    case LineStringKind => "LineString"
    case MultiLineStringKind => "MultiLineString"
    case PolygonKind => "Polygon"
    case MultiPolygonKind => "MultiPolygon"
  }

  /** The `switch gen.Type` of the decoder; None is its `default` branch. */
  function KindOf(tag: string): Option<Kind>
  {
    if tag == "Point" then Some(PointKind)
    else if tag == "MultiPoint" then Some(MultiPointKind)
    else if tag == "LineString" then Some(LineStringKind)
    else if tag == "MultiLineString" then Some(MultiLineStringKind)
    else if tag == "Polygon" then Some(PolygonKind)
    else if tag == "MultiPolygon" then Some(MultiPolygonKind)
    else None
  }

  /** The value behind the `Coords` interface: one variant, owning a
      coordinate shape whose nesting depth the variant fixes. */
  datatype Coords =
    | Point(position: Position)
    | MultiPoint(sequence: Sequence)
    | LineString(sequence: Sequence)
    | MultiLineString(surface: Surface)
    | Polygon(surface: Surface)
    | MultiPolygon(surfaces: seq<Surface>)
  {
    function Variant(): Kind
    {
      match this
      case Point(_) => PointKind
      case MultiPoint(_) => MultiPointKind
      case LineString(_) => LineStringKind
      case MultiLineString(_) => MultiLineStringKind
      case Polygon(_) => PolygonKind
      case MultiPolygon(_) => MultiPolygonKind
    }
  }

  /** The variant the decoder allocates before filling it (`&Point{}`, ...). */
  function Zero(k: Kind): (c: Coords)
    ensures c.Variant() == k
  {
    match k
    case PointKind => Point([])
    case MultiPointKind => MultiPoint([])
    case LineStringKind => LineString([])
    case MultiLineStringKind => MultiLineString([])
    case PolygonKind => Polygon([])
    case MultiPolygonKind => MultiPolygon([])
  }

  /** The `coordinates` member of a variant. */
  function EncodeCoordinates(c: Coords): (r: JValue)
    ensures r.JArr?
  {
    match c
    case Point(p) => EncodePosition(p)
    case MultiPoint(s) => EncodeSequence(s)
    case LineString(s) => EncodeSequence(s)
    case MultiLineString(s) => EncodeSurface(s)
    case Polygon(s) => EncodeSurface(s)
    case MultiPolygon(s) => EncodeSurfaces(s)
  }

  /** A variant's MarshalGeoJSON: `{"type": <tag>, "coordinates": <shape>}`. */
  function MarshalGeoJSON(c: Coords): (r: JValue)
    ensures r.JObj? && r.members.Keys == {"type", "coordinates"}
    ensures r.members["type"] == JStr(Tag(c.Variant()))
  {
    JObj(map["type" := JStr(Tag(c.Variant())), "coordinates" := EncodeCoordinates(c)])
  }

  /** A variant's UnmarshalGeoJSON applied to the raw `coordinates` member;
      an absent member is an empty RawMessage, which the JSON layer rejects. */
  function UnmarshalGeoJSON(k: Kind, raw: Option<JValue>): (r: Result<Coords>)
    ensures r.Ok? ==> r.value.Variant() == k
    ensures raw.None? ==> r == Err(Malformed)
  {
    match raw
    case None => Err(Malformed)
    case Some(j) =>
      match k
      case PointKind =>
        (match DecodePosition(j) case Ok(p) => Ok(Point(p)) case Err(e) => Err(e))
      case MultiPointKind =>
        (match DecodeSequence(j) case Ok(s) => Ok(MultiPoint(s)) case Err(e) => Err(e))
      case LineStringKind =>
        (match DecodeSequence(j) case Ok(s) => Ok(LineString(s)) case Err(e) => Err(e))
      case MultiLineStringKind =>
        (match DecodeSurface(j) case Ok(s) => Ok(MultiLineString(s)) case Err(e) => Err(e))
      case PolygonKind =>
        (match DecodeSurface(j) case Ok(s) => Ok(Polygon(s)) case Err(e) => Err(e))
      case MultiPolygonKind =>
        (match DecodeSurfaces(j) case Ok(s) => Ok(MultiPolygon(s)) case Err(e) => Err(e))
  }

  /** What `json.Unmarshal(b, &gen)` leaves in the decoder's header struct. */
  datatype GeometryHeader = GeometryHeader(typ: string, coordinates: Option<JValue>)

  /** Null reads as the zero header; a non-object, or a `type` member that is
      not a string, is the JSON layer's error. */
  function ReadGeometryHeader(j: JValue): (r: Result<GeometryHeader>)
    ensures r.Err? ==> r.error == Malformed
    ensures j.JNull? ==> r == Ok(GeometryHeader("", None))
    ensures !j.JNull? && !j.JObj? ==> r.Err?
    ensures j.JObj? ==> (r.Ok? <==> StringField(j.members, "type").Ok?)
    ensures j.JObj? && r.Ok? ==>
      r.value.typ == StringField(j.members, "type").value && r.value.coordinates == Member(j.members, "coordinates")
  {
    match j
    case JNull => Ok(GeometryHeader("", None))
    case JObj(m) =>
      (match StringField(m, "type")
       case Err(e) => Err(e)
       case Ok(t) => Ok(GeometryHeader(t, Member(m, "coordinates"))))
    case _ => Err(Malformed)
  }

  /** The whole decode of a Geometry object, as a value. */
  function DecodeGeometry(j: JValue): Result<Coords>
  {
    match ReadGeometryHeader(j)
    case Err(e) => Err(e)
    case Ok(h) =>
      match KindOf(h.typ)
      case None => Err(UnsupportedType)
      case Some(k) => UnmarshalGeoJSON(k, h.coordinates)
  }

  /** Each of the six tags selects exactly its own variant, and nothing else
      selects a variant. */
  lemma DispatchIsExact(tag: string, k: Kind)
    ensures KindOf(tag) == Some(k) <==> tag == Tag(k)
  {
  }

  /** Every string that is not one of the six tags is rejected. */
  lemma UnknownTagRejected(j: JValue)
    requires ReadGeometryHeader(j).Ok?
    requires forall k: Kind :: ReadGeometryHeader(j).value.typ != Tag(k)
    ensures DecodeGeometry(j) == Err(UnsupportedType)
  {
    var t := ReadGeometryHeader(j).value.typ;
    if KindOf(t).Some? {
      DispatchIsExact(t, KindOf(t).value);
      assert false;
    }
  }

  /** The empty string (a missing `type`), GeometryCollection and
      case-variant near misses are among the rejected tags. */
  lemma RejectedTags()
    ensures KindOf("") == None
    ensures KindOf("GeometryCollection") == None
    ensures KindOf("Unknown") == None
    ensures KindOf("point") == None
  {
  }

  /** A null document decodes as a missing `type` and is rejected. */
  lemma NullGeometryUnsupported()
    ensures DecodeGeometry(JNull) == Err(UnsupportedType)
  {
  }

  /** A known tag without a `coordinates` member fails in the JSON layer. */
  lemma MissingCoordinatesMalformed(k: Kind)
    ensures DecodeGeometry(JObj(map["type" := JStr(Tag(k))])) == Err(Malformed)
  {
    assert KindOf(Tag(k)) == Some(k);
  }

  /** A successful decode yields the variant its `type` names. */
  lemma DecodedVariantMatchesTag(j: JValue)
    requires DecodeGeometry(j).Ok?
    ensures ReadGeometryHeader(j).Ok?
    ensures ReadGeometryHeader(j).value.typ == Tag(DecodeGeometry(j).value.Variant())
  {
    var t := ReadGeometryHeader(j).value.typ;
    DispatchIsExact(t, KindOf(t).value);
  }

  /** Rings of a Polygon (exterior and holes) come out in the order written. */
  lemma PolygonRingsInOrder(rings: seq<JValue>)
    ensures var r := DecodeGeometry(JObj(map["type" := JStr("Polygon"), "coordinates" := JArr(rings)]));
      r.Ok? ==>
        && r.value.Polygon?
        && |r.value.surface| == |rings|
        && forall i :: 0 <= i < |rings| ==> DecodeSequence(rings[i]) == Ok(r.value.surface[i])
  {
  }

  /** Polygons of a MultiPolygon come out in the order written. */
  lemma PolygonsInOrder(polygons: seq<JValue>)
    ensures var r := DecodeGeometry(JObj(map["type" := JStr("MultiPolygon"), "coordinates" := JArr(polygons)]));
      r.Ok? ==>
        && r.value.MultiPolygon?
        && |r.value.surfaces| == |polygons|
        && forall i :: 0 <= i < |polygons| ==> DecodeSurface(polygons[i]) == Ok(r.value.surfaces[i])
  {
  }

  /** Decoding what a variant encodes gives back the same variant with equal
      coordinates. */
  lemma GeometryRoundTrip(c: Coords)
    ensures DecodeGeometry(MarshalGeoJSON(c)) == Ok(c)
  {
    assert KindOf(Tag(c.Variant())) == Some(c.Variant());
    match c
    case Point(p) => PositionRoundTrip(p);
    case MultiPoint(s) => SequenceRoundTrip(s);
    case LineString(s) => SequenceRoundTrip(s);
    case MultiLineString(s) => SurfaceRoundTrip(s);
    case Polygon(s) => SurfaceRoundTrip(s);
    case MultiPolygon(s) => SurfacesRoundTrip(s);
  }

  /** The Geometry object: a holder of one `Coords` value, nil until decoded. */
  class Geometry {
    var coords: Option<Coords>

    /** The zero value `Geometry{}`. */
    constructor ()
      ensures coords == None
    {
      coords := None;
    }

    constructor Of(c: Coords)
      ensures coords == Some(c)
    {
      coords := Some(c);
    }

    /** MarshalJSON defers to the variant (a nil variant would panic). */
    function MarshalJSON(): (r: JValue)
      reads this
      requires coords.Some?
      ensures r.JObj? && "type" in r.members && r.members["type"] == JStr(Tag(coords.value.Variant()))
      ensures DecodeGeometry(r) == Ok(coords.value)
    {
      GeometryRoundTrip(coords.value);
      MarshalGeoJSON(coords.value)
    }

    /** UnmarshalJSON: read the header; on a known tag install a fresh variant,
        then fill its coordinates. */
    method UnmarshalJSON(j: JValue) returns (err: Option<Error>)
      modifies this
      ensures ReadGeometryHeader(j).Err? ==> err == Some(ReadGeometryHeader(j).error) && coords == old(coords)
      ensures ReadGeometryHeader(j).Ok? && KindOf(ReadGeometryHeader(j).value.typ).None? ==>
        err == Some(UnsupportedType) && coords == old(coords)
      ensures ReadGeometryHeader(j).Ok? && KindOf(ReadGeometryHeader(j).value.typ).Some? ==>
        coords.Some? && coords.value.Variant() == KindOf(ReadGeometryHeader(j).value.typ).value
      ensures err.None? <==> DecodeGeometry(j).Ok?
      ensures err.None? ==> coords == Some(DecodeGeometry(j).value)
      ensures err.Some? ==> err == Some(DecodeGeometry(j).error)
    {
      var header := ReadGeometryHeader(j);
      if header.Err? {
        return Some(header.error);
      }
      var kind := KindOf(header.value.typ);
      if kind.None? {
        return Some(UnsupportedType);
      }
      coords := Some(Zero(kind.value));
      var decoded := UnmarshalGeoJSON(kind.value, header.value.coordinates);
      if decoded.Err? {
        return Some(decoded.error);
      }
      coords := Some(decoded.value);
      return None;
    }
  }
}
