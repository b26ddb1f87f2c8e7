/** The Feature envelope (RFC 7946, section 3.2): an optional identifier and
    an optional Geometry, encoded together with a properties payload that
    belongs to the host type and travels through host-supplied codecs. */
module Features {
  import opened Errors
  import opened Json
  import opened Positions
  import opened Geometries

  /** A compact IRI, kept as an opaque string. */
  type IRI = string

  /** The object `EncodeGeoJSON` writes: "type" always, "id" and "geometry"
      only when set, "properties" always (a successful encode is never empty). */
  function EncodeFeature(id: Option<IRI>, geometry: Option<Coords>, properties: JValue): (r: JValue)
    ensures r.JObj?
    ensures "type" in r.members && r.members["type"] == JStr("Feature")
    ensures "properties" in r.members && r.members["properties"] == properties
    ensures "id" in r.members <==> id.Some?
    ensures id.Some? ==> "id" in r.members && r.members["id"] == JStr(id.value)
    ensures "geometry" in r.members <==> geometry.Some?
    ensures geometry.Some? ==> "geometry" in r.members && r.members["geometry"] == MarshalGeoJSON(geometry.value)
    ensures r.members.Keys <= {"type", "id", "geometry", "properties"}
  {
    JObj(map["type" := JStr("Feature"), "properties" := properties]
      + (if id.Some? then map["id" := JStr(id.value)] else map[])
      + (if geometry.Some? then map["geometry" := MarshalGeoJSON(geometry.value)] else map[]))
  }

  /** What `json.Unmarshal(bytes, &any)` leaves in the decoder's header struct;
      `geometry` and `properties` are raw sub-documents. */
  datatype FeatureHeader = FeatureHeader(typ: string, id: Option<IRI>, geometry: Option<JValue>, properties: Option<JValue>)

  function ReadFeatureHeader(j: JValue): (r: Result<FeatureHeader>)
    ensures r.Err? ==> r.error == Malformed
    ensures j.JNull? ==> r == Ok(FeatureHeader("", None, None, None))
    ensures !j.JNull? && !j.JObj? ==> r.Err?
    ensures j.JObj? ==> (r.Ok? <==> StringField(j.members, "type").Ok? && OptionalStringField(j.members, "id").Ok?)
    ensures j.JObj? && r.Ok? ==>
      && r.value.typ == StringField(j.members, "type").value
      && r.value.id == OptionalStringField(j.members, "id").value
      && r.value.geometry == Member(j.members, "geometry")
      && r.value.properties == Member(j.members, "properties")
  {
    match j
    case JNull => Ok(FeatureHeader("", None, None, None))
    case JObj(m) =>
      (match StringField(m, "type")
       case Err(e) => Err(e)
       case Ok(t) =>
         match OptionalStringField(m, "id")
         case Err(e) => Err(e)
         case Ok(id) => Ok(FeatureHeader(t, id, Member(m, "geometry"), Member(m, "properties"))))
    case _ => Err(Malformed)
  }

  /** The geometry step as the source has it: any present member, null
      included, goes to the Geometry decoder; Ok(None) means "keep". */
  function GeometryStepAsWritten(raw: Option<JValue>): (r: Result<Option<Coords>>)
    ensures raw.None? ==> r == Ok(None)
    ensures raw.Some? ==> r.Err? || r.value.Some?
  {
    match raw
    case None => Ok(None)
    case Some(g) =>
      match DecodeGeometry(g)
      case Err(e) => Err(e)
      case Ok(c) => Ok(Some(c))
  }

  /** The geometry step with a null member read as an unlocated feature, as
      RFC 7946 section 3.2 allows; the rest of the model uses this one. */
  function GeometryStep(raw: Option<JValue>): (r: Result<Option<Coords>>)
    ensures raw.None? || raw == Some(JNull) ==> r == Ok(None)
    ensures raw.Some? && raw.value != JNull ==> r == GeometryStepAsWritten(raw)
  {
    if raw.None? || raw.value == JNull then Ok(None)
    else GeometryStepAsWritten(raw)
  }

  /** As written, `{"type": "Feature", "geometry": null}` is rejected. */
  lemma NullGeometryRejectedAsWritten()
    ensures var h := ReadFeatureHeader(JObj(map["type" := JStr("Feature"), "geometry" := JNull]));
      && h == Ok(FeatureHeader("Feature", None, Some(JNull), None))
      && GeometryStepAsWritten(h.value.geometry) == Err(UnsupportedType)
  {
    NullGeometryUnsupported();
  }

  /** Corrected: the same document decodes, and keeps the feature unlocated;
      a present non-null member still goes through the Geometry decoder. */
  lemma NullGeometryAccepted(raw: Option<JValue>)
    ensures GeometryStep(Some(JNull)) == Ok(None)
    ensures raw.Some? && raw.value != JNull ==>
      (GeometryStep(raw).Ok? <==> DecodeGeometry(raw.value).Ok?) &&
      (GeometryStep(raw).Ok? ==> GeometryStep(raw).value == Some(DecodeGeometry(raw.value).value))
  {
  }

  /** The properties step: a present, non-null member is decoded into the
      host's target by the host's own codec; otherwise the target is kept. */
  function PropertiesStep<P>(raw: Option<JValue>, target: P, decodeProps: (JValue, P) -> Result<P>): (r: Result<P>)
    ensures raw.None? || raw == Some(JNull) ==> r == Ok(target)
    ensures raw.Some? && raw.value != JNull ==> r == decodeProps(raw.value, target)
  {
    if raw.None? || raw.value == JNull then Ok(target) else decodeProps(raw.value, target)
  }

  /** Reading back an encoded envelope recovers its tag, identifier,
      geometry and properties exactly. */
  lemma EnvelopeRoundTrip(id: Option<IRI>, geometry: Option<Coords>, properties: JValue)
    ensures var h := ReadFeatureHeader(EncodeFeature(id, geometry, properties));
      && h.Ok?
      && h.value.typ == "Feature"
      && h.value.id == id
      && h.value.properties == Some(properties)
      && GeometryStep(h.value.geometry) == Ok(geometry)
  {
    var m := EncodeFeature(id, geometry, properties).members;
    if geometry.Some? {
      GeometryRoundTrip(geometry.value);
      assert m["geometry"] != JNull;
    }
  }

  /** The host's properties structure, reached through a pointer. */
  class Target<P> {
    var value: P

    constructor (v: P)
      ensures value == v
    {
      value := v;
    }
  }

  class Feature {
    var id: Option<IRI>
    var geometry: Geometry?

    /** The zero value `Feature{}`: no identifier, unlocated. */
    constructor ()
      ensures id == None && geometry == null
    {
      id := None;
      geometry := null;
    }

    constructor NewPoint(coords: Position)
      ensures id == None && geometry != null && fresh(geometry)
      ensures geometry.coords == Some(Point(coords))
    {
      id := None;
      geometry := new Geometry.Of(Point(coords));
    }

    constructor NewMultiPoint(coords: Sequence)
      ensures id == None && geometry != null && fresh(geometry)
      ensures geometry.coords == Some(MultiPoint(coords))
    {
      id := None;
      geometry := new Geometry.Of(MultiPoint(coords));
    }

    constructor NewLineString(coords: Sequence)
      ensures id == None && geometry != null && fresh(geometry)
      ensures geometry.coords == Some(LineString(coords))
    {
      id := None;
      geometry := new Geometry.Of(LineString(coords));
    }

    constructor NewMultiLineString(coords: Surface)
      ensures id == None && geometry != null && fresh(geometry)
      ensures geometry.coords == Some(MultiLineString(coords))
    {
      id := None;
      geometry := new Geometry.Of(MultiLineString(coords));
    }

    constructor NewPolygon(coords: Surface)
      ensures id == None && geometry != null && fresh(geometry)
      ensures geometry.coords == Some(Polygon(coords))
    {
      id := None;
      geometry := new Geometry.Of(Polygon(coords));
    }

    constructor NewMultiPolygon(coords: seq<Surface>)
      ensures id == None && geometry != null && fresh(geometry)
      ensures geometry.coords == Some(MultiPolygon(coords))
    {
      id := None;
      geometry := new Geometry.Of(MultiPolygon(coords));
    }

    /** The value-receiver updater: a copy whose only change is the identifier
        (the copy shares the Geometry pointer, as a Go struct copy does). */
    method WithIRI(iri: IRI) returns (f: Feature)
      ensures fresh(f)
      ensures f.id == Some(iri) && f.geometry == geometry
    {
      f := new Feature();
      f.id := Some(iri);
      f.geometry := geometry;
    }

    /** As WithIRI, with the identifier obtained from a string by the IRI
        type's own parser. */
    method WithID(iri: string, parse: string -> IRI) returns (f: Feature)
      ensures fresh(f)
      ensures f.id == Some(parse(iri)) && f.geometry == geometry
    {
      f := WithIRI(parse(iri));
    }

    /** A Feature can be encoded when its Geometry, if any, holds a variant. */
    predicate Encodable()
      reads this, geometry
    {
      geometry != null ==> geometry.coords.Some?
    }

    function GeometryValue(): (g: Option<Coords>)
      reads this, geometry
      requires Encodable()
      ensures g.Some? <==> geometry != null
      ensures g.Some? ==> geometry.coords == g
    {
      if geometry == null then None else geometry.coords
    }

    /** EncodeGeoJSON: encode the host's properties first, then the envelope. */
    function EncodeGeoJSON<P>(props: P, encodeProps: P -> Result<JValue>): (r: Result<JValue>)
      reads this, geometry
      requires Encodable()
      ensures encodeProps(props).Err? ==> r == Err(encodeProps(props).error)
      ensures encodeProps(props).Ok? ==> r.Ok? && r.value == EncodeFeature(id, GeometryValue(), encodeProps(props).value)
    {
      match encodeProps(props)
      case Err(e) => Err(e)
      case Ok(properties) => Ok(EncodeFeature(id, GeometryValue(), properties))
    }

    /** DecodeGeoJSON: read the header; check the tag; replace the Geometry
        when a non-null geometry is given (the corrected GeometryStep: a null
        one keeps the Geometry); decode the properties into the host's
        target; assign the identifier last. */
    method DecodeGeoJSON<P>(j: JValue, target: Target<P>, decodeProps: (JValue, P) -> Result<P>) returns (err: Option<Error>)
      modifies this, target
      ensures ReadFeatureHeader(j).Err? ==>
        err == Some(ReadFeatureHeader(j).error) &&
        id == old(id) && geometry == old(geometry) && target.value == old(target.value)
      ensures ReadFeatureHeader(j).Ok? ==>
        var h := ReadFeatureHeader(j).value;
        if h.typ != "Feature" then
          err == Some(UnsupportedType) &&
          id == old(id) && geometry == old(geometry) && target.value == old(target.value)
        else match GeometryStep(h.geometry)
          case Err(e) =>
            err == Some(e) &&
            id == old(id) && geometry == old(geometry) && target.value == old(target.value)
          case Ok(g) =>
            && (g.None? ==> geometry == old(geometry))
            && (g.Some? ==> geometry != null && fresh(geometry) && geometry.coords == g)
            && match PropertiesStep(h.properties, old(target.value), decodeProps)
               case Err(e) => err == Some(e) && id == old(id) && target.value == old(target.value)
               case Ok(p) => err == None && id == h.id && target.value == p
    {
      var header := ReadFeatureHeader(j);
      if header.Err? {
        return Some(header.error);
      }
      var h := header.value;
      if h.typ != "Feature" {
        return Some(UnsupportedType);
      }
      if h.geometry.Some? && h.geometry.value != JNull {
        var geo := new Geometry();
        var e := geo.UnmarshalJSON(h.geometry.value);
        if e.Some? {
          return e;
        }
        geometry := geo;
      }
      if h.properties.Some? && h.properties.value != JNull {
        var p := decodeProps(h.properties.value, target.value);
        if p.Err? {
          return Some(p.error);
        }
        target.value := p.value;
      }
      id := h.id;
      return None;
    }
  }

  /** A host value encoded with its Feature and decoded into a fresh Feature
      and target comes back with the same identifier, the same properties and
      a geometry of the same variant with equal coordinates. */
  method RoundTrip<P>(fea: Feature, props: P, encodeProps: P -> Result<JValue>, decodeProps: (JValue, P) -> Result<P>, zero: P)
    returns (decoded: Feature, target: Target<P>, err: Option<Error>)
    requires fea.Encodable()
    requires encodeProps(props).Ok? && encodeProps(props).value != JNull
    requires decodeProps(encodeProps(props).value, zero) == Ok(props)
    ensures err == None
    ensures decoded.id == fea.id
    ensures target.value == props
    ensures decoded.geometry == null <==> fea.geometry == null
    ensures fea.geometry != null ==> decoded.geometry.coords == fea.geometry.coords
  {
    var j := fea.EncodeGeoJSON(props, encodeProps).value;
    EnvelopeRoundTrip(fea.id, fea.GeometryValue(), encodeProps(props).value);
    decoded := new Feature();
    target := new Target(zero);
    err := decoded.DecodeGeoJSON(j, target, decodeProps);
  }
}
