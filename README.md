# GeoJSON codec model (fogfish/geojson)

A Dafny model of the core of a Go GeoJSON codec (RFC 7946). The codec encodes
Go values to GeoJSON and decodes them back: the six geometry types, the Feature
envelope and the FeatureCollection envelope. The model works over an abstract
JSON tree, `Json.JValue`, instead of bytes. The behaviours of Go's
`encoding/json` that the codec relies on are written out explicitly:

- a `json.RawMessage` member is present whenever its key is, even with a null value;
- null decodes into a struct as a no-op and into a slice as nil;
- a type mismatch is an error;
- an error from an element's encoder is wrapped.

Modules, one per source file:

- `Errors` (error.go): the error kinds. `UnsupportedType` is the library's
  only own error value; `Malformed` stands for the JSON layer's errors; `Host`
  and `Marshaler` stand for errors from host codecs.
- `Json`: the tree, field extraction as Go's struct decoding does it, and the
  slice codec (element by element, stopping at the first failure).
- `Positions` (position.go): `Position`, `Sequence` and `Surface`, and their
  nested-array codecs.
- `Geometries` (geometry.go): the closed union `Coords` of six variants, the
  tag table, per-variant encode and decode, and the `Geometry` class. Its
  `UnmarshalJSON` installs a fresh variant and then fills it, as the source does.
- `Features` (feature.go): the `Feature` class (ID, Geometry), its
  constructors and updaters, `EncodeGeoJSON`, and the step-by-step
  `DecodeGeoJSON`. The host's properties are a value of any type `P`. They
  travel through host-supplied codecs into a `Target<P>` cell, which stands
  for the pointer the host passes.
- `Collections` (collection.go): the `Collection<T>` class. `T` is any member
  type with a box function, `boxOf: T -> B`. The box type `B` and its `join`
  are parameters. The module holds the bounding-box fold, `MarshalJSON` and
  `UnmarshalJSON`.

Points where the code's behaviour is easy to misread, and which the model
keeps as the code has them:

- `ErrorUnsupportedType` is a single constant; it does not carry the offending type string.
- A Geometry document whose `type` is missing or null decodes with type "" and is rejected.
- `properties` is always written on a successful encode, even when it is null.
- An absent `features` member leaves a collection's members unchanged; it does not empty them.
- The collection's bounding box joins the box of every member, member 0 first, in index order.
- A Feature whose `geometry` member is null is rejected by the code (shown under Findings).
  `Feature.DecodeGeoJSON` uses the corrected step instead, which keeps such a feature
  unlocated. `GeometryStepAsWritten` and `NullGeometryRejectedAsWritten` record the code's behaviour.

## Model

| member | source | states |
|---|---|---|
| `Json.Member` | feature.go:100-101 | a raw member is present exactly when its key is, and then holds that key's value |
| `Json.StringField` | geometry.go:43-49 | a string field: absent or null reads as "", a string is taken, any other value is an error |
| `Json.OptionalStringField` | feature.go:99 | the `*curie.IRI` field: absent or null reads as nil, a string is taken, any other value is an error |
| `Json.Traverse` | collection.go:36-39 | elements are processed in order: on success, element i of the result comes from element i of the input; on failure, the error is that of the first failing element |
| `Json.DecodeArray` | geometry.go:91-94 | a slice decodes from null as empty and from an array element-wise; any other value is an error |
| `Json.EncodeArray` | geometry.go:84-87 | a slice is written as an array of the same length, position by position |
| `Json.ArrayRoundTrip` | geometry.go:83-95 | an array decodes back to its slice whenever each element does |
| `Positions.DecodeNumber` | position.go:21 | a float64 is read from a number as that number and from null as 0; any other value is an error |
| `Positions.EncodePosition` | position.go:21 | a position is written as an array of the same length, number i at index i |
| `Positions.DecodePosition` | position.go:21 | null reads as empty; an array reads when every item is a number or null, item i giving number i; any other value is an error |
| `Positions.EncodeSequence` | position.go:28 | a sequence is written as an array of the same length, position i at index i |
| `Positions.DecodeSequence` | position.go:28 | null reads as empty; an array reads when every item reads as a position, item i giving position i; any other value is an error |
| `Positions.EncodeSurface` | position.go:36 | a surface is written as an array of the same length, sequence i at index i |
| `Positions.DecodeSurface` | position.go:36 | null reads as empty; an array reads when every item reads as a sequence, item i giving sequence i; any other value is an error |
| `Positions.EncodeSurfaces` | geometry.go:197-199 | a list of surfaces is written as an array of the same length, surface i at index i |
| `Positions.DecodeSurfaces` | geometry.go:208-213 | null reads as empty; an array reads when every item reads as a surface, item i giving surface i; any other value is an error |
| `Positions.PositionRoundTrip` | position.go:21 | a written position reads back as itself |
| `Positions.SequenceRoundTrip` | position.go:28 | a written sequence reads back as itself, in the same order |
| `Positions.SurfaceRoundTrip` | position.go:36 | a written surface reads back as itself, rings and holes in order |
| `Positions.SurfacesRoundTrip` | geometry.go:197-199 | a written list of surfaces reads back as itself, polygons in order |
| `Positions.PositionIsNotSequence` | position.go:21-28 | a non-empty position is rejected where a sequence is expected |
| `Positions.SequenceIsNotPosition` | position.go:21-28 | a non-empty sequence is rejected where a position is expected |
| `Positions.SequenceIsNotSurface` | position.go:28-36 | a sequence whose first position holds a number is rejected where a surface is expected |
| `Geometries.Tag` | geometry.go:83-206 | the `type` each variant's encoder writes is read back by the decoder's switch as that same variant (`DispatchIsExact` gives the converse) |
| `Geometries.KindOf` | geometry.go:51-71 | no contract of its own; `DispatchIsExact` states that it selects variant k exactly for k's tag, and `RejectedTags` and `UnknownTagRejected` its `default` branch |
| `Geometries.EncodeCoordinates` | geometry.go:83-206 | a variant's `coordinates` member is an array; its content is fixed by `GeometryRoundTrip`, which reads it back as the same coordinates |
| `Geometries.DecodeGeometry` | geometry.go:42-73 | no contract of its own; the geometry lemmas below state what it does: `DispatchIsExact`, `UnknownTagRejected`, `NullGeometryUnsupported`, `MissingCoordinatesMalformed`, `DecodedVariantMatchesTag` and `GeometryRoundTrip` |
| `Geometries.Zero` | geometry.go:53-68 | the variant the decoder allocates for a tag is that tag's variant |
| `Geometries.MarshalGeoJSON` | geometry.go:83-206 | a variant encodes to an object with exactly `type` and `coordinates`, and `type` is the variant's own tag |
| `Geometries.UnmarshalGeoJSON` | geometry.go:90-213 | the coordinates decode into the requested variant's shape; absent coordinates are an error |
| `Geometries.ReadGeometryHeader` | geometry.go:43-49 | null reads as an empty header; any other non-object is an error; an object reads exactly when its `type` is absent, null or a string, and then gives that `type` ("" if absent or null) and the raw `coordinates` member |
| `Geometries.DispatchIsExact` | geometry.go:51-69 | a string selects variant k if and only if it is k's tag |
| `Geometries.UnknownTagRejected` | geometry.go:70-71 | every type string other than the six tags yields `ErrorUnsupportedType` |
| `Geometries.RejectedTags` | geometry.go:51-71 | "", "GeometryCollection", "Unknown" and "point" select no variant |
| `Geometries.NullGeometryUnsupported` | geometry.go:42-71 | a null document is rejected with `ErrorUnsupportedType` |
| `Geometries.MissingCoordinatesMalformed` | geometry.go:43-54 | a known tag without `coordinates` fails with the JSON layer's error |
| `Geometries.DecodedVariantMatchesTag` | geometry.go:51-69 | a successful decode yields exactly the variant its `type` names |
| `Geometries.PolygonRingsInOrder` | geometry.go:185-190 | a Polygon keeps its ring count, and ring i comes from written ring i (holes included) |
| `Geometries.PolygonsInOrder` | geometry.go:208-213 | a MultiPolygon keeps its polygon count, and polygon i comes from written polygon i |
| `Geometries.GeometryRoundTrip` | geometry.go:83-213 | decoding an encoded geometry gives the same variant with equal coordinates, for all six variants |
| `Geometries.Geometry.MarshalJSON` | geometry.go:34-36 | the geometry encodes under its variant's tag, and the encoding decodes back to it |
| `Geometries.Geometry.UnmarshalJSON` | geometry.go:42-73 | a header error or an unknown tag returns the error and leaves `Coords` unassigned; a known tag installs that variant; success means `Coords` holds the decoded geometry |
| `Features.EncodeFeature` | feature.go:72-84 | `type` is "Feature"; `id` appears iff the ID is set and `geometry` iff the Geometry is; `properties` holds the payload; no other keys |
| `Features.Feature.EncodeGeoJSON` | feature.go:66-85 | encoding fails exactly when the properties payload fails, with that error; otherwise it yields the envelope of the Feature's ID and Geometry |
| `Features.ReadFeatureHeader` | feature.go:97-106 | null reads as an empty header; any other non-object is an error; an object reads exactly when both `type` and `id` are absent, null or strings, and then gives that `type`, that `id` (nil if absent or null) and the raw `geometry` and `properties` members |
| `Features.GeometryStepAsWritten` | feature.go:112-118 | any present `geometry` member, null included, goes to the Geometry decoder; an absent one keeps the Geometry |
| `Features.GeometryStep` | feature.go:112-118 | an absent or null `geometry` keeps the Geometry; any other value goes to the Geometry decoder |
| `Features.NullGeometryRejectedAsWritten` | feature.go:112-115 | as written, a Feature whose `geometry` is null is rejected with `ErrorUnsupportedType` |
| `Features.NullGeometryAccepted` | feature.go:112-118 | after the correction, a null `geometry` is accepted and keeps the feature unlocated; other values decode as before |
| `Features.PropertiesStep` | feature.go:120-124 | a present, non-null `properties` goes to the host decoder; otherwise the target is kept |
| `Features.EnvelopeRoundTrip` | feature.go:66-127 | reading back an encoded envelope gives the tag "Feature", the same ID, the same properties and the same geometry |
| `Features.Feature.DecodeGeoJSON` | feature.go:96-128 | a header error or a wrong tag changes nothing; the geometry goes through the corrected `GeometryStep` (a null `geometry` keeps the Geometry); a geometry error leaves ID, Geometry and target unchanged; Geometry is replaced only by a decoded geometry; a properties error leaves ID and target unchanged; on success, ID is the decoded `id` (nil when absent) |
| `Features.RoundTrip` | feature.go:66-127 | encode then decode into a fresh Feature keeps the ID and the host properties, and gives a geometry of the same variant with equal coordinates |
| `Features.Feature.constructor` | feature.go:34-37 | the zero Feature has no ID and no Geometry |
| `Features.Feature.WithIRI` | feature.go:52-55 | returns a copy whose only change is the ID |
| `Features.Feature.WithID` | feature.go:43-46 | returns a copy whose only change is the ID parsed from the string |
| `Features.Feature.NewPoint` | feature.go:134-140 | no ID; the Geometry is a Point holding exactly the given position |
| `Features.Feature.NewMultiPoint` | feature.go:146-152 | no ID; the Geometry is a MultiPoint holding exactly the given sequence |
| `Features.Feature.NewLineString` | feature.go:158-164 | no ID; the Geometry is a LineString holding exactly the given sequence |
| `Features.Feature.NewMultiLineString` | feature.go:170-176 | no ID; the Geometry is a MultiLineString holding exactly the given surface |
| `Features.Feature.NewPolygon` | feature.go:182-188 | no ID; the Geometry is a Polygon holding exactly the given surface |
| `Features.Feature.NewMultiPolygon` | feature.go:194-200 | no ID; the Geometry is a MultiPolygon holding exactly the given surfaces |
| `Collections.JoinAll` | collection.go:26-31 | no contract of its own; `JoinAllEncloses` states that the fold bounds every member's box, `JoinAllAppend` that it splits over concatenation, and `Collection.BoundingBox` that the loop computes it |
| `Collections.CollectionBox` | collection.go:22-24 | the box is nil exactly when there are no members |
| `Collections.Collection.BoundingBox` | collection.go:21-32 | the loop returns nil for no members; otherwise member 0's box joined with each later member's box, in index order |
| `Collections.JoinAllEncloses` | collection.go:26-31 | if Join bounds both its arguments under a preorder, the fold bounds every member's box |
| `Collections.JoinAllAppend` | collection.go:26-31 | for an associative Join, the box of two concatenated lists is the Join of their boxes |
| `Collections.Collection.MarshalJSON` | collection.go:35-52 | a member error comes back wrapped, naming the first failing member; otherwise `type` is "FeatureCollection", `features` lists the encoded members in order, and `bbox` appears iff the box is neither nil nor empty |
| `Collections.CollectionObject` | collection.go:41-51 | the encoded object has `type` "FeatureCollection" and `features` holding the encoded members, `bbox` exactly when a box is given, and no other keys |
| `Collections.ReadCollectionHeader` | collection.go:56-65 | null reads as an empty header; any other non-object is an error; an object reads exactly when its `type` is absent, null or a string, and then gives that `type` and the raw `features` member |
| `Collections.Collection.UnmarshalJSON` | collection.go:55-78 | a header error or a wrong tag changes nothing; an absent `features` changes nothing; otherwise the members become the decoded array in order (null gives none) |
| `Collections.Collection.constructor` | collection.go:16-18 | the collection holds the given members |
| `Collections.RoundTrip` | collection.go:35-78 | encode then decode into a fresh collection keeps the count, order and equality of members |

## Left out

- JSON text: tokenising, whitespace, number formatting, key order and duplicate keys belong to Go's `encoding/json`. The model takes an already-parsed tree.
- Case-insensitive key matching: `encoding/json` also matches `"Type"` to the `type` field. The model looks keys up exactly.
- Floating point: coordinates are exact reals. Rounding of decimal text is not modelled, and neither are the encode errors for NaN and infinities.
- Nil and empty slices: Go writes a nil slice as `null` and an empty one as `[]`. The model has one empty sequence and writes it as `[]`. Both read back as empty.
- Geometries.Geometry.UnmarshalJSON: after a coordinates error, only the variant of `Coords` is stated. Go keeps decoding past a type mismatch and leaves the coordinates partly filled. The model's coordinates on that path are not part of its contract.
- Collections.Collection.UnmarshalJSON: after a member fails to decode, the contract does not say what the members are. Go leaves the slice partly overwritten. Go also decodes into the slice's existing elements; the model decodes each member on its own.
- Features.Feature.DecodeGeoJSON: builds in the correction of the Findings row. A null `geometry` member keeps the Geometry and the decode goes on, where the code returns `ErrorUnsupportedType` before changing anything. The code's behaviour is stated by `Features.GeometryStepAsWritten` and `Features.NullGeometryRejectedAsWritten`.
- Features.Feature.DecodeGeoJSON: a host properties decoder that fails after writing part of its target is modelled as writing nothing. In Go the target is usually the host struct that embeds the Feature. The model does not capture that aliasing; it does not matter here because the Feature's own fields are not JSON fields (`json:"-"`).
- Reflection: the host's properties and member codecs (the `tStruct` type trick, `interface{}` payloads) are caller-supplied functions that may fail.
- `curie.IRI` is an opaque string, and its own JSON form is not modelled. `WithID` takes the IRI parser `curie.New(...).This()` as a parameter.
- `BoundingBox` and `Join` are not defined in the modelled files. They are parameters, and nothing is assumed about widening. Per-geometry boxes and the Feature-level box are not part of this model.
- A Geometry with a nil variant makes Go panic when encoded. `Geometry.MarshalJSON` and `Feature.EncodeGeoJSON` therefore require a variant to be present.
- GeometryCollection (RFC 7946 section 3.1.8) is not handled by the source, and the model rejects it the same way.
- Test helpers from another revision (`Coord`, `Curve`, `FMap`, `LatLng`, the two-argument `NewPoint`) are not modelled. doc.go holds no logic.

## Findings

| source | as written | input that shows it | evidently intended | confidence | as-written member | corrected member |
|---|---|---|---|---|---|---|
| feature.go:112-118 | any present `geometry` member, null included, is passed to `Geometry.UnmarshalJSON`; that decoder reads null as a missing `type` and returns `ErrorUnsupportedType` | `{"type": "Feature", "geometry": null}` | a null geometry marks an unlocated feature (RFC 7946 section 3.2) and decodes without error | not executed; relies on `encoding/json` passing a null member to `json.RawMessage` and to `UnmarshalJSON` | `Features.GeometryStepAsWritten`, `Features.NullGeometryRejectedAsWritten` | `Features.GeometryStep`, `Features.NullGeometryAccepted` |
