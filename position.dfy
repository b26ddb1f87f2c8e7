/** Coordinate shapes: a position, a sequence of positions, a surface of
    sequences (RFC 7946, section 3.1.1), and how each is written as nested
    JSON arrays of numbers.  Coordinates are only copied, never computed with. */
module Positions {
  import opened Errors
  import opened Json

  /** x, y (longitude, latitude) and optional further numbers. */
  type Position = seq<real>
  /** The positions of a MultiPoint or a LineString. */
  type Sequence = seq<Position>
  /** The lines of a MultiLineString, or the rings of a Polygon (exterior first). */
  type Surface = seq<Sequence>

  function EncodeNumber(x: real): JValue { JNum(x) }

  /** A float64 read from JSON: null leaves the zero value. */
  function DecodeNumber(j: JValue): (r: Result<real>)
    ensures r.Ok? <==> j.JNum? || j.JNull?
    ensures j.JNum? ==> r == Ok(j.n)
    ensures j.JNull? ==> r == Ok(0.0)
  {
    match j
    case JNum(n) => Ok(n)
    case JNull => Ok(0.0)
    case _ => Err(Malformed)
  }

  /** A position is written as an array of its numbers. */
  function EncodePosition(p: Position): (r: JValue)
    ensures r.JArr? && |r.items| == |p|
    ensures forall i :: 0 <= i < |p| ==> r.items[i] == EncodeNumber(p[i])
  {
    EncodeArray(p, EncodeNumber)
  }

  /** A position: null is empty, an array is read number by number. */
  function DecodePosition(j: JValue): (r: Result<Position>)
    ensures j.JNull? ==> r == Ok([])
    ensures !j.JNull? && !j.JArr? ==> r == Err(Malformed)
    ensures j.JArr? ==> (r.Ok? <==> forall i :: 0 <= i < |j.items| ==> DecodeNumber(j.items[i]).Ok?)
    ensures j.JArr? && r.Ok? ==> |r.value| == |j.items| && forall i :: 0 <= i < |j.items| ==> DecodeNumber(j.items[i]) == Ok(r.value[i])
  {
    DecodeArray(j, DecodeNumber)
  }

  /** A sequence is written as an array of positions. */
  function EncodeSequence(s: Sequence): (r: JValue)
    ensures r.JArr? && |r.items| == |s|
    ensures forall i :: 0 <= i < |s| ==> r.items[i] == EncodePosition(s[i])
  {
    EncodeArray(s, EncodePosition)
  }

  /** A sequence: null is empty, an array is read position by position. */
  function DecodeSequence(j: JValue): (r: Result<Sequence>)
    ensures j.JNull? ==> r == Ok([])
    ensures !j.JNull? && !j.JArr? ==> r == Err(Malformed)
    ensures j.JArr? ==> (r.Ok? <==> forall i :: 0 <= i < |j.items| ==> DecodePosition(j.items[i]).Ok?)
    ensures j.JArr? && r.Ok? ==> |r.value| == |j.items| && forall i :: 0 <= i < |j.items| ==> DecodePosition(j.items[i]) == Ok(r.value[i])
  {
    DecodeArray(j, DecodePosition)
  }

  /** A surface is written as an array of sequences. */
  function EncodeSurface(s: Surface): (r: JValue)
    ensures r.JArr? && |r.items| == |s|
    ensures forall i :: 0 <= i < |s| ==> r.items[i] == EncodeSequence(s[i])
  {
    EncodeArray(s, EncodeSequence)
  }

  /** A surface: null is empty, an array is read sequence by sequence. */
  function DecodeSurface(j: JValue): (r: Result<Surface>)
    ensures j.JNull? ==> r == Ok([])
    ensures !j.JNull? && !j.JArr? ==> r == Err(Malformed)
    ensures j.JArr? ==> (r.Ok? <==> forall i :: 0 <= i < |j.items| ==> DecodeSequence(j.items[i]).Ok?)
    ensures j.JArr? && r.Ok? ==> |r.value| == |j.items| && forall i :: 0 <= i < |j.items| ==> DecodeSequence(j.items[i]) == Ok(r.value[i])
  {
    DecodeArray(j, DecodeSequence)
  }

  /** A list of surfaces is written as an array of surfaces. */
  function EncodeSurfaces(s: seq<Surface>): (r: JValue)
    ensures r.JArr? && |r.items| == |s|
    ensures forall i :: 0 <= i < |s| ==> r.items[i] == EncodeSurface(s[i])
  {
    EncodeArray(s, EncodeSurface)
  }

  /** A list of surfaces: null is empty, an array is read surface by surface. */
  function DecodeSurfaces(j: JValue): (r: Result<seq<Surface>>)
    ensures j.JNull? ==> r == Ok([])
    ensures !j.JNull? && !j.JArr? ==> r == Err(Malformed)
    ensures j.JArr? ==> (r.Ok? <==> forall i :: 0 <= i < |j.items| ==> DecodeSurface(j.items[i]).Ok?)
    ensures j.JArr? && r.Ok? ==> |r.value| == |j.items| && forall i :: 0 <= i < |j.items| ==> DecodeSurface(j.items[i]) == Ok(r.value[i])
  {
    DecodeArray(j, DecodeSurface)
  }

  lemma PositionRoundTrip(p: Position)
    ensures DecodePosition(EncodePosition(p)) == Ok(p)
  {
    ArrayRoundTrip(p, EncodeNumber, DecodeNumber);
  }

  lemma SequenceRoundTrip(s: Sequence)
    ensures DecodeSequence(EncodeSequence(s)) == Ok(s)
  {
    forall i | 0 <= i < |s| ensures DecodePosition(EncodePosition(s[i])) == Ok(s[i]) {
      PositionRoundTrip(s[i]);
    }
    ArrayRoundTrip(s, EncodePosition, DecodePosition);
  }

  lemma SurfaceRoundTrip(s: Surface)
    ensures DecodeSurface(EncodeSurface(s)) == Ok(s)
  {
    forall i | 0 <= i < |s| ensures DecodeSequence(EncodeSequence(s[i])) == Ok(s[i]) {
      SequenceRoundTrip(s[i]);
    }
    ArrayRoundTrip(s, EncodeSequence, DecodeSequence);
  }

  lemma SurfacesRoundTrip(s: seq<Surface>)
    ensures DecodeSurfaces(EncodeSurfaces(s)) == Ok(s)
  {
    forall i | 0 <= i < |s| ensures DecodeSurface(EncodeSurface(s[i])) == Ok(s[i]) {
      SurfaceRoundTrip(s[i]);
    }
    ArrayRoundTrip(s, EncodeSurface, DecodeSurface);
  }

  /** Depth is fixed: a written position is not a sequence ... */
  lemma PositionIsNotSequence(p: Position)
    requires |p| > 0
    ensures DecodeSequence(EncodePosition(p)).Err?
  {
    var items := EncodePosition(p).items;
    assert DecodePosition(items[0]) == Err(Malformed);
  }

  /** ... a written sequence is not a position ... */
  lemma SequenceIsNotPosition(s: Sequence)
    requires |s| > 0
    ensures DecodePosition(EncodeSequence(s)).Err?
  {
    var items := EncodeSequence(s).items;
    assert DecodeNumber(items[0]) == Err(Malformed);
  }

  /** ... and a written sequence whose first position holds a number is not
      a surface (an empty position reads as an empty line at either depth). */
  lemma SequenceIsNotSurface(s: Sequence)
    requires |s| > 0 && |s[0]| > 0
    ensures DecodeSurface(EncodeSequence(s)).Err?
  {
    var items := EncodeSequence(s).items;
    PositionIsNotSequence(s[0]);
    assert DecodeSequence(items[0]).Err?;
  }
}
