/** The FeatureCollection envelope (RFC 7946, section 3.3) over members of
    any type that can report a bounding box (section 5).  The box type and
    its Join are the caller's: nothing is assumed about widening. */
module Collections {
  import opened Errors
  import opened Json

  /** The box of a non-empty list: member 0's box, joined with each later
      member's box in index order. */
  function JoinAll<T, B>(features: seq<T>, boxOf: T -> B, join: (B, B) -> B): B
    requires |features| > 0
  {
    if |features| == 1 then boxOf(features[0])
    else join(JoinAll(features[..|features| - 1], boxOf, join), boxOf(features[|features| - 1]))
  }

  /** The collection's box: nil for no members, the fold otherwise. */
  function CollectionBox<T, B>(features: seq<T>, boxOf: T -> B, join: (B, B) -> B): (r: Option<B>)
    ensures r.None? <==> |features| == 0
  {
    if |features| == 0 then None else Some(JoinAll(features, boxOf, join))
  }

  /** Whenever Join returns a box that `within` places above both of its
      arguments, and `within` is a preorder, the fold lies above every
      member's own box. */
  lemma {:induction false} JoinAllEncloses<T, B(!new)>(features: seq<T>, boxOf: T -> B, join: (B, B) -> B, within: (B, B) -> bool)
    requires |features| > 0
    requires forall a: B :: within(a, a)
    requires forall a: B, b: B :: within(a, join(a, b))
    requires forall a: B, b: B :: within(b, join(a, b))
    requires forall a: B, b: B, c: B :: within(a, b) && within(b, c) ==> within(a, c)
    ensures forall i :: 0 <= i < |features| ==> within(boxOf(features[i]), JoinAll(features, boxOf, join))
  {
    var n := |features|;
    if n > 1 {
      var front := features[..n - 1];
      JoinAllEncloses(front, boxOf, join, within);
      var acc := JoinAll(front, boxOf, join);
      var last := boxOf(features[n - 1]);
      assert JoinAll(features, boxOf, join) == join(acc, last);
      forall i | 0 <= i < n
        ensures within(boxOf(features[i]), join(acc, last))
      {
        if i < n - 1 {
          assert features[i] == front[i];
          assert within(boxOf(front[i]), acc);
          assert within(acc, join(acc, last));
        }
      }
    }
  }

  /** With an associative Join, the box of two collections laid end to end is
      the Join of their boxes. */
  lemma {:induction false} JoinAllAppend<T, B(!new)>(xs: seq<T>, ys: seq<T>, boxOf: T -> B, join: (B, B) -> B)
    requires |xs| > 0 && |ys| > 0
    requires forall a: B, b: B, c: B :: join(join(a, b), c) == join(a, join(b, c))
    ensures JoinAll(xs + ys, boxOf, join) == join(JoinAll(xs, boxOf, join), JoinAll(ys, boxOf, join))
    decreases |ys|
  {
    var zs := xs + ys;
    var n := |ys|;
    if n == 1 {
      assert zs[..|zs| - 1] == xs;
    } else {
      var front := ys[..n - 1];
      assert zs[..|zs| - 1] == xs + front;
      assert zs[|zs| - 1] == ys[n - 1];
      JoinAllAppend(xs, front, boxOf, join);
      var a := JoinAll(xs, boxOf, join);
      var b := JoinAll(front, boxOf, join);
      var c := boxOf(ys[n - 1]);
      assert JoinAll(zs, boxOf, join) == join(join(a, b), c);
      assert join(join(a, b), c) == join(a, join(b, c));
      assert JoinAll(ys, boxOf, join) == join(b, c);
    }
  }

  /** The encoded FeatureCollection object. */
  function CollectionObject(bbox: Option<JValue>, members: seq<JValue>): (r: JValue)
    ensures r.JObj? && "type" in r.members && r.members["type"] == JStr("FeatureCollection")
    ensures "features" in r.members && r.members["features"] == JArr(members)
    ensures "bbox" in r.members <==> bbox.Some?
    ensures bbox.Some? ==> "bbox" in r.members && r.members["bbox"] == bbox.value
    ensures r.members.Keys <= {"type", "features", "bbox"}
  {
    JObj(map["type" := JStr("FeatureCollection"), "features" := JArr(members)]
      + (if bbox.Some? then map["bbox" := bbox.value] else map[]))
  }

  /** What `json.Unmarshal(b, &any)` leaves in the decoder's header struct. */
  datatype CollectionHeader = CollectionHeader(typ: string, features: Option<JValue>)

  function ReadCollectionHeader(j: JValue): (r: Result<CollectionHeader>)
    ensures r.Err? ==> r.error == Malformed
    ensures j.JNull? ==> r == Ok(CollectionHeader("", None))
    ensures !j.JNull? && !j.JObj? ==> r.Err?
    ensures j.JObj? ==> (r.Ok? <==> StringField(j.members, "type").Ok?)
    ensures j.JObj? && r.Ok? ==>
      r.value.typ == StringField(j.members, "type").value && r.value.features == Member(j.members, "features")
  {
    match j
    case JNull => Ok(CollectionHeader("", None))
    case JObj(m) =>
      (match StringField(m, "type")
       case Err(e) => Err(e)
       case Ok(t) => Ok(CollectionHeader(t, Member(m, "features"))))
    case _ => Err(Malformed)
  }

  class Collection<T> {
    var features: seq<T>

    constructor (features: seq<T>)
      ensures this.features == features
    {
      this.features := features;
    }

    /** BoundingBox: seed with member 0's box and Join each later box in. */
    method BoundingBox<B>(boxOf: T -> B, join: (B, B) -> B) returns (bbox: Option<B>)
      ensures bbox == CollectionBox(features, boxOf, join)
    {
      if |features| == 0 {
        return None;
      }
      var acc := boxOf(features[0]);
      var i := 1;
      while i < |features|
        invariant 1 <= i <= |features|
        invariant acc == JoinAll(features[..i], boxOf, join)
      {
        assert features[..i + 1][..i] == features[..i];
        acc := join(acc, boxOf(features[i]));
        i := i + 1;
      }
      assert features[..i] == features;
      return Some(acc);
    }

    /** MarshalJSON: encode the members in order (a failure is wrapped by the
        JSON layer), then write the tag, the box unless it is nil or empty,
        and the member array. */
    function MarshalJSON<B>(boxOf: T -> B, join: (B, B) -> B, boxEmpty: B -> bool, encodeBox: B -> JValue,
                            encodeMember: T -> Result<JValue>): (r: Result<JValue>)
      reads this
      ensures r.Err? <==> exists i :: 0 <= i < |features| && encodeMember(features[i]).Err?
      ensures r.Err? ==>
        && r.error.Marshaler?
        && exists i :: 0 <= i < |features| && encodeMember(features[i]) == Err(r.error.cause) &&
             forall k :: 0 <= k < i ==> encodeMember(features[k]).Ok?
      ensures r.Ok? ==>
        && r.value.JObj?
        && var m := r.value.members;
        && "type" in m && m["type"] == JStr("FeatureCollection")
        && "features" in m && m["features"].JArr?
        && |m["features"].items| == |features|
        && (forall i :: 0 <= i < |features| ==> encodeMember(features[i]) == Ok(m["features"].items[i]))
        && var box := CollectionBox(features, boxOf, join);
           && ("bbox" in m <==> box.Some? && !boxEmpty(box.value))
           && ("bbox" in m ==> m["bbox"] == encodeBox(box.value))
           && m.Keys <= {"type", "bbox", "features"}
    {
      match Traverse(features, encodeMember)
      case Err(e) => Err(Marshaler(e))
      case Ok(members) =>
        var box := CollectionBox(features, boxOf, join);
        Ok(CollectionObject(if box.Some? && !boxEmpty(box.value) then Some(encodeBox(box.value)) else None, members))
    }

    /** UnmarshalJSON: read the header, check the tag, and when `features` is
        given overwrite the members with the decoded array. */
    method UnmarshalJSON(j: JValue, decodeMember: JValue -> Result<T>) returns (err: Option<Error>)
      modifies this
      ensures ReadCollectionHeader(j).Err? ==> err == Some(ReadCollectionHeader(j).error) && features == old(features)
      ensures ReadCollectionHeader(j).Ok? ==>
        var h := ReadCollectionHeader(j).value;
        if h.typ != "FeatureCollection" then err == Some(UnsupportedType) && features == old(features)
        else if h.features.None? then err == None && features == old(features)
        else match DecodeArray(h.features.value, decodeMember)
          case Ok(fs) => err == None && features == fs
          case Err(e) => err == Some(e) && (!h.features.value.JArr? ==> features == old(features))
    {
      var header := ReadCollectionHeader(j);
      if header.Err? {
        return Some(header.error);
      }
      var h := header.value;
      if h.typ != "FeatureCollection" {
        return Some(UnsupportedType);
      }
      if h.features.Some? {
        var decoded := DecodeArray(h.features.value, decodeMember);
        if decoded.Err? {
          return Some(decoded.error);
        }
        features := decoded.value;
      }
      return None;
    }
  }

  /** Encoding a collection and decoding the result into a fresh collection
      gives back the same members, in the same order. */
  method RoundTrip<T, B>(c: Collection<T>, boxOf: T -> B, join: (B, B) -> B, boxEmpty: B -> bool, encodeBox: B -> JValue,
                         encodeMember: T -> Result<JValue>, decodeMember: JValue -> Result<T>)
    returns (decoded: Collection<T>, err: Option<Error>)
    requires forall i :: 0 <= i < |c.features| ==>
      encodeMember(c.features[i]).Ok? && decodeMember(encodeMember(c.features[i]).value) == Ok(c.features[i])
    ensures err == None
    ensures decoded.features == c.features
  {
    var j := c.MarshalJSON(boxOf, join, boxEmpty, encodeBox, encodeMember).value;
    var items := j.members["features"].items;
    var back := Traverse(items, decodeMember);
    assert back.Ok? && back.value == c.features by {
      forall i | 0 <= i < |items| ensures decodeMember(items[i]) == Ok(c.features[i]) {
        assert encodeMember(c.features[i]) == Ok(items[i]);
      }
    }
    decoded := new Collection([]);
    err := decoded.UnmarshalJSON(j, decodeMember);
  }
}
