/** The abstract JSON tree that stands for the bytes `encoding/json` reads and
    writes, and the few behaviours of that library the codec relies on. */
module Json {
  import opened Errors

  datatype JValue =
    | JNull
    | JBool(b: bool)
    | JNum(n: real)
    | JStr(s: string)
    | JArr(items: seq<JValue>)
    | JObj(members: map<string, JValue>)

  /** The raw sub-document under `key`, as a `json.RawMessage` field holds it:
      present whenever the key is, even when its value is null. */
  function Member(members: map<string, JValue>, key: string): (r: Option<JValue>)
    ensures r.Some? <==> key in members
    ensures r.Some? ==> r.value == members[key]
  {
    if key in members then Some(members[key]) else None
  }

  /** A Go `string` field: absent or null leaves "", a string is taken, any
      other value is a type error. */
  function StringField(members: map<string, JValue>, key: string): (r: Result<string>)
    ensures r.Err? <==> key in members && !members[key].JNull? && !members[key].JStr?
    ensures r.Ok? && key in members && members[key].JStr? ==> r.value == members[key].s
    ensures r.Ok? && (key !in members || members[key].JNull?) ==> r.value == ""
  {
    if key !in members then Ok("")
    else match members[key]
      case JNull => Ok("")
      case JStr(s) => Ok(s)
      case _ => Err(Malformed)
  }

  /** A Go pointer-to-string field: absent or null leaves nil. */
  function OptionalStringField(members: map<string, JValue>, key: string): (r: Result<Option<string>>)
    ensures r.Err? <==> key in members && !members[key].JNull? && !members[key].JStr?
    ensures r.Ok? ==> (r.value.Some? <==> key in members && members[key].JStr?)
    ensures r.Ok? && r.value.Some? ==> r.value.value == members[key].s
  {
    if key !in members then Ok(None)
    else match members[key]
      case JNull => Ok(None)
      case JStr(s) => Ok(Some(s))
      case _ => Err(Malformed)
  }

  /** Applies `f` to every element in order and stops at the first failure,
      as `encoding/json` does when it encodes or decodes a slice. */
  function Traverse<A, B>(xs: seq<A>, f: A -> Result<B>): (r: Result<seq<B>>)
    ensures r.Ok? ==> |r.value| == |xs| && forall i :: 0 <= i < |xs| ==> f(xs[i]) == Ok(r.value[i])
    ensures r.Err? ==> exists i :: 0 <= i < |xs| && f(xs[i]) == Err(r.error) && forall k :: 0 <= k < i ==> f(xs[k]).Ok?
  {
    if xs == [] then Ok([])
    else
      match f(xs[0])
      case Err(e) => Err(e)
      case Ok(y) =>
        match Traverse(xs[1..], f)
        case Err(e) => Err(e)
        case Ok(ys) => Ok([y] + ys)
  }

  /** A slice written as a JSON array, element by element in order. */
  function EncodeArray<T>(xs: seq<T>, encode: T -> JValue): (r: JValue)
    ensures r.JArr? && |r.items| == |xs|
    ensures forall i :: 0 <= i < |xs| ==> r.items[i] == encode(xs[i])
  {
    JArr(seq(|xs|, i requires 0 <= i < |xs| => encode(xs[i])))
  }

  /** A slice read from JSON: null gives the nil slice, an array is decoded
      element by element, anything else is a type error. */
  function DecodeArray<T>(j: JValue, decode: JValue -> Result<T>): (r: Result<seq<T>>)
    ensures j.JNull? ==> r == Ok([])
    ensures !j.JNull? && !j.JArr? ==> r == Err(Malformed)
    ensures j.JArr? ==> r == Traverse(j.items, decode)
    ensures j.JArr? ==> (r.Ok? <==> forall i :: 0 <= i < |j.items| ==> decode(j.items[i]).Ok?)
    ensures j.JArr? && r.Ok? ==> |r.value| == |j.items| && forall i :: 0 <= i < |j.items| ==> decode(j.items[i]) == Ok(r.value[i])
  {
    match j
    case JNull => Ok([])
    case JArr(items) => Traverse(items, decode)
    case _ => Err(Malformed)
  }

  /** If every element survives its own round trip, so does the array. */
  lemma ArrayRoundTrip<T>(xs: seq<T>, encode: T -> JValue, decode: JValue -> Result<T>)
    requires forall i :: 0 <= i < |xs| ==> decode(encode(xs[i])) == Ok(xs[i])
    ensures DecodeArray(EncodeArray(xs, encode), decode) == Ok(xs)
  {
    var items := EncodeArray(xs, encode).items;
    var r := Traverse(items, decode);
    assert r.Ok?;
    assert r.value == xs;
  }
}
