/**
 * The JSON-serialisable documents that the `to_dict` methods build:
 * Python's `None`, `bool`, `int`, `float`, `str`, `list` and insertion-ordered `dict`.
 */
module Document {
  import opened Wrappers

  datatype Json =
    | JNull
    | JBool(b: bool)
    | JInt(i: int)
    | JFloat(x: real)
    | JString(s: string)
    | JArray(items: seq<Json>)
    | JObject(fields: seq<(string, Json)>)

  /** The value stored under `key` in an object's fields (the first field of that name). */
  function Get(fields: seq<(string, Json)>, key: string): Option<Json> {
    if fields == [] then None
    else if fields[0].0 == key then Some(fields[0].1)
    else Get(fields[1..], key)
  }

  /** `doc[key]` for an object document, `None` for a missing key or a non-object. */
  function Field(doc: Json, key: string): Option<Json> {
    if doc.JObject? then Get(doc.fields, key) else None
  }

  /** A field whose name no earlier field has is what `Get` finds. */
  lemma {:induction false} GetFirst(fields: seq<(string, Json)>, i: nat)
    requires i < |fields|
    requires forall j :: 0 <= j < i ==> fields[j].0 != fields[i].0
    ensures Get(fields, fields[i].0) == Some(fields[i].1)
  {
    if i > 0 {
      GetFirst(fields[1..], i - 1);
    }
  }

  /** `[encode(x) for x in xs]`. */
  function EncodeAll<T>(xs: seq<T>, encode: T -> Json): (items: seq<Json>)
    ensures |items| == |xs|
  {
    if xs == [] then [] else EncodeAll(xs[..|xs| - 1], encode) + [encode(xs[|xs| - 1])]
  }

  /** Decodes every item of a list, failing if any item fails. */
  function DecodeAll<T>(items: seq<Json>, decode: Json -> Option<T>): Option<seq<T>> {
    if items == [] then Some([])
    else
      var init :- DecodeAll(items[..|items| - 1], decode);
      var last :- decode(items[|items| - 1]);
      Some(init + [last])
  }

  /** A list whose elements round-trip round-trips. */
  lemma {:induction false} RoundTripAll<T>(xs: seq<T>, encode: T -> Json, decode: Json -> Option<T>)
    requires forall x :: decode(encode(x)) == Some(x)
    ensures DecodeAll(EncodeAll(xs, encode), decode) == Some(xs)
    decreases |xs|
  {
    if xs != [] {
      var init := xs[..|xs| - 1];
      var items := EncodeAll(xs, encode);
      assert items[..|items| - 1] == EncodeAll(init, encode);
      RoundTripAll(init, encode, decode);
      assert xs == init + [xs[|xs| - 1]];
    }
  }
}
