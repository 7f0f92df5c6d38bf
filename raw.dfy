/**
 * The raw result of a detection run: for every analysed file, in the order
 * the run produced them, an insertion-ordered mapping from a compared file
 * (or the sentinel key "#LoC") to the value recorded for it.
 */
module Raw {
  import opened Wrappers
  import opened Sequences
  import opened Document

  /** The sentinel key holding a file's line count. */
  const LOC_KEY: string := "#LoC"
  /** The key of a percentage inside a record value. */
  const SIMILARITY_KEY: string := "Similarity"

  /**
   * One value of a file's mapping: a bare Python `int` or `float`, or a
   * record `{"Similarity": float, "#LoC": int}` either of whose keys may be missing.
   */
  datatype Value =
    | Int(n: int)
    | Float(x: real)
    | Record(similarity: Option<real>, loc: Option<int>)

  /** A file's mapping, as its (key, value) items in insertion order. */
  type Entries = seq<(string, Value)>

  /** The whole raw result, as its (file path, mapping) items in insertion order. */
  type RawData = seq<(string, Entries)>

  /** The keys of an item sequence, in order. */
  function Keys<V>(items: seq<(string, V)>): (ks: seq<string>)
    ensures |ks| == |items|
    ensures forall i :: 0 <= i < |items| ==> ks[i] == items[i].0
  {
    if items == [] then [] else Keys(items[..|items| - 1]) + [items[|items| - 1].0]
  }

  /** What every Python dict guarantees: no key occurs twice. */
  predicate DistinctKeys<V>(items: seq<(string, V)>) {
    forall i, j :: 0 <= i < j < |items| ==> items[i].0 != items[j].0
  }

  /** `key in mapping`. */
  predicate HasKey(es: Entries, key: string) {
    exists i :: 0 <= i < |es| && es[i].0 == key
  }

  /** `mapping[key]`. */
  function Lookup(es: Entries, key: string): (v: Value)
    requires HasKey(es, key)
    ensures exists i :: 0 <= i < |es| && es[i] == (key, v)
    decreases |es|
  {
    var last := es[|es| - 1];
    if last.0 == key then last.1
    else
      assert HasKey(es[..|es| - 1], key) by {
        var i :| 0 <= i < |es| && es[i].0 == key;
        assert i < |es| - 1 && es[..|es| - 1][i] == es[i];
      }
      Lookup(es[..|es| - 1], key)
  }

  /** In a mapping with distinct keys, `mapping[key]` is the value stored with that key. */
  lemma LookupDistinct(es: Entries, key: string, i: nat)
    requires DistinctKeys(es)
    requires i < |es| && es[i].0 == key
    ensures Lookup(es, key) == es[i].1
  {
  }

  /** The item filter `lambda item: item[0] != key`. */
  function KeyIsNot(key: string): ((string, Value)) -> bool {
    (item: (string, Value)) => item.0 != key
  }

  /** `{k: v for k, v in mapping.items() if k != key}`. */
  function WithoutKey(es: Entries, key: string): Entries {
    Filter(es, KeyIsNot(key))
  }

  /** Removing a key removes exactly its items and keeps the others in order. */
  lemma WithoutKeyItems(es: Entries, key: string)
    ensures IsSubsequence(WithoutKey(es, key), es)
    ensures forall item :: item in WithoutKey(es, key) <==> item in es && item.0 != key
  {
    FilterIsSubsequence(es, KeyIsNot(key));
    forall item
      ensures item in WithoutKey(es, key) <==> item in es && item.0 != key
    {
      FilterMembers(es, KeyIsNot(key), item);
    }
  }

  /** Removing a key that occurs once in a mapping drops exactly one item. */
  lemma {:induction false} WithoutKeyLength(es: Entries, key: string)
    requires DistinctKeys(es)
    requires HasKey(es, key)
    ensures |WithoutKey(es, key)| == |es| - 1
    decreases |es|
  {
    var es' := es[..|es| - 1];
    if es[|es| - 1].0 == key {
      FilterAll(es', KeyIsNot(key));
    } else {
      var i :| 0 <= i < |es| && es[i].0 == key;
      assert es'[i] == es[i];
      WithoutKeyLength(es', key);
    }
  }

  // Serialisation of the raw result, as `to_dict` embeds it in its document.

  function ValueToJson(v: Value): Json {
    match v
    case Int(n) => JInt(n)
    case Float(x) => JFloat(x)
    case Record(similarity, loc) =>
      JObject((if similarity.Some? then [(SIMILARITY_KEY, JFloat(similarity.value))] else [])
              + (if loc.Some? then [(LOC_KEY, JInt(loc.value))] else []))
  }

  function ValueFromJson(j: Json): Option<Value> {
    match j
    case JInt(n) => Some(Int(n))
    case JFloat(x) => Some(Float(x))
    case JObject(fields) =>
      var similarity := match Get(fields, SIMILARITY_KEY) case Some(JFloat(x)) => Some(x) case _ => None;
      var loc := match Get(fields, LOC_KEY) case Some(JInt(n)) => Some(n) case _ => None;
      Some(Record(similarity, loc))
    case _ => None
  }

  function EntriesToJson(es: Entries): seq<(string, Json)> {
    if es == [] then []
    else EntriesToJson(es[..|es| - 1]) + [(es[|es| - 1].0, ValueToJson(es[|es| - 1].1))]
  }

  function EntriesFromJson(fields: seq<(string, Json)>): Option<Entries> {
    if fields == [] then Some([])
    else
      var init :- EntriesFromJson(fields[..|fields| - 1]);
      var v :- ValueFromJson(fields[|fields| - 1].1);
      Some(init + [(fields[|fields| - 1].0, v)])
  }

  function RawToJson(raw: RawData): Json {
    JObject(RawFieldsToJson(raw))
  }

  function RawFieldsToJson(raw: RawData): seq<(string, Json)> {
    if raw == [] then []
    else RawFieldsToJson(raw[..|raw| - 1]) + [(raw[|raw| - 1].0, JObject(EntriesToJson(raw[|raw| - 1].1)))]
  }

  function RawFromJson(doc: Json): Option<RawData> {
    if doc.JObject? then RawFieldsFromJson(doc.fields) else None
  }

  function RawFieldsFromJson(fields: seq<(string, Json)>): Option<RawData> {
    if fields == [] then Some([])
    else
      var init :- RawFieldsFromJson(fields[..|fields| - 1]);
      var last := fields[|fields| - 1];
      if last.1.JObject? then
        var es :- EntriesFromJson(last.1.fields);
        Some(init + [(last.0, es)])
      else None
  }

  /** A value is recovered from its serialised form. */
  lemma ValueRoundTrip(v: Value)
    ensures ValueFromJson(ValueToJson(v)) == Some(v)
  {
    if v.Record? {
      assert SIMILARITY_KEY[0] != LOC_KEY[0];
      var tail: seq<(string, Json)> := if v.loc.Some? then [(LOC_KEY, JInt(v.loc.value))] else [];
      if v.similarity.Some? {
        assert Get([(SIMILARITY_KEY, JFloat(v.similarity.value))] + tail, LOC_KEY) == Get(tail, LOC_KEY);
      } else {
        assert [] + tail == tail;
      }
      assert Get(tail, SIMILARITY_KEY) == None by {
        if tail != [] {
          assert tail[1..] == [];
        }
      }
    }
  }

  /** A file's mapping is recovered from its serialised form. */
  lemma {:induction false} EntriesRoundTrip(es: Entries)
    ensures EntriesFromJson(EntriesToJson(es)) == Some(es)
    decreases |es|
  {
    if es != [] {
      var es' := es[..|es| - 1];
      var fields := EntriesToJson(es);
      assert fields[..|fields| - 1] == EntriesToJson(es');
      EntriesRoundTrip(es');
      ValueRoundTrip(es[|es| - 1].1);
      assert es == es' + [es[|es| - 1]];
    }
  }

  /** The raw result embedded in a document is recovered from it unchanged. */
  lemma {:induction false} RawRoundTrip(raw: RawData)
    ensures RawFromJson(RawToJson(raw)) == Some(raw)
    decreases |raw|
  {
    if raw != [] {
      var raw' := raw[..|raw| - 1];
      var fields := RawFieldsToJson(raw);
      assert fields[..|fields| - 1] == RawFieldsToJson(raw');
      RawRoundTrip(raw');
      EntriesRoundTrip(raw[|raw| - 1].1);
      assert raw == raw' + [raw[|raw| - 1]];
    }
  }
}
