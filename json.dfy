/** The values `json.loads` produces. */
module JsonData {
  import opened Wrappers

  /** A parsed JSON document: a map is the sequence of its entries in
      document order; a number carries the text Python's `str` gives it. */
  datatype Json =
    | Null
    | Bool(b: bool)
    | Num(text: string)
    | Str(s: string)
    | List(items: seq<Json>)
    | Map(entries: seq<(string, Json)>)

  /** The position of the first entry for `key` at or after `i`, or
      `|entries|` when there is none. */
  function KeyIndex(entries: seq<(string, Json)>, key: string, i: nat): (k: nat)
    requires i <= |entries|
    ensures i <= k <= |entries| && (k < |entries| ==> entries[k].0 == key)
    decreases |entries| - i
  {
    if i == |entries| || entries[i].0 == key then i else KeyIndex(entries, key, i + 1)
  }

  /** No entry before the one found has the key. */
  lemma {:induction false} KeyIndexFirst(entries: seq<(string, Json)>, key: string, i: nat)
    requires i <= |entries|
    ensures forall j :: i <= j < KeyIndex(entries, key, i) ==> entries[j].0 != key
    decreases |entries| - i
  {
    if i < |entries| && entries[i].0 != key {
      KeyIndexFirst(entries, key, i + 1);
    }
  }

  /** `node.get(key)` on a parsed object: the value of its entry for `key`. */
  function Get(entries: seq<(string, Json)>, key: string): (r: Option<Json>)
    ensures r.Some? ==> exists k :: 0 <= k < |entries| && entries[k] == (key, r.value)
    ensures r.None? ==> forall k :: 0 <= k < |entries| ==> entries[k].0 != key
  {
    KeyIndexFirst(entries, key, 0);
    var k := KeyIndex(entries, key, 0);
    if k < |entries| then Some(entries[k].1) else None
  }
}
