/** JSON values. */
module JsonValues {
  import opened Wrappers

  /** An object is its entries in the iteration order of its map. */
  datatype Json =
    | Null
    | Bool(b: bool)
    | Number(literal: string)
    | String(s: string)
    | Array(items: seq<Json>)
    | Object(entries: seq<Entry>)

  datatype Entry = Entry(key: string, value: Json)

  /** The key and value that a path of child positions leads to; items of an array have the empty key. */
  function NodeAt(key: string, value: Json, path: seq<nat>): Option<Entry>
    decreases path
  {
    if path == [] then Some(Entry(key, value))
    else
      match value
      case Object(entries) =>
        if path[0] < |entries| then NodeAt(entries[path[0]].key, entries[path[0]].value, path[1..]) else None
      case Array(items) =>
        if path[0] < |items| then NodeAt("", items[path[0]], path[1..]) else None
      case _ => None
  }

  /** Document order: a parent before its children, and these from first to last. */
  predicate Before(p: seq<nat>, q: seq<nat>)
    decreases |p|
  {
    q != [] && (p == [] || p[0] < q[0] || (p[0] == q[0] && Before(p[1..], q[1..])))
  }

  lemma {:induction false} BeforeTotal(p: seq<nat>, q: seq<nat>)
    ensures p == q || Before(p, q) || Before(q, p)
    decreases |p|
  {
    if p != [] && q != [] && p[0] == q[0] {
      BeforeTotal(p[1..], q[1..]);
      assert p == [p[0]] + p[1..] && q == [q[0]] + q[1..];
    }
  }
}
