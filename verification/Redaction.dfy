/** Redaction of JSON-RPC parameters, and exactly what it forgets. */
module Redaction {
  import opened JsonValues
  import opened Text
  import opened Wrappers

  /** A lower-casing of keys. Nothing else about case is assumed. */
  type Lowering = f: string -> string | f("") == "" witness ((s: string) => s)

  const MASK := "***"

  const DANGER_FIELDS: seq<string> := [
    "rune", "hsmsecret", "passphrase", "preimage", "payment_preimage", "payment_secret", "session_key",
    "shared_secrets", "payer_metadata", "secret", "private_key", "seed", "mnemonic"]

  predicate IsSensitiveKey(lower: Lowering, key: string) {
    exists i :: 0 <= i < |DANGER_FIELDS| && Contains(lower(key), DANGER_FIELDS[i])
  }

  /** The loop over the danger fields stops at the first match. */
  method CheckSensitiveKey(lower: Lowering, key: string) returns (sensitive: bool)
    ensures sensitive == IsSensitiveKey(lower, key)
    ensures sensitive <==> NamesSecret(lower(key))
  {
    SensitiveExact(lower, key);
    hide NamesSecret;
    for i := 0 to |DANGER_FIELDS|
      invariant forall j :: 0 <= j < i ==> !Contains(lower(key), DANGER_FIELDS[j])
    {
      if Contains(lower(key), DANGER_FIELDS[i]) {
        return true;
      }
    }
    return false;
  }

  function SanitizeEntries(lower: Lowering, entries: seq<Entry>): (r: seq<Entry>)
    ensures |r| == |entries|
    ensures forall i :: 0 <= i < |r| ==> r[i] == Entry(entries[i].key, Sanitize(lower, entries[i].key, entries[i].value))
    decreases entries
  {
    if entries == [] then []
    else [Entry(entries[0].key, Sanitize(lower, entries[0].key, entries[0].value))] + SanitizeEntries(lower, entries[1..])
  }

  function SanitizeItems(lower: Lowering, items: seq<Json>): (r: seq<Json>)
    ensures |r| == |items|
    ensures forall i :: 0 <= i < |r| ==> r[i] == Sanitize(lower, "", items[i])
    decreases items
  {
    if items == [] then []
    else [Sanitize(lower, "", items[0])] + SanitizeItems(lower, items[1..])
  }

  function Sanitize(lower: Lowering, key: string, value: Json): Json
    decreases value
  {
    if IsSensitiveKey(lower, key) then String(MASK)
    else
      match value
      case Object(entries) => Object(SanitizeEntries(lower, entries))
      case Array(items) => Array(SanitizeItems(lower, items))
      case other => other
  }

  // ----- what remains visible

  /** What one node shows of itself: a scalar, a key list or a length. */
  datatype Shape = Scalar(value: Json) | Keys(keys: seq<string>) | Length(n: nat)

  datatype View = Hidden | Missing | Visible(shape: Shape)

  function ShapeOf(v: Json): Shape {
    match v
    case Object(entries) => Keys(seq(|entries|, i requires 0 <= i < |entries| => entries[i].key))
    case Array(items) => Length(|items|)
    case other => Scalar(other)
  }

  /** What a reader sees at the end of a path of child positions: nothing at or below a sensitive key. */
  function Look(lower: Lowering, key: string, v: Json, path: seq<nat>): View
    decreases path
  {
    if IsSensitiveKey(lower, key) then Hidden
    else if path == [] then Visible(ShapeOf(v))
    else
      match v
      case Object(entries) =>
        if path[0] < |entries| then Look(lower, entries[path[0]].key, entries[path[0]].value, path[1..]) else Missing
      case Array(items) =>
        if path[0] < |items| then Look(lower, "", items[path[0]], path[1..]) else Missing
      case _ => Missing
  }

  lemma {:induction false} LookSanitized(lower: Lowering, key: string, v: Json, path: seq<nat>)
    ensures Look(lower, key, Sanitize(lower, key, v), path) == Look(lower, key, v, path)
    decreases path
  {
    if !IsSensitiveKey(lower, key) {
      match v {
        case Object(entries) =>
          var s := SanitizeEntries(lower, entries);
          assert ShapeOf(Object(s)) == ShapeOf(v);
          if path != [] && path[0] < |entries| {
            LookSanitized(lower, entries[path[0]].key, entries[path[0]].value, path[1..]);
          }
        case Array(items) =>
          if path != [] && path[0] < |items| {
            LookSanitized(lower, "", items[path[0]], path[1..]);
          }
        case _ =>
      }
    }
  }

  /** Two values under the same key look the same along every path. */
  ghost predicate LookAlike(lower: Lowering, key: string, v1: Json, v2: Json) {
    forall path :: Look(lower, key, v1, path) == Look(lower, key, v2, path)
  }

  lemma {:induction false} ChildrenLookAlike(lower: Lowering, key: string, v1: Json, v2: Json)
    requires !IsSensitiveKey(lower, key) && LookAlike(lower, key, v1, v2)
    ensures ShapeOf(v1) == ShapeOf(v2)
    ensures v1.Object? && v2.Object? ==>
              |v1.entries| == |v2.entries|
              && forall i :: 0 <= i < |v1.entries| ==>
                   v1.entries[i].key == v2.entries[i].key
                   && LookAlike(lower, v1.entries[i].key, v1.entries[i].value, v2.entries[i].value)
    ensures v1.Array? && v2.Array? ==>
              |v1.items| == |v2.items|
              && forall i :: 0 <= i < |v1.items| ==> LookAlike(lower, "", v1.items[i], v2.items[i])
  {
    assert Look(lower, key, v1, []) == Look(lower, key, v2, []);
    if v1.Object? && v2.Object? {
      assert |ShapeOf(v1).keys| == |ShapeOf(v2).keys|;
      forall i: nat | i < |v1.entries|
        ensures v1.entries[i].key == v2.entries[i].key
        ensures LookAlike(lower, v1.entries[i].key, v1.entries[i].value, v2.entries[i].value)
      {
        assert ShapeOf(v1).keys[i] == ShapeOf(v2).keys[i];
        forall path: seq<nat>
          ensures Look(lower, v1.entries[i].key, v1.entries[i].value, path)
                  == Look(lower, v1.entries[i].key, v2.entries[i].value, path)
        {
          assert ([i] + path)[1..] == path;
          assert Look(lower, key, v1, [i] + path) == Look(lower, key, v2, [i] + path);
        }
      }
    }
    if v1.Array? && v2.Array? {
      assert |v1.items| == |v2.items|;
      forall i: nat, path: seq<nat> | i < |v1.items|
        ensures Look(lower, "", v1.items[i], path) == Look(lower, "", v2.items[i], path)
      {
        assert ([i] + path)[1..] == path;
        assert Look(lower, key, v1, [i] + path) == Look(lower, key, v2, [i] + path);
      }
    }
  }

  lemma {:induction false} LookAlikeSanitizesAlike(lower: Lowering, key: string, v1: Json, v2: Json)
    requires LookAlike(lower, key, v1, v2)
    ensures Sanitize(lower, key, v1) == Sanitize(lower, key, v2)
    decreases v1
  {
    if !IsSensitiveKey(lower, key) {
      ChildrenLookAlike(lower, key, v1, v2);
      if v1.Object? && v2.Object? {
        forall i | 0 <= i < |v1.entries|
          ensures SanitizeEntries(lower, v1.entries)[i] == SanitizeEntries(lower, v2.entries)[i]
        {
          LookAlikeSanitizesAlike(lower, v1.entries[i].key, v1.entries[i].value, v2.entries[i].value);
        }
        assert SanitizeEntries(lower, v1.entries) == SanitizeEntries(lower, v2.entries);
      } else if v1.Array? && v2.Array? {
        forall i | 0 <= i < |v1.items|
          ensures SanitizeItems(lower, v1.items)[i] == SanitizeItems(lower, v2.items)[i]
        {
          LookAlikeSanitizesAlike(lower, "", v1.items[i], v2.items[i]);
        }
        assert SanitizeItems(lower, v1.items) == SanitizeItems(lower, v2.items);
      }
    }
  }

  /** Redaction forgets exactly what lies at or below a sensitive key: two values become equal if and
      only if they look the same everywhere else, at every depth. */
  lemma {:induction false} RedactionKernel(lower: Lowering, key: string, v1: Json, v2: Json)
    ensures Sanitize(lower, key, v1) == Sanitize(lower, key, v2) <==> LookAlike(lower, key, v1, v2)
  {
    if Sanitize(lower, key, v1) == Sanitize(lower, key, v2) {
      forall path: seq<nat>
        ensures Look(lower, key, v1, path) == Look(lower, key, v2, path)
      {
        LookSanitized(lower, key, v1, path);
        LookSanitized(lower, key, v2, path);
      }
    }
    if LookAlike(lower, key, v1, v2) {
      LookAlikeSanitizesAlike(lower, key, v1, v2);
    }
  }

  /** Every value under a sensitive key, at every depth, is the mask. */
  ghost predicate Redacted(lower: Lowering, key: string, v: Json)
    decreases v
  {
    if IsSensitiveKey(lower, key) then v == String(MASK)
    else
      match v
      case Object(entries) => forall i :: 0 <= i < |entries| ==> Redacted(lower, entries[i].key, entries[i].value)
      case Array(items) => forall i :: 0 <= i < |items| ==> Redacted(lower, "", items[i])
      case _ => true
  }

  lemma {:induction false} SanitizedIsRedacted(lower: Lowering, key: string, v: Json)
    ensures Redacted(lower, key, Sanitize(lower, key, v))
    decreases v
  {
    if !IsSensitiveKey(lower, key) {
      match v {
        case Object(entries) =>
          forall i | 0 <= i < |entries| {
            SanitizedIsRedacted(lower, entries[i].key, entries[i].value);
          }
        case Array(items) =>
          forall i | 0 <= i < |items| {
            SanitizedIsRedacted(lower, "", items[i]);
          }
        case _ =>
      }
    }
  }

  lemma {:induction false} RedactedIsFixed(lower: Lowering, key: string, v: Json)
    requires Redacted(lower, key, v)
    ensures Sanitize(lower, key, v) == v
    decreases v
  {
    if !IsSensitiveKey(lower, key) {
      match v {
        case Object(entries) =>
          forall i | 0 <= i < |entries|
            ensures SanitizeEntries(lower, entries)[i] == entries[i]
          {
            RedactedIsFixed(lower, entries[i].key, entries[i].value);
          }
          assert SanitizeEntries(lower, entries) == entries;
        case Array(items) =>
          forall i | 0 <= i < |items|
            ensures SanitizeItems(lower, items)[i] == items[i]
          {
            RedactedIsFixed(lower, "", items[i]);
          }
          assert SanitizeItems(lower, items) == items;
        case _ =>
      }
    }
  }

  /** Redaction leaves a value alone exactly when it is already redacted; so redacting twice is
      redacting once. */
  lemma {:induction false} RedactionFixpoints(lower: Lowering, key: string, v: Json)
    ensures Sanitize(lower, key, v) == v <==> Redacted(lower, key, v)
    ensures Sanitize(lower, key, Sanitize(lower, key, v)) == Sanitize(lower, key, v)
  {
    SanitizedIsRedacted(lower, key, v);
    RedactedIsFixed(lower, key, Sanitize(lower, key, v));
    if Redacted(lower, key, v) {
      RedactedIsFixed(lower, key, v);
    }
  }

  // ----- what never appears, and what always does

  /** The thirteen names of secrets. */
  ghost predicate NamesSecret(key: string) {
    || Embeds(key, "rune") || Embeds(key, "hsmsecret") || Embeds(key, "passphrase") || Embeds(key, "preimage")
    || Embeds(key, "payment_preimage") || Embeds(key, "payment_secret") || Embeds(key, "session_key")
    || Embeds(key, "shared_secrets") || Embeds(key, "payer_metadata") || Embeds(key, "secret")
    || Embeds(key, "private_key") || Embeds(key, "seed") || Embeds(key, "mnemonic")
  }

  lemma {:induction false} SensitiveExact(lower: Lowering, key: string)
    ensures IsSensitiveKey(lower, key) <==> NamesSecret(lower(key))
  {
    hide Contains, Embeds;
    var k := lower(key);
    ContainsExact(k, "rune");
    ContainsExact(k, "hsmsecret");
    ContainsExact(k, "passphrase");
    ContainsExact(k, "preimage");
    ContainsExact(k, "payment_preimage");
    ContainsExact(k, "payment_secret");
    ContainsExact(k, "session_key");
    ContainsExact(k, "shared_secrets");
    ContainsExact(k, "payer_metadata");
    ContainsExact(k, "secret");
    ContainsExact(k, "private_key");
    ContainsExact(k, "seed");
    ContainsExact(k, "mnemonic");
    assert DANGER_FIELDS[0] == "rune" && DANGER_FIELDS[1] == "hsmsecret" && DANGER_FIELDS[2] == "passphrase";
    assert DANGER_FIELDS[3] == "preimage" && DANGER_FIELDS[4] == "payment_preimage" && DANGER_FIELDS[5] == "payment_secret";
    assert DANGER_FIELDS[6] == "session_key" && DANGER_FIELDS[7] == "shared_secrets" && DANGER_FIELDS[8] == "payer_metadata";
    assert DANGER_FIELDS[9] == "secret" && DANGER_FIELDS[10] == "private_key" && DANGER_FIELDS[11] == "seed";
    assert DANGER_FIELDS[12] == "mnemonic" && |DANGER_FIELDS| == 13;
  }

  /** Any key around the name of a secret names it. */
  lemma {:induction false} NameInsideKey(a: string, name: string, b: string)
    requires name in ["rune", "hsmsecret", "passphrase", "preimage", "payment_preimage", "payment_secret", "session_key",
                      "shared_secrets", "payer_metadata", "secret", "private_key", "seed", "mnemonic"]
    ensures NamesSecret(a + name + b)
  {
    assert Embeds(a + name + b, name);
    hide Embeds;
  }

  lemma {:induction false} RedactedAt(lower: Lowering, key: string, v: Json, path: seq<nat>)
    requires Redacted(lower, key, v) && NodeAt(key, v, path).Some?
    ensures Redacted(lower, NodeAt(key, v, path).value.key, NodeAt(key, v, path).value.value)
    decreases path
  {
    if path == [] {
    } else {
      match v {
        case Object(entries) => RedactedAt(lower, entries[path[0]].key, entries[path[0]].value, path[1..]);
        case Array(items) =>
          EmptyKeyIsHarmless(lower);
          RedactedAt(lower, "", items[path[0]], path[1..]);
      }
    }
  }

  /** At any depth of a redacted value, what a key that names a secret holds is the mask. */
  lemma {:induction false} SecretsMasked(lower: Lowering, key: string, v: Json, path: seq<nat>)
    requires NodeAt(key, Sanitize(lower, key, v), path).Some?
    requires NamesSecret(lower(NodeAt(key, Sanitize(lower, key, v), path).value.key))
    ensures NodeAt(key, Sanitize(lower, key, v), path).value.value == String("***")
  {
    hide NamesSecret;
    SanitizedIsRedacted(lower, key, v);
    RedactedAt(lower, key, Sanitize(lower, key, v), path);
    SensitiveExact(lower, NodeAt(key, Sanitize(lower, key, v), path).value.key);
  }

  /** No key on the way down the path names a secret. */
  ghost predicate InTheOpen(lower: Lowering, key: string, v: Json, path: seq<nat>) {
    forall n: nat :: n <= |path| && NodeAt(key, v, path[..n]).Some? ==>
      !NamesSecret(lower(NodeAt(key, v, path[..n]).value.key))
  }

  /** The same scalar, the same keys in the same order, or the same length. */
  ghost predicate SameShape(v: Json, w: Json) {
    match v
    case Object(entries) =>
      w.Object? && |w.entries| == |entries| && forall i :: 0 <= i < |entries| ==> w.entries[i].key == entries[i].key
    case Array(items) => w.Array? && |w.items| == |items|
    case _ => w == v
  }

  lemma {:induction false} InTheOpenBelow(lower: Lowering, key: string, v: Json, path: seq<nat>)
    requires path != [] && InTheOpen(lower, key, v, path)
    ensures v.Object? && path[0] < |v.entries| ==>
              InTheOpen(lower, v.entries[path[0]].key, v.entries[path[0]].value, path[1..])
    ensures v.Array? && path[0] < |v.items| ==> InTheOpen(lower, "", v.items[path[0]], path[1..])
    ensures !NamesSecret(lower(key))
  {
    hide NamesSecret;
    assert NodeAt(key, v, path[..0]) == Some(Entry(key, v));
    forall n: nat | n <= |path[1..]|
      ensures path[..n + 1][1..] == path[1..][..n] && path[..n + 1][0] == path[0]
    {
    }
  }

  /** Where no key on the way names a secret, everything is kept: the node is there exactly if it was, under
      its key and in its shape. */
  lemma {:induction false} OpenKept(lower: Lowering, key: string, v: Json, path: seq<nat>)
    requires InTheOpen(lower, key, v, path)
    ensures var before, after := NodeAt(key, v, path), NodeAt(key, Sanitize(lower, key, v), path);
            && (before.Some? <==> after.Some?)
            && (before.Some? ==> after.value.key == before.value.key && SameShape(before.value.value, after.value.value))
    decreases path
  {
    hide NamesSecret, IsSensitiveKey;
    SensitiveExact(lower, key);
    if path == [] {
      assert NodeAt(key, v, path[..0]) == Some(Entry(key, v));
    } else {
      InTheOpenBelow(lower, key, v, path);
      match v {
        case Object(entries) =>
          if path[0] < |entries| {
            OpenKept(lower, entries[path[0]].key, entries[path[0]].value, path[1..]);
          }
        case Array(items) =>
          if path[0] < |items| {
            OpenKept(lower, "", items[path[0]], path[1..]);
          }
        case _ =>
      }
    }
  }

  lemma {:induction false} EmptyKeyIsHarmless(lower: Lowering)
    ensures !IsSensitiveKey(lower, "")
  {
    assert forall i :: 0 <= i < |DANGER_FIELDS| ==> |DANGER_FIELDS[i]| > 0;
  }
}
