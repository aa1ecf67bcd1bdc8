/** A recursive-descent reader of JSON text (RFC 8259, sections 2, 4, 5 and 7) and the locality that
    makes a text other than a number end where it ends, whatever follows. */
module JsonText {
  import opened JsonValues
  import opened Utf8
  import opened Wrappers

  /** How a reader turns the bytes of a number and of a string body into values, how its maps take a
      member, repeated keys included, and how deep it nests. The theorems hold for every choice, so for the one the program's library makes. */
  datatype Reading = Reading(
    number: seq<Byte> -> Option<string>,
    text: seq<Byte> -> Option<string>,
    insert: (seq<Entry>, string, Json) -> seq<Entry>,
    depth: nat)

  const QUOTE: Byte := 0x22
  const COMMA: Byte := 0x2C
  const COLON: Byte := 0x3A
  const BACKSLASH: Byte := 0x5C
  const OPEN_BRACKET: Byte := 0x5B
  const CLOSE_BRACKET: Byte := 0x5D
  const OPEN_BRACE: Byte := 0x7B
  const CLOSE_BRACE: Byte := 0x7D
  const NULL_TEXT: seq<Byte> := [0x6E, 0x75, 0x6C, 0x6C]
  const TRUE_TEXT: seq<Byte> := [0x74, 0x72, 0x75, 0x65]
  const FALSE_TEXT: seq<Byte> := [0x66, 0x61, 0x6C, 0x73, 0x65]

  predicate IsWs(b: Byte) { b == 0x20 || b == 0x09 || b == 0x0A || b == 0x0D }

  /** Digits, sign, point and exponent letters. */
  predicate IsNumberByte(b: Byte) {
    0x30 <= b <= 0x39 || b == 0x2B || b == 0x2D || b == 0x2E || b == 0x45 || b == 0x65
  }

  function SkipWs(s: seq<Byte>, i: nat): (j: nat)
    requires i <= |s|
    ensures i <= j <= |s|
    decreases |s| - i
  {
    if i < |s| && IsWs(s[i]) then SkipWs(s, i + 1) else i
  }

  function SkipNumber(s: seq<Byte>, i: nat): (j: nat)
    requires i <= |s|
    ensures i <= j <= |s|
    decreases |s| - i
  {
    if i < |s| && IsNumberByte(s[i]) then SkipNumber(s, i + 1) else i
  }

  /** The position after the closing quote. A backslash takes the next byte with it; control
      characters are not allowed. */
  function SkipString(s: seq<Byte>, i: nat): (r: Option<nat>)
    requires i <= |s|
    ensures r.Some? ==> i < r.value <= |s|
    decreases |s| - i
  {
    if i == |s| || s[i] < 0x20 then None
    else if s[i] == QUOTE then Some(i + 1)
    else if s[i] == BACKSLASH then
      if i + 1 < |s| then SkipString(s, i + 2) else None
    else SkipString(s, i + 1)
  }

  /** A string whose opening quote is at `i`. */
  function ParseString(r: Reading, s: seq<Byte>, i: nat): (p: Option<(string, nat)>)
    requires i <= |s|
    ensures p.Some? ==> i < p.value.1 <= |s|
  {
    if i == |s| || s[i] != QUOTE then None
    else
      var j :- SkipString(s, i + 1);
      var text :- r.text(s[i + 1..j - 1]);
      Some((text, j))
  }

  function ParseLiteral(s: seq<Byte>, i: nat, literal: seq<Byte>, v: Json): (p: Option<(Json, nat)>)
    requires i < |s| && literal != []
    ensures p.Some? ==> i < p.value.1 <= |s| && p.value.0 == v
  {
    if i + |literal| <= |s| && s[i..i + |literal|] == literal then Some((v, i + |literal|)) else None
  }

  function ParseValue(r: Reading, s: seq<Byte>, i: nat, depth: nat): (p: Option<(Json, nat)>)
    requires i <= |s|
    ensures p.Some? ==> i < p.value.1 <= |s|
    decreases |s| - i, 1
  {
    if i == |s| then None
    else if s[i] == OPEN_BRACE then
      if depth <= 1 then None
      else
        var k := SkipWs(s, i + 1);
        if k < |s| && s[k] == CLOSE_BRACE then Some((Object([]), k + 1))
        else ParseMembers(r, s, k, depth - 1, [])
    else if s[i] == OPEN_BRACKET then
      if depth <= 1 then None
      else
        var k := SkipWs(s, i + 1);
        if k < |s| && s[k] == CLOSE_BRACKET then Some((Array([]), k + 1))
        else ParseItems(r, s, k, depth - 1, [])
    else if s[i] == QUOTE then
      var (text, j) :- ParseString(r, s, i);
      Some((String(text), j))
    else if IsNumberByte(s[i]) then
      var j := SkipNumber(s, i);
      var literal :- r.number(s[i..j]);
      Some((Number(literal), j))
    else if s[i] == NULL_TEXT[0] then ParseLiteral(s, i, NULL_TEXT, Null)
    else if s[i] == TRUE_TEXT[0] then ParseLiteral(s, i, TRUE_TEXT, Bool(true))
    else if s[i] == FALSE_TEXT[0] then ParseLiteral(s, i, FALSE_TEXT, Bool(false))
    else None
  }

  /** A key, a colon and a value. */
  function ParseMember(r: Reading, s: seq<Byte>, i: nat, depth: nat): (p: Option<(string, Json, nat)>)
    requires i <= |s|
    ensures p.Some? ==> i < p.value.2 <= |s|
    decreases |s| - i, 0
  {
    var (key, j) :- ParseString(r, s, i);
    var colon := SkipWs(s, j);
    if colon == |s| || s[colon] != COLON then None
    else
      var (value, k) :- ParseValue(r, s, SkipWs(s, colon + 1), depth);
      Some((key, value, k))
  }

  /** One or more members and the closing brace. */
  function ParseMembers(r: Reading, s: seq<Byte>, i: nat, depth: nat, members: seq<Entry>): (p: Option<(Json, nat)>)
    requires i <= |s|
    ensures p.Some? ==> i < p.value.1 <= |s| && p.value.0.Object?
    decreases |s| - i, 2
  {
    var (key, value, k) :- ParseMember(r, s, i, depth);
    var next := SkipWs(s, k);
    if next == |s| then None
    else if s[next] == CLOSE_BRACE then Some((Object(r.insert(members, key, value)), next + 1))
    else if s[next] == COMMA then ParseMembers(r, s, SkipWs(s, next + 1), depth, r.insert(members, key, value))
    else None
  }

  function ParseItems(r: Reading, s: seq<Byte>, i: nat, depth: nat, items: seq<Json>): (p: Option<(Json, nat)>)
    requires i <= |s|
    ensures p.Some? ==> i < p.value.1 <= |s| && p.value.0.Array?
    decreases |s| - i, 2
  {
    var (value, k) :- ParseValue(r, s, i, depth);
    var next := SkipWs(s, k);
    if next == |s| then None
    else if s[next] == CLOSE_BRACKET then Some((Array(items + [value]), next + 1))
    else if s[next] == COMMA then ParseItems(r, s, SkipWs(s, next + 1), depth, items + [value])
    else None
  }

  /** A whole text: one value with white space around it and nothing else. */
  function ParseText(r: Reading, s: seq<Byte>): Option<Json> {
    var (value, end) :- ParseValue(r, s, SkipWs(s, 0), r.depth);
    if SkipWs(s, end) == |s| then Some(value) else None
  }

  // ----- locality: reading depends on the bytes read, not on what follows them

  ghost predicate Agree(s: seq<Byte>, t: seq<Byte>, n: nat) {
    n <= |s| && n <= |t| && forall k :: 0 <= k < n ==> s[k] == t[k]
  }

  lemma {:induction false} WsLocal(s: seq<Byte>, t: seq<Byte>, i: nat)
    requires i <= |s| && SkipWs(s, i) < |s| && Agree(s, t, SkipWs(s, i) + 1)
    ensures SkipWs(t, i) == SkipWs(s, i)
    decreases |s| - i
  {
    if IsWs(s[i]) {
      WsLocal(s, t, i + 1);
    }
  }

  lemma {:induction false} NumberLocal(s: seq<Byte>, t: seq<Byte>, i: nat)
    requires i <= |s| && Agree(s, t, SkipNumber(s, i))
    requires SkipNumber(s, i) < |t| ==> !IsNumberByte(t[SkipNumber(s, i)])
    ensures SkipNumber(t, i) == SkipNumber(s, i)
    decreases |s| - i
  {
    if i < |s| && IsNumberByte(s[i]) {
      NumberLocal(s, t, i + 1);
    }
  }

  lemma {:induction false} StringLocal(s: seq<Byte>, t: seq<Byte>, i: nat)
    requires i <= |s| && SkipString(s, i).Some? && Agree(s, t, SkipString(s, i).value)
    ensures SkipString(t, i) == SkipString(s, i)
    decreases |s| - i
  {
    if s[i] == BACKSLASH {
      StringLocal(s, t, i + 2);
    } else if s[i] != QUOTE {
      StringLocal(s, t, i + 1);
    }
  }

  lemma {:induction false} ParseStringLocal(r: Reading, s: seq<Byte>, t: seq<Byte>, i: nat)
    requires i <= |s| && ParseString(r, s, i).Some? && Agree(s, t, ParseString(r, s, i).value.1)
    ensures ParseString(r, t, i) == ParseString(r, s, i)
  {
    StringLocal(s, t, i + 1);
    var j := SkipString(s, i + 1).value;
    assert s[i + 1..j - 1] == t[i + 1..j - 1];
  }

  /** Where a number ends depends on the byte after it; no other value needs that byte. */
  lemma {:induction false} ValueLocal(r: Reading, s: seq<Byte>, t: seq<Byte>, i: nat, depth: nat)
    requires i <= |s| && ParseValue(r, s, i, depth).Some?
    requires var (v, j) := ParseValue(r, s, i, depth).value;
             Agree(s, t, j) && (v.Number? && j < |t| ==> !IsNumberByte(t[j]))
    ensures ParseValue(r, t, i, depth) == ParseValue(r, s, i, depth)
    decreases |s| - i, 1
  {
    hide ParseMembers, ParseItems, ParseString;
    var j := ParseValue(r, s, i, depth).value.1;
    if s[i] == OPEN_BRACE || s[i] == OPEN_BRACKET {
      WsLocal(s, t, i + 1);
      var k := SkipWs(s, i + 1);
      if s[i] == OPEN_BRACE && s[k] != CLOSE_BRACE {
        MembersLocal(r, s, t, k, depth - 1, []);
      } else if s[i] == OPEN_BRACKET && s[k] != CLOSE_BRACKET {
        ItemsLocal(r, s, t, k, depth - 1, []);
      }
    } else if s[i] == QUOTE {
      ParseStringLocal(r, s, t, i);
    } else if IsNumberByte(s[i]) {
      NumberLocal(s, t, i);
      assert s[i..j] == t[i..j];
    } else {
      assert s[i..j] == t[i..j];
    }
  }

  lemma {:induction false} MemberLocal(r: Reading, s: seq<Byte>, t: seq<Byte>, i: nat, depth: nat)
    requires i <= |s| && ParseMember(r, s, i, depth).Some?
    requires var k := ParseMember(r, s, i, depth).value.2;
             k < |s| && !IsNumberByte(s[k]) && Agree(s, t, k + 1)
    ensures ParseMember(r, t, i, depth) == ParseMember(r, s, i, depth)
    decreases |s| - i, 0
  {
    hide ParseValue, ParseString, SkipWs;
    var j := ParseString(r, s, i).value.1;
    var colon := SkipWs(s, j);
    var at := SkipWs(s, colon + 1);
    ParseStringLocal(r, s, t, i);
    WsLocal(s, t, j);
    WsLocal(s, t, colon + 1);
    ValueLocal(r, s, t, at, depth);
  }

  /** White space or punctuation after a value is no number byte. */
  lemma {:induction false} PunctuationEnds(s: seq<Byte>, k: nat)
    requires k <= |s| && SkipWs(s, k) < |s|
    requires s[SkipWs(s, k)] == COMMA || s[SkipWs(s, k)] == CLOSE_BRACE || s[SkipWs(s, k)] == CLOSE_BRACKET
    ensures !IsNumberByte(s[k])
  {
    assert SkipWs(s, k) > k ==> IsWs(s[k]);
  }

  lemma {:induction false} MembersLocal(r: Reading, s: seq<Byte>, t: seq<Byte>, i: nat, depth: nat, members: seq<Entry>)
    requires i <= |s| && ParseMembers(r, s, i, depth, members).Some?
    requires Agree(s, t, ParseMembers(r, s, i, depth, members).value.1)
    ensures ParseMembers(r, t, i, depth, members) == ParseMembers(r, s, i, depth, members)
    decreases |s| - i, 2
  {
    hide ParseMember, SkipWs;
    var (key, value, k) := ParseMember(r, s, i, depth).value;
    var next := SkipWs(s, k);
    PunctuationEnds(s, k);
    MemberLocal(r, s, t, i, depth);
    WsLocal(s, t, k);
    if s[next] == COMMA {
      WsLocal(s, t, next + 1);
      MembersLocal(r, s, t, SkipWs(s, next + 1), depth, r.insert(members, key, value));
    }
  }

  lemma {:induction false} ItemsLocal(r: Reading, s: seq<Byte>, t: seq<Byte>, i: nat, depth: nat, items: seq<Json>)
    requires i <= |s| && ParseItems(r, s, i, depth, items).Some?
    requires Agree(s, t, ParseItems(r, s, i, depth, items).value.1)
    ensures ParseItems(r, t, i, depth, items) == ParseItems(r, s, i, depth, items)
    decreases |s| - i, 2
  {
    hide ParseValue, SkipWs;
    var (value, k) := ParseValue(r, s, i, depth).value;
    var next := SkipWs(s, k);
    PunctuationEnds(s, k);
    ValueLocal(r, s, t, i, depth);
    WsLocal(s, t, k);
    if s[next] == COMMA {
      WsLocal(s, t, next + 1);
      ItemsLocal(r, s, t, SkipWs(s, next + 1), depth, items + [value]);
    }
  }

  lemma {:induction false} NumberStops(s: seq<Byte>, i: nat)
    requires i <= |s| && SkipNumber(s, i) < |s|
    ensures !IsNumberByte(s[SkipNumber(s, i)])
    decreases |s| - i
  {
    if IsNumberByte(s[i]) {
      NumberStops(s, i + 1);
    }
  }

  /** A value is a number exactly when its first byte is a number byte, and a number takes all the
      number bytes there are. */
  lemma {:induction false} ValueEndsNumber(r: Reading, s: seq<Byte>, i: nat, depth: nat)
    requires i <= |s| && ParseValue(r, s, i, depth).Some?
    ensures var (v, j) := ParseValue(r, s, i, depth).value;
            (v.Number? <==> IsNumberByte(s[i])) && (v.Number? && j < |s| ==> !IsNumberByte(s[j]))
  {
    hide ParseMembers, ParseItems, ParseString, SkipNumber;
    if IsNumberByte(s[i]) && SkipNumber(s, i) < |s| {
      NumberStops(s, i);
    }
  }

  // ----- prefixes of a text

  /** `d` starts with white space and then a value that ends at `end`. */
  ghost predicate StartsWith(r: Reading, d: seq<Byte>, v: Json, end: nat) {
    ParseValue(r, d, SkipWs(d, 0), r.depth) == Some((v, end))
  }

  ghost predicate AllWs(d: seq<Byte>, from: nat, to: nat)
    requires from <= to <= |d|
  {
    forall k :: from <= k < to ==> IsWs(d[k])
  }

  lemma {:induction false} SkipAllWs(s: seq<Byte>, i: nat)
    requires i <= |s|
    ensures SkipWs(s, i) == |s| <==> AllWs(s, i, |s|)
    decreases |s| - i
  {
    if i < |s| && IsWs(s[i]) {
      SkipAllWs(s, i + 1);
    }
  }

  /** Of all prefixes of `d`, those that parse are the ones that hold the whole value and nothing else
      but white space, and they parse to that value: no proper prefix of an object text, array,
      string or literal is a JSON text. */
  lemma {:induction false} PrefixesThatParse(r: Reading, d: seq<Byte>, v: Json, end: nat, n: nat)
    requires StartsWith(r, d, v, end) && !v.Number? && n <= |d|
    ensures ParseText(r, d[..n]) == if end <= n && AllWs(d, end, n) then Some(v) else None
  {
    hide ParseValue;
    var p := d[..n];
    var start := SkipWs(d, 0);
    if end <= n {
      WsLocal(d, p, 0);
      ValueLocal(r, d, p, start, r.depth);
      SkipAllWs(p, end);
      assert forall k :: end <= k < n ==> p[k] == d[k];
    } else if ParseText(r, p).Some? {
      var at := SkipWs(p, 0);
      var (w, e) := ParseValue(r, p, at, r.depth).value;
      WsLocal(p, d, 0);
      ValueEndsNumber(r, p, at, r.depth);
      ValueEndsNumber(r, d, start, r.depth);
      ValueLocal(r, p, d, at, r.depth);
      assert false;
    }
  }
}
