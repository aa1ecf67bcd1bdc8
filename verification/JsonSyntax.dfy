/** JSON text as a grammar (RFC 8259, sections 2, 4, 5 and 7): what every text says, independent of any
    reader, and the proof that the reader reads exactly that. */
module JsonSyntax {
  import opened JsonText
  import opened JsonValues
  import opened Utf8
  import opened Wrappers

  /** A value as it is written: with the bytes of numbers and of string bodies, and with all white space. */
  datatype Syntax =
    | NullWord
    | TrueWord
    | FalseWord
    | Digits(bytes: seq<Byte>)
    | Quoted(body: seq<Byte>)
    | EmptyArray(inside: seq<Byte>)
    | ArrayOf(elements: seq<Element>)
    | EmptyObject(inside: seq<Byte>)
    | ObjectOf(members: seq<Member>)

  datatype Element = Element(before: seq<Byte>, value: Syntax, after: seq<Byte>)

  datatype Member = Member(before: seq<Byte>, key: seq<Byte>, colon: seq<Byte>, element: Element)

  // ----- the text

  function Print(x: Syntax): seq<Byte>
    decreases x, 0
  {
    match x
    case NullWord => [0x6E, 0x75, 0x6C, 0x6C]
    case TrueWord => [0x74, 0x72, 0x75, 0x65]
    case FalseWord => [0x66, 0x61, 0x6C, 0x73, 0x65]
    case Digits(bytes) => bytes
    case Quoted(body) => [0x22] + body + [0x22]
    case EmptyArray(inside) => [0x5B] + inside + [0x5D]
    case ArrayOf(elements) => [0x5B] + PrintElements(elements) + [0x5D]
    case EmptyObject(inside) => [0x7B] + inside + [0x7D]
    case ObjectOf(members) => [0x7B] + PrintMembers(members) + [0x7D]
  }

  function PrintElement(e: Element): seq<Byte>
    decreases e, 1
  {
    e.before + Print(e.value) + e.after
  }

  /** Elements with commas between them. */
  function PrintElements(elements: seq<Element>): seq<Byte>
    decreases elements, 2
  {
    if elements == [] then []
    else if |elements| == 1 then PrintElement(elements[0])
    else PrintElement(elements[0]) + [0x2C] + PrintElements(elements[1..])
  }

  /** A key in quotes, a colon and a value. */
  function PrintMember(m: Member): seq<Byte>
    decreases m, 2
  {
    m.before + [0x22] + m.key + [0x22] + m.colon + [0x3A] + PrintElement(m.element)
  }

  function PrintMembers(members: seq<Member>): seq<Byte>
    decreases members, 3
  {
    if members == [] then []
    else if |members| == 1 then PrintMember(members[0])
    else PrintMember(members[0]) + [0x2C] + PrintMembers(members[1..])
  }

  // ----- the value

  /** What is written, given what the bodies of numbers and strings stand for: members enter the object's map
      one after the other. */
  function Meaning(r: Reading, x: Syntax): Json
    decreases x, 0
  {
    match x
    case NullWord => Null
    case TrueWord => Bool(true)
    case FalseWord => Bool(false)
    case Digits(bytes) => Number(Body(r.number(bytes)))
    case Quoted(body) => String(Body(r.text(body)))
    case EmptyArray(_) => Array([])
    case ArrayOf(elements) => Array(Values(r, elements))
    case EmptyObject(_) => Object([])
    case ObjectOf(members) => Object(Inserted(r, members))
  }

  function Body(text: Option<string>): string { if text.Some? then text.value else "" }

  function Values(r: Reading, elements: seq<Element>): (values: seq<Json>)
    decreases elements, 1
  {
    if elements == [] then []
    else Values(r, elements[..|elements| - 1]) + [Meaning(r, elements[|elements| - 1].value)]
  }

  function Inserted(r: Reading, members: seq<Member>): seq<Entry>
    decreases members, 1
  {
    if members == [] then []
    else
      var m := members[|members| - 1];
      r.insert(Inserted(r, members[..|members| - 1]), Body(r.text(m.key)), Meaning(r, m.element.value))
  }

  // ----- what may be written

  ghost predicate IsSpace(s: seq<Byte>) {
    forall i :: 0 <= i < |s| ==> s[i] == 0x20 || s[i] == 0x09 || s[i] == 0x0A || s[i] == 0x0D
  }

  /** The body of a string: no quote and no control character, except that a backslash takes any byte with it. */
  ghost predicate IsBody(b: seq<Byte>)
    decreases |b|
  {
    b == []
    || (b[0] == 0x5C && |b| >= 2 && IsBody(b[2..]))
    || (b[0] >= 0x20 && b[0] != 0x22 && b[0] != 0x5C && IsBody(b[1..]))
  }

  ghost predicate IsDigits(b: seq<Byte>) {
    b != [] && forall i :: 0 <= i < |b| ==>
                 0x30 <= b[i] <= 0x39 || b[i] == 0x2B || b[i] == 0x2D || b[i] == 0x2E || b[i] == 0x45 || b[i] == 0x65
  }

  /** White space is white space, bodies have a meaning, and arrays and objects nest less deep than `depth`. */
  ghost predicate WellFormed(r: Reading, x: Syntax, depth: nat)
    decreases x, 0
  {
    match x
    case Digits(bytes) => IsDigits(bytes) && r.number(bytes).Some?
    case Quoted(body) => IsBody(body) && r.text(body).Some?
    case EmptyArray(inside) => depth > 1 && IsSpace(inside)
    case EmptyObject(inside) => depth > 1 && IsSpace(inside)
    case ArrayOf(elements) =>
      depth > 1 && elements != [] && forall i :: 0 <= i < |elements| ==> WellFormedElement(r, elements[i], depth - 1)
    case ObjectOf(members) =>
      depth > 1 && members != [] && forall i :: 0 <= i < |members| ==> WellFormedMember(r, members[i], depth - 1)
    case _ => true
  }

  ghost predicate WellFormedElement(r: Reading, e: Element, depth: nat)
    decreases e, 1
  {
    IsSpace(e.before) && IsSpace(e.after) && WellFormed(r, e.value, depth)
  }

  ghost predicate WellFormedMember(r: Reading, m: Member, depth: nat)
    decreases m, 2
  {
    && IsSpace(m.before) && IsSpace(m.colon) && IsBody(m.key) && r.text(m.key).Some?
    && WellFormedElement(r, m.element, depth)
  }

  // ----- reading at a position

  ghost predicate At(s: seq<Byte>, i: nat, text: seq<Byte>) {
    i + |text| <= |s| && s[i..i + |text|] == text
  }

  lemma {:induction false} AtSplit(s: seq<Byte>, i: nat, a: seq<Byte>, b: seq<Byte>)
    ensures At(s, i, a + b) <==> At(s, i, a) && At(s, i + |a|, b)
  {
    if At(s, i, a + b) {
      assert s[i..i + |a|] == (a + b)[..|a|];
      assert s[i + |a|..i + |a| + |b|] == (a + b)[|a|..];
    }
    if At(s, i, a) && At(s, i + |a|, b) {
      assert s[i..i + |a| + |b|] == s[i..i + |a|] + s[i + |a|..i + |a| + |b|];
    }
  }

  /** White space at a position is skipped, up to something else. */
  lemma {:induction false} SpaceSkipped(s: seq<Byte>, i: nat, space: seq<Byte>)
    requires At(s, i, space) && IsSpace(space)
    requires i + |space| < |s| ==> !IsWs(s[i + |space|])
    ensures SkipWs(s, i) == i + |space|
    decreases |space|
  {
    if space == [] {
    } else {
      assert s[i] == s[i..i + |space|][0];
      assert s[i + 1..i + |space|] == s[i..i + |space|][1..] == space[1..];
      SpaceSkipped(s, i + 1, space[1..]);
    }
  }

  lemma {:induction false} BodySkipped(s: seq<Byte>, i: nat, body: seq<Byte>)
    requires At(s, i, body) && i + |body| < |s| && s[i + |body|] == 0x22 && IsBody(body)
    ensures SkipString(s, i) == Some(i + |body| + 1)
    decreases |body|
  {
    if body == [] {
    } else {
      assert s[i] == s[i..i + |body|][0];
      var k := if body[0] == 0x5C then 2 else 1;
      assert s[i + k..i + |body|] == s[i..i + |body|][k..] == body[k..];
      BodySkipped(s, i + k, body[k..]);
    }
  }

  lemma {:induction false} DigitsSkipped(s: seq<Byte>, i: nat, bytes: seq<Byte>)
    requires At(s, i, bytes)
    requires forall k :: 0 <= k < |bytes| ==> IsNumberByte(bytes[k])
    requires i + |bytes| < |s| ==> !IsNumberByte(s[i + |bytes|])
    ensures SkipNumber(s, i) == i + |bytes|
    decreases |bytes|
  {
    if bytes == [] {
    } else {
      assert s[i] == s[i..i + |bytes|][0];
      assert s[i + 1..i + |bytes|] == s[i..i + |bytes|][1..] == bytes[1..];
      DigitsSkipped(s, i + 1, bytes[1..]);
    }
  }

  /** A quoted body at a position reads as its text. */
  lemma {:induction false} QuotedReads(r: Reading, s: seq<Byte>, i: nat, body: seq<Byte>)
    requires At(s, i, [0x22] + body + [0x22]) && IsBody(body) && r.text(body).Some?
    ensures ParseString(r, s, i) == Some((r.text(body).value, i + |body| + 2))
  {
    AtSplit(s, i, [0x22] + body, [0x22]);
    AtSplit(s, i, [0x22], body);
    assert s[i] == s[i..i + 1][0];
    assert s[i + 1 + |body|] == s[i + 1 + |body|..i + 2 + |body|][0];
    BodySkipped(s, i + 1, body);
  }

  /** A value starts with no white space, bracket that closes, comma or colon. */
  lemma {:induction false} PrintStarts(r: Reading, x: Syntax, depth: nat)
    requires WellFormed(r, x, depth)
    ensures Print(x) != []
    ensures !IsWs(Print(x)[0]) && Print(x)[0] != 0x5D && Print(x)[0] != 0x7D
    ensures IsNumberByte(Print(x)[0]) <==> x.Digits?
  {
  }

  ghost predicate EndsThere(s: seq<Byte>, x: Syntax, end: nat) {
    x.Digits? && end < |s| ==> !IsNumberByte(s[end])
  }

  lemma {:induction false} ScalarReads(r: Reading, s: seq<Byte>, i: nat, x: Syntax, depth: nat)
    requires WellFormed(r, x, depth) && At(s, i, Print(x)) && EndsThere(s, x, i + |Print(x)|)
    requires x.NullWord? || x.TrueWord? || x.FalseWord? || x.Digits? || x.Quoted?
    ensures ParseValue(r, s, i, depth) == Some((Meaning(r, x), i + |Print(x)|))
  {
    hide ParseMembers, ParseItems, SkipNumber, ParseString;
    PrintStarts(r, x, depth);
    assert s[i] == s[i..i + |Print(x)|][0] == Print(x)[0];
    if x.Digits? {
      DigitsSkipped(s, i, x.bytes);
    } else if x.Quoted? {
      QuotedReads(r, s, i, x.body);
    }
  }

  lemma {:induction false} EmptyReads(r: Reading, s: seq<Byte>, i: nat, x: Syntax, depth: nat)
    requires WellFormed(r, x, depth) && At(s, i, Print(x)) && (x.EmptyArray? || x.EmptyObject?)
    ensures ParseValue(r, s, i, depth) == Some((Meaning(r, x), i + |Print(x)|))
  {
    hide ParseMembers, ParseItems, SkipNumber, ParseString, SkipWs;
    assert s[i] == s[i..i + |Print(x)|][0] == Print(x)[0];
    if x.EmptyArray? {
      EmptyBrackets(s, i, 0x5B, x.inside, 0x5D);
    } else {
      EmptyBrackets(s, i, 0x7B, x.inside, 0x7D);
    }
  }

  lemma {:induction false} BracketAt(s: seq<Byte>, i: nat, open: Byte, inside: seq<Byte>)
    requires At(s, i, [open] + inside)
    ensures i < |s| && s[i] == open && At(s, i + 1, inside)
  {
    AtSplit(s, i, [open], inside);
    assert s[i] == s[i..i + 1][0];
  }

  /** A written value at a position reads as what it means, and ends where it is written to end. */
  lemma {:induction false} ValueReads(r: Reading, s: seq<Byte>, i: nat, x: Syntax, depth: nat)
    requires WellFormed(r, x, depth) && At(s, i, Print(x)) && EndsThere(s, x, i + |Print(x)|)
    ensures ParseValue(r, s, i, depth) == Some((Meaning(r, x), i + |Print(x)|))
    decreases x, 1
  {
    if x.ArrayOf? {
      ArrayReads(r, s, i, x, depth);
    } else if x.ObjectOf? {
      ObjectReads(r, s, i, x, depth);
    } else if x.EmptyArray? || x.EmptyObject? {
      EmptyReads(r, s, i, x, depth);
    } else {
      ScalarReads(r, s, i, x, depth);
    }
  }

  lemma {:induction false} ArrayReads(r: Reading, s: seq<Byte>, i: nat, x: Syntax, depth: nat)
    requires x.ArrayOf? && WellFormed(r, x, depth) && At(s, i, Print(x))
    ensures ParseValue(r, s, i, depth) == Some((Meaning(r, x), i + |Print(x)|))
    decreases x, 0
  {
    hide ParseItems, ParseMembers, ParseString, SkipNumber, SkipWs, At, WellFormedElement, Values, PrintElements;
    var elements := x.elements;
    assert Print(x) == [0x5B] + (PrintElements(elements) + [0x5D]);
    BracketAt(s, i, 0x5B, PrintElements(elements) + [0x5D]);
    ElementPlaces(r, s, i + 1, elements, depth - 1);
    ElementsRead(r, s, i + 1, elements, depth - 1, []);
    assert [] + Values(r, elements) == Values(r, elements);
  }

  lemma {:induction false} ObjectReads(r: Reading, s: seq<Byte>, i: nat, x: Syntax, depth: nat)
    requires x.ObjectOf? && WellFormed(r, x, depth) && At(s, i, Print(x))
    ensures ParseValue(r, s, i, depth) == Some((Meaning(r, x), i + |Print(x)|))
    decreases x, 0
  {
    hide ParseItems, ParseMembers, ParseString, SkipNumber, SkipWs, At, WellFormedMember, PrintMembers;
    var members := x.members;
    assert Print(x) == [0x7B] + (PrintMembers(members) + [0x7D]);
    BracketAt(s, i, 0x7B, PrintMembers(members) + [0x7D]);
    MemberPlaces(r, s, i + 1, members, depth - 1);
    MembersRead(r, s, i + 1, members, depth - 1, [], []);
    assert [] + members == members;
  }

  lemma {:induction false} EmptyBrackets(s: seq<Byte>, i: nat, open: Byte, inside: seq<Byte>, close: Byte)
    requires At(s, i, [open] + inside + [close]) && IsSpace(inside) && !IsWs(close)
    ensures SkipWs(s, i + 1) == i + 1 + |inside| && s[i + 1 + |inside|] == close
  {
    AtSplit(s, i, [open] + inside, [close]);
    AtSplit(s, i, [open], inside);
    assert s[i + 1 + |inside|] == s[i + 1 + |inside|..i + 2 + |inside|][0];
    SpaceSkipped(s, i + 1, inside);
  }

  lemma {:induction false} FirstElement(elements: seq<Element>, rest: seq<Byte>) returns (tail: seq<Byte>)
    requires elements != []
    ensures PrintElements(elements) + rest
            == elements[0].before + (Print(elements[0].value) + (elements[0].after + tail))
    ensures tail == if |elements| == 1 then rest else [0x2C] + (PrintElements(elements[1..]) + rest)
  {
    hide Print;
    tail := if |elements| == 1 then rest else [0x2C] + (PrintElements(elements[1..]) + rest);
  }

  /** Where the first element, its punctuation and the elements after it are. */
  lemma {:induction false} ElementPlaces(r: Reading, s: seq<Byte>, p: nat, elements: seq<Element>, depth: nat)
    requires elements != [] && WellFormedElement(r, elements[0], depth)
    requires At(s, p, PrintElements(elements) + [0x5D])
    ensures var e := elements[0];
            var at := p + |e.before|;
            var k := at + |Print(e.value)|;
            var next := k + |e.after|;
            && SkipWs(s, p) == at < |s| && s[at] != 0x5D && At(s, at, Print(e.value))
            && next < |s| && SkipWs(s, k) == next && !IsNumberByte(s[k])
            && (|elements| == 1 ==> s[next] == 0x5D && next == p + |PrintElements(elements)|)
            && (|elements| > 1 ==>
                  && s[next] == 0x2C && At(s, next + 1, PrintElements(elements[1..]) + [0x5D])
                  && next + 1 + |PrintElements(elements[1..])| == p + |PrintElements(elements)|)
  {
    hide Print, PrintElements, At, IsSpace, WellFormed;
    var e := elements[0];
    var tail := FirstElement(elements, [0x5D]);
    var at := p + |e.before|;
    var k := at + |Print(e.value)|;
    AtSplit(s, p, e.before, Print(e.value) + (e.after + tail));
    AtSplit(s, at, Print(e.value), e.after + tail);
    PrintStarts(r, e.value, depth);
    AtFirst(s, at, Print(e.value));
    SpaceSkipped(s, p, e.before);
    AfterValue(s, k, e.after, tail);
    AtSplit(s, k, e.after, tail);
    var next := k + |e.after|;
    if |elements| > 1 {
      AtSplit(s, next, [0x2C], PrintElements(elements[1..]) + [0x5D]);
    }
    assert |PrintElements(elements) + [0x5D]| == |e.before| + |Print(e.value)| + |e.after| + |tail|;
  }

  lemma {:induction false} AtFirst(s: seq<Byte>, i: nat, text: seq<Byte>)
    requires At(s, i, text) && text != []
    ensures i < |s| && s[i] == text[0]
  {
    assert s[i] == s[i..i + |text|][0];
  }

  /** White space after a value ends at the punctuation behind it. */
  lemma {:induction false} AfterValue(s: seq<Byte>, k: nat, after: seq<Byte>, tail: seq<Byte>)
    requires At(s, k, after + tail) && IsSpace(after)
    requires tail != [] && (tail[0] == 0x2C || tail[0] == 0x5D || tail[0] == 0x7D)
    ensures SkipWs(s, k) == k + |after| < |s| && s[k + |after|] == tail[0] && !IsNumberByte(s[k])
  {
    AtSplit(s, k, after, tail);
    var n := k + |after|;
    assert s[n] == s[n..n + |tail|][0];
    SpaceSkipped(s, k, after);
    assert after != [] ==> s[k] == s[k..k + |after|][0];
  }

  lemma {:induction false} ElementsRead(r: Reading, s: seq<Byte>, p: nat, elements: seq<Element>, depth: nat, items: seq<Json>)
    requires elements != [] && forall i :: 0 <= i < |elements| ==> WellFormedElement(r, elements[i], depth)
    requires At(s, p, PrintElements(elements) + [0x5D])
    ensures SkipWs(s, p) <= |s|
    ensures ParseItems(r, s, SkipWs(s, p), depth, items)
            == Some((Array(items + Values(r, elements)), p + |PrintElements(elements)| + 1))
    decreases elements, 2
  {
    hide Print, PrintElements, ParseValue, At, Meaning, Values, IsNumberByte, SkipWs, WellFormed;
    var e := elements[0];
    ElementPlaces(r, s, p, elements, depth);
    var at := p + |e.before|;
    var k := at + |Print(e.value)|;
    var next := k + |e.after|;
    ValueReads(r, s, at, e.value, depth);
    ValuesFront(r, elements);
    if |elements| == 1 {
      NoValues(r, elements[1..]);
      assert items + Values(r, elements) == items + [Meaning(r, e.value)];
    } else {
      var rest := elements[1..];
      assert forall i :: 0 <= i < |rest| ==> rest[i] == elements[i + 1];
      ElementsRead(r, s, next + 1, rest, depth, items + [Meaning(r, e.value)]);
      assert items + [Meaning(r, e.value)] + Values(r, rest) == items + Values(r, elements);
    }
  }

  lemma {:induction false} NoValues(r: Reading, elements: seq<Element>)
    requires elements == []
    ensures Values(r, elements) == []
  {
  }

  lemma {:induction false} ValuesFront(r: Reading, elements: seq<Element>)
    requires elements != []
    ensures Values(r, elements) == [Meaning(r, elements[0].value)] + Values(r, elements[1..])
  {
    hide Meaning;
    if |elements| == 1 {
      assert elements[..0] == elements[1..] == [];
    } else {
      ValuesFront(r, elements[..|elements| - 1]);
      assert elements[1..][..|elements| - 2] == elements[..|elements| - 1][1..];
    }
  }

  /** What follows the white space in front of a member. */
  function AfterBefore(m: Member, tail: seq<Byte>): seq<Byte> {
    ([0x22] + m.key + [0x22])
    + (m.colon + ([0x3A] + (m.element.before + (Print(m.element.value) + (m.element.after + tail)))))
  }

  lemma {:induction false} AfterBeforeSplits(m: Member, tail: seq<Byte>) returns (head: seq<Byte>)
    ensures AfterBefore(m, tail) == head + tail
    ensures PrintMember(m) == m.before + head
    ensures |head| == |m.key| + 2 + |m.colon| + 1 + |PrintElement(m.element)|
  {
    hide Print;
    head := [0x22] + m.key + [0x22] + m.colon + [0x3A] + PrintElement(m.element);
    assert PrintMember(m) == m.before + head;
    var value := m.element.before + (Print(m.element.value) + (m.element.after + tail));
    assert PrintElement(m.element) + tail == value;
  }

  lemma {:induction false} MembersSplit(members: seq<Member>, rest: seq<Byte>, head: seq<Byte>) returns (tail: seq<Byte>)
    requires members != [] && PrintMember(members[0]) == members[0].before + head
    ensures PrintMembers(members) + rest == members[0].before + (head + tail)
    ensures tail == if |members| == 1 then rest else [0x2C] + (PrintMembers(members[1..]) + rest)
  {
    hide Print, PrintMember;
    tail := if |members| == 1 then rest else [0x2C] + (PrintMembers(members[1..]) + rest);
  }

  lemma {:induction false} MemberPlaces(r: Reading, s: seq<Byte>, p: nat, members: seq<Member>, depth: nat)
    requires members != [] && WellFormedMember(r, members[0], depth)
    requires At(s, p, PrintMembers(members) + [0x7D])
    ensures var m := members[0];
            var at := p + |m.before|;
            var next := at + |m.key| + 2 + |m.colon| + 1 + |PrintElement(m.element)|;
            var tail := if |members| == 1 then [0x7D] else [0x2C] + (PrintMembers(members[1..]) + [0x7D]);
            && SkipWs(s, p) == at < |s| && s[at] != 0x7D && At(s, at, AfterBefore(m, tail))
            && At(s, next, tail)
            && (|members| == 1 ==> next == p + |PrintMembers(members)|)
            && (|members| > 1 ==>
                  && At(s, next + 1, PrintMembers(members[1..]) + [0x7D])
                  && next + 1 + |PrintMembers(members[1..])| == p + |PrintMembers(members)|)
  {
    hide Print, PrintMember, PrintMembers, PrintElement, At, IsSpace, IsBody, WellFormed, AfterBefore, SkipWs;
    var m := members[0];
    var last: seq<Byte> := [0x7D];
    var expected := if |members| == 1 then last else [0x2C] + (PrintMembers(members[1..]) + last);
    var head := AfterBeforeSplits(m, expected);
    var tail := MembersSplit(members, last, head);
    var at := p + |m.before|;
    AtSplit(s, p, m.before, head + tail);
    QuoteFirst(m, tail);
    AtFirst(s, at, head + tail);
    SpaceSkipped(s, p, m.before);
    AtSplit(s, at, head, tail);
    var next := at + |head|;
    if |members| > 1 {
      AtSplit(s, next, [0x2C], PrintMembers(members[1..]) + last);
    }
    assert |PrintMembers(members) + last| == |m.before| + |head| + |tail|;
  }

  lemma {:induction false} QuoteFirst(m: Member, tail: seq<Byte>)
    ensures AfterBefore(m, tail) != [] && AfterBefore(m, tail)[0] == 0x22
  {
    hide Print;
  }

  /** Where the parts of a member are. */
  lemma {:induction false} PartPlaces(r: Reading, s: seq<Byte>, i: nat, m: Member, depth: nat, tail: seq<Byte>)
    requires WellFormedMember(r, m, depth) && At(s, i, AfterBefore(m, tail))
    requires tail != [] && (tail[0] == 0x2C || tail[0] == 0x7D)
    ensures var j := i + |m.key| + 2;
            var colon := j + |m.colon|;
            var at := colon + 1 + |m.element.before|;
            var k := at + |Print(m.element.value)|;
            && At(s, i, [0x22] + m.key + [0x22])
            && SkipWs(s, j) == colon < |s| && s[colon] == 0x3A
            && SkipWs(s, colon + 1) == at && At(s, at, Print(m.element.value))
            && k < |s| && !IsNumberByte(s[k])
            && SkipWs(s, k) == k + |m.element.after| < |s| && s[k + |m.element.after|] == tail[0]
  {
    hide Print, At, IsSpace, WellFormed, IsBody;
    var e := m.element;
    var key := [0x22] + m.key + [0x22];
    var value := Print(e.value) + (e.after + tail);
    var j := i + |key|;
    var colon := j + |m.colon|;
    var at := colon + 1 + |e.before|;
    var k := at + |Print(e.value)|;
    AtSplit(s, i, key, m.colon + ([0x3A] + (e.before + value)));
    AtSplit(s, j, m.colon, [0x3A] + (e.before + value));
    AtSplit(s, colon, [0x3A], e.before + value);
    AtSplit(s, colon + 1, e.before, value);
    AtSplit(s, at, Print(e.value), e.after + tail);
    AtFirst(s, colon, [0x3A]);
    SpaceSkipped(s, j, m.colon);
    PrintStarts(r, e.value, depth);
    AtFirst(s, at, Print(e.value));
    SpaceSkipped(s, colon + 1, e.before);
    AfterValue(s, k, e.after, tail);
  }

  /** A key, a colon and a value at a position read as that member. */
  lemma {:induction false} MemberReads(r: Reading, s: seq<Byte>, i: nat, m: Member, depth: nat, tail: seq<Byte>)
    requires WellFormedMember(r, m, depth) && At(s, i, AfterBefore(m, tail))
    requires tail != [] && (tail[0] == 0x2C || tail[0] == 0x7D)
    ensures var k := i + |m.key| + 2 + |m.colon| + 1 + |m.element.before| + |Print(m.element.value)|;
            && ParseMember(r, s, i, depth) == Some((r.text(m.key).value, Meaning(r, m.element.value), k))
            && SkipWs(s, k) == k + |m.element.after| < |s| && s[k + |m.element.after|] == tail[0]
    decreases m, 3
  {
    hide Print, Meaning, ParseValue, ParseString, At, SkipWs, IsNumberByte, AfterBefore, WellFormed, IsBody, IsSpace;
    PartPlaces(r, s, i, m, depth, tail);
    QuotedReads(r, s, i, m.key);
    ValueReads(r, s, i + |m.key| + 2 + |m.colon| + 1 + |m.element.before|, m.element.value, depth);
  }

  lemma {:induction false} MembersRead(r: Reading, s: seq<Byte>, p: nat, members: seq<Member>, depth: nat,
                                       done: seq<Member>, entries: seq<Entry>)
    requires members != [] && forall i :: 0 <= i < |members| ==> WellFormedMember(r, members[i], depth)
    requires At(s, p, PrintMembers(members) + [0x7D]) && entries == Inserted(r, done)
    ensures SkipWs(s, p) <= |s|
    ensures ParseMembers(r, s, SkipWs(s, p), depth, entries)
            == Some((Object(Inserted(r, done + members)), p + |PrintMembers(members)| + 1))
    decreases members, 4
  {
    hide Print, PrintMembers, ParseMember, At, SkipWs, Meaning, Inserted, AfterBefore, WellFormedElement, IsSpace, IsBody;
    var m := members[0];
    MemberPlaces(r, s, p, members, depth);
    var tail := if |members| == 1 then [0x7D] else [0x2C] + (PrintMembers(members[1..]) + [0x7D]);
    var at := p + |m.before|;
    MemberReads(r, s, at, m, depth, tail);
    var next := at + |m.key| + 2 + |m.colon| + 1 + |PrintElement(m.element)|;
    InsertedSnoc(r, done, m);
    if |members| == 1 {
      assert done + members == done + [m];
    } else {
      var rest := members[1..];
      assert forall i :: 0 <= i < |rest| ==> rest[i] == members[i + 1];
      MembersRead(r, s, next + 1, rest, depth, done + [m], Inserted(r, done + [m]));
      assert done + [m] + rest == done + members;
    }
  }

  lemma {:induction false} InsertedSnoc(r: Reading, done: seq<Member>, m: Member)
    requires r.text(m.key).Some?
    ensures Inserted(r, done + [m]) == r.insert(Inserted(r, done), r.text(m.key).value, Meaning(r, m.element.value))
  {
    hide Meaning;
    assert (done + [m])[..|done|] == done;
  }

  lemma {:induction false} TextPlaces(r: Reading, e: Element)
    requires WellFormedElement(r, e, r.depth)
    ensures var s, at := PrintElement(e), |e.before|;
            var k := at + |Print(e.value)|;
            && SkipWs(s, 0) == at && At(s, at, Print(e.value)) && EndsThere(s, e.value, k)
            && k <= |s| && SkipWs(s, k) == |s|
  {
    hide Print, At, IsSpace, WellFormed, SkipWs;
    var s, at := PrintElement(e), |e.before|;
    var k := at + |Print(e.value)|;
    WholeText(s);
    assert s == e.before + (Print(e.value) + e.after);
    AtSplit(s, 0, e.before, Print(e.value) + e.after);
    AtSplit(s, at, Print(e.value), e.after);
    PrintStarts(r, e.value, r.depth);
    AtFirst(s, at, Print(e.value));
    SpaceSkipped(s, 0, e.before);
    SpaceSkipped(s, k, e.after);
    if e.after != [] {
      AtFirst(s, k, e.after);
      SpaceIsNoNumber(e.after);
    }
  }

  lemma {:induction false} WholeText(s: seq<Byte>)
    ensures At(s, 0, s)
  {
    assert s[0..|s|] == s;
  }

  lemma {:induction false} SpaceIsNoNumber(space: seq<Byte>)
    requires IsSpace(space) && space != []
    ensures !IsNumberByte(space[0])
  {
  }

  /** A written text, with white space around it, reads as what it means. */
  lemma {:induction false} TextReads(r: Reading, e: Element)
    requires WellFormedElement(r, e, r.depth)
    ensures ParseText(r, PrintElement(e)) == Some(Meaning(r, e.value))
  {
    hide Print, PrintElement, ParseValue, At, IsSpace, WellFormed, SkipWs, Meaning, EndsThere;
    TextPlaces(r, e);
    ValueReads(r, PrintElement(e), |e.before|, e.value, r.depth);
  }

  // ----- nothing else is read

  lemma {:induction false} SkippedIsSpace(s: seq<Byte>, i: nat)
    requires i <= |s|
    ensures IsSpace(s[i..SkipWs(s, i)])
    decreases |s| - i
  {
    if i < |s| && IsWs(s[i]) {
      SkippedIsSpace(s, i + 1);
      assert s[i..SkipWs(s, i)] == [s[i]] + s[i + 1..SkipWs(s, i)];
    }
  }

  lemma {:induction false} SkippedIsDigits(s: seq<Byte>, i: nat)
    requires i <= |s|
    ensures forall k :: i <= k < SkipNumber(s, i) ==> IsNumberByte(s[k])
    decreases |s| - i
  {
    if i < |s| && IsNumberByte(s[i]) {
      SkippedIsDigits(s, i + 1);
    }
  }

  lemma {:induction false} SkippedIsBody(s: seq<Byte>, i: nat)
    requires i <= |s| && SkipString(s, i).Some?
    ensures var j := SkipString(s, i).value; IsBody(s[i..j - 1]) && s[j - 1] == 0x22
    decreases |s| - i
  {
    var j := SkipString(s, i).value;
    if s[i] == 0x22 {
    } else {
      var k := if s[i] == 0x5C then 2 else 1;
      SkippedIsBody(s, i + k);
      assert s[i..j - 1][k..] == s[i + k..j - 1];
    }
  }

  lemma {:induction false} StringWritten(r: Reading, s: seq<Byte>, i: nat) returns (body: seq<Byte>)
    requires i <= |s| && ParseString(r, s, i).Some?
    ensures var (text, j) := ParseString(r, s, i).value;
            && IsBody(body) && r.text(body) == Some(text) && j == i + |body| + 2
            && At(s, i, [0x22] + body + [0x22])
  {
    SkippedIsBody(s, i + 1);
    var j := SkipString(s, i + 1).value;
    body := s[i + 1..j - 1];
    assert s[i..j] == [0x22] + body + [0x22];
  }

  /** What is read at a position is written there. */
  ghost predicate Written(r: Reading, s: seq<Byte>, i: nat, depth: nat, x: Syntax, v: Json, j: nat) {
    WellFormed(r, x, depth) && Meaning(r, x) == v && At(s, i, Print(x)) && j == i + |Print(x)|
  }

  lemma {:induction false} ScalarWritten(r: Reading, s: seq<Byte>, i: nat, depth: nat) returns (x: Syntax)
    requires i < |s| && s[i] != 0x7B && s[i] != 0x5B && ParseValue(r, s, i, depth).Some?
    ensures Written(r, s, i, depth, x, ParseValue(r, s, i, depth).value.0, ParseValue(r, s, i, depth).value.1)
  {
    hide ParseMembers, ParseItems, SkipNumber, ParseString;
    var j := ParseValue(r, s, i, depth).value.1;
    if s[i] == QUOTE {
      var body := StringWritten(r, s, i);
      x := Quoted(body);
    } else if IsNumberByte(s[i]) {
      SkippedIsDigits(s, i);
      x := Digits(s[i..j]);
    } else {
      x := if s[i] == 0x6E then NullWord else if s[i] == 0x74 then TrueWord else FalseWord;
    }
  }

  lemma {:induction false} EmptyWritten(r: Reading, s: seq<Byte>, i: nat, depth: nat) returns (x: Syntax)
    requires i < |s| && (s[i] == 0x7B || s[i] == 0x5B) && ParseValue(r, s, i, depth).Some?
    requires s[SkipWs(s, i + 1)..] != [] && s[SkipWs(s, i + 1)] == (if s[i] == 0x7B then 0x7D else 0x5D)
    ensures Written(r, s, i, depth, x, ParseValue(r, s, i, depth).value.0, ParseValue(r, s, i, depth).value.1)
  {
    hide ParseMembers, ParseItems, SkipNumber, ParseString, SkipWs;
    var k := SkipWs(s, i + 1);
    var inside := s[i + 1..k];
    SkippedIsSpace(s, i + 1);
    if s[i] == 0x7B {
      x := EmptyObject(inside);
      assert s[i..k + 1] == [0x7B] + inside + [0x7D];
    } else {
      x := EmptyArray(inside);
      assert s[i..k + 1] == [0x5B] + inside + [0x5D];
    }
  }

  lemma {:induction false} ValueWritten(r: Reading, s: seq<Byte>, i: nat, depth: nat) returns (x: Syntax)
    requires i <= |s| && ParseValue(r, s, i, depth).Some?
    ensures Written(r, s, i, depth, x, ParseValue(r, s, i, depth).value.0, ParseValue(r, s, i, depth).value.1)
    decreases |s| - i, 1
  {
    if s[i] != 0x7B && s[i] != 0x5B {
      x := ScalarWritten(r, s, i, depth);
    } else {
      var k := SkipWs(s, i + 1);
      if k < |s| && s[k] == (if s[i] == 0x7B then 0x7D else 0x5D) {
        x := EmptyWritten(r, s, i, depth);
      } else {
        x := NestedWritten(r, s, i, depth);
      }
    }
  }

  lemma {:induction false} NestedWritten(r: Reading, s: seq<Byte>, i: nat, depth: nat) returns (x: Syntax)
    requires i < |s| && (s[i] == 0x7B || s[i] == 0x5B) && ParseValue(r, s, i, depth).Some?
    requires var k := SkipWs(s, i + 1); k < |s| ==> s[k] != (if s[i] == 0x7B then 0x7D else 0x5D)
    ensures Written(r, s, i, depth, x, ParseValue(r, s, i, depth).value.0, ParseValue(r, s, i, depth).value.1)
    decreases |s| - i, 0
  {
    hide ParseMembers, ParseItems, SkipNumber, ParseString, SkipWs, WellFormedElement, WellFormedMember,
         Values, Inserted, PrintElements, PrintMembers;
    var (v, j) := ParseValue(r, s, i, depth).value;
    if s[i] == 0x5B {
      var elements := ElementsWritten(r, s, i + 1, depth - 1, []);
      assert [] + Values(r, elements) == Values(r, elements);
      x := ArrayOf(elements);
      assert s[i..j] == [0x5B] + PrintElements(elements) + [0x5D];
    } else {
      NoMembers(r);
      var members := MembersWritten(r, s, i + 1, depth - 1, [], []);
      assert [] + members == members;
      x := ObjectOf(members);
      assert s[i..j] == [0x7B] + PrintMembers(members) + [0x7D];
    }
  }

  lemma {:induction false} NoMembers(r: Reading)
    ensures Inserted(r, []) == []
  {
  }

  /** One element, from the white space in front of it to the punctuation behind it. */
  lemma {:induction false} ElementWritten(r: Reading, s: seq<Byte>, p: nat, depth: nat) returns (e: Element)
    requires p <= |s| && ParseValue(r, s, SkipWs(s, p), depth).Some?
    ensures var (value, k) := ParseValue(r, s, SkipWs(s, p), depth).value;
            && WellFormedElement(r, e, depth) && Meaning(r, e.value) == value
            && p < SkipWs(s, k) <= |s| && s[p..SkipWs(s, k)] == PrintElement(e)
    decreases |s| - p, 2
  {
    hide ParseValue, SkipWs, WellFormed, Meaning, Print, IsSpace;
    var at := SkipWs(s, p);
    var k := ParseValue(r, s, at, depth).value.1;
    var next := SkipWs(s, k);
    var x := ValueWritten(r, s, at, depth);
    SkippedIsSpace(s, p);
    SkippedIsSpace(s, k);
    e := Element(s[p..at], x, s[k..next]);
    assert s[p..next] == s[p..at] + s[at..k] + s[k..next];
  }

  lemma {:induction false} ElementsWritten(r: Reading, s: seq<Byte>, p: nat, depth: nat, items: seq<Json>)
    returns (elements: seq<Element>)
    requires p <= |s| && ParseItems(r, s, SkipWs(s, p), depth, items).Some?
    ensures var (v, j) := ParseItems(r, s, SkipWs(s, p), depth, items).value;
            && elements != [] && (forall i :: 0 <= i < |elements| ==> WellFormedElement(r, elements[i], depth))
            && v == Array(items + Values(r, elements))
            && p < j <= |s| && s[p..j - 1] == PrintElements(elements) && s[j - 1] == 0x5D
    decreases |s| - p, 3
  {
    hide ParseValue, SkipWs, WellFormedElement, Meaning, PrintElement, Values, PrintElements;
    var at := SkipWs(s, p);
    var (value, k) := ParseValue(r, s, at, depth).value;
    var next := SkipWs(s, k);
    var e := ElementWritten(r, s, p, depth);
    OneElement(r, e);
    if s[next] == 0x5D {
      elements := [e];
      assert items + [value] == items + Values(r, elements);
    } else {
      var rest := ElementsWritten(r, s, next + 1, depth, items + [value]);
      elements := [e] + rest;
      assert elements[1..] == rest;
      ValuesFront(r, elements);
      assert items + [value] + Values(r, rest) == items + Values(r, elements);
      ElementsPrintFront(elements);
      Rejoin(s, p, next, ParseItems(r, s, at, depth, items).value.1 - 1);
    }
  }

  lemma {:induction false} Rejoin(s: seq<Byte>, p: nat, next: nat, end: nat)
    requires p <= next < end <= |s|
    ensures s[p..end] == s[p..next] + [s[next]] + s[next + 1..end]
  {
  }

  lemma {:induction false} OneElement(r: Reading, e: Element)
    ensures PrintElements([e]) == PrintElement(e) && Values(r, [e]) == [Meaning(r, e.value)]
  {
    hide Meaning, Print;
    assert [e][..0] == [];
  }

  lemma {:induction false} ElementsPrintFront(elements: seq<Element>)
    requires |elements| > 1
    ensures PrintElements(elements) == PrintElement(elements[0]) + [0x2C] + PrintElements(elements[1..])
  {
    hide Print;
  }

  lemma {:induction false} MemberWritten(r: Reading, s: seq<Byte>, p: nat, depth: nat) returns (m: Member)
    requires p <= |s| && ParseMember(r, s, SkipWs(s, p), depth).Some?
    ensures var (key, value, k) := ParseMember(r, s, SkipWs(s, p), depth).value;
            var next := SkipWs(s, k);
            && WellFormedMember(r, m, depth) && r.text(m.key) == Some(key) && Meaning(r, m.element.value) == value
            && p < next <= |s| && s[p..next] == PrintMember(m)
    decreases |s| - p, 2
  {
    hide ParseValue, ParseString, SkipWs, WellFormed, Meaning, Print, IsBody, IsSpace;
    var i := SkipWs(s, p);
    var j := ParseString(r, s, i).value.1;
    var colon := SkipWs(s, j);
    var at := SkipWs(s, colon + 1);
    var k := ParseValue(r, s, at, depth).value.1;
    var next := SkipWs(s, k);
    var body := StringWritten(r, s, i);
    var x := ValueWritten(r, s, at, depth);
    SkippedIsSpace(s, p);
    SkippedIsSpace(s, j);
    SkippedIsSpace(s, colon + 1);
    SkippedIsSpace(s, k);
    m := Member(s[p..i], body, s[j..colon], Element(s[colon + 1..at], x, s[k..next]));
    MemberPieces(s, p, i, j, colon, at, k, next, m);
  }

  lemma {:induction false} MemberPieces(s: seq<Byte>, p: nat, i: nat, j: nat, colon: nat, at: nat, k: nat, next: nat, m: Member)
    requires p <= i <= j <= colon < at <= k <= next <= |s| && s[colon] == 0x3A
    requires m.before == s[p..i] && m.colon == s[j..colon] && m.element.before == s[colon + 1..at]
    requires s[i..j] == [0x22] + m.key + [0x22] && s[at..k] == Print(m.element.value) && m.element.after == s[k..next]
    ensures s[p..next] == PrintMember(m)
  {
    hide Print;
    assert s[colon + 1..next] == PrintElement(m.element);
    assert s[p..j] == m.before + [0x22] + m.key + [0x22];
    assert s[p..next] == s[p..j] + s[j..colon] + [0x3A] + s[colon + 1..next];
  }

  lemma {:induction false} MembersWritten(r: Reading, s: seq<Byte>, p: nat, depth: nat, done: seq<Member>, entries: seq<Entry>)
    returns (members: seq<Member>)
    requires p <= |s| && ParseMembers(r, s, SkipWs(s, p), depth, entries).Some? && entries == Inserted(r, done)
    ensures var (v, j) := ParseMembers(r, s, SkipWs(s, p), depth, entries).value;
            && members != [] && (forall i :: 0 <= i < |members| ==> WellFormedMember(r, members[i], depth))
            && v == Object(Inserted(r, done + members))
            && p < j <= |s| && s[p..j - 1] == PrintMembers(members) && s[j - 1] == 0x7D
    decreases |s| - p, 4
  {
    hide ParseMember, SkipWs, WellFormed, WellFormedMember, Meaning, Print, Inserted, PrintMember, PrintMembers;
    var at := SkipWs(s, p);
    var (key, value, k) := ParseMember(r, s, at, depth).value;
    var next := SkipWs(s, k);
    var m := MemberWritten(r, s, p, depth);
    InsertedSnoc(r, done, m);
    OneMember(m);
    if s[next] == 0x7D {
      members := [m];
    } else {
      var rest := MembersWritten(r, s, next + 1, depth, done + [m], Inserted(r, done + [m]));
      members := [m] + rest;
      assert members[1..] == rest && done + [m] + rest == done + members;
      MembersPrintFront(members);
      Rejoin(s, p, next, ParseMembers(r, s, at, depth, entries).value.1 - 1);
    }
  }

  lemma {:induction false} OneMember(m: Member)
    ensures PrintMembers([m]) == PrintMember(m)
  {
    hide PrintMember;
  }

  lemma {:induction false} MembersPrintFront(members: seq<Member>)
    requires |members| > 1
    ensures PrintMembers(members) == PrintMember(members[0]) + [0x2C] + PrintMembers(members[1..])
  {
    hide PrintMember;
  }

  lemma {:induction false} TextWritten(r: Reading, s: seq<Byte>) returns (e: Element)
    requires ParseText(r, s).Some?
    ensures WellFormedElement(r, e, r.depth) && PrintElement(e) == s && Meaning(r, e.value) == ParseText(r, s).value
  {
    hide ParseValue, SkipWs, WellFormed, Meaning, Print;
    var at := SkipWs(s, 0);
    var k := ParseValue(r, s, at, r.depth).value.1;
    var x := ValueWritten(r, s, at, r.depth);
    SkippedIsSpace(s, 0);
    SkippedIsSpace(s, k);
    e := Element(s[0..at], x, s[k..|s|]);
    assert s == s[0..at] + s[at..k] + s[k..|s|];
  }

  /** The texts that read as a value are exactly the well-formed ones that mean it. */
  lemma {:induction false} TextsExact(r: Reading, s: seq<Byte>, v: Json)
    ensures ParseText(r, s) == Some(v)
            <==> exists e :: WellFormedElement(r, e, r.depth) && PrintElement(e) == s && Meaning(r, e.value) == v
  {
    hide ParseText, WellFormedElement, PrintElement, Meaning;
    if ParseText(r, s).Some? {
      var e := TextWritten(r, s);
      assert WellFormedElement(r, e, r.depth) && PrintElement(e) == s;
    }
    if e :| WellFormedElement(r, e, r.depth) && PrintElement(e) == s && Meaning(r, e.value) == v {
      TextReads(r, e);
    }
  }
}
