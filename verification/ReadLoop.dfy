/** The loop that reads a `getinfo` response from a socket until what it has read parses. */
module ReadLoop {
  import opened JsonSyntax
  import opened JsonText
  import opened JsonValues
  import opened Utf8
  import opened Wrappers

  /** What one read of the socket delivers; no bytes means the peer has closed it. */
  datatype Event = Data(bytes: seq<Byte>) | IoError

  datatype ReadError = Closed | Io

  const TMP_LEN := 1024

  /** No chunk is longer than `limit`. */
  ghost predicate Within(events: seq<Event>, limit: nat) {
    forall i :: 0 <= i < |events| && events[i].Data? ==> |events[i].bytes| <= limit
  }

  ghost predicate FitsBuffer(events: seq<Event>) { Within(events, TMP_LEN) }

  class UnixStream {
    var pending: seq<Event>

    constructor (events: seq<Event>)
      ensures pending == events
    {
      pending := events;
    }

    /** Fills the front of `tmp` and returns how much. */
    method Read(tmp: array<Byte>) returns (r: Result<nat, ReadError>)
      requires tmp.Length == TMP_LEN && FitsBuffer(pending)
      modifies this, tmp
      ensures pending == if old(pending) == [] then [] else old(pending)[1..]
      ensures r.Err? <==> old(pending) != [] && old(pending)[0].IoError?
      ensures r.Err? ==> r.error == Io
      ensures r.Ok? ==> r.value <= TMP_LEN
      ensures r.Ok? ==> tmp[..r.value] == if old(pending) == [] then [] else old(pending)[0].bytes
    {
      if pending == [] {
        return Ok(0);
      }
      var event := pending[0];
      pending := pending[1..];
      if event.IoError? {
        return Err(Io);
      }
      var n := |event.bytes|;
      for i := 0 to n
        invariant tmp[..i] == event.bytes[..i]
        invariant pending == old(pending)[1..]
      {
        tmp[i] := event.bytes[i];
      }
      assert event.bytes[..n] == event.bytes;
      return Ok(n);
    }
  }

  /** The specification of the loop, from the bytes read so far. */
  function ReadFrom(r: Reading, buf: seq<Byte>, events: seq<Event>): Result<Json, ReadError>
    decreases |events|
  {
    if events == [] then Err(Closed)
    else if events[0].IoError? then Err(Io)
    else if events[0].bytes == [] then Err(Closed)
    else
      var longer := buf + events[0].bytes;
      match ParseText(r, longer)
      case Some(value) => Ok(value)
      case None => ReadFrom(r, longer, events[1..])
  }

  method ReadResponse(r: Reading, stream: UnixStream) returns (response: Result<Json, ReadError>)
    requires FitsBuffer(stream.pending)
    modifies stream
    ensures response == ReadFrom(r, [], old(stream.pending))
    ensures forall e ::
              (WellFormedElement(r, e, r.depth) && !e.value.Digits?
               && Concat(Chunks(old(stream.pending))) == PrintElement(e)) ==>
                response == Ok(Meaning(r, e.value))
  {
    hide ParseText, WellFormedElement, PrintElement, Meaning;
    forall e | WellFormedElement(r, e, r.depth) && !e.value.Digits? && Concat(Chunks(stream.pending)) == PrintElement(e)
      ensures ReadFrom(r, [], stream.pending) == Ok(Meaning(r, e.value))
    {
      WrittenTextReturned(r, e, stream.pending);
    }
    var buf: seq<Byte> := [];
    var tmp := new Byte[TMP_LEN](_ => 0);
    while true
      invariant fresh(tmp) && tmp.Length == TMP_LEN
      invariant FitsBuffer(stream.pending)
      invariant ReadFrom(r, buf, stream.pending) == ReadFrom(r, [], old(stream.pending))
      decreases |stream.pending|
    {
      ghost var before := stream.pending;
      var n :- stream.Read(tmp);
      if n == 0 {
        return Err(Closed);
      }
      assert before != [] && tmp[..n] == before[0].bytes;
      buf := buf + tmp[..n];
      var parsed := ParseText(r, buf);
      if parsed.Some? {
        return Ok(parsed.value);
      }
    }
  }

  // ----- chunking

  /** The chunks that arrive before the socket closes or fails. */
  function Chunks(events: seq<Event>): seq<seq<Byte>> {
    if events == [] || events[0].IoError? || events[0].bytes == [] then []
    else [events[0].bytes] + Chunks(events[1..])
  }

  function Concat(chunks: seq<seq<Byte>>): seq<Byte> {
    if chunks == [] then [] else chunks[0] + Concat(chunks[1..])
  }

  /** After `k` chunks, on top of `n` bytes, the value is complete and only white space follows it. */
  ghost predicate GoodBoundary(d: seq<Byte>, end: nat, n: nat, chunks: seq<seq<Byte>>, k: nat) {
    1 <= k <= |chunks|
    && var m := n + |Concat(chunks[..k])|;
       end <= m <= |d| && AllWs(d, end, m)
  }

  lemma {:induction false} LoopFrom(r: Reading, d: seq<Byte>, v: Json, end: nat, n: nat, events: seq<Event>)
    requires StartsWith(r, d, v, end) && !v.Number?
    requires n <= |d| && d[n..] == Concat(Chunks(events))
    ensures var result := ReadFrom(r, d[..n], events);
            && (result.Ok? ==> result.value == v)
            && (result.Ok? <==> exists k :: GoodBoundary(d, end, n, Chunks(events), k))
    decreases |events|
  {
    var chunks := Chunks(events);
    if chunks == [] {
    } else {
      var c := chunks[0];
      var m := n + |c|;
      assert d[n..] == c + Concat(chunks[1..]);
      assert m <= |d| && d[m..] == d[n..][|c|..] == Concat(chunks[1..]);
      assert d[..m] == d[..n] + d[n..m] && d[n..m] == d[n..][..|c|] == c;
      PrefixesThatParse(r, d, v, end, m);
      assert chunks[..1] == [c] && Concat([c]) == c + Concat([]);
      if end <= m && AllWs(d, end, m) {
        assert GoodBoundary(d, end, n, chunks, 1);
      } else {
        LoopFrom(r, d, v, end, m, events[1..]);
        forall k: nat | 1 <= k <= |chunks|
          ensures GoodBoundary(d, end, n, chunks, k) <==> k >= 2 && GoodBoundary(d, end, m, chunks[1..], k - 1)
        {
          assert chunks[..k][1..] == chunks[1..][..k - 1];
        }
        if k: nat :| GoodBoundary(d, end, m, chunks[1..], k) {
          assert GoodBoundary(d, end, n, chunks, k + 1);
        }
        if k: nat :| GoodBoundary(d, end, n, chunks, k) {
          assert GoodBoundary(d, end, m, chunks[1..], k - 1);
        }
      }
    }
  }

  /** For a response that is anything but a bare number, the loop can only return the value the stream
      starts with, and returns it exactly when some read ends after the value with nothing but white
      space behind it. */
  lemma {:induction false} LoopExact(r: Reading, events: seq<Event>, v: Json, end: nat)
    requires StartsWith(r, Concat(Chunks(events)), v, end) && !v.Number?
    ensures var result := ReadFrom(r, [], events);
            && (result.Ok? ==> result.value == v)
            && (result.Ok? <==> exists k :: GoodBoundary(Concat(Chunks(events)), end, 0, Chunks(events), k))
  {
    var d := Concat(Chunks(events));
    assert d[0..] == d && d[..0] == [];
    LoopFrom(r, d, v, end, 0, events);
  }

  /** Chunking does not matter: however an object text and white space are cut into reads, the loop
      returns that object. */
  lemma {:induction false} ChunkingIrrelevant(r: Reading, text: seq<Byte>, v: Json, events: seq<Event>)
    requires ParseText(r, text) == Some(v) && !v.Number?
    requires Concat(Chunks(events)) == text
    ensures ReadFrom(r, [], events) == Ok(v)
  {
    hide ParseValue;
    var end := ParseValue(r, text, SkipWs(text, 0), r.depth).value.1;
    var chunks := Chunks(events);
    SkipAllWs(text, end);
    LoopExact(r, events, v, end);
    assert chunks[..|chunks|] == chunks;
    assert GoodBoundary(text, end, 0, chunks, |chunks|);
  }

  /** However a written text is cut into reads, the loop returns what it means. */
  lemma {:induction false} WrittenTextReturned(r: Reading, e: Element, events: seq<Event>)
    requires WellFormedElement(r, e, r.depth) && !e.value.Digits?
    requires Concat(Chunks(events)) == PrintElement(e)
    ensures ReadFrom(r, [], events) == Ok(Meaning(r, e.value))
  {
    hide ParseText, WellFormed, Print, ReadFrom, Concat;
    TextReads(r, e);
    assert !Meaning(r, e.value).Number?;
    ChunkingIrrelevant(r, PrintElement(e), Meaning(r, e.value), events);
  }

  /** What the loop returns is what some beginning of the stream means, so never something unwritten. */
  lemma {:induction false} ReturnedIsWritten(r: Reading, buf: seq<Byte>, events: seq<Event>) returns (e: Element, k: nat)
    requires ReadFrom(r, buf, events).Ok?
    ensures WellFormedElement(r, e, r.depth) && ReadFrom(r, buf, events) == Ok(Meaning(r, e.value))
    ensures k <= |Chunks(events)| && PrintElement(e) == buf + Concat(Chunks(events)[..k])
    decreases |events|
  {
    hide ParseText, WellFormed, Print, Meaning;
    var chunks := Chunks(events);
    var longer := buf + events[0].bytes;
    assert chunks[..1] == [events[0].bytes] && Concat(chunks[..1]) == events[0].bytes + [];
    if ParseText(r, longer).Some? {
      e := TextWritten(r, longer);
      k := 1;
      assert buf + Concat(chunks[..1]) == longer;
    } else {
      var n: nat;
      e, n := ReturnedIsWritten(r, longer, events[1..]);
      k := n + 1;
      assert chunks[..k][1..] == chunks[1..][..n];
      assert buf + Concat(chunks[..k]) == longer + Concat(chunks[1..][..n]);
    }
  }

  /** The error is a failed read exactly when the stream fails rather than ends. */
  lemma {:induction false} ErrorExact(r: Reading, buf: seq<Byte>, events: seq<Event>)
    requires ReadFrom(r, buf, events).Err?
    ensures var n := |Chunks(events)|;
            ReadFrom(r, buf, events) == Err(if n < |events| && events[n].IoError? then Io else Closed)
    decreases |events|
  {
    hide ParseText;
    if Chunks(events) != [] {
      ErrorExact(r, buf + events[0].bytes, events[1..]);
    }
  }

  /** The loop never stops inside the value: a stream that ends before the closing brace is an error. */
  lemma {:induction false} TruncatedStreamFails(r: Reading, text: seq<Byte>, v: Json, end: nat, events: seq<Event>)
    requires StartsWith(r, text, v, end) && !v.Number?
    requires Concat(Chunks(events)) <= text && |Concat(Chunks(events))| < end
    ensures ReadFrom(r, [], events).Err?
  {
    hide ParseValue;
    assert text[..0] == [];
    TruncatedFrom(r, text, v, end, 0, events);
  }

  lemma {:induction false} TruncatedFrom(r: Reading, text: seq<Byte>, v: Json, end: nat, n: nat, events: seq<Event>)
    requires StartsWith(r, text, v, end) && !v.Number?
    requires n <= |text| && Concat(Chunks(events)) <= text[n..] && n + |Concat(Chunks(events))| < end
    ensures ReadFrom(r, text[..n], events).Err?
    decreases |events|
  {
    hide ParseValue;
    var chunks := Chunks(events);
    if chunks == [] {
    } else {
      var c := chunks[0];
      var m := n + |c|;
      var rest := Concat(chunks[1..]);
      assert Concat(chunks) == c + rest;
      assert (c + rest)[..|c|] == c && text[n..][..|c|] == c;
      assert text[..m] == text[..n] + c;
      PrefixesThatParse(r, text, v, end, m);
      assert text[n..][|c|..] == text[m..];
      assert rest == (c + rest)[|c|..] <= text[n..][|c|..];
      TruncatedFrom(r, text, v, end, m, events[1..]);
    }
  }

  // ----- any text, numbers included

  /** However the text is cut into reads, at most `limit` bytes each, the loop returns the value. */
  ghost predicate EveryCutReturns(r: Reading, text: seq<Byte>, v: Json, limit: nat) {
    forall events :: Concat(Chunks(events)) == text && Within(events, limit) ==> ReadFrom(r, [], events) == Ok(v)
  }

  /** A prefix that is itself a text of another value. */
  ghost predicate Misleading(r: Reading, text: seq<Byte>, v: Json, n: nat)
    requires n <= |text|
  {
    ParseText(r, text[..n]).Some? && ParseText(r, text[..n]) != Some(v)
  }

  lemma {:induction false} UnmistakableFrom(r: Reading, text: seq<Byte>, v: Json, n: nat, events: seq<Event>)
    requires ParseText(r, text) == Some(v) && n < |text|
    requires forall m: nat :: m <= |text| ==> !Misleading(r, text, v, m)
    requires Concat(Chunks(events)) == text[n..]
    ensures ReadFrom(r, text[..n], events) == Ok(v)
    decreases |events|
  {
    hide ParseText;
    var c := Chunks(events)[0];
    var m := n + |c|;
    assert text[n..] == c + Concat(Chunks(events)[1..]);
    assert text[..m] == text[..n] + c && text[m..] == text[n..][|c|..];
    assert !Misleading(r, text, v, m);
    if m == |text| {
      assert text[..m] == text;
    } else if ParseText(r, text[..m]).None? {
      UnmistakableFrom(r, text, v, m, events[1..]);
    }
  }

  lemma {:induction false} TwoReads(r: Reading, text: seq<Byte>, n: nat)
    requires 0 < n < |text|
    ensures var events := [Data(text[..n]), Data(text[n..])];
            && Concat(Chunks(events)) == text && Within(events, |text|)
            && (ParseText(r, text[..n]).Some? ==> ReadFrom(r, [], events) == Ok(ParseText(r, text[..n]).value))
  {
    hide ParseText;
    var events := [Data(text[..n]), Data(text[n..])];
    assert events[1..] == [Data(text[n..])] && events[1..][1..] == [];
    assert Chunks(events[1..]) == [text[n..]] + Chunks([]);
    assert Chunks(events) == [text[..n], text[n..]];
    assert Chunks(events)[1..] == [text[n..]] && Concat([text[n..]]) == text[n..] + [];
    assert [] + text[..n] == text[..n];
  }

  /** For any text at all that fits in one read: chunking is irrelevant if and only if no prefix of it
      is a text of another value. */
  lemma {:induction false} CutsAgreeExact(r: Reading, text: seq<Byte>, v: Json, limit: nat)
    requires ParseText(r, text) == Some(v) && |text| <= limit
    ensures EveryCutReturns(r, text, v, limit) <==> forall n: nat :: n <= |text| ==> !Misleading(r, text, v, n)
  {
    hide ParseText;
    assert text != [] && ParseText(r, []).None? by {
      EmptyIsNoText(r);
    }
    assert text[..|text|] == text && text[..0] == [] && text[0..] == text;
    if n: nat :| n <= |text| && Misleading(r, text, v, n) {
      TwoReads(r, text, n);
    } else {
      forall events | Concat(Chunks(events)) == text && Within(events, limit)
        ensures ReadFrom(r, [], events) == Ok(v)
      {
        UnmistakableFrom(r, text, v, 0, events);
      }
    }
  }

  lemma {:induction false} EmptyIsNoText(r: Reading)
    ensures ParseText(r, []).None?
  {
  }

  /** The bytes of the number that a text consists of. */
  function NumberBytes(text: seq<Byte>): seq<Byte> {
    var start := SkipWs(text, 0);
    text[start..SkipNumber(text, start)]
  }

  /** How a text reads that starts with a number byte after white space. */
  lemma {:induction false} NumberTextReads(r: Reading, text: seq<Byte>)
    requires var start := SkipWs(text, 0); start < |text| && IsNumberByte(text[start])
    ensures var start := SkipWs(text, 0);
            var end := SkipNumber(text, start);
            ParseText(r, text) ==
              match r.number(text[start..end])
              case Some(l) => if AllWs(text, end, |text|) then Some(Number(l)) else None
              case None => None
  {
    var end := SkipNumber(text, SkipWs(text, 0));
    SkipAllWs(text, end);
  }

  lemma {:induction false} StartsAsNumber(r: Reading, text: seq<Byte>, literal: string)
    requires ParseText(r, text) == Some(Number(literal))
    ensures SkipWs(text, 0) < |text| && IsNumberByte(text[SkipWs(text, 0)])
  {
    ValueEndsNumber(r, text, SkipWs(text, 0), r.depth);
  }

  lemma {:induction false} NumberPrefix(r: Reading, text: seq<Byte>, literal: string, n: nat)
    requires ParseText(r, text) == Some(Number(literal)) && n <= |text|
    ensures var start := SkipWs(text, 0);
            ParseText(r, text[..n]) ==
              if n <= start then None
              else if n < start + |NumberBytes(text)| then
                match r.number(text[start..n]) { case Some(l) => Some(Number(l)) case None => None }
              else Some(Number(literal))
  {
    hide IsNumberByte, SkipWs, SkipNumber;
    var p, start := text[..n], SkipWs(text, 0);
    StartsAsNumber(r, text, literal);
    SkipWsPrefix(text, n, 0);
    if n > start {
      hide ParseText;
      var end := SkipNumber(text, start);
      NumberTextReads(r, text);
      NumberTextReads(r, p);
      SkipNumberPrefix(text, n, start);
      var e := SkipNumber(p, start);
      assert p[start..e] == text[start..e];
    } else {
      assert ParseText(r, p).None?;
    }
  }

  lemma {:induction false} SkipWsPrefix(text: seq<Byte>, n: nat, i: nat)
    requires i <= n <= |text|
    ensures SkipWs(text[..n], i) == if n <= SkipWs(text, i) then n else SkipWs(text, i)
    decreases n - i
  {
    if i < n && IsWs(text[i]) {
      SkipWsPrefix(text, n, i + 1);
    }
  }

  lemma {:induction false} SkipNumberPrefix(text: seq<Byte>, n: nat, i: nat)
    requires i <= n <= |text|
    ensures SkipNumber(text[..n], i) == if n <= SkipNumber(text, i) then n else SkipNumber(text, i)
    decreases n - i
  {
    if i < n && IsNumberByte(text[i]) {
      SkipNumberPrefix(text, n, i + 1);
    }
  }

  /** For a number chunking is irrelevant if and only if no proper prefix of its bytes reads as a
      number of another value. */
  lemma {:induction false} NumberCutsExact(r: Reading, text: seq<Byte>, literal: string, limit: nat)
    requires ParseText(r, text) == Some(Number(literal)) && |text| <= limit
    ensures EveryCutReturns(r, text, Number(literal), limit)
            <==> forall k :: 0 < k < |NumberBytes(text)| ==>
                   r.number(NumberBytes(text)[..k]) in {None, Some(literal)}
  {
    hide ParseText, EveryCutReturns, NumberBytes;
    var v, bytes, start := Number(literal), NumberBytes(text), SkipWs(text, 0);
    CutsAgreeExact(r, text, v, limit);
    forall k | 0 < k < |bytes|
      ensures start + k <= |text|
      ensures Misleading(r, text, v, start + k) <==> r.number(bytes[..k]) !in {None, Some(literal)}
    {
      NumberBytesAt(text, k);
      NumberPrefix(r, text, literal, start + k);
    }
    forall n: nat | n <= |text| && !(start < n < start + |bytes|)
      ensures !Misleading(r, text, v, n)
    {
      NumberPrefix(r, text, literal, n);
    }
    if n: nat :| n <= |text| && Misleading(r, text, v, n) {
      var k := n - start;
      assert r.number(bytes[..k]) !in {None, Some(literal)};
    }
  }

  lemma {:induction false} NumberBytesAt(text: seq<Byte>, k: nat)
    requires k <= |NumberBytes(text)|
    ensures SkipWs(text, 0) + k <= |text| && NumberBytes(text)[..k] == text[SkipWs(text, 0)..SkipWs(text, 0) + k]
  {
  }

  /** Why the response must not be a bare number: the same two bytes, read together or apart, give
      different values. */
  lemma {:induction false} NumbersDependOnChunking(r: Reading)
    requires r.number([0x31]) == Some("1") && r.number([0x31, 0x32]) == Some("12")
    ensures ReadFrom(r, [], [Data([0x31, 0x32])]) == Ok(Number("12"))
    ensures ReadFrom(r, [], [Data([0x31]), Data([0x32])]) == Ok(Number("1"))
  {
    var one: seq<Byte> := [0x31];
    var both: seq<Byte> := [0x31, 0x32];
    assert [] + one == one && [] + both == both;
    assert SkipNumber(one, 0) == 1 && one[0..1] == one;
    assert SkipNumber(both, 1) == 2 && SkipNumber(both, 0) == 2 && both[0..2] == both;
    assert ParseText(r, one) == Some(Number("1"));
    assert ParseText(r, both) == Some(Number("12"));
  }
}
