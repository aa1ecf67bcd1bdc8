/** Padded base64url (RFC 4648, section 5): the encoder, and a decoder that like `URL_SAFE` insists
    on canonical padding and zero trailing bits. */
module Base64Url {
  import opened Utf8
  import opened Wrappers

  type Sextet = x: int | 0 <= x < 64

  function Symbol(v: Sextet): char {
    if v < 26 then 'A' + v as char
    else if v < 52 then 'a' + (v - 26) as char
    else if v < 62 then '0' + (v - 52) as char
    else if v == 62 then '-'
    else '_'
  }

  function SymbolValue(c: char): (r: Option<Sextet>) {
    if 'A' <= c <= 'Z' then Some((c - 'A') as int)
    else if 'a' <= c <= 'z' then Some((c - 'a') as int + 26)
    else if '0' <= c <= '9' then Some((c - '0') as int + 52)
    else if c == '-' then Some(62)
    else if c == '_' then Some(63)
    else None
  }

  lemma {:induction false} SymbolExact(c: char, v: Sextet)
    ensures SymbolValue(c) == Some(v) <==> c == Symbol(v)
    ensures Symbol(v) != '='
  {
  }

  function Encode3(a: Byte, b: Byte, c: Byte): string {
    [Symbol(a / 4), Symbol(a % 4 * 16 + b / 16), Symbol(b % 16 * 4 + c / 64), Symbol(c % 64)]
  }

  function Encode2(a: Byte, b: Byte): string {
    [Symbol(a / 4), Symbol(a % 4 * 16 + b / 16), Symbol(b % 16 * 4), '=']
  }

  function Encode1(a: Byte): string {
    [Symbol(a / 4), Symbol(a % 4 * 16), '=', '=']
  }

  function Encode(b: seq<Byte>): string {
    if b == [] then ""
    else if |b| == 1 then Encode1(b[0])
    else if |b| == 2 then Encode2(b[0], b[1])
    else Encode3(b[0], b[1], b[2]) + Encode(b[3..])
  }

  lemma {:induction false} Uppers(v: nat)
    requires v < 26
    ensures 'A' + v as char == "ABCDEFGHIJKLMNOPQRSTUVWXYZ"[v]
  {
  }

  lemma {:induction false} Lowers(v: nat)
    requires v < 26
    ensures 'a' + v as char == "abcdefghijklmnopqrstuvwxyz"[v]
  {
  }

  lemma {:induction false} Numerals(v: nat)
    requires v < 10
    ensures '0' + v as char == "0123456789"[v]
  {
  }

  /** The alphabet of RFC 4648, table 2. */
  lemma {:induction false} AlphabetExact(v: Sextet)
    ensures Symbol(v)
            == ("ABCDEFGHIJKLMNOPQRSTUVWXYZ" + "abcdefghijklmnopqrstuvwxyz" + "0123456789" + "-_")[v]
  {
    if v < 26 {
      Uppers(v);
    } else if v < 52 {
      Lowers(v - 26);
    } else if v < 62 {
      Numerals(v - 52);
    }
  }

  /** Three bytes are 24 bits, most significant first, written six at a time; one and two bytes are filled up
      with zero bits, and with an equals sign for each group that holds nothing else. */
  lemma {:induction false} GroupsExact(a: Byte, b: Byte, c: Byte, rest: seq<Byte>)
    ensures var n := a * 65536 + b * 256 + c;
            Encode([a, b, c] + rest)
            == [Symbol(n / 262144), Symbol(n / 4096 % 64), Symbol(n / 64 % 64), Symbol(n % 64)] + Encode(rest)
    ensures var n := a * 65536 + b * 256;
            Encode([a, b]) == [Symbol(n / 262144), Symbol(n / 4096 % 64), Symbol(n / 64 % 64), '=']
    ensures Encode([a]) == [Symbol(a * 65536 / 262144), Symbol(a * 65536 / 4096 % 64), '=', '=']
    ensures Encode([]) == ""
  {
    hide Symbol;
    assert ([a, b, c] + rest)[3..] == rest;
    Bits(a, b, c);
    Bits(a, b, 0);
    Bits(a, 0, 0);
  }

  lemma {:induction false} Bits(a: Byte, b: Byte, c: Byte)
    ensures var n := a * 65536 + b * 256 + c;
            && n / 262144 == a / 4
            && n / 4096 % 64 == a % 4 * 16 + b / 16
            && n / 64 % 64 == b % 16 * 4 + c / 64
            && n % 64 == c % 64
  {
    var n: int := a * 65536 + b * 256 + c;
    var m: int := a * 1024 + b * 4 + c / 64;
    var k: int := a * 16 + b / 16;
    Groups(n, m, c % 64);
    Groups(m, k, b % 16 * 4 + c / 64);
    Groups(k, a / 4, a % 4 * 16 + b / 16);
    assert n / 4096 == n / 64 / 64 && n / 262144 == n / 4096 / 64;
  }

  /** Four symbols, three bytes. */
  function DecodeFull(q: string): (r: Option<seq<Byte>>)
    requires |q| == 4
    ensures r.Some? ==> |r.value| == 3
  {
    var v0 :- SymbolValue(q[0]);
    var v1 :- SymbolValue(q[1]);
    var v2 :- SymbolValue(q[2]);
    var v3 :- SymbolValue(q[3]);
    Some([v0 * 4 + v1 / 16, v1 % 16 * 16 + v2 / 4, v2 % 4 * 64 + v3])
  }

  /** The last four symbols, which may end in padding. */
  function DecodeLast(q: string): (r: Option<seq<Byte>>)
    requires |q| == 4
    ensures r.Some? ==> 1 <= |r.value| <= 3
    ensures r.Some? && q[3] == '=' ==> |r.value| < 3
  {
    if q[3] != '=' then DecodeFull(q)
    else
      var v0 :- SymbolValue(q[0]);
      var v1 :- SymbolValue(q[1]);
      if q[2] == '=' then
        if v1 % 16 == 0 then Some([v0 * 4 + v1 / 16]) else None
      else
        var v2 :- SymbolValue(q[2]);
        if v2 % 4 == 0 then Some([v0 * 4 + v1 / 16, v1 % 16 * 16 + v2 / 4]) else None
  }

  function Decode(s: string): Option<seq<Byte>> {
    if s == "" then Some([])
    else if |s| < 4 then None
    else if |s| == 4 then DecodeLast(s)
    else
      var head :- DecodeFull(s[..4]);
      var rest :- Decode(s[4..]);
      Some(head + rest)
  }

  lemma {:induction false} FullBits(v0: Sextet, v1: Sextet, v2: Sextet, v3: Sextet, a: Byte, b: Byte, c: Byte)
    ensures v0 * 4 + v1 / 16 == a && v1 % 16 * 16 + v2 / 4 == b && v2 % 4 * 64 + v3 == c
            <==> v0 == a / 4 && v1 == a % 4 * 16 + b / 16 && v2 == b % 16 * 4 + c / 64 && v3 == c % 64
  {
    if v0 * 4 + v1 / 16 == a && v1 % 16 * 16 + v2 / 4 == b && v2 % 4 * 64 + v3 == c {
      assert v0 == a / 4 && v1 / 16 == a % 4;
      assert v1 % 16 == b / 16 && v2 / 4 == b % 16;
      assert v2 % 4 == c / 64 && v3 == c % 64;
    }
    if v0 == a / 4 && v1 == a % 4 * 16 + b / 16 && v2 == b % 16 * 4 + c / 64 && v3 == c % 64 {
      assert v1 / 16 == a % 4 && v1 % 16 == b / 16;
      assert v2 / 4 == b % 16 && v2 % 4 == c / 64;
    }
  }

  lemma {:induction false} FullExact(q: string, a: Byte, b: Byte, c: Byte)
    requires |q| == 4
    ensures DecodeFull(q) == Some([a, b, c]) <==> q == Encode3(a, b, c)
  {
    hide Symbol, SymbolValue;
    var v0, v1, v2, v3 := a / 4, a % 4 * 16 + b / 16, b % 16 * 4 + c / 64, c % 64;
    SymbolExact(q[0], v0);
    SymbolExact(q[1], v1);
    SymbolExact(q[2], v2);
    SymbolExact(q[3], v3);
    FullBits(v0, v1, v2, v3, a, b, c);
    if DecodeFull(q).Some? {
      FullBits(SymbolValue(q[0]).value, SymbolValue(q[1]).value, SymbolValue(q[2]).value, SymbolValue(q[3]).value, a, b, c);
    }
  }

  lemma {:induction false} Last1Exact(q: string, a: Byte)
    requires |q| == 4
    ensures DecodeLast(q) == Some([a]) <==> q == Encode1(a)
  {
    hide Symbol, SymbolValue;
    SymbolExact(q[0], a / 4);
    SymbolExact(q[1], a % 4 * 16);
  }

  lemma {:induction false} Last2Exact(q: string, a: Byte, b: Byte)
    requires |q| == 4
    ensures DecodeLast(q) == Some([a, b]) <==> q == Encode2(a, b)
  {
    hide Symbol, SymbolValue;
    SymbolExact(q[0], a / 4);
    SymbolExact(q[1], a % 4 * 16 + b / 16);
    SymbolExact(q[2], b % 16 * 4);
  }

  lemma {:induction false} Last3Exact(q: string, a: Byte, b: Byte, c: Byte)
    requires |q| == 4
    ensures DecodeLast(q) == Some([a, b, c]) <==> q == Encode3(a, b, c)
  {
    hide Symbol, SymbolValue, DecodeFull;
    FullExact(q, a, b, c);
    SymbolExact(q[3], c % 64);
  }

  lemma {:induction false} LastExact(q: string, bytes: seq<Byte>)
    requires |q| == 4
    ensures DecodeLast(q) == Some(bytes) <==> 1 <= |bytes| <= 3 && q == Encode(bytes)
  {
    hide Encode1, Encode2, Encode3, DecodeLast;
    if |bytes| == 1 {
      assert bytes == [bytes[0]];
      Last1Exact(q, bytes[0]);
    } else if |bytes| == 2 {
      assert bytes == [bytes[0], bytes[1]];
      Last2Exact(q, bytes[0], bytes[1]);
    } else if |bytes| == 3 {
      assert bytes == [bytes[0], bytes[1], bytes[2]];
      Last3Exact(q, bytes[0], bytes[1], bytes[2]);
      assert Encode(bytes[3..]) == "";
      assert Encode(bytes) == Encode3(bytes[0], bytes[1], bytes[2]) + "";
    }
  }

  /** The decoder accepts exactly the encoder's output, so no two texts decode alike. */
  lemma {:induction false} DecodesExactly(s: string, bytes: seq<Byte>)
    ensures Decode(s) == Some(bytes) <==> s == Encode(bytes)
    decreases |s|
  {
    hide Encode3, Encode2, Encode1, DecodeFull, DecodeLast;
    EncodedLength(bytes);
    if |s| == 4 {
      LastExact(s, bytes);
    } else if |s| > 4 {
      if |bytes| >= 3 {
        var head, rest := bytes[..3], bytes[3..];
        FullExact(s[..4], bytes[0], bytes[1], bytes[2]);
        DecodesExactly(s[4..], rest);
        assert head == [bytes[0], bytes[1], bytes[2]];
        assert bytes == head + rest && s == s[..4] + s[4..];
        if Decode(s) == Some(bytes) {
          assert DecodeFull(s[..4]).value == bytes[..3];
        }
      }
    }
  }

  lemma {:induction false} EncodedLength(bytes: seq<Byte>)
    ensures bytes != [] ==> |Encode(bytes)| >= 4
    ensures |Encode(bytes)| == 4 <==> 1 <= |bytes| <= 3
    ensures |bytes| >= 3 ==> |Encode(bytes)| == 4 + |Encode(bytes[3..])| && Encode(bytes)[4..] == Encode(bytes[3..])
                             && Encode(bytes)[..4] == Encode3(bytes[0], bytes[1], bytes[2])
  {
    hide Symbol;
  }
}
