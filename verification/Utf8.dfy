/** UTF-8 (RFC 3629, section 3): encoding of text and strict decoding of bytes. */
module Utf8 {
  import opened Wrappers

  type Byte = x: int | 0 <= x < 256

  /** The bits of a character in groups of six, lowest group last. */
  function EncodeChar(c: char): (b: seq<Byte>)
    ensures 1 <= |b| <= 4
  {
    var n := c as int;
    var n1 := n / 64;
    var n2 := n1 / 64;
    var n3 := n2 / 64;
    if n < 0x80 then [n]
    else if n < 0x800 then [0xC0 + n1, 0x80 + n % 64]
    else if n < 0x10000 then [0xE0 + n2, 0x80 + n1 % 64, 0x80 + n % 64]
    else [0xF0 + n3, 0x80 + n2 % 64, 0x80 + n1 % 64, 0x80 + n % 64]
  }

  function Encode(s: string): seq<Byte> {
    if s == "" then [] else EncodeChar(s[0]) + Encode(s[1..])
  }

  predicate IsContinuation(b: Byte) { 0x80 <= b < 0xC0 }

  /** The first character and its width; rejects overlong forms, surrogates, values above
      U+10FFFF, stray and missing continuation bytes. */
  function DecodeChar(b: seq<Byte>): (r: Option<(char, nat)>)
    ensures r.Some? ==> 1 <= r.value.1 <= |b|
  {
    if b == [] then None
    else
      var b0: int := b[0];
      if b0 < 0x80 then Some((b0 as char, 1))
      else if |b| < 2 || !IsContinuation(b[1]) then None
      else
        var b1: int := b[1] - 0x80;
        if 0xC2 <= b0 < 0xE0 then Some((((b0 - 0xC0) * 64 + b1) as char, 2))
        else if |b| < 3 || !IsContinuation(b[2]) then None
        else
          var b2: int := b[2] - 0x80;
          if 0xE0 <= b0 < 0xF0 then
            var n := ((b0 - 0xE0) * 64 + b1) * 64 + b2;
            if 0x800 <= n < 0xD800 || 0xE000 <= n then Some((n as char, 3)) else None
          else if |b| < 4 || !IsContinuation(b[3]) then None
          else
            var b3: int := b[3] - 0x80;
            var n := (((b0 - 0xF0) * 64 + b1) * 64 + b2) * 64 + b3;
            if 0xF0 <= b0 && 0x10000 <= n < 0x110000 then Some((n as char, 4)) else None
  }

  function Decode(b: seq<Byte>): Option<string> {
    if b == [] then Some("")
    else
      var (c, width) :- DecodeChar(b);
      var rest :- Decode(b[width..]);
      Some([c] + rest)
  }

  lemma {:induction false} Groups(n: int, high: int, low: int)
    requires 0 <= low < 64
    requires n == high * 64 + low
    ensures n / 64 == high && n % 64 == low
  {
  }

  lemma {:induction false} DecodeEncodedChar(c: char, rest: seq<Byte>)
    ensures DecodeChar(EncodeChar(c) + rest) == Some((c, |EncodeChar(c)|))
  {
    var e := EncodeChar(c);
    var b := e + rest;
    assert b[0] == e[0];
    assert |e| >= 2 ==> b[1] == e[1];
    assert |e| >= 3 ==> b[2] == e[2];
    assert |e| >= 4 ==> b[3] == e[3];
  }

  lemma {:induction false} Recode1(b0: Byte)
    ensures b0 < 0x80 ==> EncodeChar(b0 as char) == [b0]
  {
  }

  lemma {:induction false} Recode2(b0: Byte, b1: Byte)
    requires 0xC2 <= b0 < 0xE0 && IsContinuation(b1)
    ensures EncodeChar(((b0 - 0xC0) * 64 + (b1 - 0x80)) as char) == [b0, b1]
  {
    Groups((b0 - 0xC0) * 64 + (b1 - 0x80), b0 - 0xC0, b1 - 0x80);
  }

  lemma {:induction false} Recode3(b0: Byte, b1: Byte, b2: Byte)
    requires 0xE0 <= b0 < 0xF0 && IsContinuation(b1) && IsContinuation(b2)
    ensures var n := ((b0 - 0xE0) * 64 + (b1 - 0x80)) * 64 + (b2 - 0x80);
            0x800 <= n < 0xD800 || 0xE000 <= n ==> n < 0x10000 && EncodeChar(n as char) == [b0, b1, b2]
  {
    var n1 := (b0 - 0xE0) * 64 + (b1 - 0x80);
    Groups(n1, b0 - 0xE0, b1 - 0x80);
    Groups(n1 * 64 + (b2 - 0x80), n1, b2 - 0x80);
  }

  lemma {:induction false} Recode4(b0: Byte, b1: Byte, b2: Byte, b3: Byte)
    requires 0xF0 <= b0 && IsContinuation(b1) && IsContinuation(b2) && IsContinuation(b3)
    ensures var n := (((b0 - 0xF0) * 64 + (b1 - 0x80)) * 64 + (b2 - 0x80)) * 64 + (b3 - 0x80);
            0x10000 <= n < 0x110000 ==> EncodeChar(n as char) == [b0, b1, b2, b3]
  {
    var n2 := (b0 - 0xF0) * 64 + (b1 - 0x80);
    var n1 := n2 * 64 + (b2 - 0x80);
    Groups(n2, b0 - 0xF0, b1 - 0x80);
    Groups(n1, n2, b2 - 0x80);
    Groups(n1 * 64 + (b3 - 0x80), n1, b3 - 0x80);
  }

  lemma {:induction false} EncodeDecodedChar(b: seq<Byte>)
    requires DecodeChar(b).Some?
    ensures var (c, width) := DecodeChar(b).value; b[..width] == EncodeChar(c)
  {
    hide EncodeChar;
    var width := DecodeChar(b).value.1;
    if width == 1 {
      Recode1(b[0]);
      assert b[..1] == [b[0]];
    } else if width == 2 {
      Recode2(b[0], b[1]);
      assert b[..2] == [b[0], b[1]];
    } else if width == 3 {
      Recode3(b[0], b[1], b[2]);
      assert b[..3] == [b[0], b[1], b[2]];
    } else {
      Recode4(b[0], b[1], b[2], b[3]);
      assert b[..4] == [b[0], b[1], b[2], b[3]];
    }
  }

  lemma {:induction false} DecodeEncoded(s: string)
    ensures Decode(Encode(s)) == Some(s)
  {
    if s == "" {
    } else {
      hide EncodeChar, DecodeChar;
      DecodeEncoded(s[1..]);
      DecodeEncodedChar(s[0], Encode(s[1..]));
      assert Encode(s)[|EncodeChar(s[0])|..] == Encode(s[1..]);
      assert [s[0]] + s[1..] == s;
    }
  }

  lemma {:induction false} EncodeCons(c: char, rest: string)
    ensures Encode([c] + rest) == EncodeChar(c) + Encode(rest)
  {
    hide EncodeChar;
    assert ([c] + rest)[1..] == rest;
  }

  lemma {:induction false} DecodeCons(b: seq<Byte>)
    requires b != [] && Decode(b).Some?
    ensures DecodeChar(b).Some?
    ensures var (c, width) := DecodeChar(b).value;
            Decode(b[width..]).Some? && Decode(b).value == [c] + Decode(b[width..]).value
  {
    hide DecodeChar;
  }

  lemma {:induction false} Recombine(b: seq<Byte>, c: char, width: nat, rest: string)
    requires DecodeChar(b) == Some((c, width)) && Encode(rest) == b[width..]
    ensures Encode([c] + rest) == b
  {
    hide EncodeChar, DecodeChar, Encode;
    EncodeDecodedChar(b);
    EncodeCons(c, rest);
    assert b == b[..width] + b[width..];
  }

  lemma {:induction false} EncodeDecoded(b: seq<Byte>)
    requires Decode(b).Some?
    ensures Encode(Decode(b).value) == b
  {
    if b == [] {
    } else {
      DecodeCons(b);
      hide DecodeChar;
      var (c, width) := DecodeChar(b).value;
      EncodeDecoded(b[width..]);
      Recombine(b, c, width, Decode(b[width..]).value);
    }
  }

  /** The ranges and the bits of RFC 3629, section 3. */
  lemma {:induction false} CharBytes(c: char)
    ensures var n, b := c as int, EncodeChar(c);
            && (n <= 0x7F ==> b == [n])
            && (0x80 <= n <= 0x7FF ==>
                  |b| == 2 && 0xC2 <= b[0] <= 0xDF && IsTail(b[1]) && n == Bits(b[0], 0xC0) * 0x40 + Bits(b[1], 0x80))
            && (0x800 <= n <= 0xFFFF ==>
                  |b| == 3 && 0xE0 <= b[0] <= 0xEF && IsTail(b[1]) && IsTail(b[2])
                  && n == Bits(b[0], 0xE0) * 0x1000 + Bits(b[1], 0x80) * 0x40 + Bits(b[2], 0x80))
            && (0x10000 <= n <= 0x10FFFF ==>
                  |b| == 4 && 0xF0 <= b[0] <= 0xF4 && IsTail(b[1]) && IsTail(b[2]) && IsTail(b[3])
                  && n == Bits(b[0], 0xF0) * 0x40000 + Bits(b[1], 0x80) * 0x1000 + Bits(b[2], 0x80) * 0x40 + Bits(b[3], 0x80))
  {
  }

  /** A byte without its marker. */
  function Bits(b: Byte, marker: int): int { b - marker }

  ghost predicate IsTail(b: Byte) { 0x80 <= b <= 0xBF }

  /** The decoder accepts exactly the encodings of text, each as that text. */
  lemma {:induction false} DecodesExactly(b: seq<Byte>, s: string)
    ensures Decode(b) == Some(s) <==> b == Encode(s)
  {
    DecodeEncoded(s);
    if Decode(b).Some? {
      EncodeDecoded(b);
    }
  }
}
