/** Access to `/metrics`: validation of the configured token at startup and the bearer check of each
    request (RFC 6750, section 2.1). */
module Auth {
  import Utf8
  import opened Wrappers

  // ----- startup

  const MIN_TOKEN_LEN := 16

  /** The Unicode White_Space characters, which `trim` removes. */
  predicate IsWhitespace(c: char) {
    var n := c as int;
    || 0x09 <= n <= 0x0D || n == 0x20 || n == 0x85 || n == 0xA0 || n == 0x1680
    || 0x2000 <= n <= 0x200A || n == 0x2028 || n == 0x2029 || n == 0x202F || n == 0x205F || n == 0x3000
  }

  /** The 25 characters with the property. */
  lemma {:induction false} WhitespaceExact(c: char)
    ensures IsWhitespace(c) <==>
              c in "\t\n\U{000B}\U{000C}\r \U{0085}\U{00A0}\U{1680}"
              || c in "\U{2000}\U{2001}\U{2002}\U{2003}\U{2004}\U{2005}\U{2006}\U{2007}\U{2008}\U{2009}\U{200A}"
              || c in "\U{2028}\U{2029}\U{202F}\U{205F}\U{3000}"
  {
  }

  function TrimStart(s: string): string {
    if s != "" && IsWhitespace(s[0]) then TrimStart(s[1..]) else s
  }

  function TrimEnd(s: string): string {
    if s != "" && IsWhitespace(s[|s| - 1]) then TrimEnd(s[..|s| - 1]) else s
  }

  function Trim(s: string): string { TrimEnd(TrimStart(s)) }

  datatype StartupError = EmptyToken | ShortToken | MissingToken

  function ValidateToken(raw: string): Result<string, StartupError> {
    var token := Trim(raw);
    if token == "" then Err(EmptyToken)
    else if |Utf8.Encode(token)| < MIN_TOKEN_LEN then Err(ShortToken)
    else Ok(token)
  }

  /** The token that guards the endpoint, `None` for no guard; the environment wins over the option
      that disables authentication. */
  function AuthToken(env: Option<string>, disableAuth: bool): Result<Option<string>, StartupError> {
    match env
    case Some(raw) =>
      (var token :- ValidateToken(raw);
       Ok(Some(token)))
    case None => if disableAuth then Ok(None) else Err(MissingToken)
  }

  // ----- the comparison

  /** Bitwise exclusive or and or of unsigned integers. */
  function BitXor(a: nat, b: nat): nat
    decreases a + b
  {
    if a == 0 && b == 0 then 0
    else 2 * BitXor(a / 2, b / 2) + (if a % 2 == b % 2 then 0 else 1)
  }

  function BitOr(a: nat, b: nat): nat
    decreases a + b
  {
    if a == 0 && b == 0 then 0
    else 2 * BitOr(a / 2, b / 2) + (if a % 2 == 1 || b % 2 == 1 then 1 else 0)
  }

  /** The accumulated bit differences of two byte strings. */
  function Differences(acc: nat, provided: seq<Utf8.Byte>, expected: seq<Utf8.Byte>): nat
    requires |provided| == |expected|
    decreases |provided|
  {
    if provided == [] then acc
    else Differences(BitOr(acc, BitXor(provided[0], expected[0])), provided[1..], expected[1..])
  }

  predicate TokensMatch(provided: seq<Utf8.Byte>, expected: seq<Utf8.Byte>) {
    |provided| == |expected| && Differences(0, provided, expected) == 0
  }

  lemma {:induction false} XorIsZero(a: nat, b: nat)
    ensures BitXor(a, b) == 0 <==> a == b
    decreases a + b
  {
    if a == 0 && b == 0 {
    } else {
      XorIsZero(a / 2, b / 2);
    }
  }

  lemma {:induction false} OrIsZero(a: nat, b: nat)
    ensures BitOr(a, b) == 0 <==> a == 0 && b == 0
    decreases a + b
  {
    if a == 0 && b == 0 {
    } else {
      OrIsZero(a / 2, b / 2);
    }
  }

  lemma {:induction false} DifferencesExact(acc: nat, provided: seq<Utf8.Byte>, expected: seq<Utf8.Byte>)
    requires |provided| == |expected|
    ensures Differences(acc, provided, expected) == 0 <==> acc == 0 && provided == expected
    decreases |provided|
  {
    if provided == [] {
    } else {
      var a, b := provided[0], expected[0];
      DifferencesExact(BitOr(acc, BitXor(a, b)), provided[1..], expected[1..]);
      OrIsZero(acc, BitXor(a, b));
      XorIsZero(a, b);
      assert provided == [a] + provided[1..] && expected == [b] + expected[1..];
    }
  }

  /** The constant-time fold accepts exactly equal byte strings. */
  lemma {:induction false} TokensMatchExact(provided: seq<Utf8.Byte>, expected: seq<Utf8.Byte>)
    ensures TokensMatch(provided, expected) <==> provided == expected
  {
    if |provided| == |expected| {
      DifferencesExact(0, provided, expected);
    }
  }

  // ----- a request

  const BEARER := "Bearer "

  /** The bytes a header value may hold to be readable as text. */
  predicate IsVisibleAscii(b: Utf8.Byte) { 32 <= b < 127 || b == 9 }

  function HeaderText(header: seq<Utf8.Byte>): (r: Option<string>)
    ensures r.Some? ==> |r.value| == |header|
  {
    if forall i :: 0 <= i < |header| ==> IsVisibleAscii(header[i]) then
      Some(seq(|header|, i requires 0 <= i < |header| => header[i] as char))
    else None
  }

  predicate IsAuthorized(header: Option<seq<Utf8.Byte>>, token: string) {
    header.Some? &&
    var text := HeaderText(header.value);
    text.Some? &&
    BEARER <= text.value && TokensMatch(Utf8.Encode(text.value[|BEARER|..]), Utf8.Encode(token))
  }

  /** Whether a request to the endpoint is served. */
  predicate IsServed(guard: Option<string>, header: Option<seq<Utf8.Byte>>) {
    guard.None? || IsAuthorized(header, guard.value)
  }

  // ----- exactness

  lemma {:induction false} EncodeInjective(s: string, t: string)
    ensures Utf8.Encode(s) == Utf8.Encode(t) <==> s == t
  {
    Utf8.DecodesExactly(Utf8.Encode(s), s);
    Utf8.DecodesExactly(Utf8.Encode(s), t);
  }

  /** Printable ASCII characters, spaces and tabs. */
  predicate VisibleText(s: string) {
    forall i :: 0 <= i < |s| ==> ' ' <= s[i] <= '~' || s[i] == '\t'
  }

  lemma {:induction false} EncodeAscii(s: string)
    requires forall i :: 0 <= i < |s| ==> (s[i] as int) < 128
    ensures |Utf8.Encode(s)| == |s|
    ensures forall i :: 0 <= i < |s| ==> Utf8.Encode(s)[i] == s[i] as int
  {
    if s == "" {
    } else {
      EncodeAscii(s[1..]);
      assert Utf8.EncodeChar(s[0]) == [s[0] as int];
    }
  }

  lemma {:induction false} HeaderTextExact(header: seq<Utf8.Byte>, s: string)
    ensures HeaderText(header) == Some(s) <==> VisibleText(s) && header == Utf8.Encode(s)
  {
    if VisibleText(s) && header == Utf8.Encode(s) {
      EncodeAscii(s);
      assert HeaderText(header).value == s;
    }
    if HeaderText(header) == Some(s) {
      assert forall i :: 0 <= i < |s| ==> s[i] == header[i] as char;
      EncodeAscii(s);
      assert header == Utf8.Encode(s);
    }
  }

  lemma {:induction false} BearerVisible(token: string)
    ensures VisibleText(BEARER + token) <==> VisibleText(token)
  {
    assert VisibleText(BEARER);
    if VisibleText(BEARER + token) {
      forall i | 0 <= i < |token|
        ensures ' ' <= token[i] <= '~' || token[i] == '\t'
      {
        assert token[i] == (BEARER + token)[|BEARER| + i];
      }
    }
  }

  /** A request is authorised exactly when its header is the bytes of "Bearer " and the token, and the
      token is visible ASCII. */
  lemma {:induction false} AuthorizationExact(header: Option<seq<Utf8.Byte>>, token: string)
    ensures IsAuthorized(header, token)
            <==> VisibleText(token) && header == Some(Utf8.Encode("Bearer " + token))
  {
    hide TokensMatch, HeaderText, VisibleText;
    BearerVisible(token);
    if IsAuthorized(header, token) {
      var text := HeaderText(header.value).value;
      HeaderTextExact(header.value, text);
      TokensMatchExact(Utf8.Encode(text[|BEARER|..]), Utf8.Encode(token));
      EncodeInjective(text[|BEARER|..], token);
      assert text == BEARER + token;
    }
    if VisibleText(token) && header == Some(Utf8.Encode(BEARER + token)) {
      HeaderTextExact(header.value, BEARER + token);
      assert (BEARER + token)[|BEARER|..] == token;
      TokensMatchExact(Utf8.Encode(token), Utf8.Encode(token));
    }
  }

  ghost predicate AllWhitespace(s: string) { forall i :: 0 <= i < |s| ==> IsWhitespace(s[i]) }

  /** `t` is `s` without some white space at its front. */
  ghost predicate StrippedFront(s: string, t: string) {
    |t| <= |s| && s[|s| - |t|..] == t && AllWhitespace(s[..|s| - |t|])
  }

  lemma {:induction false} StrippedFrontCons(s: string, t: string)
    requires s != "" && IsWhitespace(s[0]) && StrippedFront(s[1..], t)
    ensures StrippedFront(s, t)
  {
    hide IsWhitespace;
    var k := |s| - |t|;
    assert s[k..] == s[1..][k - 1..];
    assert forall i :: 1 <= i < k ==> s[..k][i] == s[1..][..k - 1][i - 1];
  }

  lemma {:induction false} TrimStartStrips(s: string)
    ensures TrimStart(s) == "" || !IsWhitespace(TrimStart(s)[0])
    ensures StrippedFront(s, TrimStart(s))
  {
    hide IsWhitespace;
    if s != "" && IsWhitespace(s[0]) {
      hide StrippedFront;
      TrimStartStrips(s[1..]);
      StrippedFrontCons(s, TrimStart(s[1..]));
    }
  }

  lemma {:induction false} TrimEndStrips(s: string)
    ensures TrimEnd(s) == "" || !IsWhitespace(TrimEnd(s)[|TrimEnd(s)| - 1])
    ensures TrimEnd(s) <= s && AllWhitespace(s[|TrimEnd(s)|..])
  {
    hide IsWhitespace;
    if s != "" && IsWhitespace(s[|s| - 1]) {
      var init := s[..|s| - 1];
      TrimEndStrips(init);
      assert s[|TrimEnd(s)|..] == init[|TrimEnd(s)|..] + [s[|s| - 1]];
    }
  }

  /** The token inside white space, with none at its own ends. */
  ghost predicate IsCore(raw: string, before: string, token: string, after: string) {
    && raw == before + token + after
    && AllWhitespace(before) && AllWhitespace(after)
    && (token == "" || (!IsWhitespace(token[0]) && !IsWhitespace(token[|token| - 1])))
  }

  lemma {:induction false} TrimIsCore(raw: string)
    ensures exists before, after :: IsCore(raw, before, Trim(raw), after)
  {
    hide IsWhitespace, TrimStart, TrimEnd;
    var s := TrimStart(raw);
    TrimStartStrips(raw);
    TrimEndStrips(s);
    var token := TrimEnd(s);
    var before, after := raw[..|raw| - |s|], s[|token|..];
    assert s == token + after;
    assert raw == before + token + after;
    assert token == Trim(raw);
    assert IsCore(raw, before, Trim(raw), after);
  }

  /** End to end: with a token in the environment the plugin starts only if the token, stripped of
      surrounding white space, has 16 bytes, and then serves exactly the requests that carry it. If it
      is not visible ASCII the plugin starts but serves nobody. Without a token it serves everybody,
      and only when that was asked for. */
  lemma {:induction false} AccessExact(env: Option<string>, disableAuth: bool, header: Option<seq<Utf8.Byte>>)
    ensures AuthToken(env, disableAuth).Ok?
            <==> if env.Some? then |Utf8.Encode(Trim(env.value))| >= 16 else disableAuth
    ensures AuthToken(env, disableAuth).Ok? ==>
              AuthToken(env, disableAuth).value == if env.Some? then Some(Trim(env.value)) else None
    ensures AuthToken(env, disableAuth).Ok? ==>
              var guard := AuthToken(env, disableAuth).value;
              IsServed(guard, header) <==>
                if env.None? then disableAuth
                else VisibleText(Trim(env.value)) && header == Some(Utf8.Encode("Bearer " + Trim(env.value)))
    ensures env == None && !disableAuth ==> AuthToken(env, disableAuth) == Err(MissingToken)
    ensures env.Some? && Trim(env.value) == "" ==> AuthToken(env, disableAuth) == Err(EmptyToken)
    ensures env.Some? && Trim(env.value) != "" && |Utf8.Encode(Trim(env.value))| < 16 ==>
              AuthToken(env, disableAuth) == Err(ShortToken)
    ensures env.Some? ==> exists before, after :: IsCore(env.value, before, Trim(env.value), after)
  {
    if env.Some? {
      var token := Trim(env.value);
      TrimIsCore(env.value);
      assert Utf8.Encode("") == [];
      AuthorizationExact(header, token);
    }
  }

  lemma {:induction false} EncodeNotShorter(s: string)
    ensures |Utf8.Encode(s)| >= |s|
  {
    if s == "" {
    } else {
      EncodeNotShorter(s[1..]);
    }
  }

  /** How many more bytes than characters a text has in UTF-8. */
  function ExtraBytes(s: string): nat {
    if s == "" then 0
    else
      var n := s[0] as int;
      ExtraBytes(s[1..]) + (if n < 0x80 then 0 else if n < 0x800 then 1 else if n < 0x10000 then 2 else 3)
  }

  lemma {:induction false} EncodedSize(s: string)
    ensures |Utf8.Encode(s)| == |s| + ExtraBytes(s)
    ensures ExtraBytes(s) == 0 <==> forall i :: 0 <= i < |s| ==> (s[i] as int) < 128
  {
    if s == "" {
    } else {
      EncodedSize(s[1..]);
      assert forall i :: 1 <= i < |s| ==> s[i] == s[1..][i - 1];
    }
  }

  /** The minimum is counted in bytes. A token of 16 characters is never too short; a shorter one is
      accepted if and only if its characters beyond ASCII make up for what is missing, so never when
      all are ASCII. */
  lemma {:induction false} MinimumExact(raw: string, disableAuth: bool)
    ensures var token := Trim(raw);
            && (|token| >= 16 ==> AuthToken(Some(raw), disableAuth) == Ok(Some(token)))
            && (|token| < 16 ==>
                  (AuthToken(Some(raw), disableAuth).Ok? <==> 16 - |token| <= ExtraBytes(token)))
            && ((forall i :: 0 <= i < |token| ==> (token[i] as int) < 128) ==>
                  (AuthToken(Some(raw), disableAuth).Ok? <==> |token| >= 16))
  {
    hide Trim, Utf8.Encode;
    EncodedSize(Trim(raw));
  }

  /** A token of eight characters that is accepted: eight times U+00E9. */
  lemma {:induction false} ShortTokenAccepted(disableAuth: bool)
    ensures var raw := seq(8, _ => '\U{00E9}');
            |raw| == 8 && AuthToken(Some(raw), disableAuth) == Ok(Some(raw))
  {
    var raw := seq(8, _ => '\U{00E9}');
    assert raw[0] as int == 0xE9 && raw[7] as int == 0xE9;
    assert Trim(raw) == raw;
    RepeatedTwoBytes(8);
    MinimumExact(raw, disableAuth);
  }

  lemma {:induction false} RepeatedTwoBytes(n: nat)
    ensures ExtraBytes(seq(n, _ => '\U{00E9}')) == n
  {
    if n == 0 {
    } else {
      RepeatedTwoBytes(n - 1);
      assert seq(n, _ => '\U{00E9}')[1..] == seq(n - 1, _ => '\U{00E9}');
    }
  }

  /** A token that passes validation and can never be presented: sixteen times U+00E9. */
  lemma {:induction false} NonAsciiTokenLocksOut(header: Option<seq<Utf8.Byte>>)
    ensures var raw := seq(16, _ => '\U{00E9}');
            AuthToken(Some(raw), false) == Ok(Some(raw)) && !IsServed(Some(raw), header)
  {
    var raw := seq(16, _ => '\U{00E9}');
    assert raw[0] as int == 0xE9 && raw[15] as int == 0xE9;
    assert Trim(raw) == raw;
    EncodeNotShorter(raw);
    AuthorizationExact(header, raw);
    assert !VisibleText(raw);
  }
}
