/** Extraction of the operator tag from a rune, with the exact set of runes it understands. */
module Rune {
  import Base64Url
  import Utf8
  import opened Splitting
  import opened Text
  import opened Wrappers

  const OPERATOR_RUNE_TAG := "operator#"
  const RUNE_PREFIX_BYTES := 32

  datatype RuneError = InvalidRune | InvalidMetadata

  predicate IsSeparator(c: char) { c == '&' || c == '|' }

  /** The remainder of the first part that starts with the operator tag. */
  function FirstOperator(parts: seq<string>): Option<string> {
    if parts == [] then None
    else
      var tag := StripPrefix(parts[0], OPERATOR_RUNE_TAG);
      if tag.Some? then tag else FirstOperator(parts[1..])
  }

  function RuneTag(rune: string): Result<Option<string>, RuneError> {
    match Base64Url.Decode(rune)
    case None => Err(InvalidRune)
    case Some(decoded) =>
      if |decoded| < RUNE_PREFIX_BYTES then Err(InvalidMetadata)
      else
        match Utf8.Decode(decoded[RUNE_PREFIX_BYTES..])
        case None => Err(InvalidMetadata)
        case Some(metadata) => Ok(FirstOperator(Pieces(metadata, IsSeparator)))
  }

  // ----- runes as they are made

  ghost predicate Restrictions(parts: seq<string>, separators: string) {
    Fits(parts, separators, IsSeparator)
  }

  function RuneText(prefix: seq<Utf8.Byte>, metadata: string): string {
    Base64Url.Encode(prefix + Utf8.Encode(metadata))
  }

  /** The tag found is the one of the first tagged part, and none is found only if none is tagged. */
  lemma {:induction false} FirstOperatorExact(parts: seq<string>, tag: string)
    ensures FirstOperator(parts) == Some(tag)
            <==> exists i :: 0 <= i < |parts| && parts[i] == OPERATOR_RUNE_TAG + tag
                             && forall j :: 0 <= j < i ==> !(OPERATOR_RUNE_TAG <= parts[j])
    ensures FirstOperator(parts).None? <==> forall i :: 0 <= i < |parts| ==> !(OPERATOR_RUNE_TAG <= parts[i])
  {
    if parts != [] && !(OPERATOR_RUNE_TAG <= parts[0]) {
      var rest := parts[1..];
      FirstOperatorExact(rest, tag);
      assert forall j :: 0 <= j < |rest| ==> rest[j] == parts[j + 1];
      if i :| 0 <= i < |rest| && rest[i] == OPERATOR_RUNE_TAG + tag
              && forall j :: 0 <= j < i ==> !(OPERATOR_RUNE_TAG <= rest[j]) {
        assert parts[i + 1] == OPERATOR_RUNE_TAG + tag;
        assert forall j :: 0 < j < i + 1 ==> parts[j] == rest[j - 1];
      }
      if i :| 0 <= i < |parts| && parts[i] == OPERATOR_RUNE_TAG + tag
              && forall j :: 0 <= j < i ==> !(OPERATOR_RUNE_TAG <= parts[j]) {
        assert i > 0 && rest[i - 1] == parts[i];
      }
      assert forall j :: 1 <= j < |parts| ==> parts[j] == rest[j - 1];
    }
  }

  /** Any 32 bytes followed by any restrictions, encoded, give back the first operator. */
  lemma {:induction false} RuneTagRoundTrip(prefix: seq<Utf8.Byte>, parts: seq<string>, separators: string)
    requires |prefix| == RUNE_PREFIX_BYTES && Restrictions(parts, separators)
    ensures RuneTag(RuneText(prefix, Joined(parts, separators))) == Ok(FirstOperator(parts))
  {
    var metadata := Joined(parts, separators);
    var bytes := prefix + Utf8.Encode(metadata);
    Base64Url.DecodesExactly(Base64Url.Encode(bytes), bytes);
    assert bytes[RUNE_PREFIX_BYTES..] == Utf8.Encode(metadata);
    Utf8.DecodesExactly(Utf8.Encode(metadata), metadata);
    PiecesOfJoined(parts, separators, IsSeparator);
  }

  /** The rune decodes to a prefix of 32 bytes and these restrictions. */
  ghost predicate DecodesTo(rune: string, prefix: seq<Utf8.Byte>, parts: seq<string>, separators: string) {
    && |prefix| == RUNE_PREFIX_BYTES && Restrictions(parts, separators)
    && rune == RuneText(prefix, Joined(parts, separators))
  }

  /** A rune is understood, with a given tag, exactly when it is the encoding of some prefix and
      restrictions with that first operator. */
  lemma {:induction false} RuneTagExact(rune: string, tag: Option<string>)
    ensures RuneTag(rune) == Ok(tag)
            <==> exists prefix, parts, separators ::
                   DecodesTo(rune, prefix, parts, separators) && tag == FirstOperator(parts)
  {
    if RuneTag(rune).Ok? {
      var decoded := Base64Url.Decode(rune).value;
      var prefix, body := decoded[..RUNE_PREFIX_BYTES], decoded[RUNE_PREFIX_BYTES..];
      var metadata := Utf8.Decode(body).value;
      Base64Url.DecodesExactly(rune, decoded);
      Utf8.DecodesExactly(body, metadata);
      JoinedOfPieces(metadata, IsSeparator);
      assert decoded == prefix + Utf8.Encode(metadata);
      assert DecodesTo(rune, prefix, Pieces(metadata, IsSeparator), Separators(metadata, IsSeparator));
    }
    if prefix, parts, separators :| DecodesTo(rune, prefix, parts, separators) && tag == FirstOperator(parts) {
      RuneTagRoundTrip(prefix, parts, separators);
    }
  }

  /** The rune is 32 bytes and parts between `&` and vertical bars, of which the i-th is the first that starts
      with "operator#". */
  ghost predicate TaggedAt(rune: string, prefix: seq<Utf8.Byte>, parts: seq<string>, separators: string, i: nat, tag: string) {
    && |prefix| == 32
    && |parts| == |separators| + 1
    && (forall k, n :: 0 <= k < |parts| && 0 <= n < |parts[k]| ==> parts[k][n] != '&' && parts[k][n] != '|')
    && (forall k :: 0 <= k < |separators| ==> separators[k] == '&' || separators[k] == '|')
    && rune == Base64Url.Encode(prefix + Utf8.Encode(Joined(parts, separators)))
    && i < |parts| && parts[i] == "operator#" + tag
    && forall j :: 0 <= j < i ==> !("operator#" <= parts[j])
  }

  /** A rune has a tag if and only if it is made up like that. */
  lemma {:induction false} TagExact(rune: string, tag: string)
    ensures RuneTag(rune) == Ok(Some(tag))
            <==> exists prefix, parts, separators, i :: TaggedAt(rune, prefix, parts, separators, i, tag)
  {
    RuneTagExact(rune, Some(tag));
    hide RuneTag, FirstOperator;
    if RuneTag(rune) == Ok(Some(tag)) {
      var prefix, parts, separators :|
        DecodesTo(rune, prefix, parts, separators) && Some(tag) == FirstOperator(parts);
      FirstOperatorExact(parts, tag);
      var i :| 0 <= i < |parts| && parts[i] == OPERATOR_RUNE_TAG + tag
               && forall j :: 0 <= j < i ==> !(OPERATOR_RUNE_TAG <= parts[j]);
      forall k, n | 0 <= k < |parts| && 0 <= n < |parts[k]|
        ensures parts[k][n] != '&' && parts[k][n] != '|'
      {
        assert Unbroken(parts[k], IsSeparator);
      }
      assert TaggedAt(rune, prefix, parts, separators, i, tag);
    }
    if prefix, parts, separators, i :| TaggedAt(rune, prefix, parts, separators, i, tag) {
      FirstOperatorExact(parts, tag);
      assert DecodesTo(rune, prefix, parts, separators);
    }
  }

  /** What the rune decodes to, in the two layers. */
  ghost predicate Encodes(rune: string, bytes: seq<Utf8.Byte>) { rune == Base64Url.Encode(bytes) }

  ghost predicate IsText(bytes: seq<Utf8.Byte>) { exists s :: bytes == Utf8.Encode(s) }

  lemma {:induction false} EncodesExact(rune: string)
    ensures Base64Url.Decode(rune).Some? ==> Encodes(rune, Base64Url.Decode(rune).value)
    ensures forall bytes :: Encodes(rune, bytes) ==> Base64Url.Decode(rune) == Some(bytes)
  {
    forall bytes
      ensures Encodes(rune, bytes) <==> Base64Url.Decode(rune) == Some(bytes)
    {
      Base64Url.DecodesExactly(rune, bytes);
    }
  }

  lemma {:induction false} IsTextExact(bytes: seq<Utf8.Byte>)
    ensures IsText(bytes) <==> Utf8.Decode(bytes).Some?
  {
    if Utf8.Decode(bytes).Some? {
      Utf8.DecodesExactly(bytes, Utf8.Decode(bytes).value);
    }
    if s :| bytes == Utf8.Encode(s) {
      Utf8.DecodesExactly(bytes, s);
    }
  }

  /** It is invalid if and only if it encodes no bytes, and its metadata are invalid if and only if it encodes
      fewer than 32 bytes or something other than text behind them. */
  lemma {:induction false} RuneErrorsExact(rune: string)
    ensures RuneTag(rune) == Err(InvalidRune) <==> forall bytes :: !Encodes(rune, bytes)
    ensures RuneTag(rune) == Err(InvalidMetadata)
            <==> exists bytes :: Encodes(rune, bytes) && (|bytes| < 32 || !IsText(bytes[32..]))
  {
    hide Encodes, IsText, FirstOperator;
    EncodesExact(rune);
    if Base64Url.Decode(rune).Some? && |Base64Url.Decode(rune).value| >= 32 {
      IsTextExact(Base64Url.Decode(rune).value[32..]);
    }
  }

  /** The redaction mask is not a rune. */
  lemma {:induction false} MaskIsNoRune()
    ensures RuneTag("***") == Err(InvalidRune)
  {
  }
}
