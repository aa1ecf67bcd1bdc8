/** The armor around a signed block, the verifier's extraction of message and signature from it,
    and the exact condition under which extraction returns what was signed. */
module StatementArmor {
  import opened Wrappers
  import opened Text
  import opened Statement

  const BEGIN_MESSAGE := "-----BEGIN CLN SIGNED MESSAGE-----"
  const BEGIN_SIGNATURE := "-----BEGIN CLN SIGNATURE-----"
  const END_SIGNATURE := "-----END CLN SIGNATURE-----"

  /** A marker on a line of its own, with the newlines on both sides. */
  function OwnLine(mark: string): string { "\n" + mark + "\n" }

  function BuildSignedStatement(messageBlock: string, zbaseSignature: string): string {
    BEGIN_MESSAGE + "\n" + messageBlock + "\n" + BEGIN_SIGNATURE + "\n" + zbaseSignature + "\n" + END_SIGNATURE + "\n"
  }

  /** The armor, literally. */
  lemma {:induction false} ArmorIsLiteral(messageBlock: string, zbaseSignature: string)
    ensures BuildSignedStatement(messageBlock, zbaseSignature)
            == "-----BEGIN CLN SIGNED MESSAGE-----" + "\n" + messageBlock + "\n" + "-----BEGIN CLN SIGNATURE-----"
               + "\n" + zbaseSignature + "\n" + "-----END CLN SIGNATURE-----" + "\n"
  {
  }

  datatype Extracted = Extracted(message: string, signature: string, trailing: string)

  /** What a verifier does: strip the header, then cut at the first BEGIN SIGNATURE line and at the
      first END SIGNATURE line after it. */
  function Extract(statement: string): Option<Extracted> {
    var armored :- StripPrefix(statement, BEGIN_MESSAGE + "\n");
    var (message, signatureBlock) :- SplitOnce(armored, OwnLine(BEGIN_SIGNATURE));
    var (signature, trailing) :- SplitOnce(signatureBlock, OwnLine(END_SIGNATURE));
    Some(Extracted(message, signature, trailing))
  }

  // ----- where a text is cut by a marker line

  /** The marker cuts right after `msg` exactly when it does not already occur in `msg`, also counting
      the newline the armor adds: two occurrences can overlap in that newline only. */
  lemma {:induction false} CutsAfter(mark: string, msg: string, tail: string)
    requires mark != "" && FreeOf('\n', mark)
    ensures SplitOnce(msg + OwnLine(mark) + tail, OwnLine(mark)) == Some((msg, tail))
            <==> !Contains(msg + "\n", OwnLine(mark))
  {
    var m := OwnLine(mark);
    var t := msg + m + tail;
    var n := |msg|;
    assert t[n..n + |m|] == m;
    assert OccursAt(m, t, n);
    if Contains(msg + "\n", m) {
      var i :| 0 <= i <= n + 1 && OccursAt(m, msg + "\n", i);
      assert t[..n + 1] == msg + "\n";
      assert t[i..i + |m|] == t[..n + 1][i..i + |m|];
      assert OccursAt(m, t, i) && i < n;
    } else {
      forall i | 0 <= i < n
        ensures !OccursAt(m, t, i)
      {
        assert t[n] == '\n';
        if i + |m| <= n + 1 {
          assert t[..n + 1] == msg + "\n";
          assert t[i..i + |m|] == t[..n + 1][i..i + |m|];
          assert !OccursAt(m, msg + "\n", i);
        } else if i + |m| <= |t| {
          assert t[i..i + |m|][n - i] == t[n];
          assert m[n - i] == mark[n - i - 1];
        }
      }
      SplitOnceAt(t, m, n);
      assert t[..n] == msg && t[n + |m|..] == tail;
    }
  }

  lemma {:induction false} NewlineFreeLacksMarker(mark: string, s: string)
    requires mark != "" && FreeOf('\n', s)
    ensures !Contains(s + "\n", OwnLine(mark))
  {
    var m := OwnLine(mark);
    if i :| 0 <= i <= |s| + 1 && OccursAt(m, s + "\n", i) {
      assert (s + "\n")[i..i + |m|][0] == '\n';
      assert i < |s|;
    }
  }

  lemma {:induction false} MarksSingle()
    ensures FreeOf('\n', BEGIN_SIGNATURE) && BEGIN_SIGNATURE != ""
    ensures FreeOf('\n', END_SIGNATURE) && END_SIGNATURE != ""
  {
  }

  lemma {:induction false} Pieces(header: string, message: string, mark: string, signature: string, end: string)
    ensures header + "\n" + message + "\n" + mark + "\n" + signature + "\n" + end + "\n"
            == (header + "\n") + (message + OwnLine(mark) + (signature + OwnLine(end) + ""))
  {
    var signatureBlock := signature + OwnLine(end) + "";
    assert signatureBlock == signature + "\n" + end + "\n";
    assert message + OwnLine(mark) + signatureBlock == message + "\n" + mark + "\n" + signatureBlock;
  }

  /** For any message at all: extraction returns it exactly when the marker line does not occur in it. */
  lemma {:induction false} ExtractionExact(message: string, signature: string)
    requires FreeOf('\n', signature)
    ensures Extract(BuildSignedStatement(message, signature)) == Some(Extracted(message, signature, ""))
            <==> !Contains(message + "\n", OwnLine(BEGIN_SIGNATURE))
  {
    MarksSingle();
    Pieces(BEGIN_MESSAGE, message, BEGIN_SIGNATURE, signature, END_SIGNATURE);
    CutsAtMarkers(BEGIN_MESSAGE + "\n", BEGIN_SIGNATURE, END_SIGNATURE, message, signature);
  }

  /** The same, for any three marker lines. */
  lemma {:induction false} CutsAtMarkers(header: string, mark: string, end: string, message: string, signature: string)
    requires FreeOf('\n', signature)
    requires mark != "" && FreeOf('\n', mark) && end != "" && FreeOf('\n', end)
    ensures var signatureBlock := signature + OwnLine(end) + "";
            var armored := message + OwnLine(mark) + signatureBlock;
            && StripPrefix(header + armored, header) == Some(armored)
            && SplitOnce(signatureBlock, OwnLine(end)) == Some((signature, ""))
            && (SplitOnce(armored, OwnLine(mark)) == Some((message, signatureBlock))
                <==> !Contains(message + "\n", OwnLine(mark)))
            && (SplitOnce(armored, OwnLine(mark)).Some? && SplitOnce(armored, OwnLine(mark)).value.0 == message
                ==> SplitOnce(armored, OwnLine(mark)).value.1 == signatureBlock)
  {
    NewlineFreeLacksMarker(end, signature);
    CutsAfter(end, signature, "");
    var signatureBlock := signature + OwnLine(end) + "";
    var armored := message + OwnLine(mark) + signatureBlock;
    CutsAfter(mark, message, signatureBlock);
    var cut := SplitOnce(armored, OwnLine(mark));
    if cut.Some? && cut.value.0 == message {
      assert armored == message + OwnLine(mark) + cut.value.1;
      assert armored[|message| + |OwnLine(mark)|..] == cut.value.1;
      assert armored[|message| + |OwnLine(mark)|..] == signatureBlock;
    }
  }

  // ----- the marker in a statement block

  ghost predicate NoDashLine(t: string) {
    forall i :: 0 <= i && i + 1 < |t| && t[i] == '\n' ==> t[i + 1] != '-'
  }

  /** A line that is empty or starts with something other than a dash. */
  predicate Plain(s: string) { s == "" || s[0] != '-' }

  lemma {:induction false} JoinHasNoDashLine(ls: seq<string>)
    requires ls != []
    requires forall i :: 0 <= i < |ls| ==> FreeOf('\n', ls[i]) && Plain(ls[i])
    ensures NoDashLine("\n" + Join(ls) + "\n")
  {
    if |ls| <= 1 {
    } else {
      JoinHasNoDashLine(ls[1..]);
      var rest := "\n" + Join(ls[1..]) + "\n";
      var t := "\n" + Join(ls) + "\n";
      assert t == "\n" + ls[0] + rest;
      forall i | 0 <= i && i + 1 < |t| && t[i] == '\n'
        ensures t[i + 1] != '-'
      {
        if i > |ls[0]| {
          assert t[i] == rest[i - 1 - |ls[0]|] && t[i + 1] == rest[i - |ls[0]|];
        }
      }
    }
  }

  /** Every caption is nonempty and starts with something other than a dash. */
  ghost predicate PlainLayout(l: Layout) {
    && |l.heading| >= 2 && l.heading[..2] == " n" && FreeOf('\n', l.heading)
    && l.SingleLine()
    && l.version != "" && l.nodeId != "" && l.network != "" && l.time != "" && l.height != ""
    && Plain(l.version) && Plain(l.nodeId) && Plain(l.network) && Plain(l.time) && Plain(l.height)
    && l.onchain != "" && l.lightning != "" && l.total != "" && l.accounting != "" && l.excluded != ""
    && Plain(l.onchain) && Plain(l.lightning) && Plain(l.total) && Plain(l.accounting) && Plain(l.excluded)
    && l.unconfirmed != "" && l.reserved != "" && l.immature != "" && l.pending != ""
    && Plain(l.unconfirmed) && Plain(l.reserved) && Plain(l.immature) && Plain(l.pending)
  }

  lemma {:induction false} StatementLayoutPlain()
    ensures PlainLayout(StatementLayout())
  {
    hide FreeOf;
    StatementLayoutSingle();
    HeadingSingle();
  }

  lemma {:induction false} HeadingSingle()
    ensures FreeOf('\n', " node balance statement")
  {
  }

  lemma {:induction false} FieldLinesPlain(l: Layout, x: BalanceStatementInputs)
    requires PlainLayout(l) && x.SingleLine()
    ensures forall i :: 0 <= i < 18 ==> Plain(FieldLines(l, x)[i])
  {
    hide FreeOf, TimeText, Decimal.IntText;
    var ids := IdentityLines(l, x.nodeId, x.network, x.statementTime, x.blockHeight);
    var bals := BalanceLines(l, x.onchainConfirmedMsat, x.lightningOpenMsat, x.TotalMsat());
    assert forall i :: 0 <= i < 7 ==> Plain(ids[i]);
    assert forall i :: 0 <= i < 7 ==> Plain(bals[i]);
  }

  /** No space of the mark is followed by an `n`, and it starts with a dash. */
  ghost predicate SafeMark(mark: string) {
    && mark != "" && mark[0] == '-' && FreeOf('\n', mark)
    && forall p :: 0 <= p < |mark| && mark[p] == ' ' ==> p + 1 < |mark| && mark[p + 1] != 'n'
  }

  lemma {:induction false} SignatureMarkSafe()
    ensures SafeMark(BEGIN_SIGNATURE)
  {
  }

  /** No marker line reaches past the service name. */
  lemma {:induction false} NoMarkerBeyondName(mark: string, serviceName: string, tail: string, i: nat)
    requires SafeMark(mark)
    requires NoDashLine(tail) && |tail| >= 2 && tail[0] == ' ' && tail[1] == 'n'
    requires i + |OwnLine(mark)| > |serviceName|
    ensures !OccursAt(OwnLine(mark), serviceName + tail, i)
  {
    var m, t, n := OwnLine(mark), serviceName + tail, |serviceName|;
    if i + |m| <= |t| {
      var w := t[i..i + |m|];
      assert m[0] == '\n' && m[1] == mark[0];
      if i >= n {
        assert w[0] == tail[i - n] && w[1] == tail[i + 1 - n];
      } else {
        var p := n - i;
        assert w[p] == tail[0];
        assert p < |mark| + 1 ==> m[p] == mark[p - 1];
        assert p < |mark| + 1 ==> w[p + 1] == tail[1];
        assert p < |mark| ==> m[p + 1] == mark[p];
      }
    }
  }

  /** A marker line in service name + tail lies wholly in the service name. */
  lemma {:induction false} MarkerInServiceName(mark: string, serviceName: string, tail: string)
    requires SafeMark(mark)
    requires NoDashLine(tail) && |tail| >= 2 && tail[0] == ' ' && tail[1] == 'n'
    ensures Contains(serviceName + tail, OwnLine(mark)) <==> Contains(serviceName, OwnLine(mark))
  {
    var m, t, n := OwnLine(mark), serviceName + tail, |serviceName|;
    forall i: nat | i <= |t|
      ensures OccursAt(m, t, i) == OccursAt(m, serviceName, i)
    {
      if i + |m| <= n {
        assert t[i..i + |m|] == serviceName[i..i + |m|];
      } else {
        NoMarkerBeyondName(mark, serviceName, tail, i);
      }
    }
    if Contains(serviceName, m) {
      var i :| 0 <= i <= n && OccursAt(m, serviceName, i);
      assert OccursAt(m, t, i);
    }
    if Contains(t, m) {
      var i :| 0 <= i <= |t| && OccursAt(m, t, i);
      assert OccursAt(m, serviceName, i);
    }
  }

  lemma {:induction false} BlockMarker(l: Layout, mark: string, serviceName: string, x: BalanceStatementInputs)
    requires PlainLayout(l) && x.SingleLine() && SafeMark(mark)
    ensures Contains(BlockText(l, serviceName, x) + "\n", OwnLine(mark)) <==> Contains(serviceName, OwnLine(mark))
  {
    hide FieldLines, BlockText;
    var fields := FieldLines(l, x);
    FieldLinesSingle(l, x);
    FieldLinesPlain(l, x);
    JoinHasNoDashLine(fields);
    BlockSplits(l, serviceName, x);
    var lines := "\n" + Join(fields) + "\n";
    var tail := l.heading + lines;
    HeadingBeforeLines(l.heading, lines);
    assert tail[0] == l.heading[..2][0] && tail[1] == l.heading[..2][1];
    MarkerInServiceName(mark, serviceName, tail);
    assert BlockText(l, serviceName, x) + "\n" == serviceName + tail;
  }

  lemma {:induction false} HeadingBeforeLines(heading: string, lines: string)
    requires FreeOf('\n', heading) && NoDashLine(lines)
    ensures NoDashLine(heading + lines)
  {
    var t := heading + lines;
    forall i | 0 <= i && i + 1 < |t| && t[i] == '\n'
      ensures t[i + 1] != '-'
    {
      if i >= |heading| {
        assert t[i] == lines[i - |heading|] && t[i + 1] == lines[i + 1 - |heading|];
      }
    }
  }

  /** Extraction from a statement returns the signed block and its signature, with nothing left over,
      if and only if the service name does not contain the BEGIN SIGNATURE line. */
  lemma {:induction false} StatementExtraction(serviceName: string, x: BalanceStatementInputs, signature: string)
    requires x.SingleLine() && FreeOf('\n', signature)
    ensures var message := BuildMessageBlock(serviceName, x);
            Extract(BuildSignedStatement(message, signature)) == Some(Extracted(message, signature, ""))
            <==> !Contains(serviceName, OwnLine(BEGIN_SIGNATURE))
  {
    hide StatementLayout, BlockText, Extract, BuildSignedStatement, SafeMark, PlainLayout, FreeOf;
    ExtractionExact(BuildMessageBlock(serviceName, x), signature);
    StatementLayoutPlain();
    SignatureMarkSafe();
    BlockMarker(StatementLayout(), BEGIN_SIGNATURE, serviceName, x);
  }

  /** Armor and block together: from the statement alone a verifier learns every input. */
  lemma {:induction false} StatementDeterminesInputs(serviceName: string, x: BalanceStatementInputs, signature: string)
    requires x.SingleLine() && FreeOf('\n', signature)
    requires !Contains(serviceName, OwnLine(BEGIN_SIGNATURE))
    ensures var e := Extract(BuildSignedStatement(BuildMessageBlock(serviceName, x), signature));
            && e.Some?
            && e.value.signature == signature
            && ParseMessageBlock(e.value.message) == Some((serviceName, x))
  {
    hide Extract, BuildSignedStatement, BuildMessageBlock, ParseMessageBlock;
    StatementExtraction(serviceName, x, signature);
    PrintingIsInvertible(BuildMessageBlock(serviceName, x), serviceName, x);
  }

  /** A concrete service name for which the promise fails: the verifier is handed a message that is
      not the signed one. */
  lemma {:induction false} MarkerInNameBreaksExtraction(x: BalanceStatementInputs, signature: string)
    requires x.SingleLine() && FreeOf('\n', signature)
    ensures var message := BuildMessageBlock(OwnLine(BEGIN_SIGNATURE), x);
            Extract(BuildSignedStatement(message, signature)) != Some(Extracted(message, signature, ""))
  {
    hide Extract, BuildSignedStatement, BuildMessageBlock, FreeOf;
    var m := OwnLine(BEGIN_SIGNATURE);
    assert m[0..0 + |m|] == m;
    assert OccursAt(m, m, 0);
    StatementExtraction(m, x, signature);
  }
}
