/** The `get-signed-balance` command: fetch, print, sign, self-check, and answer with the statement
    and a JSON copy of its fields. */
module SignedBalance {
  import opened ClnResponses
  import opened MachineInts
  import opened ReserveInputs
  import opened Statement
  import opened StatementArmor
  import opened Sums
  import opened Text
  import opened Wrappers

  datatype Failure = CallFailed(context: string) | SelfCheckFailed(recoveredPubkey: string)

  datatype Response = Response(
    statementVersion: U32,
    nodeId: string,
    network: string,
    statementTime: string,
    blockHeight: U32,
    onchainBalanceMsat: U64,
    lightningBalanceMsat: U64,
    totalMsat: U64,
    onchainUnconfirmedMsat: U64,
    onchainReservedMsat: U64,
    onchainImmatureMsat: U64,
    lightningPendingMsat: U64,
    statement: string,
    signature: string)

  function Call<T>(r: Result<T, string>): Result<T, Failure> {
    match r
    case Ok(value) => Ok(value)
    case Err(context) => Err(CallFailed(context))
  }

  function ResponseFor(inputs: BalanceStatementInputs, statement: string, signature: string): Response {
    Response(
      statementVersion := STATEMENT_VERSION,
      nodeId := inputs.nodeId,
      network := inputs.network,
      statementTime := TimeText(inputs.statementTime),
      blockHeight := inputs.blockHeight,
      onchainBalanceMsat := WrapU64(inputs.onchainConfirmedMsat),
      lightningBalanceMsat := WrapU64(inputs.lightningOpenMsat),
      totalMsat := WrapU64(inputs.TotalMsat()),
      onchainUnconfirmedMsat := WrapU64(inputs.onchainUnconfirmedMsat),
      onchainReservedMsat := WrapU64(inputs.onchainReservedMsat),
      onchainImmatureMsat := WrapU64(inputs.onchainImmatureMsat),
      lightningPendingMsat := WrapU64(inputs.lightningPendingMsat),
      statement := statement,
      signature := signature)
  }

  function GetSignedBalance(serviceName: string, rpc: Rpc): Result<Response, Failure> {
    var _ :- Call(rpc.connect);
    var inputs :- Call(FetchedInputs(rpc));
    var message := BuildMessageBlock(serviceName, inputs);
    var signature :- Call(rpc.signmessage(message));
    var pubkey :- Call(rpc.parsePubkey(inputs.nodeId));
    var (verified, recovered) :- Call(rpc.checkmessage(message, signature, pubkey));
    if !verified then Err(SelfCheckFailed(recovered))
    else
      Ok(ResponseFor(inputs, BuildSignedStatement(message, signature), signature))
  }

  /** The JSON copy states the same inputs as the text: unsigned amounts for signed ones. */
  ghost predicate Mirrors(r: Response, x: BalanceStatementInputs) {
    && r.statementVersion == 1
    && r.nodeId == x.nodeId && r.network == x.network
    && ParseTime(r.statementTime) == Some(x.statementTime)
    && r.blockHeight == x.blockHeight
    && WrapI64(r.onchainBalanceMsat) == x.onchainConfirmedMsat
    && WrapI64(r.lightningBalanceMsat) == x.lightningOpenMsat
    && WrapI64(r.totalMsat) == x.TotalMsat()
    && WrapI64(r.onchainUnconfirmedMsat) == x.onchainUnconfirmedMsat
    && WrapI64(r.onchainReservedMsat) == x.onchainReservedMsat
    && WrapI64(r.onchainImmatureMsat) == x.onchainImmatureMsat
    && WrapI64(r.lightningPendingMsat) == x.lightningPendingMsat
  }

  /** The amounts of the text and of the JSON copy are the same numbers. */
  ghost predicate SameAmounts(r: Response, x: BalanceStatementInputs) {
    && r.onchainBalanceMsat == x.onchainConfirmedMsat
    && r.lightningBalanceMsat == x.lightningOpenMsat
    && r.totalMsat == x.TotalMsat()
    && r.onchainUnconfirmedMsat == x.onchainUnconfirmedMsat
    && r.onchainReservedMsat == x.onchainReservedMsat
    && r.onchainImmatureMsat == x.onchainImmatureMsat
    && r.lightningPendingMsat == x.lightningPendingMsat
  }

  predicate NoNegativeAmount(x: BalanceStatementInputs) {
    && x.onchainConfirmedMsat >= 0 && x.lightningOpenMsat >= 0 && x.TotalMsat() >= 0
    && x.onchainUnconfirmedMsat >= 0 && x.onchainReservedMsat >= 0
    && x.onchainImmatureMsat >= 0 && x.lightningPendingMsat >= 0
  }

  /** CLN's identifiers and network names are single-line, and a zbase32 signature has no newline. */
  ghost predicate SingleLineNode(rpc: Rpc) {
    && (rpc.getinfo.Ok? ==> FreeOf('\n', rpc.getinfo.value.id) && FreeOf('\n', rpc.getinfo.value.network))
    && forall m :: rpc.signmessage(m).Ok? ==> FreeOf('\n', rpc.signmessage(m).value)
  }

  /** The answer when all calls succeeded and the self-check verified. */
  lemma {:induction false} ResponseMirrors(serviceName: string, rpc: Rpc)
    ensures GetSignedBalance(serviceName, rpc).Ok? ==> FetchedInputs(rpc).Ok?
    ensures GetSignedBalance(serviceName, rpc).Ok? ==>
            var r, x := GetSignedBalance(serviceName, rpc).value, FetchedInputs(rpc).value;
            Mirrors(r, x) && (SameAmounts(r, x) <==> NoNegativeAmount(x))
  {
    hide BuildMessageBlock, BuildSignedStatement, FetchedInputs, ParseTime, TimeText, WrapU64, WrapI64;
    if GetSignedBalance(serviceName, rpc).Ok? {
      var x := FetchedInputs(rpc).value;
      ParseTimeText(x.statementTime);
      SameWhenNonNegative(x.onchainConfirmedMsat);
      SameWhenNonNegative(x.lightningOpenMsat);
      SameWhenNonNegative(x.TotalMsat());
      SameWhenNonNegative(x.onchainUnconfirmedMsat);
      SameWhenNonNegative(x.onchainReservedMsat);
      SameWhenNonNegative(x.onchainImmatureMsat);
      SameWhenNonNegative(x.lightningPendingMsat);
    }
  }

  /** From an answer a verifier extracts what was signed if and only if the configured service name
      does not contain the BEGIN SIGNATURE line. */
  lemma {:induction false} AnswerExtracts(serviceName: string, rpc: Rpc)
    requires SingleLineNode(rpc)
    ensures GetSignedBalance(serviceName, rpc).Ok? ==> FetchedInputs(rpc).Ok?
    ensures GetSignedBalance(serviceName, rpc).Ok? ==>
            var r := GetSignedBalance(serviceName, rpc).value;
            var signed := BuildMessageBlock(serviceName, FetchedInputs(rpc).value);
            && rpc.signmessage(signed) == Ok(r.signature)
            && r.statement == "-----BEGIN CLN SIGNED MESSAGE-----" + "\n" + signed + "\n" + "-----BEGIN CLN SIGNATURE-----"
                              + "\n" + r.signature + "\n" + "-----END CLN SIGNATURE-----" + "\n"
            && (Extract(r.statement) == Some(Extracted(signed, r.signature, ""))
                <==> !Contains(serviceName, OwnLine(BEGIN_SIGNATURE)))
  {
    hide BuildMessageBlock, BuildSignedStatement, Extract, TimeText, WrapU64, WrapI64;
    if GetSignedBalance(serviceName, rpc).Ok? {
      ArmorIsLiteral(BuildMessageBlock(serviceName, FetchedInputs(rpc).value), GetSignedBalance(serviceName, rpc).value.signature);
      StatementExtraction(serviceName, FetchedInputs(rpc).value, GetSignedBalance(serviceName, rpc).value.signature);
    }
  }

  /** Whenever the command answers, a verifier who has only the answer recovers from its statement a
      message and signature that passed `checkmessage` for the node id in the answer, and parses from
      that message the service name and the very inputs the JSON copy mirrors. */
  lemma {:induction false} EndToEnd(serviceName: string, rpc: Rpc)
    requires SingleLineNode(rpc)
    requires !Contains(serviceName, OwnLine(BEGIN_SIGNATURE))
    ensures GetSignedBalance(serviceName, rpc).Ok? ==>
            var r := GetSignedBalance(serviceName, rpc).value;
            var e := Extract(r.statement);
            && e.Some? && e.value.signature == r.signature && e.value.trailing == ""
            && rpc.parsePubkey(r.nodeId).Ok?
            && rpc.checkmessage(e.value.message, e.value.signature, rpc.parsePubkey(r.nodeId).value).Ok?
            && rpc.checkmessage(e.value.message, e.value.signature, rpc.parsePubkey(r.nodeId).value).value.0
            && ParseMessageBlock(e.value.message).Some?
            && var (name, x) := ParseMessageBlock(e.value.message).value;
            && name == serviceName
            && FetchedInputs(rpc) == Ok(x)
            && Mirrors(r, x)
            && (SameAmounts(r, x) <==> NoNegativeAmount(x))
  {
    hide BuildMessageBlock, BuildSignedStatement, Extract, ParseMessageBlock, TimeText, Mirrors, SameAmounts,
         NoNegativeAmount, WrapU64, WrapI64;
    if GetSignedBalance(serviceName, rpc).Ok? {
      ResponseMirrors(serviceName, rpc);
      var x := FetchedInputs(rpc).value;
      var r := GetSignedBalance(serviceName, rpc).value;
      StatementExtraction(serviceName, x, r.signature);
      PrintingIsInvertible(BuildMessageBlock(serviceName, x), serviceName, x);
    }
  }

  /** Under the supply bound the two copies agree number for number, and are the exact sums. */
  lemma {:induction false} AmountsAgreeWithinSupply(serviceName: string, rpc: Rpc)
    requires rpc.getinfo.Ok? && rpc.listfunds.Ok? && rpc.listpeerchannels.Ok?
    requires WithinSupply(rpc.listfunds.value.outputs, rpc.listpeerchannels.value)
    ensures GetSignedBalance(serviceName, rpc).Ok? ==>
            var r := GetSignedBalance(serviceName, rpc).value;
            && SameAmounts(r, FetchedInputs(rpc).value)
            && r.totalMsat == r.onchainBalanceMsat + r.lightningBalanceMsat
            && r.onchainBalanceMsat + r.onchainReservedMsat + r.onchainUnconfirmedMsat + r.onchainImmatureMsat
               == SumBy(rpc.listfunds.value.outputs, OnchainPart)
            && r.lightningBalanceMsat + r.lightningPendingMsat == SumBy(rpc.listpeerchannels.value, OurAmount)
  {
    hide BuildMessageBlock, BuildSignedStatement, TimeText, WrapU64, WrapI64, SumBy;
    if GetSignedBalance(serviceName, rpc).Ok? {
      ResponseMirrors(serviceName, rpc);
      ExactWithinSupply(rpc.getinfo.value, rpc.listfunds.value.outputs, rpc.listpeerchannels.value, rpc.now);
      BucketsConserve(rpc.listfunds.value.outputs, rpc.listpeerchannels.value);
    }
  }

  /** Without any bound the JSON fields are the exact sums modulo 2^64. */
  lemma {:induction false} JsonExactModulo(serviceName: string, rpc: Rpc)
    ensures GetSignedBalance(serviceName, rpc).Ok? ==>
            var r := GetSignedBalance(serviceName, rpc).value;
            var outputs, channels := rpc.listfunds.value.outputs, rpc.listpeerchannels.value;
            && r.onchainBalanceMsat == WrapU64(SumBy(outputs, ConfirmedPart))
            && r.onchainReservedMsat == WrapU64(SumBy(outputs, ReservedPart))
            && r.onchainUnconfirmedMsat == WrapU64(SumBy(outputs, UnconfirmedPart))
            && r.onchainImmatureMsat == WrapU64(SumBy(outputs, ImmaturePart))
            && r.lightningBalanceMsat == WrapU64(SumBy(channels, OpenPart))
            && r.lightningPendingMsat == WrapU64(SumBy(channels, PendingPart))
            && r.totalMsat == WrapU64(SumBy(outputs, ConfirmedPart) + SumBy(channels, OpenPart))
  {
    hide BuildMessageBlock, BuildSignedStatement, TimeText, WrapU64, WrapI64, SumBy;
    if GetSignedBalance(serviceName, rpc).Ok? {
      var outputs, channels := rpc.listfunds.value.outputs, rpc.listpeerchannels.value;
      CastRoundTrip(SumBy(outputs, ConfirmedPart));
      CastRoundTrip(SumBy(outputs, ReservedPart));
      CastRoundTrip(SumBy(outputs, UnconfirmedPart));
      CastRoundTrip(SumBy(outputs, ImmaturePart));
      CastRoundTrip(SumBy(channels, OpenPart));
      CastRoundTrip(SumBy(channels, PendingPart));
      FieldsConserveModulo(rpc.getinfo.value, outputs, channels, rpc.now);
    }
  }

  /** A failure names the first call that failed, in the order of the calls, or the key that was recovered when
      the self-check did not verify. */
  lemma {:induction false} FirstFailure(serviceName: string, rpc: Rpc)
    ensures var answer := GetSignedBalance(serviceName, rpc);
            && (rpc.connect.Err? ==> answer == Err(CallFailed(rpc.connect.error)))
            && (rpc.connect.Ok? && rpc.getinfo.Err? ==> answer == Err(CallFailed(rpc.getinfo.error)))
            && (rpc.connect.Ok? && rpc.getinfo.Ok? && rpc.listfunds.Err? ==> answer == Err(CallFailed(rpc.listfunds.error)))
            && (rpc.connect.Ok? && rpc.getinfo.Ok? && rpc.listfunds.Ok? && rpc.listpeerchannels.Err? ==>
                  answer == Err(CallFailed(rpc.listpeerchannels.error)))
            && (rpc.connect.Ok? && rpc.getinfo.Ok? && rpc.listfunds.Ok? && rpc.listpeerchannels.Ok? ==>
                  var message := BuildMessageBlock(serviceName, FetchedInputs(rpc).value);
                  var signed, parsed := rpc.signmessage(message), rpc.parsePubkey(rpc.getinfo.value.id);
                  && (signed.Err? ==> answer == Err(CallFailed(signed.error)))
                  && (signed.Ok? && parsed.Err? ==> answer == Err(CallFailed(parsed.error)))
                  && (signed.Ok? && parsed.Ok? ==>
                        var check := rpc.checkmessage(message, signed.value, parsed.value);
                        && (check.Err? ==> answer == Err(CallFailed(check.error)))
                        && (check.Ok? && !check.value.0 ==> answer == Err(SelfCheckFailed(check.value.1)))))
  {
    hide BuildMessageBlock, BuildSignedStatement, TimeText;
  }

  /** The total of the JSON copy is the sum of its two balances if and only if the two exact sums, each
      reduced to 64 bits, do not overflow when they are added. */
  lemma {:induction false} JsonTotalExact(serviceName: string, rpc: Rpc)
    ensures GetSignedBalance(serviceName, rpc).Ok? ==>
            var r := GetSignedBalance(serviceName, rpc).value;
            var outputs, channels := rpc.listfunds.value.outputs, rpc.listpeerchannels.value;
            (r.totalMsat == r.onchainBalanceMsat + r.lightningBalanceMsat
             <==> WrapU64(SumBy(outputs, ConfirmedPart)) + WrapU64(SumBy(channels, OpenPart)) < TWO_64)
  {
    hide BuildMessageBlock, BuildSignedStatement, TimeText, SumBy, WrapU64, WrapI64;
    JsonExactModulo(serviceName, rpc);
    if GetSignedBalance(serviceName, rpc).Ok? {
      var confirmed := SumBy(rpc.listfunds.value.outputs, ConfirmedPart);
      var open := SumBy(rpc.listpeerchannels.value, OpenPart);
      WrapU64Add(confirmed, open);
      WrapU64OfSum(WrapU64(confirmed), WrapU64(open));
    }
  }

  lemma {:induction false} WrapU64OfSum(a: U64, b: U64)
    ensures WrapU64(a + b) == a + b <==> a + b < TWO_64
  {
  }

  /** A node that answers every call and holds 2^64 - 1 msat on chain and 1 msat in a channel. */
  function OverflowingNode(info: GetInfo, now: Time): Rpc {
    var channel := PeerChannel("", true, ChanneldNormal, None, None, Some(1), None, None, None, None,
                               None, None, None, None, None, None, None, None);
    Rpc(
      connect := Ok(()),
      getinfo := Ok(info),
      listfunds := Ok(ListFunds([Output(TWO_64 - 1, Confirmed, false)], [])),
      listpeerchannels := Ok([channel]),
      now := now,
      signmessage := _ => Ok(""),
      parsePubkey := id => Ok(id),
      checkmessage := (message, signature, pubkey) => Ok((true, pubkey)))
  }

  /** An answer whose total is not the sum of its two balances: it is 0. */
  lemma {:induction false} JsonTotalWraps(serviceName: string, info: GetInfo, now: Time)
    ensures var answer := GetSignedBalance(serviceName, OverflowingNode(info, now));
            && answer.Ok?
            && answer.value.onchainBalanceMsat == TWO_64 - 1
            && answer.value.lightningBalanceMsat == 1
            && answer.value.totalMsat == 0
  {
    hide BuildMessageBlock, BuildSignedStatement, TimeText;
    var rpc := OverflowingNode(info, now);
    var outputs, channels := rpc.listfunds.value.outputs, rpc.listpeerchannels.value;
    assert outputs[..0] == [] && channels[..0] == [];
    assert SumBy(outputs, ConfirmedPart) == TWO_64 - 1 && SumBy(channels, OpenPart) == 1;
    JsonExactModulo(serviceName, rpc);
  }

  /** The command answers if and only if every call succeeds and the self-check verifies: a signature
      that does not verify never leaves the node. */
  lemma {:induction false} AnswersOnlyVerified(serviceName: string, rpc: Rpc)
    ensures GetSignedBalance(serviceName, rpc).Ok?
            <==> && rpc.connect.Ok? && rpc.getinfo.Ok? && rpc.listfunds.Ok? && rpc.listpeerchannels.Ok?
                 && var message := BuildMessageBlock(serviceName, FetchedInputs(rpc).value);
                 && rpc.signmessage(message).Ok?
                 && rpc.parsePubkey(rpc.getinfo.value.id).Ok?
                 && var check := rpc.checkmessage(message, rpc.signmessage(message).value,
                                                  rpc.parsePubkey(rpc.getinfo.value.id).value);
                 && check.Ok? && check.value.0
  {
    hide BuildMessageBlock, BuildSignedStatement, TimeText;
  }
}
