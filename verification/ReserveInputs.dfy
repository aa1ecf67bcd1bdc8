/** The reduction of CLN responses to the amounts of a statement: two loops over six wrapping 64-bit
    accumulators, proved against exact sums. */
module ReserveInputs {
  import opened ClnResponses
  import opened MachineInts
  import opened Statement
  import opened Sums
  import opened Wrappers

  // ----- the share of one item in each bucket, unrounded and unwrapped

  function ConfirmedPart(o: Output): int { if o.status.Confirmed? && !o.reserved then o.amountMsat else 0 }
  function ReservedPart(o: Output): int { if o.status.Confirmed? && o.reserved then o.amountMsat else 0 }
  function UnconfirmedPart(o: Output): int { if o.status.Unconfirmed? then o.amountMsat else 0 }
  function ImmaturePart(o: Output): int { if o.status.Immature? then o.amountMsat else 0 }
  function OpenPart(c: PeerChannel): int { if c.state.ChanneldNormal? then OurAmount(c) else 0 }
  function PendingPart(c: PeerChannel): int { if c.state.ChanneldNormal? then 0 else OurAmount(c) }

  /** Each bucket is the exact sum of its shares, wrapped once. */
  function InputsOf(info: GetInfo, outputs: seq<Output>, channels: seq<PeerChannel>, now: Time): BalanceStatementInputs {
    BalanceStatementInputs(
      nodeId := info.id,
      network := info.network,
      statementTime := now,
      blockHeight := info.blockheight,
      onchainConfirmedMsat := WrapI64(SumBy(outputs, ConfirmedPart)),
      onchainUnconfirmedMsat := WrapI64(SumBy(outputs, UnconfirmedPart)),
      onchainReservedMsat := WrapI64(SumBy(outputs, ReservedPart)),
      onchainImmatureMsat := WrapI64(SumBy(outputs, ImmaturePart)),
      lightningOpenMsat := WrapI64(SumBy(channels, OpenPart)),
      lightningPendingMsat := WrapI64(SumBy(channels, PendingPart)))
  }

  lemma {:induction false} StepWraps<T>(s: seq<T>, i: nat, f: T -> int)
    requires i < |s|
    ensures WrapI64(WrapI64(SumBy(s[..i], f)) + WrapI64(f(s[i]))) == WrapI64(SumBy(s[..i + 1], f))
    ensures f(s[i]) == 0 ==> SumBy(s[..i], f) == SumBy(s[..i + 1], f)
  {
    assert s[..i + 1] == s[..i] + [s[i]];
    SumSnoc(s[..i], s[i], f);
    WrapI64Add(SumBy(s[..i], f), f(s[i]));
  }

  lemma {:induction false} NothingSummed()
    ensures WrapI64(0) == 0
    ensures forall s: seq<Output>, f :: s == [] ==> SumBy(s, f) == 0
    ensures forall s: seq<PeerChannel>, f :: s == [] ==> SumBy(s, f) == 0
  {
  }

  method FoldOutputs(outputs: seq<Output>)
    returns (confirmed: I64, unconfirmed: I64, reserved: I64, immature: I64)
    ensures confirmed == WrapI64(SumBy(outputs, ConfirmedPart))
    ensures unconfirmed == WrapI64(SumBy(outputs, UnconfirmedPart))
    ensures reserved == WrapI64(SumBy(outputs, ReservedPart))
    ensures immature == WrapI64(SumBy(outputs, ImmaturePart))
  {
    hide WrapI64, SumBy;
    NothingSummed();
    confirmed, unconfirmed, reserved, immature := 0, 0, 0, 0;
    for i := 0 to |outputs|
      invariant confirmed == WrapI64(SumBy(outputs[..i], ConfirmedPart))
      invariant unconfirmed == WrapI64(SumBy(outputs[..i], UnconfirmedPart))
      invariant reserved == WrapI64(SumBy(outputs[..i], ReservedPart))
      invariant immature == WrapI64(SumBy(outputs[..i], ImmaturePart))
    {
      var output := outputs[i];
      var msat := WrapI64(output.amountMsat);
      StepWraps(outputs, i, ConfirmedPart);
      StepWraps(outputs, i, UnconfirmedPart);
      StepWraps(outputs, i, ReservedPart);
      StepWraps(outputs, i, ImmaturePart);
      match output.status {
        case Confirmed =>
          if !output.reserved {
            confirmed := WrapI64(confirmed + msat);
          } else {
            reserved := WrapI64(reserved + msat);
          }
        case Unconfirmed => unconfirmed := WrapI64(unconfirmed + msat);
        case Immature => immature := WrapI64(immature + msat);
        case Spent =>
      }
    }
    assert outputs[..|outputs|] == outputs;
  }

  method FoldChannels(channels: seq<PeerChannel>) returns (open: I64, pending: I64)
    ensures open == WrapI64(SumBy(channels, OpenPart))
    ensures pending == WrapI64(SumBy(channels, PendingPart))
  {
    hide WrapI64, SumBy;
    NothingSummed();
    open, pending := 0, 0;
    for i := 0 to |channels|
      invariant open == WrapI64(SumBy(channels[..i], OpenPart))
      invariant pending == WrapI64(SumBy(channels[..i], PendingPart))
    {
      var channel := channels[i];
      var msat := if channel.toUsMsat.Some? then WrapI64(channel.toUsMsat.value) else 0;
      StepWraps(channels, i, OpenPart);
      StepWraps(channels, i, PendingPart);
      if channel.state.ChanneldNormal? {
        open := WrapI64(open + msat);
      } else {
        pending := WrapI64(pending + msat);
      }
    }
    assert channels[..|channels|] == channels;
  }

  /** The node's answers, one field per call; `Err` is a failed call. */
  datatype Rpc = Rpc(
    connect: Result<(), string>,
    getinfo: Result<GetInfo, string>,
    listfunds: Result<ListFunds, string>,
    listpeerchannels: Result<seq<PeerChannel>, string>,
    now: Time,
    signmessage: string -> Result<string, string>,
    parsePubkey: string -> Result<string, string>,
    checkmessage: (string, string, string) -> Result<(bool, string), string>)

  function FetchedInputs(rpc: Rpc): Result<BalanceStatementInputs, string> {
    var info :- rpc.getinfo;
    var funds :- rpc.listfunds;
    var channels :- rpc.listpeerchannels;
    Ok(InputsOf(info, funds.outputs, channels, rpc.now))
  }

  /** The first failing call decides; then every field comes from its own response. */
  method FetchInputs(rpc: Rpc) returns (r: Result<BalanceStatementInputs, string>)
    ensures r == FetchedInputs(rpc)
  {
    var info :- rpc.getinfo;
    var funds :- rpc.listfunds;
    var channels :- rpc.listpeerchannels;
    var confirmed, unconfirmed, reserved, immature := FoldOutputs(funds.outputs);
    var open, pending := FoldChannels(channels);
    r := Ok(BalanceStatementInputs(info.id, info.network, rpc.now, info.blockheight,
                                   confirmed, unconfirmed, reserved, immature, open, pending));
  }

  // ----- what each output and each channel contributes

  /** With nothing listed every amount is 0; node id, network, height and time are passed through. */
  lemma {:induction false} EmptyNode(info: GetInfo, now: Time)
    ensures InputsOf(info, [], [], now)
            == BalanceStatementInputs(info.id, info.network, now, info.blockheight, 0, 0, 0, 0, 0, 0)
  {
    NothingSummed();
  }

  /** `x` with an amount added, wrapping. */
  function Plus(x: I64, amount: int): I64 { WrapI64(x + amount) }

  /** One more output adds its amount to one field and changes no other: confirmed if it is confirmed and not
      reserved, reserved if it is confirmed and reserved, unconfirmed and immature by status whether reserved or
      not; a spent one changes nothing. */
  lemma {:induction false} OneMoreOutput(info: GetInfo, outputs: seq<Output>, channels: seq<PeerChannel>, now: Time, o: Output)
    ensures var x, y := InputsOf(info, outputs, channels, now), InputsOf(info, outputs + [o], channels, now);
            y == match o
                 case Output(a, Confirmed, false) => x.(onchainConfirmedMsat := Plus(x.onchainConfirmedMsat, a))
                 case Output(a, Confirmed, true) => x.(onchainReservedMsat := Plus(x.onchainReservedMsat, a))
                 case Output(a, Unconfirmed, _) => x.(onchainUnconfirmedMsat := Plus(x.onchainUnconfirmedMsat, a))
                 case Output(a, Immature, _) => x.(onchainImmatureMsat := Plus(x.onchainImmatureMsat, a))
                 case Output(_, Spent, _) => x
  {
    hide WrapI64, SumBy;
    OneMore(outputs, o, ConfirmedPart);
    OneMore(outputs, o, UnconfirmedPart);
    OneMore(outputs, o, ReservedPart);
    OneMore(outputs, o, ImmaturePart);
  }

  /** One more channel adds our side, if it is given, to the open amount in CHANNELD_NORMAL and to the pending
      amount in any other state. */
  lemma {:induction false} OneMoreChannel(info: GetInfo, outputs: seq<Output>, channels: seq<PeerChannel>, now: Time, c: PeerChannel)
    ensures var x, y := InputsOf(info, outputs, channels, now), InputsOf(info, outputs, channels + [c], now);
            && (c.toUsMsat.None? ==> y == x)
            && (c.toUsMsat.Some? && c.state == ChanneldNormal ==>
                  y == x.(lightningOpenMsat := Plus(x.lightningOpenMsat, c.toUsMsat.value)))
            && (c.toUsMsat.Some? && c.state != ChanneldNormal ==>
                  y == x.(lightningPendingMsat := Plus(x.lightningPendingMsat, c.toUsMsat.value)))
  {
    hide WrapI64, SumBy;
    OneMore(channels, c, OpenPart);
    OneMore(channels, c, PendingPart);
  }

  lemma {:induction false} OneMore<T>(s: seq<T>, x: T, f: T -> int)
    ensures WrapI64(SumBy(s + [x], f)) == WrapI64(WrapI64(SumBy(s, f)) + f(x))
    ensures f(x) == 0 ==> WrapI64(SumBy(s + [x], f)) == WrapI64(SumBy(s, f))
  {
    SumSnoc(s, x, f);
    WrapAdds(SumBy(s, f), f(x));
  }

  lemma {:induction false} WrapAdds(x: int, y: int)
    ensures WrapI64(WrapI64(x) + y) == WrapI64(x + y)
  {
    hide WrapI64, WrapU64;
    WrapU64OfI64(x, y);
    SameResidue(WrapI64(x) + y, x + y);
  }

  // ----- conservation

  function OnchainPart(o: Output): int { if o.status.Spent? then 0 else o.amountMsat }
  function ConfirmedOrReserved(o: Output): int { ConfirmedPart(o) + ReservedPart(o) }
  function NotYetSpendable(o: Output): int { UnconfirmedPart(o) + ImmaturePart(o) }

  /** No output is counted twice and none but the spent ones is dropped; likewise for channels. */
  lemma {:induction false} BucketsConserve(outputs: seq<Output>, channels: seq<PeerChannel>)
    ensures SumBy(outputs, ConfirmedPart) + SumBy(outputs, ReservedPart)
            + SumBy(outputs, UnconfirmedPart) + SumBy(outputs, ImmaturePart)
            == SumBy(outputs, OnchainPart)
    ensures SumBy(outputs, OnchainPart) + SumBy(outputs, SpentAmount) == SumBy(outputs, OutputAmount)
    ensures SumBy(channels, OpenPart) + SumBy(channels, PendingPart) == SumBy(channels, OurAmount)
  {
    SumSplit(outputs, ConfirmedPart, ReservedPart, ConfirmedOrReserved);
    SumSplit(outputs, UnconfirmedPart, ImmaturePart, NotYetSpendable);
    SumSplit(outputs, ConfirmedOrReserved, NotYetSpendable, OnchainPart);
    SumSplit(outputs, OnchainPart, SpentAmount, OutputAmount);
    SumSplit(channels, OpenPart, PendingPart, OurAmount);
  }

  /** With wrapping arithmetic and no bound at all, the fields still add up modulo 2^64. */
  lemma {:induction false} FieldsConserveModulo(info: GetInfo, outputs: seq<Output>, channels: seq<PeerChannel>, now: Time)
    ensures var x := InputsOf(info, outputs, channels, now);
            && WrapU64(x.onchainConfirmedMsat + x.onchainReservedMsat + x.onchainUnconfirmedMsat + x.onchainImmatureMsat)
               == WrapU64(SumBy(outputs, OnchainPart))
            && WrapU64(x.lightningOpenMsat + x.lightningPendingMsat) == WrapU64(SumBy(channels, OurAmount))
            && WrapU64(x.TotalMsat()) == WrapU64(SumBy(outputs, ConfirmedPart) + SumBy(channels, OpenPart))
  {
    hide WrapI64, WrapU64, SumBy;
    BucketsConserve(outputs, channels);
    var confirmed, reserved := SumBy(outputs, ConfirmedPart), SumBy(outputs, ReservedPart);
    var unconfirmed, immature := SumBy(outputs, UnconfirmedPart), SumBy(outputs, ImmaturePart);
    WrapU64OfI64(confirmed, WrapI64(reserved) + WrapI64(unconfirmed) + WrapI64(immature));
    WrapU64OfI64(reserved, confirmed + WrapI64(unconfirmed) + WrapI64(immature));
    WrapU64OfI64(unconfirmed, confirmed + reserved + WrapI64(immature));
    WrapU64OfI64(immature, confirmed + reserved + unconfirmed);
    var open, pending := SumBy(channels, OpenPart), SumBy(channels, PendingPart);
    WrapU64OfI64(open, WrapI64(pending));
    WrapU64OfI64(pending, open);
    CastRoundTrip(WrapI64(confirmed) + WrapI64(open));
    WrapU64OfI64(confirmed, WrapI64(open));
    WrapU64OfI64(open, confirmed);
  }

  /** The statement does not depend on the order in which CLN lists outputs and channels. */
  lemma {:induction false} OrderIrrelevant(info: GetInfo, o1: seq<Output>, o2: seq<Output>,
                        c1: seq<PeerChannel>, c2: seq<PeerChannel>, now: Time)
    requires multiset(o1) == multiset(o2) && multiset(c1) == multiset(c2)
    ensures InputsOf(info, o1, c1, now) == InputsOf(info, o2, c2, now)
  {
    SumPermutation(o1, o2, ConfirmedPart);
    SumPermutation(o1, o2, ReservedPart);
    SumPermutation(o1, o2, UnconfirmedPart);
    SumPermutation(o1, o2, ImmaturePart);
    SumPermutation(c1, c2, OpenPart);
    SumPermutation(c1, c2, PendingPart);
  }

  // ----- the supply bound

  /** 21 million bitcoin in msat. */
  const SUPPLY_MSAT := 2_100_000_000_000_000_000

  ghost predicate WithinSupply(outputs: seq<Output>, channels: seq<PeerChannel>) {
    SumBy(outputs, OutputAmount) <= SUPPLY_MSAT && SumBy(channels, OurAmount) <= SUPPLY_MSAT
  }

  /** Under the supply bound no accumulator overflows at any step of either loop. */
  lemma {:induction false} NoStepOverflows(outputs: seq<Output>, channels: seq<PeerChannel>, i: nat, j: nat)
    requires WithinSupply(outputs, channels) && i <= |outputs| && j <= |channels|
    ensures InI64(SumBy(outputs[..i], ConfirmedPart)) && InI64(SumBy(outputs[..i], ReservedPart))
    ensures InI64(SumBy(outputs[..i], UnconfirmedPart)) && InI64(SumBy(outputs[..i], ImmaturePart))
    ensures InI64(SumBy(channels[..j], OpenPart)) && InI64(SumBy(channels[..j], PendingPart))
    ensures i < |outputs| ==> InI64(outputs[i].amountMsat)
    ensures j < |channels| ==> InI64(OurAmount(channels[j]))
  {
    hide SumBy;
    SumDominated(outputs, i, ConfirmedPart, OutputAmount);
    SumDominated(outputs, i, ReservedPart, OutputAmount);
    SumDominated(outputs, i, UnconfirmedPart, OutputAmount);
    SumDominated(outputs, i, ImmaturePart, OutputAmount);
    SumDominated(channels, j, OpenPart, OurAmount);
    SumDominated(channels, j, PendingPart, OurAmount);
    if i < |outputs| {
      SumDominated(outputs, i, OutputAmount, OutputAmount);
      SumDominated(outputs, i + 1, OutputAmount, OutputAmount);
      assert outputs[..i + 1] == outputs[..i] + [outputs[i]];
      SumSnoc(outputs[..i], outputs[i], OutputAmount);
    }
    if j < |channels| {
      SumDominated(channels, j, OurAmount, OurAmount);
      SumDominated(channels, j + 1, OurAmount, OurAmount);
      assert channels[..j + 1] == channels[..j] + [channels[j]];
      SumSnoc(channels[..j], channels[j], OurAmount);
    }
  }

  /** Under the supply bound every field, and the total, is the exact sum and not negative. */
  lemma {:induction false} ExactWithinSupply(info: GetInfo, outputs: seq<Output>, channels: seq<PeerChannel>, now: Time)
    requires WithinSupply(outputs, channels)
    ensures var x := InputsOf(info, outputs, channels, now);
            && x.onchainConfirmedMsat == SumBy(outputs, ConfirmedPart) >= 0
            && x.onchainReservedMsat == SumBy(outputs, ReservedPart) >= 0
            && x.onchainUnconfirmedMsat == SumBy(outputs, UnconfirmedPart) >= 0
            && x.onchainImmatureMsat == SumBy(outputs, ImmaturePart) >= 0
            && x.lightningOpenMsat == SumBy(channels, OpenPart) >= 0
            && x.lightningPendingMsat == SumBy(channels, PendingPart) >= 0
            && x.TotalMsat() == x.onchainConfirmedMsat + x.lightningOpenMsat
  {
    hide WrapI64, SumBy;
    assert outputs[..|outputs|] == outputs && channels[..|channels|] == channels;
    SumDominated(outputs, |outputs|, ConfirmedPart, OutputAmount);
    SumDominated(outputs, |outputs|, ReservedPart, OutputAmount);
    SumDominated(outputs, |outputs|, UnconfirmedPart, OutputAmount);
    SumDominated(outputs, |outputs|, ImmaturePart, OutputAmount);
    SumDominated(channels, |channels|, OpenPart, OurAmount);
    SumDominated(channels, |channels|, PendingPart, OurAmount);
    WrapI64Exact(SumBy(outputs, ConfirmedPart));
    WrapI64Exact(SumBy(outputs, ReservedPart));
    WrapI64Exact(SumBy(outputs, UnconfirmedPart));
    WrapI64Exact(SumBy(outputs, ImmaturePart));
    WrapI64Exact(SumBy(channels, OpenPart));
    WrapI64Exact(SumBy(channels, PendingPart));
    WrapI64Exact(SumBy(outputs, ConfirmedPart) + SumBy(channels, OpenPart));
  }
}
