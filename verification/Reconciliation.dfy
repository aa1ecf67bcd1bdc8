/** The attestor and the metrics plugin reduce the same CLN responses in different ways; this module
    proves that what they report reconciles. */
module Reconciliation {
  import opened ClnResponses
  import opened Collector
  import opened MachineInts
  import opened MetricsCache
  import opened ReserveInputs
  import opened Series
  import opened SignedBalance
  import opened Statement
  import opened Sums
  import opened Wrappers

  lemma {:induction false} BalancesModulo(channels: seq<PeerChannel>, snapshots: seq<ChannelSnapshot>)
    requires |snapshots| == |channels|
    requires forall i :: 0 <= i < |channels| ==> snapshots[i] == SnapshotOf(channels[i])
    ensures WrapU64(SumBy(snapshots, Balance)) == WrapU64(SumBy(channels, OurAmount))
  {
    if channels == [] {
    } else {
      var n := |channels| - 1;
      hide WrapI64, WrapU64;
      BalancesModulo(channels[..n], snapshots[..n]);
      assert Balance(snapshots[n]) == Signed(channels[n].toUsMsat);
      SignedModulo(channels[n].toUsMsat);
      WrapU64Add(SumBy(snapshots[..n], Balance), Balance(snapshots[n]));
      WrapU64Add(SumBy(channels[..n], OurAmount), OurAmount(channels[n]));
    }
  }

  lemma {:induction false} SignedModulo(amount: Option<U64>)
    ensures WrapU64(Signed(amount)) == WrapU64(OrZero(amount))
    ensures OrZero(amount) <= SUPPLY_MSAT ==> Signed(amount) == OrZero(amount)
  {
  }

  /** On the same responses, without any bound: the on-chain total of the metrics is the attestor's four
      on-chain amounts plus the spent outputs listed, and the channel balances are its open and pending
      amounts, modulo 2^64. */
  lemma {:induction false} ReconcilesModulo(info: GetInfo, funds: ListFunds, channels: seq<PeerChannel>, now: Time, data: CachedData)
    requires SnapshotExact(info, channels, funds, data)
    ensures var x := InputsOf(info, funds.outputs, channels, now);
            && WrapU64(data.funds.outputMsat)
               == WrapU64(x.onchainConfirmedMsat + x.onchainReservedMsat + x.onchainUnconfirmedMsat
                          + x.onchainImmatureMsat + SumBy(funds.outputs, SpentAmount))
            && WrapU64(SumBy(data.channels, Balance)) == WrapU64(x.lightningOpenMsat + x.lightningPendingMsat)
  {
    hide WrapI64, WrapU64, SumBy, SnapshotOf, PeersExact;
    var x := InputsOf(info, funds.outputs, channels, now);
    var onchain := x.onchainConfirmedMsat + x.onchainReservedMsat + x.onchainUnconfirmedMsat + x.onchainImmatureMsat;
    var spent := SumBy(funds.outputs, SpentAmount);
    BucketsConserve(funds.outputs, channels);
    FieldsConserveModulo(info, funds.outputs, channels, now);
    CastRoundTrip(SumBy(funds.outputs, OutputAmount));
    WrapU64Left(onchain, spent);
    WrapU64Left(SumBy(funds.outputs, OnchainPart), spent);
    BalancesModulo(channels, data.channels);
  }

  lemma {:induction false} BalancesExact(channels: seq<PeerChannel>, snapshots: seq<ChannelSnapshot>)
    requires |snapshots| == |channels|
    requires forall i :: 0 <= i < |channels| ==> snapshots[i] == SnapshotOf(channels[i])
    requires SumBy(channels, OurAmount) <= SUPPLY_MSAT
    ensures SumBy(snapshots, Balance) == SumBy(channels, OurAmount)
  {
    hide SumBy;
    forall i | 0 <= i < |channels|
      ensures OurAmount(channels[i]) == Balance(snapshots[i])
    {
      SumDominated(channels, i, OurAmount, OurAmount);
      SumDominated(channels, i + 1, OurAmount, OurAmount);
      assert channels[..i + 1] == channels[..i] + [channels[i]];
      SumSnoc(channels[..i], channels[i], OurAmount);
      SignedModulo(channels[i].toUsMsat);
    }
    SumMapped(channels, snapshots, OurAmount, Balance);
  }

  /** Under the supply bound the amounts of a signed balance and the series of a scrape over the same
      responses are equal number for number: the on-chain gauge shows the four on-chain amounts plus the
      spent outputs listed, and the per-channel balance gauges, with the channels overwritten by a later
      one of the same label, add up to the open and pending amounts. */
  lemma {:induction false} ScrapeMatchesStatement(serviceName: string, rpc: Rpc, data: CachedData, labels: seq<Label>)
    requires rpc.getinfo.Ok? && rpc.listfunds.Ok? && rpc.listpeerchannels.Ok?
    requires WithinSupply(rpc.listfunds.value.outputs, rpc.listpeerchannels.value)
    requires SnapshotExact(rpc.getinfo.value, rpc.listpeerchannels.value, rpc.listfunds.value, data)
    requires forall i, j :: 0 <= i < j < |labels| ==> labels[i] != labels[j]
    requires forall i :: 0 <= i < |data.channels| ==> LabelOf(data.channels[i]) in labels
    ensures GetSignedBalance(serviceName, rpc).Ok? ==>
            var r := GetSignedBalance(serviceName, rpc).value;
            && Scalar("lightning_funds_output_msat",
                      r.onchainBalanceMsat + r.onchainReservedMsat + r.onchainUnconfirmedMsat + r.onchainImmatureMsat
                      + SumBy(rpc.listfunds.value.outputs, SpentAmount)) in Families(data)
            && SumBy(labels, k => ValueAt(LastWritten(data.channels, LabelOf, Balance), k))
               + Lost(data.channels, LabelOf, Balance)
               == r.lightningBalanceMsat + r.lightningPendingMsat
            && (DistinctKeys(data.channels, LabelOf) ==> Lost(data.channels, LabelOf, Balance) == 0)
  {
    hide GetSignedBalance, PeersExact, SnapshotOf, SumBy, LastWritten, Lost, WrapI64, DistinctKeys, Families;
    if GetSignedBalance(serviceName, rpc).Ok? {
      var outputs, channels := rpc.listfunds.value.outputs, rpc.listpeerchannels.value;
      AmountsAgreeWithinSupply(serviceName, rpc);
      BucketsConserve(outputs, channels);
      assert outputs[..|outputs|] == outputs;
      SumDominated(outputs, |outputs|, OutputAmount, OutputAmount);
      WrapI64Exact(SumBy(outputs, OutputAmount));
      ScalarsShown(data);
      BalancesExact(channels, data.channels);
      GaugesAddUp(data.channels, LabelOf, Balance, labels);
    }
  }
}
