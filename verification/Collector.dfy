/** One scrape: labelled series rebuilt from scratch out of the cached snapshot. */
module Collector {
  import opened ClnResponses
  import opened MachineInts
  import opened MetricsCache
  import opened Series
  import opened Sums
  import opened Wrappers

  datatype Label = Label(peerId: string, scid: string)

  datatype Family =
    | Scalar(name: string, value: int)
    | ChannelGauges(name: string, gauges: map<Label, int>)
    | ChannelCounters(name: string, counters: map<Label, U64>)
    | PeerGauges(name: string, peerGauges: map<string, int>)

  function LabelOf(c: ChannelSnapshot): Label { Label(c.peerId, c.scid) }
  function IdOf(p: PeerSnapshot): string { p.id }

  function Balance(c: ChannelSnapshot): int { c.balanceMsat }
  function Spendable(c: ChannelSnapshot): int { c.spendableMsat }
  function Receivable(c: ChannelSnapshot): int { c.receivableMsat }
  function Capacity(c: ChannelSnapshot): int { c.capacityMsat }
  function Htlcs(c: ChannelSnapshot): int { c.htlcs }
  function InPaymentsOffered(c: ChannelSnapshot): int { c.inPaymentsOffered }
  function InPaymentsFulfilled(c: ChannelSnapshot): int { c.inPaymentsFulfilled }
  function InMsatOffered(c: ChannelSnapshot): int { c.inMsatOffered }
  function InMsatFulfilled(c: ChannelSnapshot): int { c.inMsatFulfilled }
  function OutPaymentsOffered(c: ChannelSnapshot): int { c.outPaymentsOffered }
  function OutPaymentsFulfilled(c: ChannelSnapshot): int { c.outPaymentsFulfilled }
  function OutMsatOffered(c: ChannelSnapshot): int { c.outMsatOffered }
  function OutMsatFulfilled(c: ChannelSnapshot): int { c.outMsatFulfilled }
  function Connected(p: PeerSnapshot): int { if p.connected then 1 else 0 }

  function ScalarFamilies(cache: CachedData): seq<Family> {
    [ Scalar("lightning_node_blockheight", cache.node.blockheight),
      Scalar("lightning_fees_collected_msat", cache.node.feesCollectedMsat),
      Scalar("lightning_funds_output_msat", cache.funds.outputMsat),
      Scalar("lightning_funds_channel_msat", cache.funds.channelMsat),
      Scalar("lightning_funds_total_msat", WrapI64(cache.funds.outputMsat + cache.funds.channelMsat)),
      Scalar("lightning_total_outbound_msat", WrapI64(SumBy(cache.channels, Spendable))),
      Scalar("lightning_total_inbound_msat", WrapI64(SumBy(cache.channels, Receivable))),
      Scalar("lightning_peers", |cache.peers|),
      Scalar("lightning_channels", |cache.channels|) ]
  }

  function GaugeFamilies(cs: seq<ChannelSnapshot>): seq<Family> {
    [ ChannelGauges("lightning_channel_balance_msat", LastWritten(cs, LabelOf, Balance)),
      ChannelGauges("lightning_channel_spendable_msat", LastWritten(cs, LabelOf, Spendable)),
      ChannelGauges("lightning_channel_receivable_msat", LastWritten(cs, LabelOf, Receivable)),
      ChannelGauges("lightning_channel_capacity_msat", LastWritten(cs, LabelOf, Capacity)),
      ChannelGauges("lightning_channel_htlcs", LastWritten(cs, LabelOf, Htlcs)) ]
  }

  function CounterFamilies(cs: seq<ChannelSnapshot>): seq<Family> {
    [ ChannelCounters("lightning_channel_in_payments_offered_total", AddedUp(cs, LabelOf, InPaymentsOffered)),
      ChannelCounters("lightning_channel_in_payments_fulfilled_total", AddedUp(cs, LabelOf, InPaymentsFulfilled)),
      ChannelCounters("lightning_channel_in_msat_offered_total", AddedUp(cs, LabelOf, InMsatOffered)),
      ChannelCounters("lightning_channel_in_msat_fulfilled_total", AddedUp(cs, LabelOf, InMsatFulfilled)),
      ChannelCounters("lightning_channel_out_payments_offered_total", AddedUp(cs, LabelOf, OutPaymentsOffered)),
      ChannelCounters("lightning_channel_out_payments_fulfilled_total", AddedUp(cs, LabelOf, OutPaymentsFulfilled)),
      ChannelCounters("lightning_channel_out_msat_offered_total", AddedUp(cs, LabelOf, OutMsatOffered)),
      ChannelCounters("lightning_channel_out_msat_fulfilled_total", AddedUp(cs, LabelOf, OutMsatFulfilled)) ]
  }

  function PeerFamilies(peers: seq<PeerSnapshot>): seq<Family> {
    [ PeerGauges("lightning_peer_connected", LastWritten(peers, IdOf, Connected)),
      PeerGauges("lightning_peer_channels", LastWritten(peers, IdOf, NumChannels)),
      PeerGauges("lightning_peer_channel_connected", LastWritten(peers, IdOf, ConnectedChannels)) ]
  }

  function Families(cache: CachedData): seq<Family> {
    ScalarFamilies(cache) + GaugeFamilies(cache.channels) + CounterFamilies(cache.channels) + PeerFamilies(cache.peers)
  }

  // ----- the loops

  method CollectGauges(cs: seq<ChannelSnapshot>) returns (out: seq<Family>)
    ensures out == GaugeFamilies(cs)
  {
    var balance: map<Label, int>, spendable: map<Label, int>, receivable: map<Label, int> := map[], map[], map[];
    var capacity: map<Label, int>, htlcs: map<Label, int> := map[], map[];
    for i := 0 to |cs|
      invariant balance == LastWritten(cs[..i], LabelOf, Balance)
      invariant spendable == LastWritten(cs[..i], LabelOf, Spendable)
      invariant receivable == LastWritten(cs[..i], LabelOf, Receivable)
      invariant capacity == LastWritten(cs[..i], LabelOf, Capacity)
      invariant htlcs == LastWritten(cs[..i], LabelOf, Htlcs)
    {
      var ch := cs[i];
      var labels := LabelOf(ch);
      WriteStep(cs, i, LabelOf, Balance);
      WriteStep(cs, i, LabelOf, Spendable);
      WriteStep(cs, i, LabelOf, Receivable);
      WriteStep(cs, i, LabelOf, Capacity);
      WriteStep(cs, i, LabelOf, Htlcs);
      balance := balance[labels := ch.balanceMsat];
      spendable := spendable[labels := ch.spendableMsat];
      receivable := receivable[labels := ch.receivableMsat];
      capacity := capacity[labels := ch.capacityMsat];
      htlcs := htlcs[labels := ch.htlcs];
    }
    assert cs[..|cs|] == cs;
    out := [ ChannelGauges("lightning_channel_balance_msat", balance),
             ChannelGauges("lightning_channel_spendable_msat", spendable),
             ChannelGauges("lightning_channel_receivable_msat", receivable),
             ChannelGauges("lightning_channel_capacity_msat", capacity),
             ChannelGauges("lightning_channel_htlcs", htlcs) ];
  }

  method CollectCounters(cs: seq<ChannelSnapshot>) returns (out: seq<Family>)
    ensures out == CounterFamilies(cs)
  {
    hide Incremented;
    var inPaymentsOffered: map<Label, U64>, inPaymentsFulfilled: map<Label, U64> := map[], map[];
    var inMsatOffered: map<Label, U64>, inMsatFulfilled: map<Label, U64> := map[], map[];
    var outPaymentsOffered: map<Label, U64>, outPaymentsFulfilled: map<Label, U64> := map[], map[];
    var outMsatOffered: map<Label, U64>, outMsatFulfilled: map<Label, U64> := map[], map[];
    for i := 0 to |cs|
      invariant inPaymentsOffered == AddedUp(cs[..i], LabelOf, InPaymentsOffered)
      invariant inPaymentsFulfilled == AddedUp(cs[..i], LabelOf, InPaymentsFulfilled)
      invariant inMsatOffered == AddedUp(cs[..i], LabelOf, InMsatOffered)
      invariant inMsatFulfilled == AddedUp(cs[..i], LabelOf, InMsatFulfilled)
      invariant outPaymentsOffered == AddedUp(cs[..i], LabelOf, OutPaymentsOffered)
      invariant outPaymentsFulfilled == AddedUp(cs[..i], LabelOf, OutPaymentsFulfilled)
      invariant outMsatOffered == AddedUp(cs[..i], LabelOf, OutMsatOffered)
      invariant outMsatFulfilled == AddedUp(cs[..i], LabelOf, OutMsatFulfilled)
    {
      var ch := cs[i];
      var labels := LabelOf(ch);
      AddStep(cs, i, LabelOf, InPaymentsOffered);
      AddStep(cs, i, LabelOf, InPaymentsFulfilled);
      AddStep(cs, i, LabelOf, InMsatOffered);
      AddStep(cs, i, LabelOf, InMsatFulfilled);
      AddStep(cs, i, LabelOf, OutPaymentsOffered);
      AddStep(cs, i, LabelOf, OutPaymentsFulfilled);
      AddStep(cs, i, LabelOf, OutMsatOffered);
      AddStep(cs, i, LabelOf, OutMsatFulfilled);
      inPaymentsOffered := Incremented(inPaymentsOffered, labels, ch.inPaymentsOffered);
      inPaymentsFulfilled := Incremented(inPaymentsFulfilled, labels, ch.inPaymentsFulfilled);
      inMsatOffered := Incremented(inMsatOffered, labels, ch.inMsatOffered);
      inMsatFulfilled := Incremented(inMsatFulfilled, labels, ch.inMsatFulfilled);
      outPaymentsOffered := Incremented(outPaymentsOffered, labels, ch.outPaymentsOffered);
      outPaymentsFulfilled := Incremented(outPaymentsFulfilled, labels, ch.outPaymentsFulfilled);
      outMsatOffered := Incremented(outMsatOffered, labels, ch.outMsatOffered);
      outMsatFulfilled := Incremented(outMsatFulfilled, labels, ch.outMsatFulfilled);
    }
    assert cs[..|cs|] == cs;
    out := [ ChannelCounters("lightning_channel_in_payments_offered_total", inPaymentsOffered),
             ChannelCounters("lightning_channel_in_payments_fulfilled_total", inPaymentsFulfilled),
             ChannelCounters("lightning_channel_in_msat_offered_total", inMsatOffered),
             ChannelCounters("lightning_channel_in_msat_fulfilled_total", inMsatFulfilled),
             ChannelCounters("lightning_channel_out_payments_offered_total", outPaymentsOffered),
             ChannelCounters("lightning_channel_out_payments_fulfilled_total", outPaymentsFulfilled),
             ChannelCounters("lightning_channel_out_msat_offered_total", outMsatOffered),
             ChannelCounters("lightning_channel_out_msat_fulfilled_total", outMsatFulfilled) ];
  }

  method CollectPeers(peers: seq<PeerSnapshot>) returns (out: seq<Family>)
    ensures out == PeerFamilies(peers)
  {
    var peerConnected: map<string, int>, peerChannels: map<string, int>, peerChannelConnected: map<string, int> :=
      map[], map[], map[];
    for i := 0 to |peers|
      invariant peerConnected == LastWritten(peers[..i], IdOf, Connected)
      invariant peerChannels == LastWritten(peers[..i], IdOf, NumChannels)
      invariant peerChannelConnected == LastWritten(peers[..i], IdOf, ConnectedChannels)
    {
      var p := peers[i];
      WriteStep(peers, i, IdOf, Connected);
      WriteStep(peers, i, IdOf, NumChannels);
      WriteStep(peers, i, IdOf, ConnectedChannels);
      peerConnected := peerConnected[p.id := if p.connected then 1 else 0];
      peerChannels := peerChannels[p.id := p.numChannels];
      peerChannelConnected := peerChannelConnected[p.id := p.connectedChannels];
    }
    assert peers[..|peers|] == peers;
    out := [ PeerGauges("lightning_peer_connected", peerConnected),
             PeerGauges("lightning_peer_channels", peerChannels),
             PeerGauges("lightning_peer_channel_connected", peerChannelConnected) ];
  }

  method Collect(cache: CachedData) returns (out: seq<Family>)
    ensures out == Families(cache)
  {
    hide WrapI64, SumBy, GaugeFamilies, CounterFamilies, PeerFamilies;
    WrappingSumExact(cache.channels, Spendable);
    WrappingSumExact(cache.channels, Receivable);
    var totalOutbound := WrappingSum(cache.channels, Spendable);
    var totalInbound := WrappingSum(cache.channels, Receivable);
    out := [ Scalar("lightning_node_blockheight", cache.node.blockheight),
             Scalar("lightning_fees_collected_msat", cache.node.feesCollectedMsat),
             Scalar("lightning_funds_output_msat", cache.funds.outputMsat),
             Scalar("lightning_funds_channel_msat", cache.funds.channelMsat),
             Scalar("lightning_funds_total_msat", WrapI64(cache.funds.outputMsat + cache.funds.channelMsat)),
             Scalar("lightning_total_outbound_msat", totalOutbound),
             Scalar("lightning_total_inbound_msat", totalInbound),
             Scalar("lightning_peers", |cache.peers|),
             Scalar("lightning_channels", |cache.channels|) ];
    assert out == ScalarFamilies(cache);
    hide ScalarFamilies;
    var gauges := CollectGauges(cache.channels);
    out := out + gauges;
    var counters := CollectCounters(cache.channels);
    out := out + counters;
    var peers := CollectPeers(cache.peers);
    out := out + peers;
  }

  // ----- what a scrape shows

  /** Over any listing of the labels, the per-channel liquidity gauges of a scrape, with the channels that
      a later one with the same label overwrites, add up to its two liquidity totals. When no two
      channels share a label nothing is overwritten. */
  lemma {:induction false} LiquidityAddsUp(cache: CachedData, labels: seq<Label>)
    requires forall i, j :: 0 <= i < j < |labels| ==> labels[i] != labels[j]
    requires forall i :: 0 <= i < |cache.channels| ==> LabelOf(cache.channels[i]) in labels
    ensures var spendable := SumBy(labels, k => ValueAt(LastWritten(cache.channels, LabelOf, Spendable), k));
            var lost := Lost(cache.channels, LabelOf, Spendable);
            && Scalar("lightning_total_outbound_msat", WrapI64(spendable + lost)) in Families(cache)
            && (DistinctKeys(cache.channels, LabelOf) ==> lost == 0)
    ensures var receivable := SumBy(labels, k => ValueAt(LastWritten(cache.channels, LabelOf, Receivable), k));
            var lost := Lost(cache.channels, LabelOf, Receivable);
            && Scalar("lightning_total_inbound_msat", WrapI64(receivable + lost)) in Families(cache)
            && (DistinctKeys(cache.channels, LabelOf) ==> lost == 0)
  {
    hide WrapI64, SumBy, Families;
    GaugesAddUp(cache.channels, LabelOf, Spendable, labels);
    GaugesAddUp(cache.channels, LabelOf, Receivable, labels);
    ScalarsShown(cache);
  }

  // ----- end to end: from a fetch to a scrape

  ghost predicate CounterShown(fs: seq<Family>, name: string, k: Label, value: int) {
    exists m :: ChannelCounters(name, m) in fs && k in m && m[k] == value
  }

  ghost predicate GaugeShown(fs: seq<Family>, name: string, k: Label, value: int) {
    exists m :: ChannelGauges(name, m) in fs && k in m && m[k] == value
  }

  /** An optional amount, 0 when it is not given. */
  function Given(amount: Option<U64>): U64 {
    match amount
    case Some(msat) => msat
    case None => 0
  }

  /** The peer and the short channel id, or failing that the channel id, or failing both the empty text. */
  function ShownLabel(c: PeerChannel): Label {
    match (c.shortChannelId, c.channelId)
    case (Some(scid), _) => Label(c.peerId, scid)
    case (None, Some(id)) => Label(c.peerId, id)
    case (None, None) => Label(c.peerId, "")
  }

  /** The snapshot's signed amount is the given one, wrapped. */
  lemma {:induction false} SignedIsGiven(amount: Option<U64>)
    ensures Signed(amount) == WrapI64(Given(amount))
    ensures OrZero(amount) == Given(amount)
  {
  }

  lemma {:induction false} LabelIsShown(c: PeerChannel)
    ensures LabelOf(SnapshotOf(c)) == ShownLabel(c)
  {
    hide Signed;
  }

  /** The counter `f` of a sole channel holds the unsigned value of which the snapshot has the signed
      form. */
  lemma {:induction false} SoleCounter(data: CachedData, name: string, i: nat, f: ChannelSnapshot -> int, amount: Option<U64>)
    requires i < |data.channels| && SoleKey(data.channels, LabelOf, i) && f(data.channels[i]) == Signed(amount)
    requires ChannelCounters(name, AddedUp(data.channels, LabelOf, f)) in Families(data)
    ensures CounterShown(Families(data), name, LabelOf(data.channels[i]), Given(amount))
  {
    hide AddedUp, SoleKey, WrapI64, Families;
    SoleSeries(data.channels, LabelOf, f, i);
    CastRoundTrip(Given(amount));
  }

  lemma {:induction false} SoleGauge(data: CachedData, name: string, i: nat, f: ChannelSnapshot -> int)
    requires i < |data.channels| && SoleKey(data.channels, LabelOf, i)
    ensures ChannelGauges(name, LastWritten(data.channels, LabelOf, f)) in Families(data) ==>
              GaugeShown(Families(data), name, LabelOf(data.channels[i]), f(data.channels[i]))
  {
    hide LastWritten, SoleKey, Families;
    SoleSeries(data.channels, LabelOf, f, i);
  }

  lemma {:induction false} FamilyMembers(data: CachedData)
    ensures forall j :: 0 <= j < 5 ==> GaugeFamilies(data.channels)[j] in Families(data)
    ensures forall j :: 0 <= j < 8 ==> CounterFamilies(data.channels)[j] in Families(data)
  {
    hide ScalarFamilies, PeerFamilies, LastWritten, AddedUp;
    var g, c := GaugeFamilies(data.channels), CounterFamilies(data.channels);
    var fs := Families(data);
    assert fs == ScalarFamilies(data) + (g + (c + PeerFamilies(data.peers)));
    forall j | 0 <= j < 5
      ensures g[j] in fs
    {
      assert g[j] in g + (c + PeerFamilies(data.peers));
    }
    forall j | 0 <= j < 8
      ensures c[j] in fs
    {
      assert c[j] in c + PeerFamilies(data.peers);
      assert c[j] in g + (c + PeerFamilies(data.peers));
    }
  }

  /** A scrape of a fetched snapshot shows, under the label of a channel that shares it with no other,
      CLN's own 64-bit counters: the signed detour through the snapshot loses nothing. */
  lemma {:induction false} ScrapeShowsCounters(info: GetInfo, channels: seq<PeerChannel>, funds: ListFunds, data: CachedData, i: nat)
    requires SnapshotExact(info, channels, funds, data) && i < |channels|
    requires SoleKey(data.channels, LabelOf, i)
    ensures var c, fs, k := channels[i], Families(data), ShownLabel(channels[i]);
            && CounterShown(fs, "lightning_channel_in_payments_offered_total", k, Given(c.inPaymentsOffered))
            && CounterShown(fs, "lightning_channel_in_payments_fulfilled_total", k, Given(c.inPaymentsFulfilled))
            && CounterShown(fs, "lightning_channel_in_msat_offered_total", k, Given(c.inOfferedMsat))
            && CounterShown(fs, "lightning_channel_in_msat_fulfilled_total", k, Given(c.inFulfilledMsat))
            && CounterShown(fs, "lightning_channel_out_payments_offered_total", k, Given(c.outPaymentsOffered))
            && CounterShown(fs, "lightning_channel_out_payments_fulfilled_total", k, Given(c.outPaymentsFulfilled))
            && CounterShown(fs, "lightning_channel_out_msat_offered_total", k, Given(c.outOfferedMsat))
            && CounterShown(fs, "lightning_channel_out_msat_fulfilled_total", k, Given(c.outFulfilledMsat))
  {
    hide Families, AddedUp, LastWritten, SoleKey, Signed, PeersExact, CounterShown, ScidOf, ShownLabel, Given, LabelOf;
    var c, fs := channels[i], CounterFamilies(data.channels);
    assert data.channels[i] == SnapshotOf(c);
    LabelIsShown(c);
    FamilyMembers(data);
    assert forall j :: 0 <= j < 8 ==> fs[j] in Families(data);
    SoleCounter(data, fs[0].name, i, InPaymentsOffered, c.inPaymentsOffered);
    SoleCounter(data, fs[1].name, i, InPaymentsFulfilled, c.inPaymentsFulfilled);
    SoleCounter(data, fs[2].name, i, InMsatOffered, c.inOfferedMsat);
    SoleCounter(data, fs[3].name, i, InMsatFulfilled, c.inFulfilledMsat);
    SoleCounter(data, fs[4].name, i, OutPaymentsOffered, c.outPaymentsOffered);
    SoleCounter(data, fs[5].name, i, OutPaymentsFulfilled, c.outPaymentsFulfilled);
    SoleCounter(data, fs[6].name, i, OutMsatOffered, c.outOfferedMsat);
    SoleCounter(data, fs[7].name, i, OutMsatFulfilled, c.outFulfilledMsat);
  }

  /** Likewise the gauges show CLN's balances as signed numbers. */
  lemma {:induction false} ScrapeShowsGauges(info: GetInfo, channels: seq<PeerChannel>, funds: ListFunds, data: CachedData, i: nat)
    requires SnapshotExact(info, channels, funds, data) && i < |channels|
    requires SoleKey(data.channels, LabelOf, i)
    ensures var c, fs, k := channels[i], Families(data), ShownLabel(channels[i]);
            && GaugeShown(fs, "lightning_channel_balance_msat", k, WrapI64(Given(c.toUsMsat)))
            && GaugeShown(fs, "lightning_channel_spendable_msat", k, WrapI64(Given(c.spendableMsat)))
            && GaugeShown(fs, "lightning_channel_receivable_msat", k, WrapI64(Given(c.receivableMsat)))
            && GaugeShown(fs, "lightning_channel_capacity_msat", k, WrapI64(Given(c.totalMsat)))
            && GaugeShown(fs, "lightning_channel_htlcs", k, if c.htlcs.Some? then c.htlcs.value else 0)
  {
    hide Families, AddedUp, LastWritten, SoleKey, Signed, PeersExact, GaugeShown, ScidOf, ShownLabel, Given, LabelOf, WrapI64;
    var fs := GaugeFamilies(data.channels);
    assert data.channels[i] == SnapshotOf(channels[i]);
    LabelIsShown(channels[i]);
    SignedIsGiven(channels[i].toUsMsat);
    SignedIsGiven(channels[i].spendableMsat);
    SignedIsGiven(channels[i].receivableMsat);
    SignedIsGiven(channels[i].totalMsat);
    FamilyMembers(data);
    assert forall j :: 0 <= j < 5 ==> fs[j] in Families(data);
    SoleGauge(data, fs[0].name, i, Balance);
    SoleGauge(data, fs[1].name, i, Spendable);
    SoleGauge(data, fs[2].name, i, Receivable);
    SoleGauge(data, fs[3].name, i, Capacity);
    SoleGauge(data, fs[4].name, i, Htlcs);
  }

  /** The scalar gauges of a scrape against CLN's own responses: height and fees of the node, outputs and
      channels of the wallet and their total, liquidity in both directions, and the number of channels. */
  lemma {:induction false} ScrapeShowsTotals(info: GetInfo, channels: seq<PeerChannel>, funds: ListFunds, data: CachedData)
    requires SnapshotExact(info, channels, funds, data)
    ensures var fs := Families(data);
            var outputs := SumBy(funds.outputs, (o: Output) => o.amountMsat as int);
            var ours := SumBy(funds.channels, (c: FundsChannel) => c.ourAmountMsat as int);
            && Scalar("lightning_node_blockheight", info.blockheight) in fs
            && Scalar("lightning_fees_collected_msat", WrapI64(info.feesCollectedMsat)) in fs
            && Scalar("lightning_funds_output_msat", WrapI64(outputs)) in fs
            && Scalar("lightning_funds_channel_msat", WrapI64(ours)) in fs
            && Scalar("lightning_funds_total_msat", WrapI64(outputs + ours)) in fs
            && Scalar("lightning_total_outbound_msat",
                      WrapI64(SumBy(channels, (c: PeerChannel) => Given(c.spendableMsat) as int))) in fs
            && Scalar("lightning_total_inbound_msat",
                      WrapI64(SumBy(channels, (c: PeerChannel) => Given(c.receivableMsat) as int))) in fs
            && Scalar("lightning_channels", |channels|) in fs
            && Scalar("lightning_peers", |data.peers|) in fs
  {
    hide WrapI64, SumBy, Families, PeersExact, SnapshotOf, Given;
    var outputs, ours := (o: Output) => o.amountMsat as int, (c: FundsChannel) => c.ourAmountMsat as int;
    SumCongruent(funds.outputs, OutputAmount, outputs);
    SumCongruent(funds.channels, FundsAmount, ours);
    WrapI64Add(SumBy(funds.outputs, outputs), SumBy(funds.channels, ours));
    LiquidityOf(channels, data.channels);
    ScalarsShown(data);
  }

  lemma {:induction false} ScalarsShown(data: CachedData)
    ensures var fs := Families(data);
            && Scalar("lightning_node_blockheight", data.node.blockheight) in fs
            && Scalar("lightning_fees_collected_msat", data.node.feesCollectedMsat) in fs
            && Scalar("lightning_funds_output_msat", data.funds.outputMsat) in fs
            && Scalar("lightning_funds_channel_msat", data.funds.channelMsat) in fs
            && Scalar("lightning_funds_total_msat", WrapI64(data.funds.outputMsat + data.funds.channelMsat)) in fs
            && Scalar("lightning_total_outbound_msat", WrapI64(SumBy(data.channels, Spendable))) in fs
            && Scalar("lightning_total_inbound_msat", WrapI64(SumBy(data.channels, Receivable))) in fs
            && Scalar("lightning_peers", |data.peers|) in fs
            && Scalar("lightning_channels", |data.channels|) in fs
  {
    hide WrapI64, SumBy, Families;
    ScalarMembers(data);
    var s := ScalarFamilies(data);
    assert s[0] in Families(data) && s[1] in Families(data) && s[2] in Families(data) && s[3] in Families(data);
    assert s[4] in Families(data) && s[5] in Families(data) && s[6] in Families(data) && s[7] in Families(data);
    assert s[8] in Families(data);
  }

  lemma {:induction false} ScalarMembers(data: CachedData)
    ensures forall j :: 0 <= j < 9 ==> ScalarFamilies(data)[j] in Families(data)
  {
    hide WrapI64, SumBy, GaugeFamilies, CounterFamilies, PeerFamilies;
    var s := ScalarFamilies(data);
    assert Families(data) == s + (GaugeFamilies(data.channels) + CounterFamilies(data.channels) + PeerFamilies(data.peers));
    forall j | 0 <= j < 9
      ensures s[j] in Families(data)
    {
      assert s[j] in s;
    }
  }

  lemma {:induction false} LiquidityOf(channels: seq<PeerChannel>, snapshots: seq<ChannelSnapshot>)
    requires |snapshots| == |channels|
    requires forall i :: 0 <= i < |channels| ==> snapshots[i] == SnapshotOf(channels[i])
    ensures WrapI64(SumBy(snapshots, Spendable))
            == WrapI64(SumBy(channels, (c: PeerChannel) => Given(c.spendableMsat) as int))
    ensures WrapI64(SumBy(snapshots, Receivable))
            == WrapI64(SumBy(channels, (c: PeerChannel) => Given(c.receivableMsat) as int))
  {
    if channels == [] {
    } else {
      hide WrapI64;
      var n := |channels| - 1;
      LiquidityOf(channels[..n], snapshots[..n]);
      SignedIsGiven(channels[n].spendableMsat);
      SignedIsGiven(channels[n].receivableMsat);
      WrapStep(SumBy(snapshots[..n], Spendable), SumBy(channels[..n], (c: PeerChannel) => Given(c.spendableMsat) as int),
               Given(channels[n].spendableMsat));
      WrapStep(SumBy(snapshots[..n], Receivable), SumBy(channels[..n], (c: PeerChannel) => Given(c.receivableMsat) as int),
               Given(channels[n].receivableMsat));
    }
  }

  lemma {:induction false} WrapStep(x: int, y: int, a: int)
    requires WrapI64(x) == WrapI64(y)
    ensures WrapI64(x + WrapI64(a)) == WrapI64(y + a)
  {
    hide WrapI64;
    WrapI64Add(x, WrapI64(a));
    WrapTwice(a);
    WrapI64Add(y, a);
  }

  lemma {:induction false} WrapTwice(a: int)
    ensures WrapI64(WrapI64(a)) == WrapI64(a)
  {
  }

  ghost predicate PeerShown(fs: seq<Family>, name: string, id: string, value: int) {
    exists m :: PeerGauges(name, m) in fs && id in m && m[id] == value
  }

  /** Each peer with a channel has its three series: whether some channel of it is connected, how many channels
      it has, and how many of them are connected; and a peer has series only if it has a channel. */
  lemma {:induction false} ScrapeShowsPeers(info: GetInfo, channels: seq<PeerChannel>, funds: ListFunds, data: CachedData, id: string)
    requires SnapshotExact(info, channels, funds, data)
    ensures var fs := Families(data);
            var all := SumBy(channels, (c: PeerChannel) => if c.peerId == id then 1 else 0);
            var connected := SumBy(channels, (c: PeerChannel) => if c.peerId == id && c.peerConnected then 1 else 0);
            && (all > 0 ==>
                  && PeerShown(fs, "lightning_peer_connected", id, if connected > 0 then 1 else 0)
                  && PeerShown(fs, "lightning_peer_channels", id, all)
                  && PeerShown(fs, "lightning_peer_channel_connected", id, connected))
            && (all == 0 ==> forall name, m :: PeerGauges(name, m) in fs ==> id !in m)
  {
    hide ScalarFamilies, GaugeFamilies, CounterFamilies, LastWritten, SumBy, ChannelsWith, ConnectedWith;
    var fs, ps := Families(data), PeerFamilies(data.peers);
    CountsMean(channels, id);
    OnlyPeerGauges(data);
    GaugeShowsLast(data.peers, IdOf, Connected, id);
    GaugeShowsLast(data.peers, IdOf, NumChannels, id);
    GaugeShowsLast(data.peers, IdOf, ConnectedChannels, id);
    if HasPeer(data.peers, id) {
      var i :| 0 <= i < |data.peers| && data.peers[i].id == id;
      SoleSeries(data.peers, IdOf, Connected, i);
      SoleSeries(data.peers, IdOf, NumChannels, i);
      SoleSeries(data.peers, IdOf, ConnectedChannels, i);
      assert ps[0] in fs && ps[1] in fs && ps[2] in fs;
    }
  }

  lemma {:induction false} OnlyPeerGauges(data: CachedData)
    ensures forall name, m :: PeerGauges(name, m) in Families(data) ==> PeerGauges(name, m) in PeerFamilies(data.peers)
    ensures forall j :: 0 <= j < 3 ==> PeerFamilies(data.peers)[j] in Families(data)
  {
    hide LastWritten, AddedUp, SumBy, WrapI64;
  }

  lemma {:induction false} CountsMean(channels: seq<PeerChannel>, id: string)
    ensures ChannelsWith(channels, id) == SumBy(channels, (c: PeerChannel) => if c.peerId == id then 1 else 0)
    ensures ConnectedWith(channels, id)
            == SumBy(channels, (c: PeerChannel) => if c.peerId == id && c.peerConnected then 1 else 0)
    ensures HasChannel(channels, id) <==> ChannelsWith(channels, id) > 0
  {
    if channels == [] {
    } else {
      var init := channels[..|channels| - 1];
      CountsMean(init, id);
      if HasChannel(channels, id) {
        var i :| 0 <= i < |channels| && channels[i].peerId == id;
        assert i < |init| ==> init[i].peerId == id;
      }
      if HasChannel(init, id) {
        var i :| 0 <= i < |init| && init[i].peerId == id;
        assert channels[i].peerId == id;
      }
    }
  }

  /** The peer series do not depend on the order in which the hash map was drained. */
  lemma {:induction false} PeerOrderIrrelevant(channels: seq<PeerChannel>, p1: seq<PeerSnapshot>, p2: seq<PeerSnapshot>)
    requires PeersExact(channels, p1) && PeersExact(channels, p2)
    ensures PeerFamilies(p1) == PeerFamilies(p2)
    ensures |p1| == |p2|
  {
    hide PeersExact, LastWritten;
    SamePeerSeries(channels, p1, p2, Connected);
    SamePeerSeries(channels, p1, p2, NumChannels);
    SamePeerSeries(channels, p1, p2, ConnectedChannels);
    SamePeerCount(channels, p1, p2);
  }

  lemma {:induction false} SamePeer(channels: seq<PeerChannel>, p1: seq<PeerSnapshot>, p2: seq<PeerSnapshot>, i: nat) returns (j: nat)
    requires PeersExact(channels, p1) && PeersExact(channels, p2) && i < |p1|
    ensures j < |p2| && p2[j] == p1[i]
  {
    assert HasPeer(p1, p1[i].id);
    assert HasPeer(p2, p1[i].id);
    j :| 0 <= j < |p2| && p2[j].id == p1[i].id;
  }

  lemma {:induction false} SamePeerCount(channels: seq<PeerChannel>, p1: seq<PeerSnapshot>, p2: seq<PeerSnapshot>)
    requires PeersExact(channels, p1) && PeersExact(channels, p2)
    ensures multiset(p1) == multiset(p2) && |p1| == |p2|
  {
    forall p
      ensures p in p1 <==> p in p2
    {
      if i :| 0 <= i < |p1| && p1[i] == p {
        var j := SamePeer(channels, p1, p2, i);
      }
      if i :| 0 <= i < |p2| && p2[i] == p {
        var j := SamePeer(channels, p2, p1, i);
      }
    }
    SameElements(p1, p2);
    assert |multiset(p1)| == |p1| && |multiset(p2)| == |p2|;
  }

  lemma {:induction false} SamePeerSeries(channels: seq<PeerChannel>, p1: seq<PeerSnapshot>, p2: seq<PeerSnapshot>, f: PeerSnapshot -> int)
    requires PeersExact(channels, p1) && PeersExact(channels, p2)
    ensures LastWritten(p1, IdOf, f) == LastWritten(p2, IdOf, f)
  {
    var s1, s2 := LastWritten(p1, IdOf, f), LastWritten(p2, IdOf, f);
    forall id
      ensures id in s1 <==> id in s2
      ensures id in s1 ==> s1[id] == s2[id]
    {
      GaugeShowsLast(p1, IdOf, f, id);
      GaugeShowsLast(p2, IdOf, f, id);
      if id in s1 {
        var i :| 0 <= i < |p1| && IdOf(p1[i]) == id && s1[id] == f(p1[i]);
        var j := SamePeer(channels, p1, p2, i);
        SoleSeries(p2, IdOf, f, j);
      }
      if id in s2 {
        var i :| 0 <= i < |p2| && IdOf(p2[i]) == id && s2[id] == f(p2[i]);
        var j := SamePeer(channels, p2, p1, i);
      }
    }
  }
}
