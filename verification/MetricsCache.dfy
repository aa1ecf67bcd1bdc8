/** The snapshot that the metrics plugin caches: per-channel records, wrapping totals, and per-peer
    aggregates built in two maps. */
module MetricsCache {
  import opened ClnResponses
  import opened MachineInts
  import opened Sums
  import opened Wrappers

  datatype ChannelSnapshot = ChannelSnapshot(
    peerId: string,
    scid: string,
    balanceMsat: I64,
    spendableMsat: I64,
    receivableMsat: I64,
    capacityMsat: I64,
    htlcs: int,
    inPaymentsOffered: I64,
    inPaymentsFulfilled: I64,
    inMsatOffered: I64,
    inMsatFulfilled: I64,
    outPaymentsOffered: I64,
    outPaymentsFulfilled: I64,
    outMsatOffered: I64,
    outMsatFulfilled: I64)

  datatype NodeSnapshot = NodeSnapshot(blockheight: I64, feesCollectedMsat: I64)

  datatype FundsSnapshot = FundsSnapshot(outputMsat: I64, channelMsat: I64)

  datatype PeerSnapshot = PeerSnapshot(id: string, connected: bool, numChannels: nat, connectedChannels: nat)

  datatype CachedData = CachedData(
    node: NodeSnapshot,
    funds: FundsSnapshot,
    channels: seq<ChannelSnapshot>,
    peers: seq<PeerSnapshot>)

  const EMPTY_CACHE := CachedData(NodeSnapshot(0, 0), FundsSnapshot(0, 0), [], [])

  /** An optional unsigned amount as a signed one, absent ones as 0. */
  function Signed(amount: Option<U64>): I64 {
    if amount.Some? then WrapI64(amount.value) else 0
  }

  function ScidOf(c: PeerChannel): string {
    if c.shortChannelId.Some? then c.shortChannelId.value
    else if c.channelId.Some? then c.channelId.value
    else ""
  }

  function SnapshotOf(c: PeerChannel): ChannelSnapshot {
    ChannelSnapshot(
      peerId := c.peerId,
      scid := ScidOf(c),
      balanceMsat := Signed(c.toUsMsat),
      spendableMsat := Signed(c.spendableMsat),
      receivableMsat := Signed(c.receivableMsat),
      capacityMsat := Signed(c.totalMsat),
      htlcs := if c.htlcs.Some? then c.htlcs.value else 0,
      inPaymentsOffered := Signed(c.inPaymentsOffered),
      inPaymentsFulfilled := Signed(c.inPaymentsFulfilled),
      inMsatOffered := Signed(c.inOfferedMsat),
      inMsatFulfilled := Signed(c.inFulfilledMsat),
      outPaymentsOffered := Signed(c.outPaymentsOffered),
      outPaymentsFulfilled := Signed(c.outPaymentsFulfilled),
      outMsatOffered := Signed(c.outOfferedMsat),
      outMsatFulfilled := Signed(c.outFulfilledMsat))
  }

  // ----- the specification of the per-peer aggregates

  /** How many of the channels belong to the peer. */
  function ChannelsWith(channels: seq<PeerChannel>, id: string): nat {
    if channels == [] then 0
    else
      var c := channels[|channels| - 1];
      ChannelsWith(channels[..|channels| - 1], id) + (if c.peerId == id then 1 else 0)
  }

  /** How many of them are connected. */
  function ConnectedWith(channels: seq<PeerChannel>, id: string): nat {
    if channels == [] then 0
    else
      var c := channels[|channels| - 1];
      ConnectedWith(channels[..|channels| - 1], id) + (if c.peerId == id && c.peerConnected then 1 else 0)
  }

  ghost predicate DistinctIds(peers: seq<PeerSnapshot>) {
    forall i, j :: 0 <= i < j < |peers| ==> peers[i].id != peers[j].id
  }

  ghost predicate HasPeer(peers: seq<PeerSnapshot>, id: string) {
    exists i :: 0 <= i < |peers| && peers[i].id == id
  }

  ghost predicate HasChannel(channels: seq<PeerChannel>, id: string) {
    exists i :: 0 <= i < |channels| && channels[i].peerId == id
  }

  /** One entry per peer id that occurs in the channel list, in any order, with its exact counts. */
  ghost predicate PeersExact(channels: seq<PeerChannel>, peers: seq<PeerSnapshot>) {
    && DistinctIds(peers)
    && (forall id :: HasPeer(peers, id) <==> HasChannel(channels, id))
    && forall i :: 0 <= i < |peers| ==>
         && peers[i].numChannels == ChannelsWith(channels, peers[i].id)
         && peers[i].connectedChannels == ConnectedWith(channels, peers[i].id)
         && peers[i].connected == (peers[i].connectedChannels > 0)
  }

  /** The snapshot of a successful fetch, up to the order of its peers. */
  ghost predicate SnapshotExact(info: GetInfo, channels: seq<PeerChannel>, funds: ListFunds, data: CachedData) {
    && data.node == NodeSnapshot(info.blockheight, WrapI64(info.feesCollectedMsat))
    && data.funds.outputMsat == WrapI64(SumBy(funds.outputs, OutputAmount))
    && data.funds.channelMsat == WrapI64(SumBy(funds.channels, FundsAmount))
    && |data.channels| == |channels|
    && (forall i :: 0 <= i < |channels| ==> data.channels[i] == SnapshotOf(channels[i]))
    && PeersExact(channels, data.peers)
  }

  function FundsAmount(c: FundsChannel): int { c.ourAmountMsat }

  // ----- the loops

  lemma {:induction false} CountStep(channels: seq<PeerChannel>, i: nat, id: string)
    requires i < |channels|
    ensures ChannelsWith(channels[..i + 1], id)
            == ChannelsWith(channels[..i], id) + (if channels[i].peerId == id then 1 else 0)
    ensures ConnectedWith(channels[..i + 1], id)
            == ConnectedWith(channels[..i], id) + (if channels[i].peerId == id && channels[i].peerConnected then 1 else 0)
  {
    assert channels[..i + 1][..i] == channels[..i];
  }

  /** An iterator sum of `i64` terms, wrapping at every step. */
  function WrappingSum<T>(items: seq<T>, f: T -> int): I64 {
    if items == [] then 0
    else WrapI64(WrappingSum(items[..|items| - 1], f) + WrapI64(f(items[|items| - 1])))
  }

  lemma {:induction false} WrappingSumExact<T>(items: seq<T>, f: T -> int)
    ensures WrappingSum(items, f) == WrapI64(SumBy(items, f))
  {
    hide WrapI64;
    if items == [] {
      WrapI64Exact(0);
    } else {
      WrappingSumExact(items[..|items| - 1], f);
      WrapI64Add(SumBy(items[..|items| - 1], f), f(items[|items| - 1]));
    }
  }

  lemma {:induction false} HasChannelStep(channels: seq<PeerChannel>, i: nat, id: string)
    requires i < |channels|
    ensures HasChannel(channels[..i + 1], id) <==> HasChannel(channels[..i], id) || channels[i].peerId == id
  {
    if HasChannel(channels[..i + 1], id) && channels[i].peerId != id {
      var j :| 0 <= j < i + 1 && channels[..i + 1][j].peerId == id;
      assert channels[..i][j].peerId == id;
    }
    if HasChannel(channels[..i], id) {
      var j :| 0 <= j < i && channels[..i][j].peerId == id;
      assert channels[..i + 1][j].peerId == id;
    }
    if channels[i].peerId == id {
      assert channels[..i + 1][i].peerId == id;
    }
  }

  lemma {:induction false} NoChannels()
    ensures forall id :: !HasChannel([], id) && ChannelsWith([], id) == 0 && ConnectedWith([], id) == 0
  {
  }

  method CountPeers(channels: seq<PeerChannel>)
    returns (snapshots: seq<ChannelSnapshot>, channelCount: map<string, nat>, connectedCount: map<string, nat>)
    ensures |snapshots| == |channels|
    ensures forall i :: 0 <= i < |channels| ==> snapshots[i] == SnapshotOf(channels[i])
    ensures forall id :: id in channelCount <==> HasChannel(channels, id)
    ensures forall id :: id in channelCount ==> channelCount[id] == ChannelsWith(channels, id)
    ensures forall id :: ConnectedWith(channels, id) == if id in connectedCount then connectedCount[id] else 0
  {
    hide SnapshotOf, HasChannel, ChannelsWith, ConnectedWith;
    NoChannels();
    snapshots, channelCount, connectedCount := [], map[], map[];
    for i := 0 to |channels|
      invariant |snapshots| == i
      invariant forall j :: 0 <= j < i ==> snapshots[j] == SnapshotOf(channels[j])
      invariant forall id :: id in channelCount <==> HasChannel(channels[..i], id)
      invariant forall id :: ChannelsWith(channels[..i], id) == if id in channelCount then channelCount[id] else 0
      invariant forall id :: ConnectedWith(channels[..i], id) == if id in connectedCount then connectedCount[id] else 0
    {
      var c := channels[i];
      var peerId := c.peerId;
      forall id
        ensures HasChannel(channels[..i + 1], id) <==> HasChannel(channels[..i], id) || peerId == id
        ensures ChannelsWith(channels[..i + 1], id) == ChannelsWith(channels[..i], id) + (if peerId == id then 1 else 0)
        ensures ConnectedWith(channels[..i + 1], id)
                == ConnectedWith(channels[..i], id) + (if peerId == id && c.peerConnected then 1 else 0)
      {
        CountStep(channels, i, id);
        HasChannelStep(channels, i, id);
      }
      channelCount := channelCount[peerId := (if peerId in channelCount then channelCount[peerId] else 0) + 1];
      if c.peerConnected {
        connectedCount := connectedCount[peerId := (if peerId in connectedCount then connectedCount[peerId] else 0) + 1];
      }
      snapshots := snapshots + [SnapshotOf(c)];
    }
    assert channels[..|channels|] == channels;
  }

  /** Draining a hash map visits its keys in an arbitrary order. */
  method ListPeers(channelCount: map<string, nat>, connectedCount: map<string, nat>) returns (peers: seq<PeerSnapshot>)
    ensures DistinctIds(peers)
    ensures forall id :: HasPeer(peers, id) <==> id in channelCount
    ensures forall i :: 0 <= i < |peers| ==>
              && peers[i].id in channelCount
              && peers[i].numChannels == channelCount[peers[i].id]
              && peers[i].connectedChannels == (if peers[i].id in connectedCount then connectedCount[peers[i].id] else 0)
              && peers[i].connected == (peers[i].connectedChannels > 0)
  {
    peers := [];
    var remaining := channelCount.Keys;
    while remaining != {}
      invariant remaining <= channelCount.Keys
      invariant DistinctIds(peers)
      invariant forall i :: 0 <= i < |peers| ==> peers[i].id in channelCount && peers[i].id !in remaining
      invariant forall id :: id in channelCount && id !in remaining ==> HasPeer(peers, id)
      invariant forall i :: 0 <= i < |peers| ==>
                  && peers[i].numChannels == channelCount[peers[i].id]
                  && peers[i].connectedChannels == (if peers[i].id in connectedCount then connectedCount[peers[i].id] else 0)
                  && peers[i].connected == (peers[i].connectedChannels > 0)
      decreases remaining
    {
      var id :| id in remaining;
      remaining := remaining - {id};
      var connectedChannels := if id in connectedCount then connectedCount[id] else 0;
      ghost var before := peers;
      peers := peers + [PeerSnapshot(id, connectedChannels > 0, channelCount[id], connectedChannels)];
      assert peers[|before|].id == id;
      forall k | HasPeer(before, k)
        ensures HasPeer(peers, k)
      {
        var i :| 0 <= i < |before| && before[i].id == k;
        assert peers[i].id == k;
      }
    }
  }

  method Fetch(info: Result<GetInfo, string>, channels: Result<seq<PeerChannel>, string>, funds: Result<ListFunds, string>)
    returns (r: Result<CachedData, string>)
    ensures r.Ok? <==> info.Ok? && channels.Ok? && funds.Ok?
    ensures r.Ok? ==> SnapshotExact(info.value, channels.value, funds.value, r.value)
  {
    var i :- info;
    var cs :- channels;
    var fs :- funds;
    var outputMsat := WrappingSum(fs.outputs, OutputAmount);
    var channelMsat := WrappingSum(fs.channels, FundsAmount);
    WrappingSumExact(fs.outputs, OutputAmount);
    WrappingSumExact(fs.channels, FundsAmount);
    var snapshots, channelCount, connectedCount := CountPeers(cs);
    var peers := ListPeers(channelCount, connectedCount);
    r := Ok(CachedData(
      NodeSnapshot(i.blockheight, WrapI64(i.feesCollectedMsat)),
      FundsSnapshot(outputMsat, channelMsat),
      snapshots,
      peers));
  }

  // ----- what the aggregates add up to

  function NumChannels(p: PeerSnapshot): int { p.numChannels }
  function ConnectedChannels(p: PeerSnapshot): int { p.connectedChannels }
  function ConnectedPart(c: PeerChannel): int { if c.peerConnected then 1 else 0 }

  /** Over distinct ids that include `id`, exactly one matches it. */
  lemma {:induction false} OneMatch(peers: seq<PeerSnapshot>, id: string)
    requires DistinctIds(peers)
    ensures SumBy(peers, (p: PeerSnapshot) => if p.id == id then 1 else 0) == if HasPeer(peers, id) then 1 else 0
  {
    var f := (p: PeerSnapshot) => if p.id == id then 1 else 0;
    if peers == [] {
    } else {
      var init, last := peers[..|peers| - 1], peers[|peers| - 1];
      OneMatch(init, id);
      if HasPeer(peers, id) {
        var i :| 0 <= i < |peers| && peers[i].id == id;
        assert i < |init| ==> init[i].id == id;
      }
      if HasPeer(init, id) {
        var i :| 0 <= i < |init| && init[i].id == id;
        assert peers[i].id == id;
      }
      assert SumBy(init, f) == SumBy(init, (p: PeerSnapshot) => if p.id == id then 1 else 0) by {
        SumCongruent(init, f, (p: PeerSnapshot) => if p.id == id then 1 else 0);
      }
    }
  }

  lemma {:induction false} CountsAddUp(channels: seq<PeerChannel>, peers: seq<PeerSnapshot>)
    requires DistinctIds(peers)
    requires forall i :: 0 <= i < |channels| ==> HasPeer(peers, channels[i].peerId)
    ensures SumBy(peers, (p: PeerSnapshot) => ChannelsWith(channels, p.id)) == |channels|
    ensures SumBy(peers, (p: PeerSnapshot) => ConnectedWith(channels, p.id)) == SumBy(channels, ConnectedPart)
    decreases |channels|
  {
    var all := (p: PeerSnapshot) => ChannelsWith(channels, p.id) as int;
    var connected := (p: PeerSnapshot) => ConnectedWith(channels, p.id) as int;
    var zero := (p: PeerSnapshot) => 0;
    if channels == [] {
      SumZero(peers);
      SumCongruent(peers, all, zero);
      SumCongruent(peers, connected, zero);
    } else {
      var init, c := channels[..|channels| - 1], channels[|channels| - 1];
      CountsAddUp(init, peers);
      var here := (p: PeerSnapshot) => if p.id == c.peerId then 1 else 0;
      OneMatch(peers, c.peerId);
      SumSplit(peers, (p: PeerSnapshot) => ChannelsWith(init, p.id) as int, here, all);
      if c.peerConnected {
        SumSplit(peers, (p: PeerSnapshot) => ConnectedWith(init, p.id) as int, here, connected);
      } else {
        SumCongruent(peers, connected, (p: PeerSnapshot) => ConnectedWith(init, p.id) as int);
      }
    }
  }

  lemma {:induction false} SumZero(peers: seq<PeerSnapshot>)
    ensures SumBy(peers, (p: PeerSnapshot) => 0) == 0
  {
    if peers == [] {
    } else {
      SumZero(peers[..|peers| - 1]);
    }
  }

  lemma {:induction false} ConnectedAtMostAll(channels: seq<PeerChannel>, id: string)
    ensures ConnectedWith(channels, id) <= ChannelsWith(channels, id)
    ensures ConnectedWith(channels, id) > 0
            <==> exists i :: 0 <= i < |channels| && channels[i].peerId == id && channels[i].peerConnected
  {
    if channels == [] {
    } else {
      var init := channels[..|channels| - 1];
      ConnectedAtMostAll(init, id);
      assert forall i :: 0 <= i < |init| ==> init[i] == channels[i];
    }
  }

  /** The peer aggregates account for every channel once, and a peer counts as connected exactly when
      one of its channels is. */
  lemma {:induction false} PeersAccountForChannels(channels: seq<PeerChannel>, peers: seq<PeerSnapshot>)
    requires PeersExact(channels, peers)
    ensures SumBy(peers, NumChannels) == |channels|
    ensures SumBy(peers, ConnectedChannels) == SumBy(channels, ConnectedPart)
    ensures forall i :: 0 <= i < |peers| ==>
              && peers[i].connectedChannels <= peers[i].numChannels
              && (peers[i].connected <==>
                    exists j :: 0 <= j < |channels| && channels[j].peerId == peers[i].id && channels[j].peerConnected)
  {
    assert forall i :: 0 <= i < |channels| ==> HasChannel(channels, channels[i].peerId);
    CountsAddUp(channels, peers);
    SumCongruent(peers, NumChannels, (p: PeerSnapshot) => ChannelsWith(channels, p.id) as int);
    SumCongruent(peers, ConnectedChannels, (p: PeerSnapshot) => ConnectedWith(channels, p.id) as int);
    forall i | 0 <= i < |peers| {
      ConnectedAtMostAll(channels, peers[i].id);
    }
  }
}
