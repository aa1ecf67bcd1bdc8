/** The parts of Core Lightning's `getinfo`, `listfunds` and `listpeerchannels` responses that both
    the attestor and the metrics plugin reduce. Amounts are unsigned 64-bit msat. */
module ClnResponses {
  import opened MachineInts
  import opened Wrappers

  datatype OutputStatus = Confirmed | Unconfirmed | Immature | Spent

  datatype Output = Output(amountMsat: U64, status: OutputStatus, reserved: bool)

  datatype FundsChannel = FundsChannel(ourAmountMsat: U64)

  datatype ListFunds = ListFunds(outputs: seq<Output>, channels: seq<FundsChannel>)

  /** Every state other than CHANNELD_NORMAL is treated alike; its name is kept for labels. */
  datatype ChannelState = ChanneldNormal | OtherState(name: string)

  datatype PeerChannel = PeerChannel(
    peerId: string,
    peerConnected: bool,
    state: ChannelState,
    shortChannelId: Option<string>,
    channelId: Option<string>,
    toUsMsat: Option<U64>,
    totalMsat: Option<U64>,
    spendableMsat: Option<U64>,
    receivableMsat: Option<U64>,
    htlcs: Option<nat>,
    inPaymentsOffered: Option<U64>,
    inPaymentsFulfilled: Option<U64>,
    inOfferedMsat: Option<U64>,
    inFulfilledMsat: Option<U64>,
    outPaymentsOffered: Option<U64>,
    outPaymentsFulfilled: Option<U64>,
    outOfferedMsat: Option<U64>,
    outFulfilledMsat: Option<U64>)

  datatype GetInfo = GetInfo(id: string, network: string, blockheight: U32, feesCollectedMsat: U64)

  /** `amount.unwrap_or(0)`. */
  function OrZero(amount: Option<U64>): U64 {
    if amount.Some? then amount.value else 0
  }

  function OutputAmount(o: Output): int { o.amountMsat }

  function SpentAmount(o: Output): int { if o.status.Spent? then o.amountMsat else 0 }

  function OurAmount(c: PeerChannel): int { OrZero(c.toUsMsat) }
}
