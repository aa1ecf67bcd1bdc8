/** Counters driven by CLN notifications, proved to depend only on which well-formed notifications
    arrived and how often. */
module EventCounters {
  import opened MachineInts
  import opened Series
  import opened Sums
  import opened Wrappers

  /** A notification as delivered; `None` payloads do not deserialize. */
  datatype Notification =
    | ChannelOpened
    | HtlcAccepted
    | ForwardEvent(status: Option<string>)
    | ChannelStateChanged(change: Option<StateChange>)

  datatype StateChange = StateChange(oldState: Option<string>, newState: string)

  /** One counter, or one labelled series of a counter family. */
  datatype Counter =
    | Opened
    | Accepted
    | Forwards(status: string)
    | Transitions(oldState: string, newState: string)

  const UNKNOWN_STATE := "unknown"

  /** The counter a notification increments; none for one that does not deserialize. */
  function CounterOf(n: Notification): Option<Counter> {
    match n
    case ChannelOpened => Some(Opened)
    case HtlcAccepted => Some(Accepted)
    case ForwardEvent(status) =>
      if status.Some? then Some(Forwards(status.value)) else None
    case ChannelStateChanged(change) =>
      if change.Some? then
        var old_ := if change.value.oldState.Some? then change.value.oldState.value else UNKNOWN_STATE;
        Some(Transitions(old_, change.value.newState))
      else None
  }

  function One(c: Counter): int { 1 }
  function Same(c: Counter): Counter { c }

  /** The counters incremented by a list of notifications, in order. */
  function Hits(ns: seq<Notification>): seq<Counter> {
    if ns == [] then []
    else
      var c := CounterOf(ns[|ns| - 1]);
      Hits(ns[..|ns| - 1]) + (if c.Some? then [c.value] else [])
  }

  /** A labelled series with one increment more of one label, which starts at 0. */
  function OneMore<K(==)>(series: map<K, U64>, k: K): map<K, U64> {
    var n: int := if k in series then series[k] else 0;
    series[k := WrapU64(n + 1)]
  }

  class Counters {
    var channelOpenedTotal: U64
    var htlcAcceptedTotal: U64
    var forwardEventsTotal: map<string, U64>
    var channelStateChangesTotal: map<(string, string), U64>

    /** Every increment so far, in order. */
    ghost var hits: seq<Counter>

    /** All counters together are the series of the increments; the two plain counters exist from the start. */
    ghost predicate Valid()
      reads this
    {
      var series := AddedUp(hits, Same, One);
      && channelOpenedTotal == ValueAt(series, Opened)
      && htlcAcceptedTotal == ValueAt(series, Accepted)
      && (forall s :: s in forwardEventsTotal <==> Forwards(s) in series)
      && (forall s :: s in forwardEventsTotal ==> forwardEventsTotal[s] == series[Forwards(s)])
      && (forall o, n :: (o, n) in channelStateChangesTotal <==> Transitions(o, n) in series)
      && (forall o, n :: (o, n) in channelStateChangesTotal ==>
            channelStateChangesTotal[(o, n)] == series[Transitions(o, n)])
    }

    constructor ()
      ensures Valid() && hits == []
    {
      channelOpenedTotal, htlcAcceptedTotal := 0, 0;
      forwardEventsTotal, channelStateChangesTotal := map[], map[];
      hits := [];
    }

    method OnForwardEvent(status: string)
      requires Valid()
      modifies this
      ensures Valid() && hits == old(hits) + [Forwards(status)]
      ensures forwardEventsTotal == old(OneMore(forwardEventsTotal, status))
      ensures unchanged(`channelOpenedTotal, `htlcAcceptedTotal, `channelStateChangesTotal)
    {
      AddedUpSnoc(hits, Same, One, Forwards(status));
      forwardEventsTotal := Incremented(forwardEventsTotal, status, 1);
      hits := hits + [Forwards(status)];
    }

    method OnChannelOpened()
      requires Valid()
      modifies this
      ensures Valid() && hits == old(hits) + [Opened]
      ensures channelOpenedTotal == WrapU64(old(channelOpenedTotal) + 1)
      ensures unchanged(`htlcAcceptedTotal, `forwardEventsTotal, `channelStateChangesTotal)
    {
      AddedUpSnoc(hits, Same, One, Opened);
      channelOpenedTotal := WrapU64(channelOpenedTotal + 1);
      hits := hits + [Opened];
    }

    method OnChannelStateChanged(change: StateChange)
      requires Valid()
      modifies this
      ensures Valid()
      ensures hits == old(hits) + [Transitions(if change.oldState.Some? then change.oldState.value else UNKNOWN_STATE,
                                               change.newState)]
      ensures change.oldState.Some? ==>
                channelStateChangesTotal == old(OneMore(channelStateChangesTotal, (change.oldState.value, change.newState)))
      ensures change.oldState.None? ==>
                channelStateChangesTotal == old(OneMore(channelStateChangesTotal, ("unknown", change.newState)))
      ensures unchanged(`channelOpenedTotal, `htlcAcceptedTotal, `forwardEventsTotal)
    {
      var old_ := if change.oldState.Some? then change.oldState.value else UNKNOWN_STATE;
      AddedUpSnoc(hits, Same, One, Transitions(old_, change.newState));
      channelStateChangesTotal := Incremented(channelStateChangesTotal, (old_, change.newState), 1);
      hits := hits + [Transitions(old_, change.newState)];
    }

    method OnHtlcAccepted()
      requires Valid()
      modifies this
      ensures Valid() && hits == old(hits) + [Accepted]
      ensures htlcAcceptedTotal == WrapU64(old(htlcAcceptedTotal) + 1)
      ensures unchanged(`channelOpenedTotal, `forwardEventsTotal, `channelStateChangesTotal)
    {
      AddedUpSnoc(hits, Same, One, Accepted);
      htlcAcceptedTotal := WrapU64(htlcAcceptedTotal + 1);
      hits := hits + [Accepted];
    }

    /** The subscription and hook handlers, notification by notification. One that does not deserialize is
        an error and changes nothing. */
    method Handle(n: Notification) returns (r: Result<(), string>)
      requires Valid()
      modifies this
      ensures Valid()
      ensures hits == old(hits) + (if CounterOf(n).Some? then [CounterOf(n).value] else [])
      ensures r.Err? <==> n == ForwardEvent(None) || n == ChannelStateChanged(None)
      ensures channelOpenedTotal == if n.ChannelOpened? then WrapU64(old(channelOpenedTotal) + 1) else old(channelOpenedTotal)
      ensures htlcAcceptedTotal == if n.HtlcAccepted? then WrapU64(old(htlcAcceptedTotal) + 1) else old(htlcAcceptedTotal)
      ensures forwardEventsTotal == match n
                                    case ForwardEvent(Some(status)) => old(OneMore(forwardEventsTotal, status))
                                    case _ => old(forwardEventsTotal)
      ensures channelStateChangesTotal ==
              match n
              case ChannelStateChanged(Some(StateChange(Some(o), s))) => old(OneMore(channelStateChangesTotal, (o, s)))
              case ChannelStateChanged(Some(StateChange(None, s))) => old(OneMore(channelStateChangesTotal, ("unknown", s)))
              case _ => old(channelStateChangesTotal)
    {
      r := Ok(());
      match n {
        case ChannelOpened => OnChannelOpened();
        case HtlcAccepted => OnHtlcAccepted();
        case ForwardEvent(status) =>
          if status.None? {
            return Err("forward_event");
          }
          OnForwardEvent(status.value);
        case ChannelStateChanged(change) =>
          if change.None? {
            return Err("channel_state_changed");
          }
          OnChannelStateChanged(change.value);
      }
    }
  }

  /** The fields after handling any notifications, in any order, are the numbers of notifications of each
      kind and label, modulo 2^64. */
  lemma {:induction false} FieldsAreCounts(counters: Counters, ns: seq<Notification>)
    requires counters.Valid() && counters.hits == Hits(ns)
    ensures counters.channelOpenedTotal == WrapU64(CountIf(ns, (n: Notification) => n.ChannelOpened?))
    ensures counters.htlcAcceptedTotal == WrapU64(CountIf(ns, (n: Notification) => n.HtlcAccepted?))
    ensures forall status :: ValueAt(counters.forwardEventsTotal, status)
                             == WrapU64(CountIf(ns, (n: Notification) => n == ForwardEvent(Some(status))))
    ensures forall o, s :: ValueAt(counters.channelStateChangesTotal, (o, s)) == WrapU64(CountIf(ns, ChangesBetween(o, s)))
  {
    OpenedIsCount(ns);
    AcceptedIsCount(ns);
    forall status
      ensures ValueAt(counters.forwardEventsTotal, status)
              == WrapU64(CountIf(ns, (n: Notification) => n == ForwardEvent(Some(status))))
    {
      ForwardsIsCount(ns, status);
    }
    forall o, s
      ensures ValueAt(counters.channelStateChangesTotal, (o, s)) == WrapU64(CountIf(ns, ChangesBetween(o, s)))
    {
      TransitionsIsCount(ns, o, s);
    }
  }

  /** Handling one more notification extends the increments as `Handle` does. */
  lemma {:induction false} HitsSnoc(ns: seq<Notification>, n: Notification)
    ensures Hits(ns + [n]) == Hits(ns) + (if CounterOf(n).Some? then [CounterOf(n).value] else [])
  {
    assert (ns + [n])[..|ns|] == ns;
  }

  lemma {:induction false} AddedUpSnoc<T, K>(items: seq<T>, key: T -> K, f: T -> int, x: T)
    ensures AddedUp(items + [x], key, f) == Incremented(AddedUp(items, key, f), key(x), f(x))
  {
    assert (items + [x])[..|items|] == items;
  }

  // ----- what the counters depend on

  /** 1 for each notification that increments the counter. */
  function Hit(c: Counter): Notification -> int {
    (n: Notification) => if CounterOf(n) == Some(c) then 1 else 0
  }

  lemma {:induction false} HitsCount(ns: seq<Notification>, c: Counter)
    ensures SumBy(Hits(ns), Share(Same, One, c)) == SumBy(ns, Hit(c))
  {
    if ns == [] {
    } else {
      var init, k := ns[..|ns| - 1], CounterOf(ns[|ns| - 1]);
      HitsCount(init, c);
      if k.Some? {
        SumSnoc(Hits(init), k.value, Share(Same, One, c));
        assert Hits(ns) == Hits(init) + [k.value];
        var last := ns[|ns| - 1];
        ShareAt(Same, One, c, k.value);
        assert Same(k.value) == k.value && One(k.value) == 1;
        assert Share(Same, One, c)(k.value) == if k.value == c then 1 else 0;
        assert Hit(c)(last) == if CounterOf(last) == Some(c) then 1 else 0;
      } else {
        assert Hits(ns) == Hits(init);
      }
    }
  }

  /** Every counter is the number of notifications that name it, modulo 2^64, and a labelled series
      exists exactly when there was one. */
  lemma {:induction false} CounterIsCount(ns: seq<Notification>, c: Counter)
    ensures ValueAt(AddedUp(Hits(ns), Same, One), c) == WrapU64(SumBy(ns, Hit(c)))
    ensures c in AddedUp(Hits(ns), Same, One) <==> SumBy(ns, Hit(c)) > 0
  {
    CounterShowsSum(Hits(ns), Same, One, c);
    HitsCount(ns, c);
    SomeShare(Hits(ns), c);
  }

  // ----- the counters against the notifications themselves

  function CountIf(ns: seq<Notification>, p: Notification -> bool): nat {
    if ns == [] then 0
    else CountIf(ns[..|ns| - 1], p) + (if p(ns[|ns| - 1]) then 1 else 0)
  }

  lemma {:induction false} HitsCountIf(ns: seq<Notification>, c: Counter, p: Notification -> bool)
    requires forall n :: p(n) <==> CounterOf(n) == Some(c)
    ensures ValueAt(AddedUp(Hits(ns), Same, One), c) == WrapU64(CountIf(ns, p))
  {
    hide WrapU64, AddedUp, Hits, CounterOf;
    CounterIsCount(ns, c);
    SumIsCount(ns, c, p);
  }

  lemma {:induction false} SumIsCount(ns: seq<Notification>, c: Counter, p: Notification -> bool)
    requires forall n :: p(n) <==> CounterOf(n) == Some(c)
    ensures SumBy(ns, Hit(c)) == CountIf(ns, p)
  {
    hide CounterOf;
    if ns == [] {
    } else {
      SumIsCount(ns[..|ns| - 1], c, p);
      assert Hit(c)(ns[|ns| - 1]) == if CounterOf(ns[|ns| - 1]) == Some(c) then 1 else 0;
    }
  }

  /** The channel counter is the number of channel_opened notifications. */
  lemma {:induction false} OpenedIsCount(ns: seq<Notification>)
    ensures ValueAt(AddedUp(Hits(ns), Same, One), Opened) == WrapU64(CountIf(ns, (n: Notification) => n.ChannelOpened?))
  {
    HitsCountIf(ns, Opened, (n: Notification) => n.ChannelOpened?);
  }

  /** The HTLC counter is the number of htlc_accepted calls. */
  lemma {:induction false} AcceptedIsCount(ns: seq<Notification>)
    ensures ValueAt(AddedUp(Hits(ns), Same, One), Accepted) == WrapU64(CountIf(ns, (n: Notification) => n.HtlcAccepted?))
  {
    HitsCountIf(ns, Accepted, (n: Notification) => n.HtlcAccepted?);
  }

  /** The series of a status is the number of well-formed forward events with that status. */
  lemma {:induction false} ForwardsIsCount(ns: seq<Notification>, status: string)
    ensures ValueAt(AddedUp(Hits(ns), Same, One), Forwards(status))
            == WrapU64(CountIf(ns, (n: Notification) => n == ForwardEvent(Some(status))))
  {
    HitsCountIf(ns, Forwards(status), (n: Notification) => n == ForwardEvent(Some(status)));
  }

  /** A well-formed change to the new state from the old one, a missing old state being "unknown". */
  function ChangesBetween(o: string, s: string): Notification -> bool {
    (n: Notification) =>
      n == ChannelStateChanged(Some(StateChange(Some(o), s)))
      || (o == "unknown" && n == ChannelStateChanged(Some(StateChange(None, s))))
  }

  /** The series of two states is the number of such changes. */
  lemma {:induction false} TransitionsIsCount(ns: seq<Notification>, o: string, s: string)
    ensures ValueAt(AddedUp(Hits(ns), Same, One), Transitions(o, s)) == WrapU64(CountIf(ns, ChangesBetween(o, s)))
  {
    HitsCountIf(ns, Transitions(o, s), ChangesBetween(o, s));
  }

  lemma {:induction false} SomeShare(hits: seq<Counter>, c: Counter)
    ensures SumBy(hits, Share(Same, One, c)) >= 0
    ensures SumBy(hits, Share(Same, One, c)) > 0 <==> exists i :: 0 <= i < |hits| && hits[i] == c
  {
    if hits == [] {
    } else {
      var init, last := hits[..|hits| - 1], hits[|hits| - 1];
      SomeShare(init, c);
      ShareAt(Same, One, c, last);
      assert Same(last) == last && One(last) == 1;
      assert forall i :: 0 <= i < |init| ==> init[i] == hits[i];
    }
  }

  /** Delivery order is irrelevant: only the multiset of notifications counts. */
  lemma {:induction false} OrderIrrelevant(a: seq<Notification>, b: seq<Notification>)
    requires multiset(a) == multiset(b)
    ensures AddedUp(Hits(a), Same, One) == AddedUp(Hits(b), Same, One)
  {
    forall c
      ensures c in AddedUp(Hits(a), Same, One) <==> c in AddedUp(Hits(b), Same, One)
      ensures ValueAt(AddedUp(Hits(a), Same, One), c) == ValueAt(AddedUp(Hits(b), Same, One), c)
    {
      CounterIsCount(a, c);
      CounterIsCount(b, c);
      SumPermutation(a, b, Hit(c));
    }
    assert forall c :: c in AddedUp(Hits(a), Same, One) ==>
      AddedUp(Hits(a), Same, One)[c] == ValueAt(AddedUp(Hits(a), Same, One), c);
    assert forall c :: c in AddedUp(Hits(b), Same, One) ==>
      AddedUp(Hits(b), Same, One)[c] == ValueAt(AddedUp(Hits(b), Same, One), c);
  }

  // ----- what the counters of a family add up to

  function CountsAmong(counters: seq<Counter>): Notification -> int {
    (n: Notification) => if CounterOf(n).Some? && CounterOf(n).value in counters then 1 else 0
  }

  lemma {:induction false} HitsAmong(ns: seq<Notification>, counters: seq<Counter>)
    ensures SumBy(Hits(ns), Within(Same, One, counters)) == SumBy(ns, CountsAmong(counters))
  {
    if ns == [] {
    } else {
      var init, k := ns[..|ns| - 1], CounterOf(ns[|ns| - 1]);
      HitsAmong(init, counters);
      if k.Some? {
        SumSnoc(Hits(init), k.value, Within(Same, One, counters));
        assert Hits(ns) == Hits(init) + [k.value];
        assert Same(k.value) == k.value && One(k.value) == 1;
      } else {
        assert Hits(ns) == Hits(init);
      }
    }
  }

  /** Over any listing of counters without repetition, the values add up to the number of notifications
      that name one of them, modulo 2^64. */
  lemma {:induction false} CountersCoverEvents(ns: seq<Notification>, counters: seq<Counter>)
    requires forall i, j :: 0 <= i < j < |counters| ==> counters[i] != counters[j]
    ensures WrapU64(SumBy(counters, c => ValueAt(AddedUp(Hits(ns), Same, One), c)))
            == WrapU64(SumBy(ns, CountsAmong(counters)))
  {
    hide WrapU64;
    CountersAddUp(Hits(ns), Same, One, counters);
    HitsAmong(ns, counters);
  }

  function WellFormedForward(n: Notification): int { if n.ForwardEvent? && n.status.Some? then 1 else 0 }
  function WellFormedChange(n: Notification): int { if n.ChannelStateChanged? && n.change.Some? then 1 else 0 }

  /** Over any listing of statuses that covers what arrived, the series of forward events add up to the
      number of well-formed forward events, modulo 2^64, whatever else arrived. */
  lemma {:induction false} ForwardsAddUp(ns: seq<Notification>, statuses: seq<string>)
    requires forall i, j :: 0 <= i < j < |statuses| ==> statuses[i] != statuses[j]
    requires forall n :: n in ns && WellFormedForward(n) == 1 ==> n.status.value in statuses
    ensures WrapU64(SumBy(statuses, s => ValueAt(AddedUp(Hits(ns), Same, One), Forwards(s))))
            == WrapU64(SumBy(ns, WellFormedForward))
  {
    hide WrapU64, AddedUp, Hits;
    var counters := seq(|statuses|, i requires 0 <= i < |statuses| => Forwards(statuses[i]));
    CountersCoverEvents(ns, counters);
    SumMapped(statuses, counters, s => ValueAt(AddedUp(Hits(ns), Same, One), Forwards(s)),
              c => ValueAt(AddedUp(Hits(ns), Same, One), c));
    forall n | n in ns
      ensures CountsAmong(counters)(n) == WellFormedForward(n)
    {
      if WellFormedForward(n) == 1 {
        var i :| 0 <= i < |statuses| && statuses[i] == n.status.value;
        assert counters[i] == Forwards(n.status.value);
      }
    }
    SumCongruent(ns, CountsAmong(counters), WellFormedForward);
  }

  /** Likewise the series of state changes, over any listing of pairs of states. */
  lemma {:induction false} TransitionsAddUp(ns: seq<Notification>, pairs: seq<(string, string)>)
    requires forall i, j :: 0 <= i < j < |pairs| ==> pairs[i] != pairs[j]
    requires forall n :: n in ns && WellFormedChange(n) == 1 ==>
               (CounterOf(n).value.oldState, CounterOf(n).value.newState) in pairs
    ensures WrapU64(SumBy(pairs, (p: (string, string)) => ValueAt(AddedUp(Hits(ns), Same, One), Transitions(p.0, p.1))))
            == WrapU64(SumBy(ns, WellFormedChange))
  {
    hide WrapU64, AddedUp, Hits;
    var counters := seq(|pairs|, i requires 0 <= i < |pairs| => Transitions(pairs[i].0, pairs[i].1));
    forall i, j | 0 <= i < j < |counters|
      ensures counters[i] != counters[j]
    {
      assert pairs[i] != pairs[j];
    }
    CountersCoverEvents(ns, counters);
    SumMapped(pairs, counters,
              (p: (string, string)) => ValueAt(AddedUp(Hits(ns), Same, One), Transitions(p.0, p.1)),
              c => ValueAt(AddedUp(Hits(ns), Same, One), c));
    forall n | n in ns
      ensures CountsAmong(counters)(n) == WellFormedChange(n)
    {
      if WellFormedChange(n) == 1 {
        var c := CounterOf(n).value;
        var i :| 0 <= i < |pairs| && pairs[i] == (c.oldState, c.newState);
        assert counters[i] == c;
      }
    }
    SumCongruent(ns, CountsAmong(counters), WellFormedChange);
  }

  /** More notifications never lower a count, so counters only grow until they wrap. */
  lemma {:induction false} CountsMonotone(ns: seq<Notification>, more: seq<Notification>, c: Counter)
    ensures SumBy(ns + more, Hit(c)) >= SumBy(ns, Hit(c)) >= 0
    ensures SumBy(ns + more, Hit(c)) < TWO_64 ==>
              ValueAt(AddedUp(Hits(ns), Same, One), c) <= ValueAt(AddedUp(Hits(ns + more), Same, One), c)
  {
    hide AddedUp, Hits, SumBy, WrapU64;
    SumAppend(ns, more, Hit(c));
    assert ns[..|ns|] == ns && more[..|more|] == more;
    SumDominated(ns, |ns|, Hit(c), Hit(c));
    SumDominated(more, |more|, Hit(c), Hit(c));
    CounterIsCount(ns, c);
    CounterIsCount(ns + more, c);
    if SumBy(ns + more, Hit(c)) < TWO_64 {
      SmallUnwrapped(SumBy(ns, Hit(c)));
      SmallUnwrapped(SumBy(ns + more, Hit(c)));
    }
  }

  lemma {:induction false} SmallUnwrapped(n: int)
    requires 0 <= n < TWO_64
    ensures WrapU64(n) == n
  {
  }
}
