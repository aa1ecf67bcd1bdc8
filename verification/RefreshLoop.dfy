/** The refresh loop as it runs: one poll after another overwrites the shared cache and the health
    metrics. Every pass is a run of the concurrent protocol, so what holds of all runs holds of it. */
module RefreshLoop {
  import opened ClnResponses
  import opened MachineInts
  import opened MetricsCache
  import opened MetricsProtocol
  import opened Wrappers

  /** CLN's answers to the calls of one fetch. */
  datatype Poll = Poll(
    info: Result<GetInfo, string>,
    channels: Result<seq<PeerChannel>, string>,
    funds: Result<ListFunds, string>)
  {
    predicate Succeeds() { info.Ok? && channels.Ok? && funds.Ok? }
  }

  /** The cached data are those of the poll. */
  ghost predicate Shows(data: CachedData, poll: Poll) {
    poll.Succeeds() && SnapshotExact(poll.info.value, poll.channels.value, poll.funds.value, data)
  }

  function Succeeded(polls: seq<Poll>): nat {
    if polls == [] then 0
    else Succeeded(polls[..|polls| - 1]) + (if polls[|polls| - 1].Succeeds() then 1 else 0)
  }

  class PluginState {
    var cache: CachedData
    /** The number of refreshes there had been when the timestamp was last set. */
    var timestamp: nat
    var refreshFailures: U64

    /** The protocol steps taken so far. */
    ghost var steps: seq<Step>

    /** Between two ticks the fields are those of the protocol's state. */
    ghost predicate Valid()
      reads this
    {
      && Run(steps).Some?
      && var s := Run(steps).value;
         && s.refresher.Waiting? && s.readers == map[]
         && cache == s.cache && timestamp == s.timestamp && refreshFailures == s.refreshFailures
    }

    constructor ()
      ensures Valid() && steps == []
      ensures cache == EMPTY_CACHE && timestamp == 0 && refreshFailures == 0
    {
      cache, timestamp, refreshFailures := EMPTY_CACHE, 0, 0;
      steps := [];
    }

    /** A successful poll replaces the cache and then sets the timestamp; a failed one is counted and
        changes nothing else. */
    method RefreshOnce(poll: Poll)
      requires Valid()
      modifies this
      ensures Valid() && old(steps) <= steps
      ensures poll.Succeeds() ==>
                && Shows(cache, poll) && steps == old(steps) + Refresh(cache)
                && timestamp == old(timestamp) + 1 && refreshFailures == old(refreshFailures)
      ensures !poll.Succeeds() ==>
                && cache == old(cache) && timestamp == old(timestamp)
                && refreshFailures == WrapU64(old(refreshFailures) + 1)
    {
      hide Run, SnapshotExact, FailedRefresh, Refresh;
      RefreshAccounting(steps);
      var fetched := Fetch(poll.info, poll.channels, poll.funds);
      match fetched {
        case Ok(data) =>
          RefreshCompletes(steps, data);
          cache := data;
          timestamp := timestamp + 1;
          steps := steps + Refresh(data);
        case Err(error) =>
          RefreshFails(steps, error);
          refreshFailures := WrapU64(refreshFailures + 1);
          steps := steps + FailedRefresh(error);
      }
    }

    /** After any number of polls the cache shows the last one that succeeded, or what it showed before
        if none did; the timestamp counts the successes and the failure counter the rest. */
    method RefreshLoop(polls: seq<Poll>)
      requires Valid()
      modifies this
      ensures Valid() && old(steps) <= steps
      ensures timestamp == old(timestamp) + Succeeded(polls)
      ensures refreshFailures == WrapU64(old(refreshFailures) + |polls| - Succeeded(polls))
      ensures if Succeeded(polls) == 0 then cache == old(cache)
              else exists i :: 0 <= i < |polls| && Shows(cache, polls[i])
                               && forall j :: i < j < |polls| ==> !polls[j].Succeeds()
    {
      hide Run, SnapshotExact;
      for i := 0 to |polls|
        invariant Valid() && old(steps) <= steps
        invariant timestamp == old(timestamp) + Succeeded(polls[..i])
        invariant refreshFailures == WrapU64(old(refreshFailures) + i - Succeeded(polls[..i]))
        invariant if Succeeded(polls[..i]) == 0 then cache == old(cache)
                  else exists k :: 0 <= k < i && Shows(cache, polls[k])
                                   && forall j :: k < j < i ==> !polls[j].Succeeds()
      {
        assert polls[..i + 1][..i] == polls[..i];
        RefreshOnce(polls[i]);
      }
      assert polls[..|polls|] == polls;
    }
  }
}
