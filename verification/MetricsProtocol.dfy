/** The metrics plugin as a concurrent state machine: the refresh loop, any number of scrapes and
    status calls, and event handlers share a cache behind a read-write lock and atomic metrics. Every
    interleaving of their atomic actions is a run. */
module MetricsProtocol {
  import opened Collector
  import opened EventCounters
  import opened MachineInts
  import opened MetricsCache
  import opened Series
  import Sums
  import opened Wrappers

  datatype Field = Node | Funds | Channels | Peers

  /** Where the refresh loop is. A successful fetch writes the cache field by field while it holds the
      write lock, releases the lock, and only then sets the timestamp. */
  datatype Refresher =
    | Waiting
    | Fetching
    | Failed
    | Fetched(data: CachedData)
    | Writing(data: CachedData, written: set<Field>)
    | Stamping

  datatype Lock = Readers(count: nat) | Writer

  /** A scrape or status call that holds the read lock, and what it has read so far. */
  datatype Reader = Reader(seen: CachedData, fields: set<Field>)

  /** What a finished reader used, and how many refreshes had been published when it finished. */
  datatype Observation = Observation(data: CachedData, fields: set<Field>, generation: nat)

  datatype State = State(
    cache: CachedData,
    lock: Lock,
    refresher: Refresher,
    readers: map<nat, Reader>,
    timestamp: nat,
    refreshFailures: U64,
    counters: map<Counter, U64>,
    handlers: map<nat, Counter>,
    // history
    attempts: seq<Result<CachedData, string>>,
    published: seq<CachedData>,
    observations: seq<Observation>,
    handled: seq<Counter>)

  const INIT := State(EMPTY_CACHE, Readers(0), Waiting, map[], 0, 0, map[], map[], [], [], [], [])

  /** One atomic action of one actor. Reader and handler numbers identify concurrent calls. */
  datatype Step =
    | Tick
    | FetchReturns(result: Result<CachedData, string>)
    | CountFailure
    | AcquireWrite
    | WriteField(field: Field)
    | ReleaseWrite
    | SetTimestamp
    | AcquireRead(reader: nat)
    | ReadField(reader: nat, field: Field)
    | ReleaseRead(reader: nat)
    | LookUpCounter(handler: nat, counter: Counter)
    | Increment(handler: nat)

  function Copied(to: CachedData, from: CachedData, field: Field): CachedData {
    match field
    case Node => to.(node := from.node)
    case Funds => to.(funds := from.funds)
    case Channels => to.(channels := from.channels)
    case Peers => to.(peers := from.peers)
  }

  /** The state after a step; `None` when the step is not enabled. */
  function Do(s: State, step: Step): Option<State> {
    match step
    case Tick =>
      if s.refresher.Waiting? then Some(s.(refresher := Fetching)) else None
    case FetchReturns(result) =>
      if !s.refresher.Fetching? then None
      else
        Some(s.(refresher := if result.Ok? then Fetched(result.value) else Failed,
                attempts := s.attempts + [result]))
    case CountFailure =>
      if !s.refresher.Failed? then None
      else Some(s.(refresher := Waiting, refreshFailures := WrapU64(s.refreshFailures + 1)))
    case AcquireWrite =>
      if s.refresher.Fetched? && s.lock == Readers(0) then
        Some(s.(lock := Writer, refresher := Writing(s.refresher.data, {})))
      else None
    case WriteField(field) =>
      if !s.refresher.Writing? then None
      else
        Some(s.(cache := Copied(s.cache, s.refresher.data, field),
                refresher := Writing(s.refresher.data, s.refresher.written + {field})))
    case ReleaseWrite =>
      if s.refresher.Writing? && s.refresher.written == {Node, Funds, Channels, Peers} then
        Some(s.(lock := Readers(0), refresher := Stamping, published := s.published + [s.refresher.data]))
      else None
    case SetTimestamp =>
      if !s.refresher.Stamping? then None
      else Some(s.(refresher := Waiting, timestamp := |s.published|))
    case AcquireRead(reader) =>
      if s.lock.Readers? && reader !in s.readers then
        Some(s.(lock := Readers(s.lock.count + 1), readers := s.readers[reader := Reader(EMPTY_CACHE, {})]))
      else None
    case ReadField(reader, field) =>
      if reader !in s.readers then None
      else
        var r := s.readers[reader];
        Some(s.(readers := s.readers[reader := Reader(Copied(r.seen, s.cache, field), r.fields + {field})]))
    case ReleaseRead(reader) =>
      if reader in s.readers && s.lock.Readers? && s.lock.count > 0 then
        var r := s.readers[reader];
        Some(s.(lock := Readers(s.lock.count - 1),
                readers := s.readers - {reader},
                observations := s.observations + [Observation(r.seen, r.fields, |s.published|)]))
      else None
    case LookUpCounter(handler, counter) =>
      if handler in s.handlers then None
      else
        Some(s.(handlers := s.handlers[handler := counter],
                counters := s.counters[counter := ValueAt(s.counters, counter)]))
    case Increment(handler) =>
      if handler !in s.handlers then None
      else
        var counter := s.handlers[handler];
        Some(s.(handlers := s.handlers - {handler},
                counters := Incremented(s.counters, counter, 1),
                handled := s.handled + [counter]))
  }

  /** The state after a whole run from the initial state. */
  function Run(steps: seq<Step>): Option<State> {
    if steps == [] then Some(INIT)
    else
      var s :- Run(steps[..|steps| - 1]);
      Do(s, steps[|steps| - 1])
  }

  // ----- the invariant

  /** The data of the n-th refresh; generation 0 is the cache as the plugin starts. */
  function Generation(published: seq<CachedData>, n: nat): CachedData
    requires n <= |published|
  {
    if n == 0 then EMPTY_CACHE else published[n - 1]
  }

  ghost predicate AgreesOn(a: CachedData, b: CachedData, fields: set<Field>) {
    && (Node in fields ==> a.node == b.node)
    && (Funds in fields ==> a.funds == b.funds)
    && (Channels in fields ==> a.channels == b.channels)
    && (Peers in fields ==> a.peers == b.peers)
  }

  const ALL_FIELDS := {Node, Funds, Channels, Peers}

  ghost predicate CacheInv(s: State) {
    var current := Generation(s.published, |s.published|);
    && (s.refresher.Writing? <==> s.lock.Writer?)
    && (s.refresher.Writing? ==>
          AgreesOn(s.cache, s.refresher.data, s.refresher.written)
          && AgreesOn(s.cache, current, ALL_FIELDS - s.refresher.written))
    && (!s.refresher.Writing? ==> s.cache == current)
  }

  ghost predicate LockInv(s: State) {
    && (s.lock.Writer? ==> s.readers == map[])
    && (s.lock.Readers? ==> s.lock.count == |s.readers|)
  }

  ghost predicate ReadersInv(s: State) {
    forall r :: r in s.readers ==> AgreesOn(s.readers[r].seen, s.cache, s.readers[r].fields)
  }

  /** An observation is the matching part of one generation. */
  ghost predicate Untorn(published: seq<CachedData>, o: Observation) {
    o.generation <= |published| && AgreesOn(o.data, Generation(published, o.generation), o.fields)
  }

  ghost predicate ObservationsInv(s: State) {
    && (forall i :: 0 <= i < |s.observations| ==> Untorn(s.published, s.observations[i]))
    && (forall i, j :: 0 <= i < j < |s.observations| ==> s.observations[i].generation <= s.observations[j].generation)
  }

  function Successes(attempts: seq<Result<CachedData, string>>): seq<CachedData> {
    if attempts == [] then []
    else
      var a := attempts[|attempts| - 1];
      Successes(attempts[..|attempts| - 1]) + (if a.Ok? then [a.value] else [])
  }

  function Failures(attempts: seq<Result<CachedData, string>>): nat {
    if attempts == [] then 0
    else Failures(attempts[..|attempts| - 1]) + (if attempts[|attempts| - 1].Err? then 1 else 0)
  }

  /** Fetched data that the loop has not published yet. */
  function InFlight(r: Refresher): seq<CachedData> {
    if r.Fetched? || r.Writing? then [r.data] else []
  }

  ghost predicate PublishedInv(s: State) {
    s.published + InFlight(s.refresher) == Successes(s.attempts)
  }

  ghost predicate FailuresInv(s: State) {
    s.refreshFailures == WrapU64(Failures(s.attempts) - (if s.refresher.Failed? then 1 else 0))
  }

  ghost predicate TimestampInv(s: State) {
    s.timestamp + (if s.refresher.Stamping? then 1 else 0) == |s.published|
  }

  ghost predicate AccountingInv(s: State) { PublishedInv(s) && FailuresInv(s) && TimestampInv(s) }

  ghost predicate CountersInv(s: State) {
    && (forall c :: ValueAt(s.counters, c) == ValueAt(AddedUp(s.handled, Same, One), c))
    && (forall h :: h in s.handlers ==> s.handlers[h] in s.counters)
  }

  ghost predicate Inv(s: State) {
    CacheInv(s) && LockInv(s) && ReadersInv(s) && ObservationsInv(s) && AccountingInv(s) && CountersInv(s)
  }

  // ----- every step keeps it

  lemma {:induction false} StepKeepsCache(s: State, step: Step)
    requires CacheInv(s) && Do(s, step).Some?
    ensures CacheInv(Do(s, step).value)
  {
    hide Incremented, ValueAt;
  }

  lemma {:induction false} ReaderCounts(readers: map<nat, Reader>, id: nat, r: Reader)
    ensures id !in readers ==> |readers[id := r]| == |readers| + 1
    ensures id in readers ==> |readers[id := r]| == |readers| && |readers - {id}| == |readers| - 1
  {
    assert readers[id := r].Keys == readers.Keys + {id};
    assert (readers - {id}).Keys == readers.Keys - {id};
  }

  lemma {:induction false} StepKeepsLock(s: State, step: Step)
    requires s.refresher.Writing? ==> s.lock.Writer?
    requires LockInv(s) && Do(s, step).Some?
    ensures LockInv(Do(s, step).value)
  {
    hide Copied, Incremented, ValueAt;
    match step {
      case ReleaseRead(reader) =>
        ReaderCounts(s.readers, reader, s.readers[reader]);
      case AcquireRead(reader) =>
        ReaderCounts(s.readers, reader, Do(s, step).value.readers[reader]);
      case AcquireWrite =>
        assert |s.readers| == 0;
      case ReadField(reader, field) =>
        ReaderCounts(s.readers, reader, Do(s, step).value.readers[reader]);
      case _ =>
    }
  }

  lemma {:induction false} StepKeepsReaders(s: State, step: Step)
    requires s.refresher.Writing? ==> s.lock.Writer?
    requires LockInv(s) && ReadersInv(s) && Do(s, step).Some?
    ensures ReadersInv(Do(s, step).value)
  {
    hide Incremented;
  }

  lemma {:induction false} StepKeepsObservations(s: State, step: Step)
    requires CacheInv(s) && ReadersInv(s) && ObservationsInv(s) && Do(s, step).Some?
    ensures ObservationsInv(Do(s, step).value)
  {
    var t := Do(s, step).value;
    match step {
      case ReleaseWrite =>
        forall i | 0 <= i < |t.observations|
          ensures Untorn(t.published, t.observations[i])
        {
          assert Untorn(s.published, s.observations[i]);
        }
      case ReleaseRead(reader) =>
        forall i | 0 <= i < |t.observations|
          ensures Untorn(t.published, t.observations[i])
        {
          if i < |s.observations| {
            assert Untorn(s.published, s.observations[i]);
          }
        }
        assert forall i :: 0 <= i < |s.observations| ==> Untorn(s.published, s.observations[i]);
      case _ =>
    }
  }

  lemma {:induction false} StepKeepsPublished(s: State, step: Step)
    requires PublishedInv(s) && Do(s, step).Some?
    ensures PublishedInv(Do(s, step).value)
  {
    hide WrapU64, Incremented, ValueAt, Copied;
    var t := Do(s, step).value;
    if step.FetchReturns? {
      assert t.attempts[..|t.attempts| - 1] == s.attempts;
      assert s.published + [] == s.published;
    } else {
      hide Successes;
      if step.ReleaseWrite? {
        assert t.published + [] == s.published + [s.refresher.data];
      }
    }
  }

  lemma {:induction false} StepKeepsFailures(s: State, step: Step)
    requires FailuresInv(s) && Do(s, step).Some?
    ensures FailuresInv(Do(s, step).value)
  {
    hide WrapU64, Incremented, ValueAt, Copied;
    var t := Do(s, step).value;
    if step.FetchReturns? {
      assert t.attempts[..|t.attempts| - 1] == s.attempts;
    } else {
      hide Failures;
      WrapU64Left(Failures(s.attempts) - 1, 1);
    }
  }

  lemma {:induction false} StepKeepsAccounting(s: State, step: Step)
    requires AccountingInv(s) && Do(s, step).Some?
    ensures AccountingInv(Do(s, step).value)
  {
    hide WrapU64, Incremented, ValueAt, Copied, PublishedInv, FailuresInv;
    StepKeepsPublished(s, step);
    StepKeepsFailures(s, step);
  }

  lemma {:induction false} IncrementsAgree(a: map<Counter, U64>, b: map<Counter, U64>, counter: Counter, c: Counter)
    requires ValueAt(a, counter) == ValueAt(b, counter) && ValueAt(a, c) == ValueAt(b, c)
    ensures ValueAt(Incremented(a, counter, 1), c) == ValueAt(Incremented(b, counter, 1), c)
  {
    hide WrapU64;
  }

  lemma {:induction false} StepKeepsCounters(s: State, step: Step)
    requires CountersInv(s) && Do(s, step).Some?
    ensures CountersInv(Do(s, step).value)
  {
    hide Incremented, AddedUp;
    match step {
      case Increment(handler) =>
        var counter := s.handlers[handler];
        var t := Do(s, step).value;
        AddedUpSnoc(s.handled, Same, One, counter);
        forall c
          ensures ValueAt(t.counters, c) == ValueAt(AddedUp(t.handled, Same, One), c)
        {
          assert ValueAt(s.counters, counter) == ValueAt(AddedUp(s.handled, Same, One), counter);
          assert ValueAt(s.counters, c) == ValueAt(AddedUp(s.handled, Same, One), c);
          IncrementsAgree(s.counters, AddedUp(s.handled, Same, One), counter, c);
        }
        assert t.counters.Keys >= s.counters.Keys by {
          KeysGrow(s.counters, counter);
        }
      case _ =>
    }
  }

  lemma {:induction false} KeysGrow(a: map<Counter, U64>, counter: Counter)
    ensures Incremented(a, counter, 1).Keys >= a.Keys
  {
    hide WrapU64;
  }

  /** In every interleaving, every reachable state satisfies the invariant. */
  lemma {:induction false} EveryRunKeepsInv(steps: seq<Step>)
    requires Run(steps).Some?
    ensures Inv(Run(steps).value)
  {
    if steps == [] {
    } else {
      var init, step := steps[..|steps| - 1], steps[|steps| - 1];
      EveryRunKeepsInv(init);
      var s := Run(init).value;
      assert s.refresher.Writing? ==> s.lock.Writer?;
      hide CacheInv, LockInv, ReadersInv, ObservationsInv, AccountingInv, CountersInv, Do;
      StepKeepsCache(s, step);
      StepKeepsLock(s, step);
      StepKeepsReaders(s, step);
      StepKeepsObservations(s, step);
      StepKeepsAccounting(s, step);
      StepKeepsCounters(s, step);
    }
  }

  // ----- what the invariant gives

  /** A scrape that read the whole cache under one read lock reports the families of one published
      generation, never a mixture; and later scrapes never report an earlier generation. */
  lemma {:induction false} ScrapesAreNeverTorn(steps: seq<Step>, i: nat, j: nat)
    requires Run(steps).Some?
    requires i <= j < |Run(steps).value.observations|
    ensures var s := Run(steps).value;
            var o := s.observations[i];
            && o.generation <= s.observations[j].generation <= |s.published|
            && (o.fields == ALL_FIELDS ==> Families(o.data) == Families(Generation(s.published, o.generation)))
  {
    hide Families, Run, Do, CacheInv, LockInv, ReadersInv, AccountingInv, CountersInv;
    EveryRunKeepsInv(steps);
    var s := Run(steps).value;
    assert Untorn(s.published, s.observations[i]) && Untorn(s.published, s.observations[j]);
  }

  /** The status call answers with the channel count and block height of one and the same generation. */
  lemma {:induction false} StatusIsConsistent(steps: seq<Step>, i: nat)
    requires Run(steps).Some?
    requires i < |Run(steps).value.observations|
    requires Run(steps).value.observations[i].fields >= {Node, Channels}
    ensures var s := Run(steps).value;
            var o := s.observations[i];
            && o.generation <= |s.published|
            && var g := Generation(s.published, o.generation);
               |o.data.channels| == |g.channels| && o.data.node.blockheight == g.node.blockheight
  {
    EveryRunKeepsInv(steps);
    assert Untorn(Run(steps).value.published, Run(steps).value.observations[i]);
  }

  /** Refresh accounting over whole runs. What is published are the successful fetches, in order, up to
      one still being written; the failure counter is the number of failed fetches modulo 2^64, less one
      not yet counted; the timestamp is that of the published generation or of the one before, never ahead. */
  lemma {:induction false} RefreshAccounting(steps: seq<Step>)
    requires Run(steps).Some?
    ensures var s := Run(steps).value;
            && s.published <= Successes(s.attempts)
            && |Successes(s.attempts)| <= |s.published| + 1
            && s.refreshFailures == WrapU64(Failures(s.attempts) - (if s.refresher.Failed? then 1 else 0))
            && s.timestamp <= |s.published| <= s.timestamp + 1
            && (s.refresher.Waiting? ==>
                  && s.published == Successes(s.attempts)
                  && s.cache == Generation(s.published, |s.published|)
                  && s.refreshFailures == WrapU64(Failures(s.attempts))
                  && s.timestamp == |s.published|)
  {
    EveryRunKeepsInv(steps);
    var s := Run(steps).value;
    assert s.published <= s.published + InFlight(s.refresher);
    assert s.refresher.Waiting? ==> s.published + [] == s.published;
  }

  /** Whatever else runs, event counters show exactly the handlers that finished, in any order. */
  lemma {:induction false} CountersShowHandled(steps: seq<Step>, c: Counter)
    requires Run(steps).Some?
    ensures var s := Run(steps).value;
            ValueAt(s.counters, c) == WrapU64(Sums.SumBy(s.handled, Share(Same, One, c)))
  {
    EveryRunKeepsInv(steps);
    CounterShowsSum(Run(steps).value.handled, Same, One, c);
  }

  // ----- the history fields against the steps themselves

  /** The fields a reader has read since it last took the lock. */
  function FieldsRead(steps: seq<Step>, reader: nat): set<Field> {
    if steps == [] then {}
    else
      var before := FieldsRead(steps[..|steps| - 1], reader);
      match steps[|steps| - 1]
      case AcquireRead(r) => if r == reader then {} else before
      case ReadField(r, field) => if r == reader then before + {field} else before
      case _ => before
  }

  /** How many refreshes have released the write lock. */
  function Releases(steps: seq<Step>): nat {
    if steps == [] then 0
    else Releases(steps[..|steps| - 1]) + (if steps[|steps| - 1] == ReleaseWrite then 1 else 0)
  }

  /** For each reader that let go of the lock, what it had read and after how many refreshes. */
  function FinishedReads(steps: seq<Step>): seq<(set<Field>, nat)> {
    if steps == [] then []
    else
      var init := steps[..|steps| - 1];
      match steps[|steps| - 1]
      case ReleaseRead(r) => FinishedReads(init) + [(FieldsRead(init, r), Releases(init))]
      case _ => FinishedReads(init)
  }

  /** The results of all fetches, in order. */
  function FetchResults(steps: seq<Step>): seq<Result<CachedData, string>> {
    if steps == [] then []
    else
      var init := steps[..|steps| - 1];
      match steps[|steps| - 1]
      case FetchReturns(result) => FetchResults(init) + [result]
      case _ => FetchResults(init)
  }

  /** The counter a handler last looked up. */
  function LookedUp(steps: seq<Step>, handler: nat): Option<Counter> {
    if steps == [] then None
    else
      match steps[|steps| - 1]
      case LookUpCounter(h, counter) => if h == handler then Some(counter) else LookedUp(steps[..|steps| - 1], handler)
      case _ => LookedUp(steps[..|steps| - 1], handler)
  }

  /** How many increments were made by handlers that had looked up the counter. */
  function IncrementsOf(steps: seq<Step>, counter: Counter): nat {
    if steps == [] then 0
    else
      var init := steps[..|steps| - 1];
      match steps[|steps| - 1]
      case Increment(h) => IncrementsOf(init, counter) + (if LookedUp(init, h) == Some(counter) then 1 else 0)
      case _ => IncrementsOf(init, counter)
  }

  lemma {:induction false} ReadersRead(steps: seq<Step>, reader: nat)
    requires Run(steps).Some? && reader in Run(steps).value.readers
    ensures Run(steps).value.readers[reader].fields == FieldsRead(steps, reader)
  {
    hide Incremented, ValueAt, Copied;
    if steps == [] {
    } else {
      var init := steps[..|steps| - 1];
      if reader in Run(init).value.readers {
        ReadersRead(init, reader);
      }
    }
  }

  lemma {:induction false} HandlersLookedUp(steps: seq<Step>, handler: nat)
    requires Run(steps).Some? && handler in Run(steps).value.handlers
    ensures LookedUp(steps, handler) == Some(Run(steps).value.handlers[handler])
  {
    hide Incremented, ValueAt, Copied;
    if steps == [] {
    } else {
      var init := steps[..|steps| - 1];
      if handler in Run(init).value.handlers {
        HandlersLookedUp(init, handler);
      }
    }
  }

  lemma {:induction false} AttemptsExact(steps: seq<Step>)
    requires Run(steps).Some?
    ensures Run(steps).value.attempts == FetchResults(steps)
  {
    hide Incremented, ValueAt, Copied;
    if steps == [] {
    } else {
      AttemptsExact(steps[..|steps| - 1]);
    }
  }

  lemma {:induction false} PublishedExact(steps: seq<Step>)
    requires Run(steps).Some?
    ensures |Run(steps).value.published| == Releases(steps)
  {
    hide Incremented, ValueAt, Copied;
    if steps == [] {
    } else {
      PublishedExact(steps[..|steps| - 1]);
    }
  }

  /** What an observation says of itself: its fields and its generation. */
  function Summaries(observations: seq<Observation>): seq<(set<Field>, nat)> {
    seq(|observations|, i requires 0 <= i < |observations| => (observations[i].fields, observations[i].generation))
  }

  lemma {:induction false} StepSummaries(s: State, step: Step)
    requires Do(s, step).Some?
    ensures var t := Do(s, step).value;
            Summaries(t.observations) ==
              if step.ReleaseRead? then
                Summaries(s.observations) + (if step.reader in s.readers then [(s.readers[step.reader].fields, |s.published|)] else [])
              else Summaries(s.observations)
  {
    hide Incremented, ValueAt, Copied;
  }

  lemma {:induction false} ObservationsExact(steps: seq<Step>)
    requires Run(steps).Some?
    ensures Summaries(Run(steps).value.observations) == FinishedReads(steps)
  {
    if steps == [] {
    } else {
      var init, step := steps[..|steps| - 1], steps[|steps| - 1];
      ObservationsExact(init);
      StepSummaries(Run(init).value, step);
      if step.ReleaseRead? {
        assert step.reader in Run(init).value.readers;
        ReadersRead(init, step.reader);
        PublishedExact(init);
      }
      hide Do, Summaries;
    }
  }

  /** What is fetched, published and observed is what the steps say: every fetch result is kept, every
      release of the write lock publishes, and a finished reader has observed exactly the fields that it
      read since it took the lock. */
  lemma {:induction false} HistoryExact(steps: seq<Step>)
    requires Run(steps).Some?
    ensures var s := Run(steps).value;
            && s.attempts == FetchResults(steps)
            && |s.published| == Releases(steps)
            && |s.observations| == |FinishedReads(steps)|
            && forall i :: 0 <= i < |s.observations| ==>
                 s.observations[i].fields == FinishedReads(steps)[i].0
                 && s.observations[i].generation == FinishedReads(steps)[i].1
  {
    hide Run, FetchResults, Releases, FinishedReads;
    AttemptsExact(steps);
    PublishedExact(steps);
    ObservationsExact(steps);
    var s := Run(steps).value;
    forall i | 0 <= i < |s.observations|
      ensures FinishedReads(steps)[i] == (s.observations[i].fields, s.observations[i].generation)
    {
      assert Summaries(s.observations)[i] == (s.observations[i].fields, s.observations[i].generation);
    }
  }

  /** In every interleaving a counter is the number of increments by handlers that had looked it up. */
  lemma {:induction false} IncrementsCounted(steps: seq<Step>, c: Counter)
    requires Run(steps).Some?
    ensures ValueAt(Run(steps).value.counters, c) == WrapU64(IncrementsOf(steps, c))
  {
    hide Run, WrapU64;
    CountersShowHandled(steps, c);
    HandledExact(steps, c);
  }

  lemma {:induction false} HandledExact(steps: seq<Step>, c: Counter)
    requires Run(steps).Some?
    ensures Sums.SumBy(Run(steps).value.handled, Share(Same, One, c)) == IncrementsOf(steps, c)
  {
    hide Incremented, ValueAt, Copied, Share;
    if steps == [] {
    } else {
      var init, step := steps[..|steps| - 1], steps[|steps| - 1];
      HandledExact(init, c);
      if step.Increment? {
        var s := Run(init).value;
        HandlersLookedUp(init, step.handler);
        Sums.SumSnoc(s.handled, s.handlers[step.handler], Share(Same, One, c));
        ShareAt(Same, One, c, s.handlers[step.handler]);
        assert Same(s.handlers[step.handler]) == s.handlers[step.handler] && One(s.handlers[step.handler]) == 1;
      }
    }
  }

  /** A reader that has read all four fields reports the whole of the last published generation. */
  lemma {:induction false} FullReadReports(steps: seq<Step>, reader: nat)
    requires Run(steps).Some? && Run(steps + [ReleaseRead(reader)]).Some?
    requires FieldsRead(steps, reader) == {Node, Funds, Channels, Peers}
    ensures var s, t := Run(steps).value, Run(steps + [ReleaseRead(reader)]).value;
            && |t.observations| == |s.observations| + 1
            && var data := t.observations[|s.observations|].data;
               && data == s.cache == Generation(s.published, |s.published|)
               && Families(data) == Families(s.cache)
  {
    hide Run, Families;
    EveryRunKeepsInv(steps);
    var s := Run(steps).value;
    RunLast(steps, ReleaseRead(reader));
    ReadersRead(steps, reader);
    assert AgreesOn(s.readers[reader].seen, s.cache, s.readers[reader].fields);
  }

  lemma {:induction false} RunLast(steps: seq<Step>, step: Step)
    requires Run(steps).Some?
    ensures Run(steps + [step]) == Do(Run(steps).value, step)
  {
    hide Do;
    assert (steps + [step])[..|steps|] == steps;
  }

  /** The steps of a reader that reads some fields, in some order. */
  function Reads(reader: nat, fields: seq<Field>): seq<Step> {
    if fields == [] then [] else Reads(reader, fields[..|fields| - 1]) + [ReadField(reader, fields[|fields| - 1])]
  }

  lemma {:induction false} ReadsSucceed(steps: seq<Step>, reader: nat, fields: seq<Field>)
    requires Run(steps).Some? && reader in Run(steps).value.readers
    ensures Run(steps + Reads(reader, fields)).Some?
    ensures var s, t := Run(steps).value, Run(steps + Reads(reader, fields)).value;
            && t == s.(readers := t.readers)
            && t.readers.Keys == s.readers.Keys && t.readers - {reader} == s.readers - {reader}
            && t.readers[reader].fields == s.readers[reader].fields + (set f | f in fields)
  {
    hide Run, Copied, Incremented, ValueAt;
    if fields == [] {
      assert steps + [] == steps;
    } else {
      var init, last := fields[..|fields| - 1], fields[|fields| - 1];
      ReadsSucceed(steps, reader, init);
      RunLast(steps + Reads(reader, init), ReadField(reader, last));
      assert steps + Reads(reader, fields) == steps + Reads(reader, init) + [ReadField(reader, last)];
      assert fields == init + [last];
      var s, u, t := Run(steps).value, Run(steps + Reads(reader, init)).value, Run(steps + Reads(reader, fields)).value;
      assert t.readers.Keys == u.readers.Keys;
      assert t.readers - {reader} == u.readers - {reader};
    }
  }

  /** A scrape or status call from start to end. */
  function Scrape(reader: nat, fields: seq<Field>): seq<Step> {
    [AcquireRead(reader)] + Reads(reader, fields) + [ReleaseRead(reader)]
  }

  /** Whenever the write lock is free a new reader can take the lock, read any fields in any order and let
      go again; this adds one observation of exactly these fields, as they are in the cache, and changes
      nothing else. One that reads all four fields observes the cache of the current generation. */
  lemma {:induction false} ScrapeSucceeds(steps: seq<Step>, reader: nat, fields: seq<Field>)
    requires Run(steps).Some?
    requires !Run(steps).value.refresher.Writing? && reader !in Run(steps).value.readers
    ensures Run(steps + Scrape(reader, fields)).Some?
    ensures var s, t := Run(steps).value, Run(steps + Scrape(reader, fields)).value;
            && |t.observations| == |s.observations| + 1
            && t == s.(observations := s.observations + [t.observations[|s.observations|]])
            && var o := t.observations[|s.observations|];
               && o.fields == (set f | f in fields)
               && o.generation == |s.published|
               && AgreesOn(o.data, s.cache, o.fields)
               && (Node in fields && Funds in fields && Channels in fields && Peers in fields ==>
                     o.data == s.cache == Generation(s.published, |s.published|))
  {
    hide Run, Copied, Incremented, ValueAt, Reads;
    EveryRunKeepsInv(steps);
    var s := Run(steps).value;
    var taken := steps + [AcquireRead(reader)];
    RunLast(steps, AcquireRead(reader));
    ReadsSucceed(taken, reader, fields);
    var read := taken + Reads(reader, fields);
    EveryRunKeepsInv(read);
    RunLast(read, ReleaseRead(reader));
    assert steps + Scrape(reader, fields) == read + [ReleaseRead(reader)];
    var r := Run(read).value;
    assert r.readers - {reader} == s.readers;
    assert r.readers[reader].fields == (set f | f in fields);
    assert AgreesOn(r.readers[reader].seen, r.cache, r.readers[reader].fields);
  }

  /** A new handler can always look up and increment its counter, which adds one to it and to no other. */
  lemma {:induction false} HandlerSucceeds(steps: seq<Step>, handler: nat, counter: Counter, c: Counter)
    requires Run(steps).Some? && handler !in Run(steps).value.handlers
    ensures Run(steps + [LookUpCounter(handler, counter), Increment(handler)]).Some?
    ensures var s, t := Run(steps).value, Run(steps + [LookUpCounter(handler, counter), Increment(handler)]).value;
            && ValueAt(t.counters, c) == (if c == counter then WrapU64(ValueAt(s.counters, c) + 1) else ValueAt(s.counters, c))
            && t == s.(counters := t.counters, handled := s.handled + [counter])
  {
    hide Run, Copied;
    var looked := steps + [LookUpCounter(handler, counter)];
    RunLast(steps, LookUpCounter(handler, counter));
    RunLast(looked, Increment(handler));
    assert steps + [LookUpCounter(handler, counter), Increment(handler)] == looked + [Increment(handler)];
    assert Run(looked).value.handlers - {handler} == Run(steps).value.handlers;
  }

  /** The steps of one successful refresh that nothing interrupts. */
  function Refresh(data: CachedData): seq<Step> {
    [Tick, FetchReturns(Ok(data)), AcquireWrite, WriteField(Node), WriteField(Funds), WriteField(Channels),
     WriteField(Peers), ReleaseWrite, SetTimestamp]
  }

  /** After any run that leaves the loop waiting and no reader in the cache, a refresh can complete,
      and then the cache and the timestamp are those of the new data. */
  lemma {:induction false} RefreshCompletes(steps: seq<Step>, data: CachedData)
    requires Run(steps).Some?
    requires Run(steps).value.refresher.Waiting? && Run(steps).value.readers == map[]
    ensures Run(steps + Refresh(data)).Some?
    ensures var s, t := Run(steps).value, Run(steps + Refresh(data)).value;
            && t.refresher.Waiting? && t.cache == data
            && t.published == s.published + [data] && t.timestamp == |t.published|
            && t.refreshFailures == s.refreshFailures && t.readers == s.readers && t.handlers == s.handlers
            && t.observations == s.observations
  {
    EveryRunKeepsInv(steps);
    var s := Run(steps).value;
    assert s.lock == Readers(0);
    hide Inv, Run, Do, RunFrom;
    RunAppend(steps, Refresh(data));
    assert Refresh(data)[0..] == Refresh(data);
    RefreshOpens(s, data);
    var s1 := s.(lock := Writer, refresher := Writing(data, {}), attempts := s.attempts + [Ok(data)]);
    RefreshWrites(s1, data);
    RefreshCloses(s1.(cache := data, refresher := Writing(data, ALL_FIELDS)), data);
  }

  /** The steps of one failed refresh that nothing interrupts. */
  function FailedRefresh(error: string): seq<Step> {
    [Tick, FetchReturns(Err(error)), CountFailure]
  }

  /** A failed refresh needs no lock, so readers may be in the cache; it is counted and changes
      nothing that they or later readers see. */
  lemma {:induction false} RefreshFails(steps: seq<Step>, error: string)
    requires Run(steps).Some? && Run(steps).value.refresher.Waiting?
    ensures Run(steps + FailedRefresh(error)).Some?
    ensures var s, t := Run(steps).value, Run(steps + FailedRefresh(error)).value;
            t == s.(attempts := s.attempts + [Err(error)], refreshFailures := WrapU64(s.refreshFailures + 1))
  {
    var s := Run(steps).value;
    hide Run, RunFrom, Incremented, ValueAt, Copied;
    var more := FailedRefresh(error);
    RunAppend(steps, more);
    var s1 := s.(refresher := Fetching);
    var s2 := s.(refresher := Failed, attempts := s.attempts + [Err(error)]);
    var s3 := s2.(refresher := Waiting, refreshFailures := WrapU64(s.refreshFailures + 1));
    assert more[0..] == more && more[3..] == [];
    RunFromStep(s, more, 0, s1);
    RunFromStep(s1, more, 1, s2);
    RunFromStep(s2, more, 2, s3);
    RunFromEnd(s3);
  }

  lemma {:induction false} RunFromStep(s: State, steps: seq<Step>, k: nat, t: State)
    requires k < |steps| && Do(s, steps[k]) == Some(t)
    ensures RunFrom(s, steps[k..]) == RunFrom(t, steps[k + 1..])
  {
    hide Do;
    assert steps[k..][1..] == steps[k + 1..];
  }

  /** The loop fetches, counts nothing as a failure and takes the write lock. */
  lemma {:induction false} RefreshOpens(s: State, data: CachedData)
    requires s.refresher.Waiting? && s.lock == Readers(0)
    ensures RunFrom(s, Refresh(data)[0..])
            == RunFrom(s.(lock := Writer, refresher := Writing(data, {}), attempts := s.attempts + [Ok(data)]),
                       Refresh(data)[3..])
  {
    hide RunFrom;
    var steps := Refresh(data);
    var s1 := s.(refresher := Fetching);
    var s2 := s.(refresher := Fetched(data), attempts := s.attempts + [Ok(data)]);
    RunFromStep(s, steps, 0, s1);
    RunFromStep(s1, steps, 1, s2);
    RunFromStep(s2, steps, 2, s2.(lock := Writer, refresher := Writing(data, {})));
  }

  /** Under the write lock it replaces the whole cache. */
  lemma {:induction false} RefreshWrites(s: State, data: CachedData)
    requires s.refresher == Writing(data, {})
    ensures RunFrom(s, Refresh(data)[3..])
            == RunFrom(s.(cache := data, refresher := Writing(data, ALL_FIELDS)), Refresh(data)[7..])
  {
    hide RunFrom;
    var steps := Refresh(data);
    var c1 := Copied(s.cache, data, Node);
    var c2 := Copied(c1, data, Funds);
    var c3 := Copied(c2, data, Channels);
    var s1 := s.(cache := c1, refresher := Writing(data, {} + {Node}));
    var s2 := s.(cache := c2, refresher := Writing(data, {} + {Node} + {Funds}));
    var s3 := s.(cache := c3, refresher := Writing(data, {} + {Node} + {Funds} + {Channels}));
    assert {} + {Node} + {Funds} + {Channels} + {Peers} == ALL_FIELDS;
    RunFromStep(s, steps, 3, s1);
    RunFromStep(s1, steps, 4, s2);
    RunFromStep(s2, steps, 5, s3);
    RunFromStep(s3, steps, 6, s.(cache := data, refresher := Writing(data, ALL_FIELDS)));
  }

  /** It releases the lock and then sets the timestamp. */
  lemma {:induction false} RefreshCloses(s: State, data: CachedData)
    requires s.refresher == Writing(data, ALL_FIELDS)
    ensures RunFrom(s, Refresh(data)[7..])
            == Some(s.(lock := Readers(0), refresher := Waiting, published := s.published + [data],
                       timestamp := |s.published| + 1))
  {
    hide RunFrom;
    var steps := Refresh(data);
    var s1 := s.(lock := Readers(0), refresher := Stamping, published := s.published + [data]);
    var s2 := s1.(refresher := Waiting, timestamp := |s.published| + 1);
    RunFromStep(s, steps, 7, s1);
    RunFromStep(s1, steps, 8, s2);
    assert steps[9..] == [];
    RunFromEnd(s2);
  }

  lemma {:induction false} RunFromEnd(s: State)
    ensures RunFrom(s, []) == Some(s)
  {
  }

  /** The state after further steps. */
  function RunFrom(s: State, steps: seq<Step>): Option<State>
    decreases |steps|
  {
    if steps == [] then Some(s)
    else
      var t :- Do(s, steps[0]);
      RunFrom(t, steps[1..])
  }

  lemma {:induction false} RunAppend(steps: seq<Step>, more: seq<Step>)
    requires Run(steps).Some?
    ensures Run(steps + more) == RunFrom(Run(steps).value, more)
    decreases |more|
  {
    if more == [] {
      assert steps + more == steps;
    } else {
      var longer := steps + [more[0]];
      assert longer[..|longer| - 1] == steps;
      assert steps + more == longer + more[1..];
      if Run(longer).Some? {
        RunAppend(longer, more[1..]);
      } else {
        RunStuck(longer, more[1..]);
      }
    }
  }

  lemma {:induction false} RunStuck(steps: seq<Step>, more: seq<Step>)
    requires Run(steps).None?
    ensures Run(steps + more).None?
    decreases |more|
  {
    if more == [] {
      assert steps + more == steps;
    } else {
      var init := more[..|more| - 1];
      RunStuck(steps, init);
      assert (steps + more)[..|steps + more| - 1] == steps + init;
    }
  }

  // ----- no deadlock

  /** Readers can always let go of the lock. */
  lemma {:induction false} ReadersFinish(steps: seq<Step>) returns (more: seq<Step>)
    requires Run(steps).Some?
    ensures Run(steps + more).Some?
    ensures var s, t := Run(steps).value, Run(steps + more).value;
            t.readers == map[] && t.refresher == s.refresher && t.handlers == s.handlers
    decreases |Run(steps).value.readers|
  {
    hide Run;
    EveryRunKeepsInv(steps);
    var s := Run(steps).value;
    if s.readers == map[] {
      assert steps + [] == steps;
      more := [];
    } else {
      var reader :| reader in s.readers;
      ReaderCounts(s.readers, reader, s.readers[reader]);
      RunLast(steps, ReleaseRead(reader));
      var rest := ReadersFinish(steps + [ReleaseRead(reader)]);
      more := [ReleaseRead(reader)] + rest;
      assert steps + more == steps + [ReleaseRead(reader)] + rest;
    }
  }

  /** Handlers that have looked up their counter can always increment it. */
  lemma {:induction false} HandlersFinish(steps: seq<Step>) returns (more: seq<Step>)
    requires Run(steps).Some?
    ensures Run(steps + more).Some?
    ensures var s, t := Run(steps).value, Run(steps + more).value;
            t.handlers == map[] && t.refresher == s.refresher && t.readers == s.readers
    decreases |Run(steps).value.handlers|
  {
    hide Run, Incremented;
    var s := Run(steps).value;
    if s.handlers == map[] {
      assert steps + [] == steps;
      more := [];
    } else {
      var handler :| handler in s.handlers;
      assert (s.handlers - {handler}).Keys == s.handlers.Keys - {handler};
      RunLast(steps, Increment(handler));
      var rest := HandlersFinish(steps + [Increment(handler)]);
      more := [Increment(handler)] + rest;
      assert steps + more == steps + [Increment(handler)] + rest;
    }
  }

  /** The next step of a refresh on its way back to waiting; a fetch may be answered by a failure. */
  function NextOfRefresh(r: Refresher): Step {
    match r
    case Waiting => Tick
    case Fetching => FetchReturns(Err(""))
    case Failed => CountFailure
    case Fetched(_) => AcquireWrite
    case Writing(_, written) =>
      if Node !in written then WriteField(Node)
      else if Funds !in written then WriteField(Funds)
      else if Channels !in written then WriteField(Channels)
      else if Peers !in written then WriteField(Peers)
      else ReleaseWrite
    case Stamping => SetTimestamp
  }

  function StepsLeft(r: Refresher): nat {
    match r
    case Waiting => 0
    case Fetching => 2
    case Failed => 1
    case Fetched(_) => 7
    case Writing(_, written) =>
      2 + (if Node in written then 0 else 1) + (if Funds in written then 0 else 1)
        + (if Channels in written then 0 else 1) + (if Peers in written then 0 else 1)
    case Stamping => 1
  }

  lemma {:induction false} RefreshStep(s: State)
    requires LockInv(s) && (s.refresher.Writing? <==> s.lock.Writer?)
    requires s.readers == map[] && !s.refresher.Waiting?
    ensures var step := NextOfRefresh(s.refresher);
            && Do(s, step).Some?
            && StepsLeft(Do(s, step).value.refresher) < StepsLeft(s.refresher)
            && Do(s, step).value.readers == map[] && Do(s, step).value.handlers == s.handlers
  {
    hide Incremented, ValueAt, Copied;
    if s.refresher.Writing? && NextOfRefresh(s.refresher) == ReleaseWrite {
      AllFields(s.refresher.written);
    }
  }

  lemma {:induction false} AllFields(written: set<Field>)
    requires Node in written && Funds in written && Channels in written && Peers in written
    ensures written == {Node, Funds, Channels, Peers}
  {
    forall f | f in written
      ensures f in {Node, Funds, Channels, Peers}
    {
      match f {
        case Node =>
        case Funds =>
        case Channels =>
        case Peers =>
      }
    }
  }

  /** With no reader in the cache a refresh can always come to its end. */
  lemma {:induction false} RefreshFinishes(steps: seq<Step>) returns (more: seq<Step>)
    requires Run(steps).Some? && Run(steps).value.readers == map[]
    ensures Run(steps + more).Some?
    ensures var s, t := Run(steps).value, Run(steps + more).value;
            t.refresher.Waiting? && t.readers == map[] && t.handlers == s.handlers
    decreases StepsLeft(Run(steps).value.refresher)
  {
    hide Run, Do, NextOfRefresh, StepsLeft;
    EveryRunKeepsInv(steps);
    var s := Run(steps).value;
    if s.refresher.Waiting? {
      assert steps + [] == steps;
      more := [];
    } else {
      var step := NextOfRefresh(s.refresher);
      RefreshStep(s);
      RunLast(steps, step);
      var rest := RefreshFinishes(steps + [step]);
      more := [step] + rest;
      assert steps + more == steps + [step] + rest;
    }
  }

  /** There is no deadlock, and no run in which a refresh has become impossible: every run can go on
      until every reader and handler has finished and newly fetched data are published. */
  lemma {:induction false} EveryRunCanRefresh(steps: seq<Step>, data: CachedData) returns (more: seq<Step>)
    requires Run(steps).Some?
    ensures Run(steps + more).Some?
    ensures var t := Run(steps + more).value;
            && t.refresher.Waiting? && t.readers == map[] && t.handlers == map[]
            && t.cache == data && t.timestamp == |t.published|
  {
    hide Run, Refresh;
    var m1 := HandlersFinish(steps);
    var m2 := ReadersFinish(steps + m1);
    var m3 := RefreshFinishes(steps + m1 + m2);
    RefreshCompletes(steps + m1 + m2 + m3, data);
    more := m1 + m2 + m3 + Refresh(data);
    assert steps + more == steps + m1 + m2 + m3 + Refresh(data);
  }

  /** While a reader holds the lock nothing it may read changes: a step of any actor leaves the cache
      and the published generation alone. */
  lemma {:induction false} ReadersSeeAStillCache(steps: seq<Step>, step: Step, reader: nat)
    requires Run(steps).Some? && reader in Run(steps).value.readers
    requires Do(Run(steps).value, step).Some?
    ensures var s, t := Run(steps).value, Do(Run(steps).value, step).value;
            t.cache == s.cache && t.published == s.published
  {
    EveryRunKeepsInv(steps);
  }
}
