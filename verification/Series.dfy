/** Labelled metric series: what gauges and counters hold after a list of items is written to them. */
module Series {
  import opened MachineInts
  import opened Sums

  /** Gauges: a later item with the same label overwrites. */
  function LastWritten<T, K(==)>(items: seq<T>, key: T -> K, f: T -> int): map<K, int> {
    if items == [] then map[]
    else
      var last := items[|items| - 1];
      LastWritten(items[..|items| - 1], key, f)[key(last) := f(last)]
  }

  /** Counters: items with the same label add up, modulo 2^64. */
  function AddedUp<T, K(==)>(items: seq<T>, key: T -> K, f: T -> int): map<K, U64> {
    if items == [] then map[]
    else
      var last := items[|items| - 1];
      Incremented(AddedUp(items[..|items| - 1], key, f), key(last), f(last))
  }

  /** `with_label_values(k).inc_by(amount as u64)`. */
  function Incremented<K(==)>(series: map<K, U64>, k: K, amount: int): map<K, U64> {
    series[k := WrapU64((if k in series then series[k] else 0) + WrapU64(amount))]
  }

  lemma {:induction false} WriteStep<T, K>(items: seq<T>, i: nat, key: T -> K, f: T -> int)
    requires i < |items|
    ensures LastWritten(items[..i + 1], key, f) == LastWritten(items[..i], key, f)[key(items[i]) := f(items[i])]
  {
    assert items[..i + 1][..i] == items[..i];
  }

  lemma {:induction false} AddStep<T, K>(items: seq<T>, i: nat, key: T -> K, f: T -> int)
    requires i < |items|
    ensures AddedUp(items[..i + 1], key, f) == Incremented(AddedUp(items[..i], key, f), key(items[i]), f(items[i]))
  {
    assert items[..i + 1][..i] == items[..i];
  }

  // ----- what a series means

  /** A gauge shows the last item with its label, and labels without items have no series. */
  lemma {:induction false} GaugeShowsLast<T, K>(items: seq<T>, key: T -> K, f: T -> int, k: K)
    ensures k in LastWritten(items, key, f) <==> exists i :: 0 <= i < |items| && key(items[i]) == k
    ensures k in LastWritten(items, key, f) ==>
              exists i :: 0 <= i < |items| && key(items[i]) == k && LastWritten(items, key, f)[k] == f(items[i])
                          && forall j :: i < j < |items| ==> key(items[j]) != k
  {
    if items == [] {
    } else {
      var init, n := items[..|items| - 1], |items| - 1;
      GaugeShowsLast(init, key, f, k);
      assert forall j :: 0 <= j < n ==> init[j] == items[j];
      if key(items[n]) != k && k in LastWritten(init, key, f) {
        var i :| 0 <= i < n && key(init[i]) == k && LastWritten(init, key, f)[k] == f(init[i])
                 && forall j :: i < j < n ==> key(init[j]) != k;
        assert key(items[i]) == k && forall j :: i < j < |items| ==> key(items[j]) != k;
      }
    }
  }

  function Share<T, K(==)>(key: T -> K, f: T -> int, k: K): T -> int {
    (x: T) => if key(x) == k then f(x) else 0
  }

  lemma {:induction false} ShareAt<T, K>(key: T -> K, f: T -> int, k: K, x: T)
    ensures Share(key, f, k)(x) == if key(x) == k then f(x) else 0
  {
  }

  /** A counter shows the sum over all items with its label, modulo 2^64. */
  lemma {:induction false} CounterShowsSum<T, K>(items: seq<T>, key: T -> K, f: T -> int, k: K)
    ensures k in AddedUp(items, key, f) <==> exists i :: 0 <= i < |items| && key(items[i]) == k
    ensures (if k in AddedUp(items, key, f) then AddedUp(items, key, f)[k] else 0)
            == WrapU64(SumBy(items, Share(key, f, k)))
  {
    if items == [] {
    } else {
      hide WrapU64;
      var init, last := items[..|items| - 1], items[|items| - 1];
      CounterShowsSum(init, key, f, k);
      assert forall j :: 0 <= j < |init| ==> init[j] == items[j];
      WrapU64Add(SumBy(init, Share(key, f, k)), f(last));
    }
  }

  /** No other item has the key of this one. */
  ghost predicate SoleKey<T, K>(items: seq<T>, key: T -> K, i: nat)
    requires i < |items|
  {
    forall j :: 0 <= j < |items| && j != i ==> key(items[j]) != key(items[i])
  }

  ghost predicate DistinctKeys<T, K>(items: seq<T>, key: T -> K) {
    forall i, j :: 0 <= i < j < |items| ==> key(items[i]) != key(items[j])
  }

  lemma {:induction false} SumOfNothing<T>(items: seq<T>, f: T -> int)
    requires forall i :: 0 <= i < |items| ==> f(items[i]) == 0
    ensures SumBy(items, f) == 0
  {
    if items == [] {
    } else {
      SumOfNothing(items[..|items| - 1], f);
    }
  }

  lemma {:induction false} SoleShare<T, K>(items: seq<T>, key: T -> K, f: T -> int, i: nat)
    requires i < |items| && SoleKey(items, key, i)
    ensures SumBy(items, Share(key, f, key(items[i]))) == f(items[i])
  {
    var share := Share(key, f, key(items[i]));
    var before, after := items[..i], items[i + 1..];
    assert items == before + ([items[i]] + after);
    SumAppend(before, [items[i]] + after, share);
    SumAppend([items[i]], after, share);
    SumOfNothing(before, share);
    assert forall j :: 0 <= j < |after| ==> after[j] == items[i + 1 + j];
    SumOfNothing(after, share);
    SumSnoc([], items[i], share);
    assert [] + [items[i]] == [items[i]];
  }

  /** Under a label that only one item has nothing is overwritten or merged, whatever happens under
      other labels: the series is that item's own value. */
  lemma {:induction false} SoleSeries<T, K>(items: seq<T>, key: T -> K, f: T -> int, i: nat)
    requires i < |items| && SoleKey(items, key, i)
    ensures key(items[i]) in LastWritten(items, key, f) && LastWritten(items, key, f)[key(items[i])] == f(items[i])
    ensures key(items[i]) in AddedUp(items, key, f) && AddedUp(items, key, f)[key(items[i])] == WrapU64(f(items[i]))
  {
    hide WrapU64;
    var k := key(items[i]);
    GaugeShowsLast(items, key, f, k);
    CounterShowsSum(items, key, f, k);
    SoleShare(items, key, f, i);
  }

  function ValueAt<K(==)>(series: map<K, int>, k: K): int { if k in series then series[k] else 0 }

  /** A later item has the key of the first one. */
  predicate Overwritten<T, K(==)>(items: seq<T>, key: T -> K)
    requires items != []
  {
    exists j :: 1 <= j < |items| && key(items[j]) == key(items[0])
  }

  /** The sum over the items that a later one with the same label overwrites. */
  function Lost<T, K(==)>(items: seq<T>, key: T -> K, f: T -> int): int {
    if items == [] then 0
    else (if Overwritten(items, key) then f(items[0]) else 0) + Lost(items[1..], key, f)
  }

  lemma {:induction false} NothingLost<T, K>(items: seq<T>, key: T -> K, f: T -> int)
    requires DistinctKeys(items, key)
    ensures Lost(items, key, f) == 0
  {
    if items == [] {
    } else {
      assert forall i :: 0 <= i < |items| - 1 ==> items[1..][i] == items[i + 1];
      NothingLost(items[1..], key, f);
    }
  }

  /** Later items are written over the first one. */
  lemma {:induction false} WrittenFront<T, K>(items: seq<T>, key: T -> K, f: T -> int)
    requires items != []
    ensures LastWritten(items, key, f) == map[key(items[0]) := f(items[0])] + LastWritten(items[1..], key, f)
  {
    if |items| == 1 {
      assert items[..0] == items[1..] == [];
    } else {
      var init := items[..|items| - 1];
      WrittenFront(init, key, f);
      assert items[1..][..|items| - 2] == init[1..];
    }
  }

  lemma {:induction false} SumFront<T>(items: seq<T>, f: T -> int)
    requires items != []
    ensures SumBy(items, f) == f(items[0]) + SumBy(items[1..], f)
  {
    assert items == [items[0]] + items[1..];
    SumAppend([items[0]], items[1..], f);
    SumSnoc([], items[0], f);
    assert [] + [items[0]] == [items[0]];
  }

  /** Over any listing of its labels a gauge sums to the sum over all items less those overwritten; so
      the two are equal exactly when what is overwritten sums to zero, as when labels are distinct. */
  lemma {:induction false} GaugesAddUp<T, K>(items: seq<T>, key: T -> K, f: T -> int, labels: seq<K>)
    requires forall i, j :: 0 <= i < j < |labels| ==> labels[i] != labels[j]
    requires forall i :: 0 <= i < |items| ==> key(items[i]) in labels
    ensures SumBy(labels, k => ValueAt(LastWritten(items, key, f), k)) + Lost(items, key, f) == SumBy(items, f)
    ensures DistinctKeys(items, key) ==> Lost(items, key, f) == 0
  {
    var after := k => ValueAt(LastWritten(items, key, f), k);
    if items == [] {
      SumOfNothing(labels, after);
    } else {
      var first, rest := items[0], items[1..];
      var before := k => ValueAt(LastWritten(rest, key, f), k);
      assert forall i :: 0 <= i < |rest| ==> rest[i] == items[i + 1];
      GaugesAddUp(rest, key, f, labels);
      WrittenFront(items, key, f);
      SumFront(items, f);
      GaugeShowsLast(rest, key, f, key(first));
      OverwrittenFront(items, key);
      var at :| 0 <= at < |labels| && labels[at] == key(first);
      SumChangedAt(labels, at, before, after);
    }
    if DistinctKeys(items, key) {
      NothingLost(items, key, f);
    }
  }

  lemma {:induction false} OverwrittenFront<T, K>(items: seq<T>, key: T -> K)
    requires items != []
    ensures Overwritten(items, key) <==> exists i :: 0 <= i < |items[1..]| && key(items[1..][i]) == key(items[0])
  {
    if j :| 1 <= j < |items| && key(items[j]) == key(items[0]) {
      assert items[1..][j - 1] == items[j];
    }
  }

  lemma {:induction false} Multiplicity<K>(s: seq<K>, k: K)
    requires forall i, j :: 0 <= i < j < |s| ==> s[i] != s[j]
    ensures multiset(s)[k] == if k in s then 1 else 0
  {
    if s == [] {
    } else {
      var init := s[..|s| - 1];
      Multiplicity(init, k);
      assert s == init + [s[|s| - 1]];
      assert forall i :: 0 <= i < |init| ==> init[i] == s[i];
      assert s[|s| - 1] !in init;
    }
  }

  lemma {:induction false} SameElements<K>(a: seq<K>, b: seq<K>)
    requires forall i, j :: 0 <= i < j < |a| ==> a[i] != a[j]
    requires forall i, j :: 0 <= i < j < |b| ==> b[i] != b[j]
    requires forall k :: k in a <==> k in b
    ensures multiset(a) == multiset(b)
  {
    forall k
      ensures multiset(a)[k] == multiset(b)[k]
    {
      Multiplicity(a, k);
      Multiplicity(b, k);
    }
  }

  /** What the items with a listed label amount to. */
  function Within<T, K(==)>(key: T -> K, f: T -> int, labels: seq<K>): T -> int {
    (x: T) => if key(x) in labels then f(x) else 0
  }

  /** Summing a counter over any listing of labels gives the sum over the items with those labels,
      modulo 2^64. */
  lemma {:induction false} CountersAddUp<T, K>(items: seq<T>, key: T -> K, f: T -> int, labels: seq<K>)
    requires forall i, j :: 0 <= i < j < |labels| ==> labels[i] != labels[j]
    ensures WrapU64(SumBy(labels, k => ValueAt(AddedUp(items, key, f), k)))
            == WrapU64(SumBy(items, Within(key, f, labels)))
  {
    hide WrapU64;
    var after := k => ValueAt(AddedUp(items, key, f), k);
    if items == [] {
      SumOfNothing(labels, after);
    } else {
      var init, last := items[..|items| - 1], items[|items| - 1];
      var before := k => ValueAt(AddedUp(init, key, f), k);
      CountersAddUp(init, key, f, labels);
      if at :| 0 <= at < |labels| && labels[at] == key(last) {
        SumChangedAt(labels, at, before, after);
        WrapU64Shift(SumBy(labels, before), before(key(last)), f(last), SumBy(init, Within(key, f, labels)));
      } else {
        SumCongruent(labels, before, after);
      }
    }
  }

  lemma {:induction false} WrapU64Shift(total: int, old_: U64, amount: int, exact: int)
    requires WrapU64(total) == WrapU64(exact)
    ensures WrapU64(total - old_ + WrapU64(old_ + WrapU64(amount))) == WrapU64(exact + amount)
  {
    hide WrapU64;
    WrapU64Left(old_ + WrapU64(amount), total - old_);
    WrapU64Left(amount, total);
    WrapU64Left(total, amount);
    WrapU64Left(exact, amount);
  }

  /** Changing the value of one of several distinct labels changes their sum by that much. */
  lemma {:induction false} SumChangedAt<K>(labels: seq<K>, at: nat, before: K -> int, after: K -> int)
    requires forall i, j :: 0 <= i < j < |labels| ==> labels[i] != labels[j]
    requires at < |labels|
    requires forall i :: 0 <= i < |labels| && i != at ==> before(labels[i]) == after(labels[i])
    ensures SumBy(labels, after) == SumBy(labels, before) - before(labels[at]) + after(labels[at])
  {
    var n := |labels| - 1;
    var init := labels[..n];
    if at == n {
      SumCongruent(init, before, after);
    } else {
      SumChangedAt(init, at, before, after);
    }
  }
}
