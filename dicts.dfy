/** Python's insertion-ordered `dict` and `defaultdict(list)`, as lists of
    (key, value) pairs. Assigning to a present key replaces its value in
    place; assigning to a new key appends it, so iteration follows first
    insertion, as in CPython. */
module Dicts {
  import opened Common

  type Dict<K, V> = seq<(K, V)>

  function Keys<K, V>(d: seq<(K, V)>): set<K> {
    set i | 0 <= i < |d| :: d[i].0
  }

  ghost predicate DistinctKeys<K, V>(d: seq<(K, V)>) {
    forall i, j :: 0 <= i < j < |d| ==> d[i].0 != d[j].0
  }

  /** Position of key `k`, or -1 when it is absent. */
  function IndexOf<K(==), V>(d: Dict<K, V>, k: K): (i: int)
    ensures -1 <= i < |d|
    ensures i >= 0 ==> d[i].0 == k && forall j :: 0 <= j < i ==> d[j].0 != k
    ensures i < 0 ==> forall j :: 0 <= j < |d| ==> d[j].0 != k
  {
    if d == [] then -1
    else if d[0].0 == k then 0
    else
      var i := IndexOf(d[1..], k);
      if i < 0 then -1 else i + 1
  }

  /** `d.get(k, dflt)` */
  function Get<K(==), V>(d: Dict<K, V>, k: K, dflt: V): V {
    var i := IndexOf(d, k);
    if i >= 0 then d[i].1 else dflt
  }

  /** `d[k] = v` */
  function Put<K(==), V>(d: Dict<K, V>, k: K, v: V): Dict<K, V> {
    var i := IndexOf(d, k);
    if i >= 0 then d[i := (k, v)] else d + [(k, v)]
  }

  /** A dict filled by `d[k] = v` for each pair in order, starting empty. */
  function PutAll<K(==), V>(pairs: seq<(K, V)>): Dict<K, V> {
    if pairs == [] then []
    else
      var last := pairs[|pairs| - 1];
      Put(PutAll(pairs[..|pairs| - 1]), last.0, last.1)
  }

  /** The value of the last pair with key `k`: the one a dict keeps. */
  function LastValue<K(==), V>(pairs: seq<(K, V)>, k: K): V
    requires k in Keys(pairs)
  {
    var last := pairs[|pairs| - 1];
    if last.0 == k then last.1
    else
      assert k in Keys(pairs[..|pairs| - 1]) by {
        var i :| 0 <= i < |pairs| && pairs[i].0 == k;
        assert pairs[..|pairs| - 1][i] == pairs[i];
      }
      LastValue(pairs[..|pairs| - 1], k)
  }

  /** One `defaultdict(list)` step: `d[k].append(v)`. */
  function Append<K(==), V>(d: Dict<K, seq<V>>, k: K, v: V): Dict<K, seq<V>> {
    Put(d, k, Get(d, k, []) + [v])
  }

  /** The `defaultdict(list)` obtained by appending each event's value under
      its key, in order. */
  function Tabulate<K(==), V>(events: seq<(K, V)>): Dict<K, seq<V>> {
    if events == [] then []
    else
      var e := events[|events| - 1];
      Append(Tabulate(events[..|events| - 1]), e.0, e.1)
  }

  /** The values of the events under key `k`, in event order. */
  function Filter<K(==), V>(events: seq<(K, V)>, k: K): seq<V> {
    if events == [] then []
    else
      var e := events[|events| - 1];
      Filter(events[..|events| - 1], k) + (if e.0 == k then [e.1] else [])
  }

  /** One `defaultdict(int)` step: `d[k] += 1`. */
  function Bump<K(==)>(d: Dict<K, int>, k: K): Dict<K, int> {
    Put(d, k, Get(d, k, 0) + 1)
  }

  /** The `defaultdict(int)` obtained by counting each key, in order. */
  function Tally<K(==)>(keys: seq<K>): Dict<K, int> {
    if keys == [] then []
    else Bump(Tally(keys[..|keys| - 1]), keys[|keys| - 1])
  }

  /** The records of every pair, in order: `f` gives the records one pair
      makes. */
  function Gather<K, V, T>(d: seq<(K, V)>, f: ((K, V)) -> seq<T>): seq<T> {
    if d == [] then [] else Gather(d[..|d| - 1], f) + f(d[|d| - 1])
  }

  /** The appends one session makes over `n` consecutive slots from `start`:
      the value `v` under (w, start), (w, start + 1), ... */
  function RunEvents<W, V>(w: W, start: int, n: nat, v: V): seq<((W, int), V)> {
    seq(n, o => ((w, start + o), v))
  }

  /** One `defaultdict(int)` step: `d[k] += x`. */
  function AddTo<K(==)>(d: Dict<K, int>, k: K, x: int): Dict<K, int> {
    Put(d, k, Get(d, k, 0) + x)
  }

  /** The `defaultdict(int)` obtained by adding each event's amount under
      its key, in order. */
  function Totals<K(==)>(events: seq<(K, int)>): Dict<K, int> {
    if events == [] then []
    else
      var e := events[|events| - 1];
      AddTo(Totals(events[..|events| - 1]), e.0, e.1)
  }

  function Sum(xs: seq<int>): int {
    if xs == [] then 0 else Sum(xs[..|xs| - 1]) + xs[|xs| - 1]
  }

  /** Sum of `f` over the values of a dict, in order. */
  function SumBy<K, V>(d: Dict<K, V>, f: V -> int): int {
    if d == [] then 0 else SumBy(d[..|d| - 1], f) + f(d[|d| - 1].1)
  }

  // ---------------------------------------------------------------------
  // Lemmas
  // ---------------------------------------------------------------------

  lemma KeysSnoc<K, V>(d: seq<(K, V)>, p: (K, V))
    ensures Keys(d + [p]) == Keys(d) + {p.0}
  {
    forall k | k in Keys(d) ensures k in Keys(d + [p]) {
      var i :| 0 <= i < |d| && d[i].0 == k;
      assert (d + [p])[i] == d[i];
    }
    assert (d + [p])[|d|] == p;
    forall k | k in Keys(d + [p]) ensures k in Keys(d) + {p.0} {
      var i :| 0 <= i < |d + [p]| && (d + [p])[i].0 == k;
      if i < |d| { assert d[i] == (d + [p])[i]; }
    }
  }

  lemma KeysPrefix<K, V>(d: seq<(K, V)>)
    requires d != []
    ensures d == d[..|d| - 1] + [d[|d| - 1]]
    ensures Keys(d) == Keys(d[..|d| - 1]) + {d[|d| - 1].0}
  {
    assert d == d[..|d| - 1] + [d[|d| - 1]];
    KeysSnoc(d[..|d| - 1], d[|d| - 1]);
  }

  lemma IndexOfKeys<K, V>(d: Dict<K, V>, k: K)
    ensures IndexOf(d, k) >= 0 <==> k in Keys(d)
  {
    var i := IndexOf(d, k);
    if i >= 0 {
      assert d[i].0 in Keys(d);
    }
  }

  lemma GetAt<K, V>(d: Dict<K, V>, i: nat, dflt: V)
    requires DistinctKeys(d) && i < |d|
    ensures Get(d, d[i].0, dflt) == d[i].1
  {
  }

  lemma {:induction false} KeysCard<K, V>(d: seq<(K, V)>)
    ensures |Keys(d)| <= |d|
    ensures |Keys(d)| == |d| <==> DistinctKeys(d)
    decreases |d|
  {
    if d == [] {
      assert Keys(d) == {};
    } else {
      var p, e := d[..|d| - 1], d[|d| - 1];
      KeysPrefix(d);
      KeysCard(p);
      if e.0 in Keys(p) {
        RepeatedLastKey(d);
      } else {
        assert |Keys(d)| == |Keys(p)| + 1;
        DistinctSnoc(d);
      }
    }
  }

  /** A last key already present earlier repeats a key. */
  lemma RepeatedLastKey<K, V>(d: seq<(K, V)>)
    requires d != [] && d[|d| - 1].0 in Keys(d[..|d| - 1])
    ensures !DistinctKeys(d)
  {
    var p := d[..|d| - 1];
    var j :| 0 <= j < |p| && p[j].0 == d[|d| - 1].0;
    assert d[j].0 == d[|d| - 1].0;
  }

  /** Appending a new key keeps the keys distinct exactly when they were. */
  lemma DistinctSnoc<K, V>(d: seq<(K, V)>)
    requires d != [] && d[|d| - 1].0 !in Keys(d[..|d| - 1])
    ensures DistinctKeys(d) <==> DistinctKeys(d[..|d| - 1])
  {
    var p, e := d[..|d| - 1], d[|d| - 1];
    if DistinctKeys(p) {
      forall j | 0 <= j < |p| ensures d[j].0 != e.0 {
        assert p[j].0 in Keys(p);
      }
    } else {
      var i, j :| 0 <= i < j < |p| && p[i].0 == p[j].0;
      assert d[i].0 == d[j].0;
    }
  }

  lemma PutSpec<K, V>(d: Dict<K, V>, k: K, v: V)
    requires DistinctKeys(d)
    ensures DistinctKeys(Put(d, k, v))
    ensures Keys(Put(d, k, v)) == Keys(d) + {k}
    ensures |Put(d, k, v)| == |d| + (if k in Keys(d) then 0 else 1)
    ensures forall k', dflt :: Get(Put(d, k, v), k', dflt) == if k' == k then v else Get(d, k', dflt)
  {
    IndexOfKeys(d, k);
    var i := IndexOf(d, k);
    var r := Put(d, k, v);
    if i >= 0 {
      assert r == d[i := (k, v)];
      forall k' ensures k' in Keys(r) <==> k' in Keys(d) {
        IndexOfKeys(d, k');
        IndexOfKeys(r, k');
        if k' in Keys(d) {
          var j := IndexOf(d, k');
          assert r[j].0 == k';
        }
        if k' in Keys(r) {
          var j := IndexOf(r, k');
          assert d[j].0 == k';
        }
      }
      forall k', dflt ensures Get(r, k', dflt) == if k' == k then v else Get(d, k', dflt) {
        var j := IndexOf(d, k');
        if j >= 0 {
          assert r[j].0 == k';
          GetAt(r, j, dflt);
        } else {
          assert forall m :: 0 <= m < |r| ==> r[m].0 == d[m].0;
        }
      }
    } else {
      assert r == d + [(k, v)];
      KeysSnoc(d, (k, v));
      forall k', dflt ensures Get(r, k', dflt) == if k' == k then v else Get(d, k', dflt) {
        if k' == k {
          GetAt(r, |d|, dflt);
        } else {
          var j := IndexOf(d, k');
          if j >= 0 {
            GetAt(r, j, dflt);
          }
        }
      }
    }
  }

  /** A dict filled from pairs holds each key once, exactly the keys of the
      pairs, each with the value last assigned to it. */
  lemma {:induction false} PutAllSpec<K, V>(pairs: seq<(K, V)>)
    ensures DistinctKeys(PutAll(pairs))
    ensures Keys(PutAll(pairs)) == Keys(pairs)
    ensures forall k, dflt :: k in Keys(pairs) ==> Get(PutAll(pairs), k, dflt) == LastValue(pairs, k)
    decreases |pairs|
  {
    if pairs == [] {
      assert Keys(pairs) == {};
    } else {
      var p, e := pairs[..|pairs| - 1], pairs[|pairs| - 1];
      KeysPrefix(pairs);
      PutAllSpec(p);
      PutSpec(PutAll(p), e.0, e.1);
    }
  }

  /** Pairs whose keys are already distinct fill a dict that is the pairs
      themselves, in the same order. */
  lemma {:induction false} PutAllDistinct<K, V>(pairs: seq<(K, V)>)
    requires DistinctKeys(pairs)
    ensures PutAll(pairs) == pairs
    decreases |pairs|
  {
    if pairs != [] {
      var p, e := pairs[..|pairs| - 1], pairs[|pairs| - 1];
      KeysPrefix(pairs);
      assert DistinctKeys(p);
      PutAllDistinct(p);
      PutAllSpec(p);
      IndexOfKeys(p, e.0);
    }
  }

  /** The tabulation keeps each key once, has exactly the keys of the
      events, and under each key lists every event value with that key, in
      event order. */
  lemma {:induction false} TabulateSpec<K, V>(events: seq<(K, V)>)
    ensures DistinctKeys(Tabulate(events))
    ensures Keys(Tabulate(events)) == Keys(events)
    ensures forall k :: Get(Tabulate(events), k, []) == Filter(events, k)
    decreases |events|
  {
    if events == [] {
      assert Keys(events) == {};
    } else {
      var p, e := events[..|events| - 1], events[|events| - 1];
      KeysPrefix(events);
      TabulateSpec(p);
      PutSpec(Tabulate(p), e.0, Get(Tabulate(p), e.0, []) + [e.1]);
    }
  }

  lemma TabulateSnoc<K, V>(events: seq<(K, V)>, e: (K, V))
    ensures Tabulate(events + [e]) == Append(Tabulate(events), e.0, e.1)
  {
    assert (events + [e])[..|events|] == events;
  }

  lemma TabulateExtend<K, V>(events: seq<(K, V)>, prefix: seq<(K, V)>, e: (K, V))
    requires events == prefix + [e]
    ensures Tabulate(events) == Append(Tabulate(prefix), e.0, e.1)
  {
    TabulateSnoc(prefix, e);
  }

  lemma TallyExtend<K>(keys: seq<K>, prefix: seq<K>, k: K)
    requires keys == prefix + [k]
    ensures Tally(keys) == Bump(Tally(prefix), k)
  {
    TallySnoc(prefix, k);
  }

  lemma TallySnoc<K>(keys: seq<K>, k: K)
    ensures Tally(keys + [k]) == Bump(Tally(keys), k)
  {
    assert (keys + [k])[..|keys|] == keys;
  }

  /** The tally keeps each key once, has exactly the counted keys, and
      holds under each key the number of times it was counted. */
  lemma {:induction false} TallySpec<K>(keys: seq<K>)
    ensures DistinctKeys(Tally(keys))
    ensures forall k :: k in Keys(Tally(keys)) <==> k in keys
    ensures forall k :: Get(Tally(keys), k, 0) == multiset(keys)[k]
    decreases |keys|
  {
    if keys != [] {
      var p, k := keys[..|keys| - 1], keys[|keys| - 1];
      assert keys == p + [k];
      TallySpec(p);
      PutSpec(Tally(p), k, Get(Tally(p), k, 0) + 1);
    }
  }

  /** Every entry of a tally holds its key's count. */
  lemma TallyAt<K>(keys: seq<K>, i: nat)
    requires i < |Tally(keys)|
    ensures Tally(keys)[i].1 == multiset(keys)[Tally(keys)[i].0]
    ensures Tally(keys)[i].0 in keys
  {
    TallySpec(keys);
    GetAt(Tally(keys), i, 0);
    assert Tally(keys)[i].0 in Keys(Tally(keys));
  }

  lemma {:induction false} FilterConcat<K, V>(a: seq<(K, V)>, b: seq<(K, V)>, k: K)
    ensures Filter(a + b, k) == Filter(a, k) + Filter(b, k)
    decreases |b|
  {
    if b == [] {
      assert a + b == a;
    } else {
      var b', e := b[..|b| - 1], b[|b| - 1];
      assert (a + b)[..|a + b| - 1] == a + b';
      assert (a + b)[|a + b| - 1] == e;
      FilterConcat(a, b', k);
    }
  }

  /** No event has key `k`: nothing is filed under it. */
  lemma {:induction false} FilterNone<K, V>(events: seq<(K, V)>, k: K)
    requires forall i :: 0 <= i < |events| ==> events[i].0 != k
    ensures Filter(events, k) == []
    decreases |events|
  {
    if events != [] {
      FilterNone(events[..|events| - 1], k);
    }
  }

  /** Exactly one event has key `k`: its value alone is filed under it. */
  lemma {:induction false} FilterOne<K, V>(events: seq<(K, V)>, k: K, m: nat)
    requires m < |events| && events[m].0 == k
    requires forall i :: 0 <= i < |events| && i != m ==> events[i].0 != k
    ensures Filter(events, k) == [events[m].1]
    decreases |events|
  {
    var p := events[..|events| - 1];
    if m == |events| - 1 {
      FilterNone(p, k);
    } else {
      FilterOne(p, k, m);
    }
  }

  /** Every entry of a tabulation holds the full list of its key's events. */
  lemma TabulateAt<K, V>(events: seq<(K, V)>, i: nat)
    requires i < |Tabulate(events)|
    ensures Tabulate(events)[i].1 == Filter(events, Tabulate(events)[i].0)
    ensures Tabulate(events)[i].0 in Keys(events)
  {
    TabulateSpec(events);
    GetAt(Tabulate(events), i, []);
  }

  lemma {:induction false} FilterNonEmpty<K, V>(events: seq<(K, V)>, k: K)
    ensures |Filter(events, k)| >= 1 <==> k in Keys(events)
    decreases |events|
  {
    if events == [] {
      assert Keys(events) == {};
    } else {
      KeysPrefix(events);
      FilterNonEmpty(events[..|events| - 1], k);
    }
  }

  lemma {:induction false} SumBySnoc<K, V>(d: Dict<K, V>, p: (K, V), f: V -> int)
    ensures SumBy(d + [p], f) == SumBy(d, f) + f(p.1)
  {
    assert (d + [p])[..|d|] == d;
  }

  lemma {:induction false} SumByUpdate<K, V>(d: Dict<K, V>, i: nat, p: (K, V), f: V -> int)
    requires i < |d|
    ensures SumBy(d[i := p], f) == SumBy(d, f) - f(d[i].1) + f(p.1)
    decreases |d|
  {
    var n := |d|;
    if i < n - 1 {
      assert d[i := p][..n - 1] == d[..n - 1][i := p];
      SumByUpdate(d[..n - 1], i, p, f);
    } else {
      assert d[i := p][..n - 1] == d[..n - 1];
    }
  }

  /** Summing a non-negative quantity gives a non-negative total. */
  lemma {:induction false} SumByNonNegative<K, V>(d: Dict<K, V>, f: V -> int)
    requires forall i :: 0 <= i < |d| ==> f(d[i].1) >= 0
    ensures SumBy(d, f) >= 0
    decreases |d|
  {
    if d != [] {
      SumByNonNegative(d[..|d| - 1], f);
    }
  }

  /** The sum is zero exactly when every summand is zero. */
  lemma {:induction false} SumByZero<K, V>(d: Dict<K, V>, f: V -> int)
    requires forall i :: 0 <= i < |d| ==> f(d[i].1) >= 0
    ensures SumBy(d, f) == 0 <==> forall i :: 0 <= i < |d| ==> f(d[i].1) == 0
    decreases |d|
  {
    if d != [] {
      var p := d[..|d| - 1];
      SumByZero(p, f);
      SumByNonNegative(p, f);
      assert forall i :: 0 <= i < |p| ==> p[i] == d[i];
    }
  }

  function Len<V>(v: seq<V>): int {
    |v|
  }

  /** The lists of a tabulation together hold every event once. */
  lemma {:induction false} TabulateTotal<K, V>(events: seq<(K, V)>)
    ensures SumBy(Tabulate(events), Len) == |events|
    decreases |events|
  {
    if events != [] {
      var p, e := events[..|events| - 1], events[|events| - 1];
      TabulateTotal(p);
      var t := Tabulate(p);
      var i := IndexOf(t, e.0);
      if i >= 0 {
        SumByUpdate(t, i, (e.0, t[i].1 + [e.1]), Len);
      } else {
        SumBySnoc(t, (e.0, [e.1]), Len);
      }
    }
  }

  lemma GatherSnoc<K, V, T>(d: seq<(K, V)>, p: (K, V), f: ((K, V)) -> seq<T>)
    ensures Gather(d + [p], f) == Gather(d, f) + f(p)
  {
    assert (d + [p])[..|d|] == d;
  }

  lemma GatherStep<K, V, T>(d: seq<(K, V)>, i: nat, f: ((K, V)) -> seq<T>)
    requires i < |d|
    ensures Gather(d[..i + 1], f) == Gather(d[..i], f) + f(d[i])
  {
    assert d[..i + 1][..i] == d[..i];
  }

  /** Filtering gathered records by key is gathering the filtered records of
      each pair. */
  lemma {:induction false} FilterGather<K, V, T, W>(d: seq<(K, V)>, f: ((K, V)) -> seq<(T, W)>,
                                                    key: T, h: ((K, V)) -> seq<W>)
    requires forall p :: Filter(f(p), key) == h(p)
    ensures Filter(Gather(d, f), key) == Gather(d, h)
    decreases |d|
  {
    if d != [] {
      FilterGather(d[..|d| - 1], f, key, h);
      FilterConcat(Gather(d[..|d| - 1], f), f(d[|d| - 1]), key);
    }
  }

  /** A run of slots holds the value once under (w, slot) when the slot lies
      in the run, and not at all otherwise. */
  lemma FilterRun<W, V>(w: W, start: int, n: nat, v: V, key: (W, int))
    ensures Filter(RunEvents(w, start, n, v), key)
         == if key.0 == w && start <= key.1 < start + n then [v] else []
  {
    var ev := RunEvents(w, start, n, v);
    if key.0 == w && start <= key.1 < start + n {
      FilterOne(ev, key, key.1 - start);
    } else {
      FilterNone(ev, key);
    }
  }

  /** The totals keep each key once, have exactly the keys of the events,
      and hold under each key the sum of its events' amounts. */
  lemma {:induction false} TotalsSpec<K>(events: seq<(K, int)>)
    ensures DistinctKeys(Totals(events))
    ensures Keys(Totals(events)) == Keys(events)
    ensures forall k :: Get(Totals(events), k, 0) == Sum(Filter(events, k))
    decreases |events|
  {
    if events == [] {
      assert Keys(events) == {};
    } else {
      var p, e := events[..|events| - 1], events[|events| - 1];
      KeysPrefix(events);
      TotalsSpec(p);
      PutSpec(Totals(p), e.0, Get(Totals(p), e.0, 0) + e.1);
      var t := Put(Totals(p), e.0, Get(Totals(p), e.0, 0) + e.1);
      assert Totals(events) == t;
      forall k ensures Get(t, k, 0) == Sum(Filter(events, k)) {
        FilterSumSnoc(events, k);
        assert Get(t, k, 0) == if k == e.0 then Get(Totals(p), k, 0) + e.1 else Get(Totals(p), k, 0);
      }
    }
  }

  /** The amounts under `k` grow by the last event's amount when it is
      under `k`. */
  lemma FilterSumSnoc<K>(events: seq<(K, int)>, k: K)
    requires events != []
    ensures Sum(Filter(events, k)) == Sum(Filter(events[..|events| - 1], k))
              + (if events[|events| - 1].0 == k then events[|events| - 1].1 else 0)
  {
    var p, e := events[..|events| - 1], events[|events| - 1];
    var f := Filter(p, k);
    if e.0 == k {
      assert Filter(events, k) == f + [e.1];
      assert (f + [e.1])[..|f|] == f;
    } else {
      assert Filter(events, k) == f;
    }
  }

  lemma TotalsAt<K>(events: seq<(K, int)>, i: nat)
    requires i < |Totals(events)|
    ensures Totals(events)[i].1 == Sum(Filter(events, Totals(events)[i].0))
    ensures Totals(events)[i].0 in Keys(events)
  {
    TotalsSpec(events);
    GetAt(Totals(events), i, 0);
  }

  lemma TotalsExtend<K>(events: seq<(K, int)>, prefix: seq<(K, int)>, e: (K, int))
    requires events == prefix + [e]
    ensures Totals(events) == AddTo(Totals(prefix), e.0, e.1)
  {
    assert events[..|prefix|] == prefix;
  }

  lemma NonNegativeAt<T>(f: T -> int, x: T)
    requires forall v :: f(v) >= 0
    ensures f(x) >= 0
  {
  }

  /** Over a dict with distinct keys, a non-negative quantity sums to zero
      exactly when it is zero at every key. */
  lemma SumByZeroAtKeys<K, V>(d: Dict<K, V>, f: V -> int, dflt: V)
    requires DistinctKeys(d)
    requires forall i :: 0 <= i < |d| ==> f(d[i].1) >= 0
    ensures SumBy(d, f) == 0 <==> forall k :: k in Keys(d) ==> f(Get(d, k, dflt)) == 0
  {
    SumByZero(d, f);
    if SumBy(d, f) == 0 {
      forall k | k in Keys(d) ensures f(Get(d, k, dflt)) == 0 {
        var i :| 0 <= i < |d| && d[i].0 == k;
        GetAt(d, i, dflt);
      }
    } else {
      var i :| 0 <= i < |d| && f(d[i].1) != 0;
      GetAt(d, i, dflt);
      assert d[i].0 in Keys(d);
    }
  }

  /** A tabulation sums a non-negative quantity to zero exactly when the
      quantity is zero on the values filed under every key. */
  lemma TabulateSumZero<K, V>(events: seq<(K, V)>, f: seq<V> -> int)
    requires forall v :: f(v) >= 0
    ensures SumBy(Tabulate(events), f) == 0 <==> forall k :: k in Keys(events) ==> f(Filter(events, k)) == 0
  {
    var t := Tabulate(events);
    forall i | 0 <= i < |t| ensures f(t[i].1) >= 0 {
      NonNegativeAt(f, t[i].1);
    }
    TabulateSpec(events);
    SumByZeroAtKeys(t, f, []);
  }

  /** Totals sum a non-negative quantity to zero exactly when the quantity
      is zero on the total of every key. */
  lemma TotalsSumZero<K>(events: seq<(K, int)>, f: int -> int)
    requires forall v :: f(v) >= 0
    ensures SumBy(Totals(events), f) == 0 <==> forall k :: k in Keys(events) ==> f(Sum(Filter(events, k))) == 0
  {
    TotalsSpec(events);
    var t := Totals(events);
    forall i | 0 <= i < |t| ensures f(t[i].1) >= 0 {
      var v := t[i].1;
      assert f(v) >= 0;
    }
    SumByZeroAtKeys(t, f, 0);
  }
}
