/**
 * Python dictionaries keep their keys in insertion order, and the reports of
 * the flow-log parser list their rows in that order. A dictionary is therefore
 * modelled as an association list: its entries in insertion order, where
 * assigning to a present key overwrites that entry in place and assigning to
 * an absent key appends a new entry at the end.
 */
module OrderedDicts {
  import opened Wrappers

  type Dict<K, V> = seq<(K, V)>

  /** The keys of `d`, in iteration (insertion) order. */
  function Keys<K(==, !new), V>(d: Dict<K, V>): (ks: seq<K>)
    ensures |ks| == |d|
  {
    if d == [] then [] else [d[0].0] + Keys(d[1..])
  }

  /** The `i`-th key is the key of the `i`-th entry. */
  lemma {:induction false} KeysAt<K(!new), V>(d: Dict<K, V>, i: nat)
    requires i < |d|
    ensures Keys(d)[i] == d[i].0
  {
    if i > 0 {
      KeysAt(d[1..], i - 1);
    }
  }

  ghost predicate DistinctKeys<K, V>(d: Dict<K, V>) {
    forall i, j :: 0 <= i < j < |d| ==> d[i].0 != d[j].0
  }

  /** `d[k]` when `k` is a key, None otherwise. */
  function Get<K(==, !new), V>(d: Dict<K, V>, k: K): Option<V> {
    if d == [] then None
    else if d[0].0 == k then Some(d[0].1)
    else Get(d[1..], k)
  }

  /** A lookup fails exactly for the keys that are not in the dictionary. */
  lemma {:induction false} GetDomain<K(!new), V>(d: Dict<K, V>, k: K)
    ensures Get(d, k).None? <==> k !in Keys(d)
  {
    if d != [] && d[0].0 != k {
      GetDomain(d[1..], k);
    }
  }

  /** Python's `d.get(k, default)`. */
  function GetOr<K(==, !new), V>(d: Dict<K, V>, k: K, default: V): V {
    match Get(d, k)
    case Some(v) => v
    case None => default
  }

  /** Python's `d[k] = v`. */
  function Put<K(==, !new), V>(d: Dict<K, V>, k: K, v: V): Dict<K, V> {
    if d == [] then [(k, v)]
    else if d[0].0 == k then [(k, v)] + d[1..]
    else [d[0]] + Put(d[1..], k, v)
  }

  /** After `d[k] = v`, `k` maps to `v` and every other key keeps its value. */
  lemma {:induction false} PutGet<K(!new), V>(d: Dict<K, V>, k: K, v: V)
    ensures Get(Put(d, k, v), k) == Some(v)
    ensures forall j :: j != k ==> Get(Put(d, k, v), j) == Get(d, j)
  {
    if d != [] && d[0].0 != k {
      PutGet(d[1..], k, v);
      assert Put(d, k, v)[1..] == Put(d[1..], k, v);
    }
  }

  /** `d[k] = v` leaves the key order as it was, except that a new `k` is appended at the end. */
  lemma {:induction false} PutKeys<K(!new), V>(d: Dict<K, V>, k: K, v: V)
    ensures Keys(Put(d, k, v)) == if k in Keys(d) then Keys(d) else Keys(d) + [k]
  {
    if d != [] && d[0].0 != k {
      PutKeys(d[1..], k, v);
      var r := Put(d, k, v);
      assert r[1..] == Put(d[1..], k, v);
      assert Keys(d) == [d[0].0] + Keys(d[1..]);
      assert Keys(r) == [d[0].0] + Keys(r[1..]);
    }
  }

  /** Assignment keeps keys unique. */
  lemma PutDistinct<K(!new), V>(d: Dict<K, V>, k: K, v: V)
    requires DistinctKeys(d)
    ensures DistinctKeys(Put(d, k, v))
  {
    var r := Put(d, k, v);
    PutKeys(d, k, v);
    forall i, j | 0 <= i < j < |r| ensures r[i].0 != r[j].0 {
      KeysAt(r, i);
      KeysAt(r, j);
      KeysAt(d, i);
      if j < |d| {
        KeysAt(d, j);
      }
    }
  }

  /** The sum of the values of a dictionary of counts. */
  function Sum<K(==, !new)>(d: Dict<K, int>): int {
    if d == [] then 0 else d[0].1 + Sum(d[1..])
  }

  /** Assignment changes the sum by the difference between the new and the old value. */
  lemma {:induction false} SumPut<K(!new)>(d: Dict<K, int>, k: K, v: int)
    ensures Sum(Put(d, k, v)) == Sum(d) - GetOr(d, k, 0) + v
  {
    if d != [] && d[0].0 != k {
      SumPut(d[1..], k, v);
    }
  }

  /** Python's `d[k] = d.get(k, 0) + 1`. */
  function Increment<K(==, !new)>(d: Dict<K, int>, k: K): Dict<K, int> {
    Put(d, k, GetOr(d, k, 0) + 1)
  }

  /** An increment adds one to the count of `k` and leaves every other count as it was. */
  lemma IncrementCounts<K(!new)>(d: Dict<K, int>, k: K)
    ensures GetOr(Increment(d, k), k, 0) == GetOr(d, k, 0) + 1
    ensures forall j :: j != k ==> Get(Increment(d, k), j) == Get(d, j)
  {
    PutGet(d, k, GetOr(d, k, 0) + 1);
  }

  /** An increment appends `k` to the key order when it is new, and otherwise keeps the order. */
  lemma IncrementKeys<K(!new)>(d: Dict<K, int>, k: K)
    ensures Keys(Increment(d, k)) == if k in Keys(d) then Keys(d) else Keys(d) + [k]
  {
    PutKeys(d, k, GetOr(d, k, 0) + 1);
  }

  /** An increment adds one to the sum of the counts. */
  lemma IncrementSum<K(!new)>(d: Dict<K, int>, k: K)
    ensures Sum(Increment(d, k)) == Sum(d) + 1
  {
    SumPut(d, k, GetOr(d, k, 0) + 1);
  }

  /** The dictionary of occurrence counts built by incrementing once per element of `xs`, in order. */
  function Tally<K(==, !new)>(xs: seq<K>): Dict<K, int> {
    if xs == [] then [] else Increment(Tally(xs[..|xs| - 1]), xs[|xs| - 1])
  }

  /** The position of the first occurrence of `x` in `xs`, or `|xs|` when there is none. */
  function FirstIndex<K(==, !new)>(xs: seq<K>, x: K): (n: nat)
    ensures n <= |xs|
    ensures n < |xs| <==> x in xs
    ensures n < |xs| ==> xs[n] == x
    ensures x !in xs[..n]
  {
    if xs == [] then 0
    else if xs[0] == x then 0
    else
      var n := 1 + FirstIndex(xs[1..], x);
      assert xs[..n] == [xs[0]] + xs[1..][..n - 1];
      n
  }

  /** No key occurs twice in a tally. */
  lemma {:induction false} TallyDistinct<K(!new)>(xs: seq<K>)
    ensures DistinctKeys(Tally(xs))
  {
    if xs != [] {
      var init, x := xs[..|xs| - 1], xs[|xs| - 1];
      TallyDistinct(init);
      var t := Tally(init);
      PutDistinct(t, x, GetOr(t, x, 0) + 1);
    }
  }

  /** The keys of the tally of `xs` are exactly the elements of `xs`. */
  lemma {:induction false} TallyKeys<K(!new)>(xs: seq<K>)
    ensures forall k :: k in Keys(Tally(xs)) <==> k in xs
  {
    if xs != [] {
      var init, x := xs[..|xs| - 1], xs[|xs| - 1];
      TallyKeys(init);
      var t := Tally(init);
      IncrementKeys(t, x);
      assert xs == init + [x];
      var ks := Keys(Tally(xs));
      assert ks == if x in Keys(t) then Keys(t) else Keys(t) + [x];
      forall k ensures k in ks <==> k in xs {
        assert k in xs <==> k in init || k == x;
        assert k in ks <==> k in Keys(t) || k == x;
      }
    }
  }

  /** The tally maps each element to its number of occurrences. */
  lemma {:induction false} TallyCounts<K(!new)>(xs: seq<K>)
    ensures forall k :: GetOr(Tally(xs), k, 0) == multiset(xs)[k]
  {
    if xs != [] {
      var init, x := xs[..|xs| - 1], xs[|xs| - 1];
      TallyCounts(init);
      IncrementCounts(Tally(init), x);
      assert xs == init + [x];
      forall k ensures GetOr(Tally(xs), k, 0) == multiset(xs)[k] {
        if k != x {
          assert Get(Tally(xs), k) == Get(Tally(init), k);
        }
      }
    }
  }

  /** Every count in a tally is at least one. */
  lemma TallyPositive<K(!new)>(xs: seq<K>)
    ensures forall i :: 0 <= i < |Tally(xs)| ==> Tally(xs)[i].1 >= 1
  {
    var t := Tally(xs);
    TallyDistinct(xs);
    TallyKeys(xs);
    TallyCounts(xs);
    forall i | 0 <= i < |t| ensures t[i].1 >= 1 {
      var k := t[i].0;
      KeysAt(t, i);
      assert k in Keys(t);
      assert k in multiset(xs);
      DistinctGet(t, i);
      assert GetOr(t, k, 0) == t[i].1;
    }
  }

  /** In a dictionary without repeated keys, `Get` finds each entry's own value. */
  lemma {:induction false} DistinctGet<K(!new), V>(d: Dict<K, V>, i: nat)
    requires DistinctKeys(d)
    requires i < |d|
    ensures Get(d, d[i].0) == Some(d[i].1)
  {
    if i > 0 {
      DistinctGet(d[1..], i - 1);
    }
  }

  /** The counts of a tally add up to the length of the tallied sequence. */
  lemma {:induction false} TallySum<K(!new)>(xs: seq<K>)
    ensures Sum(Tally(xs)) == |xs|
  {
    if xs != [] {
      TallySum(xs[..|xs| - 1]);
      IncrementSum(Tally(xs[..|xs| - 1]), xs[|xs| - 1]);
    }
  }

  /** The keys of a tally are listed in the order of their first occurrence. */
  lemma {:induction false} TallyOrder<K(!new)>(xs: seq<K>)
    ensures forall i, j :: 0 <= i < j < |Tally(xs)| ==>
      FirstIndex(xs, Tally(xs)[i].0) < FirstIndex(xs, Tally(xs)[j].0)
  {
    if xs != [] {
      var init, x := xs[..|xs| - 1], xs[|xs| - 1];
      TallyOrder(init);
      TallyKeys(init);
      TallyDistinct(init);
      assert xs == init + [x];
      var t, t' := Tally(init), Tally(xs);
      IncrementKeys(t, x);
      var ks, ks' := Keys(t), Keys(t');
      forall i, j | 0 <= i < j < |t'| ensures FirstIndex(xs, t'[i].0) < FirstIndex(xs, t'[j].0) {
        KeysAt(t', i);
        KeysAt(t', j);
        KeysAt(t, i);
        assert ks[i] in init;
        FirstIndexSnoc(init, x, ks[i]);
        if j < |t| {
          KeysAt(t, j);
          assert ks[j] in init;
          FirstIndexSnoc(init, x, ks[j]);
        } else {
          assert ks'[j] == x && x !in init;
          FirstIndexSnoc(init, x, x);
        }
      }
    }
  }

  lemma {:induction false} FirstIndexSnoc<K(!new)>(xs: seq<K>, x: K, k: K)
    requires k in xs || k == x
    ensures FirstIndex(xs + [x], k) == if k in xs then FirstIndex(xs, k) else |xs|
  {
    if xs != [] {
      assert (xs + [x])[1..] == xs[1..] + [x];
      if xs[0] != k {
        FirstIndexSnoc(xs[1..], x, k);
      }
    }
  }
}
