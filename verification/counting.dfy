/** Zero-filled tallies, the common shape of every chart in the system: a list
    of keys (days of a month, spot ids, subscriber ids, months, hours), each
    paired with the number of items equal to it. `SortedKeys` plays the part of
    a `TreeMap`'s key set and `Range` the part of a `LinkedHashMap` filled in
    ascending order or of a fixed-size `int[]`. */
module Counting {

  /** How many times `k` occurs in `xs`. */
  function Occ(xs: seq<int>, k: int): (n: nat)
    ensures n <= |xs|
    ensures n == 0 <==> k !in xs
  {
    if xs == [] then 0 else (if xs[0] == k then 1 else 0) + Occ(xs[1..], k)
  }

  function Sum(s: seq<nat>): nat {
    if s == [] then 0 else s[0] + Sum(s[1..])
  }

  predicate StrictlyAscending(s: seq<int>) {
    forall i, j :: 0 <= i < j < |s| ==> s[i] < s[j]
  }

  predicate Distinct(s: seq<int>) {
    forall i, j :: 0 <= i < j < |s| ==> s[i] != s[j]
  }

  /** The items of `xs` that are among `keys`, in order. */
  function Among(xs: seq<int>, keys: seq<int>): (r: seq<int>)
    ensures |r| <= |xs|
  {
    if xs == [] then []
    else
      (if xs[0] in keys then [xs[0]] else []) + Among(xs[1..], keys)
  }

  lemma {:induction false} AmongCovering(xs: seq<int>, keys: seq<int>)
    requires forall i :: 0 <= i < |xs| ==> xs[i] in keys
    ensures Among(xs, keys) == xs
  {
    if xs != [] {
      AmongCovering(xs[1..], keys);
      assert xs == [xs[0]] + xs[1..];
    }
  }

  /** The count of every key, in key order. */
  function Histogram(keys: seq<int>, xs: seq<int>): (r: seq<nat>)
    ensures |r| == |keys|
    ensures forall i :: 0 <= i < |keys| ==> r[i] == Occ(xs, keys[i])
  {
    if keys == [] then [] else [Occ(xs, keys[0])] + Histogram(keys[1..], xs)
  }

  /** `lo, lo + 1, ..., hi - 1`. */
  function Range(lo: int, hi: int): (r: seq<int>)
    ensures |r| == if lo <= hi then hi - lo else 0
    ensures forall i :: 0 <= i < |r| ==> r[i] == lo + i
    decreases hi - lo
  {
    if hi <= lo then [] else [lo] + Range(lo + 1, hi)
  }

  lemma RangeAscending(lo: int, hi: int)
    ensures StrictlyAscending(Range(lo, hi))
    ensures forall x :: x in Range(lo, hi) <==> lo <= x < hi
  {
    var r := Range(lo, hi);
    forall x | lo <= x < hi ensures x in r {
      assert r[x - lo] == x;
    }
  }

  lemma {:induction false} OccCons(x: int, xs: seq<int>, k: int)
    ensures Occ([x] + xs, k) == (if x == k then 1 else 0) + Occ(xs, k)
  {
    assert ([x] + xs)[1..] == xs;
  }

  lemma {:induction false} SumHistogramCons(keys: seq<int>, x: int, xs: seq<int>)
    requires Distinct(keys)
    ensures Sum(Histogram(keys, [x] + xs)) == Sum(Histogram(keys, xs)) + (if x in keys then 1 else 0)
  {
    if keys != [] {
      OccCons(x, xs, keys[0]);
      assert Distinct(keys[1..]);
      SumHistogramCons(keys[1..], x, xs);
      assert keys == [keys[0]] + keys[1..];
      assert x in keys <==> x == keys[0] || x in keys[1..];
      assert x == keys[0] ==> x !in keys[1..];
    }
  }

  /** The counts of distinct keys add up to the number of items that hit a key. */
  lemma {:induction false} SumHistogram(keys: seq<int>, xs: seq<int>)
    requires Distinct(keys)
    ensures Sum(Histogram(keys, xs)) == |Among(xs, keys)|
  {
    if xs != [] {
      var x, rest := xs[0], xs[1..];
      assert xs == [x] + rest;
      SumHistogram(keys, rest);
      SumHistogramCons(keys, x, rest);
      var hit := if x in keys then 1 else 0;
      calc {
        Sum(Histogram(keys, xs));
        Sum(Histogram(keys, rest)) + hit;
        |Among(rest, keys)| + hit;
        |Among(xs, keys)|;
      }
    } else {
      SumHistogramNoItems(keys);
    }
  }

  lemma {:induction false} SumHistogramNoItems(keys: seq<int>)
    ensures Sum(Histogram(keys, [])) == 0
  {
    if keys != [] {
      SumHistogramNoItems(keys[1..]);
    }
  }

  /** When every item is a key, the counts add up to the number of items. */
  lemma SumHistogramCovering(keys: seq<int>, xs: seq<int>)
    requires Distinct(keys)
    requires forall i :: 0 <= i < |xs| ==> xs[i] in keys
    ensures Sum(Histogram(keys, xs)) == |xs|
  {
    SumHistogram(keys, xs);
    AmongCovering(xs, keys);
  }

  /** `TreeMap.put(x, ...)` as seen on the key set: `x` joins the ascending keys. */
  function Insert(s: seq<int>, x: int): (r: seq<int>)
    requires StrictlyAscending(s)
    ensures StrictlyAscending(r)
    ensures forall k :: k in r <==> k in s || k == x
  {
    if s == [] then [x]
    else if x < s[0] then [x] + s
    else if x == s[0] then s
    else
      var t := Insert(s[1..], x);
      assert forall k :: k in s[1..] ==> s[0] < k by {
        forall k | k in s[1..] ensures s[0] < k {
          var j :| 0 <= j < |s[1..]| && s[1..][j] == k;
          assert s[j + 1] == k;
        }
      }
      assert forall i :: 0 <= i < |t| ==> s[0] < t[i] by {
        forall i | 0 <= i < |t| ensures s[0] < t[i] {
          assert t[i] in t;
        }
      }
      [s[0]] + t
  }

  /** The keys of a `TreeMap` after putting every element of `xs`. */
  function SortedKeys(xs: seq<int>): (r: seq<int>)
    ensures StrictlyAscending(r)
    ensures forall k :: k in r <==> k in xs
  {
    if xs == [] then []
    else
      var init := xs[..|xs| - 1];
      assert xs == init + [xs[|xs| - 1]];
      Insert(SortedKeys(init), xs[|xs| - 1])
  }

  /** A zero-filled tally: every reference key and every item, ascending,
      each with the number of items equal to it. */
  function Tally(reference: seq<int>, items: seq<int>): (r: seq<(int, nat)>)
    ensures StrictlyAscending(KeysOf(r))
    ensures forall k :: k in KeysOf(r) <==> k in reference || k in items
    ensures forall i :: 0 <= i < |r| ==> r[i].1 == Occ(items, r[i].0)
    ensures Sum(CountsOf(r)) == |items|
  {
    var keys := SortedKeys(reference + items);
    var counts := Histogram(keys, items);
    SumHistogramCovering(keys, items);
    var r := seq(|keys|, i requires 0 <= i < |keys| => (keys[i], counts[i]));
    assert KeysOf(r) == keys;
    assert CountsOf(r) == counts;
    r
  }

  function KeysOf(r: seq<(int, nat)>): (ks: seq<int>)
    ensures |ks| == |r| && forall i :: 0 <= i < |r| ==> ks[i] == r[i].0
  {
    seq(|r|, i requires 0 <= i < |r| => r[i].0)
  }

  function CountsOf(r: seq<(int, nat)>): (cs: seq<nat>)
    ensures |cs| == |r| && forall i :: 0 <= i < |r| ==> cs[i] == r[i].1
  {
    seq(|r|, i requires 0 <= i < |r| => r[i].1)
  }

  /** The elements of `xs` that satisfy `p`, in order (`stream().filter`). */
  function Filter<T(==)>(xs: seq<T>, p: T -> bool): (r: seq<T>)
    ensures |r| <= |xs|
    ensures forall i :: 0 <= i < |r| ==> p(r[i]) && r[i] in xs
    ensures forall i :: 0 <= i < |xs| && p(xs[i]) ==> xs[i] in r
  {
    if xs == [] then []
    else
      var rest := Filter(xs[1..], p);
      assert forall i :: 1 <= i < |xs| ==> xs[i] == xs[1..][i - 1];
      (if p(xs[0]) then [xs[0]] else []) + rest
  }

  /** Filtering distributes over concatenation, so it keeps the original order. */
  lemma {:induction false} FilterAppend<T>(a: seq<T>, b: seq<T>, p: T -> bool)
    ensures Filter(a + b, p) == Filter(a, p) + Filter(b, p)
  {
    if a != [] {
      assert (a + b)[1..] == a[1..] + b;
      FilterAppend(a[1..], b, p);
    } else {
      assert a + b == b;
    }
  }

  /** Filtering keeps everything exactly when every element passes. */
  lemma {:induction false} FilterAll<T>(xs: seq<T>, p: T -> bool)
    ensures Filter(xs, p) == xs <==> forall i :: 0 <= i < |xs| ==> p(xs[i])
  {
    if xs != [] {
      FilterAll(xs[1..], p);
      assert forall i :: 1 <= i < |xs| ==> xs[i] == xs[1..][i - 1];
      if !p(xs[0]) {
        assert |Filter(xs, p)| < |xs|;
      }
    }
  }

  /** Filtering keeps nothing when no element passes. */
  lemma {:induction false} FilterNone<T>(xs: seq<T>, p: T -> bool)
    requires forall i :: 0 <= i < |xs| ==> !p(xs[i])
    ensures Filter(xs, p) == []
  {
    if xs != [] {
      assert forall i :: 1 <= i < |xs| ==> xs[i] == xs[1..][i - 1];
      FilterNone(xs[1..], p);
    }
  }

  /** Filtering drops a block of failing elements from between two blocks of
      passing ones. */
  lemma FilterDropsMiddle<T>(head: seq<T>, mid: seq<T>, tail: seq<T>, p: T -> bool)
    requires forall i :: 0 <= i < |head| ==> p(head[i])
    requires forall i :: 0 <= i < |mid| ==> !p(mid[i])
    requires forall i :: 0 <= i < |tail| ==> p(tail[i])
    ensures Filter(head + mid + tail, p) == head + tail
  {
    FilterAppend(head + mid, tail, p);
    FilterAppend(head, mid, p);
    FilterAll(head, p);
    FilterAll(tail, p);
    FilterNone(mid, p);
    assert head + [] == head;
  }

  /** Filtering by `p` and then by `q` is filtering once by their conjunction. */
  lemma {:induction false} FilterThen<T>(xs: seq<T>, p: T -> bool, q: T -> bool, pq: T -> bool)
    requires forall x :: pq(x) == (p(x) && q(x))
    ensures Filter(Filter(xs, p), q) == Filter(xs, pq)
  {
    if xs != [] {
      FilterThen(xs[1..], p, q, pq);
      FilterAppend(if p(xs[0]) then [xs[0]] else [], Filter(xs[1..], p), q);
    }
  }

  /** A predicate and its negation split a sequence between them. */
  lemma {:induction false} FilterPartition<T>(xs: seq<T>, p: T -> bool, q: T -> bool)
    requires forall x :: q(x) == !p(x)
    ensures |Filter(xs, p)| + |Filter(xs, q)| == |xs|
  {
    if xs != [] {
      FilterPartition(xs[1..], p, q);
    }
  }

  /** A stronger predicate keeps no more elements, and keeps as many exactly
      when it loses none of the weaker one's. */
  lemma {:induction false} FilterMonotone<T>(xs: seq<T>, p: T -> bool, q: T -> bool)
    requires forall x :: p(x) ==> q(x)
    ensures |Filter(xs, p)| <= |Filter(xs, q)|
    ensures |Filter(xs, p)| == |Filter(xs, q)| <==> forall i :: 0 <= i < |xs| && q(xs[i]) ==> p(xs[i])
  {
    if xs != [] {
      FilterMonotone(xs[1..], p, q);
      assert forall i :: 1 <= i < |xs| ==> xs[i] == xs[1..][i - 1];
    }
  }
}
