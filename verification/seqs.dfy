/** List comprehensions the actions use: `[x for x in xs if keep(x)]`,
    `[x for i, x in enumerate(xs) if i not in drop]` and `list(range(n))`,
    with the `min` and `max` that bound slices and windows. */
module Seqs {

  function Filter<T>(xs: seq<T>, keep: T -> bool): (r: seq<T>)
    ensures |r| <= |xs|
    ensures forall k :: 0 <= k < |r| ==> r[k] in xs && keep(r[k])
    ensures forall k :: 0 <= k < |xs| && keep(xs[k]) ==> xs[k] in r
    decreases |xs|
  {
    if |xs| == 0 then []
    else
      var rest := Filter(xs[1..], keep);
      assert forall k :: 1 <= k < |xs| ==> xs[k] == xs[1..][k - 1];
      if keep(xs[0]) then [xs[0]] + rest else rest
  }

  /** Filtering distributes over concatenation, so the kept items keep their
      relative order. */
  lemma {:induction false} FilterAppend<T>(a: seq<T>, b: seq<T>, keep: T -> bool)
    ensures Filter(a + b, keep) == Filter(a, keep) + Filter(b, keep)
    decreases |a|
  {
    if |a| > 0 {
      assert (a + b)[1..] == a[1..] + b;
      FilterAppend(a[1..], b, keep);
    } else {
      assert a + b == b;
    }
  }

  /** Two predicates that agree on every item keep the same items. */
  lemma {:induction false} FilterAgrees<T>(xs: seq<T>, p: T -> bool, q: T -> bool)
    requires forall k :: 0 <= k < |xs| ==> p(xs[k]) == q(xs[k])
    ensures Filter(xs, p) == Filter(xs, q)
    decreases |xs|
  {
    if |xs| > 0 {
      assert p(xs[0]) == q(xs[0]);
      FilterAgrees(xs[1..], p, q);
    }
  }

  /** `[0, 1, ..., n - 1]`. */
  function Range(n: nat): (r: seq<int>)
    ensures |r| == n
    ensures forall k :: 0 <= k < n ==> r[k] == k
  {
    seq(n, k => k)
  }

  /** The items whose position is not in `drop`, in their original order. */
  function DropIndices<T>(xs: seq<T>, drop: set<int>): (r: seq<T>)
    ensures |r| <= |xs|
    decreases |xs|
  {
    if |xs| == 0 then []
    else
      var rest := DropIndices(xs[..|xs| - 1], drop);
      if |xs| - 1 in drop then rest else rest + [xs[|xs| - 1]]
  }

  /** The positions `DropIndices` keeps, in increasing order. */
  function KeptPositions(n: nat, drop: set<int>): (r: seq<nat>)
    ensures forall k :: 0 <= k < |r| ==> r[k] < n && r[k] !in drop
    ensures forall i :: 0 <= i < n && i !in drop ==> i in r
    ensures forall a, b :: 0 <= a < b < |r| ==> r[a] < r[b]
    decreases n
  {
    if n == 0 then []
    else
      var rest := KeptPositions(n - 1, drop);
      if n - 1 in drop then rest else rest + [n - 1]
  }

  /** `DropIndices` keeps exactly the items at the positions not dropped, in
      order: its result lists `xs[p]` for each kept position `p`, ascending. */
  lemma {:induction false} DropIndicesKeepsOrder<T>(xs: seq<T>, drop: set<int>)
    ensures var ps := KeptPositions(|xs|, drop);
            var r := DropIndices(xs, drop);
            |r| == |ps| && forall k :: 0 <= k < |r| ==> r[k] == xs[ps[k]]
    decreases |xs|
  {
    if |xs| > 0 {
      var n := |xs|;
      var init := xs[..n - 1];
      DropIndicesKeepsOrder(init, drop);
      var ps0 := KeptPositions(n - 1, drop);
      var r0 := DropIndices(init, drop);
      assert DropIndices(xs, drop) == if n - 1 in drop then r0 else r0 + [xs[n - 1]];
      assert KeptPositions(n, drop) == if n - 1 in drop then ps0 else ps0 + [n - 1];
      forall k | 0 <= k < |r0| ensures r0[k] == xs[ps0[k]] {
        assert ps0[k] < n - 1;
        assert init[ps0[k]] == xs[ps0[k]];
      }
    }
  }

  /** `set(range(n))`. */
  function Positions(n: nat): (r: set<int>)
    ensures forall i :: i in r <==> 0 <= i < n
  {
    if n == 0 then {} else Positions(n - 1) + {n - 1}
  }

  /** Dropping nothing keeps everything; dropping every position keeps nothing. */
  lemma {:induction false} DropIndicesExtremes<T>(xs: seq<T>)
    ensures DropIndices(xs, {}) == xs
    ensures DropIndices(xs, Positions(|xs|)) == []
    decreases |xs|
  {
    if |xs| > 0 {
      var init := xs[..|xs| - 1];
      DropIndicesExtremes(init);
      assert DropIndices(xs, Positions(|xs|)) == DropIndices(init, Positions(|xs|));
      DropIndicesOutside(init, Positions(|init|), Positions(|xs|));
      assert xs == init + [xs[|xs| - 1]];
    }
  }

  /** Only the dropped positions below `|xs|` matter. */
  lemma {:induction false} DropIndicesOutside<T>(xs: seq<T>, a: set<int>, b: set<int>)
    requires forall i :: 0 <= i < |xs| ==> (i in a <==> i in b)
    ensures DropIndices(xs, a) == DropIndices(xs, b)
    decreases |xs|
  {
    if |xs| > 0 {
      DropIndicesOutside(xs[..|xs| - 1], a, b);
    }
  }

  predicate Increasing(xs: seq<int>) {
    forall a, b :: 0 <= a < b < |xs| ==> xs[a] < xs[b]
  }

  /** Adds `x` to an increasing list, keeping it increasing and free of
      repeats. */
  function Insert(sorted: seq<int>, x: int): (r: seq<int>)
    requires Increasing(sorted)
    ensures Increasing(r)
    ensures forall y :: y in r <==> y in sorted || y == x
    decreases |sorted|
  {
    if |sorted| == 0 then [x]
    else if x < sorted[0] then [x] + sorted
    else if x == sorted[0] then sorted
    else
      var first := sorted[0];
      var tail := sorted[1..];
      assert Increasing(tail) by {
        forall a, b | 0 <= a < b < |tail| ensures tail[a] < tail[b] {
          assert tail[a] == sorted[a + 1] && tail[b] == sorted[b + 1];
        }
      }
      var rest := Insert(tail, x);
      forall k | 0 <= k < |rest| ensures first < rest[k] {
        var y := rest[k];
        assert y in rest;
        if y != x {
          var j :| 0 <= j < |tail| && tail[j] == y;
          assert tail[j] == sorted[j + 1];
        }
      }
      var r := [first] + rest;
      forall a, b | 0 <= a < b < |r| ensures r[a] < r[b] {
        assert r[b] == rest[b - 1];
        if a > 0 {
          assert r[a] == rest[a - 1];
        }
      }
      assert sorted == [first] + tail;
      assert forall y :: y in r <==> y == first || y in rest;
      r
  }

  /** `list(set(xs))` with the items in ascending order: each distinct item
      once. */
  function SortedUnique(xs: seq<int>): (r: seq<int>)
    ensures Increasing(r)
    ensures forall y :: y in r <==> y in xs
    decreases |xs|
  {
    if |xs| == 0 then []
    else
      var init := xs[..|xs| - 1];
      assert xs == init + [xs[|xs| - 1]];
      Insert(SortedUnique(init), xs[|xs| - 1])
  }

  function Min(a: int, b: int): int { if a <= b then a else b }
  function Max(a: int, b: int): int { if a >= b then a else b }
}
