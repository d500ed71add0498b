/** `merge_locations` of `actions/utils/_search.py`: two location strings are
    split into words and aligned with a fuzzy two-pointer walk, so that words
    the strings share are written once.

    The fuzzy scorer (rapidfuzz's `ratio`) is a parameter `score`; the scorer
    `extractOne` applies after its default preprocessing is a second
    parameter `procScore`. `extractOne(y, xs, score_cutoff=80)` finds a match
    exactly when some word of `xs` reaches the cutoff under `procScore`.

    The walk is modelled as a plan: the list of the words it emits, each
    tagged with where it came from. The text is the plan rendered and joined
    with single spaces. */
module LocationMerge {
  import opened Wrappers
  import opened Strings

  type Scorer = (string, string) -> int

  const Cutoff: int := 80

  /** Where an emitted word came from: the first string, a word of the second
      string passed over while resynchronising, or the tail of the second. */
  datatype Piece = FromX(i: nat) | YSkip(j: nat) | YTail(j: nat)

  /** The resynchronisation target: the best score seen so far and its cell. */
  datatype Pick = Pick(best: int, x: nat, y: nat)

  /** Whether `extractOne` finds a word of `xs` that `y` matches. */
  predicate Matched(procScore: Scorer, y: string, xs: seq<string>) {
    exists k :: 0 <= k < |xs| && procScore(y, xs[k]) >= Cutoff
  }

  /** The nested `for i / for j` scan, resumed at cell (i, j): rows `i..` of
      `xs`, columns `yLo..` of `ys`, keeping the first cell with the strictly
      highest score. */
  function Scan(score: Scorer, xs: seq<string>, ys: seq<string>, xLo: nat, yLo: nat,
                i: nat, j: nat, acc: Pick): (r: Pick)
    requires xLo <= i <= |xs| && yLo <= j <= |ys|
    requires (acc.x == |xs| && acc.y == |ys|)
             || (xLo <= acc.x < |xs| && yLo <= acc.y < |ys| && score(xs[acc.x], ys[acc.y]) == acc.best)
    ensures r.best >= acc.best
    ensures r == acc
            || (r.best > acc.best && xLo <= r.x < |xs| && yLo <= r.y < |ys| && score(xs[r.x], ys[r.y]) == r.best)
    decreases |xs| - i, |ys| - j
  {
    if i == |xs| then acc
    else if j == |ys| then Scan(score, xs, ys, xLo, yLo, i + 1, yLo, acc)
    else
      var s := score(xs[i], ys[j]);
      Scan(score, xs, ys, xLo, yLo, i, j + 1, if s > acc.best then Pick(s, i, j) else acc)
  }

  /** No cell the scan still has to visit scores above what it returns. */
  lemma {:induction false} ScanIsBest(score: Scorer, xs: seq<string>, ys: seq<string>, xLo: nat, yLo: nat,
                                      i: nat, j: nat, acc: Pick, a: nat, b: nat)
    requires xLo <= i <= |xs| && yLo <= j <= |ys|
    requires (acc.x == |xs| && acc.y == |ys|)
             || (xLo <= acc.x < |xs| && yLo <= acc.y < |ys| && score(xs[acc.x], ys[acc.y]) == acc.best)
    requires (a == i < |xs| && j <= b < |ys|) || (i < a < |xs| && yLo <= b < |ys|)
    ensures score(xs[a], ys[b]) <= Scan(score, xs, ys, xLo, yLo, i, j, acc).best
    decreases |xs| - i, |ys| - j
  {
    if j == |ys| {
      ScanIsBest(score, xs, ys, xLo, yLo, i + 1, yLo, acc, a, b);
    } else {
      var s := score(xs[i], ys[j]);
      var acc' := if s > acc.best then Pick(s, i, j) else acc;
      if a != i || b != j {
        ScanIsBest(score, xs, ys, xLo, yLo, i, j + 1, acc', a, b);
      }
    }
  }

  /** Where the walk resumes after a mismatch at (xi, yi): the first cell of
      the remaining grid scoring strictly above the cutoff and at least as
      high as every other, or the end of both lists when there is none. */
  function Resync(score: Scorer, xs: seq<string>, ys: seq<string>, xi: nat, yi: nat): (r: Pick)
    requires xi <= |xs| && yi <= |ys|
    ensures (r.x == |xs| && r.y == |ys| && r.best == Cutoff)
            || (xi <= r.x < |xs| && yi <= r.y < |ys| && Cutoff < r.best == score(xs[r.x], ys[r.y]))
  {
    Scan(score, xs, ys, xi, yi, xi, yi, Pick(Cutoff, |xs|, |ys|))
  }

  /** The resynchronisation target scores at least as high as every cell of
      the remaining grid: a pair scoring above the cutoff is never passed over
      for a worse one. */
  lemma ResyncIsBest(score: Scorer, xs: seq<string>, ys: seq<string>, xi: nat, yi: nat, a: nat, b: nat)
    requires xi <= a < |xs| && yi <= b < |ys|
    ensures score(xs[a], ys[b]) <= Resync(score, xs, ys, xi, yi).best
  {
    ScanIsBest(score, xs, ys, xi, yi, xi, yi, Pick(Cutoff, |xs|, |ys|), a, b);
  }

  /** The words `xs[a..b]`, tagged as coming from the first string. */
  function XRange(a: nat, b: nat): (r: seq<Piece>)
    requires a <= b
    ensures |r| == b - a
    ensures forall k :: 0 <= k < |r| ==> r[k] == FromX(a + k)
  {
    seq(b - a, k requires 0 <= k < b - a => FromX(a + k))
  }

  /** The words `ys[a..b]` that the first string has no match for. */
  function YKept(procScore: Scorer, xs: seq<string>, ys: seq<string>, a: nat, b: nat): (r: seq<Piece>)
    requires a <= b <= |ys|
    ensures forall p :: p in r ==> p.YSkip? && a <= p.j < b
    ensures |r| <= b - a
    ensures forall k, l :: 0 <= k < l < |r| ==> r[k].j < r[l].j
    decreases b - a
  {
    if a == b then []
    else
      var rest := YKept(procScore, xs, ys, a + 1, b);
      if Matched(procScore, ys[a], xs) then rest else [YSkip(a)] + rest
  }

  /** `YKept` keeps a word of ys[a..b] exactly when `extractOne` finds no match for it. */
  lemma {:induction false} YKeptExactlyUnmatched(procScore: Scorer, xs: seq<string>, ys: seq<string>,
                                                 a: nat, b: nat, j: nat)
    requires a <= b <= |ys|
    ensures YSkip(j) in YKept(procScore, xs, ys, a, b) <==> a <= j < b && !Matched(procScore, ys[j], xs)
    decreases b - a
  {
    if a < b {
      var rest := YKept(procScore, xs, ys, a + 1, b);
      YKeptExactlyUnmatched(procScore, xs, ys, a + 1, b, j);
      if !Matched(procScore, ys[a], xs) {
        assert YKept(procScore, xs, ys, a, b) == [YSkip(a)] + rest;
        assert YSkip(j) in [YSkip(a)] + rest <==> j == a || YSkip(j) in rest;
      }
    }
  }

  /** The words `ys[a..]`, emitted unconditionally after the loop. */
  function YRange(a: nat, b: nat): (r: seq<Piece>)
    requires a <= b
    ensures |r| == b - a
    ensures forall k :: 0 <= k < |r| ==> r[k] == YTail(a + k)
  {
    seq(b - a, k requires 0 <= k < b - a => YTail(a + k))
  }

  /** The walk from (xi, yi) to the end of either list. */
  function MergeFrom(score: Scorer, procScore: Scorer, xs: seq<string>, ys: seq<string>,
                     xi: nat, yi: nat): seq<Piece>
    requires xi <= |xs| && yi <= |ys|
    decreases |xs| - xi + |ys| - yi
  {
    if xi < |xs| && yi < |ys| then
      if score(xs[xi], ys[yi]) >= Cutoff then
        [FromX(xi)] + MergeFrom(score, procScore, xs, ys, xi + 1, yi + 1)
      else
        var p := Resync(score, xs, ys, xi, yi);
        XRange(xi, p.x) + YKept(procScore, xs, ys, yi, p.y)
          + MergeFrom(score, procScore, xs, ys, p.x, p.y)
    else
      XRange(xi, |xs|) + YRange(yi, |ys|)
  }

  /** The word each piece stands for. */
  function Render(xs: seq<string>, ys: seq<string>, plan: seq<Piece>): (r: seq<string>)
    requires forall p :: p in plan ==> if p.FromX? then p.i < |xs| else p.j < |ys|
    ensures |r| == |plan|
  {
    seq(|plan|, k requires 0 <= k < |plan| =>
      match plan[k]
      case FromX(i) => xs[i]
      case YSkip(j) => ys[j]
      case YTail(j) => ys[j])
  }

  /** The tokens `merge_locations` joins for the two word lists. */
  function MergeWords(score: Scorer, procScore: Scorer, xs: seq<string>, ys: seq<string>): (r: seq<string>)
    ensures |xs| <= |r| <= |xs| + |ys|
  {
    var plan := MergeFrom(score, procScore, xs, ys, 0, 0);
    PlanInBounds(score, procScore, xs, ys, 0, 0);
    PlanLength(score, procScore, xs, ys);
    Render(xs, ys, plan)
  }

  /** `merge_locations(*args)`: NotImplementedError unless exactly two parts. */
  function MergeLocations(args: seq<string>, score: Scorer, procScore: Scorer): (r: Result<string>)
    ensures r.Err? <==> |args| != 2
    ensures r.Err? ==> r.error == NotImplementedError
    ensures r.Ok? ==> r.value == JoinWith(" ", MergeWords(score, procScore, Words(args[0]), Words(args[1])))
  {
    if |args| != 2 then Err(NotImplementedError)
    else Ok(JoinWith(" ", MergeWords(score, procScore, Words(args[0]), Words(args[1]))))
  }

  // ---------------------------------------------------------------------------
  // Shape of the plan
  // ---------------------------------------------------------------------------

  /** The first-string indices a plan emits, in order. */
  function XIndices(plan: seq<Piece>): (r: seq<nat>)
    ensures |r| <= |plan|
  {
    if |plan| == 0 then []
    else (if plan[0].FromX? then [plan[0].i] else []) + XIndices(plan[1..])
  }

  /** The second-string indices a plan emits, in order. */
  function YIndices(plan: seq<Piece>): (r: seq<nat>)
    ensures |r| <= |plan|
  {
    if |plan| == 0 then []
    else (if plan[0].FromX? then [] else [plan[0].j]) + YIndices(plan[1..])
  }

  /** The indices lo, lo + 1, ..., hi - 1. */
  function Range(lo: nat, hi: nat): (r: seq<nat>)
    requires lo <= hi
    ensures |r| == hi - lo
    ensures forall k :: 0 <= k < |r| ==> r[k] == lo + k
  {
    seq(hi - lo, k requires 0 <= k < hi - lo => lo + k)
  }

  predicate StrictlyIncreasing(s: seq<nat>) {
    forall k, l :: 0 <= k < l < |s| ==> s[k] < s[l]
  }

  lemma {:induction false} IndicesAppend(a: seq<Piece>, b: seq<Piece>)
    ensures XIndices(a + b) == XIndices(a) + XIndices(b)
    ensures YIndices(a + b) == YIndices(a) + YIndices(b)
    ensures |a| == |XIndices(a)| + |YIndices(a)|
    decreases |a|
  {
    if |a| > 0 {
      assert (a + b)[0] == a[0];
      assert (a + b)[1..] == a[1..] + b;
      IndicesAppend(a[1..], b);
    } else {
      assert a + b == b;
    }
  }

  lemma {:induction false} IndicesOfXRange(a: nat, b: nat)
    requires a <= b
    ensures XIndices(XRange(a, b)) == Range(a, b)
    ensures YIndices(XRange(a, b)) == []
    decreases b - a
  {
    if a < b {
      assert XRange(a, b)[1..] == XRange(a + 1, b);
      IndicesOfXRange(a + 1, b);
    }
  }

  lemma {:induction false} NoXIndicesInYPieces(r: seq<Piece>)
    requires forall p :: p in r ==> !p.FromX?
    ensures XIndices(r) == []
    decreases |r|
  {
    if |r| > 0 {
      assert r[0] in r;
      assert forall p :: p in r[1..] ==> p in r;
      NoXIndicesInYPieces(r[1..]);
    }
  }

  lemma {:induction false} IndicesOfYPieces(r: seq<Piece>)
    requires forall p :: p in r ==> !p.FromX?
    ensures XIndices(r) == []
    ensures |YIndices(r)| == |r| && forall k :: 0 <= k < |r| ==> YIndices(r)[k] == r[k].j
    decreases |r|
  {
    NoXIndicesInYPieces(r);
    if |r| > 0 {
      assert r[0] in r;
      assert forall p :: p in r[1..] ==> p in r;
      IndicesOfYPieces(r[1..]);
      var rest := YIndices(r[1..]);
      assert YIndices(r) == [r[0].j] + rest;
      forall k | 1 <= k < |r| ensures YIndices(r)[k] == r[k].j {
        assert YIndices(r)[k] == rest[k - 1];
        assert r[1..][k - 1] == r[k];
      }
    }
  }

  lemma RangeAppend(a: nat, b: nat, c: nat)
    requires a <= b <= c
    ensures Range(a, b) + Range(b, c) == Range(a, c)
  {
  }

  /** Splicing a resynchronisation step in front of a plan: the skipped
      first-string words come first, then the kept second-string words. */
  lemma ResyncStepIndices(head: seq<Piece>, kept: seq<Piece>, tail: seq<Piece>, xi: nat, px: nat, n: nat)
    requires xi <= px <= n
    requires head == XRange(xi, px)
    requires forall p :: p in kept ==> !p.FromX?
    requires XIndices(tail) == Range(px, n)
    ensures XIndices(head + kept + tail) == Range(xi, n)
    ensures YIndices(head + kept + tail) == YIndices(kept) + YIndices(tail)
  {
    IndicesAppend(head, kept);
    IndicesOfXRange(xi, px);
    NoXIndicesInYPieces(kept);
    assert XIndices(head + kept) == Range(xi, px) + [];
    assert YIndices(head + kept) == [] + YIndices(kept);
    IndicesAppend(head + kept, tail);
    RangeAppend(xi, px, n);
    assert Range(xi, px) + [] == Range(xi, px);
    assert [] + YIndices(kept) == YIndices(kept);
  }

  /** The second-string indices of the kept words go up and lie in [yLo, yHi). */
  lemma KeptIndices(kept: seq<Piece>, yLo: nat, yHi: nat)
    requires forall p :: p in kept ==> p.YSkip? && yLo <= p.j < yHi
    requires forall k, l :: 0 <= k < l < |kept| ==> kept[k].j < kept[l].j
    requires |kept| <= yHi - yLo
    ensures IncreasingWithin(YIndices(kept), yLo, yHi)
  {
    IndicesOfYPieces(kept);
    var ky := YIndices(kept);
    forall k | 0 <= k < |ky| ensures yLo <= ky[k] < yHi {
      assert ky[k] == kept[k].j && kept[k] in kept;
    }
    forall k, l | 0 <= k < l < |ky| ensures ky[k] < ky[l] {
      assert ky[k] == kept[k].j && ky[l] == kept[l].j;
    }
  }

  /** Every remaining first-string word is emitted exactly once and in order. */
  lemma {:induction false} PlanEmitsAllOfX(score: Scorer, procScore: Scorer, xs: seq<string>, ys: seq<string>,
                                           xi: nat, yi: nat)
    requires xi <= |xs| && yi <= |ys|
    ensures XIndices(MergeFrom(score, procScore, xs, ys, xi, yi)) == Range(xi, |xs|)
    decreases |xs| - xi + |ys| - yi
  {
    if xi < |xs| && yi < |ys| {
      if score(xs[xi], ys[yi]) >= Cutoff {
        PlanEmitsAllOfX(score, procScore, xs, ys, xi + 1, yi + 1);
        MatchStepIndices(xi, yi, |xs|, |ys|, MergeFrom(score, procScore, xs, ys, xi + 1, yi + 1));
      } else {
        var p := Resync(score, xs, ys, xi, yi);
        PlanEmitsAllOfX(score, procScore, xs, ys, p.x, p.y);
        ResyncStepIndices(XRange(xi, p.x), YKept(procScore, xs, ys, yi, p.y),
                          MergeFrom(score, procScore, xs, ys, p.x, p.y), xi, p.x, |xs|);
      }
    } else {
      EndStepIndices(xi, yi, |xs|, |ys|);
    }
  }

  /** Emitting a matched first-string word in front of a plan. */
  lemma MatchStepIndices(xi: nat, yi: nat, n: nat, m: nat, rest: seq<Piece>)
    requires xi < n && yi < m
    ensures XIndices(rest) == Range(xi + 1, n) ==> XIndices([FromX(xi)] + rest) == Range(xi, n)
    ensures IncreasingWithin(YIndices(rest), yi + 1, m) ==> IncreasingWithin(YIndices([FromX(xi)] + rest), yi, m)
  {
    IndicesAppend([FromX(xi)], rest);
    assert XIndices([FromX(xi)]) == [xi];
    assert YIndices([FromX(xi)]) == [];
    assert [] + YIndices(rest) == YIndices(rest);
    assert [xi] + Range(xi + 1, n) == Range(xi, n);
    if IncreasingWithin(YIndices(rest), yi + 1, m) {
      IncreasingWithinWiden(YIndices(rest), yi + 1, yi, m);
    }
  }

  /** The end of the walk: the rest of the first string, then the rest of the second. */
  lemma EndStepIndices(xi: nat, yi: nat, n: nat, m: nat)
    requires xi <= n && yi <= m
    ensures XIndices(XRange(xi, n) + YRange(yi, m)) == Range(xi, n)
    ensures IncreasingWithin(YIndices(XRange(xi, n) + YRange(yi, m)), yi, m)
  {
    var tail := YRange(yi, m);
    IndicesAppend(XRange(xi, n), tail);
    IndicesOfXRange(xi, n);
    IndicesOfYPieces(tail);
    assert Range(xi, n) + [] == Range(xi, n);
    assert [] + YIndices(tail) == YIndices(tail);
  }

  /** Indices that go up strictly and lie in [lo, hi); there are at most hi - lo of them. */
  predicate IncreasingWithin(ids: seq<nat>, lo: nat, hi: nat) {
    && StrictlyIncreasing(ids)
    && (forall k :: 0 <= k < |ids| ==> lo <= ids[k] < hi)
    && |ids| <= hi - lo
  }

  lemma IncreasingWithinAppend(a: seq<nat>, b: seq<nat>, lo: nat, mid: nat, hi: nat)
    requires IncreasingWithin(a, lo, mid) && IncreasingWithin(b, mid, hi)
    ensures IncreasingWithin(a + b, lo, hi)
  {
  }

  lemma IncreasingWithinWiden(a: seq<nat>, lo: nat, lo': nat, hi: nat)
    requires lo' <= lo && IncreasingWithin(a, lo, hi)
    ensures IncreasingWithin(a, lo', hi)
  {
  }

  /** A resynchronisation step keeps the second-string indices going up. */
  lemma ResyncStepIncreasing(head: seq<Piece>, kept: seq<Piece>, tail: seq<Piece>,
                             xi: nat, px: nat, n: nat, yi: nat, py: nat, m: nat)
    requires xi <= px <= n && yi <= py <= m
    requires head == XRange(xi, px)
    requires forall p :: p in kept ==> p.YSkip? && yi <= p.j < py
    requires forall k, l :: 0 <= k < l < |kept| ==> kept[k].j < kept[l].j
    requires |kept| <= py - yi
    requires XIndices(tail) == Range(px, n)
    requires IncreasingWithin(YIndices(tail), py, m)
    ensures IncreasingWithin(YIndices(head + kept + tail), yi, m)
  {
    ResyncStepIndices(head, kept, tail, xi, px, n);
    KeptIndices(kept, yi, py);
    IncreasingWithinAppend(YIndices(kept), YIndices(tail), yi, py, m);
  }

  /** Second-string indices only go up and stay within ys[yi..]. */
  lemma {:induction false} PlanYIsIncreasing(score: Scorer, procScore: Scorer, xs: seq<string>, ys: seq<string>,
                                             xi: nat, yi: nat)
    requires xi <= |xs| && yi <= |ys|
    ensures IncreasingWithin(YIndices(MergeFrom(score, procScore, xs, ys, xi, yi)), yi, |ys|)
    decreases |xs| - xi + |ys| - yi
  {
    if xi < |xs| && yi < |ys| {
      if score(xs[xi], ys[yi]) >= Cutoff {
        PlanYIsIncreasing(score, procScore, xs, ys, xi + 1, yi + 1);
        MatchStepIndices(xi, yi, |xs|, |ys|, MergeFrom(score, procScore, xs, ys, xi + 1, yi + 1));
      } else {
        var p := Resync(score, xs, ys, xi, yi);
        PlanYIsIncreasing(score, procScore, xs, ys, p.x, p.y);
        PlanEmitsAllOfX(score, procScore, xs, ys, p.x, p.y);
        ResyncStepIncreasing(XRange(xi, p.x), YKept(procScore, xs, ys, yi, p.y),
                             MergeFrom(score, procScore, xs, ys, p.x, p.y), xi, p.x, |xs|, yi, p.y, |ys|);
      }
    } else {
      EndStepIndices(xi, yi, |xs|, |ys|);
    }
  }

  /** Every piece names a word that exists. */
  lemma {:induction false} PlanInBounds(score: Scorer, procScore: Scorer, xs: seq<string>, ys: seq<string>,
                                        xi: nat, yi: nat)
    requires xi <= |xs| && yi <= |ys|
    ensures forall p :: p in MergeFrom(score, procScore, xs, ys, xi, yi) ==>
              if p.FromX? then p.i < |xs| else p.j < |ys|
    decreases |xs| - xi + |ys| - yi
  {
    if xi < |xs| && yi < |ys| {
      if score(xs[xi], ys[yi]) >= Cutoff {
        PlanInBounds(score, procScore, xs, ys, xi + 1, yi + 1);
      } else {
        var p := Resync(score, xs, ys, xi, yi);
        PlanInBounds(score, procScore, xs, ys, p.x, p.y);
      }
    }
  }

  /** The first string contributes all its words and the second at most all of its. */
  lemma PlanLength(score: Scorer, procScore: Scorer, xs: seq<string>, ys: seq<string>)
    ensures var plan := MergeFrom(score, procScore, xs, ys, 0, 0);
            |xs| <= |plan| <= |xs| + |ys|
  {
    var plan := MergeFrom(score, procScore, xs, ys, 0, 0);
    PlanEmitsAllOfX(score, procScore, xs, ys, 0, 0);
    PlanYIsIncreasing(score, procScore, xs, ys, 0, 0);
    IndicesAppend(plan, []);
    assert plan + [] == plan;
  }

  /** A word of the second string passed over while resynchronising is written
      out only when no word of the first string matches it. */
  lemma {:induction false} SkippedWordsAreUnmatched(score: Scorer, procScore: Scorer,
                                                    xs: seq<string>, ys: seq<string>, xi: nat, yi: nat, j: nat)
    requires xi <= |xs| && yi <= |ys|
    requires YSkip(j) in MergeFrom(score, procScore, xs, ys, xi, yi)
    ensures yi <= j < |ys| && !Matched(procScore, ys[j], xs)
    decreases |xs| - xi + |ys| - yi
  {
    if xi < |xs| && yi < |ys| {
      if score(xs[xi], ys[yi]) >= Cutoff {
        SkippedWordsAreUnmatched(score, procScore, xs, ys, xi + 1, yi + 1, j);
      } else {
        var p := Resync(score, xs, ys, xi, yi);
        var kept := YKept(procScore, xs, ys, yi, p.y);
        var tail := MergeFrom(score, procScore, xs, ys, p.x, p.y);
        assert YSkip(j) !in XRange(xi, p.x);
        if YSkip(j) in kept {
          YKeptExactlyUnmatched(procScore, xs, ys, yi, p.y, j);
        } else {
          assert YSkip(j) in tail;
          SkippedWordsAreUnmatched(score, procScore, xs, ys, p.x, p.y, j);
        }
      }
    }
  }

  // ---------------------------------------------------------------------------
  // The documented examples
  // ---------------------------------------------------------------------------

  /** A scorer under which equal words score 100 and all others 0. */
  function Exact(a: string, b: string): (r: int)
    ensures r >= Cutoff <==> a == b
  {
    if a == b then 100 else 0
  }

  lemma ExampleAppend()
    ensures MergeWords(Exact, Exact, ["via", "Cavour"], ["Rome"]) == ["via", "Cavour", "Rome"]
  {
    var xs, ys := ["via", "Cavour"], ["Rome"];
    var p := Resync(Exact, xs, ys, 0, 0);
    ResyncIsBest(Exact, xs, ys, 0, 0, 0, 0);
    ResyncIsBest(Exact, xs, ys, 0, 0, 1, 0);
    assert p == Pick(Cutoff, 2, 1);
    assert !Matched(Exact, "Rome", xs);
    assert YKept(Exact, xs, ys, 0, 1) == [YSkip(0)];
    assert MergeFrom(Exact, Exact, xs, ys, 0, 0) == [FromX(0), FromX(1), YSkip(0)];
  }

  lemma ExampleOverlap()
    ensures MergeWords(Exact, Exact, ["via", "Cavour", "16", "Rome"], ["Rome", "Italy"])
            == ["via", "Cavour", "16", "Rome", "Italy"]
  {
    var xs, ys := ["via", "Cavour", "16", "Rome"], ["Rome", "Italy"];
    OverlapResync();
    assert MergeFrom(Exact, Exact, xs, ys, 4, 1) == [YTail(1)];
    assert MergeFrom(Exact, Exact, xs, ys, 3, 0) == [FromX(3), YTail(1)];
    assert YKept(Exact, xs, ys, 0, 0) == [];
    assert MergeFrom(Exact, Exact, xs, ys, 0, 0) == [FromX(0), FromX(1), FromX(2), FromX(3), YTail(1)];
  }

  lemma OverlapResync()
    ensures Resync(Exact, ["via", "Cavour", "16", "Rome"], ["Rome", "Italy"], 0, 0) == Pick(100, 3, 0)
  {
    var xs, ys := ["via", "Cavour", "16", "Rome"], ["Rome", "Italy"];
    var p := Resync(Exact, xs, ys, 0, 0);
    ResyncIsBest(Exact, xs, ys, 0, 0, 3, 0);
    assert xs[p.x] == ys[p.y];
    assert xs[3] == ys[0];
    assert forall a, b :: 0 <= a < 3 && 0 <= b < 2 ==> xs[a] != ys[b];
    assert xs[3] != ys[1];
  }

  lemma ExampleInsert()
    ensures MergeWords(Exact, Exact, ["via", "Cavour", "Rome"], ["via", "Cavour", "16", "Rome"])
            == ["via", "Cavour", "16", "Rome"]
  {
    var xs, ys := ["via", "Cavour", "Rome"], ["via", "Cavour", "16", "Rome"];
    var p := Resync(Exact, xs, ys, 2, 2);
    assert p == Pick(100, 2, 3);
    assert !Matched(Exact, "16", xs);
    assert YKept(Exact, xs, ys, 2, 3) == [YSkip(2)];
    assert MergeFrom(Exact, Exact, xs, ys, 3, 4) == [];
    assert MergeFrom(Exact, Exact, xs, ys, 2, 3) == [FromX(2)];
    assert MergeFrom(Exact, Exact, xs, ys, 2, 2) == [YSkip(2), FromX(2)];
    assert MergeFrom(Exact, Exact, xs, ys, 0, 0) == [FromX(0), FromX(1), YSkip(2), FromX(2)];
  }

  /** The docstring's examples, on the strings themselves. */
  lemma DocumentedExamples()
    ensures MergeLocations(["via Cavour", "Rome"], Exact, Exact) == Ok("via Cavour Rome")
    ensures MergeLocations(["via Cavour 16 Rome", "Rome Italy"], Exact, Exact) == Ok("via Cavour 16 Rome Italy")
    ensures MergeLocations(["via Cavour Rome", "via Cavour 16 Rome"], Exact, Exact) == Ok("via Cavour 16 Rome")
  {
    ExampleWordsShort();
    ExampleWordsLong();
    ExampleAppend();
    ExampleOverlap();
    ExampleInsert();
    ExampleJoins();
  }

  lemma ExampleJoins()
    ensures JoinWith(" ", ["via", "Cavour", "Rome"]) == "via Cavour Rome"
    ensures JoinWith(" ", ["via", "Cavour", "16", "Rome"]) == "via Cavour 16 Rome"
    ensures JoinWith(" ", ["via", "Cavour", "16", "Rome", "Italy"]) == "via Cavour 16 Rome Italy"
  {
    JoinThreeWords();
    JoinFourWords();
    JoinFiveWords();
  }

  lemma JoinThreeWords()
    ensures JoinWith(" ", ["via", "Cavour", "Rome"]) == "via Cavour Rome"
  {
    JoinOfThree("via", "Cavour", "Rome");
    assert "via" + " " + ("Cavour" + " " + "Rome") == "via Cavour Rome";
  }

  lemma JoinFourWords()
    ensures JoinWith(" ", ["via", "Cavour", "16", "Rome"]) == "via Cavour 16 Rome"
  {
    JoinOfThree("Cavour", "16", "Rome");
    JoinInFront("via", ["Cavour", "16", "Rome"]);
    assert ["via"] + ["Cavour", "16", "Rome"] == ["via", "Cavour", "16", "Rome"];
    assert "via" + " " + ("Cavour" + " " + ("16" + " " + "Rome")) == "via Cavour 16 Rome";
  }

  lemma JoinFiveWords()
    ensures JoinWith(" ", ["via", "Cavour", "16", "Rome", "Italy"]) == "via Cavour 16 Rome Italy"
  {
    JoinOfThree("16", "Rome", "Italy");
    JoinInFront("Cavour", ["16", "Rome", "Italy"]);
    assert ["Cavour"] + ["16", "Rome", "Italy"] == ["Cavour", "16", "Rome", "Italy"];
    JoinInFront("via", ["Cavour", "16", "Rome", "Italy"]);
    assert ["via"] + ["Cavour", "16", "Rome", "Italy"] == ["via", "Cavour", "16", "Rome", "Italy"];
    assert "via" + " " + ("Cavour" + " " + ("16" + " " + ("Rome" + " " + "Italy")))
           == "via Cavour 16 Rome Italy";
  }

  /** One more word in front adds one space in front of the rest. */
  lemma JoinInFront(w: string, rest: seq<string>)
    requires |rest| > 0
    ensures JoinWith(" ", [w] + rest) == w + " " + JoinWith(" ", rest)
  {
    assert ([w] + rest)[1..] == rest;
  }

  lemma JoinOfThree(a: string, b: string, c: string)
    ensures JoinWith(" ", [a, b, c]) == a + " " + (b + " " + c)
  {
    assert [b, c][1..] == [c];
    assert JoinWith(" ", [b, c]) == b + " " + c;
    JoinInFront(a, [b, c]);
    assert [a] + [b, c] == [a, b, c];
  }

  lemma ExampleWordsShort()
    ensures Words("via Cavour") == ["via", "Cavour"]
    ensures Words("Rome") == ["Rome"]
    ensures Words("Rome Italy") == ["Rome", "Italy"]
  {
    ExampleIsWord();
    var a, b, c := ["via", "Cavour"], ["Rome"], ["Rome", "Italy"];
    assert JoinWith(" ", ["Cavour"]) == "Cavour";
    assert JoinWith(" ", ["Italy"]) == "Italy";
    assert JoinWith(" ", a) == "via Cavour";
    assert JoinWith(" ", b) == "Rome";
    assert JoinWith(" ", c) == "Rome Italy";
    assert forall k :: 0 <= k < |a| ==> IsWord(a[k]);
    assert forall k :: 0 <= k < |b| ==> IsWord(b[k]);
    assert forall k :: 0 <= k < |c| ==> IsWord(c[k]);
    WordsOfJoin(a);
    WordsOfJoin(b);
    WordsOfJoin(c);
  }

  lemma ExampleWordsLong()
    ensures Words("via Cavour 16 Rome") == ["via", "Cavour", "16", "Rome"]
    ensures Words("via Cavour Rome") == ["via", "Cavour", "Rome"]
  {
    ExampleJoins();
    ExampleIsWord();
    var a := ["via", "Cavour", "16", "Rome"];
    var b := ["via", "Cavour", "Rome"];
    assert forall k :: 0 <= k < |a| ==> IsWord(a[k]);
    assert forall k :: 0 <= k < |b| ==> IsWord(b[k]);
    WordsOfJoin(a);
    WordsOfJoin(b);
  }

  lemma ExampleIsWord()
    ensures IsWord("via") && IsWord("Cavour") && IsWord("16") && IsWord("Rome") && IsWord("Italy")
  {
  }
}
