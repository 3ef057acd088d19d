/** List scheduling on `n` shards: what greedy assignment to the least loaded
    shard guarantees against every other assignment. */
module Scheduling {

  /** How many jobs `a` puts on shard `m`. */
  function Count(a: seq<nat>, m: nat): nat {
    if a == [] then 0
    else Count(a[..|a| - 1], m) + if a[|a| - 1] == m then 1 else 0
  }

  /** The weight `a` puts on shard `m`. */
  function Load(w: seq<nat>, a: seq<nat>, m: nat): nat
    requires |w| == |a|
  {
    if a == [] then 0
    else
      var l := |a| - 1;
      Load(w[..l], a[..l], m) + if a[l] == m then w[l] else 0
  }

  function Sum(w: seq<nat>): nat {
    if w == [] then 0 else Sum(w[..|w| - 1]) + w[|w| - 1]
  }

  function TotalCount(a: seq<nat>, n: nat): nat {
    if n == 0 then 0 else TotalCount(a, n - 1) + Count(a, n - 1)
  }

  function TotalLoad(w: seq<nat>, a: seq<nat>, n: nat): nat
    requires |w| == |a|
  {
    if n == 0 then 0 else TotalLoad(w, a, n - 1) + Load(w, a, n - 1)
  }

  /** The heaviest shard. */
  function MaxLoad(w: seq<nat>, a: seq<nat>, n: nat): nat
    requires |w| == |a|
  {
    if n == 0 then 0
    else
      var rest := MaxLoad(w, a, n - 1);
      if rest < Load(w, a, n - 1) then Load(w, a, n - 1) else rest
  }

  ghost predicate Assignment(a: seq<nat>, n: nat) {
    forall i :: 0 <= i < |a| ==> a[i] < n
  }

  ghost predicate Descending(w: seq<nat>) {
    forall i, j :: 0 <= i <= j < |w| ==> w[i] >= w[j]
  }

  /** The first least loaded shard among the first `n`: `loads.index(min(loads))`. */
  function LeastLoaded(w: seq<nat>, a: seq<nat>, n: nat): (m: nat)
    requires |w| == |a| && n >= 1
    ensures m < n
    ensures forall i :: 0 <= i < n ==> Load(w, a, m) <= Load(w, a, i)
    ensures forall i :: 0 <= i < m ==> Load(w, a, m) < Load(w, a, i)
  {
    if n == 1 then 0
    else
      var m := LeastLoaded(w, a, n - 1);
      if Load(w, a, n - 1) < Load(w, a, m) then n - 1 else m
  }

  /** Jobs in the given order, each to the least loaded shard so far. */
  function Greedy(w: seq<nat>, n: nat): (a: seq<nat>)
    requires n >= 1
    ensures |a| == |w|
    ensures Assignment(a, n)
  {
    if w == [] then []
    else
      var l := |w| - 1;
      var a := Greedy(w[..l], n);
      a + [LeastLoaded(w[..l], a, n)]
  }

  // --- sums over shards ---------------------------------------------------

  lemma {:induction false} TotalCountStep(a: seq<nat>, n: nat)
    requires a != []
    ensures var l := |a| - 1;
      TotalCount(a, n) == TotalCount(a[..l], n) + if a[l] < n then 1 else 0
  {
    if n > 0 {
      TotalCountStep(a, n - 1);
    }
  }

  /** Every job is on exactly one shard. */
  lemma {:induction false} TotalCountIsLength(a: seq<nat>, n: nat)
    requires Assignment(a, n)
    ensures TotalCount(a, n) == |a|
  {
    if a == [] {
      EmptyTotals(n);
    } else {
      TotalCountStep(a, n);
      TotalCountIsLength(a[..|a| - 1], n);
    }
  }

  lemma {:induction false} EmptyTotals(n: nat)
    ensures TotalCount([], n) == 0 && TotalLoad([], [], n) == 0
    ensures forall m :: Count([], m) == 0
  {
    if n > 0 {
      EmptyTotals(n - 1);
    }
  }

  lemma {:induction false} TotalLoadStep(w: seq<nat>, a: seq<nat>, n: nat)
    requires |w| == |a| && a != []
    ensures var l := |a| - 1;
      TotalLoad(w, a, n) == TotalLoad(w[..l], a[..l], n) + if a[l] < n then w[l] else 0
  {
    if n > 0 {
      TotalLoadStep(w, a, n - 1);
    }
  }

  lemma {:induction false} TotalLoadIsSum(w: seq<nat>, a: seq<nat>, n: nat)
    requires |w| == |a| && Assignment(a, n)
    ensures TotalLoad(w, a, n) == Sum(w)
  {
    if a == [] {
      EmptyTotals(n);
      assert w == [];
    } else {
      TotalLoadStep(w, a, n);
      TotalLoadIsSum(w[..|a| - 1], a[..|a| - 1], n);
    }
  }

  /** Fewer than two jobs per shard on average: some shard has at most one. */
  lemma {:induction false} LightShard(a: seq<nat>, b: seq<nat>, n: nat) returns (m: nat)
    requires TotalCount(a, n) + TotalCount(b, n) < 2 * n
    ensures m < n && Count(a, m) + Count(b, m) <= 1
  {
    if Count(a, n - 1) + Count(b, n - 1) <= 1 {
      m := n - 1;
    } else {
      m := LightShard(a, b, n - 1);
    }
  }

  /** More than two jobs per shard on average: some shard has at least three. */
  lemma {:induction false} HeavyShard(a: seq<nat>, b: seq<nat>, n: nat) returns (m: nat)
    requires TotalCount(a, n) + TotalCount(b, n) > 2 * n
    ensures m < n && Count(a, m) + Count(b, m) >= 3
  {
    if Count(a, n - 1) + Count(b, n - 1) >= 3 {
      m := n - 1;
    } else {
      m := HeavyShard(a, b, n - 1);
    }
  }

  lemma {:induction false} TotalAtMost(w: seq<nat>, a: seq<nat>, n: nat, bound: nat)
    requires |w| == |a| && forall m :: 0 <= m < n ==> Load(w, a, m) <= bound
    ensures TotalLoad(w, a, n) <= n * bound
  {
    if n > 0 {
      TotalAtMost(w, a, n - 1, bound);
      assert (n - 1) * bound + bound == n * bound;
    }
  }

  lemma {:induction false} TotalAtLeast(w: seq<nat>, a: seq<nat>, n: nat, bound: nat)
    requires |w| == |a| && forall m :: 0 <= m < n ==> Load(w, a, m) >= bound
    ensures TotalLoad(w, a, n) >= n * bound
  {
    if n > 0 {
      TotalAtLeast(w, a, n - 1, bound);
      assert (n - 1) * bound + bound == n * bound;
    }
  }

  lemma {:induction false} MaxLoadBounds(w: seq<nat>, a: seq<nat>, n: nat, m: nat)
    requires |w| == |a| && m < n
    ensures Load(w, a, m) <= MaxLoad(w, a, n)
  {
    if m < n - 1 {
      MaxLoadBounds(w, a, n - 1, m);
    }
  }

  lemma {:induction false} MaxLoadReached(w: seq<nat>, a: seq<nat>, n: nat) returns (m: nat)
    requires |w| == |a| && n >= 1
    ensures m < n && MaxLoad(w, a, n) == Load(w, a, m)
  {
    if n == 1 {
      m := 0;
    } else if MaxLoad(w, a, n) == Load(w, a, n - 1) {
      m := n - 1;
    } else {
      m := MaxLoadReached(w, a, n - 1);
    }
  }

  // --- prefixes -----------------------------------------------------------

  /** Dropping the last jobs lowers no load below what the rest makes it. */
  lemma {:induction false} PrefixLoad(w: seq<nat>, a: seq<nat>, p: nat, m: nat)
    requires |w| == |a| && p <= |a|
    ensures Load(w[..p], a[..p], m) <= Load(w, a, m)
    ensures Count(a[..p], m) <= Count(a, m)
    decreases |a|
  {
    var l := |a| - 1;
    if p == |a| {
      assert w[..p] == w && a[..p] == a;
    } else {
      assert w[..l][..p] == w[..p] && a[..l][..p] == a[..p];
      PrefixLoad(w[..l], a[..l], p, m);
    }
  }

  lemma OneMore(d: nat, y: nat)
    ensures (d + 1) * y == d * y + y
  {}

  /** With weights at least `x` before position `p` and at least `y` after it. */
  lemma {:induction false} LoadAtLeast(w: seq<nat>, a: seq<nat>, p: nat, m: nat, x: nat, y: nat)
    requires |w| == |a| && p <= |a|
    requires forall i :: 0 <= i < p ==> w[i] >= x
    requires forall i :: p <= i < |w| ==> w[i] >= y
    ensures Count(a[..p], m) <= Count(a, m)
    ensures Load(w, a, m) >= Count(a[..p], m) * x + (Count(a, m) - Count(a[..p], m)) * y
    decreases |a|
  {
    if a == [] {
      assert a[..p] == [];
    } else {
      var l := |a| - 1;
      if p == |a| {
        assert a[..p] == a && a[..l][..l] == a[..l];
        LoadAtLeast(w[..l], a[..l], l, m, x, y);
        OneMore(Count(a[..l], m), x);
      } else {
        assert a[..l][..p] == a[..p];
        LoadAtLeast(w[..l], a[..l], p, m, x, y);
        OneMore(Count(a[..l], m) - Count(a[..p], m), y);
      }
    }
  }

  /** A shard with at most one job, none before `p`, carries at most `x`. */
  lemma {:induction false} SingleLoad(w: seq<nat>, a: seq<nat>, p: nat, m: nat, x: nat)
    requires |w| == |a| && p <= |a| && Count(a, m) + Count(a[..p], m) <= 1
    requires forall i :: p <= i < |w| ==> w[i] <= x
    ensures Load(w, a, m) <= x
    ensures Count(a, m) == 0 ==> Load(w, a, m) == 0
    decreases |a|
  {
    if a != [] {
      var l := |a| - 1;
      if p == |a| {
        assert a[..p] == a;
        assert Count(a, m) == 0;
        assert a[..l][..l] == a[..l];
        SingleLoad(w[..l], a[..l], l, m, x);
      } else {
        assert a[..l][..p] == a[..p];
        PrefixLoad(w, a, l, m);
        SingleLoad(w[..l], a[..l], p, m, x);
      }
    }
  }

  /** The last job put on a loaded shard. */
  lemma {:induction false} LastJob(w: seq<nat>, n: nat, m: nat) returns (j: nat)
    requires n >= 1 && Load(w, Greedy(w, n), m) > 0
    ensures j < |w| && m == LeastLoaded(w[..j], Greedy(w[..j], n), n)
    ensures Load(w, Greedy(w, n), m) == Load(w[..j], Greedy(w[..j], n), m) + w[j]
    decreases |w|
  {
    var l := |w| - 1;
    var a := Greedy(w, n);
    assert a[..l] == Greedy(w[..l], n);
    if a[l] == m {
      j := l;
    } else {
      j := LastJob(w[..l], n, m);
      assert w[..l][..j] == w[..j];
    }
  }

  // --- the bounds ---------------------------------------------------------

  /** The load a greedy job found, at most the average of what was placed. */
  lemma AverageBound(w: seq<nat>, b: seq<nat>, n: nat, j: nat, bound: nat)
    requires n >= 1 && |w| == |b| && Assignment(b, n) && j < |w|
    requires forall m :: 0 <= m < n ==> Load(w, b, m) <= bound
    ensures var g := Greedy(w[..j], n);
      Averaged(n, Load(w[..j], g, LeastLoaded(w[..j], g, n)), w[j], bound)
  {
    var g := Greedy(w[..j], n);
    var least := Load(w[..j], g, LeastLoaded(w[..j], g, n));
    TotalAtLeast(w[..j], g, n, least);
    TotalLoadIsSum(w[..j], g, n);
    var w', b' := w[..j + 1], b[..j + 1];
    assert w'[..j] == w[..j] && b'[..j] == b[..j];
    forall m | 0 <= m < n
      ensures Load(w', b', m) <= bound
    {
      PrefixLoad(w, b, j + 1, m);
    }
    TotalAtMost(w', b', n, bound);
    TotalLoadIsSum(w', b', n);
    assert Load(w', b', b'[j]) >= w[j];
  }

  /** Before job `j`, some shard carries at most `w[n - k]`, where `j + 1 == n + k`;
      at most nothing, when there are fewer jobs than shards. */
  lemma LightestBefore(w: seq<nat>, n: nat, j: nat)
    requires n >= 1 && j < |w| && j < 2 * n && Descending(w)
    ensures var g := Greedy(w[..j], n);
      Load(w[..j], g, LeastLoaded(w[..j], g, n)) <= if j < n then 0 else w[2 * n - 1 - j]
  {
    var g := Greedy(w[..j], n);
    var p := if j < n then j else 2 * n - 1 - j;
    TotalCountIsLength(g, n);
    TotalCountIsLength(g[..p], n);
    var x := if j < n then 0 else w[p];
    if j < n {
      var m := EmptyShard(g, n);
      SingleLoad(w[..j], g, 0, m, if j == 0 then 0 else w[0]);
    } else {
      var m := LightShard(g, g[..p], n);
      SingleLoad(w[..j], g, p, m, x);
    }
  }

  lemma {:induction false} EmptyShard(a: seq<nat>, n: nat) returns (m: nat)
    requires TotalCount(a, n) < n
    ensures m < n && Count(a, m) == 0
  {
    if Count(a, n - 1) == 0 {
      m := n - 1;
    } else {
      m := EmptyShard(a, n - 1);
    }
  }

  /** If three copies of the smallest job exceed the bound, no shard of `b` has
      three jobs, and some shard pairs one of the first `n - k + 1` jobs. */
  lemma PairedSomewhere(w: seq<nat>, b: seq<nat>, n: nat, j: nat, bound: nat)
    requires n >= 1 && |w| == |b| && Assignment(b, n) && j < |w| && Descending(w)
    requires forall m :: 0 <= m < n ==> Load(w, b, m) <= bound
    requires 3 * w[j] > bound
    ensures j < 2 * n
    ensures n <= j ==> w[2 * n - 1 - j] + w[j] <= bound
  {
    hide Load, Count, TotalCount;
    var w', b' := w[..j + 1], b[..j + 1];
    forall m | 0 <= m < n
      ensures Count(b', m) <= 2
    {
      PrefixLoad(w, b, j + 1, m);
      AtMostTwo(w', b', m, w[j], bound);
    }
    TotalCountIsLength(b', n);
    if j >= 2 * n {
      EmptyTotals(n);
      var m := HeavyShard(b', [], n);
    }
    if n <= j {
      var p := 2 * n - j;
      TotalCountIsLength(b'[..p], n);
      var m := HeavyShard(b', b'[..p], n);
      PrefixLoad(w, b, j + 1, m);
      PairLoad(w', b', p, m, w[p - 1], w[j]);
    }
  }

  lemma AtMostTwo(w: seq<nat>, a: seq<nat>, m: nat, x: nat, bound: nat)
    requires |w| == |a| && (forall i :: 0 <= i < |w| ==> w[i] >= x) && Load(w, a, m) <= bound < 3 * x
    ensures Count(a, m) <= 2
  {
    LoadAtLeast(w, a, 0, m, x, x);
    assert a[..0] == [];
    FewFit(Count(a, m), x);
  }

  lemma PairLoad(w: seq<nat>, a: seq<nat>, p: nat, m: nat, x: nat, y: nat)
    requires |w| == |a| && p <= |a| && x >= y
    requires forall i :: 0 <= i < p ==> w[i] >= x
    requires forall i :: p <= i < |w| ==> w[i] >= y
    requires Count(a, m) + Count(a[..p], m) >= 3 && Count(a, m) <= 2
    ensures Load(w, a, m) >= x + y
  {
    LoadAtLeast(w, a, p, m, x, y);
    var s := Count(a[..p], m);
    assert s == 1 || s == 2;
  }

  lemma FewFit(c: nat, x: nat)
    requires c * x < 3 * x
    ensures c <= 2
  {}

  /** A job of weight `x` found a load of at most the average. */
  predicate Averaged(n: nat, least: nat, x: nat, bound: nat) {
    n * least + x <= n * bound && x <= bound
  }

  /** `y` is at most 4/3 - 1/(3n) times `bound`. */
  predicate WithinLongestFirst(n: nat, y: nat, bound: nat) {
    3 * n * y <= (4 * n - 1) * bound
  }

  /** Heaviest first: for every job, the load it makes is at most
      4/3 - 1/(3n) times the heaviest shard of any assignment. */
  lemma LongestFirstJob(w: seq<nat>, b: seq<nat>, n: nat, j: nat, bound: nat)
    requires n >= 1 && |w| == |b| && Assignment(b, n) && j < |w| && Descending(w)
    requires forall m :: 0 <= m < n ==> Load(w, b, m) <= bound
    ensures var g := Greedy(w[..j], n);
      WithinLongestFirst(n, Load(w[..j], g, LeastLoaded(w[..j], g, n)) + w[j], bound)
  {
    hide Averaged, WithinLongestFirst;
    var g := Greedy(w[..j], n);
    var least := Load(w[..j], g, LeastLoaded(w[..j], g, n));
    AverageBound(w, b, n, j, bound);
    hide Load, Greedy, LeastLoaded;
    if 3 * w[j] <= bound {
      FourThirds(n, least, w[j], bound);
    } else {
      PairedSomewhere(w, b, n, j, bound);
      LightestBefore(w, n, j);
      assert least + w[j] <= bound by {
        if j < n {
          WeightFits(n, least, w[j], bound);
        }
      }
      Stretch(n, least + w[j], bound);
    }
  }

  lemma WeightFits(n: nat, least: nat, x: nat, bound: nat)
    requires Averaged(n, least, x, bound)
    ensures x <= bound
  {}

  lemma FourThirds(n: nat, least: nat, x: nat, bound: nat)
    requires n >= 1 && Averaged(n, least, x, bound) && 3 * x <= bound
    ensures WithinLongestFirst(n, least + x, bound)
  {
    assert (n - 1) * (3 * x) <= (n - 1) * bound;
  }

  lemma Stretch(n: nat, y: nat, bound: nat)
    requires n >= 1 && y <= bound
    ensures WithinLongestFirst(n, y, bound)
  {
    assert 3 * n * y <= 3 * n * bound;
    assert 3 * n * bound <= (4 * n - 1) * bound;
  }

  lemma Twice(n: nat, least: nat, x: nat, bound: nat)
    requires n >= 1 && Averaged(n, least, x, bound)
    ensures n * (least + x) <= (2 * n - 1) * bound
  {
    assert (n - 1) * x <= (n - 1) * bound;
  }

  /** In any order, the heaviest greedy shard is at most 2 - 1/n times the
      heaviest shard of any assignment. */
  lemma GreedyBound(w: seq<nat>, b: seq<nat>, n: nat)
    requires n >= 1 && |w| == |b| && Assignment(b, n)
    ensures n * MaxLoad(w, Greedy(w, n), n) <= (2 * n - 1) * MaxLoad(w, b, n)
  {
    hide Load, Greedy, MaxLoad, LeastLoaded;
    var bound := MaxLoad(w, b, n);
    forall m | 0 <= m < n
      ensures Load(w, b, m) <= bound
    {
      MaxLoadBounds(w, b, n, m);
    }
    var m := MaxLoadReached(w, Greedy(w, n), n);
    if Load(w, Greedy(w, n), m) > 0 {
      var j := LastJob(w, n, m);
      AverageBound(w, b, n, j, bound);
      Twice(n, Load(w[..j], Greedy(w[..j], n), m), w[j], bound);
    } else {
      Twice(n, 0, 0, bound);
    }
  }

  /** Heaviest job first: at most 4/3 - 1/(3n) times. */
  lemma LongestFirstBound(w: seq<nat>, b: seq<nat>, n: nat)
    requires n >= 1 && |w| == |b| && Assignment(b, n) && Descending(w)
    ensures 3 * n * MaxLoad(w, Greedy(w, n), n) <= (4 * n - 1) * MaxLoad(w, b, n)
  {
    hide Load, Greedy, MaxLoad, LeastLoaded;
    var bound := MaxLoad(w, b, n);
    forall m | 0 <= m < n
      ensures Load(w, b, m) <= bound
    {
      MaxLoadBounds(w, b, n, m);
    }
    var m := MaxLoadReached(w, Greedy(w, n), n);
    if Load(w, Greedy(w, n), m) > 0 {
      var j := LastJob(w, n, m);
      LongestFirstJob(w, b, n, j, bound);
    } else {
      Stretch(n, 0, bound);
    }
  }
}
