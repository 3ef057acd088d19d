/** The pgjdbc runner's split of the test classes over `n` jobs: heaviest class
    first, each to the least loaded shard. */
module ShardPlan {
  import opened Scheduling
  import opened Sorting

  /** `_CLASS_WEIGHTS`. */
  const CLASS_WEIGHTS: map<string, nat> := map[
    "BatchFailureTest" := 24,
    "AutoRollbackTest" := 7,
    "CopyLargeFileTest" := 4,
    "DateTest" := 3,
    "BatchExecuteTest" := 2,
    "TimestampTest" := 2,
    "ResultSetTest" := 2,
    "PreparedStatementTest" := 2]

  /** `c.rsplit(".", 1)[-1]`: what follows the last dot. */
  function ShortName(c: string): string {
    if c == [] then [] else if c[|c| - 1] == '.' then [] else ShortName(c[..|c| - 1]) + [c[|c| - 1]]
  }

  function Weight(c: string): nat {
    if ShortName(c) in CLASS_WEIGHTS then CLASS_WEIGHTS[ShortName(c)] else 1
  }

  /** A class's short name has no dot and follows the last one. */
  lemma {:induction false} ShortNameIs(package: string, name: string)
    requires '.' !in name
    ensures ShortName(package + "." + name) == name && ShortName(name) == name
  {
    if name == [] {
      assert (package + "." + name)[|package|] == '.';
    } else {
      var l := |name| - 1;
      ShortNameIs(package, name[..l]);
      var c := package + "." + name;
      assert c[..|c| - 1] == package + "." + name[..l] && c[|c| - 1] == name[l];
      assert name == name[..l] + [name[l]];
    }
  }

  /** What a qualified class name weighs. */
  lemma WeightIs(package: string, name: string)
    requires '.' !in name
    ensures Weight(package + "." + name) == Weight(name) ==
      match name
      case "BatchFailureTest" => 24
      case "AutoRollbackTest" => 7
      case "CopyLargeFileTest" => 4
      case "DateTest" => 3
      case "BatchExecuteTest" => 2
      case "TimestampTest" => 2
      case "ResultSetTest" => 2
      case "PreparedStatementTest" => 2
      case _ => 1
  {
    hide ShortName;
    ShortNameIs(package, name);
  }

  /** The sort key `(-weight, name)`. */
  predicate PlanLe(a: string, b: string) {
    Weight(a) > Weight(b) || (Weight(a) == Weight(b) && NameLe(a, b))
  }

  lemma PlanOrdered()
    ensures TotalOrder(PlanLe)
  {
    hide Weight, NameLe;
    NamesAreOrdered();
  }

  function Weights(order: seq<string>): (w: seq<nat>)
    ensures |w| == |order| && forall i :: 0 <= i < |w| ==> w[i] == Weight(order[i])
  {
    if order == [] then [] else Weights(order[..|order| - 1]) + [Weight(order[|order| - 1])]
  }

  /** What `a` puts into shard `m`, in order. */
  function Bucket(order: seq<string>, a: seq<nat>, m: nat): seq<string>
    requires |order| == |a|
  {
    if a == [] then []
    else
      var l := |a| - 1;
      Bucket(order[..l], a[..l], m) + if a[l] == m then [order[l]] else []
  }

  function Plan(classes: seq<string>, n: nat): seq<nat>
    requires n >= 1
  {
    Greedy(Weights(Sorted(classes, PlanLe)), n)
  }

  /** The first `k` shards as the loop fills them. */
  function Buckets(order: seq<string>, a: seq<nat>, k: nat): (r: seq<seq<string>>)
    requires |order| == |a|
    ensures |r| == k && forall m :: 0 <= m < k ==> r[m] == Bucket(order, a, m)
  {
    if k == 0 then [] else Buckets(order, a, k - 1) + [Bucket(order, a, k - 1)]
  }

  /** `[sorted(s) for s in shards]`. */
  function SortedEach(buckets: seq<seq<string>>): (r: seq<seq<string>>)
    ensures |r| == |buckets|
  {
    if buckets == [] then []
    else SortedEach(buckets[..|buckets| - 1]) + [Sorted(buckets[|buckets| - 1], NameLe)]
  }

  function Shards(classes: seq<string>, n: nat): (r: seq<seq<string>>)
    requires n >= 1
    ensures |r| == n
  {
    SortedEach(Buckets(Sorted(classes, PlanLe), Plan(classes, n), n))
  }

  // --- the runner's loop --------------------------------------------------

  /** `loads.index(min(loads))`. */
  method FirstLeast(loads: array<nat>) returns (m: nat)
    requires loads.Length >= 1
    ensures m < loads.Length
    ensures forall i :: 0 <= i < loads.Length ==> loads[m] <= loads[i]
    ensures forall i :: 0 <= i < m ==> loads[m] < loads[i]
  {
    m := 0;
    for k := 1 to loads.Length
      invariant m < k
      invariant forall i :: 0 <= i < k ==> loads[m] <= loads[i]
      invariant forall i :: 0 <= i < m ==> loads[m] < loads[i]
    {
      if loads[k] < loads[m] {
        m := k;
      }
    }
  }

  ghost predicate LoadsAre(loads: seq<nat>, order: seq<string>, i: nat, n: nat)
    requires n >= 1 && i <= |order|
  {
    |loads| == n && forall x :: 0 <= x < n ==> loads[x] == Load(Weights(order[..i]), Greedy(Weights(order[..i]), n), x)
  }

  ghost predicate BucketsAre(shards: seq<seq<string>>, order: seq<string>, i: nat, n: nat)
    requires n >= 1 && i <= |order|
  {
    |shards| == n && forall x :: 0 <= x < n ==> shards[x] == Bucket(order[..i], Greedy(Weights(order[..i]), n), x)
  }

  lemma LeastIsUnique(loads: seq<nat>, order: seq<string>, i: nat, n: nat, m: nat)
    requires n >= 1 && i <= |order| && LoadsAre(loads, order, i, n) && m < n
    requires forall x :: 0 <= x < n ==> loads[m] <= loads[x]
    requires forall x :: 0 <= x < m ==> loads[m] < loads[x]
    ensures m == LeastLoaded(Weights(order[..i]), Greedy(Weights(order[..i]), n), n)
  {
    hide Load, Greedy, Weights;
    var l := LeastLoaded(Weights(order[..i]), Greedy(Weights(order[..i]), n), n);
    assert loads[l] <= loads[m] <= loads[l];
  }

  lemma PrefixSteps(order: seq<string>, i: nat, n: nat)
    requires n >= 1 && i < |order|
    ensures Weights(order[..i + 1])[..i] == Weights(order[..i])
    ensures Greedy(Weights(order[..i + 1]), n) ==
              Greedy(Weights(order[..i]), n) + [LeastLoaded(Weights(order[..i]), Greedy(Weights(order[..i]), n), n)]
  {
    assert order[..i + 1][..i] == order[..i];
  }

  /** One turn of the loop: job `i` goes to `m`. */
  lemma PlanStep(order: seq<string>, i: nat, n: nat, m: nat, x: nat)
    requires n >= 1 && i < |order|
    requires m == LeastLoaded(Weights(order[..i]), Greedy(Weights(order[..i]), n), n)
    ensures var w, w' := Weights(order[..i]), Weights(order[..i + 1]);
      var g, g' := Greedy(w, n), Greedy(w', n);
      && Load(w', g', x) == Load(w, g, x) + (if x == m then Weight(order[i]) else 0)
      && Bucket(order[..i + 1], g', x) == Bucket(order[..i], g, x) + (if x == m then [order[i]] else [])
  {
    PrefixSteps(order, i, n);
    assert order[..i + 1][..i] == order[..i];
    var g' := Greedy(Weights(order[..i + 1]), n);
    assert g'[..i] == Greedy(Weights(order[..i]), n);
  }

  lemma LoopStep(loads: seq<nat>, shards: seq<seq<string>>, order: seq<string>, i: nat, n: nat, m: nat)
    requires n >= 1 && i < |order| && LoadsAre(loads, order, i, n) && BucketsAre(shards, order, i, n)
    requires m == LeastLoaded(Weights(order[..i]), Greedy(Weights(order[..i]), n), n)
    ensures LoadsAre(loads[m := loads[m] + Weight(order[i])], order, i + 1, n)
    ensures BucketsAre(shards[m := shards[m] + [order[i]]], order, i + 1, n)
  {
    hide Load, Bucket, Greedy, Weights, Weight, LeastLoaded;
    var loads' := loads[m := loads[m] + Weight(order[i])];
    var shards' := shards[m := shards[m] + [order[i]]];
    forall x | 0 <= x < n
      ensures loads'[x] == Load(Weights(order[..i + 1]), Greedy(Weights(order[..i + 1]), n), x)
      ensures shards'[x] == Bucket(order[..i + 1], Greedy(Weights(order[..i + 1]), n), x)
    {
      PlanStep(order, i, n, m, x);
    }
  }

  method ShardClasses(classes: seq<string>, n: nat) returns (result: seq<seq<string>>)
    requires n >= 1
    ensures result == Shards(classes, n)
  {
    hide Load, Bucket, Greedy, Weights, Weight, LeastLoaded, Sorted, LoadsAre, BucketsAre;
    var order := Sorted(classes, PlanLe);
    var shards := new seq<string>[n](_ => []);
    var loads := new nat[n](_ => 0);
    LoopStart(order, n, loads[..], shards[..]);
    for i := 0 to |order|
      invariant LoadsAre(loads[..], order, i, n)
      invariant BucketsAre(shards[..], order, i, n)
    {
      var m := FirstLeast(loads);
      LeastIsUnique(loads[..], order, i, n, m);
      LoopStep(loads[..], shards[..], order, i, n, m);
      ghost var before, had := loads[..], shards[..];
      shards[m] := shards[m] + [order[i]];
      loads[m] := loads[m] + Weight(order[i]);
      assert loads[..] == before[m := before[m] + Weight(order[i])];
      assert shards[..] == had[m := had[m] + [order[i]]];
    }
    LoopEnd(shards[..], classes, n);
    result := [];
    for x := 0 to n
      invariant shards[..] == Buckets(order, Plan(classes, n), n)
      invariant result == SortedEach(shards[..x])
    {
      assert shards[..x + 1][..x] == shards[..x];
      result := result + [Sorted(shards[x], NameLe)];
    }
    assert shards[..n] == shards[..];
  }

  lemma LoopStart(order: seq<string>, n: nat, loads: seq<nat>, shards: seq<seq<string>>)
    requires n >= 1 && |loads| == |shards| == n
    requires forall x :: 0 <= x < n ==> loads[x] == 0 && shards[x] == []
    ensures LoadsAre(loads, order, 0, n) && BucketsAre(shards, order, 0, n)
  {
    assert order[..0] == [];
  }

  lemma LoopEnd(shards: seq<seq<string>>, classes: seq<string>, n: nat)
    requires n >= 1 && BucketsAre(shards, Sorted(classes, PlanLe), |Sorted(classes, PlanLe)|, n)
    ensures shards == Buckets(Sorted(classes, PlanLe), Plan(classes, n), n)
  {
    hide Sorted;
    var order := Sorted(classes, PlanLe);
    assert order[..|order|] == order;
  }

  // --- an exact partition that depends only on the classes ----------------

  function Flatten<T>(ss: seq<seq<T>>): seq<T> {
    if ss == [] then [] else Flatten(ss[..|ss| - 1]) + ss[|ss| - 1]
  }

  lemma {:induction false} FlattenSorted(buckets: seq<seq<string>>)
    ensures multiset(Flatten(SortedEach(buckets))) == multiset(Flatten(buckets))
  {
    hide Sorted;
    if buckets != [] {
      FlattenSorted(buckets[..|buckets| - 1]);
      var r := SortedEach(buckets);
      assert r[..|r| - 1] == SortedEach(buckets[..|buckets| - 1]);
    }
  }

  lemma FlattenAppend<T>(ss: seq<seq<T>>, s: seq<T>)
    ensures multiset(Flatten(ss + [s])) == multiset(Flatten(ss)) + multiset(s)
  {
    assert (ss + [s])[..|ss|] == ss;
  }

  lemma BucketStep(order: seq<string>, a: seq<nat>, m: nat)
    requires |order| == |a| && a != []
    ensures var l := |a| - 1;
      multiset(Bucket(order, a, m)) ==
        multiset(Bucket(order[..l], a[..l], m)) + (if a[l] == m then multiset{order[l]} else multiset{})
  {
  }

  lemma {:induction false} FlattenStep(order: seq<string>, a: seq<nat>, k: nat)
    requires |order| == |a| && a != []
    ensures var l := |a| - 1;
      multiset(Flatten(Buckets(order, a, k))) ==
        multiset(Flatten(Buckets(order[..l], a[..l], k))) + (if a[l] < k then multiset{order[l]} else multiset{})
  {
    hide Bucket, Flatten;
    var l := |a| - 1;
    if k == 0 {
      assert Buckets(order, a, k) == Buckets(order[..l], a[..l], k);
    } else {
      FlattenStep(order, a, k - 1);
      FlattenAppend(Buckets(order, a, k - 1), Bucket(order, a, k - 1));
      FlattenAppend(Buckets(order[..l], a[..l], k - 1), Bucket(order[..l], a[..l], k - 1));
      BucketStep(order, a, k - 1);
    }
  }

  lemma {:induction false} FlattenEmpty(k: nat)
    ensures Flatten(Buckets([], [], k)) == []
  {
    if k > 0 {
      FlattenEmpty(k - 1);
      var r := Buckets([], [], k);
      assert r[..k - 1] == Buckets([], [], k - 1);
    }
  }

  lemma {:induction false} BucketsPartition(order: seq<string>, a: seq<nat>, n: nat)
    requires |order| == |a| && Assignment(a, n)
    ensures multiset(Flatten(Buckets(order, a, n))) == multiset(order)
  {
    hide Bucket, Buckets, Flatten;
    if a == [] {
      FlattenEmpty(n);
      assert order == [];
    } else {
      var l := |a| - 1;
      FlattenStep(order, a, n);
      BucketsPartition(order[..l], a[..l], n);
      assert order == order[..l] + [order[l]];
    }
  }

  /** Every class lands in exactly one of the `n` shards, as often as it was
      listed. */
  lemma ShardsArePartition(classes: seq<string>, n: nat)
    requires n >= 1
    ensures multiset(Flatten(Shards(classes, n))) == multiset(classes)
  {
    hide Sorted, Greedy;
    var order := Sorted(classes, PlanLe);
    BucketsPartition(order, Plan(classes, n), n);
    FlattenSorted(Buckets(order, Plan(classes, n), n));
  }

  /** Jobs that list the same classes in any order agree on every shard. */
  lemma ShardsIgnoreOrder(classes: seq<string>, other: seq<string>, n: nat)
    requires n >= 1 && multiset(classes) == multiset(other)
    ensures Shards(classes, n) == Shards(other, n)
  {
    hide Sorted, Greedy;
    PlanOrdered();
    SortedIgnoresOrder(classes, other, PlanLe);
  }

  lemma {:induction false} EachSorted(buckets: seq<seq<string>>, m: nat)
    requires m < |buckets|
    ensures SortedEach(buckets)[m] == Sorted(buckets[m], NameLe)
  {
    hide Sorted;
    var l := |buckets| - 1;
    if m < l {
      EachSorted(buckets[..l], m);
    }
  }

  /** Every shard lists its classes by name. */
  lemma ShardsAreSorted(classes: seq<string>, n: nat, m: nat)
    requires m < n
    ensures InOrder(Shards(classes, n)[m], NameLe)
  {
    hide Sorted, Greedy, NameLe;
    var buckets := Buckets(Sorted(classes, PlanLe), Plan(classes, n), n);
    EachSorted(buckets, m);
    NamesAreOrdered();
    SortedInOrder(buckets[m], NameLe);
  }

  /** The classes are placed by falling weight, and by name among equals. */
  lemma PlacedByWeight(classes: seq<string>, i: nat, j: nat)
    requires i < j < |classes|
    ensures var order := Sorted(classes, PlanLe);
      Weight(order[i]) >= Weight(order[j]) && (Weight(order[i]) == Weight(order[j]) ==> NameLe(order[i], order[j]))
  {
    hide Weight, NameLe, Sorted;
    PlanOrdered();
    SortedInOrder(classes, PlanLe);
    assert PlanLe(Sorted(classes, PlanLe)[i], Sorted(classes, PlanLe)[j]);
  }

  // --- balance ------------------------------------------------------------

  function WeightOf(shard: seq<string>): nat {
    if shard == [] then 0 else WeightOf(shard[..|shard| - 1]) + Weight(shard[|shard| - 1])
  }

  /** The heaviest of the shards. */
  function Heaviest(shards: seq<seq<string>>): nat {
    if shards == [] then 0
    else
      var rest := Heaviest(shards[..|shards| - 1]);
      var last := WeightOf(shards[|shards| - 1]);
      if rest < last then last else rest
  }

  lemma {:induction false} WeightOfJoin(a: seq<string>, b: seq<string>)
    ensures WeightOf(a + b) == WeightOf(a) + WeightOf(b)
  {
    hide Weight;
    if b == [] {
      assert a + b == a;
    } else {
      WeightOfJoin(a, b[..|b| - 1]);
      assert (a + b)[..|a + b| - 1] == a + b[..|b| - 1];
    }
  }

  lemma {:induction false} WeightOfInsert(x: string, xs: seq<string>)
    ensures WeightOf(Insert(x, xs, NameLe)) == Weight(x) + WeightOf(xs)
  {
    hide Weight;
    assert [x][..0] == [] && WeightOf([x]) == Weight(x);
    if xs == [] {
    } else if NameLe(x, xs[0]) {
      WeightOfJoin([x], xs);
    } else {
      WeightOfInsert(x, xs[1..]);
      WeightOfJoin([xs[0]], Insert(x, xs[1..], NameLe));
      WeightOfJoin([xs[0]], xs[1..]);
      assert xs == [xs[0]] + xs[1..];
    }
  }

  lemma {:induction false} WeightOfSorted(xs: seq<string>)
    ensures WeightOf(Sorted(xs, NameLe)) == WeightOf(xs)
  {
    hide Weight;
    if xs != [] {
      WeightOfSorted(xs[1..]);
      WeightOfInsert(xs[0], Sorted(xs[1..], NameLe));
      WeightOfJoin([xs[0]], xs[1..]);
      assert xs == [xs[0]] + xs[1..];
      assert [xs[0]][..0] == [] && WeightOf([xs[0]]) == Weight(xs[0]);
    }
  }

  lemma {:induction false} WeightOfBucket(order: seq<string>, a: seq<nat>, m: nat)
    requires |order| == |a|
    ensures WeightOf(Bucket(order, a, m)) == Load(Weights(order), a, m)
  {
    hide Weight;
    if a != [] {
      var l := |a| - 1;
      WeightOfBucket(order[..l], a[..l], m);
      assert Weights(order)[..l] == Weights(order[..l]);
      if a[l] == m {
        WeightOfJoin(Bucket(order[..l], a[..l], m), [order[l]]);
        assert [order[l]][..0] == [] && WeightOf([order[l]]) == Weight(order[l]);
      } else {
        assert Bucket(order, a, m) == Bucket(order[..l], a[..l], m);
      }
    }
  }

  lemma HeaviestAppend(bs: seq<seq<string>>, b: seq<string>)
    ensures Heaviest(SortedEach(bs + [b])) ==
              if Heaviest(SortedEach(bs)) < WeightOf(b) then WeightOf(b) else Heaviest(SortedEach(bs))
  {
    hide Sorted, WeightOf;
    assert (bs + [b])[..|bs|] == bs;
    var r := SortedEach(bs + [b]);
    assert r[..|r| - 1] == SortedEach(bs);
    WeightOfSorted(b);
  }

  lemma {:induction false} HeaviestIsMaxLoad(order: seq<string>, a: seq<nat>, n: nat)
    requires |order| == |a|
    ensures Heaviest(SortedEach(Buckets(order, a, n))) == MaxLoad(Weights(order), a, n)
  {
    hide Sorted, Bucket, WeightOf, Load, Flatten;
    if n > 0 {
      HeaviestIsMaxLoad(order, a, n - 1);
      var bs := Buckets(order, a, n - 1);
      HeaviestAppend(bs, Bucket(order, a, n - 1));
      WeightOfBucket(order, a, n - 1);
    }
  }

  lemma {:induction false} FoundIn(x: string, parts: seq<seq<string>>) returns (m: nat, k: nat)
    requires x in multiset(Flatten(parts))
    ensures m < |parts| && k < |parts[m]| && parts[m][k] == x
  {
    var l := |parts| - 1;
    if x in parts[l] {
      m := l;
      k :| 0 <= k < |parts[l]| && parts[l][k] == x;
    } else {
      assert x in Flatten(parts[..l]);
      m, k := FoundIn(x, parts[..l]);
    }
  }

  function Without(s: seq<string>, k: nat): seq<string>
    requires k < |s|
  {
    s[..k] + s[k + 1..]
  }

  lemma {:induction false} FlattenWithout(parts: seq<seq<string>>, m: nat, k: nat)
    requires m < |parts| && k < |parts[m]|
    ensures multiset(Flatten(parts[m := Without(parts[m], k)])) ==
              multiset(Flatten(parts)) - multiset{parts[m][k]}
    ensures parts[m][k] in multiset(Flatten(parts))
  {
    var l := |parts| - 1;
    var parts' := parts[m := Without(parts[m], k)];
    if m == l {
      assert parts'[..l] == parts[..l];
      assert parts[m] == parts[m][..k] + [parts[m][k]] + parts[m][k + 1..];
    } else {
      FlattenWithout(parts[..l], m, k);
      assert parts'[..l] == parts[..l][m := Without(parts[m], k)];
    }
  }

  lemma WeightOfOne(c: string)
    ensures WeightOf([c]) == Weight(c)
  {
    hide Weight;
    assert [c][..0] == [];
  }

  lemma WeightWithout(s: seq<string>, k: nat)
    requires k < |s|
    ensures WeightOf(s) == WeightOf(Without(s, k)) + Weight(s[k])
  {
    hide WeightOf, Weight;
    WeightOfOne(s[k]);
    WeightOfJoin(s[..k], [s[k]]);
    WeightOfJoin(s[..k] + [s[k]], s[k + 1..]);
    WeightOfJoin(s[..k], s[k + 1..]);
    assert s == s[..k] + [s[k]] + s[k + 1..];
  }

  /** Any partition of the classes is an assignment of the sorted list. */
  lemma {:induction false} AssignmentOf(order: seq<string>, parts: seq<seq<string>>) returns (b: seq<nat>)
    requires multiset(Flatten(parts)) == multiset(order)
    ensures |b| == |order| && Assignment(b, |parts|)
    ensures forall m :: 0 <= m < |parts| ==> Load(Weights(order), b, m) == WeightOf(parts[m])
  {
    hide Weight;
    if order == [] {
      b := [];
      AllEmpty(parts);
    } else {
      var l := |order| - 1;
      assert order == order[..l] + [order[l]];
      var x, k := FoundIn(order[l], parts);
      FlattenWithout(parts, x, k);
      WeightWithout(parts[x], k);
      var parts' := parts[x := Without(parts[x], k)];
      var b' := AssignmentOf(order[..l], parts');
      b := b' + [x];
      assert b[..l] == b' && Weights(order)[..l] == Weights(order[..l]);
    }
  }

  lemma {:induction false} AllEmpty(parts: seq<seq<string>>)
    requires multiset(Flatten(parts)) == multiset([])
    ensures forall m :: 0 <= m < |parts| ==> parts[m] == []
  {
    if parts != [] {
      var l := |parts| - 1;
      assert |multiset(Flatten(parts))| == |Flatten(parts)|;
      AllEmpty(parts[..l]);
    }
  }

  lemma {:induction false} MaxLoadIsHeaviest(order: seq<string>, b: seq<nat>, parts: seq<seq<string>>)
    requires |b| == |order|
    requires forall m :: 0 <= m < |parts| ==> Load(Weights(order), b, m) == WeightOf(parts[m])
    ensures MaxLoad(Weights(order), b, |parts|) == Heaviest(parts)
  {
    hide Load, WeightOf;
    if parts != [] {
      MaxLoadIsHeaviest(order, b, parts[..|parts| - 1]);
    }
  }

  /** Longest-first balance: the heaviest shard is at most 4/3 - 1/(3n) times the
      heaviest shard of any way to split the same classes `n` ways. */
  lemma ShardsAreBalanced(classes: seq<string>, n: nat, parts: seq<seq<string>>)
    requires n >= 1 && |parts| == n && multiset(Flatten(parts)) == multiset(classes)
    ensures 3 * n * Heaviest(Shards(classes, n)) <= (4 * n - 1) * Heaviest(parts)
    ensures n * Heaviest(Shards(classes, n)) <= (2 * n - 1) * Heaviest(parts)
  {
    hide Sorted, Greedy, Load, MaxLoad, Heaviest, Flatten;
    var order := Sorted(classes, PlanLe);
    HeaviestIsMaxLoad(order, Plan(classes, n), n);
    var b := AssignmentOf(order, parts);
    MaxLoadIsHeaviest(order, b, parts);
    HeaviestFirst(classes);
    LongestFirstBound(Weights(order), b, n);
    GreedyBound(Weights(order), b, n);
  }

  lemma HeaviestFirst(classes: seq<string>)
    ensures Descending(Weights(Sorted(classes, PlanLe)))
  {
    hide Sorted, Weight, NameLe;
    PlanOrdered();
    SortedInOrder(classes, PlanLe);
    var order := Sorted(classes, PlanLe);
    forall i, j | 0 <= i <= j < |order|
      ensures Weight(order[i]) >= Weight(order[j])
    {
      if i < j {
        assert PlanLe(order[i], order[j]);
      }
    }
  }
}
