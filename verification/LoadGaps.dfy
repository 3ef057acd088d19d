/** The load writer's numbered inserts, and the chaos harness's search for the
    numbers that did not survive. */
module LoadGaps {
  import opened Optional
  import opened Sorting
  import opened Collections

  /** Numbers `lo..hi`, both included. */
  datatype Range = Range(lo: int, hi: int)

  predicate Within(r: Range, x: int) { r.lo <= x <= r.hi }

  function Size(r: Range): int { r.hi - r.lo + 1 }

  ghost predicate Covered(ranges: seq<Range>, x: int) {
    exists i :: 0 <= i < |ranges| && Within(ranges[i], x)
  }

  function Greater(a: int, b: int): (r: int)
    ensures r >= a && r >= b && (r == a || r == b)
  {
    if a >= b then a else b
  }

  function Lesser(a: int, b: int): (r: int)
    ensures r <= a && r <= b && (r == a || r == b)
  {
    if a <= b then a else b
  }

  // --- the writer ---------------------------------------------------------

  /** Ranges that follow one another from 1 to `n`. */
  ghost predicate Tiles(ranges: seq<Range>, n: int) {
    if ranges == [] then n == 0
    else
      var r := ranges[|ranges| - 1];
      r.lo <= r.hi == n && Tiles(ranges[..|ranges| - 1], r.lo - 1)
  }

  /** What the server makes of an insert. */
  datatype Reply = Stored | Duplicate | Outage | Other

  /** The insert counts as done: stored, or a single document that is there already.
      A batch reports a duplicate as a bulk-write error instead. */
  predicate Counted(r: Range, reply: Reply) { reply.Stored? || (reply.Duplicate? && Size(r) == 1) }

  /** An error that neither handler takes. */
  predicate Uncaught(r: Range, reply: Reply) { !reply.Outage? && !Counted(r, reply) }

  /** What each reply does: only a lone duplicate counts, and what neither counts nor
      is an outage ends the run. */
  lemma RepliesMean(r: Range)
    ensures Counted(r, Stored) && !Counted(r, Outage) && !Counted(r, Other)
    ensures Counted(r, Duplicate) <==> r.lo == r.hi
    ensures !Uncaught(r, Stored) && !Uncaught(r, Outage) && Uncaught(r, Other)
    ensures Uncaught(r, Duplicate) <==> r.lo != r.hi
  {}

  /** Numbers in ranges whose insert met an outage. */
  function Failed(ranges: seq<Range>, insert: Range -> Reply): int {
    if ranges == [] then 0
    else
      var r := ranges[|ranges| - 1];
      Failed(ranges[..|ranges| - 1], insert) + if insert(r).Outage? then Size(r) else 0
  }

  /** Numbers in ranges whose insert succeeded. */
  function Succeeded(ranges: seq<Range>, insert: Range -> Reply): int {
    if ranges == [] then 0
    else
      var r := ranges[|ranges| - 1];
      Succeeded(ranges[..|ranges| - 1], insert) + if Counted(r, insert(r)) then Size(r) else 0
  }

  lemma NothingAttempted(insert: Range -> Reply)
    ensures Tiles([], 0) && Failed([], insert) == 0 == Succeeded([], insert)
  {}

  lemma OneMoreRange(ranges: seq<Range>, r: Range, insert: Range -> Reply)
    ensures Tiles(ranges, r.lo - 1) && r.lo <= r.hi ==> Tiles(ranges + [r], r.hi)
    ensures Failed(ranges + [r], insert) == Failed(ranges, insert) + if insert(r).Outage? then Size(r) else 0
    ensures Succeeded(ranges + [r], insert) == Succeeded(ranges, insert) + if Counted(r, insert(r)) then Size(r) else 0
  {
    assert (ranges + [r])[..|ranges|] == ranges;
  }

  /** The insert loop, stopped after at most `turns` batches. A recoverable error
      counts the whole batch as failed, a single duplicate as succeeded; an error that
      is not caught leaves the loop with the batch in neither count. */
  method Run(count: Option<int>, batchSize: int, turns: nat, insert: Range -> Reply)
    returns (raised: bool, n: int, failures: int, ranges: seq<Range>)
    ensures Tiles(ranges, n) && n >= 0 && failures == Failed(ranges, insert)
    ensures !raised ==> n == Succeeded(ranges, insert) + failures
    ensures raised <==> exists i :: 0 <= i < |ranges| && Uncaught(ranges[i], insert(ranges[i]))
    ensures raised ==> n == Succeeded(ranges, insert) + failures + Size(ranges[|ranges| - 1])
    ensures count.Some? ==> n <= Greater(count.value, 0)
    ensures !raised && |ranges| < turns ==> count.Some? && n == Greater(count.value, 0)
    ensures forall i :: 0 <= i < |ranges| ==> Size(ranges[i]) <= Greater(1, batchSize)
    ensures forall i :: 0 <= i < |ranges| && Size(ranges[i]) != Greater(1, batchSize) ==>
      i == |ranges| - 1 && count.Some? && n == count.value
  {
    hide Tiles, Failed, Succeeded;
    raised, n, failures, ranges := false, 0, 0, [];
    NothingAttempted(insert);
    for turn := 0 to turns
      invariant !raised && n >= 0 && Tiles(ranges, n) && |ranges| == turn
      invariant failures == Failed(ranges, insert) && n == Succeeded(ranges, insert) + failures
      invariant forall i :: 0 <= i < |ranges| ==> !Uncaught(ranges[i], insert(ranges[i]))
      invariant count.Some? ==> n <= Greater(count.value, 0)
      invariant forall i :: 0 <= i < |ranges| ==> Size(ranges[i]) <= Greater(1, batchSize)
      invariant forall i :: 0 <= i < |ranges| && Size(ranges[i]) != Greater(1, batchSize) ==>
        i == |ranges| - 1 && count.Some? && n == count.value
    {
      if count.Some? && n >= count.value {
        break;
      }
      var remaining := if count.Some? then count.value - n else batchSize;
      var chunk := Greater(1, Lesser(batchSize, remaining));
      var attempted := Range(n + 1, n + chunk);
      n := n + chunk;
      OneMoreRange(ranges, attempted, insert);
      ranges := ranges + [attempted];
      var reply := insert(attempted);
      if reply.Outage? {
        failures := failures + chunk;
      } else if !Counted(attempted, reply) {
        assert Uncaught(ranges[turn], insert(ranges[turn]));
        return true, n, failures, ranges;
      }
    }
  }

  lemma {:induction false} TilesCover(ranges: seq<Range>, n: int, x: int)
    requires Tiles(ranges, n)
    ensures n >= 0 && (Covered(ranges, x) <==> 1 <= x <= n)
  {
    if ranges != [] {
      var l := |ranges| - 1;
      var short := ranges[..l];
      TilesCover(short, ranges[l].lo - 1, x);
      if Covered(short, x) {
        var i :| 0 <= i < |short| && Within(short[i], x);
        assert Within(ranges[i], x);
      }
      if i :| 0 <= i < |ranges| && Within(ranges[i], x) {
        assert i < l ==> Within(short[i], x);
      }
      assert Within(ranges[l], x) ==> Covered(ranges, x);
    }
  }

  /** Every number up to `n` is attempted in exactly one batch, no other in any. */
  lemma {:induction false} AttemptedOnce(ranges: seq<Range>, n: int, x: int, i: nat, j: nat)
    requires Tiles(ranges, n)
    ensures Covered(ranges, x) <==> 1 <= x <= n
    ensures i < |ranges| && j < |ranges| && Within(ranges[i], x) && Within(ranges[j], x) ==> i == j
    decreases |ranges|
  {
    TilesCover(ranges, n, x);
    if i < |ranges| && j < |ranges| && Within(ranges[i], x) && Within(ranges[j], x) {
      var l := |ranges| - 1;
      var short := ranges[..l];
      TilesCover(short, ranges[l].lo - 1, x);
      if i < l && j < l {
        AttemptedOnce(short, ranges[l].lo - 1, x, i, j);
      }
      assert i < l ==> short[i] == ranges[i];
      assert j < l ==> short[j] == ranges[j];
    }
  }

  // --- the gap analyser ---------------------------------------------------

  /** `sorted(set(range(1, max + 1)) - present)`. */
  function Missing(present: set<int>, max: int): (r: seq<int>)
    ensures forall x :: x in r <==> 1 <= x <= max && x !in present
    ensures forall i, j :: 0 <= i < j < |r| ==> r[i] < r[j]
  {
    if max <= 0 then []
    else
      var r := Missing(present, max - 1);
      assert forall i :: 0 <= i < |r| ==> r[i] in r;
      if max in present then r else r + [max]
  }

  /** Ascending, with something present between any two neighbours. */
  ghost predicate Apart(gaps: seq<Range>) {
    && (forall i :: 0 <= i < |gaps| ==> gaps[i].lo <= gaps[i].hi)
    && (forall i, j :: 0 <= i < j < |gaps| ==> gaps[i].hi + 1 < gaps[j].lo)
  }

  /** The ranges hold exactly the numbers of `xs`. */
  ghost predicate Hold(gaps: seq<Range>, xs: seq<int>) { forall x :: Covered(gaps, x) <==> x in xs }

  lemma HoldMore(gaps: seq<Range>, xs: seq<int>, r: Range)
    requires Hold(gaps, xs)
    ensures forall x :: Covered(gaps + [r], x) <==> x in xs || Within(r, x)
  {
    var more := gaps + [r];
    forall x
      ensures Covered(more, x) <==> x in xs || Within(r, x)
    {
      if Covered(gaps, x) {
        var i :| 0 <= i < |gaps| && Within(gaps[i], x);
        assert Within(more[i], x);
      }
      if i :| 0 <= i < |more| && Within(more[i], x) {
        assert i < |gaps| ==> Within(gaps[i], x);
      }
      assert Within(r, x) ==> Within(more[|gaps|], x);
    }
  }

  /** Runs of consecutive numbers become ranges. */
  method Compact(missing: seq<int>) returns (gaps: seq<Range>)
    requires forall i, j :: 0 <= i < j < |missing| ==> missing[i] < missing[j]
    ensures Apart(gaps) && Hold(gaps, missing)
  {
    hide Hold;
    gaps := [];
    if missing == [] {
      HoldNone();
      return;
    }
    var start, end := missing[0], missing[0];
    ghost var done: seq<int> := [];
    HoldNone();
    for i := 1 to |missing|
      invariant start <= end == missing[i - 1] && Apart(gaps) && Hold(gaps, done)
      invariant forall k :: 0 <= k < |gaps| ==> gaps[k].hi + 1 < start
      invariant forall x :: x in missing[..i] <==> x in done || Within(Range(start, end), x)
    {
      var x := missing[i];
      assert missing[..i + 1] == missing[..i] + [x];
      if x == end + 1 {
        end := x;
      } else {
        HoldStep(gaps, done, Range(start, end), missing[..i]);
        gaps := gaps + [Range(start, end)];
        done := missing[..i];
        start, end := x, x;
      }
    }
    assert missing[..|missing|] == missing;
    HoldStep(gaps, done, Range(start, end), missing);
    gaps := gaps + [Range(start, end)];
  }

  lemma HoldNone()
    ensures Hold([], [])
  {}

  lemma HoldStep(gaps: seq<Range>, done: seq<int>, r: Range, xs: seq<int>)
    requires Hold(gaps, done) && forall x :: x in xs <==> x in done || Within(r, x)
    ensures Hold(gaps + [r], xs)
  {
    HoldMore(gaps, done, r);
  }

  /** There is only one such list of gaps, so each is as long as it can be. */
  lemma {:induction false} GapsAreUnique(a: seq<Range>, b: seq<Range>)
    requires Apart(a) && Apart(b) && forall x :: Covered(a, x) <==> Covered(b, x)
    ensures a == b
    decreases |a|
  {
    if a == [] {
      if b != [] {
        assert Within(b[0], b[0].lo);
        assert Covered(b, b[0].lo) && !Covered(a, b[0].lo);
      }
    } else if b == [] {
      assert Within(a[0], a[0].lo);
      assert Covered(a, a[0].lo) && !Covered(b, a[0].lo);
    } else {
      LastGap(a, b);
      LastGap(b, a);
      var k, l := |a| - 1, |b| - 1;
      assert a[k] == b[l];
      forall x
        ensures Covered(a[..k], x) <==> Covered(b[..l], x)
      {
        WithoutLast(a, x);
        WithoutLast(b, x);
      }
      GapsAreUnique(a[..k], b[..l]);
      assert a == a[..k] + [a[k]] && b == b[..l] + [b[l]];
    }
  }

  lemma WithoutLast(a: seq<Range>, x: int)
    requires a != [] && Apart(a)
    ensures Covered(a[..|a| - 1], x) <==> Covered(a, x) && !Within(a[|a| - 1], x)
  {
    var k := |a| - 1;
    if i :| 0 <= i < k && Within(a[..k][i], x) {
      assert Within(a[i], x) && a[i].hi + 1 < a[k].lo;
    }
    if Covered(a, x) && !Within(a[k], x) {
      var i :| 0 <= i < |a| && Within(a[i], x);
      assert Within(a[..k][i], x);
    }
  }

  /** The last gap of `b` reaches no further either way than that of `a`. */
  lemma LastGap(a: seq<Range>, b: seq<Range>)
    requires Apart(a) && Apart(b) && a != [] && b != [] && forall x :: Covered(a, x) <==> Covered(b, x)
    ensures b[|b| - 1].hi <= a[|a| - 1].hi && (b[|b| - 1].hi == a[|a| - 1].hi ==> b[|b| - 1].lo >= a[|a| - 1].lo)
  {
    var p, q := a[|a| - 1], b[|b| - 1];
    assert Within(q, q.hi);
    assert Covered(b, q.hi) && Covered(a, q.hi);
    var i :| 0 <= i < |a| && Within(a[i], q.hi);
    assert i < |a| - 1 ==> a[i].hi + 1 < p.lo;
    if q.hi == p.hi && q.lo < p.lo {
      assert Within(q, p.lo - 1);
      assert Covered(b, p.lo - 1);
    }
  }

  // --- counts -------------------------------------------------------------

  function Span(lo: int, hi: int): (r: set<int>)
    ensures forall x :: x in r <==> lo <= x <= hi
    ensures |r| == Greater(hi - lo + 1, 0)
    decreases hi - lo + 1
  {
    if hi < lo then {} else Span(lo, hi - 1) + {hi}
  }

  lemma MissingMore(present: set<int>, max: int)
    requires max > 0
    ensures |Missing(present, max)| == |Missing(present, max - 1)| + if max in present then 0 else 1
  {}

  lemma {:induction false} MissingCounts(present: set<int>, max: int)
    ensures |present * Span(1, max)| + |Missing(present, max)| == Greater(max, 0)
  {
    if max <= 0 {
      assert present * Span(1, max) == {};
    } else {
      MissingCounts(present, max - 1);
      hide Missing;
      MissingMore(present, max);
      if max in present {
        assert present * Span(1, max) == present * Span(1, max - 1) + {max};
      } else {
        assert present * Span(1, max) == present * Span(1, max - 1);
      }
    }
  }

  datatype Analysis = Analysis(total: nat, maxN: int, missing: nat, gaps: seq<Range>, duplicates: int)

  lemma LastIsMax(ns: seq<int>)
    requires ns != []
    ensures var r := Sorted(ns, IntLe); r[|r| - 1] in ns && forall x :: x in ns ==> x <= r[|r| - 1]
  {
    hide Sorted;
    var r := Sorted(ns, IntLe);
    IntsAreOrdered();
    SortedInOrder(ns, IntLe);
    assert r[|r| - 1] in multiset(r);
    forall x | x in ns
      ensures x <= r[|r| - 1]
    {
      assert x in multiset(r);
      var i :| 0 <= i < |r| && r[i] == x;
      assert i < |r| - 1 ==> IntLe(r[i], r[|r| - 1]);
    }
  }

  /** The surviving numbers' gaps: exactly what is missing up to the greatest. */
  method Analyze(docs: seq<int>) returns (a: Analysis)
    ensures docs == [] ==> a == Analysis(0, 0, 0, [], 0)
    ensures docs != [] ==> a.maxN in docs && forall x :: x in docs ==> x <= a.maxN
    ensures Apart(a.gaps) && forall x :: Covered(a.gaps, x) <==> 1 <= x <= a.maxN && x !in docs
    ensures |Elements(docs) * Span(1, a.maxN)| + a.missing == Greater(a.maxN, 0)
    ensures (forall x :: x in docs ==> x >= 1) ==> |Elements(docs)| + a.missing == a.maxN
    ensures a.total == |docs| && a.duplicates == |docs| - |Elements(docs)|
  {
    hide Sorted, Missing, Span, Apart;
    if docs == [] {
      NoDocs();
      return Analysis(0, 0, 0, [], 0);
    }
    var ns := Sorted(docs, IntLe);
    LastIsMax(docs);
    var maxN := ns[|ns| - 1];
    var present := Elements(docs);
    var missing := Missing(present, maxN);
    MissingCounts(present, maxN);
    var gaps := Compact(missing);
    assert (forall x :: x in docs ==> x >= 1) ==> present * Span(1, maxN) == present;
    a := Analysis(|ns|, maxN, |missing|, gaps, |ns| - |present|);
  }

  lemma NoDocs()
    ensures Apart([]) && Elements<int>([]) == {} && Elements<int>([]) * Span(1, 0) == {}
  {}

  // --- the gaps a run leaves ----------------------------------------------

  /** A collection after a run: every batch that succeeded is there in full, and
      nothing that was not attempted. */
  ghost predicate Survives(docs: seq<int>, ranges: seq<Range>, insert: Range -> Reply) {
    && (forall i, x :: 0 <= i < |ranges| && Counted(ranges[i], insert(ranges[i])) && Within(ranges[i], x) ==> x in docs)
    && (forall x :: x in docs ==> Covered(ranges, x))
  }

  /** `x` was attempted in a batch that did not succeed. */
  ghost predicate InLostBatch(ranges: seq<Range>, insert: Range -> Reply, x: int) {
    exists i :: 0 <= i < |ranges| && !Counted(ranges[i], insert(ranges[i])) && Within(ranges[i], x)
  }

  function LostNumbers(ranges: seq<Range>, insert: Range -> Reply): set<int> {
    if ranges == [] then {}
    else
      var r := ranges[|ranges| - 1];
      LostNumbers(ranges[..|ranges| - 1], insert) + if Counted(r, insert(r)) then {} else Span(r.lo, r.hi)
  }

  lemma {:induction false} LostNumbersAre(ranges: seq<Range>, insert: Range -> Reply, n: int)
    requires Tiles(ranges, n)
    ensures |LostNumbers(ranges, insert)| == n - Succeeded(ranges, insert)
    ensures forall x :: x in LostNumbers(ranges, insert) ==> x <= n
    ensures forall x :: InLostBatch(ranges, insert, x) ==> x in LostNumbers(ranges, insert)
  {
    hide Counted, Span, InLostBatch;
    if ranges == [] {
      assert forall x :: !InLostBatch(ranges, insert, x) by { NothingLost(insert); }
    } else {
      var l := |ranges| - 1;
      var r, short := ranges[l], ranges[..l];
      LostNumbersAre(short, insert, r.lo - 1);
      assert LostNumbers(short, insert) !! Span(r.lo, r.hi);
      forall x | InLostBatch(ranges, insert, x)
        ensures x in LostNumbers(ranges, insert)
      {
        LostBefore(ranges, insert, x);
      }
    }
  }

  lemma NothingLost(insert: Range -> Reply)
    ensures forall x :: !InLostBatch([], insert, x)
  {}

  lemma LostBefore(ranges: seq<Range>, insert: Range -> Reply, x: int)
    requires ranges != [] && InLostBatch(ranges, insert, x)
    ensures var l := |ranges| - 1;
      InLostBatch(ranges[..l], insert, x) || (!Counted(ranges[l], insert(ranges[l])) && Within(ranges[l], x))
  {
    hide Counted;
    var l := |ranges| - 1;
    var i :| 0 <= i < |ranges| && !Counted(ranges[i], insert(ranges[i])) && Within(ranges[i], x);
    if i < l {
      assert ranges[..l][i] == ranges[i];
    }
  }

  /** Every number in a gap was in a batch that did not succeed, and no more numbers
      are missing than the writer attempted without success. */
  lemma GapsAreFailures(docs: seq<int>, ranges: seq<Range>, insert: Range -> Reply, n: int, max: int)
    requires Tiles(ranges, n) && Survives(docs, ranges, insert) && (max <= 0 || max in docs)
    ensures forall x :: x in Missing(Elements(docs), max) ==> InLostBatch(ranges, insert, x)
    ensures |Missing(Elements(docs), max)| <= n - Succeeded(ranges, insert)
  {
    hide Tiles, Missing, Counted;
    var missing := Missing(Elements(docs), max);
    TilesCover(ranges, n, max);
    forall x | x in missing
      ensures InLostBatch(ranges, insert, x)
    {
      TilesCover(ranges, n, x);
      assert Covered(ranges, x);
    }
    LostNumbersAre(ranges, insert, n);
    DistinctSize(missing);
    assert forall x :: x in Elements(missing) ==> InLostBatch(ranges, insert, x);
    SubsetSize(Elements(missing), LostNumbers(ranges, insert));
  }

  lemma {:induction false} DistinctSize(xs: seq<int>)
    requires forall i, j :: 0 <= i < j < |xs| ==> xs[i] < xs[j]
    ensures |Elements(xs)| == |xs|
  {
    if xs != [] {
      var l := |xs| - 1;
      DistinctSize(xs[..l]);
      assert xs == xs[..l] + [xs[l]];
      assert Elements(xs) == Elements(xs[..l]) + {xs[l]};
    }
  }

  lemma SubsetSize(a: set<int>, b: set<int>)
    requires a <= b
    ensures |a| <= |b|
  {
    assert b == a + (b - a);
  }
}
