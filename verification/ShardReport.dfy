/** Raw result files of the pgjdbc gauge, and the report's merge of a shard set. */
module ShardReport {
  import opened Optional
  import opened ShardPlan
  import opened Sorting

  /** One test class of a raw file. */
  datatype Entry = Entry(name: string, tests: int, failures: int, skipped: int, failedTests: seq<string>)

  datatype Shard = Shard(index: int, of: int)

  datatype Raw = Raw(classes: seq<Entry>, shard: Option<Shard>, truncated: bool)

  datatype Refusal = Truncated | Mixed | Incomplete

  datatype Merge = Merged(raw: Raw) | Refused(why: Refusal)

  function Indexes(datas: seq<Raw>): (r: seq<int>)
    requires forall d :: d in datas ==> d.shard.Some?
    ensures |r| == |datas| && forall i :: 0 <= i < |r| ==> r[i] == datas[i].shard.value.index
  {
    if datas == [] then [] else Indexes(datas[..|datas| - 1]) + [datas[|datas| - 1].shard.value.index]
  }

  /** `list(range(1, of + 1))`. */
  function OneTo(of: int): (r: seq<int>)
    ensures |r| == (if of < 0 then 0 else of) && forall i :: 0 <= i < |r| ==> r[i] == i + 1
  {
    if of <= 0 then [] else OneTo(of - 1) + [of]
  }

  function AllEntries(datas: seq<Raw>): seq<Entry> {
    if datas == [] then [] else AllEntries(datas[..|datas| - 1]) + datas[|datas| - 1].classes
  }

  /** One unsharded file, or a complete shard set; anything else is refused. */
  function MergeRaw(datas: seq<Raw>): Merge {
    if exists d :: d in datas && d.truncated then Refused(Truncated)
    else if |datas| == 1 && datas[0].shard.None? then Merged(datas[0])
    else if exists d :: d in datas && d.shard.None? then Refused(Mixed)
    else
      var of := set d | d in datas :: d.shard.value.of;
      if datas == [] || |of| != 1 || Sorted(Indexes(datas), IntLe) != OneTo(datas[0].shard.value.of)
      then Refused(Incomplete)
      else Merged(Raw(AllEntries(datas), None, false))
  }

  // --- exactly which sets are accepted ------------------------------------

  /** Every shard of one split, once each. */
  ghost predicate CompleteSet(datas: seq<Raw>) {
    && datas != []
    && (forall d :: d in datas ==> d.shard.Some? && d.shard.value.of == |datas|)
    && (forall i :: 1 <= i <= |datas| ==> HasIndex(datas, i))
  }

  ghost predicate HasIndex(datas: seq<Raw>, i: int) {
    exists d :: d in datas && d.shard.Some? && d.shard.value.index == i
  }

  lemma OneToInOrder(of: int)
    ensures InOrder(OneTo(of), IntLe)
  {}

  lemma OneToStep(n: nat)
    requires n > 0
    ensures OneTo(n) == OneTo(n - 1) + [n]
  {}

  /** `n` numbers among which each of 1..n occurs are a permutation of 1..n. */
  lemma {:induction false} CoversIsPermutation(xs: seq<int>, n: nat)
    requires |xs| == n && forall i :: 1 <= i <= n ==> i in xs
    ensures multiset(xs) == multiset(OneTo(n))
  {
    hide OneTo;
    if n == 0 {
      assert xs == [] && OneTo(0) == [];
    } else {
      assert n in xs;
      var k :| 0 <= k < n && xs[k] == n;
      var rest := xs[..k] + xs[k + 1..];
      assert xs == xs[..k] + [n] + xs[k + 1..];
      forall i | 1 <= i <= n - 1
        ensures i in rest
      {
        assert i in xs;
        var j :| 0 <= j < n && xs[j] == i;
        assert rest[if j < k then j else j - 1] == i;
      }
      CoversIsPermutation(rest, n - 1);
      OneToStep(n);
    }
  }

  lemma SortedIsRange(xs: seq<int>, n: nat)
    ensures Sorted(xs, IntLe) == OneTo(n) <==> |xs| == n && forall i :: 1 <= i <= n ==> i in xs
  {
    hide Sorted;
    IntsAreOrdered();
    if Sorted(xs, IntLe) == OneTo(n) {
      forall i | 1 <= i <= n
        ensures i in xs
      {
        assert OneTo(n)[i - 1] == i;
        assert i in multiset(OneTo(n));
        assert i in multiset(xs);
      }
    }
    if |xs| == n && forall i :: 1 <= i <= n ==> i in xs {
      CoversIsPermutation(xs, n);
      SortedInOrder(xs, IntLe);
      OneToInOrder(n);
      OrderIsUnique(Sorted(xs, IntLe), OneTo(n), IntLe);
    }
  }

  lemma OneOf(datas: seq<Raw>)
    requires datas != [] && forall d :: d in datas ==> d.shard.Some?
    ensures |set d | d in datas :: d.shard.value.of| == 1 <==>
              forall d :: d in datas ==> d.shard.value.of == datas[0].shard.value.of
  {
    var of := set d | d in datas :: d.shard.value.of;
    var first := datas[0].shard.value.of;
    assert first in of by {
      assert datas[0] in datas;
    }
    if |of| == 1 {
      assert |of - {first}| == 0;
      forall d | d in datas
        ensures d.shard.value.of == first
      {
        assert d.shard.value.of in of;
      }
    }
    if forall d :: d in datas ==> d.shard.value.of == first {
      assert of == {first};
    }
  }

  /** The merge accepts a set of raw files exactly when none is truncated and it
      is one unsharded file or a complete shard set. */
  lemma MergeAccepts(datas: seq<Raw>)
    ensures MergeRaw(datas).Merged? <==>
      && (forall d :: d in datas ==> !d.truncated)
      && ((|datas| == 1 && datas[0].shard.None?) || CompleteSet(datas))
  {
    hide Sorted;
    if datas != [] && forall d :: d in datas ==> d.shard.Some? {
      OneOf(datas);
      var of := datas[0].shard.value.of;
      var xs := Indexes(datas);
      assert datas[0] in datas;
      if of >= 0 {
        SortedIsRange(xs, of);
      }
      forall i
        ensures i in xs <==> HasIndex(datas, i)
      {
        if i in xs {
          var k :| 0 <= k < |xs| && xs[k] == i;
          assert datas[k] in datas && datas[k].shard.value.index == i;
        }
        if HasIndex(datas, i) {
          var d :| d in datas && d.shard.Some? && d.shard.value.index == i;
          var k :| 0 <= k < |datas| && datas[k] == d;
          assert xs[k] == i;
        }
      }
    } else if datas != [] {
      var d :| d in datas && d.shard.None?;
    }
  }

  /** Why a set is refused: a truncated file before all else, then a file without a
      shard among others, and only then an incomplete set. */
  lemma MergeRefuses(datas: seq<Raw>)
    ensures MergeRaw(datas) == Refused(Truncated) <==> exists d :: d in datas && d.truncated
    ensures MergeRaw(datas) == Refused(Mixed) <==>
      (forall d :: d in datas ==> !d.truncated) && |datas| > 1 && exists d :: d in datas && d.shard.None?
    ensures MergeRaw(datas) == Refused(Incomplete) <==>
      (forall d :: d in datas ==> !d.truncated && d.shard.Some?) && !CompleteSet(datas)
  {
    hide Sorted;
    MergeAccepts(datas);
    if |datas| == 1 {
      assert datas[0] in datas;
    }
  }

  /** The entries of all the files together. */
  ghost function Together(datas: seq<Raw>): multiset<Entry> {
    if datas == [] then multiset{} else multiset(datas[0].classes) + Together(datas[1..])
  }

  lemma {:induction false} EntriesTogether(datas: seq<Raw>)
    ensures multiset(AllEntries(datas)) == Together(datas)
  {
    if datas != [] {
      EntriesTogether(datas[1..]);
      AllEntriesFirst(datas);
    }
  }

  lemma {:induction false} AllEntriesFirst(datas: seq<Raw>)
    requires datas != []
    ensures AllEntries(datas) == datas[0].classes + AllEntries(datas[1..])
  {
    var l := |datas| - 1;
    if l > 0 {
      AllEntriesFirst(datas[..l]);
      assert datas[1..][..l - 1] == datas[..l][1..];
    }
  }

  /** Whatever is accepted, sharded or not: every entry of the files, as often as it
      occurs in them, in a payload that is not truncated. */
  lemma MergeConserves(datas: seq<Raw>)
    requires MergeRaw(datas).Merged?
    ensures var raw := MergeRaw(datas).raw; multiset(raw.classes) == Together(datas) && !raw.truncated
  {
    hide Sorted, AllEntries;
    EntriesTogether(datas);
    if |datas| == 1 && datas[0].shard.None? {
      assert datas[0] in datas && datas[1..] == [];
      assert Together([]) == multiset{};
    }
  }

  // --- the report's totals ------------------------------------------------

  /** Totals of the report table, and the failure lines below it. */
  datatype Tally = Tally(tests: int, failures: int, skipped: int, lines: multiset<string>)

  const PREFIX := "org.postgresql.test."

  /** `name.removeprefix("org.postgresql.test.")`. */
  function Short(name: string): string {
    if PREFIX <= name then name[|PREFIX|..] else name
  }

  function Lines(name: string, failed: seq<string>): multiset<string> {
    if failed == [] then multiset{}
    else Lines(name, failed[..|failed| - 1]) + multiset{Short(name) + " :: " + failed[|failed| - 1]}
  }

  function Counted(t: Tally, e: Entry): Tally {
    Tally(t.tests + e.tests, t.failures + e.failures, t.skipped + e.skipped, t.lines + Lines(e.name, e.failedTests))
  }

  function TallyOf(entries: seq<Entry>): Tally {
    if entries == [] then Tally(0, 0, 0, multiset{})
    else Counted(TallyOf(entries[..|entries| - 1]), entries[|entries| - 1])
  }

  lemma {:induction false} TallyMove(entries: seq<Entry>, k: nat)
    requires k < |entries|
    ensures TallyOf(entries) == Counted(TallyOf(entries[..k] + entries[k + 1..]), entries[k])
    decreases |entries|
  {
    hide Lines;
    var l := |entries| - 1;
    var rest := entries[..k] + entries[k + 1..];
    if k == l {
      assert rest == entries[..l];
    } else {
      TallyMove(entries[..l], k);
      assert entries[..l][..k] + entries[..l][k + 1..] == rest[..l - 1];
      assert rest[l - 1] == entries[l];
    }
  }

  /** Totals do not depend on the order of the classes. */
  lemma {:induction false} TallyIgnoresOrder(xs: seq<Entry>, ys: seq<Entry>)
    requires multiset(xs) == multiset(ys)
    ensures TallyOf(xs) == TallyOf(ys)
  {
    hide Counted;
    if xs == [] {
      EmptyMatch(ys);
    } else {
      var k := MatchLast(xs, ys);
      TallyMove(ys, k);
      TallyIgnoresOrder(xs[..|xs| - 1], ys[..k] + ys[k + 1..]);
    }
  }

  function TestsOf(e: Entry): int { e.tests }

  function FailuresOf(e: Entry): int { e.failures }

  function SkippedOf(e: Entry): int { e.skipped }

  function FailedTestsOf(e: Entry): int { |e.failedTests| }

  /** The sum over some classes. */
  ghost function Total(f: Entry -> int, entries: seq<Entry>): int {
    if entries == [] then 0 else f(entries[0]) + Total(f, entries[1..])
  }

  lemma {:induction false} TotalLast(f: Entry -> int, entries: seq<Entry>)
    requires entries != []
    ensures var l := |entries| - 1; Total(f, entries) == Total(f, entries[..l]) + f(entries[l])
  {
    var l := |entries| - 1;
    if l > 0 {
      TotalLast(f, entries[1..]);
      assert entries[1..][..l - 1] == entries[..l][1..];
    }
  }

  lemma {:induction false} TotalJoin(f: Entry -> int, a: seq<Entry>, b: seq<Entry>)
    ensures Total(f, a + b) == Total(f, a) + Total(f, b)
  {
    if a == [] {
      assert a + b == b;
    } else {
      assert (a + b)[1..] == a[1..] + b;
      TotalJoin(f, a[1..], b);
    }
  }

  /** A report's totals are sums over its classes, and it has one line per failed test. */
  lemma {:induction false} TallyIs(entries: seq<Entry>)
    ensures TallyOf(entries).tests == Total(TestsOf, entries)
    ensures TallyOf(entries).failures == Total(FailuresOf, entries)
    ensures TallyOf(entries).skipped == Total(SkippedOf, entries)
    ensures |TallyOf(entries).lines| == Total(FailedTestsOf, entries)
  {
    if entries != [] {
      var l := |entries| - 1;
      TallyIs(entries[..l]);
      TotalLast(TestsOf, entries);
      TotalLast(FailuresOf, entries);
      TotalLast(SkippedOf, entries);
      TotalLast(FailedTestsOf, entries);
      LineCount(entries[l].name, entries[l].failedTests);
    }
  }

  lemma {:induction false} LineCount(name: string, failed: seq<string>)
    ensures |Lines(name, failed)| == |failed|
  {
    if failed != [] {
      LineCount(name, failed[..|failed| - 1]);
    }
  }

  /** The text of a failure line: the class, shortened if it is one of the suite's, and
      the test. */
  ghost predicate IsLine(line: string, name: string, test: string) {
    || (exists cls :: name == "org.postgresql.test." + cls && line == cls + " :: " + test)
    || (!("org.postgresql.test." <= name) && line == name + " :: " + test)
  }

  lemma LineIs(name: string, test: string)
    ensures IsLine(Short(name) + " :: " + test, name, test)
  {
    if PREFIX <= name {
      assert name == PREFIX + Short(name);
    }
  }

  /** The totals of whatever is accepted are the sums over its files. */
  lemma {:induction false} MergeTotals(f: Entry -> int, datas: seq<Raw>)
    requires MergeRaw(datas).Merged?
    ensures Total(f, MergeRaw(datas).raw.classes) == TotalTogether(f, datas)
  {
    hide Sorted, AllEntries, Total;
    AllTotals(f, datas);
    if |datas| == 1 && datas[0].shard.None? {
      assert datas[0] in datas && datas[1..] == [];
      assert TotalTogether(f, []) == 0;
    }
  }

  ghost function TotalTogether(f: Entry -> int, datas: seq<Raw>): int {
    if datas == [] then 0 else Total(f, datas[0].classes) + TotalTogether(f, datas[1..])
  }

  lemma {:induction false} AllTotals(f: Entry -> int, datas: seq<Raw>)
    ensures Total(f, AllEntries(datas)) == TotalTogether(f, datas)
  {
    if datas != [] {
      AllEntriesFirst(datas);
      TotalJoin(f, datas[0].classes, AllEntries(datas[1..]));
      AllTotals(f, datas[1..]);
    }
  }

  predicate EntryLe(a: Entry, b: Entry) { NameLe(a.name, b.name) }

  lemma NoLines(name: string)
    ensures Lines(name, []) == multiset{}
  {}

  lemma LinesMore(name: string, failed: seq<string>, k: nat)
    requires k < |failed|
    ensures Lines(name, failed[..k + 1]) == Lines(name, failed[..k]) + multiset{Short(name) + " :: " + failed[k]}
  {
    hide Short;
    assert failed[..k + 1][..k] == failed[..k];
  }

  method FailureLines(c: Entry) returns (lines: seq<string>)
    ensures multiset(lines) == Lines(c.name, c.failedTests)
    ensures |lines| == |c.failedTests|
    ensures forall i :: 0 <= i < |lines| ==> IsLine(lines[i], c.name, c.failedTests[i])
  {
    hide Short, IsLine, Lines;
    NoLines(c.name);
    lines := [];
    for k := 0 to |c.failedTests|
      invariant |lines| == k && forall i :: 0 <= i < k ==> IsLine(lines[i], c.name, c.failedTests[i])
      invariant multiset(lines) == Lines(c.name, c.failedTests[..k])
    {
      var line := Short(c.name) + " :: " + c.failedTests[k];
      LineIs(c.name, c.failedTests[k]);
      LinesMore(c.name, c.failedTests, k);
      lines := lines + [line];
    }
    assert c.failedTests[..|c.failedTests|] == c.failedTests;
  }

  /** The report's loop, over the classes by name. */
  method Totals(classes: seq<Entry>) returns (tests: int, failures: int, skipped: int, lines: seq<string>)
    ensures TallyOf(classes) == Tally(tests, failures, skipped, multiset(lines))
    ensures tests == Total(TestsOf, classes) && failures == Total(FailuresOf, classes)
    ensures skipped == Total(SkippedOf, classes) && |lines| == Total(FailedTestsOf, classes)
    ensures forall e, t :: e in classes && t in e.failedTests ==> exists l :: l in lines && IsLine(l, e.name, t)
  {
    hide Sorted, Counted, Lines;
    tests, failures, skipped, lines := 0, 0, 0, [];
    var order := Sorted(classes, EntryLe);
    for i := 0 to |order|
      invariant TallyOf(order[..i]) == Tally(tests, failures, skipped, multiset(lines))
    {
      var c := order[i];
      ghost var before := Tally(tests, failures, skipped, multiset(lines));
      tests, failures, skipped := tests + c.tests, failures + c.failures, skipped + c.skipped;
      var more := FailureLines(c);
      lines := lines + more;
      CountedIs(before, c);
      assert order[..i + 1][..i] == order[..i];
    }
    assert order[..|order|] == order;
    TallyIgnoresOrder(order, classes);
    TallyIs(classes);
    assert |multiset(lines)| == |lines|;
    forall e, t | e in classes && t in e.failedTests
      ensures exists l :: l in lines && IsLine(l, e.name, t)
    {
      LineListed(classes, e, t);
      assert Short(e.name) + " :: " + t in multiset(lines);
      LineIs(e.name, t);
    }
  }

  lemma {:induction false} LineListed(entries: seq<Entry>, e: Entry, t: string)
    requires e in entries && t in e.failedTests
    ensures Short(e.name) + " :: " + t in TallyOf(entries).lines
  {
    hide Short;
    var l := |entries| - 1;
    if e in entries[..l] {
      LineListed(entries[..l], e, t);
    } else {
      LineOfTest(e.name, e.failedTests, t);
    }
  }

  lemma {:induction false} LineOfTest(name: string, failed: seq<string>, t: string)
    requires t in failed
    ensures Short(name) + " :: " + t in Lines(name, failed)
  {
    hide Short;
    var l := |failed| - 1;
    if t in failed[..l] {
      LineOfTest(name, failed[..l], t);
    }
  }

  lemma CountedIs(t: Tally, e: Entry)
    ensures Counted(t, e) ==
      Tally(t.tests + e.tests, t.failures + e.failures, t.skipped + e.skipped, t.lines + Lines(e.name, e.failedTests))
  {}

  // --- shard, then merge --------------------------------------------------

  /** What running `classes` records, given each class's result. */
  function Results(result: string -> Entry, classes: seq<string>): seq<Entry> {
    if classes == [] then [] else Results(result, classes[..|classes| - 1]) + [result(classes[|classes| - 1])]
  }

  /** `raw` records a finished run of exactly these classes, in some order. */
  ghost predicate Records(raw: Raw, result: string -> Entry, classes: seq<string>) {
    !raw.truncated && multiset(raw.classes) == multiset(Results(result, classes))
  }

  lemma {:induction false} ResultsJoin(result: string -> Entry, a: seq<string>, b: seq<string>)
    ensures Results(result, a + b) == Results(result, a) + Results(result, b)
  {
    if b == [] {
      assert a + b == a;
    } else {
      ResultsJoin(result, a, b[..|b| - 1]);
      assert (a + b)[..|a + b| - 1] == a + b[..|b| - 1];
    }
  }

  lemma {:induction false} ResultsIgnoreOrder(result: string -> Entry, a: seq<string>, b: seq<string>)
    requires multiset(a) == multiset(b)
    ensures multiset(Results(result, a)) == multiset(Results(result, b))
  {
    if a == [] {
      EmptyMatch(b);
    } else {
      var k := MatchLast(a, b);
      ResultsIgnoreOrder(result, a[..|a| - 1], b[..k] + b[k + 1..]);
      ResultsMove(result, b, k);
    }
  }

  lemma ResultsMove(result: string -> Entry, b: seq<string>, k: nat)
    requires k < |b|
    ensures multiset(Results(result, b)) == multiset(Results(result, b[..k] + b[k + 1..])) + multiset{result(b[k])}
  {
    hide Results;
    assert b == b[..k] + [b[k]] + b[k + 1..];
    ResultsJoin(result, b[..k], [b[k]]);
    ResultsJoin(result, b[..k] + [b[k]], b[k + 1..]);
    ResultsJoin(result, b[..k], b[k + 1..]);
    ResultOfOne(result, b[k]);
  }

  lemma ResultOfOne(result: string -> Entry, c: string)
    ensures Results(result, [c]) == [result(c)]
  {
    assert [c][..0] == [];
  }

  /** Shard number `x`, counted from 1. */
  function ShardAt(shards: seq<seq<string>>, x: int): seq<string> {
    if 1 <= x <= |shards| then shards[x - 1] else []
  }

  /** The results of the shards numbered in `xs`. */
  function Bag(result: string -> Entry, shards: seq<seq<string>>, xs: seq<int>): multiset<Entry> {
    if xs == [] then multiset{}
    else Bag(result, shards, xs[..|xs| - 1]) + multiset(Results(result, ShardAt(shards, xs[|xs| - 1])))
  }

  lemma BagStep(result: string -> Entry, shards: seq<seq<string>>, xs: seq<int>, x: int)
    ensures Bag(result, shards, xs + [x]) == Bag(result, shards, xs) + multiset(Results(result, ShardAt(shards, x)))
  {
    hide Results;
    assert (xs + [x])[..|xs|] == xs;
  }

  lemma {:induction false} BagMove(result: string -> Entry, shards: seq<seq<string>>, xs: seq<int>, k: nat)
    requires k < |xs|
    ensures Bag(result, shards, xs) ==
              Bag(result, shards, xs[..k] + xs[k + 1..]) + multiset(Results(result, ShardAt(shards, xs[k])))
    decreases |xs|
  {
    hide Results, Bag;
    var l := |xs| - 1;
    var rest := xs[..k] + xs[k + 1..];
    BagStep(result, shards, xs[..l], xs[l]);
    assert xs == xs[..l] + [xs[l]];
    if k == l {
      assert rest == xs[..l];
    } else {
      BagMove(result, shards, xs[..l], k);
      var short := xs[..l][..k] + xs[..l][k + 1..];
      assert rest == short + [xs[l]];
      BagStep(result, shards, short, xs[l]);
      Swap(Bag(result, shards, short), multiset(Results(result, ShardAt(shards, xs[k]))),
           multiset(Results(result, ShardAt(shards, xs[l]))));
    }
  }

  lemma {:induction false} BagIgnoresOrder(result: string -> Entry, shards: seq<seq<string>>, xs: seq<int>,
                                           ys: seq<int>)
    requires multiset(xs) == multiset(ys)
    ensures Bag(result, shards, xs) == Bag(result, shards, ys)
  {
    hide Results, Bag;
    if xs == [] {
      EmptyMatch(ys);
    } else {
      var k := MatchLast(xs, ys);
      BagMove(result, shards, ys, k);
      BagIgnoresOrder(result, shards, xs[..|xs| - 1], ys[..k] + ys[k + 1..]);
      BagStep(result, shards, xs[..|xs| - 1], xs[|xs| - 1]);
      assert xs == xs[..|xs| - 1] + [xs[|xs| - 1]];
    }
  }

  lemma {:induction false} BagOfAll(result: string -> Entry, shards: seq<seq<string>>, n: nat)
    requires n <= |shards|
    ensures Bag(result, shards, OneTo(n)) == multiset(Results(result, Flatten(shards[..n])))
  {
    hide Results;
    if n == 0 {
      assert shards[..0] == [];
      ResultsJoin(result, [], []);
      EmptyResults(result);
    } else {
      BagOfAll(result, shards, n - 1);
      OneToStep(n);
      assert OneTo(n)[..n - 1] == OneTo(n - 1);
      assert shards[..n][..n - 1] == shards[..n - 1];
      ResultsJoin(result, Flatten(shards[..n - 1]), shards[n - 1]);
    }
  }

  lemma EmptyResults(result: string -> Entry)
    ensures Results(result, []) == []
  {}

  lemma {:induction false} EntriesAreBag(result: string -> Entry, shards: seq<seq<string>>, datas: seq<Raw>)
    requires forall d :: d in datas ==> d.shard.Some? && Records(d, result, ShardAt(shards, d.shard.value.index))
    ensures multiset(AllEntries(datas)) == Bag(result, shards, Indexes(datas))
  {
    hide Results, Bag;
    if datas == [] {
      EmptyBag(result, shards, datas);
    } else {
      var l := |datas| - 1;
      EntriesAreBag(result, shards, datas[..l]);
      assert datas[l] in datas;
      assert Indexes(datas) == Indexes(datas[..l]) + [datas[l].shard.value.index];
      BagStep(result, shards, Indexes(datas[..l]), datas[l].shard.value.index);
    }
  }

  lemma EmptyBag(result: string -> Entry, shards: seq<seq<string>>, datas: seq<Raw>)
    requires datas == []
    ensures Bag(result, shards, Indexes(datas)) == multiset(AllEntries(datas))
  {}

  lemma IndexesCover(datas: seq<Raw>)
    requires CompleteSet(datas)
    ensures multiset(Indexes(datas)) == multiset(OneTo(|datas|))
    ensures forall d :: d in datas ==> 1 <= d.shard.value.index <= |datas|
  {
    var xs := Indexes(datas);
    forall i | 1 <= i <= |datas|
      ensures i in xs
    {
      assert HasIndex(datas, i);
      var d :| d in datas && d.shard.Some? && d.shard.value.index == i;
      var k :| 0 <= k < |datas| && datas[k] == d;
      assert xs[k] == i;
    }
    CoversIsPermutation(xs, |datas|);
    forall d | d in datas
      ensures 1 <= d.shard.value.index <= |datas|
    {
      var k :| 0 <= k < |datas| && datas[k] == d;
      assert xs[k] in multiset(xs);
      assert xs[k] in OneTo(|datas|);
    }
  }

  /** `d` is what its job wrote: job `k` of `n` split the classes as it listed
      them, and ran shard `k`. */
  ghost predicate IsJobFile(d: Raw, result: string -> Entry, listed: seq<seq<string>>) {
    && |listed| >= 1 && d.shard.Some? && 1 <= d.shard.value.index <= |listed|
    && Records(d, result, ShardAt(Shards(listed[d.shard.value.index - 1], |listed|), d.shard.value.index))
  }

  lemma JobFileOf(d: Raw, result: string -> Entry, listed: seq<seq<string>>, classes: seq<string>)
    requires IsJobFile(d, result, listed)
    requires forall k :: 0 <= k < |listed| ==> multiset(listed[k]) == multiset(classes)
    ensures d.shard.Some? && |listed| >= 1
    ensures Records(d, result, ShardAt(Shards(classes, |listed|), d.shard.value.index))
  {
    hide Shards, Records;
    ShardsIgnoreOrder(listed[d.shard.value.index - 1], classes, |listed|);
  }

  /** Jobs that split the classes on their own, each listing them in its own
      order, and record their runs: a complete set of their files, in any order,
      is accepted and totals exactly what one unsharded run would. */
  lemma ShardThenMergeConserves(result: string -> Entry, classes: seq<string>, listed: seq<seq<string>>,
                                datas: seq<Raw>, whole: Raw)
    requires CompleteSet(datas) && |listed| == |datas|
    requires forall k :: 0 <= k < |listed| ==> multiset(listed[k]) == multiset(classes)
    requires forall d :: d in datas ==> IsJobFile(d, result, listed)
    requires Records(whole, result, classes)
    ensures MergeRaw(datas).Merged?
    ensures multiset(MergeRaw(datas).raw.classes) == multiset(whole.classes)
    ensures TallyOf(MergeRaw(datas).raw.classes) == TallyOf(whole.classes)
  {
    hide Shards, Results, Flatten, TallyOf, Bag, Records, IsJobFile, MergeRaw, ShardAt, Indexes, OneTo, AllEntries;
    var n := |datas|;
    var shards := Shards(classes, n);
    ShardsArePartition(classes, n);
    forall d | d in datas
      ensures d.shard.Some? && Records(d, result, ShardAt(shards, d.shard.value.index)) && !d.truncated
    {
      JobFileOf(d, result, listed, classes);
      RecordsAreFinished(d, result, ShardAt(shards, d.shard.value.index));
    }
    IndexesCover(datas);
    EntriesAreBag(result, shards, datas);
    BagOfAll(result, shards, n);
    BagIgnoresOrder(result, shards, Indexes(datas), OneTo(n));
    assert shards[..n] == shards;
    ResultsIgnoreOrder(result, Flatten(shards), classes);
    MergeAccepts(datas);
    MergedEntries(datas);
    RecordsAreFinished(whole, result, classes);
    TallyIgnoresOrder(MergeRaw(datas).raw.classes, whole.classes);
  }

  lemma RecordsAreFinished(raw: Raw, result: string -> Entry, classes: seq<string>)
    requires Records(raw, result, classes)
    ensures !raw.truncated && multiset(raw.classes) == multiset(Results(result, classes))
  {}

  lemma MergedEntries(datas: seq<Raw>)
    requires MergeRaw(datas).Merged? && forall d :: d in datas ==> d.shard.Some?
    ensures MergeRaw(datas).raw == Raw(AllEntries(datas), None, false)
  {}
}
