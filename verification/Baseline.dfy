/** The pgjdbc lane's verdict: a run's failures against the committed baseline. */
module Baseline {
  import opened Optional
  import opened Sorting
  import opened ShardPlan
  import opened ShardReport

  const SEPARATOR := "::"

  function Key(cls: string, test: string): string { cls + SEPARATOR + test }

  /** `key.split("::", 1)[0]`: the text before the first separator, or all of it. */
  function ClassOf(key: string): string {
    if key == [] || SEPARATOR <= key then [] else [key[0]] + ClassOf(key[1..])
  }

  /** Keys of one class's failing tests. */
  function Failing(cls: string, failed: seq<string>): multiset<string> {
    if failed == [] then multiset{}
    else Failing(cls, failed[..|failed| - 1]) + multiset{Key(cls, failed[|failed| - 1])}
  }

  function Failures(entries: seq<Entry>): multiset<string> {
    if entries == [] then multiset{}
    else Failures(entries[..|entries| - 1]) + Failing(entries[|entries| - 1].name, entries[|entries| - 1].failedTests)
  }

  function Names(entries: seq<Entry>): set<string> { set e | e in entries :: e.name }

  /** A multiset as the dictionary `Counter` keeps. */
  function Counter(m: multiset<string>): map<string, int> { map k | k in m :: m[k] }

  function Get(counts: map<string, int>, key: string): int { if key in counts then counts[key] else 0 }

  /** Keys failing more often than the baseline allows, with both counts. */
  function Regressions(entries: seq<Entry>, baseline: map<string, int>): map<string, (int, int)> {
    var counts := Failures(entries);
    map k | k in counts && counts[k] > Get(baseline, k) :: (counts[k], Get(baseline, k))
  }

  /** Baseline keys of the classes present that fail less often, with both counts. */
  function Improvements(entries: seq<Entry>, baseline: map<string, int>): map<string, (int, int)> {
    var counts := Failures(entries);
    map k | k in baseline && ClassOf(k) in Names(entries) && counts[k] < baseline[k] :: (counts[k], baseline[k])
  }

  /** Exit code: unreadable baseline, truncated run, regression, green. */
  function LaneCode(baseline: Option<map<string, int>>, raw: Raw): int {
    if baseline.None? then 2
    else if raw.truncated then 124
    else if Regressions(raw.classes, baseline.value) != map[] then 1
    else 0
  }

  // --- the loops ----------------------------------------------------------

  /** `out[key] += 1` on a `Counter`. */
  function Bump(counts: map<string, int>, key: string): map<string, int> { counts[key := Get(counts, key) + 1] }

  lemma BumpCounts(m: multiset<string>, key: string)
    ensures Bump(Counter(m), key) == Counter(m + multiset{key})
  {}

  method FailureCounts(entries: seq<Entry>) returns (counts: map<string, int>)
    ensures counts == Counter(Failures(entries))
  {
    hide Counter, Bump, Key;
    counts := map[];
    EmptyCounter();
    for i := 0 to |entries|
      invariant counts == Counter(Failures(entries[..i]))
    {
      var e := entries[i];
      assert e.failedTests[..0] == [];
      assert Failures(entries[..i]) + Failing(e.name, []) == Failures(entries[..i]);
      for j := 0 to |e.failedTests|
        invariant counts == Counter(Failures(entries[..i]) + Failing(e.name, e.failedTests[..j]))
      {
        var key := Key(e.name, e.failedTests[j]);
        var m := Failures(entries[..i]) + Failing(e.name, e.failedTests[..j]);
        BumpCounts(m, key);
        counts := Bump(counts, key);
        assert e.failedTests[..j + 1][..j] == e.failedTests[..j];
        assert m + multiset{key} == Failures(entries[..i]) + Failing(e.name, e.failedTests[..j + 1]);
      }
      assert e.failedTests[..|e.failedTests|] == e.failedTests;
      assert entries[..i + 1][..i] == entries[..i];
    }
    assert entries[..|entries|] == entries;
  }

  lemma EmptyCounter()
    ensures Counter(multiset{}) == map[]
  {}

  method Compare(raw: Raw, baseline: map<string, int>)
    returns (regressions: map<string, (int, int)>, improvements: map<string, (int, int)>)
    ensures regressions == Regressions(raw.classes, baseline)
    ensures improvements == Improvements(raw.classes, baseline)
    ensures forall k :: k in regressions <==> Worse(raw.classes, baseline, k)
    ensures forall k :: k in regressions ==> regressions[k] == (Failures(raw.classes)[k], Get(baseline, k))
    ensures forall k :: k in improvements <==> Better(raw.classes, baseline, k)
    ensures forall k :: k in improvements ==> improvements[k] == (Failures(raw.classes)[k], baseline[k])
  {
    hide Failures, ClassOf, Names, Regressions, Improvements, Counter, Get;
    var counts := FailureCounts(raw.classes);
    var present := Names(raw.classes);
    regressions, improvements := map[], map[];
    var todo := counts.Keys;
    while todo != {}
      invariant todo <= counts.Keys
      invariant forall k :: k in regressions <==> k in counts && k !in todo && counts[k] > Get(baseline, k)
      invariant forall k :: k in regressions ==> regressions[k] == (counts[k], Get(baseline, k))
    {
      var key :| key in todo;
      var base := Get(baseline, key);
      if counts[key] > base {
        regressions := regressions[key := (counts[key], base)];
      }
      todo := todo - {key};
    }
    RegressionsAre(raw.classes, baseline, counts, regressions);
    todo := baseline.Keys;
    while todo != {}
      invariant todo <= baseline.Keys
      invariant forall k :: k in improvements <==>
        k in baseline && k !in todo && ClassOf(k) in present && Get(counts, k) < baseline[k]
      invariant forall k :: k in improvements ==> improvements[k] == (Get(counts, k), baseline[k])
    {
      var key :| key in todo;
      var n := Get(counts, key);
      if ClassOf(key) in present && n < baseline[key] {
        improvements := improvements[key := (n, baseline[key])];
      }
      todo := todo - {key};
    }
    ImprovementsAre(raw.classes, baseline, counts, improvements);
    ComparisonMeans(raw.classes, baseline);
  }

  /** `k` fails, and more often than the baseline allows. */
  ghost predicate Worse(entries: seq<Entry>, baseline: map<string, int>, k: string) {
    var n := Failures(entries)[k];
    n > 0 && if k in baseline then n > baseline[k] else true
  }

  /** The baseline has `k`, its class has run, and it fails less often than that. */
  ghost predicate Better(entries: seq<Entry>, baseline: map<string, int>, k: string) {
    && k in baseline && Failures(entries)[k] < baseline[k]
    && exists e :: e in entries && e.name == ClassOf(k)
  }

  lemma ComparisonMeans(entries: seq<Entry>, baseline: map<string, int>)
    ensures forall k :: k in Regressions(entries, baseline) <==> Worse(entries, baseline, k)
    ensures forall k :: k in Regressions(entries, baseline) ==>
      Regressions(entries, baseline)[k] == (Failures(entries)[k], Get(baseline, k))
    ensures forall k :: k in Improvements(entries, baseline) <==> Better(entries, baseline, k)
    ensures forall k :: k in Improvements(entries, baseline) ==>
      Improvements(entries, baseline)[k] == (Failures(entries)[k], baseline[k])
  {
    hide Failures, ClassOf;
  }

  lemma RegressionsAre(entries: seq<Entry>, baseline: map<string, int>, counts: map<string, int>,
                       r: map<string, (int, int)>)
    requires counts == Counter(Failures(entries))
    requires forall k :: k in r <==> k in counts && counts[k] > Get(baseline, k)
    requires forall k :: k in r ==> r[k] == (counts[k], Get(baseline, k))
    ensures r == Regressions(entries, baseline)
  {
    hide Failures;
  }

  lemma ImprovementsAre(entries: seq<Entry>, baseline: map<string, int>, counts: map<string, int>,
                        r: map<string, (int, int)>)
    requires counts == Counter(Failures(entries))
    requires forall k :: k in r <==> k in baseline && ClassOf(k) in Names(entries) && Get(counts, k) < baseline[k]
    requires forall k :: k in r ==> r[k] == (Get(counts, k), baseline[k])
    ensures r == Improvements(entries, baseline)
  {
    hide Failures, Names, ClassOf;
  }

  method Verdict(baseline: Option<map<string, int>>, raw: Raw) returns (code: int)
    ensures code == LaneCode(baseline, raw)
    ensures baseline.None? ==> code == 2
    ensures baseline.Some? && raw.truncated ==> code == 124
    ensures baseline.Some? && !raw.truncated ==> code == 0 || code == 1
    ensures code == 0 <==>
      baseline.Some? && !raw.truncated && forall k :: !Worse(raw.classes, baseline.value, k)
    ensures code == 1 <==>
      baseline.Some? && !raw.truncated && exists k :: Worse(raw.classes, baseline.value, k)
  {
    hide Worse, Regressions;
    if baseline.None? {
      return 2;
    }
    if raw.truncated {
      return 124;
    }
    var regressions, _ := Compare(raw, baseline.value);
    code := if regressions != map[] then 1 else 0;
    if regressions != map[] {
      var k :| k in regressions;
      assert Worse(raw.classes, baseline.value, k);
    }
  }

  /** `merged.update(counts)` on a `Counter`: counts add up. */
  method AddCounts(merged: map<string, int>, counts: map<string, int>) returns (r: map<string, int>)
    ensures r.Keys == merged.Keys + counts.Keys
    ensures forall k :: k in r ==> r[k] == Get(merged, k) + Get(counts, k)
  {
    r := merged;
    var todo := counts.Keys;
    while todo != {}
      invariant todo <= counts.Keys
      invariant r.Keys == merged.Keys + (counts.Keys - todo)
      invariant forall k :: k in r ==> r[k] == Get(merged, k) + if k in todo then 0 else Get(counts, k)
    {
      var key :| key in todo;
      r := r[key := Get(r, key) + counts[key]];
      todo := todo - {key};
    }
  }

  /** The new baseline, or nothing when a raw file is truncated. */
  method UpdateBaseline(raws: seq<Raw>) returns (baseline: Option<map<string, int>>)
    ensures baseline.None? <==> exists d :: d in raws && d.truncated
    ensures baseline.Some? ==> baseline.value == Counter(Failures(AllEntries(raws)))
  {
    hide Failures, Counter;
    var merged: map<string, int> := map[];
    EmptyCounter();
    FailuresJoin([], []);
    for i := 0 to |raws|
      invariant merged == Counter(Failures(AllEntries(raws[..i])))
      invariant forall d :: d in raws[..i] ==> !d.truncated
    {
      if raws[i].truncated {
        assert raws[i] in raws;
        return None;
      }
      var counts := FailureCounts(raws[i].classes);
      var sum := AddCounts(merged, counts);
      assert raws[..i + 1][..i] == raws[..i];
      FailuresJoin(AllEntries(raws[..i]), raws[i].classes);
      CountersAdd(Failures(AllEntries(raws[..i])), Failures(raws[i].classes), sum);
      merged := sum;
    }
    assert raws[..|raws|] == raws;
    baseline := Some(merged);
  }

  lemma CountersAdd(a: multiset<string>, b: multiset<string>, sum: map<string, int>)
    requires sum.Keys == Counter(a).Keys + Counter(b).Keys
    requires forall k :: k in sum ==> sum[k] == Get(Counter(a), k) + Get(Counter(b), k)
    ensures sum == Counter(a + b)
  {}

  // --- failures of several runs -------------------------------------------

  lemma {:induction false} FailuresJoin(a: seq<Entry>, b: seq<Entry>)
    ensures Failures(a + b) == Failures(a) + Failures(b)
    ensures Failures([]) == multiset{}
    decreases |b|
  {
    NoFailures();
    if b == [] {
      assert a + b == a;
    } else {
      hide Failures, Failing;
      var short, e := b[..|b| - 1], b[|b| - 1];
      FailuresJoin(a, short);
      FailuresLast(short, e);
      FailuresLast(a + short, e);
      LastApart(a, b);
      SumAssociates(Failures(a), Failures(short), Failing(e.name, e.failedTests));
    }
  }

  lemma LastApart<T>(a: seq<T>, b: seq<T>)
    requires b != []
    ensures b == b[..|b| - 1] + [b[|b| - 1]] && a + b == (a + b[..|b| - 1]) + [b[|b| - 1]]
  {}

  lemma SumAssociates<T>(a: multiset<T>, b: multiset<T>, c: multiset<T>)
    ensures (a + b) + c == a + (b + c)
  {}

  lemma NoFailures()
    ensures Failures([]) == multiset{}
  {}

  lemma FailuresLast(entries: seq<Entry>, e: Entry)
    ensures Failures(entries + [e]) == Failures(entries) + Failing(e.name, e.failedTests)
  {
    hide Failing;
    assert (entries + [e])[..|entries|] == entries;
  }

  /** A class's keys count its failed tests: the key `cls::test` as often as the test. */
  lemma {:induction false} FailingIs(cls: string, failed: seq<string>, k: string)
    ensures Failing(cls, failed)[k] == if cls + "::" <= k then multiset(failed)[k[|cls| + 2..]] else 0
  {
    hide Key;
    if failed != [] {
      var l := |failed| - 1;
      FailingIs(cls, failed[..l], k);
      assert failed == failed[..l] + [failed[l]];
      KeyIs(cls, failed[l], k);
    }
  }

  lemma KeyIs(cls: string, test: string, k: string)
    ensures k == Key(cls, test) <==> cls + "::" <= k && k[|cls| + 2..] == test
  {
    if cls + "::" <= k {
      assert k == cls + "::" + k[|cls| + 2..];
    }
    if k == Key(cls, test) {
      assert k[..|cls| + 2] == cls + "::" && k[|cls| + 2..] == test;
    }
  }

  /** The failures of one class, and of several: they add up. */
  lemma FailuresAre(e: Entry, entries: seq<Entry>, k: string)
    ensures Failures([])[k] == 0
    ensures Failures(entries + [e])[k] ==
      Failures(entries)[k] + if e.name + "::" <= k then multiset(e.failedTests)[k[|e.name| + 2..]] else 0
  {
    hide Failures, Failing;
    NoFailures();
    FailuresLast(entries, e);
    FailingIs(e.name, e.failedTests, k);
  }

  /** `k` has a separator at `i`. */
  ghost predicate Separates(k: string, i: nat) { i + 2 <= |k| && k[i] == ':' && k[i + 1] == ':' }

  /** A key's class ends at the first separator, or is the whole key. */
  lemma {:induction false} ClassOfIs(k: string)
    ensures ClassOf(k) <= k && (ClassOf(k) == k || Separates(k, |ClassOf(k)|))
    ensures forall i :: 0 <= i < |ClassOf(k)| ==> !Separates(k, i)
  {
    assert k != [] ==> (SEPARATOR <= k <==> Separates(k, 0)) by {
      assert |k| >= 2 ==> k[..2] == [k[0], k[1]];
    }
    if k != [] && !(SEPARATOR <= k) {
      ClassOfIs(k[1..]);
      assert forall i :: 1 <= i ==> (Separates(k, i) <==> Separates(k[1..], i - 1));
    }
  }

  lemma {:induction false} FailingHasKey(cls: string, failed: seq<string>, k: string) returns (t: string)
    requires k in Failing(cls, failed)
    ensures k == Key(cls, t)
  {
    var l := |failed| - 1;
    if k in Failing(cls, failed[..l]) {
      t := FailingHasKey(cls, failed[..l], k);
    } else {
      t := failed[l];
    }
  }

  lemma {:induction false} FailureHasClass(entries: seq<Entry>, k: string) returns (cls: string, t: string)
    requires k in Failures(entries)
    ensures cls in Names(entries) && k == Key(cls, t)
  {
    hide Failing, Key;
    var l := |entries| - 1;
    if k in Failures(entries[..l]) {
      cls, t := FailureHasClass(entries[..l], k);
    } else {
      cls := entries[l].name;
      t := FailingHasKey(cls, entries[l].failedTests, k);
    }
  }

  /** Some test of `cls` could carry the key `k`. */
  ghost predicate Owns(cls: string, k: string) { cls + SEPARATOR <= k }

  lemma OwnsIsKey(cls: string, k: string)
    ensures Owns(cls, k) <==> exists t :: k == Key(cls, t)
  {
    if Owns(cls, k) {
      assert k == Key(cls, k[|cls| + 2..]);
    }
  }

  /** A key of one class can be read as a key of the other. */
  ghost predicate Clash(c: string, d: string) {
    c != d && (Owns(c, d + SEPARATOR) || Owns(d, c + SEPARATOR))
  }

  /** Two different classes can produce the same key exactly when they clash. */
  lemma ClashIsSharedKey(c: string, d: string)
    ensures Clash(c, d) <==> c != d && exists k :: Owns(c, k) && Owns(d, k)
  {
    if Clash(c, d) {
      var k := if Owns(c, d + SEPARATOR) then d + SEPARATOR else c + SEPARATOR;
      assert Owns(c, k) && Owns(d, k);
    }
    forall k | Owns(c, k) && Owns(d, k) && c != d
      ensures Clash(c, d)
    {
      var s, t := c + SEPARATOR, d + SEPARATOR;
      if |s| <= |t| {
        assert s == k[..|s|] && t == k[..|t|];
        assert s <= t;
      } else {
        assert s == k[..|s|] && t == k[..|t|];
        assert t <= s;
      }
    }
  }

  /** Class names whose keys split back to them. */
  ghost predicate PlainName(cls: string) {
    cls == [] || (!(SEPARATOR <= cls + ":") && PlainName(cls[1..]))
  }

  /** The comparison recovers a key's class exactly when the name has no "::" and
      does not end in a colon. */
  lemma {:induction false} ClassOfKey(cls: string, t: string)
    ensures ClassOf(Key(cls, t)) == cls <==> PlainName(cls)
  {
    var k := Key(cls, t);
    if cls == [] {
      assert SEPARATOR <= k;
    } else {
      assert k[0] == cls[0] && k[1..] == Key(cls[1..], t);
      assert |cls| >= 2 ==> k[1] == cls[1];
      assert |cls| == 1 ==> k[1] == ':';
      assert SEPARATOR <= k <==> SEPARATOR <= cls + ":";
      ClassOfKey(cls[1..], t);
      assert cls == [cls[0]] + cls[1..];
    }
  }

  ghost predicate NoPair(cls: string) {
    forall i :: 0 <= i < |cls| - 1 ==> !(cls[i] == ':' && cls[i + 1] == ':')
  }

  lemma {:induction false} PlainNameMeans(cls: string)
    ensures PlainName(cls) <==>
      NoPair(cls) && (cls != [] ==> cls[|cls| - 1] != ':')
  {
    if cls != [] {
      var r := cls[1..];
      PlainNameMeans(r);
      assert (cls + ":")[0] == cls[0] && (cls + ":")[1] == if |cls| == 1 then ':' else cls[1];
      assert SEPARATOR <= cls + ":" <==> cls[0] == ':' && (|cls| == 1 || cls[1] == ':');
      assert NoPair(cls) <==> NoPair(r) && (|cls| == 1 || cls[0] != ':' || cls[1] != ':') by {
        assert forall i :: 0 <= i < |r| ==> r[i] == cls[i + 1];
        assert forall i :: 1 <= i < |cls| ==> cls[i] == r[i - 1];
      }
    }
  }

  /** Freedom from "::" is not enough: adding a colon to a name makes a clash. */
  lemma TrailingColonClashes(c: string)
    ensures Clash(c, c + ":")
  {
    assert (c + ":") + SEPARATOR == (c + SEPARATOR) + ":";
    assert Owns(c, (c + ":") + SEPARATOR);
  }

  lemma PlainNamesDoNotClash(c: string, d: string)
    requires PlainName(c) && PlainName(d)
    ensures !Clash(c, d)
  {
    hide PlainName;
    if Clash(c, d) {
      ClashIsSharedKey(c, d);
      var k :| Owns(c, k) && Owns(d, k);
      OwnsIsKey(c, k);
      OwnsIsKey(d, k);
      var t :| k == Key(c, t);
      var u :| k == Key(d, u);
      ClassOfKey(c, t);
      ClassOfKey(d, u);
      assert false;
    }
  }

  lemma {:induction false} ClassOfOwns(k: string, i: nat)
    requires i + 1 < |k| && k[i] == ':' && k[i + 1] == ':'
    ensures Owns(ClassOf(k), k)
    decreases i
  {
    if !(SEPARATOR <= k) {
      ClassOfOwns(k[1..], i - 1);
      assert k == [k[0]] + k[1..];
    }
  }

  lemma {:induction false} OtherRunsLackKey(k: string, datas: seq<Raw>, i: nat, n: nat)
    requires i < |datas| && n <= |datas|
    requires forall j :: 0 <= j < |datas| && j != i ==> k !in Failures(datas[j].classes)
    ensures Failures(AllEntries(datas[..n]))[k] == if i < n then Failures(datas[i].classes)[k] else 0
  {
    hide Failures;
    FailuresJoin([], []);
    if n == 0 {
      assert datas[..0] == [];
    } else {
      OtherRunsLackKey(k, datas, i, n - 1);
      assert datas[..n][..n - 1] == datas[..n - 1];
      FailuresJoin(AllEntries(datas[..n - 1]), datas[n - 1].classes);
    }
  }

  /** No class of one run is, or clashes with, a class of another. */
  ghost predicate Separate(datas: seq<Raw>) {
    forall i, j :: 0 <= i < |datas| && 0 <= j < |datas| && i != j ==>
      SeparateNames(Names(datas[i].classes), Names(datas[j].classes))
  }

  ghost predicate SeparateNames(a: set<string>, b: set<string>) {
    forall c, d :: c in a && d in b ==> c != d && !Clash(c, d)
  }

  /** A key that a class of run `i` owns fails in the merge as often as there. */
  lemma SoleRun(datas: seq<Raw>, i: nat, cls: string, k: string)
    requires Separate(datas) && i < |datas| && cls in Names(datas[i].classes) && Owns(cls, k)
    ensures Failures(AllEntries(datas))[k] == Failures(datas[i].classes)[k]
  {
    hide Failures, Names, Owns, Clash;
    forall j | 0 <= j < |datas| && j != i
      ensures k !in Failures(datas[j].classes)
    {
      assert SeparateNames(Names(datas[i].classes), Names(datas[j].classes));
      if k in Failures(datas[j].classes) {
        var c, t := FailureHasClass(datas[j].classes, k);
        OwnsIsKey(c, k);
        ClashIsSharedKey(cls, c);
      }
    }
    OtherRunsLackKey(k, datas, i, |datas|);
    assert datas[..|datas|] == datas;
  }

  lemma {:induction false} MergeHasFailure(datas: seq<Raw>, k: string) returns (i: nat)
    requires k in Failures(AllEntries(datas))
    ensures i < |datas| && k in Failures(datas[i].classes)
  {
    hide Failures;
    FailuresJoin([], []);
    var l := |datas| - 1;
    FailuresJoin(AllEntries(datas[..l]), datas[l].classes);
    if k in Failures(datas[l].classes) {
      i := l;
    } else {
      i := MergeHasFailure(datas[..l], k);
    }
  }

  lemma {:induction false} MergeHasAtLeast(datas: seq<Raw>, i: nat, k: string)
    requires i < |datas|
    ensures Failures(AllEntries(datas))[k] >= Failures(datas[i].classes)[k]
    decreases |datas|
  {
    hide Failures;
    var l := |datas| - 1;
    FailuresJoin(AllEntries(datas[..l]), datas[l].classes);
    if i < l {
      MergeHasAtLeast(datas[..l], i, k);
    }
  }

  lemma {:induction false} MergedNames(datas: seq<Raw>, c: string)
    ensures c in Names(AllEntries(datas)) <==> exists i :: 0 <= i < |datas| && c in Names(datas[i].classes)
  {
    if datas != [] {
      var l := |datas| - 1;
      MergedNames(datas[..l], c);
      var a, b := AllEntries(datas[..l]), datas[l].classes;
      assert Names(a + b) == Names(a) + Names(b);
      if c in Names(AllEntries(datas)) && c !in Names(b) {
        var i :| 0 <= i < l && c in Names(datas[..l][i].classes);
        assert c in Names(datas[i].classes);
      }
      if i :| 0 <= i < |datas| && c in Names(datas[i].classes) {
        assert i < l ==> c in Names(datas[..l][i].classes);
      }
    }
  }

  // --- the comparison composes --------------------------------------------

  /** `r` holds exactly the entries of the parts. */
  ghost predicate IsUnion(r: map<string, (int, int)>, parts: seq<map<string, (int, int)>>) {
    forall k, v :: Maps(r, k, v) <==> exists i :: 0 <= i < |parts| && Maps(parts[i], k, v)
  }

  predicate Maps(m: map<string, (int, int)>, k: string, v: (int, int)) { k in m && m[k] == v }

  function RegressionsOf(datas: seq<Raw>, baseline: map<string, int>): (r: seq<map<string, (int, int)>>)
    ensures |r| == |datas| && forall i :: 0 <= i < |r| ==> r[i] == Regressions(datas[i].classes, baseline)
  {
    if datas == [] then []
    else RegressionsOf(datas[..|datas| - 1], baseline) + [Regressions(datas[|datas| - 1].classes, baseline)]
  }

  function ImprovementsOf(datas: seq<Raw>, baseline: map<string, int>): (r: seq<map<string, (int, int)>>)
    ensures |r| == |datas| && forall i :: 0 <= i < |r| ==> r[i] == Improvements(datas[i].classes, baseline)
  {
    if datas == [] then []
    else ImprovementsOf(datas[..|datas| - 1], baseline) + [Improvements(datas[|datas| - 1].classes, baseline)]
  }

  /** Runs of separate classes: the merge regresses exactly where a run does. */
  lemma RegressionsCompose(datas: seq<Raw>, baseline: map<string, int>)
    requires Separate(datas)
    ensures IsUnion(Regressions(AllEntries(datas), baseline), RegressionsOf(datas, baseline))
  {
    hide Failures, Names, Owns, RegressionsOf, Separate;
    var merged, parts := Regressions(AllEntries(datas), baseline), RegressionsOf(datas, baseline);
    forall k, v
      ensures Maps(merged, k, v) <==> exists i :: 0 <= i < |parts| && Maps(parts[i], k, v)
    {
      if Maps(merged, k, v) {
        var i := MergeHasFailure(datas, k);
        FailsAlone(datas, i, k);
        assert Maps(parts[i], k, v);
      }
      if i :| 0 <= i < |parts| && Maps(parts[i], k, v) {
        FailsAlone(datas, i, k);
      }
    }
  }

  lemma FailsAlone(datas: seq<Raw>, i: nat, k: string)
    requires Separate(datas) && i < |datas| && k in Failures(datas[i].classes)
    ensures Failures(AllEntries(datas))[k] == Failures(datas[i].classes)[k]
  {
    hide Failures, Names, Owns, Separate;
    var cls, t := FailureHasClass(datas[i].classes, k);
    OwnsIsKey(cls, k);
    SoleRun(datas, i, cls, k);
  }

  lemma UnownedNeverFails(entries: seq<Entry>, k: string)
    requires !Owns(ClassOf(k), k)
    ensures k !in Failures(entries)
  {
    hide Failures, Owns, ClassOf;
    if k in Failures(entries) {
      var cls, t := FailureHasClass(entries, k);
      ClassOfOwns(k, |cls|);
      assert false;
    }
  }

  lemma JudgedAlike(datas: seq<Raw>, i: nat, k: string)
    requires Separate(datas) && i < |datas| && ClassOf(k) in Names(datas[i].classes)
    ensures Failures(AllEntries(datas))[k] == Failures(datas[i].classes)[k]
  {
    hide Failures, Names, Owns, ClassOf, Separate;
    if Owns(ClassOf(k), k) {
      SoleRun(datas, i, ClassOf(k), k);
    } else {
      UnownedNeverFails(AllEntries(datas), k);
      UnownedNeverFails(datas[i].classes, k);
    }
  }

  /** Runs of separate classes: the merge improves exactly where a run does. */
  lemma ImprovementsCompose(datas: seq<Raw>, baseline: map<string, int>)
    requires Separate(datas)
    ensures IsUnion(Improvements(AllEntries(datas), baseline), ImprovementsOf(datas, baseline))
  {
    hide Failures, Names, ClassOf, ImprovementsOf, Separate;
    var merged, parts := Improvements(AllEntries(datas), baseline), ImprovementsOf(datas, baseline);
    forall k, v
      ensures Maps(merged, k, v) <==> exists i :: 0 <= i < |parts| && Maps(parts[i], k, v)
    {
      MergedNames(datas, ClassOf(k));
      if Maps(merged, k, v) {
        var i :| 0 <= i < |datas| && ClassOf(k) in Names(datas[i].classes);
        JudgedAlike(datas, i, k);
        assert Maps(parts[i], k, v);
      }
      if i :| 0 <= i < |parts| && Maps(parts[i], k, v) {
        JudgedAlike(datas, i, k);
      }
    }
  }

  /** A green merge has only green runs, whatever the classes are called. */
  lemma GreenMergeHasGreenRuns(datas: seq<Raw>, baseline: map<string, int>, i: nat)
    requires Regressions(AllEntries(datas), baseline) == map[] && i < |datas|
    ensures Regressions(datas[i].classes, baseline) == map[]
  {
    hide Failures;
    var r := Regressions(datas[i].classes, baseline);
    forall k
      ensures k !in r
    {
      MergeHasAtLeast(datas, i, k);
      assert k !in Regressions(AllEntries(datas), baseline);
    }
  }

  /** Runs of separate classes: the merge is green exactly when every run is. */
  lemma MergeIsGreenIff(datas: seq<Raw>, baseline: Option<map<string, int>>)
    requires Separate(datas) && CompleteSet(datas) && MergeRaw(datas).Merged?
    ensures LaneCode(baseline, MergeRaw(datas).raw) == 0 <==>
            baseline.Some? && forall d :: d in datas ==> LaneCode(baseline, d) == 0
  {
    hide Regressions, Separate, RegressionsOf, MergeRaw, AllEntries;
    MergeAccepts(datas);
    MergedEntries(datas);
    if baseline.Some? {
      var merged, parts := Regressions(AllEntries(datas), baseline.value), RegressionsOf(datas, baseline.value);
      RegressionsCompose(datas, baseline.value);
      UnionIsEmptyIff(merged, parts);
      forall i | 0 <= i < |datas|
        ensures LaneCode(baseline, datas[i]) == 0 <==> parts[i] == map[]
      {
        assert datas[i] in datas;
      }
      if merged == map[] {
        forall d | d in datas
          ensures LaneCode(baseline, d) == 0
        {
          var i :| 0 <= i < |datas| && datas[i] == d;
        }
      } else {
        var i :| 0 <= i < |datas| && parts[i] != map[];
        assert datas[i] in datas;
      }
    }
  }

  lemma UnionIsEmptyIff(r: map<string, (int, int)>, parts: seq<map<string, (int, int)>>)
    requires IsUnion(r, parts)
    ensures r == map[] <==> forall i :: 0 <= i < |parts| ==> parts[i] == map[]
  {
    forall i, k | 0 <= i < |parts| && k in parts[i]
      ensures k in r
    {
      assert Maps(parts[i], k, parts[i][k]);
      assert Maps(r, k, parts[i][k]);
    }
    forall k | k in r
      ensures exists i :: 0 <= i < |parts| && k in parts[i]
    {
      assert Maps(r, k, r[k]);
      var i :| 0 <= i < |parts| && Maps(parts[i], k, r[k]);
      assert k in parts[i];
    }
  }

  // --- exactly for runs of separate classes -------------------------------

  /** Two classes, the same or not, can produce the same key. */
  ghost predicate Share(c: string, d: string) { exists k :: Owns(c, k) && Owns(d, k) }

  lemma SeparateIsNoShare(a: set<string>, b: set<string>)
    ensures SeparateNames(a, b) <==> forall c, d :: c in a && d in b ==> !Share(c, d)
  {
    forall c, d
      ensures Share(c, d) <==> c == d || Clash(c, d)
    {
      ClashIsSharedKey(c, d);
      if c == d {
        assert Owns(c, c + SEPARATOR);
      }
    }
  }

  /** A failing test, or none. */
  datatype Fault = NoFault | Fault(cls: string, test: string)

  function FailedOf(name: string, fault: Fault): seq<string> {
    if fault.Fault? && fault.cls == name then [fault.test] else []
  }

  function KeysOf(fault: Fault): multiset<string> {
    if fault.Fault? then multiset{Key(fault.cls, fault.test)} else multiset{}
  }

  lemma OneEntry(name: string, fault: Fault)
    ensures Failures([Entry(name, 1, 0, 0, FailedOf(name, fault))]) ==
            if fault.Fault? && fault.cls == name then KeysOf(fault) else multiset{}
  {
    var e := Entry(name, 1, 0, 0, FailedOf(name, fault));
    assert [e][..0] == [] && e.failedTests[..0] == [];
    if fault.Fault? && fault.cls == name {
      assert e.failedTests[..|e.failedTests| - 1] == [];
      assert Failing(name, e.failedTests) == multiset{Key(name, fault.test)};
    }
  }

  /** A run of given classes with at most one failing test. */
  lemma {:induction false} RunOf(names: set<string>, fault: Fault) returns (entries: seq<Entry>)
    ensures Names(entries) == names
    ensures Failures(entries) == if fault.Fault? && fault.cls in names then KeysOf(fault) else multiset{}
    decreases names
  {
    hide Failures, KeysOf;
    FailuresJoin([], []);
    if names == {} {
      entries := [];
    } else {
      var name :| name in names;
      var rest := RunOf(names - {name}, fault);
      var e := Entry(name, 1, 0, 0, FailedOf(name, fault));
      entries := rest + [e];
      OneEntry(name, fault);
      FailuresJoin(rest, [e]);
      NamesJoin(rest, e);
    }
  }

  lemma NamesJoin(entries: seq<Entry>, e: Entry)
    ensures Names(entries + [e]) == Names(entries) + {e.name}
  {
    var more := entries + [e];
    assert forall x :: x in more <==> x in entries || x == e;
  }

  /** Shard files for given class sets, each with the fault given for it. */
  ghost predicate AreRunsOf(datas: seq<Raw>, names: seq<set<string>>, faults: seq<Fault>, of: nat) {
    && |datas| == |names| == |faults|
    && forall i :: 0 <= i < |datas| ==> IsRunOf(datas[i], names[i], faults[i], i + 1, of)
  }

  ghost predicate IsRunOf(d: Raw, names: set<string>, fault: Fault, index: int, of: nat) {
    && !d.truncated && d.shard == Some(Shard(index, of)) && Names(d.classes) == names
    && Failures(d.classes) == if fault.Fault? && fault.cls in names then KeysOf(fault) else multiset{}
  }

  lemma {:induction false} RunsOf(names: seq<set<string>>, faults: seq<Fault>, of: nat) returns (datas: seq<Raw>)
    requires |names| == |faults|
    ensures AreRunsOf(datas, names, faults, of)
  {
    hide IsRunOf;
    if names == [] {
      datas := [];
    } else {
      var l := |names| - 1;
      var short := RunsOf(names[..l], faults[..l], of);
      var entries := RunOf(names[l], faults[l]);
      var d := Raw(entries, Some(Shard(l + 1, of)), false);
      RunIs(d, names[l], faults[l], l + 1, of);
      datas := short + [d];
    }
  }

  lemma RunIs(d: Raw, names: set<string>, fault: Fault, index: int, of: nat)
    requires !d.truncated && d.shard == Some(Shard(index, of)) && Names(d.classes) == names
    requires Failures(d.classes) == if fault.Fault? && fault.cls in names then KeysOf(fault) else multiset{}
    ensures IsRunOf(d, names, fault, index, of)
  {}

  lemma RunsAreComplete(datas: seq<Raw>, names: seq<set<string>>, faults: seq<Fault>)
    requires AreRunsOf(datas, names, faults, |names|) && names != []
    ensures CompleteSet(datas) && MergeRaw(datas).Merged?
    ensures |datas| == |names| && forall i :: 0 <= i < |datas| ==> Names(datas[i].classes) == names[i]
  {
    hide MergeRaw, Failures, Names, KeysOf;
    forall i | 1 <= i <= |datas|
      ensures HasIndex(datas, i)
    {
      assert IsRunOf(datas[i - 1], names[i - 1], faults[i - 1], i, |names|);
      assert datas[i - 1] in datas;
    }
    forall d | d in datas
      ensures d.shard.Some? && d.shard.value.of == |datas| && !d.truncated
    {
      var i :| 0 <= i < |datas| && datas[i] == d;
      assert IsRunOf(datas[i], names[i], faults[i], i + 1, |names|);
    }
    MergeAccepts(datas);
  }

  lemma {:induction false} MergeHasBoth(datas: seq<Raw>, i: nat, j: nat, k: string)
    requires i < j < |datas|
    ensures Failures(AllEntries(datas))[k] >= Failures(datas[i].classes)[k] + Failures(datas[j].classes)[k]
    decreases |datas|
  {
    hide Failures;
    var l := |datas| - 1;
    FailuresJoin(AllEntries(datas[..l]), datas[l].classes);
    if j < l {
      MergeHasBoth(datas[..l], i, j, k);
    } else {
      MergeHasAtLeast(datas[..l], i, k);
    }
  }

  /** Merging runs of these classes never changes the verdict. */
  ghost predicate Composes(names: seq<set<string>>) {
    forall datas: seq<Raw>, baseline: map<string, int> ::
      HasNames(datas, names) && CompleteSet(datas) && MergeRaw(datas).Merged? ==> SameVerdict(datas, baseline)
  }

  ghost predicate HasNames(datas: seq<Raw>, names: seq<set<string>>) {
    |datas| == |names| && forall i :: 0 <= i < |datas| ==> Names(datas[i].classes) == names[i]
  }

  /** The merge is green exactly when every run is. */
  ghost predicate SameVerdict(datas: seq<Raw>, baseline: map<string, int>)
    requires MergeRaw(datas).Merged?
  {
    LaneCode(Some(baseline), MergeRaw(datas).raw) == 0 <==> forall d :: d in datas ==> LaneCode(Some(baseline), d) == 0
  }

  ghost predicate PairwiseSeparate(names: seq<set<string>>) {
    forall i, j :: 0 <= i < |names| && 0 <= j < |names| && i != j ==> SeparateNames(names[i], names[j])
  }

  function FaultFor(m: nat, i: nat, f: Fault, j: nat, g: Fault): Fault {
    if m == i then f else if m == j then g else NoFault
  }

  /** One fault in run `i` and one in run `j`. */
  function TwoFaults(n: nat, i: nat, f: Fault, j: nat, g: Fault): (r: seq<Fault>)
    ensures |r| == n && forall m :: 0 <= m < n ==> r[m] == FaultFor(m, i, f, j, g)
  {
    if n == 0 then [] else TwoFaults(n - 1, i, f, j, g) + [FaultFor(n - 1, i, f, j, g)]
  }

  lemma FaultsAreGreen(datas: seq<Raw>, names: seq<set<string>>, faults: seq<Fault>, k: string)
    requires AreRunsOf(datas, names, faults, |names|)
    requires forall m :: 0 <= m < |faults| && faults[m].Fault? ==> Key(faults[m].cls, faults[m].test) == k
    ensures forall d :: d in datas ==> LaneCode(Some(map[k := 1]), d) == 0
  {
    hide Failures, LaneCode, Names, Key;
    forall d | d in datas
      ensures LaneCode(Some(map[k := 1]), d) == 0
    {
      var m :| 0 <= m < |datas| && datas[m] == d;
      assert IsRunOf(datas[m], names[m], faults[m], m + 1, |names|);
      FewFailuresAreGreen(d, k);
    }
  }

  lemma FaultsAreRed(datas: seq<Raw>, names: seq<set<string>>, faults: seq<Fault>, i: nat, j: nat, k: string)
    requires AreRunsOf(datas, names, faults, |names|) && i < j < |names|
    requires faults[i].Fault? && faults[i].cls in names[i] && Key(faults[i].cls, faults[i].test) == k
    requires faults[j].Fault? && faults[j].cls in names[j] && Key(faults[j].cls, faults[j].test) == k
    requires CompleteSet(datas) && MergeRaw(datas).Merged?
    ensures LaneCode(Some(map[k := 1]), MergeRaw(datas).raw) == 1
  {
    hide Failures, LaneCode, Names, Key, MergeRaw, CompleteSet;
    assert IsRunOf(datas[i], names[i], faults[i], i + 1, |names|);
    assert IsRunOf(datas[j], names[j], faults[j], j + 1, |names|);
    MergedEntriesOf(datas);
    MergeHasBoth(datas, i, j, k);
    RedMerge(datas, k);
  }

  /** Classes of two runs that share a key: each fails it once, the baseline allows it
      once, so every run is green and the merge is red. */
  lemma SharedKeyBreaks(names: seq<set<string>>, i: nat, j: nat, c: string, d: string)
    requires i < j < |names| && c in names[i] && d in names[j] && Share(c, d)
    ensures !Composes(names)
  {
    hide Failures, MergeRaw, Names, CompleteSet, Owns, Key, LaneCode, AreRunsOf, TwoFaults;
    var k :| Owns(c, k) && Owns(d, k);
    OwnsIsKey(c, k);
    OwnsIsKey(d, k);
    var t :| k == Key(c, t);
    var u :| k == Key(d, u);
    var faults := TwoFaults(|names|, i, Fault(c, t), j, Fault(d, u));
    var datas := RunsOf(names, faults, |names|);
    RunsAreComplete(datas, names, faults);
    assert faults[i] == Fault(c, t) && faults[j] == Fault(d, u);
    FaultsAreGreen(datas, names, faults, k);
    FaultsAreRed(datas, names, faults, i, j, k);
    assert HasNames(datas, names) && !SameVerdict(datas, map[k := 1]);
  }

  lemma MergedEntriesOf(datas: seq<Raw>)
    requires CompleteSet(datas) && MergeRaw(datas).Merged?
    ensures MergeRaw(datas).raw == Raw(AllEntries(datas), None, false)
  {
    hide MergeRaw;
    MergedEntries(datas);
  }

  lemma FewFailuresAreGreen(e: Raw, k: string)
    requires !e.truncated && (Failures(e.classes) == multiset{k} || Failures(e.classes) == multiset{})
    ensures LaneCode(Some(map[k := 1]), e) == 0
  {
    hide Failures;
    assert Regressions(e.classes, map[k := 1]) == map[];
  }

  lemma RedMerge(datas: seq<Raw>, k: string)
    requires MergeRaw(datas).Merged? && MergeRaw(datas).raw == Raw(AllEntries(datas), None, false)
    requires Failures(AllEntries(datas))[k] >= 2
    ensures LaneCode(Some(map[k := 1]), MergeRaw(datas).raw) == 1
  {
    hide Failures, MergeRaw, AllEntries;
    assert k in Regressions(AllEntries(datas), map[k := 1]);
  }

  /** For runs of given classes, merging never changes the verdict, whatever fails and
      whatever the baseline, if and only if no class of one run is or clashes with a
      class of another. */
  lemma ComposesIffSeparate(names: seq<set<string>>)
    ensures Composes(names) <==> PairwiseSeparate(names)
  {
    hide SeparateNames, Share, MergeRaw, CompleteSet, LaneCode;
    if PairwiseSeparate(names) {
      forall datas: seq<Raw>, baseline: map<string, int> |
        HasNames(datas, names) && CompleteSet(datas) && MergeRaw(datas).Merged?
        ensures SameVerdict(datas, baseline)
      {
        assert Separate(datas);
        MergeIsGreenIff(datas, Some(baseline));
      }
    } else {
      var i, j :| 0 <= i < |names| && 0 <= j < |names| && i != j && !SeparateNames(names[i], names[j]);
      SeparateIsNoShare(names[i], names[j]);
      var c, d :| c in names[i] && d in names[j] && Share(c, d);
      ShareBothWays(c, d);
      if i < j {
        SharedKeyBreaks(names, i, j, c, d);
      } else {
        SharedKeyBreaks(names, j, i, d, c);
      }
    }
  }

  lemma ShareBothWays(c: string, d: string)
    ensures Share(c, d) <==> Share(d, c)
  {}

  // --- right after an update ----------------------------------------------

  /** A baseline baked from a set of runs finds nothing in their merge, and in
      separate runs nothing in any one of them either. */
  lemma UpdateIsClean(datas: seq<Raw>)
    ensures var baseline := Counter(Failures(AllEntries(datas)));
      && Regressions(AllEntries(datas), baseline) == map[]
      && Improvements(AllEntries(datas), baseline) == map[]
      && (forall d :: d in datas ==> Regressions(d.classes, baseline) == map[])
      && (Separate(datas) ==> forall d :: d in datas ==> Improvements(d.classes, baseline) == map[])
  {
    hide Failures, Separate, Names, ClassOf;
    var baseline := Counter(Failures(AllEntries(datas)));
    forall i | 0 <= i < |datas|
      ensures Regressions(datas[i].classes, baseline) == map[]
    {
      GreenMergeHasGreenRuns(datas, baseline, i);
    }
    if Separate(datas) {
      forall i | 0 <= i < |datas|
        ensures Improvements(datas[i].classes, baseline) == map[]
      {
        var r := Improvements(datas[i].classes, baseline);
        forall k | k in r
          ensures false
        {
          JudgedAlike(datas, i, k);
        }
      }
    }
  }

  // --- the sharded lane judges what the whole run would be judged ---------

  lemma {:induction false} FailuresMove(entries: seq<Entry>, k: nat)
    requires k < |entries|
    ensures Failures(entries) == Failures(entries[..k] + entries[k + 1..]) + Failures([entries[k]])
  {
    hide Failures;
    assert entries == entries[..k] + [entries[k]] + entries[k + 1..];
    FailuresJoin(entries[..k], [entries[k]]);
    FailuresJoin(entries[..k] + [entries[k]], entries[k + 1..]);
    FailuresJoin(entries[..k], entries[k + 1..]);
    Swap(Failures(entries[..k]), Failures([entries[k]]), Failures(entries[k + 1..]));
  }

  lemma {:induction false} FailuresIgnoreOrder(xs: seq<Entry>, ys: seq<Entry>)
    requires multiset(xs) == multiset(ys)
    ensures Failures(xs) == Failures(ys)
  {
    hide Failures;
    if xs == [] {
      EmptyMatch(ys);
    } else {
      var l := |xs| - 1;
      var k := MatchLast(xs, ys);
      FailuresMove(ys, k);
      FailuresIgnoreOrder(xs[..l], ys[..k] + ys[k + 1..]);
      FailuresJoin(xs[..l], [xs[l]]);
      assert xs == xs[..l] + [xs[l]];
    }
  }

  lemma {:induction false} ResultsComeFrom(result: string -> Entry, classes: seq<string>, e: Entry)
    requires e in Results(result, classes)
    ensures exists c :: c in classes && e == result(c)
  {
    var l := |classes| - 1;
    if e in Results(result, classes[..l]) {
      ResultsComeFrom(result, classes[..l], e);
    } else {
      assert classes[l] in classes;
    }
  }

  lemma RecordedNames(raw: Raw, result: string -> Entry, classes: seq<string>, c: string)
    requires Records(raw, result, classes) && (forall x :: result(x).name == x) && c in Names(raw.classes)
    ensures c in classes
  {
    hide Results;
    var e :| e in raw.classes && e.name == c;
    assert e in multiset(raw.classes);
    assert e in Results(result, classes);
    ResultsComeFrom(result, classes, e);
  }

  lemma {:induction false} FlattenCounts(shards: seq<seq<string>>, i: nat, x: string)
    requires i < |shards| && x in shards[i]
    ensures x in Flatten(shards)
    decreases |shards|
  {
    if i < |shards| - 1 {
      FlattenCounts(shards[..|shards| - 1], i, x);
    }
  }

  lemma {:induction false} FlattenCountsTwice(shards: seq<seq<string>>, i: nat, j: nat, x: string)
    requires i < j < |shards| && x in shards[i] && x in shards[j]
    ensures multiset(Flatten(shards))[x] >= 2
    decreases |shards|
  {
    var l := |shards| - 1;
    if j < l {
      FlattenCountsTwice(shards[..l], i, j, x);
    } else {
      FlattenCounts(shards[..l], i, x);
      assert x in multiset(Flatten(shards[..l])) && x in multiset(shards[l]);
    }
  }

  ghost predicate ListedOnce(classes: seq<string>) { forall c :: c in multiset(classes) ==> multiset(classes)[c] == 1 }

  lemma ShardsAreDisjoint(classes: seq<string>, n: nat, x: int, y: int, c: string)
    requires n >= 1 && ListedOnce(classes)
    requires c in ShardAt(Shards(classes, n), x) && c in ShardAt(Shards(classes, n), y)
    ensures x == y
  {
    hide Shards, Flatten;
    ShardsArePartition(classes, n);
    var shards := Shards(classes, n);
    if x != y {
      FlattenCountsTwice(shards, if x < y then x - 1 else y - 1, if x < y then y - 1 else x - 1, c);
    }
  }

  lemma ShardIsPart(classes: seq<string>, n: nat, x: int, c: string)
    requires n >= 1 && c in ShardAt(Shards(classes, n), x)
    ensures c in classes
  {
    hide Shards, Flatten;
    ShardsArePartition(classes, n);
    FlattenCounts(Shards(classes, n), x - 1, c);
    assert c in multiset(Flatten(Shards(classes, n)));
    assert c in multiset(classes);
  }

  lemma CountedTwice(xs: seq<int>, i: nat, j: nat)
    requires i < |xs| && j < |xs| && i != j && xs[i] == xs[j]
    ensures multiset(xs)[xs[i]] >= 2
  {
    RemoveAt(xs, i);
    var rest := xs[..i] + xs[i + 1..];
    assert rest[if j < i then j else j - 1] == xs[i];
    assert xs[i] in multiset(rest);
  }

  lemma IndexesDiffer(datas: seq<Raw>, i: nat, j: nat)
    requires CompleteSet(datas) && i < |datas| && j < |datas| && i != j
    ensures datas[i].shard.value.index != datas[j].shard.value.index
  {
    hide OneTo, Indexes;
    IndexesCover(datas);
    var xs := Indexes(datas);
    OneToOnce(|datas|, xs[i]);
    if xs[i] == xs[j] {
      CountedTwice(xs, i, j);
    }
  }

  lemma {:induction false} OneToOnce(n: nat, v: int)
    ensures multiset(OneTo(n))[v] <= 1
  {
    if n > 0 {
      OneToStep(n);
      OneToOnce(n - 1, v);
      if v == n {
        assert v !in OneTo(n - 1);
      }
    }
  }

  /** No two of the classes clash. */
  ghost predicate ClashFree(classes: seq<string>) {
    forall c, d :: c in classes && d in classes ==> !Clash(c, d)
  }

  lemma JobFilesAreSeparate(result: string -> Entry, classes: seq<string>, listed: seq<seq<string>>, datas: seq<Raw>)
    requires CompleteSet(datas) && |listed| == |datas|
    requires forall k :: 0 <= k < |listed| ==> multiset(listed[k]) == multiset(classes)
    requires forall d :: d in datas ==> IsJobFile(d, result, listed)
    requires ListedOnce(classes) && ClashFree(classes) && forall c :: result(c).name == c
    ensures Separate(datas)
  {
    hide SeparateNames, IsJobFile, Names, ListedOnce, CompleteSet, ClashFree;
    var n := |datas|;
    forall i, j | 0 <= i < n && 0 <= j < n && i != j
      ensures SeparateNames(Names(datas[i].classes), Names(datas[j].classes))
    {
      JobsAreSeparate(result, classes, listed, datas, i, j);
    }
  }

  lemma JobsAreSeparate(result: string -> Entry, classes: seq<string>, listed: seq<seq<string>>, datas: seq<Raw>,
                        i: nat, j: nat)
    requires CompleteSet(datas) && |listed| == |datas|
    requires forall k :: 0 <= k < |listed| ==> multiset(listed[k]) == multiset(classes)
    requires forall d :: d in datas ==> IsJobFile(d, result, listed)
    requires ListedOnce(classes) && ClashFree(classes) && forall c :: result(c).name == c
    requires i < |datas| && j < |datas| && i != j
    ensures SeparateNames(Names(datas[i].classes), Names(datas[j].classes))
  {
    hide Shards, Results, Records, IsJobFile, Names, ShardAt, Clash, ListedOnce, CompleteSet;
    var n := |datas|;
    forall c, d | c in Names(datas[i].classes) && d in Names(datas[j].classes)
      ensures c != d && !Clash(c, d)
    {
      assert datas[i] in datas && datas[j] in datas;
      JobFileOf(datas[i], result, listed, classes);
      JobFileOf(datas[j], result, listed, classes);
      var x, y := datas[i].shard.value.index, datas[j].shard.value.index;
      IndexesDiffer(datas, i, j);
      RecordedNames(datas[i], result, ShardAt(Shards(classes, n), x), c);
      RecordedNames(datas[j], result, ShardAt(Shards(classes, n), y), d);
      ShardIsPart(classes, n, x, c);
      ShardIsPart(classes, n, y, d);
      if c == d {
        ShardsAreDisjoint(classes, n, x, y, c);
      }
    }
  }

  /** Sharding does not change the verdict: the jobs of a sharded lane are all
      green exactly when one unsharded run of the same classes would be. */
  lemma ShardedVerdict(result: string -> Entry, classes: seq<string>, listed: seq<seq<string>>,
                       datas: seq<Raw>, whole: Raw, baseline: Option<map<string, int>>)
    requires CompleteSet(datas) && |listed| == |datas|
    requires forall k :: 0 <= k < |listed| ==> multiset(listed[k]) == multiset(classes)
    requires forall d :: d in datas ==> IsJobFile(d, result, listed)
    requires Records(whole, result, classes)
    requires ListedOnce(classes) && ClashFree(classes) && forall c :: result(c).name == c
    ensures LaneCode(baseline, whole) == 0 <==>
            baseline.Some? && forall d :: d in datas ==> LaneCode(baseline, d) == 0
  {
    hide Shards, Results, Records, IsJobFile, Names, ShardAt, Clash, ListedOnce, CompleteSet, MergeRaw, ClashFree,
      Failures, TallyOf, Separate;
    ShardThenMergeConserves(result, classes, listed, datas, whole);
    JobFilesAreSeparate(result, classes, listed, datas);
    MergeIsGreenIff(datas, baseline);
    FailuresIgnoreOrder(MergeRaw(datas).raw.classes, whole.classes);
    RecordsAreFinished(whole, result, classes);
    MergedIsFinished(datas);
  }

  /** The same, in a form that can be checked name by name: every class name has no
      "::" and does not end in a colon. */
  lemma PlainShardedVerdict(result: string -> Entry, classes: seq<string>, listed: seq<seq<string>>,
                            datas: seq<Raw>, whole: Raw, baseline: Option<map<string, int>>)
    requires CompleteSet(datas) && |listed| == |datas|
    requires forall k :: 0 <= k < |listed| ==> multiset(listed[k]) == multiset(classes)
    requires forall d :: d in datas ==> IsJobFile(d, result, listed)
    requires Records(whole, result, classes)
    requires ListedOnce(classes) && (forall c :: c in classes ==> PlainName(c)) && forall c :: result(c).name == c
    ensures LaneCode(baseline, whole) == 0 <==>
            baseline.Some? && forall d :: d in datas ==> LaneCode(baseline, d) == 0
  {
    hide IsJobFile, Records, CompleteSet, ListedOnce, LaneCode, Clash, PlainName;
    forall c, d | c in classes && d in classes
      ensures !Clash(c, d)
    {
      PlainNamesDoNotClash(c, d);
    }
    ShardedVerdict(result, classes, listed, datas, whole, baseline);
  }

  lemma MergedIsFinished(datas: seq<Raw>)
    requires MergeRaw(datas).Merged? && CompleteSet(datas)
    ensures !MergeRaw(datas).raw.truncated
  {
    hide MergeRaw;
    MergedEntries(datas);
  }
}
