/** Interleaved benchmark passes: every pass runs each server once, in an order
    that rotates. */
module Interleaving {
  import opened Optional
  import opened Extremes
  import opened Collections

  /** The servers in the order of pass `rep`. */
  function Order(names: seq<string>, rep: nat): (r: seq<string>)
    requires names != []
    ensures |r| == |names|
  {
    var shift := rep % |names|;
    names[shift..] + names[..shift]
  }

  // --- a Latin square -----------------------------------------------------

  lemma OrderIsPermutation(names: seq<string>, rep: nat)
    requires names != []
    ensures multiset(Order(names, rep)) == multiset(names)
  {
    var shift := rep % |names|;
    assert names == names[..shift] + names[shift..];
  }

  lemma SmallMultiple(d: int, k: int)
    requires k > 0
    ensures -k < d * k < k ==> d == 0
  {
    if d > 0 {
      assert d * k >= k;
    } else if d < 0 {
      assert d * k <= -k;
    }
  }

  lemma ModIs(x: int, q: int, r: int, k: int)
    requires k > 0 && x == q * k + r && 0 <= r < k
    ensures x % k == r
  {
    var d := x / k - q;
    assert d * k == r - x % k;
    SmallMultiple(d, k);
  }

  lemma AtPosition(names: seq<string>, rep: nat, p: nat)
    requires p < |names|
    ensures Order(names, rep)[p] == names[(p + rep) % |names|]
  {
    var k := |names|;
    var shift := rep % k;
    if shift + p < k {
      ModIs(p + rep, rep / k, shift + p, k);
    } else {
      assert (rep / k + 1) * k == rep / k * k + k;
      ModIs(p + rep, rep / k + 1, shift + p - k, k);
    }
  }

  /** Residues modulo `k` do not repeat within `k` consecutive numbers. */
  lemma SameResidue(x: int, y: int, k: int)
    requires k > 0 && x % k == y % k && x <= y < x + k
    ensures x == y
  {
    var d := y / k - x / k;
    assert d * k == y - x;
    SmallMultiple(d, k);
  }

  /** The pass among the `k` from `first` on in which position `p` has residue `j`. */
  lemma PassFor(first: nat, p: nat, j: nat, k: nat) returns (rep: nat)
    requires j < k
    ensures first <= rep < first + k && (p + rep) % k == j
  {
    var t := (p + first) % k;
    var step := if j >= t then j - t else j - t + k;
    rep := first + step;
    var q := (p + first) / k;
    if j >= t {
      ModIs(p + rep, q, j, k);
    } else {
      assert (q + 1) * k == q * k + k;
      ModIs(p + rep, q + 1, j, k);
    }
  }

  /** In any `k` consecutive passes over `k` servers, each server takes each
      position exactly once. */
  lemma LatinSquare(names: seq<string>, first: nat, j: nat, p: nat) returns (rep: nat)
    requires Distinct(names) && j < |names| && p < |names|
    ensures first <= rep < first + |names| && Order(names, rep)[p] == names[j]
    ensures forall other :: first <= other < first + |names| && Order(names, other)[p] == names[j] ==> other == rep
  {
    hide Order;
    var k := |names|;
    rep := PassFor(first, p, j, k);
    AtPosition(names, rep, p);
    forall other | first <= other < first + k && Order(names, other)[p] == names[j]
      ensures other == rep
    {
      AtPosition(names, other, p);
      assert (p + other) % k == j;
      if other <= rep {
        SameResidue(p + other, p + rep, k);
      } else {
        SameResidue(p + rep, p + other, k);
      }
    }
  }

  // --- samples ------------------------------------------------------------

  /** The workloads of a pass, in the order they are timed. */
  const WORKLOADS: seq<string> := [
    "insert", "find_indexed_range", "find_all", "find_filtered_scan", "update_many_half", "aggregate_group",
    "aggregate_multistage", "delete_many_half", "change_stream_drain"
  ]

  /** A timing, or nothing for one that is not a number. */
  type Sample = Option<real>

  /** What a server's workload takes in a pass. */
  type Clock = (string, nat, string) -> Sample

  type Timings = map<string, seq<Sample>>

  function Of(t: Timings, key: string): seq<Sample> { if key in t then t[key] else [] }

  /** Times every workload once: no branch leaves one out. */
  method RunWorkloads(clock: Clock, name: string, rep: nat) returns (t: map<string, Sample>)
    ensures forall key :: key in t <==> key in WORKLOADS
    ensures forall key :: key in t ==> t[key] == clock(name, rep, key)
  {
    t := map[];
    for i := 0 to |WORKLOADS|
      invariant forall key :: key in t <==> key in WORKLOADS[..i]
      invariant forall key :: key in t ==> t[key] == clock(name, rep, key)
    {
      assert WORKLOADS[..i + 1] == WORKLOADS[..i] + [WORKLOADS[i]];
      t := t[WORKLOADS[i] := clock(name, rep, WORKLOADS[i])];
    }
  }

  /** A server's timings of one workload: the first `n` passes in order. */
  function Sampled(clock: Clock, name: string, key: string, n: nat): (r: seq<Sample>)
    ensures |r| == n && forall i :: 0 <= i < n ==> r[i] == clock(name, i, key)
  {
    if n == 0 then [] else Sampled(clock, name, key, n - 1) + [clock(name, n - 1, key)]
  }

  /** `samples[name].setdefault(k, []).append(v)` for each timing of a pass. */
  method Append(t: Timings, measured: map<string, Sample>) returns (r: Timings)
    ensures forall key :: Of(r, key) == Of(t, key) + if key in measured then [measured[key]] else []
  {
    r := t;
    var todo := measured.Keys;
    while todo != {}
      invariant todo <= measured.Keys
      invariant forall key :: Of(r, key) == Of(t, key) + if key in measured && key !in todo then [measured[key]] else []
    {
      var key :| key in todo;
      r := r[key := Of(r, key) + [measured[key]]];
      todo := todo - {key};
    }
  }

  /** What `samples` holds for `name`: for each workload, sample `i` is pass `i`, for
      the first `n` passes, and nothing else. */
  ghost predicate Holds(samples: map<string, Timings>, clock: Clock, name: string, n: nat) {
    && name in samples
    && (forall key :: key in WORKLOADS ==> Of(samples[name], key) == Sampled(clock, name, key, n))
    && (forall key :: key !in WORKLOADS ==> Of(samples[name], key) == [])
  }

  lemma HoldsMore(samples: map<string, Timings>, clock: Clock, name: string, n: nat, t: Timings)
    requires Holds(samples, clock, name, n)
    requires forall key ::
      Of(t, key) == Of(samples[name], key) + if key in WORKLOADS then [clock(name, n, key)] else []
    ensures Holds(samples[name := t], clock, name, n + 1)
  {
    hide Of;
  }

  lemma HoldsOther(samples: map<string, Timings>, clock: Clock, name: string, n: nat, other: string, t: Timings)
    requires other != name
    ensures Holds(samples[other := t], clock, name, n) <==> Holds(samples, clock, name, n)
  {}

  lemma HoldsNone(samples: map<string, Timings>, clock: Clock, name: string)
    ensures Holds(samples[name := map[]], clock, name, 0)
  {}

  lemma {:induction false} OrderIsDistinct(names: seq<string>, rep: nat)
    requires names != [] && Distinct(names)
    ensures Distinct(Order(names, rep)) && forall x :: x in Order(names, rep) <==> x in names
  {
    OrderIsPermutation(names, rep);
    forall x
      ensures x in Order(names, rep) <==> x in names
    {
      assert x in multiset(Order(names, rep)) <==> x in multiset(names);
    }
  }

  lemma DistinctAt(names: seq<string>, i: nat, j: nat)
    requires Distinct(names) && i < j < |names|
    ensures names[i] != names[j]
  {}

  /** One pass; `ran` is the servers in the order they were run. */
  method RunPass(order: seq<string>, rep: nat, before: map<string, Timings>, clock: Clock)
    returns (samples: map<string, Timings>, ran: seq<string>)
    requires Distinct(order) && forall name :: name in order ==> Holds(before, clock, name, rep)
    ensures ran == order && forall name :: name in order ==> Holds(samples, clock, name, rep + 1)
  {
    hide Distinct, Of;
    samples, ran := before, [];
    for i := 0 to |order|
      invariant ran == order[..i]
      invariant forall k :: 0 <= k < i ==> Holds(samples, clock, order[k], rep + 1)
      invariant forall k :: i <= k < |order| ==> Holds(samples, clock, order[k], rep)
    {
      var name := order[i];
      ran := ran + [name];
      var measured := RunWorkloads(clock, name, rep);
      var t := Append(samples[name], measured);
      HoldsMore(samples, clock, name, rep, t);
      forall k | 0 <= k < |order| && k != i
        ensures Holds(samples[name := t], clock, order[k], if k < i then rep + 1 else rep)
      {
        DistinctAt(order, if k < i then k else i, if k < i then i else k);
        HoldsOther(samples, clock, order[k], if k < i then rep + 1 else rep, name, t);
      }
      samples := samples[name := t];
    }
  }

  /** The passes in turn, each server appending to its own lists: every workload's
      list has one sample for each pass, and sample `i` of every server is what it
      measured in pass `i`. `passes[i]` is the servers as pass `i` ran them, each pass
      starting one server further on. */
  method InterleavedRuns(names: seq<string>, reps: nat, clock: Clock)
    returns (samples: map<string, Timings>, passes: seq<seq<string>>)
    requires Distinct(names) && (names != [] || reps == 0)
    ensures forall name :: name in names ==> Holds(samples, clock, name, reps)
    ensures |passes| == reps && forall i :: 0 <= i < reps ==> |passes[i]| == |names|
    ensures forall i, p :: 0 <= i < reps && 0 <= p < |names| ==> passes[i][p] == names[(p + i) % |names|]
  {
    hide Order, Holds, Distinct;
    samples, passes := map[], [];
    for i := 0 to |names|
      invariant forall k :: 0 <= k < i ==> Holds(samples, clock, names[k], 0)
    {
      forall k | 0 <= k < i
        ensures Holds(samples[names[i] := map[]], clock, names[k], 0)
      {
        DistinctAt(names, k, i);
        HoldsOther(samples, clock, names[k], 0, names[i], map[]);
      }
      HoldsNone(samples, clock, names[i]);
      samples := samples[names[i] := map[]];
    }
    for rep := 0 to reps
      invariant forall name :: name in names ==> Holds(samples, clock, name, rep)
      invariant |passes| == rep && forall i :: 0 <= i < rep ==> |passes[i]| == |names|
      invariant forall i, p :: 0 <= i < rep && 0 <= p < |names| ==> passes[i][p] == names[(p + i) % |names|]
    {
      var order := Order(names, rep);
      OrderIsDistinct(names, rep);
      var ran;
      samples, ran := RunPass(order, rep, samples, clock);
      passes := passes + [ran];
      forall p | 0 <= p < |names|
        ensures ran[p] == names[(p + rep) % |names|]
      {
        AtPosition(names, rep, p);
      }
    }
  }

  /** Two servers' lists of a workload pair up by pass. */
  lemma SamplesPairByPass(samples: map<string, Timings>, clock: Clock, a: string, b: string, key: string, n: nat,
                          i: nat)
    requires Holds(samples, clock, a, n) && Holds(samples, clock, b, n) && key in WORKLOADS && i < n
    ensures |Of(samples[a], key)| == n == |Of(samples[b], key)|
    ensures Of(samples[a], key)[i] == clock(a, i, key) && Of(samples[b], key)[i] == clock(b, i, key)
  {
    hide Of;
  }

  // --- ratios -------------------------------------------------------------

  /** A pair that gives a ratio: both are numbers, and the divisor is not zero. */
  predicate Usable(a: Sample, b: Sample) { a.Some? && b.Some? && b.value != 0.0 }

  /** The ratios of the usable pairs, position by position. */
  function Ratios(numer: seq<Sample>, denom: seq<Sample>): seq<real> {
    if numer == [] || denom == [] then []
    else
      (if Usable(numer[0], denom[0]) then [numer[0].value / denom[0].value] else []) + Ratios(numer[1..], denom[1..])
  }

  /** `paired_ratio_range`. */
  function PairedRange(numer: seq<Sample>, denom: seq<Sample>): Option<(real, real)> {
    var ratios := Ratios(numer, denom);
    if ratios == [] then None else Some((Least(ratios), Greatest(ratios)))
  }

  /** `x` is the ratio of the pair at `i`. */
  ghost predicate RatioAt(numer: seq<Sample>, denom: seq<Sample>, i: nat, x: real) {
    i < |numer| && i < |denom| && Usable(numer[i], denom[i]) && x == numer[i].value / denom[i].value
  }

  lemma {:induction false} RatiosAre(numer: seq<Sample>, denom: seq<Sample>, x: real)
    ensures x in Ratios(numer, denom) <==> exists i: nat :: RatioAt(numer, denom, i, x)
  {
    if numer != [] && denom != [] {
      RatiosAre(numer[1..], denom[1..], x);
      if x in Ratios(numer[1..], denom[1..]) {
        var i: nat :| RatioAt(numer[1..], denom[1..], i, x);
        assert RatioAt(numer, denom, i + 1, x);
      } else if x in Ratios(numer, denom) {
        assert RatioAt(numer, denom, 0, x);
      }
      if i: nat :| RatioAt(numer, denom, i, x) {
        if i > 0 {
          assert RatioAt(numer[1..], denom[1..], i - 1, x);
        }
      }
    }
  }

  /** `x` is the ratio of the two servers' timings in pass `i`. */
  ghost predicate PassRatio(clock: Clock, a: string, b: string, key: string, i: nat, x: real) {
    var n, d := clock(a, i, key), clock(b, i, key);
    n.Some? && d.Some? && d.value != 0.0 && x == n.value / d.value
  }

  /** `r` is the range of the ratios within one of `n` passes: none lies outside it
      and both ends are reached; it is missing exactly when no pass gives a ratio. */
  ghost predicate IsRangeByPass(r: Option<(real, real)>, clock: Clock, a: string, b: string, key: string, n: nat) {
    && (r.None? <==> forall i: nat, x :: i < n ==> !PassRatio(clock, a, b, key, i, x))
    && (r.Some? ==>
          && (forall i: nat, x :: i < n && PassRatio(clock, a, b, key, i, x) ==> r.value.0 <= x <= r.value.1)
          && (exists i: nat :: i < n && PassRatio(clock, a, b, key, i, r.value.0))
          && (exists i: nat :: i < n && PassRatio(clock, a, b, key, i, r.value.1)))
  }

  /** The published range of a workload is that of the ratios within one pass. */
  lemma RangeIsByPass(samples: map<string, Timings>, clock: Clock, a: string, b: string, key: string, n: nat)
    requires Holds(samples, clock, a, n) && Holds(samples, clock, b, n) && key in WORKLOADS
    ensures IsRangeByPass(PairedRange(Of(samples[a], key), Of(samples[b], key)), clock, a, b, key, n)
  {
    hide PassRatio, Ratios, RatioAt, Least, Greatest, Of;
    var numer, denom := Of(samples[a], key), Of(samples[b], key);
    var ratios := Ratios(numer, denom);
    forall i: nat, x | i < n && PassRatio(clock, a, b, key, i, x)
      ensures x in ratios
    {
      RatioIsPass(clock, a, b, key, n, i, x);
      RatiosAre(numer, denom, x);
    }
    forall x | x in ratios
      ensures exists i: nat :: i < n && PassRatio(clock, a, b, key, i, x)
    {
      RatiosAre(numer, denom, x);
      var i: nat :| RatioAt(numer, denom, i, x);
      RatioIsPass(clock, a, b, key, n, i, x);
    }
    if ratios != [] {
      assert ratios[0] in ratios;
    }
  }

  lemma RatioIsPass(clock: Clock, a: string, b: string, key: string, n: nat, i: nat, x: real)
    ensures RatioAt(Sampled(clock, a, key, n), Sampled(clock, b, key, n), i, x) <==>
            i < n && PassRatio(clock, a, b, key, i, x)
  {}
}
