/** The read/write durability harness: what a worker counts, what the final sweep
    counts, and what PASS then means. */
module RwHarness {
  import opened Optional

  // --- one worker ---------------------------------------------------------

  /** An insert is acknowledged, refused as already there, or lost to an outage. */
  datatype Write = Acked | AlreadyThere | Unreachable

  datatype Read = Intact | Missing | Corrupt | ReadFailed

  datatype Stats = Stats(worker: int, ok: nat, failed: nat, sampled: nat, mismatch: nat, missing: nat, errors: nat,
                         maxSeq: nat)

  function UpTo(n: nat): (r: set<nat>)
    ensures forall s :: s in r <==> 1 <= s <= n
    ensures |r| == n
  {
    if n == 0 then {} else UpTo(n - 1) + {n}
  }

  /** The writes of the first `n` that count as stored. */
  function AckedSeqs(insert: nat -> Write, n: nat): (r: set<nat>)
    ensures forall s :: s in r <==> 1 <= s <= n && insert(s) != Unreachable
  {
    if n == 0 then {} else AckedSeqs(insert, n - 1) + if insert(n) != Unreachable then {n} else {}
  }

  /** Read-backs follow write `s`. */
  ghost predicate Samples(insert: nat -> Write, readEvery: int, s: nat) {
    readEvery != 0 && s % readEvery == 0 && AckedSeqs(insert, s) != {}
  }

  ghost predicate BadRead(read: (nat, int) -> Read, readBatch: int, s: nat) {
    exists j :: 0 <= j < readBatch && (read(s, j) == Missing || read(s, j) == Corrupt)
  }

  ghost predicate SawBadRead(insert: nat -> Write, read: (nat, int) -> Read, readEvery: int, readBatch: int, n: nat) {
    exists s :: 1 <= s <= n && Samples(insert, readEvery, s) && BadRead(read, readBatch, s)
  }

  /** Writes done when the worker may take `steps` turns; a `count` of 0 is no limit. */
  function Turns(count: int, steps: nat): nat {
    if count == 0 || count >= steps then steps else if count < 0 then 0 else count
  }

  /** A bad read, spelled out: after a write at which read-backs are due, with some
      write acknowledged by then, one of them finds a document gone or damaged. */
  lemma BadReadsMean(insert: nat -> Write, read: (nat, int) -> Read, readEvery: int, readBatch: int, n: nat)
    ensures SawBadRead(insert, read, readEvery, readBatch, n) <==>
      exists s: nat, j: int, t: nat :: BadReadAt(insert, read, readEvery, readBatch, n, s, j, t)
  {
    if SawBadRead(insert, read, readEvery, readBatch, n) {
      var s :| 1 <= s <= n && Samples(insert, readEvery, s) && BadRead(read, readBatch, s);
      var j :| 0 <= j < readBatch && (read(s, j) == Missing || read(s, j) == Corrupt);
      var t :| t in AckedSeqs(insert, s);
      assert BadReadAt(insert, read, readEvery, readBatch, n, s, j, t);
    }
    if s: nat, j: int, t: nat :| BadReadAt(insert, read, readEvery, readBatch, n, s, j, t) {
      assert t in AckedSeqs(insert, s);
      assert Samples(insert, readEvery, s) && BadRead(read, readBatch, s);
    }
  }

  ghost predicate BadReadAt(insert: nat -> Write, read: (nat, int) -> Read, readEvery: int, readBatch: int, n: nat,
                            s: nat, j: int, t: nat) {
    && 1 <= t <= s <= n && insert(t) != Unreachable && readEvery != 0 && s % readEvery == 0
    && 0 <= j < readBatch && (read(s, j) == Missing || read(s, j) == Corrupt)
  }

  /** How many of the first `n` read-backs after write `s` end as `what`. */
  function ReadsOf(read: (nat, int) -> Read, s: nat, n: int, what: Read): nat {
    if n <= 0 then 0 else ReadsOf(read, s, n - 1, what) + if read(s, n - 1) == what then 1 else 0
  }

  /** How many of all read-backs do. */
  ghost function AllReadsOf(insert: nat -> Write, read: (nat, int) -> Read, readEvery: int, readBatch: int, n: nat,
                            what: Read): nat {
    if n == 0 then 0
    else
      AllReadsOf(insert, read, readEvery, readBatch, n - 1, what) +
      if Samples(insert, readEvery, n) then ReadsOf(read, n, readBatch, what) else 0
  }

  method ReadBack(read: (nat, int) -> Read, readBatch: int, s: nat)
    returns (sampled: nat, mismatch: nat, missing: nat, errors: nat)
    ensures mismatch + missing > 0 <==> BadRead(read, readBatch, s)
    ensures sampled == if readBatch > 0 then readBatch else 0
    ensures mismatch == ReadsOf(read, s, readBatch, Corrupt) && missing == ReadsOf(read, s, readBatch, Missing)
    ensures errors == ReadsOf(read, s, readBatch, ReadFailed)
  {
    sampled, mismatch, missing, errors := 0, 0, 0, 0;
    var j := 0;
    while j < readBatch
      invariant 0 <= j && sampled == j && (readBatch >= 0 ==> j <= readBatch) && (readBatch < 0 ==> j == 0)
      invariant mismatch + missing > 0 <==> BadRead(read, j, s)
      invariant mismatch == ReadsOf(read, s, j, Corrupt) && missing == ReadsOf(read, s, j, Missing)
      invariant errors == ReadsOf(read, s, j, ReadFailed)
    {
      sampled := sampled + 1;
      match read(s, j) {
        case Intact =>
        case Missing => missing := missing + 1;
        case Corrupt => mismatch := mismatch + 1;
        case ReadFailed => errors := errors + 1;
      }
      j := j + 1;
    }
  }

  lemma {:induction false} ReadsAddUp(read: (nat, int) -> Read, s: nat, n: int)
    ensures ReadsOf(read, s, n, Corrupt) + ReadsOf(read, s, n, Missing) + ReadsOf(read, s, n, ReadFailed) +
            ReadsOf(read, s, n, Intact) == if n > 0 then n else 0
  {
    if n > 0 {
      ReadsAddUp(read, s, n - 1);
    }
  }

  lemma NoReads(insert: nat -> Write, read: (nat, int) -> Read, readEvery: int, readBatch: int)
    ensures forall what :: AllReadsOf(insert, read, readEvery, readBatch, 0, what) == 0
  {}

  lemma ReadsMore(insert: nat -> Write, read: (nat, int) -> Read, readEvery: int, readBatch: int, n: nat, what: Read)
    requires n > 0
    ensures AllReadsOf(insert, read, readEvery, readBatch, n, what) ==
      AllReadsOf(insert, read, readEvery, readBatch, n - 1, what) +
      if readEvery != 0 && n % readEvery == 0 && AckedSeqs(insert, n) != {} then ReadsOf(read, n, readBatch, what)
      else 0
  {
    hide AckedSeqs, ReadsOf;
  }

  lemma AckedNone(insert: nat -> Write, read: (nat, int) -> Read, readEvery: int, readBatch: int)
    ensures AckedSeqs(insert, 0) == {} && !SawBadRead(insert, read, readEvery, readBatch, 0)
  {}

  lemma AckedMore(insert: nat -> Write, n: nat)
    requires n > 0
    ensures |AckedSeqs(insert, n)| == |AckedSeqs(insert, n - 1)| + if insert(n) != Unreachable then 1 else 0
    ensures AckedSeqs(insert, n) == {} <==> AckedSeqs(insert, n - 1) == {} && insert(n) == Unreachable
  {
    assert n !in AckedSeqs(insert, n - 1);
  }

  lemma SawMore(insert: nat -> Write, read: (nat, int) -> Read, readEvery: int, readBatch: int, n: nat)
    requires n > 0
    ensures SawBadRead(insert, read, readEvery, readBatch, n) <==>
      || SawBadRead(insert, read, readEvery, readBatch, n - 1)
      || (readEvery != 0 && n % readEvery == 0 && AckedSeqs(insert, n) != {} && BadRead(read, readBatch, n))
  {
    hide AckedSeqs, BadRead;
    assert Samples(insert, readEvery, n) <==> readEvery != 0 && n % readEvery == 0 && AckedSeqs(insert, n) != {};
    if SawBadRead(insert, read, readEvery, readBatch, n - 1) {
      var s :| 1 <= s <= n - 1 && Samples(insert, readEvery, s) && BadRead(read, readBatch, s);
      assert 1 <= s <= n;
    }
  }

  method WorkerRun(worker: int, count: int, steps: nat, readEvery: int, readBatch: int,
                   insert: nat -> Write, read: (nat, int) -> Read) returns (stats: Stats)
    ensures stats.worker == worker && stats.maxSeq == Turns(count, steps)
    ensures stats.ok == |AckedSeqs(insert, stats.maxSeq)| && stats.ok + stats.failed == stats.maxSeq
    ensures stats.maxSeq <= steps && (count != 0 ==> stats.maxSeq <= if count > 0 then count else 0)
    ensures stats.maxSeq < steps ==> count != 0 && stats.maxSeq >= count
    ensures stats.mismatch + stats.missing > 0 <==> SawBadRead(insert, read, readEvery, readBatch, stats.maxSeq)
    ensures stats.mismatch == AllReadsOf(insert, read, readEvery, readBatch, stats.maxSeq, Corrupt)
    ensures stats.missing == AllReadsOf(insert, read, readEvery, readBatch, stats.maxSeq, Missing)
    ensures stats.errors == AllReadsOf(insert, read, readEvery, readBatch, stats.maxSeq, ReadFailed)
    ensures stats.sampled == stats.mismatch + stats.missing + stats.errors +
                             AllReadsOf(insert, read, readEvery, readBatch, stats.maxSeq, Intact)
  {
    hide AckedSeqs, Samples, BadRead, SawBadRead, ReadsOf, AllReadsOf;
    stats := Stats(worker, 0, 0, 0, 0, 0, 0, 0);
    AckedNone(insert, read, readEvery, readBatch);
    NoReads(insert, read, readEvery, readBatch);
    var written: seq<nat> := [];
    var seqNo := 0;
    while seqNo < steps && !(count != 0 && seqNo >= count)
      invariant 0 <= seqNo <= steps && (count > 0 ==> seqNo <= count) && (count < 0 ==> seqNo == 0)
      invariant stats.worker == worker && stats.maxSeq == 0
      invariant stats.ok == |AckedSeqs(insert, seqNo)| && stats.ok + stats.failed == seqNo
      invariant written != [] <==> AckedSeqs(insert, seqNo) != {}
      invariant stats.mismatch + stats.missing > 0 <==> SawBadRead(insert, read, readEvery, readBatch, seqNo)
      invariant stats.mismatch == AllReadsOf(insert, read, readEvery, readBatch, seqNo, Corrupt)
      invariant stats.missing == AllReadsOf(insert, read, readEvery, readBatch, seqNo, Missing)
      invariant stats.errors == AllReadsOf(insert, read, readEvery, readBatch, seqNo, ReadFailed)
      invariant stats.sampled == stats.mismatch + stats.missing + stats.errors +
                                 AllReadsOf(insert, read, readEvery, readBatch, seqNo, Intact)
    {
      seqNo := seqNo + 1;
      if insert(seqNo) != Unreachable {
        stats := stats.(ok := stats.ok + 1);
        written := written + [seqNo];
      } else {
        stats := stats.(failed := stats.failed + 1);
      }
      AckedMore(insert, seqNo);
      SawMore(insert, read, readEvery, readBatch, seqNo);
      ReadsMore(insert, read, readEvery, readBatch, seqNo, Corrupt);
      ReadsMore(insert, read, readEvery, readBatch, seqNo, Missing);
      ReadsMore(insert, read, readEvery, readBatch, seqNo, ReadFailed);
      ReadsMore(insert, read, readEvery, readBatch, seqNo, Intact);
      if written != [] && readEvery != 0 && seqNo % readEvery == 0 {
        var sampled, mismatch, missing, errors := ReadBack(read, readBatch, seqNo);
        ReadsAddUp(read, seqNo, readBatch);
        stats := stats.(sampled := stats.sampled + sampled, mismatch := stats.mismatch + mismatch,
                        missing := stats.missing + missing, errors := stats.errors + errors);
      }
    }
    stats := stats.(maxSeq := seqNo);
  }

  // --- documents ----------------------------------------------------------

  datatype Field = Absent | Int(n: int) | Other(text: string)

  datatype Doc = Doc(id: string, w: Field, s: Field, payload: Field, checksum: Field)

  function Digit(d: nat): char
    requires d < 10
  {
    '0' + d as char
  }

  function Decimal(n: nat): (r: string)
    ensures r != [] && forall i :: 0 <= i < |r| ==> '0' <= r[i] <= '9'
  {
    if n < 10 then [Digit(n)] else Decimal(n / 10) + [Digit(n % 10)]
  }

  lemma {:induction false} DecimalIsUnique(m: nat, n: nat)
    requires Decimal(m) == Decimal(n)
    ensures m == n
  {
    var a, b := Decimal(m), Decimal(n);
    assert a[|a| - 1] == Digit(m % 10) && b[|b| - 1] == Digit(n % 10);
    if m >= 10 && n >= 10 {
      assert a[..|a| - 1] == Decimal(m / 10) && b[..|b| - 1] == Decimal(n / 10);
      DecimalIsUnique(m / 10, n / 10);
    }
  }

  datatype Key = Key(worker: nat, seqNo: nat)

  function DocId(k: Key): string { "w" + Decimal(k.worker) + "-" + Decimal(k.seqNo) }

  lemma DashSplits(a: string, b: string, c: string, d: string)
    requires a + "-" + b == c + "-" + d
    requires (forall i :: 0 <= i < |a| ==> a[i] != '-') && (forall i :: 0 <= i < |c| ==> c[i] != '-')
    ensures a == c && b == d
  {
    var s := a + "-" + b;
    assert s[|a|] == '-' && s[|c|] == '-';
    assert forall i :: 0 <= i < |a| ==> s[i] == a[i];
    assert forall i :: 0 <= i < |c| ==> s[i] == c[i];
    assert |a| == |c|;
    assert a == s[..|a|] && c == s[..|c|];
    assert b == s[|a| + 1..] && d == s[|c| + 1..];
  }

  lemma DocIdLooks()
    ensures DocId(Key(3, 14)) == "w3-14"
  {
    assert Decimal(1) == "1";
    assert Decimal(14) == "14";
  }

  /** Workers' ids never collide. */
  lemma DocIdIsUnique(k: Key, l: Key)
    ensures DocId(k) == DocId(l) <==> k == l
  {
    hide Decimal;
    if DocId(k) == DocId(l) {
      DashSplits("w" + Decimal(k.worker), Decimal(k.seqNo), "w" + Decimal(l.worker), Decimal(l.seqNo));
      var a, b := "w" + Decimal(k.worker), "w" + Decimal(l.worker);
      assert a[1..] == Decimal(k.worker) && b[1..] == Decimal(l.worker);
      DecimalIsUnique(k.worker, l.worker);
      DecimalIsUnique(k.seqNo, l.seqNo);
    }
  }

  /** `checksum` stands for SHA-256 over the joined fields. */
  function Made(checksum: (Field, Field, Field) -> string, payload: string, k: Key): Doc {
    var w, s, p := Int(k.worker), Int(k.seqNo), Other(payload);
    Doc(DocId(k), w, s, p, Other(checksum(w, s, p)))
  }

  predicate Verified(checksum: (Field, Field, Field) -> string, d: Doc) {
    d.w != Absent && d.s != Absent && d.payload != Absent && d.checksum == Other(checksum(d.w, d.s, d.payload))
  }

  /** What the checksum gives away. A document with a field missing never verifies;
      one whose fields or checksum were changed does only if they agree again. */
  lemma DamageShows(checksum: (Field, Field, Field) -> string, d: Doc)
    ensures d.w == Absent || d.s == Absent || d.payload == Absent || d.checksum == Absent ==> !Verified(checksum, d)
    ensures d.w != Absent && d.s != Absent && d.payload != Absent ==>
      forall sum :: Verified(checksum, d.(checksum := Other(sum))) <==> sum == checksum(d.w, d.s, d.payload)
  {}

  // --- the sweep ----------------------------------------------------------

  datatype Sweep = Sweep(total: nat, badChecksum: nat, duplicateId: nat, malformed: nat,
                         mismatches: seq<(int, int, int)>)

  function Ids(docs: seq<Doc>): set<string> { set d | d in docs :: d.id }

  function Persisted(docs: seq<Doc>, w: int): nat {
    if docs == [] then 0 else Persisted(docs[..|docs| - 1], w) + if docs[|docs| - 1].w == Int(w) then 1 else 0
  }

  /** Workers whose stored count differs from what they reported, in order. */
  function Mismatched(expected: seq<(int, int)>, docs: seq<Doc>): seq<(int, int, int)> {
    if expected == [] then []
    else
      var (w, e) := expected[|expected| - 1];
      var g := Persisted(docs, w);
      Mismatched(expected[..|expected| - 1], docs) + if g != e then [(w, e, g)] else []
  }

  lemma {:induction false} MismatchedHolds(expected: seq<(int, int)>, docs: seq<Doc>)
    ensures forall w, e, g ::
      (w, e, g) in Mismatched(expected, docs) <==> (w, e) in expected && g == Persisted(docs, w) && e != g
  {
    hide Persisted;
    if expected != [] {
      var l := |expected| - 1;
      MismatchedHolds(expected[..l], docs);
      var short, last := Mismatched(expected[..l], docs), expected[l];
      forall w, e, g
        ensures (w, e, g) in Mismatched(expected, docs) <==> (w, e) in expected && g == Persisted(docs, w) && e != g
      {
        assert (w, e) in expected <==> (w, e) in expected[..l] || (w, e) == last by {
          assert expected == expected[..l] + [last];
        }
        assert (w, e, g) in short <==> (w, e) in expected[..l] && g == Persisted(docs, w) && e != g;
      }
    }
  }

  /** `defaultdict(int)` lookups. */
  function Get(counts: map<int, nat>, w: int): nat { if w in counts then counts[w] else 0 }

  ghost predicate AllVerified(checksum: (Field, Field, Field) -> string, docs: seq<Doc>) {
    forall i :: 0 <= i < |docs| ==> Verified(checksum, docs[i])
  }

  ghost predicate AllShaped(docs: seq<Doc>) { forall i :: 0 <= i < |docs| ==> docs[i].w.Int? }

  /** `expected` holds what each worker reported, by worker. */
  method Validate(checksum: (Field, Field, Field) -> string, docs: seq<Doc>, expected: seq<(int, int)>)
    returns (r: Sweep)
    ensures r.total == |docs| && r.duplicateId == |docs| - |Ids(docs)|
    ensures r.badChecksum == 0 <==> AllVerified(checksum, docs)
    ensures r.malformed == 0 <==> AllShaped(docs)
    ensures r.mismatches == Mismatched(expected, docs)
    ensures r.badChecksum == 0 <==> forall d :: d in docs ==> Verified(checksum, d)
    ensures r.malformed == 0 <==> forall d :: d in docs ==> d.w.Int?
  {
    hide Persisted, Verified, AllVerified, AllShaped, Ids, Mismatched;
    var seen: set<string> := {};
    var counts: map<int, nat> := map[];
    var total, bad, dup, malformed: nat := 0, 0, 0, 0;
    SweepNone(checksum);
    assert docs[..0] == [];
    for i := 0 to |docs|
      invariant total == i && seen == Ids(docs[..i]) && dup == i - |seen|
      invariant bad == 0 <==> AllVerified(checksum, docs[..i])
      invariant malformed == 0 <==> AllShaped(docs[..i])
      invariant forall w :: Get(counts, w) == Persisted(docs[..i], w)
    {
      var d := docs[i];
      assert docs[..i + 1] == docs[..i] + [d];
      SweepMore(checksum, docs[..i], d);
      PersistedMore(docs[..i], d);
      total := total + 1;
      if d.id in seen {
        dup := dup + 1;
      } else {
        seen := seen + {d.id};
      }
      if !Verified(checksum, d) {
        bad := bad + 1;
      }
      if d.w.Int? {
        counts := counts[d.w.n := Get(counts, d.w.n) + 1];
      } else {
        malformed := malformed + 1;
      }
    }
    assert docs[..|docs|] == docs;
    var mismatches := Reconcile(expected, counts, docs);
    r := Sweep(total, bad, dup, malformed, mismatches);
    EveryDoc(checksum, docs);
  }

  lemma EveryDoc(checksum: (Field, Field, Field) -> string, docs: seq<Doc>)
    ensures AllVerified(checksum, docs) <==> forall d :: d in docs ==> Verified(checksum, d)
    ensures AllShaped(docs) <==> forall d :: d in docs ==> d.w.Int?
  {
    hide Verified;
  }

  lemma SweepNone(checksum: (Field, Field, Field) -> string)
    ensures Ids([]) == {} && AllVerified(checksum, []) && AllShaped([]) && forall w :: Persisted([], w) == 0
  {}

  lemma SweepMore(checksum: (Field, Field, Field) -> string, docs: seq<Doc>, d: Doc)
    ensures Ids(docs + [d]) == if d.id in Ids(docs) then Ids(docs) else Ids(docs) + {d.id}
    ensures |Ids(docs + [d])| == |Ids(docs)| + if d.id in Ids(docs) then 0 else 1
    ensures AllVerified(checksum, docs + [d]) <==> AllVerified(checksum, docs) && Verified(checksum, d)
    ensures AllShaped(docs + [d]) <==> AllShaped(docs) && d.w.Int?
  {
    hide Verified, Ids;
    var more := docs + [d];
    IdsMore(docs, d);
    assert more[|docs|] == d && forall i :: 0 <= i < |docs| ==> more[i] == docs[i];
  }

  lemma IdsMore(docs: seq<Doc>, d: Doc)
    ensures Ids(docs + [d]) == Ids(docs) + {d.id}
  {
    forall id
      ensures id in Ids(docs + [d]) <==> id in Ids(docs) + {d.id}
    {
      if id in Ids(docs) {
        var e :| e in docs && e.id == id;
        assert e in docs + [d];
      }
      assert d in docs + [d];
    }
  }

  lemma PersistedMore(docs: seq<Doc>, d: Doc)
    ensures forall w :: Persisted(docs + [d], w) == Persisted(docs, w) + if d.w == Int(w) then 1 else 0
  {
    assert (docs + [d])[..|docs|] == docs;
  }

  method Reconcile(expected: seq<(int, int)>, counts: map<int, nat>, ghost docs: seq<Doc>)
    returns (mismatches: seq<(int, int, int)>)
    requires forall w :: Get(counts, w) == Persisted(docs, w)
    ensures mismatches == Mismatched(expected, docs)
  {
    hide Persisted;
    mismatches := [];
    for i := 0 to |expected|
      invariant mismatches == Mismatched(expected[..i], docs)
    {
      var (w, e) := expected[i];
      assert expected[..i + 1][..i] == expected[..i];
      var got := Get(counts, w);
      if got != e {
        mismatches := mismatches + [(w, e, got)];
      }
    }
    assert expected[..|expected|] == expected;
  }

  // --- the report ---------------------------------------------------------

  function TotalOk(results: seq<Option<Stats>>): nat {
    if results == [] then 0
    else
      var r := results[|results| - 1];
      TotalOk(results[..|results| - 1]) + if r.Some? then r.value.ok else 0
  }

  /** A read-back found a stored document gone or damaged. */
  ghost predicate AnyBadRead(results: seq<Option<Stats>>) {
    exists i :: 0 <= i < |results| && results[i].Some? && results[i].value.mismatch + results[i].value.missing > 0
  }

  /** PASS. */
  method Report(results: seq<Option<Stats>>, sweep: Sweep) returns (clean: bool)
    ensures clean <==>
      && sweep.badChecksum == 0 && sweep.duplicateId == 0 && sweep.malformed == 0 && sweep.mismatches == []
      && !AnyBadRead(results) && sweep.total == TotalOk(results)
    ensures clean ==> forall r :: r in results && r.Some? ==> r.value.mismatch == 0 && r.value.missing == 0
  {
    var ok, mismatch, missing := 0, 0, 0;
    for i := 0 to |results|
      invariant ok == TotalOk(results[..i])
      invariant mismatch >= 0 && missing >= 0
      invariant mismatch + missing > 0 <==> AnyBadRead(results[..i])
    {
      var r := results[i];
      assert results[..i + 1][..i] == results[..i];
      if r.Some? {
        ok, mismatch, missing := ok + r.value.ok, mismatch + r.value.mismatch, missing + r.value.missing;
      }
      assert AnyBadRead(results[..i + 1]) <==>
             AnyBadRead(results[..i]) || (r.Some? && r.value.mismatch + r.value.missing > 0) by {
        var a, b := results[..i], results[..i + 1];
        assert b == a + [r] && b[i] == r;
        assert forall k :: 0 <= k < i ==> a[k] == b[k];
      }
    }
    assert results[..|results|] == results;
    clean := true;
    if sweep.badChecksum != 0 || sweep.duplicateId != 0 || sweep.malformed != 0 {
      clean := false;
    }
    if mismatch != 0 || missing != 0 {
      clean := false;
    }
    if sweep.mismatches != [] {
      clean := false;
    }
    if sweep.total != ok {
      clean := false;
    }
  }

  // --- what PASS means ----------------------------------------------------

  /** What one worker did: how many writes it tried, which were acknowledged, and
      what it reported. */
  datatype Run = Run(tried: nat, acked: set<nat>, report: Option<Stats>)

  /** As `WorkerRun` leaves it; a worker that crashed has no report. */
  ghost predicate Ran(runs: seq<Run>, i: nat)
    requires i < |runs|
  {
    var r := runs[i];
    && r.acked <= UpTo(r.tried)
    && (r.report.Some? ==>
          && r.report.value.worker == i && r.report.value.ok == |r.acked|
          && r.report.value.failed == r.tried - |r.acked|)
  }

  ghost predicate AllRan(runs: seq<Run>) { forall i :: 0 <= i < |runs| ==> Ran(runs, i) }

  function Results(runs: seq<Run>): (r: seq<Option<Stats>>)
    ensures |r| == |runs| && forall i :: 0 <= i < |r| ==> r[i] == runs[i].report
  {
    if runs == [] then [] else Results(runs[..|runs| - 1]) + [runs[|runs| - 1].report]
  }

  /** What the sweep is told to expect. */
  function Expected(results: seq<Option<Stats>>): seq<(int, int)> {
    if results == [] then []
    else
      var r := results[|results| - 1];
      Expected(results[..|results| - 1]) + if r.Some? then [(r.value.worker, r.value.ok)] else []
  }

  /** The collection holds only documents some worker tried to write. */
  ghost predicate OnlyTried(runs: seq<Run>, keys: seq<Key>) {
    forall i :: 0 <= i < |keys| ==> Tried(runs, keys[i])
  }

  ghost predicate Tried(runs: seq<Run>, k: Key) { k.worker < |runs| && 1 <= k.seqNo <= runs[k.worker].tried }

  /** The collection holds the documents named by `keys`, under their ids and with
      their worker; payload and checksum may be damaged. */
  ghost predicate Stores(docs: seq<Doc>, keys: seq<Key>) {
    |docs| == |keys| && forall i :: 0 <= i < |docs| ==> docs[i].id == DocId(keys[i]) && docs[i].w == Int(keys[i].worker)
  }

  function KeySet(keys: seq<Key>): set<Key> { set k | k in keys }

  /** What is stored for one worker. */
  function Of(keys: set<Key>, w: int): set<Key> { set k | k in keys && k.worker == w }

  /** The acknowledged ids of worker `w`. */
  function AckedKeys(w: nat, acked: set<nat>): set<Key> { set s | s in acked :: Key(w, s) }

  /** The acknowledged ids of the workers that reported. */
  function Acknowledged(runs: seq<Run>): set<Key> {
    if runs == [] then {}
    else
      var l := |runs| - 1;
      Acknowledged(runs[..l]) + if runs[l].report.Some? then AckedKeys(l, runs[l].acked) else {}
  }

  /** The harness passes a collection holding the documents of `keys`. */
  ghost predicate Passes(runs: seq<Run>, keys: seq<Key>) {
    && |KeySet(keys)| == |keys|
    && (forall i :: 0 <= i < |runs| && runs[i].report.Some? ==> |Of(KeySet(keys), i)| == |runs[i].acked|)
    && !AnyBadRead(Results(runs))
    && |keys| == TotalOk(Results(runs))
  }

  // --- the sweep, in terms of the ids stored ------------------------------

  lemma KeySetMore(keys: seq<Key>, k: Key)
    ensures KeySet(keys + [k]) == KeySet(keys) + {k}
  {}

  lemma LastKey(keys: seq<Key>)
    requires keys != []
    ensures keys == keys[..|keys| - 1] + [keys[|keys| - 1]]
    ensures KeySet(keys) == KeySet(keys[..|keys| - 1]) + {keys[|keys| - 1]}
  {
    assert keys == keys[..|keys| - 1] + [keys[|keys| - 1]];
    KeySetMore(keys[..|keys| - 1], keys[|keys| - 1]);
  }

  lemma {:induction false} KeySetSize(keys: seq<Key>)
    ensures |KeySet(keys)| <= |keys|
  {
    hide KeySet;
    if keys == [] {
      KeySetNone();
    } else {
      LastKey(keys);
      KeySetSize(keys[..|keys| - 1]);
    }
  }

  lemma KeySetNone()
    ensures KeySet([]) == {}
  {}

  lemma IdStored(docs: seq<Doc>, keys: seq<Key>, k: Key)
    requires Stores(docs, keys)
    ensures DocId(k) in Ids(docs) <==> k in KeySet(keys)
  {
    hide DocId;
    if k in KeySet(keys) {
      var i :| 0 <= i < |keys| && keys[i] == k;
      assert docs[i] in docs && docs[i].id == DocId(k);
    }
    if DocId(k) in Ids(docs) {
      var d :| d in docs && d.id == DocId(k);
      var i :| 0 <= i < |docs| && docs[i] == d;
      DocIdIsUnique(keys[i], k);
    }
  }

  lemma SameGrowth<S, T>(a: set<S>, x: S, b: set<T>, y: T)
    requires |a| == |b| && (x in a <==> y in b)
    ensures |a + {x}| == |b + {y}|
  {
    if x in a {
      assert a + {x} == a && b + {y} == b;
    }
  }

  lemma {:induction false} IdsCount(docs: seq<Doc>, keys: seq<Key>)
    requires Stores(docs, keys)
    ensures |Ids(docs)| == |KeySet(keys)|
  {
    hide Ids, KeySet, DocId;
    if keys == [] {
      NoIds(docs);
      KeySetNone();
    } else {
      var l := |keys| - 1;
      LastKey(keys);
      IdsCount(docs[..l], keys[..l]);
      assert docs == docs[..l] + [docs[l]];
      IdsMore(docs[..l], docs[l]);
      IdStored(docs[..l], keys[..l], keys[l]);
      SameGrowth(Ids(docs[..l]), DocId(keys[l]), KeySet(keys[..l]), keys[l]);
    }
  }

  lemma NoIds(docs: seq<Doc>)
    requires docs == []
    ensures Ids(docs) == {} && forall w :: Persisted(docs, w) == 0
  {}

  lemma {:induction false} PersistedCount(docs: seq<Doc>, keys: seq<Key>, w: int)
    requires Stores(docs, keys) && |KeySet(keys)| == |keys|
    ensures Persisted(docs, w) == |Of(KeySet(keys), w)|
  {
    hide KeySet, DocId, Persisted, Of;
    if keys == [] {
      NoIds(docs);
      KeySetNone();
      OfNone(w);
    } else {
      var l := |keys| - 1;
      var last := keys[l];
      LastKey(keys);
      KeySetSize(keys[..l]);
      assert last !in KeySet(keys[..l]);
      PersistedCount(docs[..l], keys[..l], w);
      assert docs == docs[..l] + [docs[l]];
      PersistedMore(docs[..l], docs[l]);
      OfMore(KeySet(keys[..l]), last, w);
    }
  }

  lemma OfNone(w: int)
    ensures Of({}, w) == {}
  {}

  lemma OfMore(keys: set<Key>, last: Key, w: int)
    requires last !in keys
    ensures |Of(keys + {last}, w)| == |Of(keys, w)| + if last.worker == w then 1 else 0
  {
    assert Of(keys + {last}, w) == Of(keys, w) + if last.worker == w then {last} else {};
  }

  /** A document as a worker makes it is stored under its key and verifies. */
  lemma MadeIsSound(checksum: (Field, Field, Field) -> string, payload: string, k: Key)
    ensures Verified(checksum, Made(checksum, payload, k)) && Stores([Made(checksum, payload, k)], [k])
  {}

  lemma {:induction false} ExpectedHolds(runs: seq<Run>, n: nat, w: int, e: int)
    requires n <= |runs| && AllRan(runs)
    ensures (w, e) in Expected(Results(runs)[..n]) <==> 0 <= w < n && runs[w].report.Some? && e == |runs[w].acked|
  {
    if n > 0 {
      ExpectedHolds(runs, n - 1, w, e);
      assert Results(runs)[..n][..n - 1] == Results(runs)[..n - 1];
      assert Ran(runs, n - 1);
    }
  }

  /** What PASS says of a collection, whatever it holds. */
  ghost predicate Clean(checksum: (Field, Field, Field) -> string, runs: seq<Run>, docs: seq<Doc>) {
    && AllVerified(checksum, docs) && AllShaped(docs) && |Ids(docs)| == |docs|
    && (forall i :: 0 <= i < |runs| && runs[i].report.Some? ==> Persisted(docs, i) == |runs[i].acked|)
    && !AnyBadRead(Results(runs)) && |docs| == TotalOk(Results(runs))
  }

  /** The whole check, on any collection: sweep it, then report. */
  method Judge(checksum: (Field, Field, Field) -> string, runs: seq<Run>, docs: seq<Doc>) returns (clean: bool)
    requires AllRan(runs)
    ensures clean <==> Clean(checksum, runs, docs)
  {
    hide Ids, Persisted, Expected, TotalOk, AllVerified, AllShaped, AllRan, AnyBadRead, Mismatched;
    var results := Results(runs);
    var sweep := Validate(checksum, docs, Expected(results));
    clean := Report(results, sweep);
    MismatchesAre(runs, docs, sweep);
  }

  /** On a collection that holds the documents of `keys`, PASS means that none is
      damaged and that the counts of ids are right. */
  lemma CleanIsPasses(checksum: (Field, Field, Field) -> string, runs: seq<Run>, docs: seq<Doc>, keys: seq<Key>)
    requires Stores(docs, keys)
    ensures Clean(checksum, runs, docs) <==> Passes(runs, keys) && AllVerified(checksum, docs)
  {
    hide Ids, KeySet, DocId, Persisted, TotalOk, AllVerified, AllShaped, AnyBadRead, Of;
    StoredIsShaped(docs, keys);
    IdsCount(docs, keys);
    if |KeySet(keys)| == |keys| {
      forall i | 0 <= i < |runs|
        ensures Persisted(docs, i) == |Of(KeySet(keys), i)|
      {
        PersistedCount(docs, keys, i);
      }
    }
  }

  lemma StoredIsShaped(docs: seq<Doc>, keys: seq<Key>)
    requires Stores(docs, keys)
    ensures AllShaped(docs)
  {
    hide DocId;
  }

  lemma MismatchesAre(runs: seq<Run>, docs: seq<Doc>, sweep: Sweep)
    requires AllRan(runs) && sweep.mismatches == Mismatched(Expected(Results(runs)), docs)
    ensures sweep.mismatches == [] <==>
      forall i :: 0 <= i < |runs| && runs[i].report.Some? ==> Persisted(docs, i) == |runs[i].acked|
  {
    hide Persisted, Expected, AllRan, Mismatched;
    MismatchedHolds(Expected(Results(runs)), docs);
    assert Results(runs)[..|runs|] == Results(runs);
    forall i | 0 <= i < |runs| && runs[i].report.Some?
      ensures Persisted(docs, i) != |runs[i].acked| ==> sweep.mismatches != []
    {
      ExpectedHolds(runs, |runs|, i, |runs[i].acked|);
      if Persisted(docs, i) != |runs[i].acked| {
        assert (i, |runs[i].acked|, Persisted(docs, i)) in sweep.mismatches;
      }
    }
    if sweep.mismatches != [] {
      var (w, e, g) := sweep.mismatches[0];
      assert (w, e, g) in sweep.mismatches;
      ExpectedHolds(runs, |runs|, w, e);
    }
  }

  // --- counting -----------------------------------------------------------

  lemma {:induction false} AckedKeysSize(w: nat, acked: set<nat>)
    ensures |AckedKeys(w, acked)| == |acked|
  {
    if acked == {} {
      assert AckedKeys(w, acked) == {};
    } else {
      var s :| s in acked;
      AckedKeysSize(w, acked - {s});
      assert AckedKeys(w, acked) == AckedKeys(w, acked - {s}) + {Key(w, s)};
    }
  }

  lemma {:induction false} AcknowledgedHas(runs: seq<Run>, k: Key)
    ensures k in Acknowledged(runs) <==>
            k.worker < |runs| && runs[k.worker].report.Some? && k.seqNo in runs[k.worker].acked
  {
    if runs != [] {
      AcknowledgedHas(runs[..|runs| - 1], k);
    }
  }

  lemma {:induction false} AcknowledgedSize(runs: seq<Run>, n: nat)
    requires AllRan(runs) && n <= |runs|
    ensures |Acknowledged(runs[..n])| == TotalOk(Results(runs)[..n])
  {
    if n == 0 {
      assert runs[..0] == [];
    } else {
      AcknowledgedSize(runs, n - 1);
      assert runs[..n][..n - 1] == runs[..n - 1] && Results(runs)[..n][..n - 1] == Results(runs)[..n - 1];
      assert Ran(runs, n - 1);
      hide AckedKeys;
      AckedKeysSize(n - 1, runs[n - 1].acked);
      NewlyAcked(runs[..n - 1], n - 1, runs[n - 1].acked);
      assert runs[..n][n - 1] == runs[n - 1] && Results(runs)[..n][n - 1] == runs[n - 1].report;
    }
  }

  lemma NewlyAcked(runs: seq<Run>, w: nat, acked: set<nat>)
    requires w == |runs|
    ensures Acknowledged(runs) !! AckedKeys(w, acked)
  {
    forall k | k in AckedKeys(w, acked)
      ensures k !in Acknowledged(runs)
    {
      AcknowledgedHas(runs, k);
    }
  }

  /** Every worker that reported lost all its writes or none. */
  ghost predicate AllOrNothing(runs: seq<Run>) {
    forall i :: 0 <= i < |runs| && runs[i].report.Some? ==>
      runs[i].report.value.ok == 0 || runs[i].report.value.failed == 0
  }

  lemma SubsetOfSameSize<T>(a: set<T>, b: set<T>)
    requires a <= b && |a| == |b|
    ensures a == b
  {
    assert |b - a| == |b| - |a|;
  }

  /** A worker that lost all its writes or none: what is stored is what it was
      told is stored. */
  lemma WorkerIsExact(runs: seq<Run>, keys: seq<Key>, i: nat)
    requires AllRan(runs) && OnlyTried(runs, keys) && Passes(runs, keys) && AllOrNothing(runs)
    requires i < |runs| && runs[i].report.Some?
    ensures AckedKeys(i, runs[i].acked) <= KeySet(keys)
  {
    hide TotalOk, AnyBadRead;
    assert Ran(runs, i);
    var acked, stored := AckedKeys(i, runs[i].acked), Of(KeySet(keys), i);
    AckedKeysSize(i, runs[i].acked);
    if runs[i].acked != {} {
      assert |runs[i].acked| != 0;
      SubsetOfSameSize(runs[i].acked, UpTo(runs[i].tried));
      forall k | k in stored
        ensures k in acked
      {
        assert Tried(runs, k);
      }
      SubsetOfSameSize(stored, acked);
    }
  }

  /** PASS means that the ids stored are exactly the acknowledged ones, and so that
      a worker without a report left no document. */
  lemma PassIsSound(runs: seq<Run>, keys: seq<Key>)
    requires AllRan(runs) && OnlyTried(runs, keys) && Passes(runs, keys) && AllOrNothing(runs)
    ensures KeySet(keys) == Acknowledged(runs)
    ensures forall k :: k in keys ==> k.worker < |runs| && runs[k.worker].report.Some?
  {
    hide TotalOk, AnyBadRead, Acknowledged;
    forall k | k in Acknowledged(runs)
      ensures k in KeySet(keys)
    {
      AcknowledgedHas(runs, k);
      WorkerIsExact(runs, keys, k.worker);
      assert k in AckedKeys(k.worker, runs[k.worker].acked);
    }
    AcknowledgedSize(runs, |runs|);
    assert runs[..|runs|] == runs && Results(runs)[..|runs|] == Results(runs);
    SubsetOfSameSize(Acknowledged(runs), KeySet(keys));
    forall k | k in keys
      ensures k.worker < |runs| && runs[k.worker].report.Some?
    {
      assert k in KeySet(keys);
      AcknowledgedHas(runs, k);
    }
  }

  lemma {:induction false} SetAsSeq(s: set<Key>) returns (keys: seq<Key>)
    ensures KeySet(keys) == s && |keys| == |s|
  {
    if s == {} {
      keys := [];
    } else {
      var k :| k in s;
      var rest := SetAsSeq(s - {k});
      keys := rest + [k];
      KeySetMore(rest, k);
    }
  }

  /** For any run in which a worker lost some writes and not others, a collection
      that lost an acknowledged write passes all the same. */
  lemma PartialLossFools(runs: seq<Run>) returns (keys: seq<Key>)
    requires AllRan(runs) && !AnyBadRead(Results(runs)) && !AllOrNothing(runs)
    ensures OnlyTried(runs, keys) && Passes(runs, keys) && !(Acknowledged(runs) <= KeySet(keys))
  {
    hide AnyBadRead, TotalOk, Acknowledged, KeySet;
    var i :| 0 <= i < |runs| && runs[i].report.Some? &&
             !(runs[i].report.value.ok == 0 || runs[i].report.value.failed == 0);
    assert Ran(runs, i);
    var run := runs[i];
    assert |run.acked| > 0 && |UpTo(run.tried) - run.acked| == run.tried - |run.acked| > 0;
    var a :| a in run.acked;
    var f :| f in UpTo(run.tried) - run.acked;
    var all, lost, extra := Acknowledged(runs), Key(i, a), Key(i, f);
    AcknowledgedHas(runs, lost);
    AcknowledgedHas(runs, extra);
    var swapped := all - {lost} + {extra};
    keys := SetAsSeq(swapped);
    AcknowledgedSize(runs, |runs|);
    assert runs[..|runs|] == runs && Results(runs)[..|runs|] == Results(runs);
    forall j | 0 <= j < |runs| && runs[j].report.Some?
      ensures |Of(swapped, j)| == |runs[j].acked|
    {
      SwappedCounts(runs, j, lost, extra);
    }
    SwappedIsTried(runs, keys, lost, extra);
  }

  lemma SwappedCounts(runs: seq<Run>, j: nat, lost: Key, extra: Key)
    requires j < |runs| && runs[j].report.Some? && lost.worker == extra.worker
    requires lost in Acknowledged(runs) && extra !in Acknowledged(runs)
    ensures |Of(Acknowledged(runs) - {lost} + {extra}, j)| == |runs[j].acked|
  {
    hide Acknowledged;
    var all := Acknowledged(runs);
    var own := AckedKeys(j, runs[j].acked);
    AckedKeysSize(j, runs[j].acked);
    forall k
      ensures k in Of(all, j) <==> k in own
    {
      AcknowledgedHas(runs, k);
    }
    assert Of(all, j) == own;
    if lost.worker == j {
      assert Of(all - {lost} + {extra}, j) == own - {lost} + {extra};
      assert lost in own && extra !in own;
    } else {
      assert Of(all - {lost} + {extra}, j) == own;
    }
  }

  lemma SwappedIsTried(runs: seq<Run>, keys: seq<Key>, lost: Key, extra: Key)
    requires AllRan(runs) && KeySet(keys) == Acknowledged(runs) - {lost} + {extra} && Tried(runs, extra)
    ensures OnlyTried(runs, keys)
  {
    hide Acknowledged;
    forall i | 0 <= i < |keys|
      ensures Tried(runs, keys[i])
    {
      var k := keys[i];
      assert k in KeySet(keys);
      if k != extra {
        AcknowledgedHas(runs, k);
        assert Ran(runs, k.worker);
      }
    }
  }

  /** PASS can be trusted, whatever the collection holds. */
  ghost predicate Trustworthy(runs: seq<Run>) {
    forall keys :: OnlyTried(runs, keys) && Passes(runs, keys) ==> KeySet(keys) == Acknowledged(runs)
  }

  /** With clean read-backs, PASS can be trusted exactly when no worker reported
      both acknowledged and failed writes. */
  lemma PassIsSoundIff(runs: seq<Run>)
    requires AllRan(runs) && !AnyBadRead(Results(runs))
    ensures Trustworthy(runs) <==> AllOrNothing(runs)
  {
    hide AllRan, AnyBadRead, Passes, OnlyTried, KeySet, Acknowledged, AllOrNothing;
    if AllOrNothing(runs) {
      forall keys | OnlyTried(runs, keys) && Passes(runs, keys)
        ensures KeySet(keys) == Acknowledged(runs)
      {
        PassIsSound(runs, keys);
      }
    } else {
      var keys := PartialLossFools(runs);
      assert OnlyTried(runs, keys) && Passes(runs, keys);
    }
  }
}
