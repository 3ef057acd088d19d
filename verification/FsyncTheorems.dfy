/** What the fsync patch promises, over every run. */
module FsyncTheorems {
  import opened Optional
  import opened Lsns
  import opened FsyncLog
  import opened FsyncInvariant

  lemma StepKeeps(s: State, e: Event)
    requires Inv(s) && Enabled(s, e)
    ensures Inv(Apply(s, e))
  {
    hide Inv;
    match e
    case Join(size, sync, dir) => JoinKeeps(s, size, sync, dir);
    case CloseSlot => CloseSlotKeeps(s);
    case NewSlot(newFile, at) => NewSlotKeeps(s, newFile, at);
    case Write(g) => WriteKeeps(s, g);
    case WriteFail(g) => WriteFailKeeps(s, g);
    case Advance(g) => AdvanceKeeps(s, g);
    case LeaveCovered(g) => LeaveKeeps(s, g);
    case TakeLock(g) => TakeLockKeeps(s, g);
    case Note(g) => NoteKeeps(s, g);
    case SkipFsync(g) => SkipKeeps(s, g);
    case FsyncBegin(g) => FsyncKeeps(s, g);
    case FsyncEnd(g) => FsyncEndKeeps(s, g);
    case FsyncFail(g) => FsyncFailKeeps(s, g);
    case Credit(g) => CreditKeeps(s, g);
    case CloseFsync => CloseFsyncKeeps(s);
    case CloseDone => CloseDoneKeeps(s);
    case ReturnOk(c) => ReturnOkKeeps(s, c);
    case ReturnError(c) => ReturnErrorKeeps(s, c);
  }

  lemma {:induction false} RunKeeps(tr: seq<State>, es: seq<Event>, k: nat)
    requires IsRun(tr, es) && k < |tr|
    ensures Inv(tr[k])
  {
    hide Inv;
    if k == 0 {
      InitInv(tr[0]);
    } else {
      RunKeeps(tr, es, k - 1);
      assert Enabled(tr[k - 1], es[k - 1]);
      StepKeeps(tr[k - 1], es[k - 1]);
    }
  }

  // --- soundness of sync_lsn ----------------------------------------------

  predicate Holds(sl: Slot, p: Lsn) {
    p.file == sl.file && sl.start <= p.offset < sl.end
  }

  ghost predicate LogByte(s: State, p: Lsn) {
    exists i :: 0 <= i < |s.slots| && Holds(s.slots[i], p)
  }

  ghost predicate Synced(s: State, p: Lsn) {
    exists i :: 0 <= i < |s.slots| && Holds(s.slots[i], p) && s.slots[i].durable
  }

  /** What a machine that loses power may leave: at least every synced byte. */
  ghost predicate Survives(s: State, disk: iset<Lsn>) {
    forall p :: Synced(s, p) ==> p in disk
  }

  lemma SyncLsnNamesSyncedBytes(tr: seq<State>, es: seq<Event>, k: nat, p: Lsn)
    requires IsRun(tr, es) && k < |tr|
    requires LogByte(tr[k], p) && Below(p, tr[k].syncLsn)
    ensures Synced(tr[k], p)
  {
    RunKeeps(tr, es, k);
    hide Busy;
    var s := tr[k];
    var i :| 0 <= i < |s.slots| && Holds(s.slots[i], p);
    assert Below(Start(s.slots[i]), s.syncLsn);
  }

  /** A commit that returned without an error has its record, and every log byte
      before it, on disk after a crash at any later step. */
  lemma ReturnedCommitsSurvive(tr: seq<State>, es: seq<Event>, k: nat, c: nat, disk: iset<Lsn>)
    requires IsRun(tr, es) && k < |tr|
    requires c < |tr[k].commits| && tr[k].commits[c].status.ReturnedOk?
    requires Survives(tr[k], disk)
    ensures tr[k].commits[c].slot < |tr[k].slots|
    ensures forall p | LogByte(tr[k], p) ::
              Below(p, Lsn(tr[k].slots[tr[k].commits[c].slot].file, tr[k].commits[c].hi)) ==> p in disk
    ensures forall o :: tr[k].commits[c].lo <= o < tr[k].commits[c].hi ==>
              Lsn(tr[k].slots[tr[k].commits[c].slot].file, o) in disk
  {
    RunKeeps(tr, es, k);
    hide Busy;
    var s := tr[k];
    var cm := s.commits[c];
    var file := s.slots[cm.slot].file;
    forall p | LogByte(s, p) && Below(p, Lsn(file, cm.hi))
      ensures p in disk
    {
      SyncLsnNamesSyncedBytes(tr, es, k, p);
    }
    forall o | cm.lo <= o < cm.hi
      ensures Lsn(file, o) in disk
    {
      assert Holds(s.slots[cm.slot], Lsn(file, o));
    }
  }

  // --- what every step keeps ----------------------------------------------

  function Rank(p: Phase): nat {
    match p
    case Filling => 0
    case Writing => 1
    case Written => 2
    case Looping => 3
    case Locked => 4
    case Noted(_, _) => 5
    case Flushing(_, _, _) => 6
    case Flushed(_, _, _) => 7
    case Done => 8
    case Failed => 8
  }

  /** A slot never moves back, and a closed slot's extent is fixed. */
  predicate Stays(s: State, t: State, i: nat) {
    && i < |s.slots| && i < |t.slots|
    && Rank(s.slots[i].phase) <= Rank(t.slots[i].phase)
    && t.slots[i].file == s.slots[i].file
    && s.advanced <= t.advanced
    && (!s.slots[i].phase.Filling? ==> t.slots[i].end == s.slots[i].end && t.slots[i].sync == s.slots[i].sync)
  }

  /** Events of the writers and the closing thread. */
  predicate OffLoop(e: Event) {
    || e.Join? || e.CloseSlot? || e.NewSlot? || e.Write? || e.WriteFail? || e.Advance? || e.CloseFsync? || e.CloseDone?
  }

  /** Events of the sync loop. */
  predicate InLoop(e: Event) {
    || e.LeaveCovered? || e.TakeLock? || e.Note? || e.SkipFsync?
    || e.FsyncBegin? || e.FsyncEnd? || e.FsyncFail? || e.Credit?
  }

  lemma WriterStepFrame(s: State, e: Event, i: nat)
    requires Enabled(s, e) && i < |s.slots|
    requires OffLoop(e)
    ensures Stays(s, Apply(s, e), i)
  {}

  lemma LoopStepFrame(s: State, e: Event, i: nat)
    requires Enabled(s, e) && i < |s.slots|
    requires InLoop(e)
    ensures Stays(s, Apply(s, e), i)
  {
    hide MarkDurable, FsyncCovers;
    match e
    case LeaveCovered(g) =>
    case TakeLock(g) =>
    case Note(g) =>
    case SkipFsync(g) =>
    case FsyncBegin(g) =>
    case FsyncEnd(g) =>
    case FsyncFail(g) =>
    case Credit(g) =>
  }

  lemma StepFrame(s: State, e: Event, i: nat)
    requires Enabled(s, e) && i < |s.slots|
    ensures Stays(s, Apply(s, e), i)
  {
    if e.ReturnOk? || e.ReturnError? {
    } else if OffLoop(e) {
      WriterStepFrame(s, e, i);
    } else {
      LoopStepFrame(s, e, i);
    }
  }

  lemma StepRaises(s: State, e: Event)
    requires Inv(s) && Enabled(s, e)
    ensures AtMost(s.syncLsn, Apply(s, e).syncLsn)
    ensures e.FsyncEnd? ==> Below(s.syncLsn, Apply(s, e).syncLsn)
    ensures FileId(s) <= FileId(Apply(s, e))
  {
    if e.FsyncEnd? {
      HolderOf(s, e.g);
      hide Inv;
    } else if e.Credit? {
      hide Inv;
    } else if e.CloseDone? {
      CloserAhead(s);
      hide Inv;
    } else {
      hide Inv, Enabled, Apply;
      SyncLsnStays(s, e);
    }
  }

  lemma CloserAhead(s: State)
    requires Inv(s)
    ensures s.syncLsn.file == s.closing
  {
    hide Layout, FileInv, Boundary, DurableBelow, CloserInv, CommitInv, ReturnInv, Busy;
  }

  lemma SyncLsnStays(s: State, e: Event)
    requires Enabled(s, e) && !e.FsyncEnd? && !e.Credit? && !e.CloseDone?
    ensures Apply(s, e).syncLsn == s.syncLsn && FileId(s) <= FileId(Apply(s, e))
  {}

  lemma {:induction false} RunFrame(tr: seq<State>, es: seq<Event>, j: nat, k: nat, i: nat)
    requires IsRun(tr, es) && j <= k < |tr| && i < |tr[j].slots|
    ensures i < |tr[k].slots|
    ensures Rank(tr[j].slots[i].phase) <= Rank(tr[k].slots[i].phase)
    ensures tr[k].slots[i].file == tr[j].slots[i].file && tr[j].advanced <= tr[k].advanced
    ensures !tr[j].slots[i].phase.Filling? ==>
              tr[k].slots[i].end == tr[j].slots[i].end && tr[k].slots[i].sync == tr[j].slots[i].sync
    decreases k - j
  {
    hide Apply, Enabled;
    if j < k {
      RunFrame(tr, es, j, k - 1, i);
      assert Enabled(tr[k - 1], es[k - 1]);
      StepFrame(tr[k - 1], es[k - 1], i);
    }
  }

  /** `sync_lsn` never moves backwards. */
  lemma {:induction false} SyncLsnNeverMovesBack(tr: seq<State>, es: seq<Event>, j: nat, k: nat)
    requires IsRun(tr, es) && j <= k < |tr|
    ensures AtMost(tr[j].syncLsn, tr[k].syncLsn) && FileId(tr[j]) <= FileId(tr[k])
    decreases k - j
  {
    hide Inv, Enabled, Apply, AtMost;
    Reflexive(tr[j].syncLsn);
    if j < k {
      SyncLsnNeverMovesBack(tr, es, j, k - 1);
      RunKeeps(tr, es, k - 1);
      assert Enabled(tr[k - 1], es[k - 1]);
      StepRaises(tr[k - 1], es[k - 1]);
      Transitive(tr[j].syncLsn, tr[k - 1].syncLsn, tr[k].syncLsn);
    }
  }

  lemma Reflexive(a: Lsn)
    ensures AtMost(a, a)
  {}

  lemma Transitive(a: Lsn, b: Lsn, c: Lsn)
    requires AtMost(a, b) && AtMost(b, c)
    ensures AtMost(a, c)
  {}

  // --- one fsync serves a group -------------------------------------------

  /** Each completed `fsync` of the loop strictly raises `sync_lsn`, and no slot
      issues two. */
  lemma OneFsyncPerSlot(tr: seq<State>, es: seq<Event>, j: nat, k: nat, g: nat)
    requires IsRun(tr, es) && j < |es| && k < |es|
    requires es[j] == FsyncBegin(g) && es[k] == FsyncBegin(g)
    ensures j == k
  {
    assert Enabled(tr[j], es[j]) && Enabled(tr[k], es[k]);
    if j < k {
      RunFrame(tr, es, j + 1, k, g);
    } else if k < j {
      RunFrame(tr, es, k + 1, j, g);
    }
  }

  lemma FsyncStrictlyRaises(tr: seq<State>, es: seq<Event>, k: nat, g: nat)
    requires IsRun(tr, es) && k < |es| && es[k] == FsyncEnd(g)
    ensures Below(tr[k].syncLsn, tr[k + 1].syncLsn)
  {
    hide Inv;
    RunKeeps(tr, es, k);
    assert Enabled(tr[k], es[k]);
    StepRaises(tr[k], es[k]);
  }

  /** A sync of its own in progress that noted `l`. */
  predicate OwnSync(p: Phase, l: Lsn) {
    || p == Noted(true, l)
    || (p.Flushing? && p.noted == l)
    || (p.Flushed? && p.own && p.noted == l)
  }

  lemma OwnSyncStep(s: State, e: Event, b: nat, l: Lsn)
    requires Enabled(s, e) && b < |s.slots|
    requires OwnSync(s.slots[b].phase, l)
    ensures b < |Apply(s, e).slots|
    ensures Rank(Apply(s, e).slots[b].phase) <= 7 ==> OwnSync(Apply(s, e).slots[b].phase, l)
  {}

  lemma OwnSyncStarts(s: State, b: nat)
    requires Enabled(s, Note(b)) && s.slots[b].sync && Below(s.syncLsn, End(s.slots[b]))
    ensures OwnSync(Apply(s, Note(b)).slots[b].phase, s.writeLsn)
  {}

  /** From its note to its credit, `b`'s sync remembers the LSN it noted. */
  lemma {:induction false} NotedKept(tr: seq<State>, es: seq<Event>, n: nat, k: nat, b: nat)
    requires IsRun(tr, es) && n < k < |tr| && es[n] == Note(b) && b < |tr[n].slots|
    requires b < |tr[k].slots| && Rank(tr[k].slots[b].phase) <= 7
    requires tr[n].slots[b].sync && Below(tr[n].syncLsn, End(tr[n].slots[b]))
    ensures OwnSync(tr[k].slots[b].phase, tr[n].writeLsn)
    decreases k
  {
    hide Apply, Enabled;
    assert Enabled(tr[n], es[n]) && Enabled(tr[k - 1], es[k - 1]);
    if n + 1 == k {
      OwnSyncStarts(tr[n], b);
    } else {
      RunFrame(tr, es, n, k - 1, b);
      StepFrame(tr[k - 1], es[k - 1], b);
      NotedKept(tr, es, n, k - 1, b);
      OwnSyncStep(tr[k - 1], es[k - 1], b, tr[n].writeLsn);
    }
  }

  lemma CreditReaches(tr: seq<State>, es: seq<Event>, n: nat, e: nat, b: nat, c: nat)
    requires IsRun(tr, es) && n < e < |es| && es[n] == Note(b) && es[e] == Credit(b)
    requires b < c < |tr[n].slots| && c < |tr[e].slots|
    requires tr[n].slots[b].sync && Below(tr[n].syncLsn, End(tr[n].slots[b]))
    requires tr[n].slots[c].file == tr[n].slots[b].file
    requires AtMost(End(tr[n].slots[c]), tr[n].writeLsn) && !tr[n].slots[c].phase.Filling?
    requires FileId(tr[e]) == tr[n].slots[b].file
    ensures AtMost(End(tr[e].slots[c]), tr[e + 1].syncLsn)
  {
    hide Inv;
    assert Enabled(tr[n], es[n]) && Enabled(tr[e], es[e]);
    RunKeeps(tr, es, n);
    RunKeeps(tr, es, e);
    RunFrame(tr, es, n, e, b);
    RunFrame(tr, es, n, e, c);
    NotedKept(tr, es, n, e, b);
    SyncLsnNeverMovesBack(tr, es, n, e);
    HolderOf(tr[e], b);
    WriteBoundary(tr[n]);
    LaterEnds(tr[n], b, c);
  }

  lemma LaterEnds(s: State, b: nat, c: nat)
    requires Inv(s) && b < c < |s.slots| && !s.slots[c].phase.Filling?
    ensures Below(End(s.slots[b]), End(s.slots[c]))
  {
    hide FileInv, Boundary, DurableBelow, CloserInv, CommitInv, ReturnInv, Busy;
    assert AtMost(End(s.slots[b]), Start(s.slots[c]));
  }

  /** While `b` runs its sync no other slot can issue one. */
  lemma SyncExcludes(s: State, b: nat, c: nat)
    requires Inv(s) && b < |s.slots| && InLock(s.slots[b].phase) && c != b
    ensures !Enabled(s, FsyncBegin(c))
  {
    HolderOf(s, b);
    hide Inv;
    if Enabled(s, FsyncBegin(c)) {
      HolderOf(s, c);
    }
  }

  /** An own sync of `b` that has returned leaves `sync_lsn` past earlier slots. */
  lemma CreditPasses(tr: seq<State>, es: seq<Event>, n: nat, e: nat, b: nat, c: nat)
    requires IsRun(tr, es) && n < e < |es| && es[n] == Note(b) && es[e] == Credit(b)
    requires c < b < |tr[n].slots| && c < |tr[e].slots|
    requires tr[n].slots[b].sync && Below(tr[n].syncLsn, End(tr[n].slots[b]))
    ensures AtMost(End(tr[e].slots[c]), tr[e + 1].syncLsn)
  {
    hide Inv;
    assert Enabled(tr[n], es[n]) && Enabled(tr[e], es[e]);
    RunKeeps(tr, es, n);
    RunKeeps(tr, es, e);
    RunFrame(tr, es, n, e, b);
    NotedKept(tr, es, n, e, b);
    HolderOf(tr[e], b);
    LaterEnds(tr[e], c, b);
  }

  /** The situation of the grouping claim: at step `n` slot `b` notes `write_lsn`
      for a sync of its own, slot `c` of the same file is written by then, and the
      file is still current when the sync is credited at step `e`. */
  ghost predicate Covers(tr: seq<State>, es: seq<Event>, n: nat, e: nat, b: nat, c: nat) {
    && IsRun(tr, es) && n < e < |es| && es[n] == Note(b) && es[e] == Credit(b)
    && b < |tr[n].slots| && c < |tr[n].slots| && c != b
    && tr[n].slots[b].sync && Below(tr[n].syncLsn, End(tr[n].slots[b]))
    && tr[n].slots[c].file == tr[n].slots[b].file
    && AtMost(End(tr[n].slots[c]), tr[n].writeLsn) && !tr[n].slots[c].phase.Filling?
    && FileId(tr[e]) == tr[n].slots[b].file
  }

  /** A covered slot issues no `fsync` from the note on, and none in the whole run
      unless it is an earlier slot that had already synced. */
  lemma CoveredSlotNeverSyncs(tr: seq<State>, es: seq<Event>, n: nat, e: nat, b: nat, c: nat, k: nat)
    requires Covers(tr, es, n, e, b, c) && k < |es|
    ensures es[k] == FsyncBegin(c) ==> c < b && k < n
  {
    hide Inv, Enabled, Apply;
    assert Enabled(tr[n], es[n]) && Enabled(tr[e], es[e]) && Enabled(tr[k], es[k]);
    if es[k] == FsyncBegin(c) {
      RunKeeps(tr, es, k);
      if k <= n {
        if b < c {
          BeforeNote(tr, es, n, b, c, k);
        }
      } else if k <= e {
        NotedInLock(tr, es, n, k, e, b);
        SyncExcludes(tr[k], b, c);
      } else {
        RunFrame(tr, es, n, e, c);
        RunFrame(tr, es, e, k, c);
        if b < c {
          CreditReaches(tr, es, n, e, b, c);
        } else {
          CreditPasses(tr, es, n, e, b, c);
        }
        SyncLsnNeverMovesBack(tr, es, e + 1, k);
        NotYetCovered(tr[k], c);
      }
    }
  }

  lemma NotedInLock(tr: seq<State>, es: seq<Event>, n: nat, k: nat, e: nat, b: nat)
    requires IsRun(tr, es) && n < k <= e < |es| && es[n] == Note(b) && es[e] == Credit(b) && b < |tr[n].slots|
    requires tr[n].slots[b].sync
    ensures b < |tr[k].slots| && InLock(tr[k].slots[b].phase)
  {
    hide Inv;
    assert Enabled(tr[n], es[n]) && Enabled(tr[e], es[e]);
    RunFrame(tr, es, n + 1, k, b);
    RunFrame(tr, es, k, e, b);
  }

  lemma NotYetCovered(s: State, c: nat)
    requires Inv(s) && Enabled(s, FsyncBegin(c))
    ensures c < |s.slots| && Below(s.syncLsn, End(s.slots[c]))
  {
    hide Inv;
    HolderOf(s, c);
  }

  /** Had `c` synced earlier, `sync_lsn` would be past `b` and `b`'s sync not its
      own. */
  lemma BeforeNote(tr: seq<State>, es: seq<Event>, n: nat, b: nat, c: nat, k: nat)
    requires IsRun(tr, es) && k <= n < |es| && es[n] == Note(b) && es[k] == FsyncBegin(c)
    requires b < c < |tr[n].slots| && tr[n].slots[b].sync && !tr[n].slots[c].phase.Filling?
    ensures !Below(tr[n].syncLsn, End(tr[n].slots[b]))
  {
    hide Inv;
    assert Enabled(tr[n], es[n]) && Enabled(tr[k], es[k]);
    RunKeeps(tr, es, n);
    RunKeeps(tr, es, k);
    HolderOf(tr[k], c);
    if k < n {
      RunFrame(tr, es, k, n, c);
      RunFrame(tr, es, k + 1, n, c);
      HolderOf(tr[n], b);
      LaterEnds(tr[n], b, c);
      SyncedSlotDone(tr[n], b, c);
    } else {
      assert false;
    }
  }

  lemma SyncedSlotDone(s: State, b: nat, c: nat)
    requires Inv(s) && b < c < |s.slots| && s.lock == Some(b) && !s.panic
    requires Rank(s.slots[c].phase) >= 6 && s.slots[c].sync && c < s.advanced
    ensures AtMost(End(s.slots[c]), s.syncLsn)
  {
    hide Quiet, HolderInv;
  }

  // --- what `durable` stands for ------------------------------------------

  lemma DurableStep(s: State, e: Event, i: nat)
    requires Enabled(s, e) && i < |s.slots| && !s.slots[i].durable
    ensures i < |Apply(s, e).slots|
    ensures Apply(s, e).slots[i].durable ==>
      || (e.FsyncEnd? && e.g < |s.slots| && s.slots[e.g].phase.Flushing? && i in s.slots[e.g].phase.covers)
      || (e.CloseDone? && s.closer.Some? && i in s.closer.value)
  {}

  lemma NewSlotNotDurable(s: State, e: Event, i: nat)
    requires Enabled(s, e) && |s.slots| <= i < |Apply(s, e).slots|
    ensures !Apply(s, e).slots[i].durable && !Apply(s, e).slots[i].phase.Flushing?
  {}

  lemma FlushingStep(s: State, e: Event, g: nat)
    requires Enabled(s, e) && g < |s.slots|
    ensures g < |Apply(s, e).slots|
    ensures var p := Apply(s, e).slots[g].phase;
      p.Flushing? ==> p == s.slots[g].phase || (e == FsyncBegin(g) && p.covers == FsyncCovers(s, g))
  {}

  lemma CloserStep(s: State, e: Event)
    requires Enabled(s, e) && Apply(s, e).closer.Some?
    ensures Apply(s, e).closer == s.closer || (e.CloseFsync? && Apply(s, e).closer.value == FileSlots(s, s.closing))
  {}

  lemma {:induction false} FlushingSince(tr: seq<State>, es: seq<Event>, k: nat, g: nat) returns (b: nat)
    requires IsRun(tr, es) && k < |tr| && g < |tr[k].slots| && tr[k].slots[g].phase.Flushing?
    ensures b < k && es[b] == FsyncBegin(g) && g < |tr[b].slots|
    ensures tr[k].slots[g].phase.covers == FsyncCovers(tr[b], g)
  {
    hide Apply, Enabled;
    if k == 0 {
      assert false;
    } else {
      assert Enabled(tr[k - 1], es[k - 1]);
      if g >= |tr[k - 1].slots| {
        NewSlotNotDurable(tr[k - 1], es[k - 1], g);
      }
      FlushingStep(tr[k - 1], es[k - 1], g);
      if es[k - 1] == FsyncBegin(g) && tr[k].slots[g].phase.covers == FsyncCovers(tr[k - 1], g) {
        b := k - 1;
      } else {
        b := FlushingSince(tr, es, k - 1, g);
      }
    }
  }

  lemma {:induction false} ClosingSince(tr: seq<State>, es: seq<Event>, k: nat) returns (b: nat)
    requires IsRun(tr, es) && k < |tr| && tr[k].closer.Some?
    ensures b < k && es[b] == CloseFsync && tr[k].closer.value == FileSlots(tr[b], tr[b].closing)
  {
    hide Apply, Enabled;
    if k == 0 {
      assert false;
    } else {
      assert Enabled(tr[k - 1], es[k - 1]);
      CloserStep(tr[k - 1], es[k - 1]);
      if es[k - 1].CloseFsync? && tr[k].closer.value == FileSlots(tr[k - 1], tr[k - 1].closing) {
        b := k - 1;
      } else {
        b := ClosingSince(tr, es, k - 1);
      }
    }
  }

  /** A slot counts as durable only if some `fsync` that has completed began, at
      `b`, after the slot was written: either one of the loop (`g`'s), which
      covers the slot by the stock contract, or the closing thread's, which is
      of the slot's own file. */
  lemma {:induction false} DurableCameFromSync(tr: seq<State>, es: seq<Event>, k: nat, i: nat)
    returns (b: nat, e: nat, g: nat)
    requires IsRun(tr, es) && k < |tr| && i < |tr[k].slots| && tr[k].slots[i].durable
    ensures b < e < k && i < |tr[b].slots| && tr[b].slots[i].written
    ensures
      || (es[b] == FsyncBegin(g) && es[e] == FsyncEnd(g) && g < |tr[b].slots| && i in FsyncCovers(tr[b], g))
      || (es[b] == CloseFsync && es[e] == CloseDone && tr[b].slots[i].file == tr[b].closing)
  {
    hide Apply, Enabled;
    if k == 0 {
      assert false;
    } else {
      var s, ev := tr[k - 1], es[k - 1];
      assert Enabled(s, ev);
      if i < |s.slots| && s.slots[i].durable {
        b, e, g := DurableCameFromSync(tr, es, k - 1, i);
      } else {
        if i >= |s.slots| {
          NewSlotNotDurable(s, ev, i);
        }
        DurableStep(s, ev, i);
        e := k - 1;
        if ev.FsyncEnd? {
          g := ev.g;
          b := FlushingSince(tr, es, k - 1, g);
        } else {
          g := 0;
          b := ClosingSince(tr, es, k - 1);
        }
      }
    }
  }

  // --- the current-file test is needed ------------------------------------

  /** Two slots of file 0 are written; the first notes both, and the log moves to
      file 1 before its sync opens the current handle. */
  function SwitchDuringSync(): seq<Event> {
    [Join(10, true, false), CloseSlot, NewSlot(false, 10), Join(10, true, false), CloseSlot,
     Write(0), Write(1), Advance(0), Advance(1), TakeLock(0), Note(0),
     NewSlot(true, 0), FsyncBegin(0), FsyncEnd(0)]
  }

  function First(end: nat, phase: Phase, written: bool, durable: bool): Slot {
    Slot(0, 0, end, Lsn(0, 0), end > 0, false, written, durable, phase)
  }

  function Second(end: nat, phase: Phase, written: bool): Slot {
    Slot(0, 10, end, Lsn(0, 10), end > 10, false, written, false, phase)
  }

  function Third(): Slot {
    Slot(1, 0, 0, Lsn(0, 20), false, false, false, false, Filling)
  }

  /** The state before the `k`-th event of that run. */
  function Scene(k: nat): State
    requires k <= 14
  {
    var one := [Commit(0, 0, 10, Waiting)];
    var two := [Commit(0, 0, 10, Waiting), Commit(1, 10, 20, Waiting)];
    var z := Lsn(0, 0);
    match k
    case 0 => State([First(0, Filling, false, false)], [], 0, z, z, [], 0, None, None, false, 0)
    case 1 => State([First(10, Filling, false, false)], one, 0, z, z, [], 0, None, None, false, 0)
    case 2 => State([First(10, Writing, false, false)], one, 0, z, z, [], 0, None, None, false, 0)
    case 3 => State([First(10, Writing, false, false), Second(10, Filling, false)],
                    one, 0, z, z, [], 0, None, None, false, 0)
    case 4 => State([First(10, Writing, false, false), Second(20, Filling, false)],
                    two, 0, z, z, [], 0, None, None, false, 0)
    case 5 => State([First(10, Writing, false, false), Second(20, Writing, false)],
                    two, 0, z, z, [], 0, None, None, false, 0)
    case 6 => State([First(10, Written, true, false), Second(20, Writing, false)],
                    two, 0, z, z, [], 0, None, None, false, 0)
    case 7 => State([First(10, Written, true, false), Second(20, Written, true)],
                    two, 0, z, z, [], 0, None, None, false, 0)
    case 8 => State([First(10, Looping, true, false), Second(20, Written, true)],
                    two, 1, Lsn(0, 10), z, [], 0, None, None, false, 0)
    case 9 => State([First(10, Looping, true, false), Second(20, Looping, true)],
                    two, 2, Lsn(0, 20), z, [], 0, None, None, false, 0)
    case 10 => State([First(10, Locked, true, false), Second(20, Looping, true)],
                    two, 2, Lsn(0, 20), z, [], 0, None, Some(0), false, 0)
    case 11 => State([First(10, Noted(true, Lsn(0, 20)), true, false), Second(20, Looping, true)],
                     two, 2, Lsn(0, 20), z, [], 0, None, Some(0), false, 0)
    case 12 => State([First(10, Noted(true, Lsn(0, 20)), true, false), Second(20, Looping, true), Third()],
                     two, 2, Lsn(0, 20), z, [Lsn(0, 20)], 0, None, Some(0), false, 0)
    case 13 => State([First(10, Flushing(Lsn(0, 20), 1, {0}), true, false), Second(20, Looping, true), Third()],
                     two, 2, Lsn(0, 20), z, [Lsn(0, 20)], 0, None, Some(0), false, 0)
    case 14 => State([First(10, Flushed(true, Lsn(0, 20), 1), true, true), Second(20, Looping, true), Third()],
                     two, 2, Lsn(0, 20), Lsn(0, 10), [Lsn(0, 20)], 0, None, Some(0), false, 0)
  }

  lemma SceneFills(k: nat)
    requires k < 5
    ensures Enabled(Scene(k), SwitchDuringSync()[k]) && Apply(Scene(k), SwitchDuringSync()[k]) == Scene(k + 1)
  {}

  lemma SceneWrites(k: nat)
    requires 5 <= k < 9
    ensures Enabled(Scene(k), SwitchDuringSync()[k]) && Apply(Scene(k), SwitchDuringSync()[k]) == Scene(k + 1)
  {}

  lemma SceneSyncs(k: nat)
    requires 9 <= k < 12
    ensures Enabled(Scene(k), SwitchDuringSync()[k]) && Apply(Scene(k), SwitchDuringSync()[k]) == Scene(k + 1)
  {}

  lemma SceneBeginsFsync()
    ensures Enabled(Scene(12), FsyncBegin(0)) && Apply(Scene(12), FsyncBegin(0)) == Scene(13)
  {
    assert FsyncCovers(Scene(12), 0) == {0};
  }

  lemma SceneEndsFsync()
    ensures Enabled(Scene(13), FsyncEnd(0)) && Apply(Scene(13), FsyncEnd(0)) == Scene(14)
  {
    assert FlushedSlots(Scene(13).slots, 0) == Scene(14).slots;
  }

  /** Crediting the noted LSN although the log has left the file would let
      `sync_lsn` name bytes no `fsync` has covered. */
  lemma CurrentFileTestIsNeeded() returns (tr: seq<State>)
    ensures IsRun(tr, SwitchDuringSync())
    ensures var s := tr[|tr| - 1];
      && CanCredit(s, 0) && s.slots[0].phase.own
      && s.slots[0].phase.noted.file == s.slots[0].file
      && Below(End(s.slots[0]), s.slots[0].phase.noted) && s.syncLsn == End(s.slots[0])
      && FileId(s) != s.slots[0].file
      && LogByte(s, Lsn(0, 15)) && Below(Lsn(0, 15), s.slots[0].phase.noted) && !Synced(s, Lsn(0, 15))
  {
    tr := seq(15, k requires 0 <= k < 15 => Scene(k));
    assert Init(tr[0]);
    forall k | 0 <= k < 14
      ensures Enabled(tr[k], SwitchDuringSync()[k]) && tr[k + 1] == Apply(tr[k], SwitchDuringSync()[k])
    {
      hide Scene, Enabled, Apply;
      if k < 5 {
        SceneFills(k);
      } else if k < 9 {
        SceneWrites(k);
      } else if k < 12 {
        SceneSyncs(k);
      } else if k == 12 {
        SceneBeginsFsync();
      } else {
        SceneEndsFsync();
      }
    }
    assert Holds(tr[14].slots[1], Lsn(0, 15));
  }

  // --- an earlier slot may have synced already -----------------------------

  /** Slot 0 syncs; then slot 1, written later, makes a sync of its own. */
  function TwoSyncs(): seq<Event> {
    SwitchDuringSync()[..5] +
    [Write(0), Advance(0), TakeLock(0), Note(0), FsyncBegin(0), FsyncEnd(0), Credit(0),
     Write(1), Advance(1), TakeLock(1), Note(1), FsyncBegin(1), FsyncEnd(1), Credit(1)]
  }

  function Pair(a: Phase, synced: bool, b: Phase, written: bool, advanced: nat, syncLsn: Lsn,
                lock: Option<nat>): State {
    State([First(10, a, true, synced), Second(20, b, written)],
          [Commit(0, 0, 10, Waiting), Commit(1, 10, 20, Waiting)],
          advanced, Lsn(0, 10 * advanced), syncLsn, [], 0, None, lock, false, 0)
  }

  function SyncScene(k: nat): State
    requires k <= 18
  {
    var z, ten, twenty := Lsn(0, 0), Lsn(0, 10), Lsn(0, 20);
    if k <= 5 then Scene(k)
    else
      match k
      case 6 => Pair(Written, false, Writing, false, 0, z, None)
      case 7 => Pair(Looping, false, Writing, false, 1, z, None)
      case 8 => Pair(Locked, false, Writing, false, 1, z, Some(0))
      case 9 => Pair(Noted(true, ten), false, Writing, false, 1, z, Some(0))
      case 10 => Pair(Flushing(ten, 0, {0}), false, Writing, false, 1, z, Some(0))
      case 11 => Pair(Flushed(true, ten, 0), true, Writing, false, 1, ten, Some(0))
      case 12 => Pair(Done, true, Writing, false, 1, ten, None)
      case 13 => Pair(Done, true, Written, true, 1, ten, None)
      case 14 => Pair(Done, true, Looping, true, 2, ten, None)
      case 15 => Pair(Done, true, Locked, true, 2, ten, Some(1))
      case 16 => Pair(Done, true, Noted(true, twenty), true, 2, ten, Some(1))
      case 17 => Pair(Done, true, Flushing(twenty, 0, {0, 1}), true, 2, ten, Some(1))
      case _ =>
        var s := Pair(Done, true, Flushed(true, twenty, 0), true, 2, twenty, Some(1));
        s.(slots := s.slots[1 := s.slots[1].(durable := true)])
  }

  lemma SyncSceneFills(k: nat)
    requires k < 5
    ensures Enabled(SyncScene(k), TwoSyncs()[k]) && Apply(SyncScene(k), TwoSyncs()[k]) == SyncScene(k + 1)
  {
    hide Scene, Enabled, Apply;
    assert TwoSyncs()[k] == SwitchDuringSync()[k];
    SceneFills(k);
  }

  lemma SyncSceneFirst(k: nat)
    requires 5 <= k < 9
    ensures Enabled(SyncScene(k), TwoSyncs()[k]) && Apply(SyncScene(k), TwoSyncs()[k]) == SyncScene(k + 1)
  {}

  lemma SyncSceneBegins()
    ensures Enabled(SyncScene(9), FsyncBegin(0)) && Apply(SyncScene(9), FsyncBegin(0)) == SyncScene(10)
  {
    assert FsyncCovers(SyncScene(9), 0) == {0};
  }

  lemma SyncSceneEnds()
    ensures Enabled(SyncScene(10), FsyncEnd(0)) && Apply(SyncScene(10), FsyncEnd(0)) == SyncScene(11)
  {
    assert FlushedSlots(SyncScene(10).slots, 0) == SyncScene(11).slots;
  }

  lemma SyncSceneSecond(k: nat)
    requires 11 <= k < 16
    ensures Enabled(SyncScene(k), TwoSyncs()[k]) && Apply(SyncScene(k), TwoSyncs()[k]) == SyncScene(k + 1)
  {}

  lemma SyncSceneBeginsAgain()
    ensures Enabled(SyncScene(16), FsyncBegin(1)) && Apply(SyncScene(16), FsyncBegin(1)) == SyncScene(17)
  {
    assert FsyncCovers(SyncScene(16), 1) == {0, 1};
  }

  lemma SyncSceneEndsAgain()
    ensures Enabled(SyncScene(17), FsyncEnd(1)) && Apply(SyncScene(17), FsyncEnd(1)) == SyncScene(18)
  {
    assert FlushedSlots(SyncScene(17).slots, 1) == SyncScene(18).slots;
  }

  lemma SyncSceneCredits()
    ensures Enabled(SyncScene(18), Credit(1))
  {}

  /** A covered slot that is earlier than the syncing one may have synced before. */
  lemma EarlierSlotMayHaveSynced() returns (tr: seq<State>)
    ensures Covers(tr, TwoSyncs(), 15, 18, 1, 0) && TwoSyncs()[9] == FsyncBegin(0)
  {
    hide Enabled, Apply;
    SyncSceneCredits();
    tr := seq(19, k requires 0 <= k < 19 => SyncScene(k)) + [Apply(SyncScene(18), Credit(1))];
    assert Init(tr[0]);
    forall k | 0 <= k < 19
      ensures Enabled(tr[k], TwoSyncs()[k]) && tr[k + 1] == Apply(tr[k], TwoSyncs()[k])
    {
      hide SyncScene;
      if k < 5 {
        SyncSceneFills(k);
      } else if k < 9 {
        SyncSceneFirst(k);
      } else if k < 11 {
        SyncSceneBegins();
        SyncSceneEnds();
      } else if k < 16 {
        SyncSceneSecond(k);
      } else {
        SyncSceneBeginsAgain();
        SyncSceneEndsAgain();
      }
    }
  }
}
