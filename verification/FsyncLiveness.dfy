/** The fsync log never sticks: without failures, however its threads are scheduled,
    every waiting commit returns within a bounded number of events. */
module FsyncLiveness {
  import opened Optional
  import opened Lsns
  import opened FsyncLog
  import opened FsyncInvariant
  import opened FsyncTheorems

  /** Events that neither bring new work nor fail. */
  predicate Steady(e: Event) {
    !e.Join? && !e.NewSlot? && !e.WriteFail? && !e.FsyncFail? && !e.ReturnError?
  }

  /** `es` can happen from `s`, ending in `t`. */
  ghost predicate Path(s: State, es: seq<Event>, t: State)
    decreases |es|
  {
    if es == [] then s == t
    else Enabled(s, es[0]) && Steady(es[0]) && Path(Apply(s, es[0]), es[1..], t)
  }

  ghost predicate NoFailure(s: State) {
    !s.panic && forall g :: 0 <= g < |s.slots| ==> !s.slots[g].phase.Failed?
  }

  // --- two more facts that every run keeps --------------------------------

  /** A tracked commit's slot is to be synced, and a file's recorded end is in that
      file. */
  ghost predicate Tracked(s: State) {
    && (forall c :: 0 <= c < |s.commits| && s.commits[c].slot < |s.slots| ==> s.slots[s.commits[c].slot].sync)
    && (forall k :: 0 <= k < |s.fileEnds| ==> s.fileEnds[k].file == k)
  }

  /** What most events leave alone: which slots are to be synced, which have
      failed, the commits, and the recorded ends of files. */
  ghost predicate SameWork(s: State, t: State) {
    && |t.slots| == |s.slots| && t.commits == s.commits && t.fileEnds == s.fileEnds && t.panic == s.panic
    && forall i :: 0 <= i < |s.slots| ==>
         t.slots[i].sync == s.slots[i].sync && (t.slots[i].phase.Failed? <==> s.slots[i].phase.Failed?)
  }

  lemma LoopKeepsWork(s: State, e: Event)
    requires Enabled(s, e)
    requires e.LeaveCovered? || e.TakeLock? || e.Note? || e.SkipFsync? || e.FsyncBegin? || e.Credit?
    ensures SameWork(s, Apply(s, e))
  {}

  lemma SlotKeepsWork(s: State, e: Event)
    requires Enabled(s, e) && (e.CloseSlot? || e.Write? || e.Advance?)
    ensures SameWork(s, Apply(s, e))
  {}

  lemma SyncKeepsWork(s: State, e: Event)
    requires Enabled(s, e) && (e.FsyncEnd? || e.CloseFsync? || e.CloseDone?)
    ensures SameWork(s, Apply(s, e))
  {}

  lemma KeepsWork(s: State, e: Event)
    requires Enabled(s, e) && Steady(e) && !e.ReturnOk?
    ensures SameWork(s, Apply(s, e))
  {
    hide Enabled, Apply, SameWork;
    match e
    case LeaveCovered(_) => LoopKeepsWork(s, e);
    case TakeLock(_) => LoopKeepsWork(s, e);
    case Note(_) => LoopKeepsWork(s, e);
    case SkipFsync(_) => LoopKeepsWork(s, e);
    case FsyncBegin(_) => LoopKeepsWork(s, e);
    case Credit(_) => LoopKeepsWork(s, e);
    case CloseSlot => SlotKeepsWork(s, e);
    case Write(_) => SlotKeepsWork(s, e);
    case Advance(_) => SlotKeepsWork(s, e);
    case FsyncEnd(_) => SyncKeepsWork(s, e);
    case CloseFsync => SyncKeepsWork(s, e);
    case CloseDone => SyncKeepsWork(s, e);
  }

  /** A return, good or bad, changes one commit's status. */
  lemma ReturnKeepsWork(s: State, e: Event)
    requires Enabled(s, e) && (e.ReturnOk? || e.ReturnError?) && Tracked(s)
    ensures var t := Apply(s, e); Tracked(t) && t.slots == s.slots && t.panic == s.panic && |t.commits| == |s.commits|
    ensures e.ReturnOk? ==> forall c :: 0 <= c < |s.commits| && !s.commits[c].status.ReturnedError? ==>
      !Apply(s, e).commits[c].status.ReturnedError?
  {}

  lemma FailureTracks(s: State, e: Event)
    requires Enabled(s, e) && (e.WriteFail? || e.FsyncFail?) && Tracked(s)
    ensures Tracked(Apply(s, e))
  {}

  lemma NewWorkTracks(s: State, e: Event)
    requires Enabled(s, e) && (e.Join? || e.NewSlot?) && Tracked(s)
    requires |s.slots| > 0 && Last(s).file == FileId(s)
    requires forall c :: 0 <= c < |s.commits| ==> s.commits[c].slot < |s.slots|
    ensures Tracked(Apply(s, e))
  {}

  lemma StepTracks(s: State, e: Event)
    requires Inv(s) && Enabled(s, e) && Tracked(s)
    ensures Tracked(Apply(s, e))
  {
    CommitsPlaced(s);
    hide Inv, Enabled, Apply;
    if e.Join? || e.NewSlot? {
      NewWorkTracks(s, e);
    } else if e.WriteFail? || e.FsyncFail? {
      FailureTracks(s, e);
    } else if e.ReturnOk? || e.ReturnError? {
      ReturnKeepsWork(s, e);
    } else {
      KeepsWork(s, e);
    }
  }

  lemma CommitsPlaced(s: State)
    requires Inv(s)
    ensures |s.slots| > 0 && Last(s).file == FileId(s)
    ensures forall c :: 0 <= c < |s.commits| ==> s.commits[c].slot < |s.slots|
  {}

  lemma {:induction false} RunTracks(tr: seq<State>, es: seq<Event>, k: nat)
    requires IsRun(tr, es) && k < |tr|
    ensures Tracked(tr[k])
  {
    hide Inv, Apply, Enabled;
    if k > 0 {
      RunTracks(tr, es, k - 1);
      RunKeeps(tr, es, k - 1);
      assert Enabled(tr[k - 1], es[k - 1]);
      StepTracks(tr[k - 1], es[k - 1]);
    }
  }

  // --- a measure that every steady event lowers ---------------------------

  function PhaseRank(sl: Slot): nat {
    match sl.phase
    case Filling => if sl.start < sl.end then 10 else 0
    case Writing => 9
    case Written => 8
    case Looping => 7
    case Locked => 6
    case Noted(_, _) => 5
    case Flushing(_, _, _) => 4
    case Flushed(_, _, _) => 3
    case Done => 0
    case Failed => 0
  }

  function SlotsRank(slots: seq<Slot>): nat {
    if slots == [] then 0 else SlotsRank(slots[..|slots| - 1]) + PhaseRank(slots[|slots| - 1])
  }

  function Waits(c: Commit): nat { if c.status.Waiting? then 1 else 0 }

  function CommitsRank(commits: seq<Commit>): nat {
    if commits == [] then 0 else CommitsRank(commits[..|commits| - 1]) + Waits(commits[|commits| - 1])
  }

  /** Work left for the closing thread. */
  function CloserRank(fileId: nat, closing: nat, closer: Option<set<nat>>): int {
    2 * (fileId - closing) - if closer.Some? then 1 else 0
  }

  function Rank(s: State): int {
    SlotsRank(s.slots) + CommitsRank(s.commits) + CloserRank(FileId(s), s.closing, s.closer)
  }

  lemma {:induction false} SlotsRankUpdate(slots: seq<Slot>, g: nat, sl: Slot)
    requires g < |slots|
    ensures SlotsRank(slots[g := sl]) == SlotsRank(slots) - PhaseRank(slots[g]) + PhaseRank(sl)
  {
    hide PhaseRank;
    var last := |slots| - 1;
    if g == last {
      assert slots[g := sl][..last] == slots[..last];
    } else {
      assert slots[g := sl][..last] == slots[..last][g := sl];
      SlotsRankUpdate(slots[..last], g, sl);
    }
  }

  lemma {:induction false} CommitsRankUpdate(commits: seq<Commit>, c: nat, cm: Commit)
    requires c < |commits|
    ensures CommitsRank(commits[c := cm]) == CommitsRank(commits) - Waits(commits[c]) + Waits(cm)
  {
    hide Waits;
    var last := |commits| - 1;
    if c == last {
      assert commits[c := cm][..last] == commits[..last];
    } else {
      assert commits[c := cm][..last] == commits[..last][c := cm];
      CommitsRankUpdate(commits[..last], c, cm);
    }
  }

  lemma {:induction false} MarkedRank(slots: seq<Slot>, covers: set<nat>)
    ensures SlotsRank(MarkDurable(slots, covers)) == SlotsRank(slots)
  {
    if slots != [] {
      var last := |slots| - 1;
      MarkedRank(slots[..last], covers);
      var r := MarkDurable(slots, covers);
      assert r[..last] == MarkDurable(slots[..last], covers);
    }
  }

  /** A step that changes one slot's phase. */
  lemma PhaseLowers(s: State, t: State, g: nat)
    requires g < |s.slots| && |t.slots| == |s.slots| && t.slots == s.slots[g := t.slots[g]]
    requires PhaseRank(t.slots[g]) < PhaseRank(s.slots[g])
    requires t.commits == s.commits && t.fileEnds == s.fileEnds && t.closing == s.closing && t.closer == s.closer
    ensures Rank(t) < Rank(s)
  {
    hide PhaseRank, SlotsRank, CommitsRank;
    SlotsRankUpdate(s.slots, g, t.slots[g]);
  }

  lemma FsyncEndLowers(s: State, g: nat)
    requires CanFsyncEnd(s, g)
    ensures Rank(DoFsyncEnd(s, g)) < Rank(s)
  {
    hide SlotsRank, CommitsRank;
    var p := s.slots[g].phase;
    var marked := MarkDurable(s.slots, p.covers);
    MarkedRank(s.slots, p.covers);
    SlotsRankUpdate(marked, g, marked[g].(phase := Flushed(true, p.noted, p.handle)));
  }

  lemma CloserLowers(s: State)
    ensures CanCloseFsync(s) ==> Rank(DoCloseFsync(s)) < Rank(s)
    ensures CanCloseDone(s) ==> Rank(DoCloseDone(s)) < Rank(s)
  {
    hide SlotsRank, CommitsRank;
    if CanCloseDone(s) {
      MarkedRank(s.slots, s.closer.value);
    }
  }

  lemma ReturnLowers(s: State, c: nat)
    requires CanReturnOk(s, c)
    ensures Rank(DoReturnOk(s, c)) < Rank(s)
  {
    hide SlotsRank, CommitsRank;
    CommitsRankUpdate(s.commits, c, s.commits[c].(status := ReturnedOk));
  }

  /** Every steady event lowers the measure. */
  lemma SteadyLowers(s: State, e: Event)
    requires Enabled(s, e) && Steady(e)
    ensures Rank(Apply(s, e)) < Rank(s)
  {
    hide SlotsRank, CommitsRank, Rank;
    match e
    case CloseSlot => PhaseLowers(s, DoCloseSlot(s), |s.slots| - 1);
    case Write(g) => PhaseLowers(s, DoWrite(s, g), g);
    case Advance(g) => PhaseLowers(s, DoAdvance(s, g), g);
    case LeaveCovered(g) => PhaseLowers(s, DoLeave(s, g), g);
    case TakeLock(g) => PhaseLowers(s, DoTakeLock(s, g), g);
    case Note(g) => PhaseLowers(s, DoNote(s, g), g);
    case SkipFsync(g) => PhaseLowers(s, DoSkip(s, g), g);
    case FsyncBegin(g) => PhaseLowers(s, DoFsync(s, g), g);
    case FsyncEnd(g) => FsyncEndLowers(s, g);
    case Credit(g) => PhaseLowers(s, DoCredit(s, g), g);
    case CloseFsync => CloserLowers(s);
    case CloseDone => CloserLowers(s);
    case ReturnOk(c) => ReturnLowers(s, c);
  }

  // --- a waiting commit always has a steady event to wait for -------------

  /** `c` waits, in a state of the invariant without failures. */
  ghost predicate Pending(s: State, c: nat) {
    Inv(s) && Tracked(s) && NoFailure(s) && c < |s.commits| && s.commits[c].status.Waiting?
  }

  lemma HolderCanStep(s: State) returns (e: Event)
    requires Inv(s) && NoFailure(s) && s.lock.Some?
    ensures Enabled(s, e) && Steady(e)
  {
    hide Inv;
    var h := s.lock.value;
    HolderIsInLoop(s);
    match s.slots[h].phase
    case Locked => e := Note(h);
    case Noted(own, _) => e := if own then FsyncBegin(h) else SkipFsync(h);
    case Flushing(_, _, _) => e := FsyncEnd(h);
    case Flushed(_, _, _) => e := Credit(h);
  }

  lemma HolderIsInLoop(s: State)
    requires Inv(s) && s.lock.Some?
    ensures s.lock.value < |s.slots| && InLock(s.slots[s.lock.value].phase)
  {
    hide Quiet, WriteInv, DoneInv, HolderInv, PanicInv;
  }

  lemma NextCanStep(s: State, g: nat) returns (e: Event)
    requires Inv(s) && NoFailure(s) && g < |s.slots| && s.advanced <= g && s.slots[g].start < s.slots[g].end
    ensures Enabled(s, e) && Steady(e)
  {
    hide Inv;
    var i := s.advanced;
    NextSlot(s, g);
    match s.slots[i].phase
    case Filling => e := CloseSlot;
    case Writing => e := Write(i);
    case Written => e := Advance(i);
  }

  /** The first slot `write_lsn` has not passed. */
  lemma NextSlot(s: State, g: nat)
    requires Inv(s) && NoFailure(s) && g < |s.slots| && s.advanced <= g
    ensures BeforeAdvance(s.slots[s.advanced].phase) && s.writeLsn == s.slots[s.advanced].release
    ensures s.slots[s.advanced].phase.Filling? ==> g == s.advanced == |s.slots| - 1
  {
    hide FileInv, Boundary, DurableBelow, CloserInv, CommitInv, ReturnInv, DoneInv, LockInv, HolderInv, PanicInv;
  }

  /** A slot that `write_lsn` has passed and that is not synced is in the loop. */
  lemma PassedSlot(s: State, g: nat)
    requires Inv(s) && NoFailure(s) && g < s.advanced && s.lock.None? && g < |s.slots| && s.slots[g].sync
    ensures s.slots[g].phase.Looping? || AtMost(End(s.slots[g]), s.syncLsn)
  {
    hide Quiet, HolderInv;
  }

  /** A slot that waits for `sync_lsn` to reach its file: the closing thread can
      sync the file in the way. */
  lemma CloserCanStep(s: State, g: nat)
    requires Inv(s) && Tracked(s) && g < s.advanced && s.closer.None? && g < |s.slots|
    requires s.syncLsn.file < s.slots[g].file
    ensures CanCloseFsync(s)
  {
    WrittenFile(s, g);
    hide Busy, Layout, Boundary, DurableBelow, CloserInv, CommitInv, ReturnInv;
    assert s.slots[g].file <= FileId(s);
  }

  lemma WrittenFile(s: State, g: nat)
    requires Inv(s) && g < s.advanced && g < |s.slots|
    ensures s.slots[g].file <= s.writeLsn.file && s.slots[g].file <= FileId(s)
  {
    hide Boundary, DurableBelow, CloserInv, CommitInv, ReturnInv, DoneInv, LockInv, HolderInv, PanicInv;
    var last := s.advanced - 1;
    if g < last {
      assert AtMost(End(s.slots[g]), Start(s.slots[last]));
    }
    if g < |s.slots| - 1 {
      assert AtMost(End(s.slots[g]), Start(s.slots[|s.slots| - 1]));
    }
  }

  lemma CommitFacts(s: State, c: nat)
    requires Inv(s) && c < |s.commits|
    ensures var cm := s.commits[c]; cm.slot < |s.slots| && s.slots[cm.slot].start < s.slots[cm.slot].end
    ensures var cm := s.commits[c]; AtMost(End(s.slots[cm.slot]), s.syncLsn) ==> Below(RecordLsn(s, c), s.syncLsn)
  {
    hide Busy, FileInv, Boundary, DurableBelow, CloserInv, ReturnInv, Layout;
  }

  /** While a commit waits, some steady event can happen. */
  lemma Progress(s: State, c: nat) returns (e: Event)
    requires Pending(s, c)
    ensures Enabled(s, e) && Steady(e)
  {
    hide Inv;
    CommitFacts(s, c);
    var g := s.commits[c].slot;
    if Below(RecordLsn(s, c), s.syncLsn) {
      e := ReturnOk(c);
    } else if s.lock.Some? {
      e := HolderCanStep(s);
    } else if s.closer.Some? {
      e := CloseDone;
    } else if s.advanced <= g {
      e := NextCanStep(s, g);
    } else {
      PassedSlot(s, g);
      if s.slots[g].file <= s.syncLsn.file {
        e := TakeLock(g);
      } else {
        CloserCanStep(s, g);
        e := CloseFsync;
      }
    }
  }

  // --- so every schedule brings every commit to its return ----------------

  lemma RankNotNegative(s: State)
    requires Inv(s)
    ensures Rank(s) >= 0
  {
    hide SlotsRank, CommitsRank, Busy, Layout, FileInv, Boundary, DurableBelow, CommitInv, ReturnInv;
  }

  lemma SteadyKeeps(s: State, e: Event)
    requires Inv(s) && Tracked(s) && NoFailure(s) && Enabled(s, e) && Steady(e)
    ensures var t := Apply(s, e); Inv(t) && Tracked(t) && NoFailure(t) && |t.commits| == |s.commits|
    ensures forall c :: 0 <= c < |s.commits| && !s.commits[c].status.ReturnedError? ==>
      !Apply(s, e).commits[c].status.ReturnedError?
  {
    hide Inv, Tracked, Enabled, Apply;
    StepKeeps(s, e);
    StepTracks(s, e);
    if e.ReturnOk? {
      ReturnKeepsWork(s, e);
    } else {
      KeepsWork(s, e);
    }
  }

  /** However the threads are scheduled, no more steady events can follow than the
      measure says. */
  lemma {:induction false} PathIsBounded(s: State, es: seq<Event>, t: State)
    requires Inv(s) && Tracked(s) && NoFailure(s) && Path(s, es, t)
    ensures Inv(t) && Tracked(t) && NoFailure(t) && |t.commits| == |s.commits|
    ensures forall c :: 0 <= c < |s.commits| && !s.commits[c].status.ReturnedError? ==>
      !t.commits[c].status.ReturnedError?
    ensures |es| <= Rank(s) - Rank(t) && Rank(t) >= 0
    decreases |es|
  {
    hide Inv, Tracked, NoFailure, Enabled, Apply, Rank;
    if es == [] {
      RankNotNegative(t);
    } else {
      SteadyKeeps(s, es[0]);
      SteadyLowers(s, es[0]);
      PathIsBounded(Apply(s, es[0]), es[1..], t);
    }
  }

  /** No steady event can happen any more. */
  ghost predicate Quiescent(t: State) { forall e :: Steady(e) ==> !Enabled(t, e) }

  /** Every commit of `s` that had not returned an error has returned in `t`. */
  ghost predicate AllReturned(s: State, t: State) {
    && |t.commits| == |s.commits|
    && forall c :: 0 <= c < |t.commits| && !s.commits[c].status.ReturnedError? ==> t.commits[c].status.ReturnedOk?
  }

  /** From every state of every run without panic or failed slot: steady events
      cannot go on for ever, and when none is left every commit that had not
      returned an error has returned. */
  lemma NeverSticks(tr: seq<State>, es: seq<Event>, k: nat, path: seq<Event>, t: State)
    requires IsRun(tr, es) && k < |tr| && NoFailure(tr[k]) && Path(tr[k], path, t)
    ensures |path| <= Rank(tr[k])
    ensures Quiescent(t) ==> AllReturned(tr[k], t)
  {
    hide Inv, Tracked, NoFailure, Enabled, Apply, Rank;
    RunKeeps(tr, es, k);
    RunTracks(tr, es, k);
    PathIsBounded(tr[k], path, t);
    if Quiescent(t) {
      forall c | 0 <= c < |t.commits| && !tr[k].commits[c].status.ReturnedError?
        ensures t.commits[c].status.ReturnedOk?
      {
        if t.commits[c].status.Waiting? {
          var e := Progress(t, c);
        }
      }
    }
  }

  /** In particular a path that brings every commit to its return exists. */
  lemma {:induction false} CanReturn(s: State) returns (path: seq<Event>, t: State)
    requires Inv(s) && Tracked(s) && NoFailure(s)
    ensures Path(s, path, t) && forall c :: 0 <= c < |t.commits| ==> !t.commits[c].status.Waiting?
    decreases Rank(s)
  {
    hide Inv, Tracked, NoFailure, Enabled, Apply, Rank;
    RankNotNegative(s);
    if c: nat :| c < |s.commits| && s.commits[c].status.Waiting? {
      var e := Progress(s, c);
      SteadyKeeps(s, e);
      SteadyLowers(s, e);
      RankNotNegative(Apply(s, e));
      var rest, end := CanReturn(Apply(s, e));
      path, t := [e] + rest, end;
      assert path[1..] == rest;
    } else {
      path, t := [], s;
    }
  }
}
