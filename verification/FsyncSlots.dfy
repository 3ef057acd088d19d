/** What a slot's flags and its committers' records mean under `method=fsync`. */
module FsyncSlots {
  import opened Optional
  import opened Lsns
  import opened FsyncLog
  import opened FsyncInvariant
  import opened FsyncTheorems

  // --- joining ------------------------------------------------------------

  /** `p` is a byte of commit `c`'s record. */
  ghost predicate InRecord(s: State, c: nat, p: Lsn)
    requires c < |s.commits|
  {
    var cm := s.commits[c];
    cm.slot < |s.slots| && p.file == s.slots[cm.slot].file && cm.lo <= p.offset < cm.hi
  }

  /** A synced join adds the committer's record, all its bytes and no others, to the
      active slot, and the slot now asks for what any of its joins asked for. */
  lemma JoinAddsRecord(tr: seq<State>, es: seq<Event>, k: nat)
    requires IsRun(tr, es) && k < |es| && es[k].Join?
    ensures var s, t, c := tr[k], tr[k + 1], |tr[k].commits|;
      && |t.slots| == |s.slots| > 0 && (Last(t).sync <==> Last(s).sync || es[k].sync)
      && (Last(t).dir <==> Last(s).dir || es[k].dir)
      && (es[k].sync ==>
            && |t.commits| == c + 1 && t.commits[c].slot == |s.slots| - 1 && t.commits[c].status.Waiting?
            && t.commits[c].hi - t.commits[c].lo == es[k].size > 0
            && forall p :: LogByte(t, p) <==> LogByte(s, p) || InRecord(t, c, p))
  {
    hide Inv;
    assert Enabled(tr[k], es[k]);
    var s, t := tr[k], tr[k + 1];
    RunKeeps(tr, es, k);
    StartsBeforeEnd(s);
    var g := |s.slots| - 1;
    if es[k].sync {
      forall p
        ensures LogByte(t, p) <==> LogByte(s, p) || InRecord(t, |s.commits|, p)
      {
        if i :| 0 <= i < |s.slots| && Holds(s.slots[i], p) {
          assert Holds(t.slots[i], p);
        }
        if i :| 0 <= i < |t.slots| && Holds(t.slots[i], p) {
          assert i < g ==> Holds(s.slots[i], p);
          assert i == g ==> Holds(s.slots[g], p) || p.offset >= s.slots[g].end;
        }
        if InRecord(t, |s.commits|, p) {
          assert Holds(t.slots[g], p);
        }
      }
    }
  }

  lemma StartsBeforeEnd(s: State)
    requires Inv(s)
    ensures |s.slots| > 0 && Last(s).start <= Last(s).end
  {
    hide WriteInv, FileInv, DoneInv, LockInv, HolderInv, CloserInv, CommitInv, ReturnInv, PanicInv, Boundary;
  }

  // --- the directory flag ---------------------------------------------------

  predicate PastDirSync(p: Phase) { p.Noted? || p.Flushing? || p.Flushed? || p.Done? }

  /** A slot with the directory flag is past the sync of the directory only when that
      sync has covered its file. */
  ghost predicate DirInv(s: State) {
    forall g :: 0 <= g < |s.slots| && s.slots[g].dir && PastDirSync(s.slots[g].phase) ==> s.slots[g].file <= s.syncDir
  }

  lemma DirStep(s: State, e: Event)
    requires Enabled(s, e) && DirInv(s)
    ensures DirInv(Apply(s, e)) && s.syncDir <= Apply(s, e).syncDir
  {}

  lemma {:induction false} DirKept(tr: seq<State>, es: seq<Event>, k: nat)
    requires IsRun(tr, es) && k < |tr|
    ensures DirInv(tr[k])
  {
    hide Enabled, Apply;
    if k > 0 {
      DirKept(tr, es, k - 1);
      assert Enabled(tr[k - 1], es[k - 1]);
      DirStep(tr[k - 1], es[k - 1]);
    }
  }

  lemma FlagStep(s: State, e: Event, g: nat)
    requires Enabled(s, e) && g < |s.slots|
    ensures g < |Apply(s, e).slots| && Apply(s, e).slots[g].file == s.slots[g].file
    ensures s.slots[g].dir ==> Apply(s, e).slots[g].dir
  {}

  lemma {:induction false} FlagKept(tr: seq<State>, es: seq<Event>, j: nat, k: nat, g: nat)
    requires IsRun(tr, es) && j <= k < |tr| && g < |tr[j].slots| && tr[j].slots[g].dir
    ensures g < |tr[k].slots| && tr[k].slots[g].dir && tr[k].slots[g].file == tr[j].slots[g].file
    decreases k - j
  {
    hide Enabled, Apply;
    if j < k {
      FlagKept(tr, es, j, k - 1, g);
      assert Enabled(tr[k - 1], es[k - 1]);
      FlagStep(tr[k - 1], es[k - 1], g);
    }
  }

  /** Once a join has asked for the directory, its slot is done only after the log
      directory was synced up to the slot's file. */
  lemma DirectoryComesFirst(tr: seq<State>, es: seq<Event>, j: nat, k: nat)
    requires IsRun(tr, es) && j < k < |tr| && es[j].Join? && es[j].dir
    ensures var g := |tr[j].slots| - 1;
      && 0 <= g < |tr[k].slots|
      && (tr[k].slots[g].phase.Done? || tr[k].slots[g].phase.Flushed? ==> tr[k].slots[g].file <= tr[k].syncDir)
  {
    hide Apply;
    JoinAddsRecord(tr, es, j);
    FlagKept(tr, es, j + 1, k, |tr[j].slots| - 1);
    DirKept(tr, es, k);
  }

  /** Only the releasing thread of a slot that asks for it syncs the directory. */
  lemma DirSyncIsAsked(tr: seq<State>, es: seq<Event>, k: nat) returns (g: nat)
    requires IsRun(tr, es) && k < |es| && tr[k + 1].syncDir != tr[k].syncDir
    ensures g < |tr[k].slots| && tr[k].lock == Some(g) && tr[k].slots[g].dir
    ensures tr[k].syncDir < tr[k].slots[g].file == tr[k + 1].syncDir
  {
    hide Inv;
    assert Enabled(tr[k], es[k]);
    RunKeeps(tr, es, k);
    DirMover(tr[k], es[k]);
    g := es[k].g;
    HolderHasLock(tr[k], g);
  }

  lemma DirMover(s: State, e: Event)
    requires Enabled(s, e) && Apply(s, e).syncDir != s.syncDir
    ensures e.Note? && s.slots[e.g].phase.Locked? && s.slots[e.g].dir
    ensures s.syncDir < s.slots[e.g].file == Apply(s, e).syncDir
  {}

  lemma HolderHasLock(s: State, g: nat)
    requires Inv(s) && g < |s.slots| && s.slots[g].phase.Locked?
    ensures s.lock == Some(g)
  {
    hide WriteInv, FileInv, DoneInv, HolderInv, CloserInv, CommitInv, ReturnInv, PanicInv, Boundary, Layout;
  }

  // --- slots that ask for nothing -------------------------------------------

  predicate InLoop(p: Phase) { p.Looping? || InLock(p) }

  ghost predicate LoopInv(s: State) {
    forall g :: 0 <= g < |s.slots| && InLoop(s.slots[g].phase) ==> s.slots[g].sync || s.slots[g].dir
  }

  lemma LoopStep(s: State, e: Event)
    requires Enabled(s, e) && LoopInv(s)
    ensures LoopInv(Apply(s, e))
  {}

  /** A slot that asks for no sync is done once written: it never enters the loop, and
      so never waits for the lock. */
  lemma {:induction false} NoFlagNoLoop(tr: seq<State>, es: seq<Event>, k: nat)
    requires IsRun(tr, es) && k < |tr|
    ensures LoopInv(tr[k])
  {
    hide Enabled, Apply;
    if k > 0 {
      NoFlagNoLoop(tr, es, k - 1);
      assert Enabled(tr[k - 1], es[k - 1]);
      LoopStep(tr[k - 1], es[k - 1]);
    }
  }

  // --- how a commit ends --------------------------------------------------

  /** A commit returns without error only if `sync_lsn` has passed its record's start
      and its slot has not failed; with an error only if the slot failed or a sync did. */
  lemma ReturnsMean(tr: seq<State>, es: seq<Event>, k: nat, c: nat)
    requires IsRun(tr, es) && k < |es| && c < |tr[k].commits| && c < |tr[k + 1].commits|
    requires tr[k].commits[c].status.Waiting? && !tr[k + 1].commits[c].status.Waiting?
    ensures tr[k].commits[c].slot < |tr[k].slots|
    ensures tr[k + 1].commits[c].status.ReturnedOk? ==>
      Below(RecordLsn(tr[k], c), tr[k].syncLsn) && !tr[k].slots[tr[k].commits[c].slot].phase.Failed? && !tr[k].panic
    ensures tr[k + 1].commits[c].status.ReturnedError? ==>
      tr[k].panic || tr[k].slots[tr[k].commits[c].slot].phase.Failed?
  {
    assert Enabled(tr[k], es[k]);
    ReturnMover(tr[k], es[k], c);
  }

  lemma ReturnMover(s: State, e: Event, c: nat)
    requires Enabled(s, e) && c < |s.commits|
    ensures c < |Apply(s, e).commits|
    ensures Apply(s, e).commits[c].status != s.commits[c].status ==> e == ReturnOk(c) || e == ReturnError(c)
  {}

  /** A failed step leaves its error behind and moves no LSN. */
  lemma FailureShows(tr: seq<State>, es: seq<Event>, k: nat)
    requires IsRun(tr, es) && k < |es| && (es[k].WriteFail? || es[k].FsyncFail?)
    ensures es[k].g < |tr[k + 1].slots| && tr[k + 1].slots[es[k].g].phase.Failed?
    ensures tr[k + 1].writeLsn == tr[k].writeLsn && tr[k + 1].syncLsn == tr[k].syncLsn
    ensures tr[k + 1].panic <==> es[k].FsyncFail?
  {
    assert Enabled(tr[k], es[k]);
  }

  // --- which credit tests decide --------------------------------------------

  /** Of the five tests before the credit, two follow from the others in every
      reachable state: the noted LSN is then in the slot's file, and `sync_lsn` still at
      the slot's end. */
  lemma CreditDecidedByThree(tr: seq<State>, es: seq<Event>, k: nat, g: nat)
    requires IsRun(tr, es) && k < |tr| && CanCredit(tr[k], g)
    ensures var s := tr[k]; var sl := s.slots[g];
      MayCredit(s, g) <==> sl.phase.own && Below(End(sl), sl.phase.noted) && FileId(s) == sl.file
  {
    hide Inv, Quiet;
    RunKeeps(tr, es, k);
    HolderHolds(tr[k], g);
  }

  lemma HolderHolds(s: State, g: nat)
    requires Inv(s) && CanCredit(s, g)
    ensures s.slots[g].phase.own ==> s.syncLsn == End(s.slots[g]) && s.slots[g].phase.noted.file <= FileId(s)
  {
    hide Quiet, WriteInv, DoneInv, PanicInv, Boundary, DurableIn;
    assert InLock(s.slots[g].phase);
  }
}
