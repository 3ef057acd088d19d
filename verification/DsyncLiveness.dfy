/** The dsync log never sticks: from every reachable state without a slot error, a
    commit that has not returned, grouped or not, can still return. */
module DsyncLiveness {
  import opened Optional
  import opened Lsns
  import opened DsyncLog
  import opened DsyncInvariant
  import opened DsyncTheorems

  /** Events that neither bring new work nor fail. */
  predicate Steady(e: Event) {
    !e.Join? && !e.WriteFail? && !e.DirFail? && !e.ReturnError?
  }

  /** A waiter looks, tries, is refused, or goes round its loop. */
  predicate Retry(e: Event) {
    e.Tick? || e.Observe? || e.ObserveForce? || e.Refused? || e.Continue?
  }

  /** `es` can happen from `s`, ending in `t`. */
  ghost predicate Path(s: State, es: seq<Event>, t: State)
    decreases |es|
  {
    if es == [] then s == t
    else Enabled(s, es[0]) && Steady(es[0]) && Path(Apply(s, es[0]), es[1..], t)
  }

  ghost predicate NoError(s: State) {
    forall g :: 0 <= g < |s.groups| ==> !s.groups[g].phase.Failed?
  }

  // --- a measure that steady events lower ---------------------------------

  function PhaseRank(gr: Group): nat {
    match gr.phase
    case Open => if gr.start < gr.end then 20 else 0
    case Closed => 8
    case Written => 6
    case DirWait => 4
    case DirSync(_) => 2
    case Freed => 0
    case Failed => 0
  }

  function GroupRank(gr: Group): nat { 2 * |gr.copying| + PhaseRank(gr) }

  function GroupsRank(groups: seq<Group>): nat {
    if groups == [] then 0 else GroupsRank(groups[..|groups| - 1]) + GroupRank(groups[|groups| - 1])
  }

  function LockRank(lock: SlotLock): nat {
    match lock
    case Unlocked => 0
    case Switching(_, _, _) => 6
    case ReleaseHeld(_, _) => 3
  }

  function PcRank(pc: Pc): nat {
    match pc
    case Copying => 4
    case Releasing => 3
    case TryClose => 1
    case Force => 1
    case _ => 0
  }

  function Rank(s: State, c: nat): int
    requires c < |s.commits|
  {
    GroupsRank(s.groups) + LockRank(s.lock) + FileId(s) - s.syncFile + PcRank(s.commits[c].pc)
  }

  lemma {:induction false} RankOfUpdate(groups: seq<Group>, g: nat, gr: Group)
    requires g < |groups|
    ensures GroupsRank(groups[g := gr]) == GroupsRank(groups) - GroupRank(groups[g]) + GroupRank(gr)
  {
    var last := |groups| - 1;
    if g == last {
      assert groups[g := gr][..last] == groups[..last];
    } else {
      assert groups[g := gr][..last] == groups[..last][g := gr];
      RankOfUpdate(groups[..last], g, gr);
    }
  }

  lemma RankOfAppend(groups: seq<Group>, gr: Group)
    ensures GroupsRank(groups + [gr]) == GroupsRank(groups) + GroupRank(gr)
  {
    assert (groups + [gr])[..|groups|] == groups;
  }

  /** `e` can happen, keeps committer `c` on its way, and lowers the measure. */
  ghost predicate Lowers(s: State, e: Event, c: nat) {
    && c < |s.commits| && Enabled(s, e) && Steady(e)
    && OnWay(Apply(s, e), c)
    && Rank(Apply(s, e), c) < Rank(s, c)
  }

  /** `c` is a commit that has not failed, in a state without errors. */
  ghost predicate OnWay(s: State, c: nat) {
    NoError(s) && c < |s.commits| && !s.commits[c].pc.ReturnedError?
  }

  lemma CopyDoneLowers(s: State, x: nat, c: nat)
    requires OnWay(s, c) && CanCopyDone(s, x) && x in GroupOf(s, x).copying
    ensures Lowers(s, CopyDone(x), c)
  {
    var t := DoCopyDone(s, x);
    var g := s.commits[x].group;
    assert t.groups == s.groups[g := t.groups[g]];
    RankOfUpdate(s.groups, g, t.groups[g]);
    assert |s.groups[g].copying - {x}| == |s.groups[g].copying| - 1;
  }

  lemma CloseStockLowers(s: State, x: nat, c: nat)
    requires OnWay(s, c) && CanCloseStock(s, x)
    ensures Lowers(s, CloseStock(x), c)
  {
    var g := |s.groups| - 1;
    RankOfUpdate(s.groups, g, s.groups[g].(phase := Closed));
  }

  lemma CloseForcedLowers(s: State, c: nat)
    requires OnWay(s, c) && CanCloseForced(s, c)
    ensures Lowers(s, CloseForced(c), c)
    ensures Rank(Apply(s, CloseForced(c)), c) < Rank(s, c) - 1
  {
    var g := |s.groups| - 1;
    RankOfUpdate(s.groups, g, s.groups[g].(phase := Closed));
  }

  lemma NewSlotLowers(s: State, obj: nat, c: nat)
    requires OnWay(s, c) && |s.groups| > 0 && CanNewSlot(s, obj, false, Last(s).end)
    ensures Lowers(s, NewSlot(obj, false, Last(s).end), c)
  {
    var e := NewSlot(obj, false, Last(s).end);
    var t := Apply(s, e);
    RankOfAppend(s.groups, t.groups[|s.groups|]);
  }

  lemma WriteLowers(s: State, g: nat, c: nat)
    requires OnWay(s, c) && CanWrite(s, g)
    ensures Lowers(s, Write(g), c)
  {
    RankOfUpdate(s.groups, g, s.groups[g].(durable := true, phase := Written));
  }

  lemma PhaseLowers(s: State, g: nat, p: Phase, c: nat)
    requires g < |s.groups| && c < |s.commits|
    requires GroupRank(s.groups[g].(phase := p)) < GroupRank(s.groups[g])
    ensures GroupsRank(SetPhase(s, g, p).groups) < GroupsRank(s.groups)
  {
    RankOfUpdate(s.groups, g, s.groups[g].(phase := p));
  }

  lemma AdvanceLowers(s: State, g: nat, c: nat)
    requires OnWay(s, c) && CanAdvance(s, g)
    ensures Lowers(s, Advance(g), c)
  {
    PhaseLowers(s, g, if s.groups[g].dir then DirWait else Freed, c);
  }

  lemma DirSkipLowers(s: State, g: nat, c: nat)
    requires OnWay(s, c) && CanDirSkip(s, g)
    ensures Lowers(s, DirSkip(g), c)
  {
    PhaseLowers(s, g, Freed, c);
  }

  lemma DirBeginLowers(s: State, g: nat, c: nat)
    requires OnWay(s, c) && CanDirBegin(s, g)
    ensures Lowers(s, DirBegin(g), c)
  {
    PhaseLowers(s, g, DirSync(FileId(s)), c);
  }

  lemma DirEndLowers(s: State, g: nat, c: nat)
    requires OnWay(s, c) && CanDirEnd(s, g)
    ensures Lowers(s, DirEnd(g), c)
  {
    PhaseLowers(s, g, Freed, c);
  }

  // --- some steady event always lowers it ---------------------------------

  /** Every group before `h` is freed. */
  ghost predicate FreedBefore(s: State, h: nat) {
    h <= |s.groups| && forall i :: 0 <= i < h ==> s.groups[i].phase.Freed?
  }

  lemma EarliestUnfreed(s: State, j: nat) returns (h: nat)
    requires j < |s.groups| && !s.groups[j].phase.Freed?
    ensures h <= j && FreedBefore(s, h) && !s.groups[h].phase.Freed?
  {
    h := 0;
    while s.groups[h].phase.Freed?
      invariant h <= j && FreedBefore(s, h)
      decreases j - h
    {
      h := h + 1;
    }
  }

  lemma EarliestIsNext(s: State, h: nat)
    requires Inv(s) && h < |s.groups| && FreedBefore(s, h)
    ensures BeforeAdvance(s.groups[h].phase) ==> s.advanced == h && s.writeLsn == s.groups[h].release
  {
    hide FileInv, DirInv, SyncLockInv, ObjInv, CommitsInv;
    if h > 0 {
      assert s.groups[h - 1].phase.Freed?;
    }
  }

  /** A copier of a closed or open group can finish its copy, unless it is in the
      middle of closing that very group. */
  lemma CopierReady(s: State, h: nat, x: nat)
    requires Inv(s) && h < |s.groups| && x in s.groups[h].copying
    requires s.lock.Switching? ==> s.lock.g != h
    ensures Known(s, x) && s.commits[x].group == h && s.commits[x].pc.Copying? && !Owns(s, x)
    ensures !s.groups[h].phase.Open? ==> CanCopyDone(s, x)
  {
    hide GroupsInv, CommitInv, ReturnInv, HandInv;
    assert CopiersOf(s.groups[h].copying, h, s.commits);
  }

  lemma WriterReady(s: State, h: nat)
    requires Inv(s) && h < |s.groups| && s.groups[h].phase.Closed? && s.groups[h].copying == {}
    requires s.lock.Switching? ==> s.lock.g != h
    ensures CanWrite(s, h)
  {
    hide GroupsInv, CopyInv, CommitInv, ReturnInv, OwnerInv;
  }

  /** The file of a group in the directory loop: if `sync_lsn` is still in an
      earlier file, the closing thread can move it. */
  lemma CloserReady(s: State, h: nat)
    requires Inv(s) && h < |s.groups| && s.groups[h].phase.DirWait? && s.syncLock.None?
    requires s.syncFile < s.groups[h].file
    ensures CanCloseFile(s)
  {
    hide DirInv, SyncLockInv, ObjInv, CommitsInv;
    var k := s.syncFile - 1;
    assert h < s.advanced;
    assert AtMost(s.fileEnds[k], Start(s.groups[h]));
    if h < s.advanced - 1 {
      assert AtMost(End(s.groups[h]), Start(s.groups[s.advanced - 1]));
    }
  }

  lemma SyncHolderReady(s: State)
    requires Inv(s) && s.syncLock.Some?
    ensures CanDirEnd(s, s.syncLock.value)
  {
    hide Layout, WriteInv, FileInv, DirInv, ObjInv, CommitsInv;
  }

  lemma DirProgress(s: State, h: nat, c: nat) returns (e: Event)
    requires Inv(s) && OnWay(s, c) && h < |s.groups| && s.groups[h].phase.DirWait?
    ensures Lowers(s, e, c) && !Retry(e)
  {
    hide Inv, Lowers, OnWay, CanCloseFile, CanDirEnd;
    if s.groups[h].file <= s.syncDir {
      e := DirSkip(h);
      DirSkipLowers(s, h, c);
    } else if s.syncLock.Some? {
      e := DirEnd(s.syncLock.value);
      SyncHolderReady(s);
      DirEndLowers(s, s.syncLock.value, c);
    } else if s.groups[h].file <= s.syncFile {
      e := DirBegin(h);
      DirBeginLowers(s, h, c);
    } else {
      e := CloseFile;
      CloserReady(s, h);
      CloseFileLowers(s, c);
    }
  }

  lemma CloseFileLowers(s: State, c: nat)
    requires OnWay(s, c) && CanCloseFile(s)
    ensures Lowers(s, CloseFile, c)
  {}

  lemma ReleaseProgress(s: State, h: nat, c: nat) returns (e: Event)
    requires Inv(s) && OnWay(s, c) && h < |s.groups| && FreedBefore(s, h)
    requires !s.groups[h].phase.Freed? && !s.groups[h].phase.Open?
    requires s.lock.Switching? ==> s.lock.g != h
    ensures Lowers(s, e, c) && !Retry(e)
  {
    hide Inv, Lowers, CanCopyDone, CanWrite;
    match s.groups[h].phase
    case Closed =>
      if s.groups[h].copying != {} {
        var x :| x in s.groups[h].copying;
        CopierReady(s, h, x);
        CopyDoneLowers(s, x, c);
        e := CopyDone(x);
      } else {
        WriterReady(s, h);
        WriteLowers(s, h, c);
        e := Write(h);
      }
    case Written =>
      EarliestIsNext(s, h);
      AdvanceLowers(s, h, c);
      e := Advance(h);
    case DirWait => e := DirProgress(s, h, c);
    case DirSync(_) =>
      DirEndLowers(s, h, c);
      e := DirEnd(h);
  }

  lemma LockFacts(s: State)
    requires Inv(s)
    ensures |s.groups| > 0 && s.objs >= 2
    ensures s.lock.Switching? ==> s.lock.g == |s.groups| - 1
    ensures !s.lock.Switching? ==> Last(s).phase.Open?
    ensures s.lock.ReleaseHeld? ==> s.lock.g < |s.groups| - 1
  {
    hide Layout, WriteInv, FileInv, DirInv, SyncLockInv, CopyInv, CommitInv, ReturnInv, HandInv, OwnerInv;
  }

  /** A closed slot gets its replacement: with two or more slot objects, either
      one is free or an earlier group is on its way to free one. */
  lemma SwitchProgress(s: State, c: nat) returns (e: Event)
    requires Inv(s) && OnWay(s, c) && s.lock.Switching?
    ensures Lowers(s, e, c) && !Retry(e)
  {
    hide Inv, Lowers, OnWay;
    LockFacts(s);
    var last := |s.groups| - 1;
    var obj := if Last(s).obj == 0 then 1 else 0;
    if FreeObj(s, obj) {
      NewSlotLowers(s, obj, c);
      e := NewSlot(obj, false, Last(s).end);
    } else {
      var j :| 0 <= j < |s.groups| && s.groups[j].obj == obj && !s.groups[j].phase.Freed?;
      assert j != last;
      var h := EarliestUnfreed(s, j);
      ClosedBeforeLast(s, h);
      e := ReleaseProgress(s, h, c);
    }
  }

  lemma ClosedBeforeLast(s: State, h: nat)
    requires Inv(s) && h < |s.groups| - 1
    ensures !s.groups[h].phase.Open?
  {
    hide WriteInv, FileInv, DirInv, SyncLockInv, ObjInv, CommitsInv;
  }

  /** With every earlier group freed and the lock free, copies into the open group
      can finish (a stock joiner closes it first). */
  lemma OpenCopyProgress(s: State, x: nat, c: nat) returns (e: Event)
    requires Inv(s) && OnWay(s, c) && |s.groups| > 0 && s.lock.Unlocked? && x in Last(s).copying
    ensures Lowers(s, e, c) && !Retry(e)
  {
    hide Lowers, Inv;
    LockFacts(s);
    CopierReady(s, |s.groups| - 1, x);
    if s.commits[x].kind.Stock? {
      RecordNotEmpty(s, x);
      CloseStockLowers(s, x, c);
      e := CloseStock(x);
    } else {
      CopyDoneLowers(s, x, c);
      e := CopyDone(x);
    }
  }

  lemma RecordNotEmpty(s: State, c: nat)
    requires Inv(s) && c < |s.commits|
    ensures Known(s, c) && GroupOf(s, c).start < GroupOf(s, c).end
  {
    hide GroupsInv, CopyInv, ReturnInv, HandInv, LockInv, OwnerInv;
  }

  /** Facts about a committer once every group before the open one is
      freed and nobody is copying. */
  lemma QuietFacts(s: State, c: nat)
    requires Inv(s) && OnWay(s, c) && |s.groups| > 0 && FreedBefore(s, |s.groups| - 1) && Last(s).phase.Open?
    requires Last(s).copying == {}
    ensures Known(s, c) && !s.commits[c].pc.Copying?
    ensures s.commits[c].pc.Releasing? || s.commits[c].pc.StockWait? ==> GroupOf(s, c).phase.Freed?
    ensures s.commits[c].group < |s.groups| - 1 ==> GroupOf(s, c).phase.Freed?
  {
    hide GroupsInv, ReturnInv, LockInv, OwnerInv;
  }

  lemma FreedReturnable(s: State, c: nat)
    requires Inv(s) && OnWay(s, c) && Known(s, c) && GroupOf(s, c).phase.Freed? && s.lock.Unlocked?
    requires s.commits[c].pc.Waiting? || s.commits[c].pc.StockWait?
    ensures CanReturnOk(s, c)
  {
    FreedFacts(s, s.commits[c].group);
    RecordPassed(s, c);
    hide Inv;
    assert !ErrorOn(s, GroupOf(s, c).obj);
  }

  /** `write_lsn` has passed the record of a freed group. */
  lemma RecordPassed(s: State, c: nat)
    requires Inv(s) && Known(s, c) && GroupOf(s, c).phase.Freed?
    ensures Below(RecordLsn(s, c), s.writeLsn)
  {
    hide FileInv, DirInv, SyncLockInv, ObjInv, CopyInv, ReturnInv, HandInv, LockInv, OwnerInv;
    var g := s.commits[c].group;
    assert g < s.advanced;
    if g < s.advanced - 1 {
      assert AtMost(End(s.groups[g]), Start(s.groups[s.advanced - 1]));
    }
  }

  ghost predicate Nearer(s: State, t: State, c: nat) {
    && c < |s.commits| && Inv(t) && OnWay(t, c)
    && (t.commits[c].pc.ReturnedOk? || Rank(t, c) < Rank(s, c))
  }

  ghost predicate BringsCloser(s: State, es: seq<Event>, c: nat) {
    exists t :: Path(s, es, t) && Nearer(s, t, c)
  }

  /** Every earlier group freed, no copy in progress, the slot lock free: the
      committer returns, or closes its slot, or goes back to its loop. */
  lemma CommitterProgress(s: State, c: nat) returns (es: seq<Event>)
    requires Inv(s) && OnWay(s, c) && |s.groups| > 0 && FreedBefore(s, |s.groups| - 1) && Last(s).phase.Open?
    requires Last(s).copying == {} && s.lock.Unlocked? && !s.commits[c].pc.ReturnedOk?
    ensures BringsCloser(s, es, c)
  {
    hide Inv;
    QuietFacts(s, c);
    RecordNotEmpty(s, c);
    var pc := s.commits[c].pc;
    if pc.Releasing? {
      es := OneStep(s, ReleaseReturns(c), c);
    } else if (pc.Waiting? || pc.StockWait?) && GroupOf(s, c).phase.Freed? {
      FreedReturnable(s, c);
      es := OneStep(s, ReturnOk(c), c);
    } else if pc.Waiting? {
      EarliestIsNext(s, |s.groups| - 1);
      assert CanObserve(s, c);
      var s1 := Apply(s, Observe(c));
      StepKeeps(s, Observe(c));
      CloseForcedLowers(s1, c);
      StepKeeps(s1, CloseForced(c));
      es := [Observe(c), CloseForced(c)];
      PathOfTwo(s, Observe(c), CloseForced(c));
      assert Nearer(s, Apply(s1, CloseForced(c)), c);
    } else if OnActive(s, c) && Last(s).start < Last(s).end {
      CloseForcedLowers(s, c);
      es := OneStep(s, CloseForced(c), c);
    } else if pc.Force? && Last(s).start < Last(s).end {
      CloseForcedLowers(s, c);
      es := OneStep(s, CloseForced(c), c);
    } else {
      LayoutOfLast(s);
      es := OneStep(s, Continue(c), c);
    }
  }

  lemma LayoutOfLast(s: State)
    requires Inv(s)
    ensures |s.groups| > 0 && Last(s).start <= Last(s).end
  {
    hide WriteInv, FileInv, DirInv, SyncLockInv, ObjInv, CommitsInv;
  }

  lemma PathOfTwo(s: State, e: Event, f: Event)
    requires Enabled(s, e) && Steady(e) && Enabled(Apply(s, e), f) && Steady(f)
    ensures Path(s, [e, f], Apply(Apply(s, e), f))
  {
    hide Enabled, Apply;
    var t := Apply(Apply(s, e), f);
    assert Path(t, [], t);
    assert [f][1..] == [];
    assert Path(Apply(s, e), [f], t);
    assert [e, f][1..] == [f];
  }

  lemma OneStep(s: State, e: Event, c: nat) returns (es: seq<Event>)
    requires Inv(s) && c < |s.commits| && Enabled(s, e) && Steady(e) && OnWay(Apply(s, e), c)
    requires Apply(s, e).commits[c].pc.ReturnedOk? || Rank(Apply(s, e), c) < Rank(s, c)
    ensures es == [e]
    ensures BringsCloser(s, es, c)
  {
    hide Inv, Enabled, Apply;
    StepKeeps(s, e);
    es := [e];
    var t := Apply(s, e);
    assert Path(t, [], t);
    assert es[1..] == [];
    assert Path(s, es, t) && Nearer(s, t, c);
  }

  /** Whatever the state, some events bring a committer closer to its return. */
  lemma Progress(s: State, c: nat) returns (es: seq<Event>)
    requires Inv(s) && OnWay(s, c) && !s.commits[c].pc.ReturnedOk?
    ensures BringsCloser(s, es, c)
  {
    hide Inv, OnWay, BringsCloser, Lowers;
    LockFacts(s);
    var last := |s.groups| - 1;
    if s.lock.Switching? {
      var e := SwitchProgress(s, c);
      es := LoweringStep(s, e, c);
    } else {
      var h := EarliestUnfreed(s, last);
      if h < last {
        ClosedBeforeLast(s, h);
        var e := ReleaseProgress(s, h, c);
        es := LoweringStep(s, e, c);
      } else if s.lock.ReleaseHeld? {
        UnlockLowers(s, c);
        es := LoweringStep(s, Unlock, c);
      } else if Last(s).copying != {} {
        var x :| x in Last(s).copying;
        var e := OpenCopyProgress(s, x, c);
        es := LoweringStep(s, e, c);
      } else {
        es := CommitterProgress(s, c);
      }
    }
  }

  lemma UnlockLowers(s: State, c: nat)
    requires OnWay(s, c) && CanUnlock(s)
    ensures Lowers(s, Unlock, c)
  {}

  lemma LoweringStep(s: State, e: Event, c: nat) returns (es: seq<Event>)
    requires Inv(s) && Lowers(s, e, c)
    ensures BringsCloser(s, es, c)
  {
    hide Inv, Enabled, Apply;
    es := OneStep(s, e, c);
  }

  lemma {:induction false} PathJoin(s: State, es: seq<Event>, t: State, fs: seq<Event>, u: State)
    requires Path(s, es, t) && Path(t, fs, u)
    ensures Path(s, es + fs, u)
    decreases |es|
  {
    hide Enabled, Apply;
    if es == [] {
      assert es + fs == fs;
    } else {
      PathJoin(Apply(s, es[0]), es[1..], t, fs, u);
      assert (es + fs)[1..] == es[1..] + fs;
    }
  }

  lemma RankNotNegative(s: State, c: nat)
    requires Inv(s) && c < |s.commits|
    ensures Rank(s, c) >= 0
  {
    hide CommitsInv, Layout, WriteInv, FileInv, DirInv, SyncLockInv, ObjInv, GroupsRank;
  }

  lemma {:induction false} CanStillReturn(s: State, c: nat) returns (es: seq<Event>, t: State)
    requires Inv(s) && OnWay(s, c)
    ensures Path(s, es, t) && c < |t.commits| && t.commits[c].pc.ReturnedOk?
    decreases Rank(s, c), !s.commits[c].pc.ReturnedOk?
  {
    hide Inv, Rank, Enabled, Apply;
    if s.commits[c].pc.ReturnedOk? {
      es, t := [], s;
    } else {
      RankNotNegative(s, c);
      var first := Progress(s, c);
      var u :| Path(s, first, u) && Nearer(s, u, c);
      if u.commits[c].pc.ReturnedOk? {
        es, t := first, u;
      } else {
        var rest, end := CanStillReturn(u, c);
        PathJoin(s, first, u, rest, end);
        es, t := first + rest, end;
      }
    }
  }

  /** From every state of every run in which no slot has an error, each commit that
      has not returned can be brought to return by events that add no new work:
      nobody waits for a lock, a free slot object, a copy, a write or a directory
      sync that can no longer happen. */
  lemma NeverSticks(tr: seq<State>, es: seq<Event>, k: nat, c: nat) returns (path: seq<Event>, t: State)
    requires IsRun(tr, es) && k < |tr| && NoError(tr[k])
    requires c < |tr[k].commits| && !tr[k].commits[c].pc.ReturnedError?
    ensures Path(tr[k], path, t) && c < |t.commits| && t.commits[c].pc.ReturnedOk?
  {
    hide Inv, Enabled, Apply;
    RunKeeps(tr, es, k);
    path, t := CanStillReturn(tr[k], c);
  }
}
