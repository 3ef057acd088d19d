/** The dsync log's work is bounded: apart from a waiter's retries, every steady event
    uses some of it up. */
module DsyncWork {
  import opened Optional
  import opened Lsns
  import opened DsyncLog
  import opened DsyncInvariant
  import opened DsyncTheorems
  import opened DsyncLiveness

  function PcWork(pc: Pc): nat {
    match pc
    case Copying => 4
    case Releasing => 2
    case Waiting => 1
    case TryClose => 1
    case Force => 1
    case StockWait => 1
    case ReturnedOk => 0
    case ReturnedError => 0
  }

  function CommitsWork(commits: seq<Commit>): nat {
    if commits == [] then 0 else CommitsWork(commits[..|commits| - 1]) + PcWork(commits[|commits| - 1].pc)
  }

  /** Copies, closes, writes, syncs and returns still to be made. */
  function Work(s: State): int {
    GroupsRank(s.groups) + LockRank(s.lock) + FileId(s) - s.syncFile + CommitsWork(s.commits)
  }

  lemma {:induction false} CommitsWorkUpdate(commits: seq<Commit>, c: nat, cm: Commit)
    requires c < |commits|
    ensures CommitsWork(commits[c := cm]) == CommitsWork(commits) - PcWork(commits[c].pc) + PcWork(cm.pc)
  {
    hide PcWork;
    var last := |commits| - 1;
    if c == last {
      assert commits[c := cm][..last] == commits[..last];
    } else {
      assert commits[c := cm][..last] == commits[..last][c := cm];
      CommitsWorkUpdate(commits[..last], c, cm);
    }
  }

  /** A step that changes one group. */
  lemma GroupWork(s: State, t: State, g: nat)
    requires g < |s.groups| && |t.groups| == |s.groups| && t.groups == s.groups[g := t.groups[g]]
    requires t.commits == s.commits && t.fileEnds == s.fileEnds && t.syncFile == s.syncFile
    ensures Work(t) - Work(s) == GroupRank(t.groups[g]) - GroupRank(s.groups[g]) + LockRank(t.lock) - LockRank(s.lock)
  {
    hide GroupRank, GroupsRank, CommitsWork;
    RankOfUpdate(s.groups, g, t.groups[g]);
  }

  /** A step that changes one committer. */
  lemma CommitterWork(s: State, t: State, c: nat)
    requires c < |s.commits| && |t.commits| == |s.commits| && t.commits == s.commits[c := t.commits[c]]
    requires t.groups == s.groups && t.fileEnds == s.fileEnds && t.syncFile == s.syncFile && t.lock == s.lock
    ensures Work(t) - Work(s) == PcWork(t.commits[c].pc) - PcWork(s.commits[c].pc)
  {
    hide PcWork, GroupsRank, CommitsWork;
    CommitsWorkUpdate(s.commits, c, t.commits[c]);
  }

  lemma CopierIsListed(s: State, c: nat)
    requires Inv(s) && c < |s.commits| && s.commits[c].pc.Copying?
    ensures s.commits[c].group < |s.groups| && c in s.groups[s.commits[c].group].copying
  {
    hide GroupsInv, CommitInv, ReturnInv, HandInv, LockInv, OwnerInv;
  }

  lemma CopyDoneWorks(s: State, c: nat)
    requires Inv(s) && CanCopyDone(s, c)
    ensures Work(DoCopyDone(s, c)) < Work(s)
  {
    hide Inv, DoCopyDone, Work, LockRank, PhaseRank, CanCopyDone;
    CopyDoneEffect(s, c);
    CopierIsListed(s, c);
    var t, g := DoCopyDone(s, c), s.commits[c].group;
    var mid := s.(groups := t.groups);
    GroupWork(s, mid, g);
    CommitterWork(mid, t, c);
    assert |s.groups[g].copying - {c}| == |s.groups[g].copying| - 1;
  }

  lemma CopyDoneEffect(s: State, c: nat)
    requires CanCopyDone(s, c)
    ensures Known(s, c) && s.commits[c].pc.Copying?
    ensures var t, g := DoCopyDone(s, c), s.commits[c].group;
      && t == s.(groups := t.groups, commits := t.commits) && |t.groups| == |s.groups| && |t.commits| == |s.commits|
      && t.groups == s.groups[g := t.groups[g]] && t.commits == s.commits[c := t.commits[c]]
      && t.groups[g].copying == s.groups[g].copying - {c} && PhaseRank(t.groups[g]) == PhaseRank(s.groups[g])
      && PcWork(t.commits[c].pc) <= 2
  {}

  lemma CloseWorks(s: State, owner: Option<nat>, forced: bool)
    requires CanClose(s, forced)
    ensures Work(DoClose(s, owner)) < Work(s)
  {
    GroupWork(s, DoClose(s, owner), |s.groups| - 1);
  }

  lemma CloseForcedWorks(s: State, c: nat)
    requires CanCloseForced(s, c)
    ensures Work(DoCloseForced(s, c)) < Work(s)
  {
    hide Work;
    CommitterWork(s, SetPc(s, c, Waiting), c);
    CloseWorks(SetPc(s, c, Waiting), Some(c), true);
  }

  lemma NewSlotWorks(s: State, obj: nat, newFile: bool, at: nat)
    requires CanNewSlot(s, obj, newFile, at)
    ensures Work(DoNewSlot(s, obj, newFile, at)) < Work(s)
  {
    hide GroupsRank, CommitsWork;
    var t := DoNewSlot(s, obj, newFile, at);
    RankOfAppend(s.groups, t.groups[|s.groups|]);
  }

  lemma ReleaseWorks(s: State, e: Event)
    requires Enabled(s, e) && (e.Write? || e.Advance? || e.DirSkip? || e.DirBegin? || e.DirEnd?)
    ensures Work(Apply(s, e)) < Work(s)
  {
    hide Work;
    GroupWork(s, Apply(s, e), e.g);
  }

  lemma CommitterWorks(s: State, e: Event)
    requires Enabled(s, e) && (Retry(e) || e.ReleaseReturns? || e.ReturnOk?)
    ensures Retry(e) ==> Work(Apply(s, e)) == Work(s)
    ensures !Retry(e) ==> Work(Apply(s, e)) < Work(s)
  {
    hide Work;
    CommitterWork(s, Apply(s, e), e.c);
  }

  /** Every steady event uses up work, except a waiter's retries, which leave it as
      it is. */
  lemma SteadyWorks(s: State, e: Event)
    requires Inv(s) && Enabled(s, e) && Steady(e)
    ensures Retry(e) ==> Work(Apply(s, e)) == Work(s)
    ensures !Retry(e) ==> Work(Apply(s, e)) < Work(s)
  {
    if Retry(e) || e.ReleaseReturns? || e.ReturnOk? {
      hide Enabled, Apply, Work, Inv;
      CommitterWorks(s, e);
    } else if e.Write? || e.Advance? || e.DirSkip? || e.DirBegin? || e.DirEnd? {
      hide Enabled, Apply, Work, Inv;
      ReleaseWorks(s, e);
    } else if e.CloseFile? || e.Unlock? {
      hide GroupsRank, CommitsWork, Inv;
    } else {
      hide Work, Inv;
      match e
      case CopyDone(c) => CopyDoneWorks(s, c);
      case CloseForced(c) => CloseForcedWorks(s, c);
      case CloseStock(c) => CloseWorks(s, Some(c), false);
      case CloseOther(forced) => CloseWorks(s, None, forced);
      case NewSlot(obj, newFile, at) => NewSlotWorks(s, obj, newFile, at);
    }
  }

  /** Events that are not retries. */
  function WorkEvents(es: seq<Event>): nat {
    if es == [] then 0 else (if Retry(es[0]) then 0 else 1) + WorkEvents(es[1..])
  }

  lemma WorkNotNegative(s: State)
    requires Inv(s)
    ensures Work(s) >= 0
  {
    hide CommitsInv, Layout, WriteInv, FileInv, DirInv, SyncLockInv, ObjInv, GroupsRank, CommitsWork;
  }

  /** However the threads are scheduled, a path of steady events holds no more events
      that are not retries than there was work at its start. */
  lemma {:induction false} WorkIsBounded(s: State, es: seq<Event>, t: State)
    requires Inv(s) && Path(s, es, t)
    ensures Inv(t) && WorkEvents(es) <= Work(s) - Work(t) && Work(t) >= 0
    decreases |es|
  {
    hide Inv, Enabled, Apply, Work, Retry;
    if es == [] {
      WorkNotNegative(t);
    } else {
      StepKeeps(s, es[0]);
      SteadyWorks(s, es[0]);
      WorkIsBounded(Apply(s, es[0]), es[1..], t);
    }
  }

  // --- work is never more than one look away ------------------------------

  /** Every earlier group freed, nobody copying, the slot lock free. */
  ghost predicate Quiet(s: State) {
    && |s.groups| > 0 && FreedBefore(s, |s.groups| - 1) && Last(s).phase.Open?
    && Last(s).copying == {} && s.lock.Unlocked?
  }

  ghost predicate CanWork(s: State, e: Event) { Enabled(s, e) && Steady(e) && !Retry(e) }

  lemma LowersIsWork(s: State, e: Event, c: nat)
    requires Lowers(s, e, c) && !Retry(e)
    ensures CanWork(s, e)
  {
    hide Enabled, Apply;
  }

  /** In a state that is not quiet some work can be done. */
  lemma BusyHasWork(s: State, c: nat) returns (e: Event)
    requires Inv(s) && OnWay(s, c) && !Quiet(s)
    ensures CanWork(s, e)
  {
    hide Inv, OnWay, Lowers, CanWork;
    LockFacts(s);
    var last := |s.groups| - 1;
    if s.lock.Switching? {
      e := SwitchProgress(s, c);
    } else {
      var h := EarliestUnfreed(s, last);
      if h < last {
        ClosedBeforeLast(s, h);
        e := ReleaseProgress(s, h, c);
      } else if s.lock.ReleaseHeld? {
        UnlockLowers(s, c);
        e := Unlock;
      } else {
        var x :| x in Last(s).copying;
        e := OpenCopyProgress(s, x, c);
      }
    }
    LowersIsWork(s, e, c);
  }

  /** In a quiet state a commit that has not returned can return or close its slot,
      at once or after one look of its own. */
  lemma QuietHasWork(s: State, c: nat) returns (looks: seq<Event>, t: State, e: Event)
    requires Inv(s) && OnWay(s, c) && Quiet(s) && !s.commits[c].pc.ReturnedOk?
    ensures Path(s, looks, t) && CanWork(t, e)
    ensures looks == [] || looks == [Observe(c)] || looks == [Continue(c)]
  {
    hide Inv;
    QuietFacts(s, c);
    RecordNotEmpty(s, c);
    LayoutOfLast(s);
    var pc := s.commits[c].pc;
    if pc.Releasing? || ((pc.Waiting? || pc.StockWait?) && GroupOf(s, c).phase.Freed?) {
      looks, t := [], s;
      e := AtOnce(s, c);
    } else if pc.Waiting? {
      EarliestIsNext(s, |s.groups| - 1);
      looks, t, e := [Observe(c)], Apply(s, Observe(c)), CloseForced(c);
      OneLook(s, Observe(c));
    } else if Last(s).start < Last(s).end && (OnActive(s, c) || pc.Force?) {
      looks, t, e := [], s, CloseForced(c);
    } else {
      StepKeeps(s, Continue(c));
      looks, t, e := [Continue(c)], Apply(s, Continue(c)), ReturnOk(c);
      OneLook(s, Continue(c));
      FreedReturnable(t, c);
    }
  }

  lemma AtOnce(s: State, c: nat) returns (e: Event)
    requires Inv(s) && OnWay(s, c) && Known(s, c) && GroupOf(s, c).phase.Freed? && s.lock.Unlocked?
    requires s.commits[c].pc.Releasing? || s.commits[c].pc.Waiting? || s.commits[c].pc.StockWait?
    ensures CanWork(s, e)
  {
    hide Inv;
    if s.commits[c].pc.Releasing? {
      e := ReleaseReturns(c);
    } else {
      FreedReturnable(s, c);
      e := ReturnOk(c);
    }
  }

  lemma OneLook(s: State, r: Event)
    requires Enabled(s, r) && Steady(r)
    ensures Path(s, [r], Apply(s, r))
  {
    hide Enabled, Apply;
    assert [r][1..] == [];
    assert Path(Apply(s, r), [], Apply(s, r));
  }

  /** No work can be done, now or after any one retry: retries alone are left. */
  ghost predicate Exhausted(s: State) {
    && (forall e :: !CanWork(s, e))
    && forall r, e :: Retry(r) && Enabled(s, r) ==> !CanWork(Apply(s, r), e)
  }

  /** Retries are never all that is left: if they are, every commit has returned. */
  lemma ExhaustedIsReturned(s: State, c: nat)
    requires Inv(s) && OnWay(s, c) && Exhausted(s)
    ensures s.commits[c].pc.ReturnedOk?
  {
    hide Inv, NoError, CanWork, Enabled, Apply, Quiet;
    if !s.commits[c].pc.ReturnedOk? {
      if Quiet(s) {
        var looks, t, e := QuietHasWork(s, c);
        if looks != [] {
          PathOfOne(s, looks[0], t);
        }
      } else {
        var e := BusyHasWork(s, c);
      }
    }
  }

  lemma PathOfOne(s: State, r: Event, t: State)
    requires Path(s, [r], t)
    ensures Enabled(s, r) && t == Apply(s, r)
  {
    hide Enabled, Apply;
    assert [r][1..] == [];
  }

  lemma SteadyKeepsOnWay(s: State, e: Event, c: nat)
    requires Inv(s) && OnWay(s, c) && Enabled(s, e) && Steady(e)
    ensures OnWay(Apply(s, e), c)
  {
    hide Inv;
  }

  lemma {:induction false} PathKeepsOnWay(s: State, es: seq<Event>, t: State, c: nat)
    requires Inv(s) && OnWay(s, c) && Path(s, es, t)
    ensures Inv(t) && OnWay(t, c)
    decreases |es|
  {
    hide Inv, OnWay, Enabled, Apply;
    if es != [] {
      StepKeeps(s, es[0]);
      SteadyKeepsOnWay(s, es[0], c);
      PathKeepsOnWay(Apply(s, es[0]), es[1..], t, c);
    }
  }

  /** From every state of every run without a slot error, however the threads are
      scheduled: work is done only a bounded number of times, and when none can be
      done any more, not even after a retry, every commit that had not returned an
      error has returned. */
  lemma EveryScheduleReturns(tr: seq<State>, es: seq<Event>, k: nat, path: seq<Event>, t: State, c: nat)
    requires IsRun(tr, es) && k < |tr| && NoError(tr[k]) && Path(tr[k], path, t)
    requires c < |tr[k].commits| && !tr[k].commits[c].pc.ReturnedError?
    ensures WorkEvents(path) <= Work(tr[k])
    ensures c < |t.commits| && (Exhausted(t) ==> t.commits[c].pc.ReturnedOk?)
  {
    hide Inv, Enabled, Apply, Work, Exhausted, NoError;
    RunKeeps(tr, es, k);
    WorkIsBounded(tr[k], path, t);
    PathKeepsOnWay(tr[k], path, t, c);
    if Exhausted(t) {
      ExhaustedIsReturned(t, c);
    }
  }
}
