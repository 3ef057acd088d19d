/** The inductive invariant of the dsync step system. */
module DsyncInvariant {
  import opened Optional
  import opened Lsns
  import opened DsyncLog

  ghost predicate Layout(groups: seq<Group>) {
    && |groups| > 0
    && (forall i :: 0 <= i < |groups| ==> groups[i].start <= groups[i].end)
    && (forall i :: 0 <= i < |groups| && !groups[i].phase.Open? ==> groups[i].start < groups[i].end)
    && (forall i :: 0 <= i < |groups| - 1 ==> !groups[i].phase.Open?)
    && (forall i, j :: 0 <= i < j < |groups| ==> AtMost(End(groups[i]), Start(groups[j])))
    && groups[0].release == Lsn(1, 0)
    && (forall i :: 0 <= i < |groups| ==> groups[i].file >= 1)
    && (forall i :: 0 < i < |groups| ==> groups[i].release == End(groups[i - 1]))
  }

  predicate BeforeAdvance(p: Phase) {
    p.Open? || p.Closed? || p.Written?
  }

  ghost predicate WriteInv(groups: seq<Group>, advanced: nat, writeLsn: Lsn) {
    && advanced <= |groups|
    && writeLsn == (if advanced == 0 then Lsn(1, 0) else End(groups[advanced - 1]))
    && (forall i :: 0 <= i < advanced ==> groups[i].durable && !BeforeAdvance(groups[i].phase))
    && (forall i :: advanced <= i < |groups| ==> BeforeAdvance(groups[i].phase) || groups[i].phase.Failed?)
    && (forall i :: 0 <= i < |groups| && groups[i].phase.Written? ==> groups[i].durable)
  }

  ghost predicate FileInv(groups: seq<Group>, fileEnds: seq<Lsn>) {
    && |groups| > 0
    && groups[|groups| - 1].file == |fileEnds| + 1
    && (forall i :: 0 <= i < |groups| ==> groups[i].file <= |fileEnds| + 1)
    && (forall i, k :: 0 <= i < |groups| && 0 <= k < |fileEnds| && k + 1 < groups[i].file ==>
          AtMost(fileEnds[k], Start(groups[i])))
  }

  /** Directory entries up to `syncDir` are on disk, and a freed group's file is
      among them if the group asked for it. */
  ghost predicate DirInv(groups: seq<Group>, syncDir: nat, dirDurable: nat, fileId: nat) {
    && syncDir <= dirDurable <= fileId
    && (forall i :: 0 <= i < |groups| && groups[i].phase.DirSync? ==>
          groups[i].file <= groups[i].phase.seen <= fileId)
    && (forall i :: 0 <= i < |groups| && groups[i].phase.Freed? && groups[i].dir ==> groups[i].file <= syncDir)
  }

  ghost predicate SyncLockInv(groups: seq<Group>, syncLock: Option<nat>) {
    && (syncLock.Some? ==> syncLock.value < |groups|)
    && (forall i :: 0 <= i < |groups| ==> (groups[i].phase.DirSync? <==> syncLock == Some(i)))
  }

  /** `copying` are committers of group `g`, all in their copy. */
  ghost predicate CopiersOf(copying: set<nat>, g: nat, commits: seq<Commit>) {
    forall c :: c in copying ==> 0 <= c < |commits| && commits[c].group == g && commits[c].pc.Copying?
  }

  ghost predicate CopyInv(groups: seq<Group>, commits: seq<Commit>) {
    && (forall g :: 0 <= g < |groups| ==> CopiersOf(groups[g].copying, g, commits))
    && (forall g :: 0 <= g < |groups| && groups[g].releaser.Some? ==>
          groups[g].releaser.value < |commits| && !commits[groups[g].releaser.value].pc.Copying?)
    && (forall c :: 0 <= c < |commits| && commits[c].pc.Copying? ==>
          commits[c].group < |groups| && c in groups[commits[c].group].copying)
  }

  ghost predicate CommitInv(groups: seq<Group>, commits: seq<Commit>) {
    forall c :: 0 <= c < |commits| ==>
      && commits[c].group < |groups|
      && groups[commits[c].group].start <= commits[c].lo < commits[c].hi <= groups[commits[c].group].end
      && (commits[c].kind.Grouped? ==> groups[commits[c].group].dir)
      && (commits[c].pc.Waiting? || commits[c].pc.TryClose? || commits[c].pc.Force? ==> commits[c].kind.Grouped?)
      && (commits[c].pc.Releasing? || (commits[c].pc.StockWait? && commits[c].kind.Grouped?) ==>
            groups[commits[c].group].releaser == Some(c))
      && (commits[c].pc.StockWait? ==> !groups[commits[c].group].phase.Open?)
  }

  /** A synced commit that returned is behind `write_lsn`; a grouped one, or one
      that released its slot, has its file's directory entry synced. */
  ghost predicate ReturnInv(groups: seq<Group>, commits: seq<Commit>, advanced: nat, syncDir: nat) {
    forall c :: 0 <= c < |commits| && commits[c].group < |groups| && !commits[c].kind.Unsynced? ==>
      && (commits[c].pc.ReturnedOk? ==> commits[c].group < advanced)
      && ((commits[c].pc.ReturnedOk? || commits[c].pc.StockWait?) && groups[commits[c].group].dir &&
          (commits[c].kind.Grouped? || groups[commits[c].group].releaser == Some(c)) ==>
            groups[commits[c].group].file <= syncDir)
  }

  /** Closed, every copy done, and no committer at its release. */
  predicate Unreleased(gr: Group) { gr.phase.Closed? && gr.copying == {} && gr.releaser.None? }

  /** A closed group with all copies done has a thread to release it. */
  ghost predicate HandInv(groups: seq<Group>, lock: SlotLock) {
    && (forall i :: 0 <= i < |groups| ==>
          && (groups[i].releaser.Some? ==> !groups[i].phase.Open? && groups[i].copying == {})
          && (groups[i].copying != {} ==> groups[i].phase.Open? || groups[i].phase.Closed?))
    && forall i :: 0 <= i < |groups| && Unreleased(groups[i]) ==>
      !lock.Unlocked? && lock.g == i && (lock.Switching? ==> lock.release)
  }

  ghost predicate LockInv(groups: seq<Group>, lock: SlotLock) {
    && |groups| > 0
    && (!lock.Switching? ==> groups[|groups| - 1].phase.Open?)
    && match lock
       case Unlocked => true
       case Switching(_, g, release) =>
         && g == |groups| - 1
         && !groups[g].phase.Open?
         && (release ==> groups[g].phase.Closed? && groups[g].copying == {} && groups[g].releaser.None?)
       case ReleaseHeld(_, g) => g < |groups| - 1
  }

  /** The committer that holds the slot lock is at its close. */
  ghost predicate OwnerInv(commits: seq<Commit>, lock: SlotLock) {
    !lock.Unlocked? && lock.owner.Some? ==>
      && lock.owner.value < |commits|
      && (commits[lock.owner.value].pc.Waiting? ||
          (commits[lock.owner.value].pc.Copying? && lock.Switching? && commits[lock.owner.value].group == lock.g))
  }

  ghost predicate ObjInv(groups: seq<Group>, objs: nat) {
    && objs >= 2
    && (forall i :: 0 <= i < |groups| ==> groups[i].obj < objs)
    && (forall i, j :: 0 <= i < j < |groups| && groups[i].obj == groups[j].obj ==> groups[i].phase.Freed?)
  }

  ghost predicate GroupsInv(s: State) {
    && Layout(s.groups)
    && WriteInv(s.groups, s.advanced, s.writeLsn)
    && FileInv(s.groups, s.fileEnds)
    && DirInv(s.groups, s.syncDir, s.dirDurable, FileId(s))
    && SyncLockInv(s.groups, s.syncLock)
    && 1 <= s.syncFile <= FileId(s)
    && ObjInv(s.groups, s.objs)
  }

  ghost predicate CommitsInv(s: State) {
    && CopyInv(s.groups, s.commits)
    && CommitInv(s.groups, s.commits)
    && ReturnInv(s.groups, s.commits, s.advanced, s.syncDir)
    && HandInv(s.groups, s.lock)
    && LockInv(s.groups, s.lock)
    && OwnerInv(s.commits, s.lock)
  }

  ghost predicate Inv(s: State) {
    GroupsInv(s) && CommitsInv(s)
  }

  lemma InitGroups(s: State)
    requires Init(s)
    ensures GroupsInv(s)
  {
    hide Layout, WriteInv, FileInv, DirInv, SyncLockInv, ObjInv;
    var g := s.groups[0];
    assert s.groups == [g];
    FirstGroup(g);
    FirstFacts(g, s.objs);
  }

  lemma FirstGroup(g: Group)
    requires g == Group(0, 1, 0, 0, Lsn(1, 0), false, {}, None, false, Open)
    ensures Layout([g]) && WriteInv([g], 0, Lsn(1, 0)) && FileInv([g], [])
  {}

  lemma FirstFacts(g: Group, objs: nat)
    requires g == Group(0, 1, 0, 0, Lsn(1, 0), false, {}, None, false, Open) && objs >= 2
    ensures DirInv([g], 0, 0, 1) && SyncLockInv([g], None) && ObjInv([g], objs)
  {}

  lemma InitInv(s: State)
    requires Init(s)
    ensures Inv(s)
  {
    hide GroupsInv;
    InitGroups(s);
  }

  /** `b` is `a` but for phases and durability. */
  ghost predicate SameShape(a: seq<Group>, b: seq<Group>) {
    && |a| == |b|
    && (forall i :: 0 <= i < |a| ==>
          && a[i].obj == b[i].obj && a[i].file == b[i].file && a[i].start == b[i].start && a[i].end == b[i].end
          && a[i].release == b[i].release && a[i].dir == b[i].dir
          && (!b[i].phase.Open? ==> !a[i].phase.Open? || a[i].start < a[i].end)
          && (!a[i].phase.Open? ==> !b[i].phase.Open?))
  }

  lemma ShapeKeeps(a: seq<Group>, b: seq<Group>, fileEnds: seq<Lsn>)
    requires SameShape(a, b)
    ensures Layout(a) ==> Layout(b)
    ensures FileInv(a, fileEnds) ==> FileInv(b, fileEnds)
  {
    if Layout(a) {
      forall i | 0 < i < |b|
        ensures b[i].release == End(b[i - 1])
      {
        assert a[i].release == End(a[i - 1]);
      }
    }
  }

  ghost predicate SameHands(a: seq<Group>, b: seq<Group>) {
    && SameShape(a, b)
    && (forall i :: 0 <= i < |a| ==> a[i].copying == b[i].copying && a[i].releaser == b[i].releaser)
  }

  lemma HandsKeep(a: seq<Group>, b: seq<Group>, commits: seq<Commit>, advanced: nat, advanced': nat,
                  syncDir: nat, syncDir': nat)
    requires SameHands(a, b) && advanced <= advanced' && syncDir <= syncDir'
    ensures CopyInv(a, commits) ==> CopyInv(b, commits)
    ensures CommitInv(a, commits) ==> CommitInv(b, commits)
    ensures ReturnInv(a, commits, advanced, syncDir) ==> ReturnInv(b, commits, advanced', syncDir')
  {}

  lemma ObjsKeep(a: seq<Group>, b: seq<Group>, objs: nat)
    requires SameShape(a, b) && ObjInv(a, objs)
    requires forall i :: 0 <= i < |a| && a[i].phase.Freed? ==> b[i].phase.Freed?
    ensures ObjInv(b, objs)
  {}

  /** A step of one group's release. */
  lemma ReleaseStep(s: State, t: State, g: nat)
    requires Inv(s) && g < |s.groups| && SameHands(s.groups, t.groups) && t.commits == s.commits
    requires t.fileEnds == s.fileEnds && t.lock == s.lock && t.objs == s.objs && t.syncFile == s.syncFile
    requires s.advanced <= t.advanced && s.syncDir <= t.syncDir
    requires forall i :: 0 <= i < |s.groups| && i != g ==> t.groups[i] == s.groups[i]
    requires !s.groups[g].phase.Open? && !s.groups[g].phase.Freed? && !t.groups[g].phase.Closed?
    requires s.groups[g].copying == {}
    requires s.lock.Switching? && s.lock.g == g ==> !s.lock.release
    requires WriteInv(t.groups, t.advanced, t.writeLsn)
    requires DirInv(t.groups, t.syncDir, t.dirDurable, FileId(t)) && SyncLockInv(t.groups, t.syncLock)
    ensures Inv(t)
  {
    hide WriteInv, DirInv, SyncLockInv, CopyInv, CommitInv, ReturnInv, OwnerInv, Layout, FileInv, ObjInv;
    ShapeKeeps(s.groups, t.groups, s.fileEnds);
    HandsKeep(s.groups, t.groups, s.commits, s.advanced, t.advanced, s.syncDir, t.syncDir);
    ObjsKeep(s.groups, t.groups, s.objs);
  }

  lemma WriteKeeps(s: State, g: nat)
    requires Inv(s) && CanWrite(s, g)
    ensures Inv(DoWrite(s, g))
  {
    hide Layout, FileInv, ObjInv, CopyInv, CommitInv, ReturnInv, OwnerInv;
    ReleaseStep(s, DoWrite(s, g), g);
  }

  lemma WriteFailKeeps(s: State, g: nat)
    requires Inv(s) && CanWrite(s, g)
    ensures Inv(DoWriteFail(s, g))
  {
    hide Layout, FileInv, ObjInv, CopyInv, CommitInv, ReturnInv, OwnerInv;
    ReleaseStep(s, DoWriteFail(s, g), g);
  }

  /** Ends of closed groups grow strictly with the group number. */
  lemma EndsIncrease(groups: seq<Group>, i: nat, j: nat)
    requires Layout(groups) && i <= j < |groups| - 1
    ensures i == j || Below(End(groups[i]), End(groups[j]))
    ensures Below(Lsn(1, 0), End(groups[j])) && (i > 0 ==> Below(End(groups[i - 1]), End(groups[j])))
  {
    if i < j {
      assert AtMost(End(groups[i]), Start(groups[j]));
    }
    if i > 0 {
      assert AtMost(End(groups[i - 1]), Start(groups[j]));
    }
  }

  /** The group whose release LSN `writeLsn` stands at is the next in order. */
  lemma NextToAdvance(s: State, g: nat)
    requires Inv(s) && g < |s.groups| && s.writeLsn == s.groups[g].release && s.advanced <= g
    ensures g == s.advanced
  {
    hide CommitsInv, FileInv, DirInv, SyncLockInv, ObjInv;
    if s.advanced < g {
      EndsIncrease(s.groups, s.advanced, g - 1);
    }
  }

  lemma AdvanceKeeps(s: State, g: nat)
    requires Inv(s) && CanAdvance(s, g)
    ensures Inv(DoAdvance(s, g))
  {
    hide Layout, FileInv, ObjInv, CopyInv, CommitInv, ReturnInv, OwnerInv;
    NextToAdvance(s, g);
    ReleaseStep(s, DoAdvance(s, g), g);
  }

  lemma DirSkipKeeps(s: State, g: nat)
    requires Inv(s) && CanDirSkip(s, g)
    ensures Inv(DoDirSkip(s, g))
  {
    hide Layout, FileInv, ObjInv, CopyInv, CommitInv, ReturnInv, OwnerInv;
    ReleaseStep(s, DoDirSkip(s, g), g);
  }

  lemma DirBeginKeeps(s: State, g: nat)
    requires Inv(s) && CanDirBegin(s, g)
    ensures Inv(DoDirBegin(s, g))
  {
    hide Layout, ObjInv, CopyInv, CommitInv, ReturnInv, OwnerInv;
    ReleaseStep(s, DoDirBegin(s, g), g);
  }

  lemma DirEndKeeps(s: State, g: nat)
    requires Inv(s) && CanDirEnd(s, g)
    ensures Inv(DoDirEnd(s, g))
  {
    hide Layout, FileInv, ObjInv, CopyInv, CommitInv, ReturnInv, OwnerInv;
    ReleaseStep(s, DoDirEnd(s, g), g);
  }

  lemma DirFailKeeps(s: State, g: nat)
    requires Inv(s) && CanDirEnd(s, g)
    ensures Inv(DoDirFail(s, g))
  {
    hide Layout, FileInv, ObjInv, CopyInv, CommitInv, ReturnInv, OwnerInv;
    ReleaseStep(s, DoDirFail(s, g), g);
  }

  lemma CloseFileKeeps(s: State)
    requires Inv(s) && CanCloseFile(s)
    ensures Inv(DoCloseFile(s))
  {
    hide Layout, FileInv, ObjInv, CopyInv, CommitInv, ReturnInv, OwnerInv, HandInv, LockInv, WriteInv, DirInv,
      SyncLockInv;
  }

  lemma GroupsSame(s: State, t: State)
    requires GroupsInv(s) && t.groups == s.groups && t.objs == s.objs && t.advanced == s.advanced
    requires t.writeLsn == s.writeLsn && t.fileEnds == s.fileEnds && t.syncFile == s.syncFile
    requires t.syncDir == s.syncDir && t.dirDurable == s.dirDurable && t.syncLock == s.syncLock
    ensures GroupsInv(t)
  {
    hide Layout, FileInv, ObjInv, WriteInv, DirInv, SyncLockInv;
  }

  lemma UnlockKeeps(s: State)
    requires Inv(s) && CanUnlock(s)
    ensures Inv(DoUnlock(s))
  {
    hide GroupsInv, CopyInv, CommitInv, ReturnInv;
    GroupsSame(s, DoUnlock(s));
  }

  /** What must hold of committer `c` of group `gr` for it to stop at `pc`. */
  predicate MayStopAt(s: State, c: nat, pc: Pc)
    requires Known(s, c)
  {
    var gr := GroupOf(s, c);
    var kind := s.commits[c].kind;
    && !pc.Copying? && !pc.Releasing?
    && (pc.Waiting? || pc.TryClose? || pc.Force? ==> kind.Grouped?)
    && (pc.StockWait? && kind.Grouped? ==> gr.releaser == Some(c))
    && (pc.StockWait? ==> !gr.phase.Open?)
    && (!kind.Unsynced? ==>
      && (pc.ReturnedOk? ==> s.commits[c].group < s.advanced)
      && ((pc.ReturnedOk? || pc.StockWait?) && gr.dir && (kind.Grouped? || gr.releaser == Some(c)) ==>
            gr.file <= s.syncDir))
  }

  /** A committer that is not copying moves, and nothing else changes. */
  lemma CommitterStep(s: State, c: nat, pc: Pc, waits: nat)
    requires Inv(s) && Known(s, c) && !s.commits[c].pc.Copying? && !Owns(s, c)
    requires MayStopAt(s, c, pc)
    ensures Inv(s.(commits := s.commits[c := s.commits[c].(pc := pc, waits := waits)]))
  {
    hide GroupsInv, HandInv, LockInv;
    var t := s.(commits := s.commits[c := s.commits[c].(pc := pc, waits := waits)]);
    GroupsSame(s, t);
  }

  /** A committer in the middle of a close is not the lock's owner. */
  lemma TryCloseNotOwner(s: State, c: nat)
    requires Inv(s) && Known(s, c)
    requires s.commits[c].pc.TryClose? || s.commits[c].pc.Force? || s.commits[c].pc.Releasing?
    ensures !Owns(s, c)
    ensures s.commits[c].pc.TryClose? || s.commits[c].pc.Force? ==> s.commits[c].kind.Grouped?
    ensures s.commits[c].pc.Releasing? ==> GroupOf(s, c).releaser == Some(c)
  {
    hide GroupsInv, CopyInv, ReturnInv, HandInv, LockInv;
  }

  lemma WaiterIsGrouped(s: State, c: nat)
    requires Inv(s) && Known(s, c) && s.commits[c].pc.Waiting?
    ensures s.commits[c].kind.Grouped?
  {
    hide GroupsInv, CopyInv, ReturnInv, HandInv, LockInv, OwnerInv;
  }

  lemma ObserveKeeps(s: State, c: nat)
    requires Inv(s) && CanObserve(s, c)
    ensures Inv(DoObserve(s, c))
  {
    hide Inv;
    WaiterIsGrouped(s, c);
    CommitterStep(s, c, TryClose, s.commits[c].waits);
  }

  lemma ObserveForceKeeps(s: State, c: nat)
    requires Inv(s) && CanObserveForce(s, c)
    ensures Inv(DoObserveForce(s, c))
  {
    hide Inv;
    WaiterIsGrouped(s, c);
    CommitterStep(s, c, Force, s.commits[c].waits);
  }

  lemma RetryKeeps(s: State, c: nat)
    requires Inv(s) && Known(s, c)
    requires s.commits[c].pc.TryClose? || s.commits[c].pc.Force? || (s.commits[c].pc.Waiting? && !Owns(s, c))
    ensures Inv(DoRetry(s, c))
  {
    hide Inv;
    if s.commits[c].pc.Waiting? {
      WaiterIsGrouped(s, c);
    } else {
      TryCloseNotOwner(s, c);
    }
    CommitterStep(s, c, Waiting, s.commits[c].waits + 1);
  }

  lemma NotBelowEarlierEnd(groups: seq<Group>, i: nat, j: nat, offset: nat)
    requires Layout(groups) && i < j < |groups| && groups[j].start <= offset
    ensures !Below(Lsn(groups[j].file, offset), End(groups[i]))
  {
    assert AtMost(End(groups[i]), Start(groups[j]));
  }

  /** A record below `write_lsn` is in a group that `write_lsn` has passed. */
  lemma PassedGroup(s: State, c: nat)
    requires Inv(s) && Known(s, c) && Below(RecordLsn(s, c), s.writeLsn)
    ensures s.commits[c].group < s.advanced
  {
    hide FileInv, DirInv, SyncLockInv, ObjInv, CopyInv, ReturnInv, HandInv, LockInv, OwnerInv;
    var g := s.commits[c].group;
    if 0 < s.advanced <= g {
      NotBelowEarlierEnd(s.groups, s.advanced - 1, g, s.commits[c].lo);
    }
  }

  lemma StockWaitFacts(s: State, c: nat)
    requires Inv(s) && Known(s, c) && s.commits[c].pc.StockWait? && !s.commits[c].kind.Unsynced?
    ensures GroupOf(s, c).dir && (s.commits[c].kind.Grouped? || GroupOf(s, c).releaser == Some(c)) ==>
              GroupOf(s, c).file <= s.syncDir
  {
    hide GroupsInv, CopyInv, CommitInv, HandInv, LockInv, OwnerInv;
  }

  lemma ReturnOkKeeps(s: State, c: nat)
    requires Inv(s) && CanReturnOk(s, c)
    ensures Inv(DoReturnOk(s, c))
  {
    hide Inv, ErrorOn;
    PassedGroup(s, c);
    if s.commits[c].pc.StockWait? && !s.commits[c].kind.Unsynced? {
      StockWaitFacts(s, c);
    }
    CommitterStep(s, c, ReturnedOk, s.commits[c].waits);
  }

  lemma ReturnErrorKeeps(s: State, c: nat)
    requires Inv(s) && CanReturnError(s, c)
    ensures Inv(DoReturnError(s, c))
  {
    hide Inv, ErrorOn;
    CommitterStep(s, c, ReturnedError, s.commits[c].waits);
  }

  lemma FreedFacts(s: State, g: nat)
    requires Inv(s) && g < |s.groups|
    ensures s.groups[g].phase.Freed? ==> g < s.advanced && (s.groups[g].dir ==> s.groups[g].file <= s.syncDir)
  {
    hide Layout, FileInv, SyncLockInv, ObjInv, CommitsInv;
  }

  lemma ReleaseReturnsKeeps(s: State, c: nat)
    requires Inv(s) && CanReleaseReturns(s, c)
    ensures Inv(DoReleaseReturns(s, c))
  {
    hide Inv;
    TryCloseNotOwner(s, c);
    FreedFacts(s, s.commits[c].group);
    CommitterStep(s, c, if s.commits[c].kind.Unsynced? then ReturnedOk else StockWait, s.commits[c].waits);
  }

  // --- joins, copies, closes and new slots --------------------------------

  /** The open group grows. */
  lemma OpenGrows(groups: seq<Group>, gr: Group, fileEnds: seq<Lsn>, advanced: nat, writeLsn: Lsn)
    requires Layout(groups)
    requires var old' := groups[|groups| - 1];
      && old'.phase.Open? && gr.phase.Open? && gr.file == old'.file && gr.start == old'.start && gr.end >= old'.end
      && gr.release == old'.release && gr.durable == old'.durable
    ensures Layout(groups[|groups| - 1 := gr])
    ensures FileInv(groups, fileEnds) ==> FileInv(groups[|groups| - 1 := gr], fileEnds)
    ensures WriteInv(groups, advanced, writeLsn) ==> WriteInv(groups[|groups| - 1 := gr], advanced, writeLsn)
  {
  }

  lemma JoinGroups(s: State, flags: Flags, size: nat)
    requires GroupsInv(s) && CanJoin(s, size)
    ensures GroupsInv(DoJoin(s, flags, size))
  {
    hide Layout, FileInv, WriteInv;
    assert |s.groups| > 0;
    var gr := DoJoin(s, flags, size).groups[|s.groups| - 1];
    OpenGrows(s.groups, gr, s.fileEnds, s.advanced, s.writeLsn);
  }

  lemma JoinCopies(s: State, flags: Flags, size: nat)
    requires Inv(s) && CanJoin(s, size)
    ensures var t := DoJoin(s, flags, size);
      && CopyInv(t.groups, t.commits) && HandInv(t.groups, t.lock)
      && LockInv(t.groups, t.lock) && OwnerInv(t.commits, t.lock)
  {
    hide GroupsInv, CommitInv, ReturnInv;
  }

  lemma JoinReturns(s: State, flags: Flags, size: nat)
    requires Inv(s) && CanJoin(s, size)
    ensures var t := DoJoin(s, flags, size);
      CommitInv(t.groups, t.commits) && ReturnInv(t.groups, t.commits, t.advanced, t.syncDir)
  {
    hide WriteInv, FileInv, DirInv, SyncLockInv, ObjInv, LockInv, OwnerInv, CopyInv;
  }

  lemma JoinCommits(s: State, flags: Flags, size: nat)
    requires Inv(s) && CanJoin(s, size)
    ensures CommitsInv(DoJoin(s, flags, size))
  {
    hide GroupsInv, CopyInv, CommitInv, ReturnInv, HandInv, LockInv, OwnerInv, DoJoin;
    JoinCopies(s, flags, size);
    JoinReturns(s, flags, size);
  }

  /** A finished copy changes its group's copiers and releaser, and commits. */
  lemma CopyDoneChanges(s: State, c: nat)
    requires CanCopyDone(s, c)
    ensures var t, g := DoCopyDone(s, c), s.commits[c].group;
      && t.groups == s.groups[g := s.groups[g].(copying := t.groups[g].copying, releaser := t.groups[g].releaser)]
      && t == s.(groups := t.groups, commits := t.commits)
  {}

  lemma CopyDoneGroups(s: State, c: nat)
    requires GroupsInv(s) && CanCopyDone(s, c)
    ensures GroupsInv(DoCopyDone(s, c))
  {
    hide Layout, FileInv, ObjInv, DoCopyDone;
    var t := DoCopyDone(s, c);
    CopyDoneChanges(s, c);
    assert SameShape(s.groups, t.groups);
    ShapeKeeps(s.groups, t.groups, s.fileEnds);
    ObjsKeep(s.groups, t.groups, s.objs);
  }

  lemma CopyDoneCopies(s: State, c: nat)
    requires Inv(s) && CanCopyDone(s, c)
    ensures var t := DoCopyDone(s, c); CopyInv(t.groups, t.commits)
  {
    hide GroupsInv, CommitInv, ReturnInv, LockInv, OwnerInv;
  }

  lemma CopyDoneReturns(s: State, c: nat)
    requires Inv(s) && CanCopyDone(s, c)
    ensures var t := DoCopyDone(s, c);
      CommitInv(t.groups, t.commits) && ReturnInv(t.groups, t.commits, t.advanced, t.syncDir)
  {
    hide GroupsInv, LockInv, OwnerInv;
  }

  lemma CopyDoneHands(s: State, c: nat)
    requires Inv(s) && CanCopyDone(s, c)
    ensures var t := DoCopyDone(s, c);
      HandInv(t.groups, t.lock) && LockInv(t.groups, t.lock) && OwnerInv(t.commits, t.lock)
  {
    hide GroupsInv, CommitInv, ReturnInv;
  }

  lemma CopyDoneCommits(s: State, c: nat)
    requires Inv(s) && CanCopyDone(s, c)
    ensures CommitsInv(DoCopyDone(s, c))
  {
    hide GroupsInv, CopyInv, CommitInv, ReturnInv, HandInv, LockInv, OwnerInv;
    CopyDoneCopies(s, c);
    CopyDoneReturns(s, c);
    CopyDoneHands(s, c);
  }

  lemma CloseGroups(s: State, owner: Option<nat>)
    requires GroupsInv(s) && CanClose(s, false)
    ensures GroupsInv(DoClose(s, owner))
  {
    hide Layout, FileInv, ObjInv, WriteInv, DirInv, SyncLockInv;
    var t := DoClose(s, owner);
    assert SameShape(s.groups, t.groups);
    ShapeKeeps(s.groups, t.groups, s.fileEnds);
    ObjsKeep(s.groups, t.groups, s.objs);
    ClosingKeeps(s.groups, s.advanced, s.writeLsn, s.syncDir, s.dirDurable, FileId(s), s.syncLock);
  }

  /** Closing the open group leaves what is said of later phases alone. */
  lemma ClosingKeeps(groups: seq<Group>, advanced: nat, writeLsn: Lsn, syncDir: nat, dirDurable: nat, fileId: nat,
                     syncLock: Option<nat>)
    requires groups != [] && groups[|groups| - 1].phase.Open?
    ensures var t := groups[|groups| - 1 := groups[|groups| - 1].(phase := Closed)];
      && (WriteInv(groups, advanced, writeLsn) ==> WriteInv(t, advanced, writeLsn))
      && (DirInv(groups, syncDir, dirDurable, fileId) ==> DirInv(t, syncDir, dirDurable, fileId))
      && (SyncLockInv(groups, syncLock) ==> SyncLockInv(t, syncLock))
  {}

  predicate MayOwnClose(s: State, c: nat) {
    && Known(s, c)
    && (s.commits[c].pc.Waiting? || (s.commits[c].pc.Copying? && s.commits[c].group == |s.groups| - 1))
  }

  lemma CloseCommits(s: State, owner: Option<nat>)
    requires Inv(s) && CanClose(s, false)
    requires owner.Some? ==> MayOwnClose(s, owner.value)
    ensures CommitsInv(DoClose(s, owner))
  {
    hide GroupsInv;
  }

  lemma NewSlotLayout(s: State, obj: nat, newFile: bool, at: nat)
    requires Inv(s) && CanNewSlot(s, obj, newFile, at)
    ensures var t := DoNewSlot(s, obj, newFile, at); Layout(t.groups) && FileInv(t.groups, t.fileEnds)
  {
    hide CopyInv, CommitInv, ReturnInv, HandInv, OwnerInv, WriteInv, DirInv, SyncLockInv, ObjInv;
  }

  lemma NewSlotGroups(s: State, obj: nat, newFile: bool, at: nat)
    requires Inv(s) && CanNewSlot(s, obj, newFile, at)
    ensures GroupsInv(DoNewSlot(s, obj, newFile, at))
  {
    hide CopyInv, CommitInv, ReturnInv, HandInv, OwnerInv, Layout, FileInv;
    NewSlotLayout(s, obj, newFile, at);
  }

  lemma NewSlotCommits(s: State, obj: nat, newFile: bool, at: nat)
    requires Inv(s) && CanNewSlot(s, obj, newFile, at)
    ensures CommitsInv(DoNewSlot(s, obj, newFile, at))
  {
    hide GroupsInv;
  }
}
