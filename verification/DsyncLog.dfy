/** The log under `method=dsync`, as a step system. The log file is open
    `O_DSYNC`, so a group's one `pwrite` makes it durable. Committers join the
    active slot, copy their records and wait; whoever first finds every earlier
    group written closes the slot and writes it for all.

    A group is one activation of a slot object. Objects come from a pool and are
    reused: `slot == log->active_slot` compares objects, so it can become true
    again for a committer whose own group is long gone. Line numbers are those of
    cmake/patch_wt_dsync_group.py. */
module DsyncLog {
  import opened Optional
  import opened Lsns

  /** `Closed`: no more joins, to be written once the copies are done.
      `DirWait` and `DirSync`: `write_lsn` has passed it and its release is in
      the directory-sync loop; `seen` is the newest log file when the directory
      sync began. `Freed`: the object may be reused. `Failed`: `slot_error`. */
  datatype Phase = Open | Closed | Written | DirWait | DirSync(seen: nat) | Freed | Failed

  /** The slot's joined and released counts appear as the set of committers
      still copying: released equals joined exactly when it is empty. `releaser`
      is the committer that ran `__wt_log_release`, when it was not the closer. */
  datatype Group = Group(obj: nat, file: nat, start: nat, end: nat, release: Lsn, dir: bool,
                         copying: set<nat>, releaser: Option<nat>, durable: bool, phase: Phase)

  datatype Flags = Flags(dsync: bool, flush: bool, fsync: bool, unbuffered: bool)

  datatype Kind = Grouped | Stock | Unsynced

  datatype Pc = Copying | Waiting | TryClose | Force | Releasing | StockWait | ReturnedOk | ReturnedError

  /** A commit whose record is offsets `lo..hi` of its group's file. */
  datatype Commit = Commit(group: nat, lo: nat, hi: nat, kind: Kind, pc: Pc, waits: nat)

  /** `log_slot_lock`. `Switching`: the holder has closed `g` and must install a
      replacement, then release `g` if `release`. `Releasing`: it is in the
      release of `g`. `owner` is a committer, or none for any other thread. */
  datatype SlotLock =
    | Unlocked
    | Switching(owner: Option<nat>, g: nat, release: bool)
    | ReleaseHeld(owner: Option<nat>, g: nat)

  /** `fileEnds[k]` is where allocation stood when the log left file `k + 1`.
      `syncFile` is `sync_lsn`'s file, `syncDir` is `sync_dir_lsn`'s.
      `dirDurable`: directory entries of files up to it are on disk. */
  datatype State = State(
    groups: seq<Group>,
    commits: seq<Commit>,
    objs: nat,
    bufMax: nat,
    advanced: nat,
    writeLsn: Lsn,
    fileEnds: seq<Lsn>,
    syncFile: nat,
    syncDir: nat,
    dirDurable: nat,
    lock: SlotLock,
    syncLock: Option<nat>)

  datatype Event =
    | Join(flags: Flags, size: nat)
    | CopyDone(c: nat)
    | CloseForced(c: nat)
    | CloseStock(c: nat)
    | CloseOther(forced: bool)
    | NewSlot(obj: nat, newFile: bool, at: nat)
    | Write(g: nat)
    | WriteFail(g: nat)
    | Advance(g: nat)
    | DirSkip(g: nat)
    | DirBegin(g: nat)
    | DirEnd(g: nat)
    | DirFail(g: nat)
    | CloseFile
    | Unlock
    | ReleaseReturns(c: nat)
    | Observe(c: nat)
    | Refused(c: nat)
    | Continue(c: nat)
    | Tick(c: nat)
    | ObserveForce(c: nat)
    | ReturnOk(c: nat)
    | ReturnError(c: nat)

  function Start(gr: Group): Lsn { Lsn(gr.file, gr.start) }

  function End(gr: Group): Lsn { Lsn(gr.file, gr.end) }

  function FileId(s: State): nat { |s.fileEnds| + 1 }

  function Last(s: State): Group
    requires |s.groups| > 0
  {
    s.groups[|s.groups| - 1]
  }

  function SetPhase(s: State, g: nat, p: Phase): State
    requires g < |s.groups|
  {
    s.(groups := s.groups[g := s.groups[g].(phase := p)])
  }

  function SetPc(s: State, c: nat, pc: Pc): State
    requires c < |s.commits|
  {
    s.(commits := s.commits[c := s.commits[c].(pc := pc)])
  }

  /** Lines 163-166: which commits leave their slot open and wait in a group. */
  predicate IsGrouped(flags: Flags, endOffset: int, bufMax: nat) {
    flags.dsync && flags.flush && !flags.fsync && !flags.unbuffered && endOffset < bufMax
  }

  function KindOf(flags: Flags, endOffset: int, bufMax: nat): Kind {
    if IsGrouped(flags, endOffset, bufMax) then Grouped else if flags.flush then Stock else Unsynced
  }

  /** A committer and its group, well defined. */
  predicate Known(s: State, c: nat) {
    c < |s.commits| && s.commits[c].group < |s.groups| && |s.groups| > 0
  }

  function GroupOf(s: State, c: nat): Group
    requires Known(s, c)
  {
    s.groups[s.commits[c].group]
  }

  function RecordLsn(s: State, c: nat): Lsn
    requires Known(s, c)
  {
    Lsn(GroupOf(s, c).file, s.commits[c].lo)
  }

  /** `slot == log->active_slot`. */
  predicate OnActive(s: State, c: nat)
    requires Known(s, c)
  {
    GroupOf(s, c).obj == Last(s).obj
  }

  /** `slot->slot_error != 0`: a failed group's object is never freed. */
  predicate ErrorOn(s: State, obj: nat) {
    exists g :: 0 <= g < |s.groups| && s.groups[g].phase.Failed? && s.groups[g].obj == obj
  }

  predicate Owns(s: State, c: nat) {
    !s.lock.Unlocked? && s.lock.owner == Some(c)
  }

  predicate FreeObj(s: State, obj: nat) {
    obj < s.objs && forall g :: 0 <= g < |s.groups| && s.groups[g].obj == obj ==> s.groups[g].phase.Freed?
  }

  predicate Init(s: State) {
    && s.objs >= 2
    && s == State([Group(0, 1, 0, 0, Lsn(1, 0), false, {}, None, false, Open)],
                  [], s.objs, s.bufMax, 0, Lsn(1, 0), [], 1, 0, 0, Unlocked, None)
  }

  // --- joining and copying ------------------------------------------------

  predicate CanJoin(s: State, size: nat) {
    |s.groups| > 0 && size > 0 && Last(s).phase.Open?
  }

  function DoJoin(s: State, flags: Flags, size: nat): State
    requires CanJoin(s, size)
  {
    var g := |s.groups| - 1;
    var gr := Last(s);
    var c := |s.commits|;
    var kind := KindOf(flags, gr.end + size - gr.start, s.bufMax);
    s.(groups := s.groups[g := gr.(end := gr.end + size, dir := gr.dir || flags.dsync, copying := gr.copying + {c})],
       commits := s.commits + [Commit(g, gr.end, gr.end + size, kind, Copying, 0)])
  }

  /** A stock synced commit closes its slot before it copies. */
  predicate CanCopyDone(s: State, c: nat) {
    && Known(s, c) && s.commits[c].pc.Copying? && !Owns(s, c)
    && (s.commits[c].kind.Stock? ==> !GroupOf(s, c).phase.Open?)
  }

  function AfterCopy(kind: Kind): Pc {
    match kind
    case Grouped => Waiting
    case Stock => StockWait
    case Unsynced => ReturnedOk
  }

  /** The last committer out of a closed slot releases it itself. */
  function DoCopyDone(s: State, c: nat): State
    requires CanCopyDone(s, c)
  {
    var g := s.commits[c].group;
    var gr := s.groups[g];
    var rest := gr.copying - {c};
    if gr.phase.Closed? && rest == {}
    then SetPc(s, c, Releasing).(groups := s.groups[g := gr.(copying := rest, releaser := Some(c))])
    else SetPc(s, c, AfterCopy(s.commits[c].kind)).(groups := s.groups[g := gr.(copying := rest)])
  }

  // --- closing the slot and installing a new one --------------------------

  predicate CanClose(s: State, forced: bool) {
    && |s.groups| > 0 && s.lock.Unlocked?
    && Last(s).phase.Open? && Last(s).start < Last(s).end
    && (forced ==> Last(s).copying == {})
  }

  function DoClose(s: State, owner: Option<nat>): State
    requires |s.groups| > 0
  {
    SetPhase(s, |s.groups| - 1, Closed)
      .(lock := Switching(owner, |s.groups| - 1, Last(s).copying == {}))
  }

  /** A committer's forced close: of its own slot by try-lock (lines 64-86), or of
      the active slot by the blocking fallback (line 137). */
  predicate CanCloseForced(s: State, c: nat) {
    && CanClose(s, true) && Known(s, c)
    && ((s.commits[c].pc.TryClose? && OnActive(s, c)) || s.commits[c].pc.Force?)
  }

  function DoCloseForced(s: State, c: nat): State
    requires CanCloseForced(s, c)
  {
    DoClose(SetPc(s, c, Waiting), Some(c))
  }

  predicate CanCloseStock(s: State, c: nat) {
    && CanClose(s, false) && Known(s, c)
    && s.commits[c].kind.Stock? && s.commits[c].pc.Copying? && s.commits[c].group == |s.groups| - 1
  }

  function DoCloseStock(s: State, c: nat): State
    requires CanCloseStock(s, c)
  {
    DoClose(s, Some(c))
  }

  predicate CanNewSlot(s: State, obj: nat, newFile: bool, at: nat) {
    && |s.groups| > 0 && s.lock.Switching? && FreeObj(s, obj)
    && (!newFile ==> at == Last(s).end)
  }

  function DoNewSlot(s: State, obj: nat, newFile: bool, at: nat): State
    requires CanNewSlot(s, obj, newFile, at)
  {
    var file := if newFile then FileId(s) + 1 else FileId(s);
    s.(groups := s.groups + [Group(obj, file, at, at, End(Last(s)), false, {}, None, false, Open)],
       fileEnds := if newFile then s.fileEnds + [End(Last(s))] else s.fileEnds,
       lock := if s.lock.release then ReleaseHeld(s.lock.owner, s.lock.g) else Unlocked)
  }

  // --- releasing a closed slot --------------------------------------------

  predicate CanWrite(s: State, g: nat) {
    && g < |s.groups| && s.groups[g].phase.Closed? && s.groups[g].copying == {}
    && (s.groups[g].releaser.Some? || (s.lock.ReleaseHeld? && s.lock.g == g))
  }

  function DoWrite(s: State, g: nat): State
    requires CanWrite(s, g)
  {
    s.(groups := s.groups[g := s.groups[g].(durable := true, phase := Written)])
  }

  function DoWriteFail(s: State, g: nat): State
    requires CanWrite(s, g)
  {
    SetPhase(s, g, Failed)
  }

  predicate CanAdvance(s: State, g: nat) {
    g < |s.groups| && s.groups[g].phase.Written? && s.writeLsn == s.groups[g].release
  }

  function DoAdvance(s: State, g: nat): State
    requires CanAdvance(s, g)
  {
    SetPhase(s, g, if s.groups[g].dir then DirWait else Freed)
      .(advanced := s.advanced + 1, writeLsn := End(s.groups[g]))
  }

  /** Lines 188-192: no lock for a directory sync that is already done. */
  predicate CanDirSkip(s: State, g: nat) {
    g < |s.groups| && s.groups[g].phase.DirWait? && s.groups[g].file <= s.syncDir
  }

  function DoDirSkip(s: State, g: nat): State
    requires CanDirSkip(s, g)
  {
    SetPhase(s, g, Freed)
  }

  predicate CanDirBegin(s: State, g: nat) {
    g < |s.groups| && s.groups[g].phase.DirWait? && s.groups[g].file <= s.syncFile && s.syncLock.None?
  }

  function DoDirBegin(s: State, g: nat): State
    requires CanDirBegin(s, g)
  {
    SetPhase(s, g, DirSync(FileId(s))).(syncLock := Some(g))
  }

  predicate CanDirEnd(s: State, g: nat) {
    g < |s.groups| && s.groups[g].phase.DirSync?
  }

  /** `__log_fsync_dir` syncs, and moves `sync_dir_lsn`, only if needed. */
  function DoDirEnd(s: State, g: nat): State
    requires CanDirEnd(s, g)
  {
    var needed := s.syncDir < s.groups[g].file;
    SetPhase(s, g, Freed)
      .(syncLock := None,
        dirDurable := if needed && s.dirDurable < s.groups[g].phase.seen then s.groups[g].phase.seen else s.dirDurable,
        syncDir := if needed then s.groups[g].file else s.syncDir)
  }

  function DoDirFail(s: State, g: nat): State
    requires CanDirEnd(s, g)
  {
    SetPhase(s, g, Failed).(syncLock := None)
  }

  /** The file-closing thread: `sync_lsn` moves to the start of the next file. */
  predicate CanCloseFile(s: State) {
    && 1 <= s.syncFile < FileId(s) && s.syncLock.None?
    && AtMost(s.fileEnds[s.syncFile - 1], s.writeLsn)
  }

  function DoCloseFile(s: State): State
    requires CanCloseFile(s)
  {
    s.(syncFile := s.syncFile + 1)
  }

  /** Releasing is over for its thread once the object is freed, failed, or (for
      a group nobody waits on) written and left to the `write_lsn` thread. */
  predicate Released(gr: Group) {
    gr.phase.Freed? || gr.phase.Failed? || (gr.phase.Written? && !gr.dir)
  }

  predicate CanUnlock(s: State) {
    s.lock.ReleaseHeld? && s.lock.g < |s.groups| && Released(s.groups[s.lock.g])
  }

  function DoUnlock(s: State): State
    requires CanUnlock(s)
  {
    s.(lock := Unlocked)
  }

  predicate CanReleaseReturns(s: State, c: nat) {
    Known(s, c) && s.commits[c].pc.Releasing? && Released(GroupOf(s, c)) && !GroupOf(s, c).phase.Failed?
  }

  function DoReleaseReturns(s: State, c: nat): State
    requires CanReleaseReturns(s, c)
  {
    SetPc(s, c, if s.commits[c].kind.Unsynced? then ReturnedOk else StockWait)
  }

  // --- the wait loop of __log_dsync_group_commit --------------------------

  /** Lines 122-123: the slot is active and every earlier group is written. */
  predicate CanObserve(s: State, c: nat) {
    && Known(s, c) && s.commits[c].pc.Waiting? && !Owns(s, c)
    && OnActive(s, c) && s.writeLsn == Last(s).release
  }

  function DoObserve(s: State, c: nat): State
    requires CanObserve(s, c)
  {
    SetPc(s, c, TryClose)
  }

  /** EBUSY: the lock is held, or a thread is still copying into the slot. */
  predicate CanRefused(s: State, c: nat) {
    Known(s, c) && s.commits[c].pc.TryClose? && (!s.lock.Unlocked? || Last(s).copying != {})
  }

  function DoRetry(s: State, c: nat): State
    requires Known(s, c)
  {
    s.(commits := s.commits[c := s.commits[c].(pc := Waiting, waits := s.commits[c].waits + 1)])
  }

  /** The switch found nothing to do: the slot is no longer active, or is empty. */
  predicate CanContinue(s: State, c: nat) {
    && Known(s, c) && s.lock.Unlocked?
    && ((s.commits[c].pc.TryClose? && !OnActive(s, c)) ||
        ((s.commits[c].pc.TryClose? || s.commits[c].pc.Force?) &&
         (!Last(s).phase.Open? || Last(s).start == Last(s).end)))
  }

  predicate CanTick(s: State, c: nat) {
    Known(s, c) && s.commits[c].pc.Waiting? && !Owns(s, c)
  }

  /** Line 136: past a thousand yields, every fiftieth turn. */
  predicate CanObserveForce(s: State, c: nat) {
    && Known(s, c) && s.commits[c].pc.Waiting? && !Owns(s, c)
    && s.commits[c].waits >= 1000 && s.commits[c].waits % 50 == 0 && OnActive(s, c)
  }

  function DoObserveForce(s: State, c: nat): State
    requires CanObserveForce(s, c)
  {
    SetPc(s, c, Force)
  }

  /** Lines 116-120, then the stock wait and the final error check. */
  predicate CanReturnOk(s: State, c: nat) {
    && Known(s, c) && !Owns(s, c) && !ErrorOn(s, GroupOf(s, c).obj)
    && Below(RecordLsn(s, c), s.writeLsn)
    && (s.commits[c].pc.StockWait? || (s.commits[c].pc.Waiting? && GroupOf(s, c).file <= s.syncDir))
  }

  function DoReturnOk(s: State, c: nat): State
    requires CanReturnOk(s, c)
  {
    SetPc(s, c, ReturnedOk)
  }

  predicate CanReturnError(s: State, c: nat) {
    && Known(s, c) && !Owns(s, c) && ErrorOn(s, GroupOf(s, c).obj)
    && (s.commits[c].pc.StockWait? || s.commits[c].pc.Waiting? || s.commits[c].pc.Releasing?)
  }

  function DoReturnError(s: State, c: nat): State
    requires CanReturnError(s, c)
  {
    SetPc(s, c, ReturnedError)
  }

  predicate Enabled(s: State, e: Event) {
    match e
    case Join(flags, size) => CanJoin(s, size)
    case CopyDone(c) => CanCopyDone(s, c)
    case CloseForced(c) => CanCloseForced(s, c)
    case CloseStock(c) => CanCloseStock(s, c)
    case CloseOther(forced) => CanClose(s, forced)
    case NewSlot(obj, newFile, at) => CanNewSlot(s, obj, newFile, at)
    case Write(g) => CanWrite(s, g)
    case WriteFail(g) => CanWrite(s, g)
    case Advance(g) => CanAdvance(s, g)
    case DirSkip(g) => CanDirSkip(s, g)
    case DirBegin(g) => CanDirBegin(s, g)
    case DirEnd(g) => CanDirEnd(s, g)
    case DirFail(g) => CanDirEnd(s, g)
    case CloseFile => CanCloseFile(s)
    case Unlock => CanUnlock(s)
    case ReleaseReturns(c) => CanReleaseReturns(s, c)
    case Observe(c) => CanObserve(s, c)
    case Refused(c) => CanRefused(s, c)
    case Continue(c) => CanContinue(s, c)
    case Tick(c) => CanTick(s, c)
    case ObserveForce(c) => CanObserveForce(s, c)
    case ReturnOk(c) => CanReturnOk(s, c)
    case ReturnError(c) => CanReturnError(s, c)
  }

  function Apply(s: State, e: Event): State
    requires Enabled(s, e)
  {
    match e
    case Join(flags, size) => DoJoin(s, flags, size)
    case CopyDone(c) => DoCopyDone(s, c)
    case CloseForced(c) => DoCloseForced(s, c)
    case CloseStock(c) => DoCloseStock(s, c)
    case CloseOther(forced) => DoClose(s, None)
    case NewSlot(obj, newFile, at) => DoNewSlot(s, obj, newFile, at)
    case Write(g) => DoWrite(s, g)
    case WriteFail(g) => DoWriteFail(s, g)
    case Advance(g) => DoAdvance(s, g)
    case DirSkip(g) => DoDirSkip(s, g)
    case DirBegin(g) => DoDirBegin(s, g)
    case DirEnd(g) => DoDirEnd(s, g)
    case DirFail(g) => DoDirFail(s, g)
    case CloseFile => DoCloseFile(s)
    case Unlock => DoUnlock(s)
    case ReleaseReturns(c) => DoReleaseReturns(s, c)
    case Observe(c) => DoObserve(s, c)
    case Refused(c) => DoRetry(s, c)
    case Continue(c) => DoRetry(s, c)
    case Tick(c) => DoRetry(s, c)
    case ObserveForce(c) => DoObserveForce(s, c)
    case ReturnOk(c) => DoReturnOk(s, c)
    case ReturnError(c) => DoReturnError(s, c)
  }

  /** A run: `tr[k]` is the state before event `es[k]`. */
  ghost predicate IsRun(tr: seq<State>, es: seq<Event>) {
    && |tr| == |es| + 1
    && Init(tr[0])
    && forall k :: 0 <= k < |es| ==> Enabled(tr[k], es[k]) && tr[k + 1] == Apply(tr[k], es[k])
  }
}
