/** The log under `method=fsync`, as a step system: slots are filled, closed and
    written by any number of threads; a slot's releasing thread then runs the
    patched sync loop of `__wt_log_release`; the log may switch files at any
    slot boundary and a closing thread syncs files left behind.

    Slots are numbered by activation, so a slot object that is reused is a new
    number here. Line numbers are those of cmake/patch_wt_fsync_group.py. */
module FsyncLog {
  import opened Optional
  import opened Lsns

  /** Where a slot's releasing thread stands.
      `Looping` to `Flushed` are the sync loop; `Locked` to `Flushed` hold
      `log_sync_lock`. */
  datatype Phase =
    | Filling
    | Writing
    | Written
    | Looping
    | Locked
    | Noted(own: bool, noted: Lsn)
    | Flushing(noted: Lsn, handle: nat, covers: set<nat>)
    | Flushed(own: bool, noted: Lsn, handle: nat)
    | Done
    | Failed

  /** One activation of a log slot. It covers offsets `start..end` of `file`;
      `release` is the LSN where the previous allocation finished. `written`:
      its `pwrite` has returned. `durable`: it was written before some `fsync`
      of its own file began, and that `fsync` has completed. */
  datatype Slot = Slot(file: nat, start: nat, end: nat, release: Lsn, sync: bool, dir: bool,
                       written: bool, durable: bool, phase: Phase)

  datatype Status = Waiting | ReturnedOk | ReturnedError

  /** A synced commit: its record is offsets `lo..hi` of its slot's file. */
  datatype Commit = Commit(slot: nat, lo: nat, hi: nat, status: Status)

  /** `fileEnds[k]` is where allocation stood when the log left file `k`, so the
      current file (`log->fileid`) is `|fileEnds|`. `advanced` counts the slots
      `writeLsn` has passed. `closing` is the next file the closing thread will
      sync, and `closer` what its `fsync` in flight covers. `syncDir` is the file of
      `sync_dir_lsn`: entries of files up to it are in the synced log directory. */
  datatype State = State(
    slots: seq<Slot>,
    commits: seq<Commit>,
    advanced: nat,
    writeLsn: Lsn,
    syncLsn: Lsn,
    fileEnds: seq<Lsn>,
    closing: nat,
    closer: Option<set<nat>>,
    lock: Option<nat>,
    panic: bool,
    syncDir: nat)

  datatype Event =
    | Join(size: nat, sync: bool, dir: bool)
    | CloseSlot
    | NewSlot(newFile: bool, at: nat)
    | Write(g: nat)
    | WriteFail(g: nat)
    | Advance(g: nat)
    | LeaveCovered(g: nat)
    | TakeLock(g: nat)
    | Note(g: nat)
    | SkipFsync(g: nat)
    | FsyncBegin(g: nat)
    | FsyncEnd(g: nat)
    | FsyncFail(g: nat)
    | Credit(g: nat)
    | CloseFsync
    | CloseDone
    | ReturnOk(c: nat)
    | ReturnError(c: nat)

  function Start(sl: Slot): Lsn { Lsn(sl.file, sl.start) }

  function End(sl: Slot): Lsn { Lsn(sl.file, sl.end) }

  function FileId(s: State): nat { |s.fileEnds| }

  function RecordLsn(s: State, c: nat): Lsn
    requires c < |s.commits| && s.commits[c].slot < |s.slots|
  {
    Lsn(s.slots[s.commits[c].slot].file, s.commits[c].lo)
  }

  function SetPhase(s: State, g: nat, p: Phase): State
    requires g < |s.slots|
  {
    s.(slots := s.slots[g := s.slots[g].(phase := p)])
  }

  function MarkDurable(slots: seq<Slot>, covers: set<nat>): (r: seq<Slot>)
    ensures |r| == |slots|
    ensures forall i :: 0 <= i < |r| ==> r[i] == if i in covers then slots[i].(durable := true) else slots[i]
  {
    if slots == [] then []
    else
      var last := |slots| - 1;
      MarkDurable(slots[..last], covers) + [if last in covers then slots[last].(durable := true) else slots[last]]
  }

  /** What one `__log_fsync_file` for slot `g` flushes (a contract of the stock
      code): every byte already written to the file whose handle is current when
      it is called, and what the slot's own file holds up to the slot's end. */
  function FsyncCovers(s: State, g: nat): set<nat>
    requires g < |s.slots|
  {
    set i | 0 <= i < |s.slots| && s.slots[i].written &&
      (s.slots[i].file == FileId(s) || (s.slots[i].file == s.slots[g].file && i <= g))
  }

  function FileSlots(s: State, f: nat): set<nat> {
    set i | 0 <= i < |s.slots| && s.slots[i].written && s.slots[i].file == f
  }

  predicate InLock(p: Phase) {
    p.Locked? || p.Noted? || p.Flushing? || p.Flushed?
  }

  function Last(s: State): Slot
    requires |s.slots| > 0
  {
    s.slots[|s.slots| - 1]
  }

  predicate Init(s: State) {
    s == State([Slot(0, 0, 0, Lsn(0, 0), false, false, false, false, Filling)],
               [], 0, Lsn(0, 0), Lsn(0, 0), [], 0, None, None, false, 0)
  }

  // --- filling and writing slots -----------------------------------------

  predicate CanJoin(s: State, size: nat) {
    |s.slots| > 0 && size > 0 && Last(s).phase.Filling?
  }

  /** A record joins the open slot; only a synced commit is tracked further. */
  function DoJoin(s: State, size: nat, sync: bool, dir: bool): State
    requires CanJoin(s, size)
  {
    var g := |s.slots| - 1;
    var sl := Last(s);
    s.(slots := s.slots[g := sl.(end := sl.end + size, sync := sl.sync || sync, dir := sl.dir || dir)],
       commits := if sync then s.commits + [Commit(g, sl.end, sl.end + size, Waiting)] else s.commits)
  }

  predicate CanCloseSlot(s: State) {
    |s.slots| > 0 && Last(s).phase.Filling? && Last(s).start < Last(s).end
  }

  function DoCloseSlot(s: State): State
    requires CanCloseSlot(s)
  {
    SetPhase(s, |s.slots| - 1, Writing)
  }

  predicate CanNewSlot(s: State, newFile: bool, at: nat) {
    |s.slots| > 0 && !Last(s).phase.Filling? && (!newFile ==> at == Last(s).end)
  }

  /** The next slot starts where allocation stands, or in a new file. */
  function DoNewSlot(s: State, newFile: bool, at: nat): State
    requires CanNewSlot(s, newFile, at)
  {
    var file := if newFile then FileId(s) + 1 else FileId(s);
    s.(slots := s.slots + [Slot(file, at, at, End(Last(s)), false, false, false, false, Filling)],
       fileEnds := if newFile then s.fileEnds + [End(Last(s))] else s.fileEnds)
  }

  predicate CanWrite(s: State, g: nat) {
    g < |s.slots| && s.slots[g].phase.Writing?
  }

  function DoWrite(s: State, g: nat): State
    requires CanWrite(s, g)
  {
    s.(slots := s.slots[g := s.slots[g].(written := true, phase := Written)])
  }

  function DoWriteFail(s: State, g: nat): State
    requires CanWrite(s, g)
  {
    SetPhase(s, g, Failed)
  }

  /** `write_lsn` moves to a written slot's end once it stands at the slot's
      release LSN. */
  predicate CanAdvance(s: State, g: nat) {
    g < |s.slots| && s.slots[g].phase.Written? && s.writeLsn == s.slots[g].release
  }

  function DoAdvance(s: State, g: nat): State
    requires CanAdvance(s, g)
  {
    var sl := s.slots[g];
    SetPhase(s, g, if sl.sync || sl.dir then Looping else Done)
      .(advanced := s.advanced + 1, writeLsn := End(sl))
  }

  // --- the patched sync loop of __wt_log_release --------------------------

  /** Lines 70-74: a slot that needs only a file sync leaves once covered. */
  predicate CanLeave(s: State, g: nat) {
    g < |s.slots| && s.slots[g].phase.Looping? && !s.slots[g].dir && AtMost(End(s.slots[g]), s.syncLsn)
  }

  function DoLeave(s: State, g: nat): State
    requires CanLeave(s, g)
  {
    SetPhase(s, g, Done)
  }

  /** Lines 75-79: wait for earlier files, and for the lock. */
  predicate CanTakeLock(s: State, g: nat) {
    g < |s.slots| && s.slots[g].phase.Looping? && s.slots[g].file <= s.syncLsn.file && s.lock.None?
  }

  function DoTakeLock(s: State, g: nat): State
    requires CanTakeLock(s, g)
  {
    SetPhase(s, g, Locked).(lock := Some(g))
  }

  predicate CanNote(s: State, g: nat) {
    g < |s.slots| && s.slots[g].phase.Locked?
  }

  /** The stock sync of the log directory, for a slot that asks for it, comes first;
      then lines 86-89. A slot that needs no file sync is finished. */
  function DoNote(s: State, g: nat): State
    requires CanNote(s, g)
  {
    var sl := s.slots[g];
    var t := s.(syncDir := if sl.dir && s.syncDir < sl.file then sl.file else s.syncDir);
    if sl.sync
    then SetPhase(t, g, Noted(Below(s.syncLsn, End(sl)), s.writeLsn))
    else SetPhase(t, g, Done).(lock := None)
  }

  predicate CanSkip(s: State, g: nat) {
    g < |s.slots| && s.slots[g].phase.Noted? && !s.slots[g].phase.own
  }

  function DoSkip(s: State, g: nat): State
    requires CanSkip(s, g)
  {
    SetPhase(s, g, Flushed(false, s.slots[g].phase.noted, FileId(s)))
  }

  predicate CanFsync(s: State, g: nat) {
    g < |s.slots| && s.slots[g].phase.Noted? && s.slots[g].phase.own
  }

  function DoFsync(s: State, g: nat): State
    requires CanFsync(s, g)
  {
    SetPhase(s, g, Flushing(s.slots[g].phase.noted, FileId(s), FsyncCovers(s, g)))
  }

  predicate CanFsyncEnd(s: State, g: nat) {
    g < |s.slots| && s.slots[g].phase.Flushing?
  }

  function FlushedSlots(slots: seq<Slot>, g: nat): (r: seq<Slot>)
    requires g < |slots| && slots[g].phase.Flushing?
  {
    var p := slots[g].phase;
    var marked := MarkDurable(slots, p.covers);
    marked[g := marked[g].(phase := Flushed(true, p.noted, p.handle))]
  }

  /** The stock end of `__log_fsync_file`: `sync_lsn` moves to the slot's end. */
  function DoFsyncEnd(s: State, g: nat): State
    requires CanFsyncEnd(s, g)
  {
    s.(slots := FlushedSlots(s.slots, g), syncLsn := End(s.slots[g]))
  }

  function DoFsyncFail(s: State, g: nat): State
    requires CanFsyncEnd(s, g)
  {
    SetPhase(s, g, Failed).(lock := None, panic := true)
  }

  predicate CanCredit(s: State, g: nat) {
    g < |s.slots| && s.slots[g].phase.Flushed?
  }

  /** Lines 91-93: the noted LSN is credited only if this thread made the sync,
      in the slot's own log file, with that file still the current one. */
  predicate MayCredit(s: State, g: nat)
    requires CanCredit(s, g)
  {
    && s.slots[g].phase.own
    && s.slots[g].phase.noted.file == s.slots[g].file
    && Below(End(s.slots[g]), s.slots[g].phase.noted)
    && FileId(s) == s.slots[g].file
    && s.syncLsn == End(s.slots[g])
  }

  function DoCredit(s: State, g: nat): State
    requires CanCredit(s, g)
  {
    SetPhase(s, g, Done)
      .(lock := None, syncLsn := if MayCredit(s, g) then s.slots[g].phase.noted else s.syncLsn)
  }

  // --- the thread that closes log files left behind -----------------------

  predicate CanCloseFsync(s: State) {
    s.closing < FileId(s) && s.closer.None? && AtMost(s.fileEnds[s.closing], s.writeLsn)
  }

  function DoCloseFsync(s: State): State
    requires CanCloseFsync(s)
  {
    s.(closer := Some(FileSlots(s, s.closing)))
  }

  predicate CanCloseDone(s: State) {
    s.closer.Some? && s.lock.None?
  }

  function DoCloseDone(s: State): State
    requires CanCloseDone(s)
  {
    s.(slots := MarkDurable(s.slots, s.closer.value), closer := None,
       closing := s.closing + 1, syncLsn := Lsn(s.closing + 1, 0))
  }

  // --- commits waiting for their sync -------------------------------------

  predicate CommitWaits(s: State, c: nat) {
    c < |s.commits| && s.commits[c].status.Waiting? && s.commits[c].slot < |s.slots|
  }

  predicate CanReturnOk(s: State, c: nat) {
    && CommitWaits(s, c)
    && !s.slots[s.commits[c].slot].phase.Failed?
    && Below(RecordLsn(s, c), s.syncLsn)
  }

  function DoReturnOk(s: State, c: nat): State
    requires CanReturnOk(s, c)
  {
    s.(commits := s.commits[c := s.commits[c].(status := ReturnedOk)])
  }

  predicate CanReturnError(s: State, c: nat) {
    CommitWaits(s, c) && (s.panic || s.slots[s.commits[c].slot].phase.Failed?)
  }

  function DoReturnError(s: State, c: nat): State
    requires CanReturnError(s, c)
  {
    s.(commits := s.commits[c := s.commits[c].(status := ReturnedError)])
  }

  /** A failed `fsync` panics the connection: only error returns remain. */
  predicate Enabled(s: State, e: Event) {
    && (s.panic ==> e.ReturnError?)
    && match e
       case Join(size, sync, dir) => CanJoin(s, size)
       case CloseSlot => CanCloseSlot(s)
       case NewSlot(newFile, at) => CanNewSlot(s, newFile, at)
       case Write(g) => CanWrite(s, g)
       case WriteFail(g) => CanWrite(s, g)
       case Advance(g) => CanAdvance(s, g)
       case LeaveCovered(g) => CanLeave(s, g)
       case TakeLock(g) => CanTakeLock(s, g)
       case Note(g) => CanNote(s, g)
       case SkipFsync(g) => CanSkip(s, g)
       case FsyncBegin(g) => CanFsync(s, g)
       case FsyncEnd(g) => CanFsyncEnd(s, g)
       case FsyncFail(g) => CanFsyncEnd(s, g)
       case Credit(g) => CanCredit(s, g)
       case CloseFsync => CanCloseFsync(s)
       case CloseDone => CanCloseDone(s)
       case ReturnOk(c) => CanReturnOk(s, c)
       case ReturnError(c) => CanReturnError(s, c)
  }

  function Apply(s: State, e: Event): State
    requires Enabled(s, e)
  {
    match e
    case Join(size, sync, dir) => DoJoin(s, size, sync, dir)
    case CloseSlot => DoCloseSlot(s)
    case NewSlot(newFile, at) => DoNewSlot(s, newFile, at)
    case Write(g) => DoWrite(s, g)
    case WriteFail(g) => DoWriteFail(s, g)
    case Advance(g) => DoAdvance(s, g)
    case LeaveCovered(g) => DoLeave(s, g)
    case TakeLock(g) => DoTakeLock(s, g)
    case Note(g) => DoNote(s, g)
    case SkipFsync(g) => DoSkip(s, g)
    case FsyncBegin(g) => DoFsync(s, g)
    case FsyncEnd(g) => DoFsyncEnd(s, g)
    case FsyncFail(g) => DoFsyncFail(s, g)
    case Credit(g) => DoCredit(s, g)
    case CloseFsync => DoCloseFsync(s)
    case CloseDone => DoCloseDone(s)
    case ReturnOk(c) => DoReturnOk(s, c)
    case ReturnError(c) => DoReturnError(s, c)
  }

  /** A run: `tr[k]` is the state before event `es[k]`. */
  ghost predicate IsRun(tr: seq<State>, es: seq<Event>) {
    && |tr| == |es| + 1
    && Init(tr[0])
    && forall k :: 0 <= k < |es| ==> Enabled(tr[k], es[k]) && tr[k + 1] == Apply(tr[k], es[k])
  }
}
