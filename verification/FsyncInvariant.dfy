/** The inductive invariant of the fsync step system. Each conjunct is stated
    over the few fields it depends on, so an event touches few of them. */
module FsyncInvariant {
  import opened Optional
  import opened Lsns
  import opened FsyncLog

  /** Slots tile the log in activation order; only the last may be open, and a
      closed slot is not empty. */
  ghost predicate Layout(slots: seq<Slot>) {
    && |slots| > 0
    && (forall i :: 0 <= i < |slots| ==> slots[i].start <= slots[i].end)
    && (forall i :: 0 <= i < |slots| && !slots[i].phase.Filling? ==> slots[i].start < slots[i].end)
    && (forall i :: 0 <= i < |slots| - 1 ==> !slots[i].phase.Filling?)
    && (forall i, j :: 0 <= i < j < |slots| ==> AtMost(End(slots[i]), Start(slots[j])))
    && slots[0].release == Lsn(0, 0)
    && (forall i :: 0 < i < |slots| ==> slots[i].release == End(slots[i - 1]))
  }

  predicate BeforeAdvance(p: Phase) {
    p.Filling? || p.Writing? || p.Written?
  }

  /** `writeLsn` is the end of the last advanced slot, and every slot up to it
      is written. */
  ghost predicate WriteInv(slots: seq<Slot>, advanced: nat, writeLsn: Lsn) {
    && advanced <= |slots|
    && writeLsn == (if advanced == 0 then Lsn(0, 0) else End(slots[advanced - 1]))
    && (forall i :: 0 <= i < advanced ==> slots[i].written && !BeforeAdvance(slots[i].phase))
    && (forall i :: advanced <= i < |slots| ==> BeforeAdvance(slots[i].phase) || slots[i].phase.Failed?)
    && (forall i :: 0 <= i < |slots| && slots[i].phase.Written? ==> slots[i].written)
  }

  /** The last slot is in the current file, and a file's recorded end bounds its
      slots. */
  ghost predicate FileInv(slots: seq<Slot>, fileEnds: seq<Lsn>) {
    && |slots| > 0
    && slots[|slots| - 1].file == |fileEnds|
    && (forall i, k :: 0 <= i < |slots| && slots[i].file <= k < |fileEnds| ==>
          AtMost(End(slots[i]), fileEnds[k]))
  }

  /** `l` is a slot boundary that `writeLsn` has reached. */
  ghost predicate Boundary(slots: seq<Slot>, advanced: nat, l: Lsn) {
    && |slots| > 0
    && AtMost(l, End(slots[|slots| - 1]))
    && (forall i :: 0 <= i < |slots| && Below(Start(slots[i]), l) ==>
          i < advanced && AtMost(End(slots[i]), l))
  }

  /** Every slot with a byte below `l` is durable. */
  ghost predicate DurableBelow(slots: seq<Slot>, l: Lsn) {
    forall i :: 0 <= i < |slots| && Below(Start(slots[i]), l) ==> slots[i].durable
  }

  /** Every slot of file `f` with a byte below `l` is durable. */
  ghost predicate DurableIn(slots: seq<Slot>, l: Lsn, f: nat) {
    forall i :: 0 <= i < |slots| && Below(Start(slots[i]), l) && slots[i].file == f ==> slots[i].durable
  }

  ghost predicate DoneInv(slots: seq<Slot>, syncLsn: Lsn) {
    forall i :: 0 <= i < |slots| && slots[i].phase.Done? && slots[i].sync ==>
      AtMost(End(slots[i]), syncLsn)
  }

  ghost predicate LockInv(slots: seq<Slot>, lock: Option<nat>) {
    && (lock.Some? ==> lock.value < |slots|)
    && (forall i :: 0 <= i < |slots| ==> (InLock(slots[i].phase) <==> lock == Some(i)))
  }

  ghost predicate CoversBelow(slots: seq<Slot>, covers: set<nat>, l: Lsn, f: nat) {
    forall i :: 0 <= i < |slots| && Below(Start(slots[i]), l) && slots[i].file == f ==> i in covers
  }

  ghost predicate CoversOwn(slots: seq<Slot>, covers: set<nat>, g: nat)
    requires g < |slots|
  {
    forall i :: 0 <= i <= g && slots[i].file == slots[g].file ==> i in covers
  }

  /** What the holder of `log_sync_lock` knows at each point of the loop. */
  ghost predicate HolderInv(slots: seq<Slot>, advanced: nat, syncLsn: Lsn, fileId: nat, g: nat)
    requires g < |slots|
  {
    && slots[g].file <= syncLsn.file
    && g < advanced
    && match slots[g].phase
       case Noted(own, noted) =>
         && slots[g].sync
         && own == Below(syncLsn, End(slots[g]))
         && Boundary(slots, advanced, noted) && noted.file <= fileId
       case Flushing(noted, handle, covers) =>
         && slots[g].sync
         && Below(syncLsn, End(slots[g]))
         && Boundary(slots, advanced, noted) && noted.file <= handle <= fileId
         && CoversOwn(slots, covers, g)
         && CoversBelow(slots, covers, noted, handle)
       case Flushed(own, noted, handle) =>
         && AtMost(End(slots[g]), syncLsn)
         && (own ==>
           && syncLsn == End(slots[g])
           && Boundary(slots, advanced, noted) && noted.file <= handle <= fileId
           && DurableIn(slots, noted, handle))
       case _ => true
  }

  ghost predicate CloserInv(slots: seq<Slot>, advanced: nat, fileId: nat, closing: nat, closer: Option<set<nat>>) {
    closer.Some? ==>
      && closing < fileId
      && (forall i :: 0 <= i < |slots| && slots[i].file <= closing ==> i < advanced)
      && (forall i :: 0 <= i < |slots| && slots[i].file == closing ==> i in closer.value)
  }

  ghost predicate CommitInv(slots: seq<Slot>, commits: seq<Commit>) {
    forall c :: 0 <= c < |commits| ==>
      && commits[c].slot < |slots|
      && slots[commits[c].slot].start <= commits[c].lo < commits[c].hi <= slots[commits[c].slot].end
  }

  ghost predicate ReturnInv(slots: seq<Slot>, commits: seq<Commit>, syncLsn: Lsn) {
    forall c :: 0 <= c < |commits| && commits[c].slot < |slots| && commits[c].status.ReturnedOk? ==>
      AtMost(Lsn(slots[commits[c].slot].file, commits[c].hi), syncLsn)
  }

  ghost predicate PanicInv(slots: seq<Slot>, advanced: nat, panic: bool) {
    forall i :: 0 <= i < |slots| && i < advanced && slots[i].phase.Failed? ==> panic
  }

  /** The part of the invariant that does not look at phases. */
  ghost predicate Quiet(s: State) {
    && Layout(s.slots)
    && FileInv(s.slots, s.fileEnds)
    && Boundary(s.slots, s.advanced, s.syncLsn)
    && DurableBelow(s.slots, s.syncLsn)
    && s.closing <= FileId(s) && s.syncLsn.file == s.closing
    && CloserInv(s.slots, s.advanced, FileId(s), s.closing, s.closer)
    && CommitInv(s.slots, s.commits)
    && ReturnInv(s.slots, s.commits, s.syncLsn)
  }

  ghost predicate Busy(s: State) {
    && WriteInv(s.slots, s.advanced, s.writeLsn)
    && DoneInv(s.slots, s.syncLsn)
    && LockInv(s.slots, s.lock)
    && (s.lock.Some? ==> HolderInv(s.slots, s.advanced, s.syncLsn, FileId(s), s.lock.value))
    && PanicInv(s.slots, s.advanced, s.panic)
  }

  ghost predicate Inv(s: State) {
    Quiet(s) && Busy(s)
  }

  /** `b` is `a` with nothing changed but phases, and durability gained, of
      slots that stay as open or closed as they were. */
  ghost predicate SameShape(a: seq<Slot>, b: seq<Slot>) {
    && |a| == |b|
    && (forall i :: 0 <= i < |a| ==>
          && a[i].file == b[i].file && a[i].start == b[i].start && a[i].end == b[i].end
          && a[i].sync == b[i].sync && a[i].release == b[i].release
          && (a[i].durable ==> b[i].durable)
          && (!b[i].phase.Filling? ==> !a[i].phase.Filling? || a[i].start < a[i].end)
          && (!a[i].phase.Filling? ==> !b[i].phase.Filling?))
  }

  lemma ShapeKeeps(a: seq<Slot>, b: seq<Slot>, fileEnds: seq<Lsn>, commits: seq<Commit>)
    requires SameShape(a, b)
    ensures Layout(a) ==> Layout(b)
    ensures FileInv(a, fileEnds) ==> FileInv(b, fileEnds)
    ensures CommitInv(a, commits) ==> CommitInv(b, commits)
  {
    if Layout(a) {
      forall i | 0 < i < |b|
        ensures b[i].release == End(b[i - 1])
      {
        assert a[i].release == End(a[i - 1]);
      }
    }
  }

  lemma ShapeKeepsSync(a: seq<Slot>, b: seq<Slot>, l: Lsn, commits: seq<Commit>)
    requires SameShape(a, b)
    ensures DurableBelow(a, l) ==> DurableBelow(b, l)
    ensures ReturnInv(a, commits, l) ==> ReturnInv(b, commits, l)
  {}

  lemma BoundaryKeeps(a: seq<Slot>, b: seq<Slot>, advanced: nat, advanced': nat, l: Lsn)
    requires SameShape(a, b) && advanced <= advanced'
    requires Boundary(a, advanced, l)
    ensures Boundary(b, advanced', l)
  {}

  lemma ShapeKeepsCloser(a: seq<Slot>, b: seq<Slot>, advanced: nat, advanced': nat,
                         fileId: nat, closing: nat, closer: Option<set<nat>>)
    requires SameShape(a, b) && advanced <= advanced'
    requires CloserInv(a, advanced, fileId, closing, closer)
    ensures CloserInv(b, advanced', fileId, closing, closer)
  {}

  /** The quiet part survives any step that keeps the slots' shape and leaves
      `syncLsn`, the files and the commits alone. */
  lemma QuietKeeps(s: State, t: State)
    requires Quiet(s) && SameShape(s.slots, t.slots) && s.advanced <= t.advanced
    requires t.syncLsn == s.syncLsn && t.fileEnds == s.fileEnds && t.commits == s.commits
    requires t.closing == s.closing && t.closer == s.closer
    ensures Quiet(t)
  {
    hide Layout, FileInv, Boundary, DurableBelow, CloserInv, CommitInv, ReturnInv, SameShape;
    ShapeKeeps(s.slots, t.slots, s.fileEnds, s.commits);
    ShapeKeepsSync(s.slots, t.slots, s.syncLsn, s.commits);
    BoundaryKeeps(s.slots, t.slots, s.advanced, t.advanced, s.syncLsn);
    ShapeKeepsCloser(s.slots, t.slots, s.advanced, t.advanced, FileId(s), s.closing, s.closer);
  }

  /** The facts the holder keeps while others write, advance and close. */
  lemma HolderKeeps(a: seq<Slot>, b: seq<Slot>, advanced: nat, advanced': nat,
                    syncLsn: Lsn, fileId: nat, g: nat)
    requires SameShape(a, b) && g < |a| && b[g].phase == a[g].phase && advanced <= advanced'
    requires HolderInv(a, advanced, syncLsn, fileId, g)
    ensures HolderInv(b, advanced', syncLsn, fileId, g)
  {
    match a[g].phase
    case Noted(own, noted) => BoundaryKeeps(a, b, advanced, advanced', noted);
    case Flushing(noted, handle, covers) => BoundaryKeeps(a, b, advanced, advanced', noted);
    case Flushed(own, noted, handle) =>
      if own {
        BoundaryKeeps(a, b, advanced, advanced', noted);
      }
    case _ =>
  }

  lemma InitInv(s: State)
    requires Init(s)
    ensures Inv(s)
  {}

  lemma CloseSlotKeeps(s: State)
    requires Inv(s) && CanCloseSlot(s)
    ensures Inv(DoCloseSlot(s))
  {
    hide Quiet, HolderInv;
    var t := DoCloseSlot(s);
    QuietKeeps(s, t);
    if s.lock.Some? {
      HolderKeeps(s.slots, t.slots, s.advanced, t.advanced, s.syncLsn, FileId(s), s.lock.value);
    }
  }

  lemma WriteKeeps(s: State, g: nat)
    requires Inv(s) && CanWrite(s, g)
    ensures Inv(DoWrite(s, g))
  {
    hide Quiet, HolderInv;
    var t := DoWrite(s, g);
    QuietKeeps(s, t);
    if s.lock.Some? {
      HolderKeeps(s.slots, t.slots, s.advanced, t.advanced, s.syncLsn, FileId(s), s.lock.value);
    }
  }

  lemma WriteFailKeeps(s: State, g: nat)
    requires Inv(s) && CanWrite(s, g)
    ensures Inv(DoWriteFail(s, g))
  {
    hide Quiet, HolderInv;
    var t := DoWriteFail(s, g);
    QuietKeeps(s, t);
    if s.lock.Some? {
      HolderKeeps(s.slots, t.slots, s.advanced, t.advanced, s.syncLsn, FileId(s), s.lock.value);
    }
  }

  lemma LeaveKeeps(s: State, g: nat)
    requires Inv(s) && CanLeave(s, g)
    ensures Inv(DoLeave(s, g))
  {
    hide Quiet, HolderInv;
    var t := DoLeave(s, g);
    QuietKeeps(s, t);
    if s.lock.Some? {
      HolderKeeps(s.slots, t.slots, s.advanced, t.advanced, s.syncLsn, FileId(s), s.lock.value);
    }
  }

  lemma TakeLockKeeps(s: State, g: nat)
    requires Inv(s) && CanTakeLock(s, g)
    ensures Inv(DoTakeLock(s, g))
  {
    hide Quiet;
    QuietKeeps(s, DoTakeLock(s, g));
  }

  lemma WriteBoundary(s: State)
    requires Inv(s)
    ensures Boundary(s.slots, s.advanced, s.writeLsn) && s.writeLsn.file <= FileId(s)
  {
  }

  lemma NoteKeeps(s: State, g: nat)
    requires Inv(s) && CanNote(s, g)
    ensures Inv(DoNote(s, g))
  {
    hide Inv, DoNote;
    if s.slots[g].sync {
      NoteSyncKeeps(s, g);
    } else {
      NoteDoneKeeps(s, g);
    }
  }

  lemma NoteSyncKeeps(s: State, g: nat)
    requires Inv(s) && CanNote(s, g) && s.slots[g].sync
    ensures Inv(DoNote(s, g))
  {
    hide Quiet, Boundary;
    WriteBoundary(s);
    var t := DoNote(s, g);
    QuietKeeps(s, t);
    BoundaryKeeps(s.slots, t.slots, s.advanced, t.advanced, s.writeLsn);
  }

  lemma NoteDoneKeeps(s: State, g: nat)
    requires Inv(s) && CanNote(s, g) && !s.slots[g].sync
    ensures Inv(DoNote(s, g))
  {
    hide Quiet, Boundary;
    QuietKeeps(s, DoNote(s, g));
  }

  lemma SkipKeeps(s: State, g: nat)
    requires Inv(s) && CanSkip(s, g)
    ensures Inv(DoSkip(s, g))
  {
    hide Quiet;
    QuietKeeps(s, DoSkip(s, g));
  }

  lemma FsyncKeeps(s: State, g: nat)
    requires Inv(s) && CanFsync(s, g)
    ensures Inv(DoFsync(s, g))
  {
    hide Quiet;
    var t := DoFsync(s, g);
    QuietKeeps(s, t);
    BoundaryKeeps(s.slots, t.slots, s.advanced, t.advanced, s.slots[g].phase.noted);
  }

  lemma FsyncFailKeeps(s: State, g: nat)
    requires Inv(s) && CanFsyncEnd(s, g)
    ensures Inv(DoFsyncFail(s, g))
  {
    hide Quiet, HolderInv;
    QuietKeeps(s, DoFsyncFail(s, g));
  }

  /** Ends of closed slots grow strictly with the slot number. */
  lemma EndsIncrease(slots: seq<Slot>, i: nat, j: nat)
    requires Layout(slots) && i <= j < |slots| - 1
    ensures i == j || Below(End(slots[i]), End(slots[j]))
    ensures Below(Lsn(0, 0), End(slots[j])) && (i > 0 ==> Below(End(slots[i - 1]), End(slots[j])))
  {
    if i < j {
      assert AtMost(End(slots[i]), Start(slots[j]));
    }
    if i > 0 {
      assert AtMost(End(slots[i - 1]), Start(slots[j]));
    }
  }

  /** The slot whose release LSN `writeLsn` stands at is the next in order. */
  lemma NextToAdvance(s: State, g: nat)
    requires Inv(s) && CanAdvance(s, g)
    ensures g == s.advanced
  {
    hide FileInv, Boundary, DurableBelow, CloserInv, CommitInv, ReturnInv, DoneInv, LockInv, HolderInv, PanicInv;
    assert s.advanced <= g;
    if s.advanced < g {
      EndsIncrease(s.slots, s.advanced, g - 1);
    }
  }

  lemma AdvanceShape(s: State, g: nat)
    requires CanAdvance(s, g)
    ensures SameShape(s.slots, DoAdvance(s, g).slots)
  {}

  lemma AdvanceKeeps(s: State, g: nat)
    requires Inv(s) && CanAdvance(s, g)
    ensures Inv(DoAdvance(s, g))
  {
    hide Layout, Quiet, HolderInv, SameShape;
    NextToAdvance(s, g);
    var t := DoAdvance(s, g);
    assert SameShape(s.slots, t.slots) by {
      AdvanceShape(s, g);
    }
    QuietKeeps(s, t);
    if s.lock.Some? {
      HolderKeeps(s.slots, t.slots, s.advanced, t.advanced, s.syncLsn, FileId(s), s.lock.value);
    }
  }

  lemma ReturnOkKeeps(s: State, c: nat)
    requires Inv(s) && CanReturnOk(s, c)
    ensures Inv(DoReturnOk(s, c))
  {
  }

  lemma ReturnErrorKeeps(s: State, c: nat)
    requires Inv(s) && CanReturnError(s, c)
    ensures Inv(DoReturnError(s, c))
  {
  }

  lemma CloseFsyncKeeps(s: State)
    requires Inv(s) && CanCloseFsync(s)
    ensures Inv(DoCloseFsync(s))
  {
  }

  lemma MarkedShape(slots: seq<Slot>, covers: set<nat>)
    ensures SameShape(slots, MarkDurable(slots, covers))
  {}

  /** `syncLsn` may move up to any boundary below which all is durable. */
  lemma SyncMoves(s: State, t: State)
    requires Quiet(s) && SameShape(s.slots, t.slots) && s.advanced == t.advanced
    requires t.fileEnds == s.fileEnds && t.commits == s.commits
    requires AtMost(s.syncLsn, t.syncLsn) && t.syncLsn.file == t.closing <= FileId(s)
    requires Boundary(t.slots, t.advanced, t.syncLsn) && DurableBelow(t.slots, t.syncLsn)
    requires t.closer.Some? ==> t.closing == s.closing && t.closer == s.closer
    ensures Quiet(t)
    ensures DoneInv(s.slots, s.syncLsn) ==> DoneInv(s.slots, t.syncLsn)
  {
    hide Layout, FileInv, Boundary, DurableBelow, CommitInv, CloserInv;
    ShapeKeeps(s.slots, t.slots, s.fileEnds, s.commits);
    assert CloserInv(t.slots, t.advanced, FileId(t), t.closing, t.closer) by {
      CloserMoves(s.slots, t.slots, s.advanced, FileId(s), s.closing, s.closer, t.closing, t.closer);
    }
  }

  lemma CloserMoves(a: seq<Slot>, b: seq<Slot>, advanced: nat, fileId: nat, closing: nat, closer: Option<set<nat>>,
                    closing': nat, closer': Option<set<nat>>)
    requires SameShape(a, b) && CloserInv(a, advanced, fileId, closing, closer)
    requires closer'.Some? ==> closing' == closing && closer' == closer
    ensures CloserInv(b, advanced, fileId, closing', closer')
  {}

  lemma EndBoundary(slots: seq<Slot>, advanced: nat, g: nat)
    requires Layout(slots) && g < advanced <= |slots|
    ensures Boundary(slots, advanced, End(slots[g]))
  {
    forall i | g < i < |slots|
      ensures !Below(Start(slots[i]), End(slots[g]))
    {
      assert AtMost(End(slots[g]), Start(slots[i]));
    }
    forall i | 0 <= i < g
      ensures AtMost(End(slots[i]), End(slots[g]))
    {
      assert AtMost(End(slots[i]), Start(slots[g]));
    }
    if g < |slots| - 1 {
      assert AtMost(End(slots[g]), Start(slots[|slots| - 1]));
    }
  }

  /** A completed `fsync` makes everything below its slot's end durable: its own
      file by what it covers, earlier files because `syncLsn` is past them. */
  lemma FsyncDurable(slots: seq<Slot>, advanced: nat, syncLsn: Lsn, fileId: nat, g: nat)
    requires Layout(slots) && g < |slots| && slots[g].phase.Flushing?
    requires HolderInv(slots, advanced, syncLsn, fileId, g) && DurableBelow(slots, syncLsn)
    ensures SameShape(slots, FlushedSlots(slots, g))
    ensures DurableBelow(FlushedSlots(slots, g), End(slots[g]))
    ensures AtMost(syncLsn, End(slots[g])) && syncLsn.file == slots[g].file
  {
    forall i | g < i < |slots|
      ensures !Below(Start(slots[i]), End(slots[g]))
    {
      assert AtMost(End(slots[g]), Start(slots[i]));
    }
  }

  /** Whatever of the noted LSN lies in the file the sync ran on is durable. */
  lemma FsyncCredits(slots: seq<Slot>, advanced: nat, syncLsn: Lsn, fileId: nat, g: nat)
    requires g < |slots| && slots[g].phase.Flushing?
    requires HolderInv(slots, advanced, syncLsn, fileId, g)
    requires SameShape(slots, FlushedSlots(slots, g))
    ensures HolderInv(FlushedSlots(slots, g), advanced, End(slots[g]), fileId, g)
  {
    BoundaryKeeps(slots, FlushedSlots(slots, g), advanced, advanced, slots[g].phase.noted);
  }

  lemma HolderOf(s: State, g: nat)
    requires Inv(s) && g < |s.slots| && InLock(s.slots[g].phase)
    ensures s.lock == Some(g) && HolderInv(s.slots, s.advanced, s.syncLsn, FileId(s), g)
    ensures g < s.advanced <= |s.slots|
  {
    hide Quiet;
  }

  lemma FsyncEndBusy(s: State, g: nat)
    requires Busy(s) && CanFsyncEnd(s, g) && s.lock == Some(g)
    requires SameShape(s.slots, FlushedSlots(s.slots, g))
    requires HolderInv(FlushedSlots(s.slots, g), s.advanced, End(s.slots[g]), FileId(s), g)
    requires DoneInv(s.slots, End(s.slots[g]))
    ensures Busy(DoFsyncEnd(s, g))
  {
    hide HolderInv;
  }

  lemma FsyncEndKeeps(s: State, g: nat)
    requires Inv(s) && CanFsyncEnd(s, g)
    ensures Inv(DoFsyncEnd(s, g))
  {
    hide Layout, FileInv, DurableBelow, CommitInv, CloserInv, ReturnInv, Boundary, HolderInv, SameShape;
    hide WriteInv, DoneInv, LockInv, PanicInv, FlushedSlots;
    HolderOf(s, g);
    var t := DoFsyncEnd(s, g);
    FsyncDurable(s.slots, s.advanced, s.syncLsn, FileId(s), g);
    FsyncCredits(s.slots, s.advanced, s.syncLsn, FileId(s), g);
    EndBoundary(s.slots, s.advanced, g);
    BoundaryKeeps(s.slots, t.slots, s.advanced, s.advanced, t.syncLsn);
    SyncMoves(s, t);
    FsyncEndBusy(s, g);
  }

  lemma CloseDoneReach(s: State)
    requires Inv(s) && CanCloseDone(s)
    ensures var t := DoCloseDone(s);
      && SameShape(s.slots, t.slots) && AtMost(s.syncLsn, t.syncLsn)
      && Boundary(t.slots, t.advanced, t.syncLsn) && DurableBelow(t.slots, t.syncLsn)
      && t.closing <= FileId(s)
  {
    hide CommitInv, ReturnInv, PanicInv, DoneInv, LockInv, HolderInv;
    MarkedShape(s.slots, s.closer.value);
    var t := DoCloseDone(s);
    forall i | 0 <= i < |t.slots| && Below(Start(t.slots[i]), t.syncLsn)
      ensures t.slots[i].durable && i < s.advanced && AtMost(End(t.slots[i]), t.syncLsn)
    {
      assert s.slots[i].file < s.closing ==> Below(Start(s.slots[i]), s.syncLsn);
    }
  }

  lemma CloseDoneBusy(s: State)
    requires Busy(s) && CanCloseDone(s) && DoneInv(s.slots, Lsn(s.closing + 1, 0))
    ensures Busy(DoCloseDone(s))
  {
    hide HolderInv;
  }

  lemma CloseDoneKeeps(s: State)
    requires Inv(s) && CanCloseDone(s)
    ensures Inv(DoCloseDone(s))
  {
    hide Layout, FileInv, DurableBelow, CommitInv, ReturnInv, Boundary, SameShape;
    hide WriteInv, DoneInv, LockInv, PanicInv, HolderInv, CloserInv, MarkDurable;
    CloseDoneReach(s);
    var t := DoCloseDone(s);
    SyncMoves(s, t);
    CloseDoneBusy(s);
  }

  lemma CreditKeeps(s: State, g: nat)
    requires Inv(s) && CanCredit(s, g)
    ensures Inv(DoCredit(s, g))
  {
    hide Layout, FileInv, CommitInv, CloserInv, ReturnInv, Boundary;
    var t := DoCredit(s, g);
    assert s.lock == Some(g);
    assert SameShape(s.slots, t.slots);
    if !MayCredit(s, g) {
      QuietKeeps(s, t);
    } else {
      BoundaryKeeps(s.slots, t.slots, s.advanced, s.advanced, t.syncLsn);
      assert DurableBelow(t.slots, t.syncLsn);
      SyncMoves(s, t);
    }
    hide Quiet, DurableBelow;
  }

  /** `b` is `a` with its open slot grown, or with a new open slot after it. */
  ghost predicate Grown(a: seq<Slot>, b: seq<Slot>) {
    && 0 < |a| <= |b|
    && (forall i :: 0 <= i < |a| && !a[i].phase.Filling? ==> b[i] == a[i])
    && (forall i :: 0 <= i < |a| && a[i].phase.Filling? ==>
          && a[i].file == b[i].file && a[i].start == b[i].start && a[i].end <= b[i].end
          && a[i].release == b[i].release && b[i].phase.Filling? && a[i].written == b[i].written)
    && (forall i :: |a| <= i < |b| ==>
          && AtMost(End(a[|a| - 1]), Start(b[i])) && b[i].phase.Filling?
          && b[i].file >= a[|a| - 1].file)
    && AtMost(End(a[|a| - 1]), End(b[|b| - 1]))
  }

  lemma GrownBoundary(a: seq<Slot>, b: seq<Slot>, advanced: nat, l: Lsn)
    requires Grown(a, b) && advanced <= |a|
    requires forall i :: 0 <= i < advanced ==> !a[i].phase.Filling?
    requires Boundary(a, advanced, l)
    ensures Boundary(b, advanced, l)
    ensures DurableBelow(a, l) ==> DurableBelow(b, l)
    ensures forall f :: DurableIn(a, l, f) ==> DurableIn(b, l, f)
  {
    forall i | 0 <= i < |b| && Below(Start(b[i]), l)
      ensures i < advanced && b[i] == a[i]
    {
      if i < |a| {
        assert Below(Start(a[i]), l);
      }
    }
  }

  lemma GrownHolder(a: seq<Slot>, b: seq<Slot>, advanced: nat, syncLsn: Lsn, fileId: nat, fileId': nat, g: nat)
    requires Grown(a, b) && g < advanced <= |a| && fileId <= fileId'
    requires forall i :: 0 <= i < advanced ==> !a[i].phase.Filling?
    requires HolderInv(a, advanced, syncLsn, fileId, g)
    ensures HolderInv(b, advanced, syncLsn, fileId', g)
  {
    match a[g].phase
    case Noted(own, noted) => GrownBoundary(a, b, advanced, noted);
    case Flushing(noted, handle, covers) => GrownBoundary(a, b, advanced, noted);
    case Flushed(own, noted, handle) =>
      if own {
        GrownBoundary(a, b, advanced, noted);
      }
    case _ =>
  }

  lemma GrownQuiet(a: seq<Slot>, b: seq<Slot>, advanced: nat, fileId: nat, fileId': nat, closing: nat,
                   closer: Option<set<nat>>, commits: seq<Commit>, syncLsn: Lsn)
    requires 0 < |a| && Grown(a, b) && advanced <= |a| && a[|a| - 1].file == fileId <= fileId'
    ensures CloserInv(a, advanced, fileId, closing, closer) ==> CloserInv(b, advanced, fileId', closing, closer)
    ensures CommitInv(a, commits) ==> CommitInv(b, commits)
    ensures CommitInv(a, commits) && ReturnInv(a, commits, syncLsn) ==> ReturnInv(b, commits, syncLsn)
  {}

  lemma GrownBusy(a: seq<Slot>, b: seq<Slot>, advanced: nat, writeLsn: Lsn, syncLsn: Lsn, lock: Option<nat>,
                  panic: bool)
    requires Grown(a, b)
    ensures WriteInv(a, advanced, writeLsn) ==> WriteInv(b, advanced, writeLsn)
    ensures DoneInv(a, syncLsn) ==> DoneInv(b, syncLsn)
    ensures LockInv(a, lock) ==> LockInv(b, lock)
    ensures PanicInv(a, advanced, panic) ==> PanicInv(b, advanced, panic)
  {}

  lemma InvBasics(s: State)
    requires Inv(s)
    ensures 0 < |s.slots| && Last(s).file == FileId(s) && s.advanced <= |s.slots|
    ensures s.lock.Some? ==> s.lock.value < s.advanced
    ensures forall i :: 0 <= i < s.advanced ==> !s.slots[i].phase.Filling?
  {
    hide Layout, Boundary, DurableBelow, CloserInv, CommitInv, ReturnInv, DoneInv, PanicInv;
  }

  lemma GrownKeeps(s: State, t: State)
    requires Inv(s) && Grown(s.slots, t.slots)
    requires t.advanced == s.advanced && t.writeLsn == s.writeLsn && t.syncLsn == s.syncLsn
    requires t.closing == s.closing && t.closer == s.closer && t.lock == s.lock && t.panic == s.panic
    requires FileId(s) <= FileId(t) && Layout(t.slots) && FileInv(t.slots, t.fileEnds)
    requires CommitInv(t.slots, s.commits) && ReturnInv(t.slots, s.commits, s.syncLsn) ==>
               CommitInv(t.slots, t.commits) && ReturnInv(t.slots, t.commits, s.syncLsn)
    ensures Inv(t)
  {
    hide Layout, FileInv, Grown, Boundary, DurableBelow, CloserInv, CommitInv, ReturnInv, HolderInv, LockInv, DoneInv,
      PanicInv, WriteInv;
    InvBasics(s);
    GrownBoundary(s.slots, t.slots, s.advanced, s.syncLsn);
    GrownQuiet(s.slots, t.slots, s.advanced, FileId(s), FileId(t), s.closing, s.closer, s.commits, s.syncLsn);
    GrownBusy(s.slots, t.slots, s.advanced, s.writeLsn, s.syncLsn, s.lock, s.panic);
    if s.lock.Some? {
      GrownHolder(s.slots, t.slots, s.advanced, s.syncLsn, FileId(s), FileId(t), s.lock.value);
    }
  }

  lemma JoinGrows(s: State, size: nat, sync: bool, dir: bool)
    requires Inv(s) && CanJoin(s, size)
    ensures var t := DoJoin(s, size, sync, dir);
      Grown(s.slots, t.slots) && Layout(t.slots) && FileInv(t.slots, t.fileEnds)
  {
    hide Busy, Boundary, DurableBelow, CloserInv, CommitInv, ReturnInv;
  }

  lemma JoinCommits(s: State, size: nat, sync: bool, dir: bool)
    requires CanJoin(s, size) && Layout(s.slots)
    ensures var t := DoJoin(s, size, sync, dir);
      CommitInv(t.slots, s.commits) && ReturnInv(t.slots, s.commits, s.syncLsn) ==>
        CommitInv(t.slots, t.commits) && ReturnInv(t.slots, t.commits, s.syncLsn)
  {}

  lemma JoinKeeps(s: State, size: nat, sync: bool, dir: bool)
    requires Inv(s) && CanJoin(s, size)
    ensures Inv(DoJoin(s, size, sync, dir))
  {
    hide Busy, Grown, Layout, FileInv, CommitInv, ReturnInv, Boundary, DurableBelow, CloserInv;
    JoinGrows(s, size, sync, dir);
    JoinCommits(s, size, sync, dir);
    GrownKeeps(s, DoJoin(s, size, sync, dir));
  }

  lemma NewSlotGrows(s: State, newFile: bool, at: nat)
    requires Inv(s) && CanNewSlot(s, newFile, at)
    ensures var t := DoNewSlot(s, newFile, at);
      Grown(s.slots, t.slots) && Layout(t.slots) && FileInv(t.slots, t.fileEnds)
  {
    hide Inv, Layout, FileInv, DoNewSlot;
    NewSlotLayout(s, newFile, at);
    NewSlotFiles(s, newFile, at);
  }

  lemma NewSlotLayout(s: State, newFile: bool, at: nat)
    requires Inv(s) && CanNewSlot(s, newFile, at)
    ensures var t := DoNewSlot(s, newFile, at); Grown(s.slots, t.slots) && Layout(t.slots)
  {
    hide Busy, Boundary, DurableBelow, CloserInv, CommitInv, ReturnInv;
  }

  lemma NewSlotFiles(s: State, newFile: bool, at: nat)
    requires Inv(s) && CanNewSlot(s, newFile, at)
    ensures var t := DoNewSlot(s, newFile, at); FileInv(t.slots, t.fileEnds)
  {
    hide Busy, Boundary, DurableBelow, CloserInv, CommitInv, ReturnInv;
  }

  lemma NewSlotKeeps(s: State, newFile: bool, at: nat)
    requires Inv(s) && CanNewSlot(s, newFile, at)
    ensures Inv(DoNewSlot(s, newFile, at))
  {
    hide Inv, Grown, Layout, FileInv;
    var t := DoNewSlot(s, newFile, at);
    NewSlotGrows(s, newFile, at);
    GrownKeeps(s, t);
  }
}
