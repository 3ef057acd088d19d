/** Crash safety of the dsync group commit, over every run. */
module DsyncTheorems {
  import opened Optional
  import opened Lsns
  import opened DsyncLog
  import opened DsyncInvariant

  lemma CloseKeeps(s: State, owner: Option<nat>, forced: bool)
    requires Inv(s) && CanClose(s, forced)
    requires owner.Some? ==> MayOwnClose(s, owner.value)
    ensures Inv(DoClose(s, owner))
  {
    hide GroupsInv, CommitsInv, DoClose;
    CloseGroups(s, owner);
    CloseCommits(s, owner);
  }

  lemma CloseForcedKeeps(s: State, c: nat)
    requires Inv(s) && CanCloseForced(s, c)
    ensures Inv(DoCloseForced(s, c))
  {
    hide Inv, DoClose;
    TryCloseNotOwner(s, c);
    CommitterStep(s, c, Waiting, s.commits[c].waits);
    CloseKeeps(SetPc(s, c, Waiting), Some(c), true);
  }

  lemma StepKeeps(s: State, e: Event)
    requires Inv(s) && Enabled(s, e)
    ensures Inv(Apply(s, e))
  {
    hide GroupsInv, CommitsInv;
    match e
    case Join(flags, size) => JoinGroups(s, flags, size); JoinCommits(s, flags, size);
    case CopyDone(c) => CopyDoneGroups(s, c); CopyDoneCommits(s, c);
    case CloseForced(c) => CloseForcedKeeps(s, c);
    case CloseStock(c) => CloseKeeps(s, Some(c), false);
    case CloseOther(forced) => CloseKeeps(s, None, forced);
    case NewSlot(obj, newFile, at) => NewSlotGroups(s, obj, newFile, at); NewSlotCommits(s, obj, newFile, at);
    case Write(g) => WriteKeeps(s, g);
    case WriteFail(g) => WriteFailKeeps(s, g);
    case Advance(g) => AdvanceKeeps(s, g);
    case DirSkip(g) => DirSkipKeeps(s, g);
    case DirBegin(g) => DirBeginKeeps(s, g);
    case DirEnd(g) => DirEndKeeps(s, g);
    case DirFail(g) => DirFailKeeps(s, g);
    case CloseFile => CloseFileKeeps(s);
    case Unlock => UnlockKeeps(s);
    case ReleaseReturns(c) => ReleaseReturnsKeeps(s, c);
    case Observe(c) => ObserveKeeps(s, c);
    case Refused(c) => RetryKeeps(s, c);
    case Continue(c) => RetryKeeps(s, c);
    case Tick(c) => RetryKeeps(s, c);
    case ObserveForce(c) => ObserveForceKeeps(s, c);
    case ReturnOk(c) => ReturnOkKeeps(s, c);
    case ReturnError(c) => ReturnErrorKeeps(s, c);
  }

  lemma {:induction false} RunKeeps(tr: seq<State>, es: seq<Event>, k: nat)
    requires IsRun(tr, es) && k < |tr|
    ensures Inv(tr[k])
  {
    hide Inv, Apply, Enabled;
    if k == 0 {
      InitInv(tr[0]);
    } else {
      RunKeeps(tr, es, k - 1);
      assert Enabled(tr[k - 1], es[k - 1]);
      StepKeeps(tr[k - 1], es[k - 1]);
    }
  }

  // --- crash safety -------------------------------------------------------

  /** What is left after a crash: directory entries and file bytes. */
  datatype Disk = Disk(entries: iset<nat>, bytes: iset<Lsn>)

  predicate Holds(gr: Group, p: Lsn) {
    p.file == gr.file && gr.start <= p.offset < gr.end
  }

  ghost predicate LogByte(s: State, p: Lsn) {
    exists g :: 0 <= g < |s.groups| && Holds(s.groups[g], p)
  }

  ghost predicate DurableByte(s: State, p: Lsn) {
    exists g :: 0 <= g < |s.groups| && Holds(s.groups[g], p) && s.groups[g].durable
  }

  /** A disk a crash may leave: everything written through `O_DSYNC` and every
      directory entry a directory sync has covered. */
  ghost predicate Survives(s: State, d: Disk) {
    && (forall f :: 1 <= f <= s.dirDurable ==> f in d.entries)
    && (forall p :: DurableByte(s, p) ==> p in d.bytes)
  }

  ghost predicate Readable(d: Disk, p: Lsn) {
    p.file in d.entries && p in d.bytes
  }

  function RecordEnd(s: State, c: nat): Lsn
    requires Known(s, c)
  {
    Lsn(GroupOf(s, c).file, s.commits[c].hi)
  }

  lemma EarlierBytes(s: State, c: nat, p: Lsn)
    requires Inv(s) && Known(s, c) && s.commits[c].group < s.advanced
    requires LogByte(s, p) && Below(p, RecordEnd(s, c))
    ensures DurableByte(s, p) && 1 <= p.file <= GroupOf(s, c).file
  {
    hide FileInv, DirInv, SyncLockInv, ObjInv, CopyInv, ReturnInv, HandInv, LockInv, OwnerInv;
    var i :| 0 <= i < |s.groups| && Holds(s.groups[i], p);
    var g := s.commits[c].group;
    if g < i {
      NotBelowEarlierEnd(s.groups, g, i, p.offset);
    }
    assert Holds(s.groups[i], p) && s.groups[i].durable;
  }

  lemma RecordIsLogged(s: State, c: nat, offset: nat)
    requires Inv(s) && c < |s.commits| && s.commits[c].lo <= offset < s.commits[c].hi
    ensures Known(s, c)
    ensures var p := Lsn(GroupOf(s, c).file, offset); LogByte(s, p) && Below(p, RecordEnd(s, c))
  {
    hide GroupsInv, CopyInv, ReturnInv, HandInv, LockInv, OwnerInv;
    assert Holds(GroupOf(s, c), Lsn(GroupOf(s, c).file, offset));
  }

  lemma ReturnedFacts(s: State, c: nat)
    requires Inv(s) && c < |s.commits| && s.commits[c].pc.ReturnedOk? && !s.commits[c].kind.Unsynced?
    ensures Known(s, c) && s.commits[c].group < s.advanced && s.syncDir <= s.dirDurable
    ensures (s.commits[c].kind.Grouped? || (GroupOf(s, c).dir && GroupOf(s, c).releaser == Some(c))) ==>
              GroupOf(s, c).file <= s.syncDir
  {
    hide Layout, WriteInv, FileInv, SyncLockInv, ObjInv, CopyInv, HandInv, LockInv, OwnerInv;
  }

  /** Every synced commit that returned without a slot error has its record, and
      every earlier one, in the log files after a crash at any later step. */
  lemma ReturnedRecordsAreWritten(tr: seq<State>, es: seq<Event>, k: nat, c: nat, d: Disk)
    requires IsRun(tr, es) && k < |tr| && Survives(tr[k], d)
    requires c < |tr[k].commits| && tr[k].commits[c].pc.ReturnedOk? && !tr[k].commits[c].kind.Unsynced?
    ensures Known(tr[k], c)
    ensures forall p | LogByte(tr[k], p) :: Below(p, RecordEnd(tr[k], c)) ==> p in d.bytes
    ensures forall o | tr[k].commits[c].lo <= o < tr[k].commits[c].hi :: Lsn(GroupOf(tr[k], c).file, o) in d.bytes
  {
    hide Inv;
    var s := tr[k];
    RunKeeps(tr, es, k);
    ReturnedFacts(s, c);
    forall p | LogByte(s, p) && Below(p, RecordEnd(s, c))
      ensures p in d.bytes
    {
      EarlierBytes(s, c, p);
    }
    forall o | s.commits[c].lo <= o < s.commits[c].hi
      ensures Lsn(GroupOf(s, c).file, o) in d.bytes
    {
      RecordIsLogged(s, c, o);
      EarlierBytes(s, c, Lsn(GroupOf(s, c).file, o));
    }
  }

  /** A grouped commit, or one that released its slot itself, also finds those
      files: their directory entries survive. */
  lemma GroupedCommitsSurvive(tr: seq<State>, es: seq<Event>, k: nat, c: nat, d: Disk)
    requires IsRun(tr, es) && k < |tr| && Survives(tr[k], d)
    requires c < |tr[k].commits| && tr[k].commits[c].pc.ReturnedOk? && !tr[k].commits[c].kind.Unsynced?
    requires Known(tr[k], c)
    requires tr[k].commits[c].kind.Grouped? || (GroupOf(tr[k], c).dir && GroupOf(tr[k], c).releaser == Some(c))
    ensures forall p | LogByte(tr[k], p) :: Below(p, RecordEnd(tr[k], c)) ==> Readable(d, p)
    ensures forall o | tr[k].commits[c].lo <= o < tr[k].commits[c].hi :: Readable(d, Lsn(GroupOf(tr[k], c).file, o))
  {
    hide Inv;
    var s := tr[k];
    RunKeeps(tr, es, k);
    ReturnedFacts(s, c);
    forall p | LogByte(s, p) && Below(p, RecordEnd(s, c))
      ensures Readable(d, p)
    {
      EarlierBytes(s, c, p);
    }
    forall o | s.commits[c].lo <= o < s.commits[c].hi
      ensures Readable(d, Lsn(GroupOf(s, c).file, o))
    {
      RecordIsLogged(s, c, o);
      EarlierBytes(s, c, Lsn(GroupOf(s, c).file, o));
    }
  }

  // --- exactly the grouped commits are promised their directory entry ------

  /** An ordinary synced commit. */
  const ORDINARY := Flags(true, true, false, false)

  /** A commit shares its slot with an ordinary one. The first closes the slot; the
      second is the last to leave it, and so releases it. */
  function StockRun(flags: Flags, size: nat): seq<Event> {
    [Join(flags, size), Join(ORDINARY, 10), CloseStock(0), NewSlot(1, false, size + 10),
     CopyDone(0), CopyDone(1), Write(0), Advance(0), ReturnOk(0)]
  }

  function Shared(end: nat, dir: bool, copying: set<nat>, releaser: Option<nat>, durable: bool, phase: Phase): Group {
    Group(0, 1, 0, end, Lsn(1, 0), dir, copying, releaser, durable, phase)
  }

  function Next(end: nat): Group {
    Group(1, 1, end, end, Lsn(1, end), false, {}, None, false, Open)
  }

  function At(groups: seq<Group>, commits: seq<Commit>, bufMax: nat, advanced: nat, writeLsn: Lsn,
              lock: SlotLock): State {
    State(groups, commits, 2, bufMax, advanced, writeLsn, [], 1, 0, 0, lock, None)
  }

  function A(size: nat, pc: Pc): Commit { Commit(0, 0, size, Stock, pc, 0) }

  function B(size: nat, bufMax: nat, pc: Pc): Commit {
    Commit(0, size, size + 10, KindOf(ORDINARY, size + 10, bufMax), pc, 0)
  }

  /** The state before the `k`-th event of that run. */
  function StockScene(flags: Flags, size: nat, bufMax: nat, k: nat): State
    requires k <= 9
  {
    var z, n := Lsn(1, 0), size + 10;
    var e := Lsn(1, n);
    if k == 0 then At([Shared(0, false, {}, None, false, Open)], [], bufMax, 0, z, Unlocked)
    else if k == 1 then
      At([Shared(size, flags.dsync, {0}, None, false, Open)], [A(size, Copying)], bufMax, 0, z, Unlocked)
    else if k == 2 then
      At([Shared(n, true, {0, 1}, None, false, Open)], [A(size, Copying), B(size, bufMax, Copying)], bufMax, 0, z,
         Unlocked)
    else if k == 3 then
      At([Shared(n, true, {0, 1}, None, false, Closed)], [A(size, Copying), B(size, bufMax, Copying)], bufMax, 0, z,
         Switching(Some(0), 0, false))
    else
      var copying := if k == 4 then {0, 1} else if k == 5 then {1} else {};
      var phase := if k <= 6 then Closed else if k == 7 then Written else DirWait;
      var a := if k == 4 then Copying else if k < 9 then StockWait else ReturnedOk;
      At([Shared(n, true, copying, if k < 6 then None else Some(1), k >= 7, phase), Next(n)],
         [A(size, a), B(size, bufMax, if k < 6 then Copying else Releasing)],
         bufMax, if k < 8 then 0 else 1, if k < 8 then z else e, Unlocked)
  }

  ghost predicate SceneStep(flags: Flags, size: nat, bufMax: nat, k: nat)
    requires k < 9
  {
    var s, t, e := StockScene(flags, size, bufMax, k), StockScene(flags, size, bufMax, k + 1), StockRun(flags, size)[k];
    Enabled(s, e) && Apply(s, e) == t
  }

  lemma StockJoins(flags: Flags, size: nat, bufMax: nat, k: nat)
    requires k < 2 && size > 0 && flags.flush && !IsGrouped(flags, size, bufMax)
    ensures SceneStep(flags, size, bufMax, k)
  {
    assert {} + {0} == {0} && {0} + {1} == {0, 1};
  }

  lemma StockCloses(flags: Flags, size: nat, bufMax: nat, k: nat)
    requires 2 <= k < 4 && size > 0
    ensures SceneStep(flags, size, bufMax, k)
  {
    assert 0 in {0, 1};
  }

  lemma StockCopies(flags: Flags, size: nat, bufMax: nat, k: nat)
    requires 4 <= k < 6 && size > 0
    ensures SceneStep(flags, size, bufMax, k)
  {
    assert {0, 1} - {0} == {1} && {1} - {1} == {};
    assert 1 in {1};
  }

  lemma StockReleases(flags: Flags, size: nat, bufMax: nat, k: nat)
    requires 6 <= k < 9 && size > 0
    ensures SceneStep(flags, size, bufMax, k)
  {}

  /** Whatever its flags and size: an ungrouped synced commit can have returned
      while a crash may still lose its log file. */
  lemma StockCommitMayLoseItsFile(flags: Flags, size: nat, bufMax: nat) returns (tr: seq<State>, d: Disk)
    requires size > 0 && flags.flush && !IsGrouped(flags, size, bufMax)
    ensures IsRun(tr, StockRun(flags, size)) && Survives(tr[9], d) && tr[0] == StockScene(flags, size, bufMax, 0)
    ensures |tr[9].commits| > 0 && tr[9].commits[0].pc.ReturnedOk?
    ensures Known(tr[9], 0) && GroupOf(tr[9], 0).file !in d.entries
  {
    tr := seq(10, k requires 0 <= k < 10 => StockScene(flags, size, bufMax, k));
    assert Init(tr[0]);
    forall k | 0 <= k < 9
      ensures Enabled(tr[k], StockRun(flags, size)[k]) && tr[k + 1] == Apply(tr[k], StockRun(flags, size)[k])
    {
      hide StockScene, Enabled, Apply;
      if k < 2 {
        StockJoins(flags, size, bufMax, k);
      } else if k < 4 {
        StockCloses(flags, size, bufMax, k);
      } else if k < 6 {
        StockCopies(flags, size, bufMax, k);
      } else {
        StockReleases(flags, size, bufMax, k);
      }
    }
    d := Disk(iset{}, iset p | DurableByte(tr[9], p));
  }

  /** In this run, event `j` is the join of a commit with these flags whose record
      ends `endOffset` bytes into its slot. */
  ghost predicate Joins(tr: seq<State>, es: seq<Event>, j: nat, flags: Flags, endOffset: int, bufMax: nat) {
    && IsRun(tr, es) && j < |es| && es[j].Join? && es[j].flags == flags && tr[j].bufMax == bufMax
    && |tr[j].groups| > 0 && Last(tr[j]).end + es[j].size - Last(tr[j]).start == endOffset
  }

  /** The commit that event `j` adds has returned without error by step `k`. */
  ghost predicate ReturnedBy(tr: seq<State>, j: nat, k: nat) {
    && j < k < |tr| && var c := |tr[j].commits|;
    c < |tr[k].commits| && tr[k].commits[c].pc.ReturnedOk? && Known(tr[k], c)
  }

  /** A commit with these flags and this end offset: whenever it has returned,
      every disk a crash may leave has its record and all before it, and the
      directory entries of the files they are in. */
  ghost predicate Promised(flags: Flags, endOffset: int, bufMax: nat) {
    forall tr: seq<State>, es: seq<Event>, j: nat, k: nat, d: Disk ::
      Joins(tr, es, j, flags, endOffset, bufMax) && ReturnedBy(tr, j, k) && Survives(tr[k], d) ==>
        Recovers(tr[k], |tr[j].commits|, d)
  }

  /** The record of `c` and every earlier log byte can be read from the disk. */
  ghost predicate Recovers(s: State, c: nat, d: Disk)
    requires Known(s, c)
  {
    && (forall p | LogByte(s, p) :: Below(p, RecordEnd(s, c)) ==> Readable(d, p))
    && (forall o | s.commits[c].lo <= o < s.commits[c].hi :: Readable(d, Lsn(GroupOf(s, c).file, o)))
  }

  lemma KindStep(s: State, e: Event, c: nat)
    requires Enabled(s, e) && c < |s.commits|
    ensures c < |Apply(s, e).commits| && Apply(s, e).commits[c].kind == s.commits[c].kind
    ensures Apply(s, e).commits[c].lo == s.commits[c].lo && Apply(s, e).commits[c].hi == s.commits[c].hi
  {}

  lemma {:induction false} KindKept(tr: seq<State>, es: seq<Event>, j: nat, k: nat, c: nat)
    requires IsRun(tr, es) && j <= k < |tr| && c < |tr[j].commits|
    ensures c < |tr[k].commits| && tr[k].commits[c].kind == tr[j].commits[c].kind
    ensures tr[k].commits[c].lo == tr[j].commits[c].lo && tr[k].commits[c].hi == tr[j].commits[c].hi
    decreases k - j
  {
    hide Enabled, Apply;
    if j < k {
      KindKept(tr, es, j, k - 1, c);
      assert Enabled(tr[k - 1], es[k - 1]);
      KindStep(tr[k - 1], es[k - 1], c);
    }
  }

  lemma JoinedKind(tr: seq<State>, es: seq<Event>, j: nat, flags: Flags, endOffset: int, bufMax: nat)
    requires Joins(tr, es, j, flags, endOffset, bufMax)
    ensures |tr[j].commits| < |tr[j + 1].commits|
    ensures tr[j + 1].commits[|tr[j].commits|].kind == KindOf(flags, endOffset, bufMax)
  {
    assert Enabled(tr[j], es[j]);
  }

  /** A synced commit is promised all of that exactly when it is grouped. */
  lemma PromisedIffGrouped(flags: Flags, endOffset: nat, bufMax: nat)
    requires flags.flush && endOffset > 0
    ensures Promised(flags, endOffset, bufMax) <==> IsGrouped(flags, endOffset, bufMax)
  {
    hide Survives, Recovers, Inv;
    if IsGrouped(flags, endOffset, bufMax) {
      forall tr: seq<State>, es: seq<Event>, j: nat, k: nat, d: Disk |
        Joins(tr, es, j, flags, endOffset, bufMax) && ReturnedBy(tr, j, k) && Survives(tr[k], d)
        ensures Recovers(tr[k], |tr[j].commits|, d)
      {
        JoinedKind(tr, es, j, flags, endOffset, bufMax);
        KindKept(tr, es, j + 1, k, |tr[j].commits|);
        GroupedRecovers(tr, es, k, |tr[j].commits|, d);
      }
    } else {
      var tr, d := StockCommitMayLoseItsFile(flags, endOffset, bufMax);
      StockIsNotPromised(tr, flags, endOffset, bufMax, d);
    }
  }

  lemma GroupedRecovers(tr: seq<State>, es: seq<Event>, k: nat, c: nat, d: Disk)
    requires IsRun(tr, es) && k < |tr| && Survives(tr[k], d) && Known(tr[k], c)
    requires tr[k].commits[c].pc.ReturnedOk? && tr[k].commits[c].kind.Grouped?
    ensures Recovers(tr[k], c, d)
  {
    GroupedCommitsSurvive(tr, es, k, c, d);
  }

  lemma StockIsNotPromised(tr: seq<State>, flags: Flags, size: nat, bufMax: nat, d: Disk)
    requires size > 0 && IsRun(tr, StockRun(flags, size)) && tr[0] == StockScene(flags, size, bufMax, 0)
    requires Survives(tr[9], d) && |tr[9].commits| > 0 && tr[9].commits[0].pc.ReturnedOk? && Known(tr[9], 0)
    requires GroupOf(tr[9], 0).file !in d.entries
    ensures !Promised(flags, size, bufMax)
  {
    hide Survives;
    assert Joins(tr, StockRun(flags, size), 0, flags, size, bufMax);
    assert ReturnedBy(tr, 0, 9);
    RunKeeps(tr, StockRun(flags, size), 9);
    var p := Lsn(GroupOf(tr[9], 0).file, tr[9].commits[0].lo);
    assert !Readable(d, p);
    RecordIsNotEmpty(tr[9], 0);
    assert !Recovers(tr[9], 0, d);
  }

  lemma RecordIsNotEmpty(s: State, c: nat)
    requires Inv(s) && c < |s.commits|
    ensures s.commits[c].lo < s.commits[c].hi
  {
    hide GroupsInv, CopyInv, ReturnInv, HandInv, LockInv, OwnerInv;
  }
}
