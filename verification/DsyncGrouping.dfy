/** The group commit itself: who may close a slot and when, which commits share one
    write, and what each kind of commit does, over every run. */
module DsyncGrouping {
  import opened Optional
  import opened Lsns
  import opened DsyncLog
  import opened DsyncInvariant
  import opened DsyncTheorems

  // --- who moves a committer ----------------------------------------------

  /** The committer a step is about, if any. */
  function Mover(e: Event): Option<nat> {
    match e
    case CopyDone(c) => Some(c)
    case CloseForced(c) => Some(c)
    case ReleaseReturns(c) => Some(c)
    case Observe(c) => Some(c)
    case Refused(c) => Some(c)
    case Continue(c) => Some(c)
    case Tick(c) => Some(c)
    case ObserveForce(c) => Some(c)
    case ReturnOk(c) => Some(c)
    case ReturnError(c) => Some(c)
    case _ => None
  }

  lemma OthersStay(s: State, e: Event, c: nat)
    requires Enabled(s, e) && c < |s.commits| && Mover(e) != Some(c)
    ensures c < |Apply(s, e).commits| && Apply(s, e).commits[c] == s.commits[c]
  {}

  lemma MovesTo(s: State, e: Event, c: nat)
    requires Enabled(s, e) && c < |s.commits| && Mover(e) == Some(c)
    ensures |Apply(s, e).commits| == |s.commits|
    ensures var pc := Apply(s, e).commits[c].pc;
      && (pc.TryClose? ==> e.Observe?) && (pc.Force? ==> e.ObserveForce?) && (pc.ReturnedError? ==> e.ReturnError?)
      && (pc.ReturnedOk? ==> e.ReturnOk? || s.commits[c].kind.Unsynced?)
      && (s.commits[c].pc.Copying? && !pc.Copying? ==> e.CopyDone?)
      && (s.commits[c].pc.TryClose? && pc.Waiting? ==> e.CloseForced? || e.Refused? || e.Continue?)
  {}

  /** The event that changes a committer's place. */
  lemma PlaceChanges(tr: seq<State>, es: seq<Event>, k: nat, c: nat)
    requires IsRun(tr, es) && k < |es| && c < |tr[k].commits|
    ensures c < |tr[k + 1].commits| && Enabled(tr[k], es[k]) && tr[k + 1] == Apply(tr[k], es[k])
    ensures tr[k + 1].commits[c] != tr[k].commits[c] ==> Mover(es[k]) == Some(c)
  {
    hide Enabled, Apply;
    assert Enabled(tr[k], es[k]);
    if Mover(es[k]) != Some(c) {
      OthersStay(tr[k], es[k], c);
    } else {
      MovesTo(tr[k], es[k], c);
    }
  }

  // --- a waiter tries to close only when its turn has come ------------------

  /** Every group before the active one is written and passed by `write_lsn`. */
  ghost predicate EarlierWritten(s: State) {
    && |s.groups| > 0 && s.advanced == |s.groups| - 1
    && forall i :: 0 <= i < |s.groups| - 1 ==> s.groups[i].durable
  }

  lemma StandsAtLast(s: State)
    requires Inv(s) && |s.groups| > 0 && s.writeLsn == Last(s).release
    ensures EarlierWritten(s)
  {
    hide CommitsInv, FileInv, DirInv, SyncLockInv, ObjInv;
    var l := |s.groups| - 1;
    if s.advanced <= l {
      NextToAdvanceIn(s, l);
    } else {
      assert s.advanced == |s.groups| && s.writeLsn == End(s.groups[l]);
      PassedLast(s);
    }
  }

  lemma NextToAdvanceIn(s: State, g: nat)
    requires Inv(s) && g < |s.groups| && s.writeLsn == s.groups[g].release && s.advanced <= g
    ensures g == s.advanced
  {
    hide Inv;
    NextToAdvance(s, g);
  }

  /** A closed last group ends after its release LSN. */
  lemma PassedLast(s: State)
    requires Inv(s) && |s.groups| > 0 && s.advanced == |s.groups|
    ensures End(Last(s)) != Last(s).release
  {
    hide CommitsInv, FileInv, DirInv, SyncLockInv, ObjInv;
    var l := |s.groups| - 1;
    assert s.groups[l].start < s.groups[l].end;
    if l > 0 {
      assert AtMost(End(s.groups[l - 1]), Start(s.groups[l]));
    }
  }

  /** A waiter goes for a close only when every earlier group is written, and only
      when the slot object it joined is the active one. */
  lemma LooksInTurn(tr: seq<State>, es: seq<Event>, k: nat, c: nat)
    requires IsRun(tr, es) && k < |es| && c < |tr[k].commits| && c < |tr[k + 1].commits|
    requires !tr[k].commits[c].pc.TryClose? && tr[k + 1].commits[c].pc.TryClose?
    ensures EarlierWritten(tr[k]) && Known(tr[k], c) && GroupOf(tr[k], c).obj == Last(tr[k]).obj
  {
    hide Inv, Apply;
    PlaceChanges(tr, es, k, c);
    MovesTo(tr[k], es[k], c);
    RunKeeps(tr, es, k);
    StandsAtLast(tr[k]);
  }

  /** The blocking fallback is for a waiter that has gone round its loop a thousand
      times, every fiftieth time, while its slot object is active. */
  lemma FallsBackLate(tr: seq<State>, es: seq<Event>, k: nat, c: nat)
    requires IsRun(tr, es) && k < |es| && c < |tr[k].commits| && c < |tr[k + 1].commits|
    requires !tr[k].commits[c].pc.Force? && tr[k + 1].commits[c].pc.Force?
    ensures Turns(es[..k], c) >= 1000 && Turns(es[..k], c) % 50 == 0
    ensures Known(tr[k], c) && GroupOf(tr[k], c).obj == Last(tr[k]).obj
  {
    hide Apply;
    PlaceChanges(tr, es, k, c);
    MovesTo(tr[k], es[k], c);
    WaitsCountTurns(tr, es, k, c);
  }

  /** How often committer `c` has gone round its loop. */
  function Turns(es: seq<Event>, c: nat): nat {
    if es == [] then 0 else Turns(es[..|es| - 1], c) + Turn(es[|es| - 1], c)
  }

  function Turn(e: Event, c: nat): nat {
    if e == Refused(c) || e == Continue(c) || e == Tick(c) then 1 else 0
  }

  lemma TurnStep(s: State, e: Event, c: nat)
    requires Enabled(s, e)
    ensures |s.commits| <= |Apply(s, e).commits|
    ensures c < |s.commits| ==> Apply(s, e).commits[c].waits == s.commits[c].waits + Turn(e, c)
    ensures |s.commits| <= c < |Apply(s, e).commits| ==> Apply(s, e).commits[c].waits == 0
    ensures c >= |s.commits| ==> Turn(e, c) == 0
  {
    hide Apply;
    NewcomersStart(s, e, c);
    if c < |s.commits| && Mover(e) != Some(c) {
      OthersStay(s, e, c);
    } else if c < |s.commits| {
      MoverTurns(s, e, c);
    }
  }

  lemma NewcomersStart(s: State, e: Event, c: nat)
    requires Enabled(s, e)
    ensures |s.commits| <= |Apply(s, e).commits|
    ensures |s.commits| <= c < |Apply(s, e).commits| ==> Apply(s, e).commits[c].waits == 0
  {}

  lemma MoverTurns(s: State, e: Event, c: nat)
    requires Enabled(s, e) && c < |s.commits| && Mover(e) == Some(c)
    ensures |Apply(s, e).commits| == |s.commits|
    ensures Apply(s, e).commits[c].waits == s.commits[c].waits + Turn(e, c)
  {}

  lemma {:induction false} WaitsCountTurns(tr: seq<State>, es: seq<Event>, k: nat, c: nat)
    requires IsRun(tr, es) && k < |tr|
    ensures c < |tr[k].commits| ==> tr[k].commits[c].waits == Turns(es[..k], c)
    ensures c >= |tr[k].commits| ==> Turns(es[..k], c) == 0
  {
    hide Enabled, Apply;
    if k > 0 {
      WaitsCountTurns(tr, es, k - 1, c);
      assert Enabled(tr[k - 1], es[k - 1]);
      TurnStep(tr[k - 1], es[k - 1], c);
      assert es[..k][..k - 1] == es[..k - 1];
    }
  }

  // --- how a try ends -----------------------------------------------------

  /** `c` has just closed the active slot and must install its replacement. */
  ghost predicate ClosedBy(s: State, t: State, c: nat) {
    && |s.groups| > 0 && s.lock.Unlocked? && t.lock.Switching? && t.lock.owner == Some(c)
    && t.lock.g == |s.groups| - 1 && |t.groups| == |s.groups| && Last(s).phase.Open? && Last(t).phase.Closed?
  }

  /** A try closes the slot, or was refused because the slot lock was held or a
      thread was copying, or found the slot no longer active, or nothing to close. */
  lemma TryEnds(tr: seq<State>, es: seq<Event>, k: nat, c: nat)
    requires IsRun(tr, es) && k < |es| && c < |tr[k].commits| && c < |tr[k + 1].commits|
    requires tr[k].commits[c].pc.TryClose? && tr[k + 1].commits[c].pc.Waiting?
    ensures Known(tr[k], c)
    ensures
      || ClosedBy(tr[k], tr[k + 1], c) || !tr[k].lock.Unlocked? || Last(tr[k]).copying != {}
      || GroupOf(tr[k], c).obj != Last(tr[k]).obj || !Last(tr[k]).phase.Open? || Last(tr[k]).start == Last(tr[k]).end
  {
    PlaceChanges(tr, es, k, c);
    MovesTo(tr[k], es[k], c);
  }

  /** A waiter that closes a slot, by a try or by the fallback, finds every copy into
      it done and a record in it; by a try, it is the slot object it joined. */
  lemma ClosesWholeSlot(tr: seq<State>, es: seq<Event>, k: nat, c: nat)
    requires IsRun(tr, es) && k < |es| && c < |tr[k].commits| && !tr[k].commits[c].pc.Copying?
    requires |tr[k].groups| > 0 && tr[k].lock.Unlocked? && tr[k + 1].lock.Switching? && tr[k + 1].lock.owner == Some(c)
    ensures ClosedBy(tr[k], tr[k + 1], c) && Last(tr[k]).copying == {} && Last(tr[k]).start < Last(tr[k]).end
    ensures tr[k].commits[c].pc.TryClose? || tr[k].commits[c].pc.Force?
    ensures tr[k].commits[c].pc.TryClose? ==> Known(tr[k], c) && GroupOf(tr[k], c).obj == Last(tr[k]).obj
  {
    assert Enabled(tr[k], es[k]);
    LockTaken(tr[k], es[k]);
  }

  lemma LockTaken(s: State, e: Event)
    requires Enabled(s, e) && s.lock.Unlocked? && !Apply(s, e).lock.Unlocked?
    ensures e.CloseForced? || e.CloseStock? || e.CloseOther?
  {}

  // --- how a commit ends --------------------------------------------------

  /** A synced commit returns without error only if `write_lsn` has passed its record
      and no error stands on its slot object. */
  lemma ReturnsWithoutError(tr: seq<State>, es: seq<Event>, k: nat, c: nat)
    requires IsRun(tr, es) && k < |es| && c < |tr[k].commits| && c < |tr[k + 1].commits|
    requires !tr[k].commits[c].kind.Unsynced?
    requires !tr[k].commits[c].pc.ReturnedOk? && tr[k + 1].commits[c].pc.ReturnedOk?
    ensures Known(tr[k], c) && Below(RecordLsn(tr[k], c), tr[k].writeLsn)
    ensures forall g :: 0 <= g < |tr[k].groups| && tr[k].groups[g].obj == GroupOf(tr[k], c).obj ==>
      !tr[k].groups[g].phase.Failed?
  {
    hide Apply;
    PlaceChanges(tr, es, k, c);
    MovesTo(tr[k], es[k], c);
  }

  /** It returns an error only if one stands there. */
  lemma ReturnsErrorOnError(tr: seq<State>, es: seq<Event>, k: nat, c: nat) returns (g: nat)
    requires IsRun(tr, es) && k < |es| && c < |tr[k].commits| && c < |tr[k + 1].commits|
    requires !tr[k].commits[c].pc.ReturnedError? && tr[k + 1].commits[c].pc.ReturnedError?
    ensures Known(tr[k], c) && g < |tr[k].groups|
    ensures tr[k].groups[g].phase.Failed? && tr[k].groups[g].obj == GroupOf(tr[k], c).obj
  {
    hide Apply;
    PlaceChanges(tr, es, k, c);
    MovesTo(tr[k], es[k], c);
    g :| 0 <= g < |tr[k].groups| && tr[k].groups[g].phase.Failed? && tr[k].groups[g].obj == GroupOf(tr[k], c).obj;
  }

  // --- commits that arrive meanwhile share the slot -------------------------

  /** Nothing but a waiter's look could close the active slot. */
  ghost predicate Gathering(s: State) {
    && |s.groups| > 0 && Last(s).phase.Open? && !s.lock.Switching?
    && forall c :: 0 <= c < |s.commits| ==> !s.commits[c].pc.TryClose? && !s.commits[c].pc.Force?
  }

  /** Other threads close slots too: a stock commit, the fallback, or any other. */
  predicate Interferes(e: Event) { e.CloseOther? || e.CloseStock? || e.ObserveForce? }

  lemma GatherStep(s: State, e: Event)
    requires Inv(s) && Enabled(s, e) && Gathering(s) && !Interferes(e) && !EarlierWritten(s)
    ensures Gathering(Apply(s, e)) && |Apply(s, e).groups| == |s.groups|
    ensures |s.commits| <= |Apply(s, e).commits|
    ensures forall c :: |s.commits| <= c < |Apply(s, e).commits| ==> Apply(s, e).commits[c].group == |s.groups| - 1
    ensures forall c :: 0 <= c < |s.commits| ==> Apply(s, e).commits[c].group == s.commits[c].group
  {
    hide Inv;
    if e.Observe? {
      StandsAtLast(s);
    }
  }

  /** While an earlier group is not yet written and nobody interferes, the active slot
      stays open, and every commit that arrives joins it. */
  lemma {:induction false} ArrivalsShareSlot(tr: seq<State>, es: seq<Event>, j: nat, k: nat)
    requires IsRun(tr, es) && j <= k < |tr| && Gathering(tr[j])
    requires forall m :: j <= m < k ==> !EarlierWritten(tr[m]) && !Interferes(es[m])
    ensures Gathering(tr[k]) && |tr[k].groups| == |tr[j].groups| && |tr[j].commits| <= |tr[k].commits|
    ensures forall c :: |tr[j].commits| <= c < |tr[k].commits| ==> tr[k].commits[c].group == |tr[j].groups| - 1
    decreases k - j
  {
    hide Inv, Enabled, Apply, Gathering, EarlierWritten;
    if j < k {
      ArrivalsShareSlot(tr, es, j, k - 1);
      RunKeeps(tr, es, k - 1);
      assert Enabled(tr[k - 1], es[k - 1]);
      GatherStep(tr[k - 1], es[k - 1]);
    }
  }

  /** And it joins without waiting: an open slot takes any record, whoever holds a lock
      and whoever is copying, syncing or closing. */
  lemma OpenSlotTakesAll(s: State, flags: Flags, size: nat)
    requires |s.groups| > 0 && Last(s).phase.Open? && size > 0
    ensures Enabled(s, Join(flags, size))
  {}

  // --- and its one write ----------------------------------------------------

  function Stage(p: Phase): nat {
    match p
    case Open => 0
    case Closed => 1
    case Written => 2
    case DirWait => 3
    case DirSync(_) => 4
    case Freed => 5
    case Failed => 5
  }

  lemma StageStep(s: State, e: Event, g: nat)
    requires Enabled(s, e) && g < |s.groups|
    ensures g < |Apply(s, e).groups| && Stage(s.groups[g].phase) <= Stage(Apply(s, e).groups[g].phase)
  {}

  lemma {:induction false} StageRises(tr: seq<State>, es: seq<Event>, j: nat, k: nat, g: nat)
    requires IsRun(tr, es) && j <= k < |tr| && g < |tr[j].groups|
    ensures g < |tr[k].groups| && Stage(tr[j].groups[g].phase) <= Stage(tr[k].groups[g].phase)
    decreases k - j
  {
    hide Enabled, Apply, Stage;
    if j < k {
      StageRises(tr, es, j, k - 1, g);
      assert Enabled(tr[k - 1], es[k - 1]);
      StageStep(tr[k - 1], es[k - 1], g);
    }
  }

  /** A group is written once. */
  lemma OneWritePerGroup(tr: seq<State>, es: seq<Event>, j: nat, k: nat, g: nat)
    requires IsRun(tr, es) && j < |es| && k < |es| && es[j] == Write(g) && es[k] == Write(g)
    ensures j == k
  {
    assert Enabled(tr[j], es[j]) && Enabled(tr[k], es[k]);
    if j < k {
      StageRises(tr, es, j + 1, k, g);
    } else if k < j {
      StageRises(tr, es, k + 1, j, g);
    }
  }

  lemma NoLateJoin(s: State, e: Event, g: nat)
    requires Inv(s) && Enabled(s, e) && g < |s.groups| && !s.groups[g].phase.Open?
    ensures |s.commits| <= |Apply(s, e).commits|
    ensures forall c :: |s.commits| <= c < |Apply(s, e).commits| ==> Apply(s, e).commits[c].group != g
    ensures forall c :: 0 <= c < |s.commits| ==> Apply(s, e).commits[c].group == s.commits[c].group
  {
    hide Inv;
  }

  lemma {:induction false} MembersAreSettled(tr: seq<State>, es: seq<Event>, j: nat, k: nat, g: nat, c: nat)
    requires IsRun(tr, es) && j <= k < |tr| && g < |tr[j].groups| && !tr[j].groups[g].phase.Open?
    requires c < |tr[k].commits| && tr[k].commits[c].group == g
    ensures c < |tr[j].commits| && tr[j].commits[c].group == g
    decreases k - j
  {
    hide Inv, Enabled, Apply;
    if j < k {
      StageRises(tr, es, j, k - 1, g);
      RunKeeps(tr, es, k - 1);
      assert Enabled(tr[k - 1], es[k - 1]);
      NoLateJoin(tr[k - 1], es[k - 1], g);
      MembersAreSettled(tr, es, j, k - 1, g, c);
    }
  }

  /** `p` is a byte of commit `c`'s record. */
  ghost predicate InRecord(s: State, c: nat, p: Lsn)
    requires c < |s.commits|
  {
    var cm := s.commits[c];
    cm.group < |s.groups| && p.file == s.groups[cm.group].file && cm.lo <= p.offset < cm.hi
  }

  /** That one write makes the record of every commit of the group durable, and no
      commit joins the group afterwards. */
  lemma WriteServesGroup(tr: seq<State>, es: seq<Event>, j: nat, k: nat, g: nat, c: nat)
    requires IsRun(tr, es) && j < |es| && es[j] == Write(g) && j < k < |tr|
    requires c < |tr[k].commits| && tr[k].commits[c].group == g
    ensures c < |tr[j + 1].commits| && tr[j + 1].commits[c].group == g && g < |tr[j + 1].groups|
    ensures var t := tr[j + 1]; forall p :: InRecord(t, c, p) ==> DurableByte(t, p)
  {
    assert Enabled(tr[j], es[j]) && tr[j + 1] == Apply(tr[j], es[j]);
    MembersAreSettled(tr, es, j + 1, k, g, c);
    RunKeeps(tr, es, j + 1);
    RecordsInGroup(tr[j + 1], c);
  }

  lemma RecordsInGroup(s: State, c: nat)
    requires Inv(s) && c < |s.commits|
    ensures s.commits[c].group < |s.groups|
    ensures s.groups[s.commits[c].group].durable ==> forall p :: InRecord(s, c, p) ==> DurableByte(s, p)
  {
    hide GroupsInv, CopyInv, ReturnInv, HandInv, LockInv, OwnerInv;
    var g := s.groups[s.commits[c].group];
    if g.durable {
      forall p | InRecord(s, c, p)
        ensures DurableByte(s, p)
      {
        assert Holds(g, p);
      }
    }
  }

  // --- what makes things durable --------------------------------------------

  lemma DurableStep(s: State, e: Event, g: nat)
    requires Enabled(s, e) && g < |Apply(s, e).groups| && Apply(s, e).groups[g].durable
    ensures g < |s.groups| && (s.groups[g].durable || e == Write(g))
  {}

  /** A group is durable only through its write. */
  lemma {:induction false} DurableCameFromWrite(tr: seq<State>, es: seq<Event>, k: nat, g: nat) returns (j: nat)
    requires IsRun(tr, es) && k < |tr| && g < |tr[k].groups| && tr[k].groups[g].durable
    ensures j < k && es[j] == Write(g)
  {
    hide Enabled, Apply;
    if k > 0 {
      assert Enabled(tr[k - 1], es[k - 1]);
      DurableStep(tr[k - 1], es[k - 1], g);
      if es[k - 1] == Write(g) {
        j := k - 1;
      } else {
        j := DurableCameFromWrite(tr, es, k - 1, g);
      }
    }
  }

  /** Directory entries become durable only when a directory sync ends, and those are
      the entries there were when it began. A failed step leaves its error behind. */
  lemma DirectoryCameFromSync(tr: seq<State>, es: seq<Event>, k: nat)
    requires IsRun(tr, es) && k < |es|
    ensures tr[k + 1].dirDurable != tr[k].dirDurable ==>
      && es[k].DirEnd? && es[k].g < |tr[k].groups| && tr[k].groups[es[k].g].phase.DirSync?
      && tr[k + 1].dirDurable == tr[k].groups[es[k].g].phase.seen
    ensures es[k].WriteFail? || es[k].DirFail? ==>
      && es[k].g < |tr[k + 1].groups| && tr[k + 1].groups[es[k].g].phase.Failed?
      && tr[k + 1].writeLsn == tr[k].writeLsn && tr[k + 1].syncDir == tr[k].syncDir
  {
    assert Enabled(tr[k], es[k]);
  }

  // --- files are left, and directories synced, in order ----------------------

  /** The groups of the files before `sync_lsn`'s are all written, and a file's
      recorded end bounds its groups. */
  ghost predicate FilesInv(s: State) {
    && (forall i :: 0 <= i < |s.groups| && s.groups[i].file < s.syncFile ==> i < s.advanced)
    && (forall i, k :: 0 <= i < |s.groups| && s.groups[i].file <= k + 1 && 0 <= k < |s.fileEnds| ==>
          AtMost(End(s.groups[i]), s.fileEnds[k]))
  }

  lemma FilesStep(s: State, e: Event)
    requires Inv(s) && Enabled(s, e) && FilesInv(s) && !e.CloseFile? && !e.NewSlot? && !e.Join?
    ensures FilesInv(Apply(s, e))
  {
    hide Inv, Enabled, Apply, End;
    FilesFrame(s, e);
    var t := Apply(s, e);
    assert forall i :: 0 <= i < |t.groups| ==> t.groups[i].file == s.groups[i].file;
    assert forall i :: 0 <= i < |t.groups| ==> End(t.groups[i]) == End(s.groups[i]);
  }

  /** Only these three touch the log's layout. */
  lemma FilesFrame(s: State, e: Event)
    requires Enabled(s, e) && !e.CloseFile? && !e.NewSlot? && !e.Join?
    ensures var t := Apply(s, e);
      && |t.groups| == |s.groups| && t.fileEnds == s.fileEnds && t.syncFile == s.syncFile && s.advanced <= t.advanced
      && forall i :: 0 <= i < |t.groups| ==>
           t.groups[i].file == s.groups[i].file && End(t.groups[i]) == End(s.groups[i])
  {}

  lemma JoinFiles(s: State, e: Event)
    requires Inv(s) && Enabled(s, e) && FilesInv(s) && e.Join?
    ensures FilesInv(Apply(s, e))
  {
    hide CommitsInv, Layout, WriteInv, DirInv, SyncLockInv, ObjInv;
  }

  lemma NewSlotFiles(s: State, e: Event)
    requires Inv(s) && Enabled(s, e) && FilesInv(s) && e.NewSlot?
    ensures FilesInv(Apply(s, e))
  {
    hide CommitsInv, DirInv, SyncLockInv, ObjInv;
    var t, l := Apply(s, e), |s.groups| - 1;
    forall i, k | 0 <= i < |t.groups| && t.groups[i].file <= k + 1 && 0 <= k < |t.fileEnds|
      ensures AtMost(End(t.groups[i]), t.fileEnds[k])
    {
      if k == |s.fileEnds| && i < l {
        EndsRise(s, i);
      }
    }
  }

  lemma EndsRise(s: State, i: nat)
    requires Inv(s) && i < |s.groups| - 1
    ensures AtMost(End(s.groups[i]), End(Last(s)))
  {
    hide CommitsInv, WriteInv, FileInv, DirInv, SyncLockInv, ObjInv;
    assert AtMost(End(s.groups[i]), Start(Last(s)));
  }

  lemma CloseFiles(s: State, e: Event)
    requires Inv(s) && Enabled(s, e) && FilesInv(s) && e.CloseFile?
    ensures FilesInv(Apply(s, e))
  {
    hide CommitsInv, FileInv, DirInv, SyncLockInv, ObjInv, Layout, WriteInv;
    forall i | 0 <= i < |s.groups| && s.groups[i].file <= s.syncFile
      ensures i < s.advanced
    {
      assert AtMost(End(s.groups[i]), s.fileEnds[s.syncFile - 1]);
      ReachedIsAdvanced(s, i);
    }
  }

  lemma ReachedIsAdvanced(s: State, i: nat)
    requires Inv(s) && i < |s.groups| && s.groups[i].file < FileId(s) && AtMost(End(s.groups[i]), s.writeLsn)
    ensures i < s.advanced
  {
    hide CommitsInv, DirInv, SyncLockInv, ObjInv;
    assert i < |s.groups| - 1 && s.groups[i].start < s.groups[i].end;
    assert 0 < s.advanced <= i ==> AtMost(End(s.groups[s.advanced - 1]), Start(s.groups[i]));
  }

  lemma {:induction false} FilesKept(tr: seq<State>, es: seq<Event>, k: nat)
    requires IsRun(tr, es) && k < |tr|
    ensures FilesInv(tr[k])
  {
    hide Enabled, Apply, Inv, FilesInv;
    if k == 0 {
      FilesStart(tr[0]);
    } else {
      FilesKept(tr, es, k - 1);
      RunKeeps(tr, es, k - 1);
      var s, e := tr[k - 1], es[k - 1];
      assert Enabled(s, e);
      if e.CloseFile? {
        CloseFiles(s, e);
      } else if e.NewSlot? {
        NewSlotFiles(s, e);
      } else if e.Join? {
        JoinFiles(s, e);
      } else {
        FilesStep(s, e);
      }
    }
  }

  lemma FilesStart(s: State)
    requires Init(s)
    ensures FilesInv(s)
  {}

  /** `sync_lsn` leaves a file only when every group in it is durable. */
  lemma FilesLeftAreDurable(tr: seq<State>, es: seq<Event>, k: nat, i: nat)
    requires IsRun(tr, es) && k < |tr| && i < |tr[k].groups| && tr[k].groups[i].file < tr[k].syncFile
    ensures tr[k].groups[i].durable
  {
    hide Inv;
    FilesKept(tr, es, k);
    RunKeeps(tr, es, k);
    AdvancedIsDurable(tr[k], i);
  }

  lemma AdvancedIsDurable(s: State, i: nat)
    requires Inv(s) && i < s.advanced
    ensures i < |s.groups| && s.groups[i].durable
  {
    hide CommitsInv, Layout, FileInv, DirInv, SyncLockInv, ObjInv;
  }

  /** It goes file by file, and not during a directory sync. */
  lemma FilesLeftInTurn(tr: seq<State>, es: seq<Event>, k: nat)
    requires IsRun(tr, es) && k < |es| && tr[k + 1].syncFile != tr[k].syncFile
    ensures tr[k + 1].syncFile == tr[k].syncFile + 1 && tr[k].syncLock.None?
  {
    assert Enabled(tr[k], es[k]);
  }

  /** A group's directory sync begins only when `sync_lsn` has reached its file, so
      that every group of an earlier file is durable, and one at a time. */
  lemma DirSyncInTurn(tr: seq<State>, es: seq<Event>, k: nat, g: nat)
    requires IsRun(tr, es) && k < |es| && g < |tr[k].groups| && g < |tr[k + 1].groups|
    requires !tr[k].groups[g].phase.DirSync? && tr[k + 1].groups[g].phase.DirSync?
    ensures tr[k].syncLock.None? && tr[k].groups[g].durable
    ensures forall i :: 0 <= i < |tr[k].groups| && tr[k].groups[i].file < tr[k].groups[g].file ==>
      tr[k].groups[i].durable
  {
    hide Inv, Apply;
    assert Enabled(tr[k], es[k]);
    DirMover(tr[k], es[k], g);
    RunKeeps(tr, es, k);
    DirWaitIsDurable(tr[k], g);
    forall i | 0 <= i < |tr[k].groups| && tr[k].groups[i].file < tr[k].groups[g].file
      ensures tr[k].groups[i].durable
    {
      FilesLeftAreDurable(tr, es, k, i);
    }
  }

  lemma DirMover(s: State, e: Event, g: nat)
    requires Enabled(s, e) && g < |s.groups|
    ensures g < |Apply(s, e).groups|
    ensures !s.groups[g].phase.DirSync? && Apply(s, e).groups[g].phase.DirSync? ==> e == DirBegin(g)
  {}

  lemma DirWaitIsDurable(s: State, g: nat)
    requires Inv(s) && g < |s.groups| && s.groups[g].phase.DirWait?
    ensures s.groups[g].durable
  {
    hide CommitsInv, Layout, FileInv, DirInv, SyncLockInv, ObjInv;
  }

  // --- what each kind of commit does ----------------------------------------

  /** The decision, spelled out. */
  lemma KindIs(flags: Flags, endOffset: int, bufMax: nat)
    ensures KindOf(flags, endOffset, bufMax).Grouped? <==>
      flags.flush && flags.dsync && !flags.fsync && !flags.unbuffered && endOffset < bufMax
    ensures KindOf(flags, endOffset, bufMax).Unsynced? <==> !flags.flush
  {}

  /** A join adds the committer's record, all its bytes and no others, to the slot. */
  lemma JoinAddsRecord(tr: seq<State>, es: seq<Event>, k: nat)
    requires IsRun(tr, es) && k < |es| && es[k].Join?
    ensures var s, t, c := tr[k], tr[k + 1], |tr[k].commits|;
      && |t.commits| == c + 1 && |t.groups| == |s.groups| > 0 && t.commits[c].group == |s.groups| - 1
      && t.commits[c].hi - t.commits[c].lo == es[k].size > 0 && t.commits[c].pc.Copying?
      && forall p :: LogByte(t, p) <==> LogByte(s, p) || InRecord(t, c, p)
  {
    hide Inv;
    assert Enabled(tr[k], es[k]);
    var s, t := tr[k], tr[k + 1];
    RunKeeps(tr, es, k);
    StartsBeforeEnd(s);
    var g := |s.groups| - 1;
    forall p
      ensures LogByte(t, p) <==> LogByte(s, p) || InRecord(t, |s.commits|, p)
    {
      if i :| 0 <= i < |s.groups| && Holds(s.groups[i], p) {
        assert Holds(t.groups[i], p);
      }
      if i :| 0 <= i < |t.groups| && Holds(t.groups[i], p) {
        assert i < g ==> Holds(s.groups[i], p);
        assert i == g ==> Holds(s.groups[g], p) || p.offset >= s.groups[g].end;
      }
      if InRecord(t, |s.commits|, p) {
        assert Holds(t.groups[g], p);
      }
    }
  }

  lemma StartsBeforeEnd(s: State)
    requires Inv(s)
    ensures |s.groups| > 0 && Last(s).start <= Last(s).end
  {
    hide WriteInv, FileInv, DirInv, SyncLockInv, ObjInv, CommitsInv;
  }

  /** A flushed commit with WT_LOG_FSYNC, without WT_LOG_DSYNC, in an unbuffered slot
      or ending past the buffer, does not finish its copy while its slot is open: the
      slot is closed first, as before the patch. */
  lemma UngroupedClosesFirst(tr: seq<State>, es: seq<Event>, j: nat, k: nat, flags: Flags, endOffset: int, bufMax: nat)
    requires Joins(tr, es, j, flags, endOffset, bufMax) && j < k < |es|
    requires flags.flush && (!flags.dsync || flags.fsync || flags.unbuffered || endOffset >= bufMax)
    ensures var c := |tr[j].commits|;
      && c < |tr[k].commits| && c < |tr[k + 1].commits|
      && (tr[k].commits[c].pc.Copying? && !tr[k + 1].commits[c].pc.Copying? ==>
            Known(tr[k], c) && !GroupOf(tr[k], c).phase.Open?)
  {
    hide Apply;
    var c := |tr[j].commits|;
    JoinedKind(tr, es, j, flags, endOffset, bufMax);
    KindIs(flags, endOffset, bufMax);
    KindKept(tr, es, j + 1, k, c);
    PlaceChanges(tr, es, k, c);
    if Mover(es[k]) == Some(c) {
      MovesTo(tr[k], es[k], c);
    }
  }

  /** Any other dsync commit leaves its slot open: it never closes one before its own
      copy is done. */
  lemma GroupedLeavesOpen(tr: seq<State>, es: seq<Event>, j: nat, k: nat, flags: Flags, endOffset: int, bufMax: nat)
    requires Joins(tr, es, j, flags, endOffset, bufMax) && j < k < |es|
    requires flags.flush && flags.dsync && !flags.fsync && !flags.unbuffered && endOffset < bufMax
    ensures var c := |tr[j].commits|;
      && c < |tr[k].commits|
      && (tr[k].lock.Unlocked? && tr[k + 1].lock.Switching? && tr[k + 1].lock.owner == Some(c) ==>
            !tr[k].commits[c].pc.Copying?)
  {
    var c := |tr[j].commits|;
    JoinedKind(tr, es, j, flags, endOffset, bufMax);
    KindIs(flags, endOffset, bufMax);
    KindKept(tr, es, j + 1, k, c);
    assert Enabled(tr[k], es[k]);
    if tr[k].lock.Unlocked? && !tr[k + 1].lock.Unlocked? {
      LockTaken(tr[k], es[k]);
    }
  }

  /** A flushed commit is promised its directory entries exactly when it is a dsync
      commit without WT_LOG_FSYNC, in a buffered slot, that ends inside the buffer. */
  lemma PromisedExactly(flags: Flags, endOffset: nat, bufMax: nat)
    requires flags.flush && endOffset > 0
    ensures Promised(flags, endOffset, bufMax) <==>
      flags.dsync && !flags.fsync && !flags.unbuffered && endOffset < bufMax
  {
    hide Promised;
    PromisedIffGrouped(flags, endOffset, bufMax);
    KindIs(flags, endOffset, bufMax);
  }
}
