/** Who caused a store error that a call would not have met alone: the rival step behind each of them. */
module Causes {
  import opened Basics
  import opened Tables
  import opened Entities
  import opened Machine
  import opened Linearisation
  import opened Accounting
  import opened Access
  import opened Serving
  import opened Outcomes
  import opened Races

  // ---- The class that vanished ----

  /** Step t deletes the class: the last step of a `RemoveClass` call that completes. */
  ghost predicate Deletes(s: State, es: seq<Event>, t: int, classId: Id) {
    && 0 <= t < |es| && es[t].Turn? && es[t].call < |s.calls|
    && s.calls[es[t].call].req == RemoveClass(classId)
    && Run(s, es[..t + 1]).calls[es[t].call].phase == Finished(Completed)
    && classId in Run(s, es[..t]).db.classes && classId !in Run(s, es[..t + 1]).db.classes
  }

  lemma WriteLosesClass(db: Db, w: Write, classId: Id)
    requires classId in db.classes && classId !in Apply(db, w).0.classes
    ensures w == DeleteClass(classId) && Apply(db, w).1.Done?
  {
  }

  lemma StepLosesClass(s: State, e: Event, classId: Id)
    requires classId in s.db.classes && classId !in Step(s, e).db.classes
    ensures e.Turn? && e.call < |s.calls| && s.calls[e.call].req == RemoveClass(classId)
    ensures Step(s, e).calls[e.call].phase == Finished(Completed)
  {
    WriteLosesClass(s.db, PendingWrite(s.calls[e.call], e).value, classId);
  }

  /** What holds at one instant and not at a later one stops holding in between. */
  lemma {:induction false} Falls(bits: seq<bool>, from: nat, until: nat) returns (t: nat)
    requires from <= until < |bits| && bits[from] && !bits[until]
    ensures from <= t < until && bits[t] && !bits[t + 1]
    decreases until
  {
    t := until - 1;
    if !bits[t] {
      t := Falls(bits, from, t);
    }
  }

  /** The states of a run, instant by instant. */
  ghost function Instants(s: State, es: seq<Event>): (states: seq<State>)
    ensures |states| == |es| + 1 && states[|es|] == Run(s, es)
    ensures forall i | 0 <= i <= |es| :: states[i] == Run(s, es[..i]) && |states[i].calls| == |s.calls|
  {
    assert es[..|es|] == es;
    seq(|es| + 1, i requires 0 <= i <= |es| => Run(s, es[..i]))
  }

  lemma StepBetween(s: State, es: seq<Event>, t: nat)
    requires t < |es|
    ensures Run(s, es[..t + 1]) == Step(Run(s, es[..t]), es[t])
  {
    assert es[..t + 1][..t] == es[..t];
  }

  lemma ClassFalls(states: seq<State>, from: nat, until: nat, classId: Id) returns (t: nat)
    requires from <= until < |states|
    requires classId in states[from].db.classes && classId !in states[until].db.classes
    ensures from <= t < until && classId in states[t].db.classes && classId !in states[t + 1].db.classes
  {
    t := Falls(seq(|states|, i requires 0 <= i < |states| => classId in states[i].db.classes), from, until);
  }

  lemma DeletesAtStep(s: State, es: seq<Event>, t: nat, classId: Id)
    requires t < |es|
    requires classId in Run(s, es[..t]).db.classes && classId !in Run(s, es[..t + 1]).db.classes
    ensures Deletes(s, es, t, classId)
  {
    StepBetween(s, es, t);
    StepLosesClass(Run(s, es[..t]), es[t], classId);
    RunKeepsCalls(s, es[..t]);
  }

  /** A class that is there at one instant and gone at a later one was deleted at a step in between. */
  lemma VanishedClassWasDeleted(s: State, es: seq<Event>, from: nat, until: nat, classId: Id) returns (t: nat)
    requires from <= until <= |es|
    requires classId in Run(s, es[..from]).db.classes && classId !in Run(s, es[..until]).db.classes
    ensures from <= t < until && Deletes(s, es, t, classId)
  {
    t := ClassFalls(Instants(s, es), from, until, classId);
    DeletesAtStep(s, es, t, classId);
  }

  /** The class a call checks before it writes. */
  function CheckedClass(req: Request): Option<Id> {
    match req
    case Assign(classId, _) => Some(classId)
    case Unassign(classId, _) => Some(classId)
    case ChangeClass(classId, _) => Some(classId)
    case RemoveClass(classId) => Some(classId)
    case AddOne(classId, _) => Some(classId)
    case AddBulk(classId, _) => Some(classId)
    case _ => None
  }

  /** A call that has got past its beginning found its class there. */
  lemma BeganWithClass(db: Db, c: Call)
    requires CheckedClass(c.req).Some? && !Begin(c, db).phase.Finished?
    ensures CheckedClass(c.req).value in db.classes
  {
  }

  lemma ClassAfterCheck(s: State, es: seq<Event>, from: nat, k: nat)
    requires k < |s.calls| && CheckedClass(s.calls[k].req).Some? && TurnAt(s, es, from, k, Start)
    requires !Run(s, es[..from + 1]).calls[k].phase.Finished?
    ensures CheckedClass(s.calls[k].req).value in Run(s, es[..from + 1]).db.classes
  {
    RunKeepsCalls(s, es[..from]);
    assert es[..from + 1][..from] == es[..from];
    BeganWithClass(Run(s, es[..from]).db, Run(s, es[..from]).calls[k]);
  }

  lemma NotYetFinished(s: State, es: seq<Event>, n: nat, k: nat)
    requires n <= |es| && k < |s.calls| && !Run(s, es).calls[k].phase.Finished?
    ensures !Run(s, es[..n]).calls[k].phase.Finished?
  {
    PhasesOnward(s, es, n, k);
  }

  /** The call that finishes at step t is not one that is unfinished at the end. */
  lemma FinishedIsAnother(s: State, es: seq<Event>, t: nat, k: nat)
    requires t < |es| && es[t].Turn? && es[t].call < |s.calls| && k < |s.calls|
    requires Run(s, es[..t + 1]).calls[es[t].call].phase.Finished? && !Run(s, es).calls[k].phase.Finished?
    ensures es[t].call != k
  {
    NotYetFinished(s, es, t + 1, k);
  }

  /** A call that meets its class gone at its write lost it to the deletion of that class by another call, after
      its own check. */
  lemma MissingClassWasDeleted(s: State, es: seq<Event>, from: nat, k: nat) returns (t: nat)
    requires k < |s.calls| && CheckedClass(s.calls[k].req).Some? && TurnAt(s, es, from, k, Start)
    requires !Run(s, es).calls[k].phase.Finished?
    requires CheckedClass(s.calls[k].req).value !in Run(s, es).db.classes
    ensures from < t < |es| && Deletes(s, es, t, CheckedClass(s.calls[k].req).value) && es[t].call != k
  {
    var classId := CheckedClass(s.calls[k].req).value;
    assert es[..|es|] == es;
    NotYetFinished(s, es, from + 1, k);
    ClassAfterCheck(s, es, from, k);
    t := VanishedClassWasDeleted(s, es, from + 1, |es|, classId);
    FinishedIsAnother(s, es, t, k);
  }

  // ---- The leader and the user taken meanwhile ----

  /** The request asks for the user to lead a class. */
  predicate AsksToLead(req: Request, leaderId: Id) {
    match req
    case CreateClass(_, _, l) => l == leaderId
    case ChangeClass(_, patch) => patch.leaderId == Some(leaderId)
    case _ => false
  }

  /** The request asks for the user to become a member. */
  predicate AsksToJoin(req: Request, userId: Id) {
    match req
    case AddOne(_, raw) => raw.userId == Some(userId)
    case AddBulk(_, raws) => exists r :: r in raws && r.userId == Some(userId)
    case _ => false
  }

  lemma WriteTakesLeader(db: Db, w: Write, leaderId: Id, exceptFor: Id)
    requires !LeaderTaken(db.classes, leaderId, exceptFor) && LeaderTaken(Apply(db, w).0.classes, leaderId, exceptFor)
    ensures (w.InsertClass? && w.klass.leaderId == leaderId) || (w.UpdateClass? && w.classPatch.leaderId == Some(leaderId))
    ensures Apply(db, w).1.Done?
  {
  }

  lemma StepTakesLeader(s: State, e: Event, leaderId: Id, exceptFor: Id)
    requires !LeaderTaken(s.db.classes, leaderId, exceptFor) && LeaderTaken(Step(s, e).db.classes, leaderId, exceptFor)
    ensures e.Turn? && e.call < |s.calls| && AsksToLead(s.calls[e.call].req, leaderId)
    ensures Step(s, e).calls[e.call].phase.Finished?
  {
    var w := PendingWrite(s.calls[e.call], e).value;
    WriteTakesLeader(s.db, w, leaderId, exceptFor);
    UpdatedRowExists(s.db, w);
  }

  lemma LeaderFalls(states: seq<State>, from: nat, leaderId: Id, exceptFor: Id) returns (t: nat)
    requires from < |states| && !LeaderTaken(states[from].db.classes, leaderId, exceptFor)
    requires LeaderTaken(states[|states| - 1].db.classes, leaderId, exceptFor)
    ensures from <= t < |states| - 1 && !LeaderTaken(states[t].db.classes, leaderId, exceptFor)
    ensures LeaderTaken(states[t + 1].db.classes, leaderId, exceptFor)
  {
    t := Falls(seq(|states|, i requires 0 <= i < |states| => !LeaderTaken(states[i].db.classes, leaderId, exceptFor)),
               from, |states| - 1);
  }

  lemma LeaderTakerAsks(s: State, es: seq<Event>, t: nat, leaderId: Id, exceptFor: Id)
    requires t < |es| && !LeaderTaken(Run(s, es[..t]).db.classes, leaderId, exceptFor)
    requires LeaderTaken(Run(s, es[..t + 1]).db.classes, leaderId, exceptFor)
    ensures es[t].Turn? && es[t].call < |s.calls| && AsksToLead(s.calls[es[t].call].req, leaderId)
    ensures Run(s, es[..t + 1]).calls[es[t].call].phase.Finished?
  {
    StepBetween(s, es, t);
    StepTakesLeader(Run(s, es[..t]), es[t], leaderId, exceptFor);
    RunKeepsCalls(s, es[..t]);
  }

  /** A call that began while no other class had the leader and finds one at its write lost the leader to another
      call that asked for the same. */
  lemma LeaderTakenByAnother(s: State, es: seq<Event>, from: nat, k: nat, leaderId: Id, exceptFor: Id)
    returns (t: nat)
    requires from <= |es| && k < |s.calls| && !Run(s, es).calls[k].phase.Finished?
    requires !LeaderTaken(Run(s, es[..from]).db.classes, leaderId, exceptFor)
    requires LeaderTaken(Run(s, es).db.classes, leaderId, exceptFor)
    ensures from <= t < |es| && es[t].Turn? && es[t].call < |s.calls| && es[t].call != k
    ensures AsksToLead(s.calls[es[t].call].req, leaderId)
  {
    t := LeaderFalls(Instants(s, es), from, leaderId, exceptFor);
    LeaderTakerAsks(s, es, t, leaderId, exceptFor);
    FinishedIsAnother(s, es, t, k);
  }

  lemma WriteTakesUser(db: Db, w: Write, userId: Id)
    requires Consistent(db) && FreshFor(db, w)
    requires !UserTaken(db.members, Some(userId)) && UserTaken(Apply(db, w).0.members, Some(userId))
    ensures || (w.InsertMember? && w.member.row.userId == Some(userId))
            || (w.InsertMembers? && Mentions(w.batch, Some(userId)))
    ensures Apply(db, w).1.Done?
  {
    match w
    case InsertMembers(batch) =>
      assert FreshBatch(db.members.Keys, batch);
      InsertAllUsers(db.members, batch, Some(userId));
    case InsertMember(m) => UserTakenAfter(db.members, m, Some(userId));
    case UpdateMember(id, patch) =>
    case _ => RosterWritesKeepMembers(db, w);
  }

  lemma PendingNamesUser(db: Db, c: Call, e: Event, userId: Id)
    requires e.Turn? && Fits(db, c) && PendingWrite(c, e).Some?
    ensures var w := PendingWrite(c, e).value;
            w.InsertMember? && w.member.row.userId == Some(userId) ==> AsksToJoin(c.req, userId)
  {
  }

  lemma BatchNamesUser(classId: Id, raws: seq<RawMember>, batch: seq<NewMember>, userId: Id)
    requires |batch| == |raws| && Mentions(batch, Some(userId))
    requires forall i | 0 <= i < |raws| :: RowFor(classId, raws[i]) == Ok(batch[i].row)
    ensures AsksToJoin(AddBulk(classId, raws), userId)
  {
    var m :| m in batch && m.row.userId == Some(userId);
    var i :| 0 <= i < |batch| && batch[i] == m;
    assert RowFor(classId, raws[i]) == Ok(batch[i].row);
    assert raws[i] in raws;
  }

  lemma PendingBatchNamesUser(db: Db, c: Call, e: Event, userId: Id)
    requires e.Turn? && Fits(db, c) && PendingWrite(c, e).Some? && PendingWrite(c, e).value.InsertMembers?
    requires Mentions(PendingWrite(c, e).value.batch, Some(userId))
    ensures AsksToJoin(c.req, userId)
  {
    assert c.req.AddBulk? && c.phase.WritingRows?;
    RowsForAll(c.req.classId, c.req.raws);
    BatchNamesUser(c.req.classId, c.req.raws, PendingWrite(c, e).value.batch, userId);
  }

  lemma AddEndsAtWrite(db: Db, c: Call, e: Event)
    requires e.Turn? && c.req.AddOne? && TurnOf(db, c, e).0.members != db.members
    ensures TurnOf(db, c, e).1.phase.Finished?
  {
  }

  lemma StepTakesUser(s: State, e: Event, userId: Id)
    requires Consistent(s.db) && AllFit(s) && Possible(s, e)
    requires !UserTaken(s.db.members, Some(userId)) && UserTaken(Step(s, e).db.members, Some(userId))
    ensures e.Turn? && e.call < |s.calls| && AsksToJoin(s.calls[e.call].req, userId)
    ensures s.calls[e.call].req.AddOne? ==> Step(s, e).calls[e.call].phase.Finished?
  {
    var c := s.calls[e.call];
    var w := PendingWrite(c, e).value;
    WriteTakesUser(s.db, w, userId);
    PendingNamesUser(s.db, c, e, userId);
    if w.InsertMembers? {
      PendingBatchNamesUser(s.db, c, e, userId);
    }
    if c.req.AddOne? {
      AddEndsAtWrite(s.db, c, e);
    }
  }

  /** What holds at every instant of a run that began well. */
  lemma PrefixSound(s: State, es: seq<Event>, t: nat)
    requires Beginning(s) && Schedule(s, es) && t < |es|
    ensures Consistent(Run(s, es[..t]).db) && AllFit(Run(s, es[..t])) && Possible(Run(s, es[..t]), es[t])
  {
    SchedulePrefix(s, es, t);
    SchedulePrefix(s, es, t + 1);
    RunConsistent(s, es[..t]);
    assert es[..t + 1][..t] == es[..t];
  }

  lemma UserFalls(states: seq<State>, from: nat, userId: Option<Id>) returns (t: nat)
    requires from < |states|
    requires !UserTaken(states[from].db.members, userId) && UserTaken(states[|states| - 1].db.members, userId)
    ensures from <= t < |states| - 1 && !UserTaken(states[t].db.members, userId)
    ensures UserTaken(states[t + 1].db.members, userId)
  {
    t := Falls(seq(|states|, i requires 0 <= i < |states| => !UserTaken(states[i].db.members, userId)),
               from, |states| - 1);
  }

  lemma UserTakerAsks(s: State, es: seq<Event>, t: nat, userId: Id)
    requires Beginning(s) && Schedule(s, es) && t < |es|
    requires !UserTaken(Run(s, es[..t]).db.members, Some(userId)) && UserTaken(Run(s, es[..t + 1]).db.members, Some(userId))
    ensures es[t].Turn? && es[t].call < |s.calls| && AsksToJoin(s.calls[es[t].call].req, userId)
    ensures s.calls[es[t].call].req.AddOne? ==> Run(s, es[..t + 1]).calls[es[t].call].phase.Finished?
  {
    StepBetween(s, es, t);
    PrefixSound(s, es, t);
    StepTakesUser(Run(s, es[..t]), es[t], userId);
    RunKeepsCalls(s, es[..t]);
  }

  /** A member add that began while the user was a member nowhere and finds the user taken at its write lost the
      user to another call that added the same. */
  lemma UserTakenByAnother(s: State, es: seq<Event>, from: nat, k: nat, userId: Id) returns (t: nat)
    requires Beginning(s) && Schedule(s, es)
    requires from <= |es| && k < |s.calls| && s.calls[k].req.AddOne? && !Run(s, es).calls[k].phase.Finished?
    requires !UserTaken(Run(s, es[..from]).db.members, Some(userId)) && UserTaken(Run(s, es).db.members, Some(userId))
    ensures from <= t < |es| && es[t].Turn? && es[t].call < |s.calls| && es[t].call != k
    ensures AsksToJoin(s.calls[es[t].call].req, userId)
  {
    t := UserFalls(Instants(s, es), from, Some(userId));
    UserTakerAsks(s, es, t, userId);
    if s.calls[es[t].call].req.AddOne? {
      FinishedIsAnother(s, es, t, k);
    }
  }

  // ---- The roster filled meanwhile ----

  /** The request asks for members of the class. */
  predicate AsksForMembers(req: Request, classId: Id) {
    match req
    case AddOne(c, _) => c == classId
    case AddBulk(c, _) => c == classId
    case _ => false
  }

  /** Only an insert of a member of the class gives a class its first member. */
  lemma WriteFillsRoster(db: Db, w: Write, classId: Id)
    requires Consistent(db) && FreshFor(db, w)
    requires !HasMembers(db.members, classId) && HasMembers(Apply(db, w).0.members, classId)
    ensures w.InsertMember? || w.InsertMembers?
    ensures w.InsertMember? ==> w.member.row.classId == classId
    ensures w.InsertMembers? ==> exists n :: n in w.batch && n.row.classId == classId
  {
    var after := Apply(db, w).0.members;
    var m :| m in after && after[m].classId == classId;
    match w
    case InsertMembers(batch) =>
      if m in db.members {
        BulkMembersStay(db, batch, m);
      } else {
        BulkRowsFrom(db, batch, m);
      }
    case InsertMember(_) =>
    case UpdateMember(_, _) =>
    case _ => RosterWritesKeepMembers(db, w);
  }

  lemma PendingFillsOwnClass(db: Db, c: Call, e: Event)
    requires e.Turn? && Fits(db, c) && PendingWrite(c, e).Some?
    ensures var w := PendingWrite(c, e).value;
            && (w.InsertMember? ==> AsksForMembers(c.req, w.member.row.classId))
            && (w.InsertMembers? ==> forall n | n in w.batch :: AsksForMembers(c.req, n.row.classId))
  {
  }

  lemma StepFillsRoster(s: State, e: Event, classId: Id)
    requires Consistent(s.db) && AllFit(s) && Possible(s, e)
    requires !HasMembers(s.db.members, classId) && HasMembers(Step(s, e).db.members, classId)
    ensures e.Turn? && e.call < |s.calls| && AsksForMembers(s.calls[e.call].req, classId)
  {
    var c := s.calls[e.call];
    WriteFillsRoster(s.db, PendingWrite(c, e).value, classId);
    PendingFillsOwnClass(s.db, c, e);
  }

  lemma RosterFalls(states: seq<State>, from: nat, classId: Id) returns (t: nat)
    requires from < |states|
    requires !HasMembers(states[from].db.members, classId) && HasMembers(states[|states| - 1].db.members, classId)
    ensures from <= t < |states| - 1 && !HasMembers(states[t].db.members, classId)
    ensures HasMembers(states[t + 1].db.members, classId)
  {
    t := Falls(seq(|states|, i requires 0 <= i < |states| => !HasMembers(states[i].db.members, classId)),
               from, |states| - 1);
  }

  /** A class deletion that began while the class had no members and finds some at its write was overtaken by another
      call that added members to that class. */
  lemma RosterFilledByAnother(s: State, es: seq<Event>, from: nat, k: nat, classId: Id) returns (t: nat)
    requires Beginning(s) && Schedule(s, es) && from <= |es| && k < |s.calls| && s.calls[k].req == RemoveClass(classId)
    requires !HasMembers(Run(s, es[..from]).db.members, classId) && HasMembers(Run(s, es).db.members, classId)
    ensures from <= t < |es| && es[t].Turn? && es[t].call < |s.calls| && es[t].call != k
    ensures AsksForMembers(s.calls[es[t].call].req, classId)
  {
    t := RosterFalls(Instants(s, es), from, classId);
    StepBetween(s, es, t);
    PrefixSound(s, es, t);
    StepFillsRoster(Run(s, es[..t]), es[t], classId);
    RunKeepsCalls(s, es[..t]);
  }

  // ---- The mapping taken meanwhile ----

  /** The request asks for the mapping, or the whole class, to go. */
  predicate AsksToRemove(req: Request, m: Mapping) {
    match req
    case Unassign(c, u) => m == Mapping(u, c)
    case RemoveClass(c) => m.classId == c
    case _ => false
  }

  lemma WritingFalls(states: seq<State>, from: nat, k: nat) returns (t: nat)
    requires from < |states| && forall i | 0 <= i < |states| :: k < |states[i].calls|
    requires states[from].calls[k].phase != Writing && states[|states| - 1].calls[k].phase == Writing
    ensures from <= t < |states| - 1 && states[t].calls[k].phase != Writing && states[t + 1].calls[k].phase == Writing
  {
    t := Falls(seq(|states|, i requires 0 <= i < |states| => states[i].calls[k].phase != Writing), from, |states| - 1);
  }

  lemma CheckSeesMapping(db: Db, c: Call, e: Event)
    requires e.Turn? && c.req.Unassign? && c.phase != Writing && TurnOf(db, c, e).1.phase == Writing
    ensures c.phase == CheckMapping && Mapping(c.req.userId, c.req.classId) in db.servants && TurnOf(db, c, e).0 == db
  {
  }

  /** An unassign that is about to delete has seen the row, since it began. */
  lemma SawMapping(s: State, es: seq<Event>, from: nat, k: nat, m: Mapping) returns (t: nat)
    requires from <= |es| && k < |s.calls| && s.calls[k].req.Unassign?
    requires m == Mapping(s.calls[k].req.userId, s.calls[k].req.classId)
    requires Run(s, es[..from]).calls[k].phase == Start && Run(s, es).calls[k].phase == Writing
    ensures from <= t < |es| && TurnAt(s, es, t, k, CheckMapping)
    ensures m in Run(s, es[..t + 1]).db.servants
  {
    t := WritingFalls(Instants(s, es), from, k);
    var before := Run(s, es[..t]);
    StepBetween(s, es, t);
    StepKeepsCalls(before, es[t]);
    RunKeepsCalls(s, es[..t]);
    CheckSeesMapping(before.db, before.calls[k], es[t]);
  }

  lemma RemoverAsks(db: Db, c: Call, e: Event, m: Mapping)
    requires e.Turn? && OpOf(db, c, e).Some? && Removes(OpOf(db, c, e).value, m)
    ensures AsksToRemove(c.req, m)
  {
  }

  lemma TakerAsks(s: State, es: seq<Event>, t: nat, m: Mapping)
    requires Takes(s, es, t, m)
    ensures es[t].Turn? && es[t].call < |s.calls| && AsksToRemove(s.calls[es[t].call].req, m)
    ensures Run(s, es[..t + 1]).calls[es[t].call].phase.Finished?
  {
    var c := Run(s, es[..t]).calls[es[t].call];
    RemoverAsks(Run(s, es[..t]).db, c, es[t], m);
    RunKeepsCalls(s, es[..t]);
    StepBetween(s, es, t);
    OperationUnderWay(Run(s, es[..t]).db, c, es[t]);
  }

  /** An unassign that is about to delete and finds the row gone lost it to another call, an unassign of the same
      mapping or a deletion of its class. */
  lemma MappingTakenByAnother(s: State, es: seq<Event>, from: nat, k: nat, m: Mapping) returns (t: nat)
    requires from <= |es| && k < |s.calls| && s.calls[k].req.Unassign?
    requires m == Mapping(s.calls[k].req.userId, s.calls[k].req.classId) && m !in Run(s, es).db.servants
    requires Run(s, es[..from]).calls[k].phase == Start && Run(s, es).calls[k].phase == Writing
    ensures from <= t < |es| && es[t].Turn? && es[t].call < |s.calls| && es[t].call != k
    ensures AsksToRemove(s.calls[es[t].call].req, m)
  {
    var seen := SawMapping(s, es, from, k, m);
    t := LostRowWasTaken(s, es, seen + 1, m);
    TakerAsks(s, es, t, m);
    FinishedIsAnother(s, es, t, k);
  }

  // ---- One rival for every error ----

  /** The request of a call that can make another fail with the error although it would have succeeded alone. */
  predicate IsRival(req: Request, e: StoreError, other: Request) {
    match req
    case Assign(classId, _) => other == RemoveClass(classId)
    case Unassign(classId, userId) => AsksToRemove(other, Mapping(userId, classId))
    case ChangeClass(classId, patch) =>
      if e == P2025 then other == RemoveClass(classId)
      else patch.leaderId.Some? && AsksToLead(other, patch.leaderId.value)
    case RemoveClass(classId) =>
      if e == P2025 then other == RemoveClass(classId) else AsksForMembers(other, classId)
    case CreateClass(_, _, leaderId) => AsksToLead(other, leaderId)
    case AddOne(classId, raw) =>
      if e == P2002(MemberUserId) then raw.userId.Some? && AsksToJoin(other, raw.userId.value)
      else other == RemoveClass(classId)
    case AddBulk(classId, _) => other == RemoveClass(classId)
    case _ => false
  }

  /** Step t, at or after step `from`, belongs to a call that is a rival of call k for the error. */
  ghost predicate RivalAt(s: State, es: seq<Event>, from: nat, t: int, k: nat, error: StoreError)
    requires k < |s.calls|
  {
    && from <= t < |es| && es[t].Turn? && es[t].call < |s.calls| && es[t].call != k
    && IsRival(s.calls[k].req, error, s.calls[es[t].call].req)
  }

  /** A call at its write, after a run in which it took its first step at `from`. */
  ghost predicate AboutToWrite(s: State, es: seq<Event>, from: nat, e: Event) {
    && Beginning(s) && UsersKnown(s.db) && Schedule(s, es)
    && e.Turn? && e.call < |s.calls| && TurnAt(s, es, from, e.call, Start)
    && !Run(s, es).calls[e.call].phase.Finished?
    && PendingWrite(Run(s, es).calls[e.call], e).Some? && Possible(Run(s, es), e)
  }

  lemma MissingClassHasRival(s: State, es: seq<Event>, from: nat, e: Event, error: StoreError) returns (t: nat)
    requires AboutToWrite(s, es, from, e) && CheckedClass(s.calls[e.call].req).Some?
    requires CheckedClass(s.calls[e.call].req).value !in Run(s, es).db.classes
    requires IsRival(s.calls[e.call].req, error, RemoveClass(CheckedClass(s.calls[e.call].req).value))
    ensures RivalAt(s, es, from, t, e.call, error)
  {
    t := MissingClassWasDeleted(s, es, from, e.call);
  }

  lemma ClassWasThere(s: State, es: seq<Event>, from: nat, e: Event)
    requires AboutToWrite(s, es, from, e) && CheckedClass(s.calls[e.call].req).Some?
    ensures CheckedClass(s.calls[e.call].req).value in Run(s, es[..from]).db.classes
  {
    NotYetFinished(s, es, from + 1, e.call);
    var began := Run(s, es[..from]);
    RunKeepsCalls(s, es[..from]);
    StepBetween(s, es, from);
    BeganWithClass(began.db, began.calls[e.call]);
  }

  lemma ChangeHasRival(s: State, es: seq<Event>, from: nat, e: Event, error: StoreError) returns (t: nat)
    requires AboutToWrite(s, es, from, e) && s.calls[e.call].req.ChangeClass?
    requires WriteFails(Run(s, es).db, s.calls[e.call].req, error)
    requires !Surfaces(Run(s, es[..from]).db, s.calls[e.call].req, error)
    ensures RivalAt(s, es, from, t, e.call, error)
  {
    var classId := s.calls[e.call].req.classId;
    if classId !in Run(s, es).db.classes {
      t := MissingClassHasRival(s, es, from, e, error);
    } else {
      var leaderId := s.calls[e.call].req.patch.leaderId.value;
      ClassWasThere(s, es, from, e);
      LeadersKnownAt(s, es, from, leaderId, classId);
      t := LeaderTakenByAnother(s, es, from, e.call, leaderId, classId);
    }
  }

  lemma LeadersKnownAt(s: State, es: seq<Event>, from: nat, leaderId: Id, exceptFor: Id)
    requires Beginning(s) && UsersKnown(s.db) && from <= |es|
    ensures LeaderTaken(Run(s, es[..from]).db.classes, leaderId, exceptFor) ==> leaderId in Run(s, es[..from]).db.users
  {
    RunKeepsUsers(s, es[..from]);
  }

  lemma RemovalHasRival(s: State, es: seq<Event>, from: nat, e: Event, error: StoreError) returns (t: nat)
    requires AboutToWrite(s, es, from, e) && s.calls[e.call].req.RemoveClass?
    requires WriteFails(Run(s, es).db, s.calls[e.call].req, error)
    requires !Surfaces(Run(s, es[..from]).db, s.calls[e.call].req, error)
    ensures RivalAt(s, es, from, t, e.call, error)
  {
    var classId := s.calls[e.call].req.classId;
    if classId !in Run(s, es).db.classes {
      t := MissingClassHasRival(s, es, from, e, error);
    } else {
      ClassWasThere(s, es, from, e);
      t := RosterFilledByAnother(s, es, from, e.call, classId);
    }
  }

  lemma AddHasRival(s: State, es: seq<Event>, from: nat, e: Event, error: StoreError) returns (t: nat)
    requires AboutToWrite(s, es, from, e) && s.calls[e.call].req.AddOne?
    requires WriteFails(Run(s, es).db, s.calls[e.call].req, error)
    requires !Surfaces(Run(s, es[..from]).db, s.calls[e.call].req, error)
    ensures RivalAt(s, es, from, t, e.call, error)
  {
    var req := s.calls[e.call].req;
    if error == P2002(MemberUserId) {
      ClassWasThere(s, es, from, e);
      RunReadies(s, es, e);
      t := UserTakenByAnother(s, es, from, e.call, req.raw.userId.value);
    } else {
      t := MissingClassHasRival(s, es, from, e, error);
    }
  }

  lemma LeaderWasKnown(s: State, es: seq<Event>, from: nat, e: Event)
    requires AboutToWrite(s, es, from, e) && s.calls[e.call].req.CreateClass?
    ensures s.calls[e.call].req.leaderId in Run(s, es[..from]).db.users
  {
    NotYetFinished(s, es, from + 1, e.call);
    RunKeepsCalls(s, es[..from]);
    StepBetween(s, es, from);
    CreateBegins(Run(s, es[..from]).db, Run(s, es[..from]).calls[e.call]);
  }

  lemma CreateBegins(db: Db, c: Call)
    requires c.req.CreateClass? && !Begin(c, db).phase.Finished?
    ensures c.req.leaderId in db.users
  {
  }

  lemma CreateHasRival(s: State, es: seq<Event>, from: nat, e: Event, error: StoreError) returns (t: nat)
    requires AboutToWrite(s, es, from, e) && s.calls[e.call].req.CreateClass?
    requires WriteFails(Run(s, es).db, s.calls[e.call].req, error)
    requires !Surfaces(Run(s, es[..from]).db, s.calls[e.call].req, error)
    ensures RivalAt(s, es, from, t, e.call, error)
  {
    var leaderId := s.calls[e.call].req.leaderId;
    LeaderWasKnown(s, es, from, e);
    RunReadies(s, es, e);
    assert e.ids[0] !in Run(s, es).db.classes;
    t := LeaderTakenByAnother(s, es, from, e.call, leaderId, e.ids[0]);
  }

  lemma UnassignHasRival(s: State, es: seq<Event>, from: nat, e: Event, error: StoreError) returns (t: nat)
    requires AboutToWrite(s, es, from, e) && s.calls[e.call].req.Unassign?
    requires WriteFails(Run(s, es).db, s.calls[e.call].req, error)
    ensures RivalAt(s, es, from, t, e.call, error)
  {
    var req := s.calls[e.call].req;
    RunReadies(s, es, e);
    t := MappingTakenByAnother(s, es, from, e.call, Mapping(req.userId, req.classId));
  }

  /** Every store error that a call would not have met on the tables it began with has a rival: a step of another
      call, after the first step of this one and before its write, whose request asks for what stands in the way. */
  lemma ExtraErrorHasRival(s: State, es: seq<Event>, from: nat, e: Event, error: StoreError) returns (t: nat)
    requires AboutToWrite(s, es, from, e)
    requires FailsWith(Step(Run(s, es), e).calls[e.call], error)
    requires !Surfaces(Run(s, es[..from]).db, s.calls[e.call].req, error)
    ensures RivalAt(s, es, from, t, e.call, error)
  {
    WriteStepFailsExactly(s, es, e, error);
    match s.calls[e.call].req
    case Unassign(_, _) => t := UnassignHasRival(s, es, from, e, error);
    case CreateClass(_, _, _) => t := CreateHasRival(s, es, from, e, error);
    case ChangeClass(_, _) => t := ChangeHasRival(s, es, from, e, error);
    case RemoveClass(_) => t := RemovalHasRival(s, es, from, e, error);
    case AddOne(_, _) => t := AddHasRival(s, es, from, e, error);
    case _ => t := MissingClassHasRival(s, es, from, e, error);
  }
}
