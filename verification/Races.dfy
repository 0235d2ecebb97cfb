/** Which store errors escape a service call when other calls run in between its check and its write, and what it
    takes (src/modules/classes/services). */
module Races {
  import opened Basics
  import opened Tables
  import opened Entities
  import opened Ordering
  import opened Listing
  import opened Machine
  import opened Access
  import opened Serving
  import opened Outcomes
  import opened Bulk

  // ---- The write step ----

  /** The rows a bulk add creates, told from its request. */
  function CreatedBy(members: map<Id, MemberRow>, raws: seq<RawMember>): nat {
    NullUserInputs(raws) + |NewUserInputs(members, raws)|
  }

  /** Exactly when the write of a call fails, and with what, told from the request and the tables it meets. */
  ghost predicate WriteFails(db: Db, req: Request, e: StoreError) {
    match req
    case Assign(classId, _) => e == P2003(ServantToClass) && classId !in db.classes
    case Unassign(classId, userId) => e == P2025 && Mapping(userId, classId) !in db.servants
    case CreateClass(_, _, leaderId) => e == P2002(LeaderId) && LedBySomeone(db.classes, leaderId)
    case ChangeClass(classId, patch) =>
      if classId !in db.classes then e == P2025
      else e == P2002(LeaderId) && patch.leaderId.Some? && LeaderTaken(db.classes, patch.leaderId.value, classId)
    case RemoveClass(classId) =>
      if classId !in db.classes then e == P2025 else e == P2003(MemberToClass) && HasMembers(db.members, classId)
    case AddOne(classId, raw) =>
      if UserTaken(db.members, raw.userId) then e == P2002(MemberUserId)
      else e == P2003(MemberToClass) && classId !in db.classes
    case AddBulk(classId, raws) =>
      && e == P2003(MemberToClass) && classId !in db.classes
      && CreatedBy(db.members, raws) > 0
    case _ => false
  }

  /** What a run keeps of a call that is about to write: new ids, a named leader, a member that is there. */
  ghost predicate ReadyToWrite(db: Db, c: Call, e: Event) {
    && e.Turn? && Consistent(db) && Fits(db, c)
    && PendingWrite(c, e).Some? && FreshFor(db, PendingWrite(c, e).value)
    && (c.req.ChangeClass? ==> c.req.patch.leaderId != Some(""))
    && (c.req.ChangeMember? || c.req.SetActive? ==> c.req.memberId in db.members)
  }

  ghost predicate FailsWith(c: Call, e: StoreError) {
    c.phase == Finished(Threw(Store(e)))
  }

  lemma ServantTurnFails(db: Db, c: Call, e: Event, error: StoreError)
    requires ReadyToWrite(db, c, e) && (c.req.Assign? || c.req.Unassign?)
    ensures FailsWith(TurnOf(db, c, e).1, error) <==> WriteFails(db, c.req, error)
  {
  }

  lemma CreateTurnFails(db: Db, c: Call, e: Event, error: StoreError)
    requires ReadyToWrite(db, c, e) && c.req.CreateClass?
    ensures FailsWith(TurnOf(db, c, e).1, error) <==> WriteFails(db, c.req, error)
  {
    assert e.ids[0] !in db.classes;
  }

  lemma ClassTurnFails(db: Db, c: Call, e: Event, error: StoreError)
    requires ReadyToWrite(db, c, e) && (c.req.ChangeClass? || c.req.RemoveClass?)
    ensures FailsWith(TurnOf(db, c, e).1, error) <==> WriteFails(db, c.req, error)
  {
  }

  lemma AddTurnFails(db: Db, c: Call, e: Event, error: StoreError)
    requires ReadyToWrite(db, c, e) && c.req.AddOne?
    ensures FailsWith(TurnOf(db, c, e).1, error) <==> WriteFails(db, c.req, error)
  {
  }

  lemma UpdateAnswers(db: Db, id: Id, patch: MemberPatch)
    requires id in db.members
    ensures var (after, reply) := Apply(db, UpdateMember(id, patch)); reply.Done? && id in after.members
  {
  }

  lemma MemberUpdateFails(db: Db, c: Call, e: Event, error: StoreError)
    requires ReadyToWrite(db, c, e) && (c.req.ChangeMember? || c.req.SetActive?)
    ensures !FailsWith(TurnOf(db, c, e).1, error)
  {
    UpdateAnswers(db, c.req.memberId, PendingWrite(c, e).value.memberPatch);
  }

  lemma BulkInsertFails(db: Db, classId: Id, batch: seq<NewMember>)
    requires Consistent(db) && FreshBatch(db.issued, batch) && forall m | m in batch :: m.row.classId == classId
    ensures var failed := classId !in db.classes && InsertAll(db.members, batch).1 > 0;
            Apply(db, InsertMembers(batch)).1 == if failed then Failed(P2003(MemberToClass)) else Done(InsertAll(db.members, batch).1)
  {
    assert FreshBatch(db.members.Keys, batch);
    BulkRows(db.members, batch, classId);
    AddedCount(db.members, batch);
    var added := InsertAll(db.members, batch).0.Keys - db.members.Keys;
    if |added| > 0 {
      var m :| m in added;
    } else {
      assert added == {};
    }
  }

  /** The batch a bulk add is about to insert is its request's, row by row. */
  lemma PendingBatch(db: Db, c: Call, e: Event)
    requires ReadyToWrite(db, c, e) && c.req.AddBulk?
    ensures PendingWrite(c, e).value.InsertMembers?
    ensures var batch := PendingWrite(c, e).value.batch;
            && FreshBatch(db.issued, batch) && |batch| == |c.req.raws|
            && (forall m | m in batch :: m.row.classId == c.req.classId)
            && forall i | 0 <= i < |batch| :: batch[i].row.userId == c.req.raws[i].userId
  {
    var batch := PendingWrite(c, e).value.batch;
    RowsForAll(c.req.classId, c.req.raws);
    forall i | 0 <= i < |batch| ensures batch[i].row.userId == c.req.raws[i].userId {
      assert RowFor(c.req.classId, c.req.raws[i]) == Ok(c.phase.rows[i]);
    }
  }

  lemma ReplyDecides(db: Db, c: Call, e: Event, error: StoreError)
    requires e.Turn? && !c.phase.Inserting? && PendingWrite(c, e).Some? && PendingWrite(c, e).value.InsertMembers?
    ensures FailsWith(TurnOf(db, c, e).1, error) <==> Apply(db, PendingWrite(c, e).value).1 == Failed(error)
  {
  }

  lemma BulkFailsOn(db: Db, classId: Id, batch: seq<NewMember>, n: nat, error: StoreError)
    requires Consistent(db) && FreshBatch(db.issued, batch) && InsertAll(db.members, batch).1 == n
    requires forall m | m in batch :: m.row.classId == classId
    ensures Apply(db, InsertMembers(batch)).1 == Failed(error)
       <==> error == P2003(MemberToClass) && classId !in db.classes && n > 0
  {
    BulkInsertFails(db, classId, batch);
  }

  lemma PendingCounted(db: Db, c: Call, e: Event)
    requires ReadyToWrite(db, c, e) && c.req.AddBulk?
    ensures PendingWrite(c, e).value.InsertMembers?
    ensures InsertAll(db.members, PendingWrite(c, e).value.batch).1 == CreatedBy(db.members, c.req.raws)
  {
    PendingBatch(db, c, e);
    BatchCounted(db, c.req.raws, PendingWrite(c, e).value.batch);
  }

  lemma BulkTurnFails(db: Db, c: Call, e: Event, error: StoreError)
    requires ReadyToWrite(db, c, e) && c.req.AddBulk?
    ensures FailsWith(TurnOf(db, c, e).1, error) <==> WriteFails(db, c.req, error)
  {
    PendingBatch(db, c, e);
    PendingCounted(db, c, e);
    BulkFailsOn(db, c.req.classId, PendingWrite(c, e).value.batch, CreatedBy(db.members, c.req.raws), error);
    ReplyDecides(db, c, e, error);
  }

  lemma TurnFails(db: Db, c: Call, e: Event, error: StoreError)
    requires ReadyToWrite(db, c, e)
    ensures FailsWith(TurnOf(db, c, e).1, error) <==> WriteFails(db, c.req, error)
  {
    match c.req
    case Assign(_, _) => ServantTurnFails(db, c, e, error);
    case Unassign(_, _) => ServantTurnFails(db, c, e, error);
    case CreateClass(_, _, _) => CreateTurnFails(db, c, e, error);
    case ChangeClass(_, _) => ClassTurnFails(db, c, e, error);
    case RemoveClass(_) => ClassTurnFails(db, c, e, error);
    case AddOne(_, _) => AddTurnFails(db, c, e, error);
    case AddBulk(_, _) => BulkTurnFails(db, c, e, error);
    case Enter(_, _) =>
    case _ => MemberUpdateFails(db, c, e, error);
  }

  // ---- Every run ----

  /** Where a run starts: sound tables, calls that have not begun, and bodies that passed their schemas. */
  ghost predicate Beginning(s: State) {
    Consistent(s.db) && NothingBegun(s) && AllLeadersNamed(s)
  }

  lemma RunReadies(s: State, es: seq<Event>, e: Event)
    requires Beginning(s) && Schedule(s, es) && e.Turn? && e.call < |s.calls|
    requires Possible(Run(s, es), e) && PendingWrite(Run(s, es).calls[e.call], e).Some?
    ensures ReadyToWrite(Run(s, es).db, Run(s, es).calls[e.call], e)
    ensures Run(s, es).calls[e.call].req == s.calls[e.call].req
  {
    var req := s.calls[e.call].req;
    RunConsistent(s, es);
    RunKeepsCalls(s, es);
    if req.ChangeMember? || req.SetActive? {
      MemberUpdatesNeverFail(s, es, e.call, req.memberId);
    }
  }

  /** The exact error surface under interference. At the write step of any call in any run, whatever has run since
      its checks, the call fails on the store with the given error if and only if `WriteFails` says so of the tables
      at that instant. */
  lemma WriteStepFailsExactly(s: State, es: seq<Event>, e: Event, error: StoreError)
    requires Beginning(s) && Schedule(s, es) && e.Turn? && e.call < |s.calls|
    requires Possible(Run(s, es), e) && PendingWrite(Run(s, es).calls[e.call], e).Some?
    ensures FailsWith(Step(Run(s, es), e).calls[e.call], error) <==> WriteFails(Run(s, es).db, s.calls[e.call].req, error)
  {
    RunReadies(s, es, e);
    TurnFails(Run(s, es).db, Run(s, es).calls[e.call], e, error);
  }

  lemma {:induction false} ReadAllErrs(members: map<Id, MemberRow>, ids: seq<Id>)
    requires forall i | 0 <= i < |ids| :: ids[i] in members
    ensures ReadAll(members, ids).Err? ==> ReadAll(members, ids).error.BadPhone?
  {
    if ids != [] {
      ReadAllErrs(members, ids[1..]);
    }
  }

  lemma BeginNeverFails(db: Db, c: Call, error: StoreError)
    requires c.phase.Start?
    ensures !FailsWith(Begin(c, db), error)
  {
    if c.req.AddBulk? {
      RowsForAll(c.req.classId, c.req.raws);
    }
  }

  lemma RefetchNeverFails(db: Db, c: Call, pick: nat, error: StoreError)
    requires c.phase.Refetching?
    ensures !FailsWith(AfterRead(c, db, pick), error)
  {
    if c.req.AddBulk? {
      RefetchReads(db, c, pick);
      ReadAllErrs(db.members, Page(SortedMembers(db.members, RosterOf(db.members, c.req.classId)), 1, |c.req.raws|));
    }
  }

  lemma ReadNeverFails(db: Db, c: Call, pick: nat, error: StoreError)
    requires !FailsWith(c, error)
    ensures !FailsWith(AfterRead(c, db, pick), error)
  {
    match c.phase
    case Start => BeginNeverFails(db, c, error);
    case Refetching(_) => RefetchNeverFails(db, c, pick, error);
    case _ =>
  }

  /** Every store error a caller ever sees came from such a write step. */
  lemma StoreErrorsComeFromWrites(s: State, es: seq<Event>, k: nat, error: StoreError) returns (t: nat)
    requires Beginning(s) && Schedule(s, es) && k < |s.calls| && FailsWith(Run(s, es).calls[k], error)
    ensures t < |es| && es[t].Turn? && es[t].call == k
    ensures PendingWrite(Run(s, es[..t]).calls[k], es[t]).Some?
    ensures WriteFails(Run(s, es[..t]).db, s.calls[k].req, error)
  {
    t := FinishingStep(s, es, k);
    var before := Run(s, es[..t]);
    SchedulePrefix(s, es, t);
    SchedulePrefix(s, es, t + 1);
    assert es[..t + 1][..t] == es[..t];
    if PendingWrite(before.calls[k], es[t]).None? {
      ReadNeverFails(before.db, before.calls[k], es[t].pick, error);
    }
    WriteStepFailsExactly(s, es[..t], es[t], error);
  }

  // ---- What the errors beyond the sequential ones take ----

  /** Step e, taken by anyone but call k, changes the tables. */
  ghost predicate Disturbing(s: State, e: Event, k: nat) {
    !(e.Turn? && e.call == k) && Step(s, e).db != s.db
  }

  /** From step `from` on, no step but those of call k changes the tables. */
  ghost predicate Undisturbed(s: State, es: seq<Event>, from: nat, k: nat) {
    |es| <= from
    || (Undisturbed(s, es[..|es| - 1], from, k) && !Disturbing(Run(s, es[..|es| - 1]), es[|es| - 1], k))
  }

  /** What the checks of an unfinished call have seen is still so, and its tables are those it began with, but for
      the rows it has put in. */
  ghost predicate Unsurprised(start: Db, db: Db, c: Call) {
    match c.phase
    case Start => db == start
    case Finished(_) => true
    case Refetching(_) => true
    case Inserting(_, _) => c.req.Assign? && c.req.classId in db.classes
    case _ => db == start && ChecksHold(db, c)
  }

  ghost predicate ChecksHold(db: Db, c: Call) {
    match c.req
    case Assign(classId, _) => classId in db.classes
    case Unassign(classId, userId) => c.phase.Writing? ==> Mapping(userId, classId) in db.servants
    case CreateClass(_, _, leaderId) => leaderId in db.users
    case ChangeClass(classId, patch) =>
      classId in db.classes && (c.phase.Writing? && patch.leaderId.Some? && patch.leaderId.value != "" ==> patch.leaderId.value in db.users)
    case RemoveClass(classId) => classId in db.classes
    case AddOne(classId, raw) => classId in db.classes && RowFor(classId, raw).Ok?
    case AddBulk(classId, _) => classId in db.classes
    case _ => true
  }

  lemma UnsurprisedBegin(db: Db, c: Call)
    requires c.phase.Start?
    ensures Unsurprised(db, db, Begin(c, db))
  {
  }

  lemma UnsurprisedRead(start: Db, db: Db, c: Call, e: Event)
    requires e.Turn? && Fits(db, c) && Unsurprised(start, db, c) && PendingWrite(c, e).None?
    ensures Unsurprised(start, TurnOf(db, c, e).0, TurnOf(db, c, e).1)
  {
    if c.phase.Start? {
      UnsurprisedBegin(db, c);
    }
  }

  lemma UnsurprisedInsert(start: Db, db: Db, c: Call, e: Event)
    requires e.Turn? && Fits(db, c) && Unsurprised(start, db, c) && c.phase.Inserting? && PendingWrite(c, e).Some?
    ensures Unsurprised(start, TurnOf(db, c, e).0, TurnOf(db, c, e).1)
  {
  }

  /** Any other write ends the call, or leaves only a read to do. */
  lemma UnsurprisedWrite(start: Db, db: Db, c: Call, e: Event)
    requires e.Turn? && !c.phase.Inserting? && PendingWrite(c, e).Some?
    ensures Unsurprised(start, TurnOf(db, c, e).0, TurnOf(db, c, e).1)
  {
    UpdatedRowExists(db, PendingWrite(c, e).value);
  }

  lemma UnsurprisedStep(start: Db, s: State, e: Event, k: nat)
    requires AllFit(s) && k < |s.calls| && Unsurprised(start, s.db, s.calls[k])
    requires (e.Turn? && e.call == k) || Step(s, e).db == s.db
    ensures Unsurprised(start, Step(s, e).db, Step(s, e).calls[k])
  {
    StepKeepsCalls(s, e);
    if e.Turn? && e.call == k {
      if PendingWrite(s.calls[k], e).None? {
        UnsurprisedRead(start, s.db, s.calls[k], e);
      } else if s.calls[k].phase.Inserting? {
        UnsurprisedInsert(start, s.db, s.calls[k], e);
      } else {
        UnsurprisedWrite(start, s.db, s.calls[k], e);
      }
    }
  }

  lemma {:induction false} UndisturbedRun(s: State, es: seq<Event>, from: nat, k: nat)
    requires AllFit(s) && from <= |es| && k < |s.calls| && Undisturbed(s, es, from, k)
    requires Run(s, es[..from]).calls[k].phase == Start
    ensures Unsurprised(Run(s, es[..from]).db, Run(s, es).db, Run(s, es).calls[k])
    decreases |es|
  {
    if from == |es| {
      assert es[..from] == es;
    } else {
      var init, e := es[..|es| - 1], es[|es| - 1];
      assert init[..from] == es[..from];
      UndisturbedRun(s, init, from, k);
      RunFits(s, init);
      UnsurprisedStep(Run(s, es[..from]).db, Run(s, init), e, k);
    }
  }

  lemma UnsurprisedSurfaces(start: Db, db: Db, c: Call, e: Event, error: StoreError)
    requires ReadyToWrite(db, c, e) && Unsurprised(start, db, c) && WriteFails(db, c.req, error)
    ensures Surfaces(start, c.req, error)
  {
  }

  /** Undisturbed, a call fails on the store only as it would have on the tables it began with. */
  lemma UndisturbedErrorsSurface(s: State, es: seq<Event>, from: nat, e: Event, error: StoreError)
    requires Beginning(s) && Schedule(s, es) && e.Turn? && e.call < |s.calls|
    requires Possible(Run(s, es), e) && PendingWrite(Run(s, es).calls[e.call], e).Some?
    requires from <= |es| && Run(s, es[..from]).calls[e.call].phase == Start && Undisturbed(s, es, from, e.call)
    requires FailsWith(Step(Run(s, es), e).calls[e.call], error)
    ensures Surfaces(Run(s, es[..from]).db, s.calls[e.call].req, error)
  {
    WriteStepFailsExactly(s, es, e, error);
    UndisturbedRun(s, es, from, e.call);
    RunReadies(s, es, e);
    UnsurprisedSurfaces(Run(s, es[..from]).db, Run(s, es).db, Run(s, es).calls[e.call], e, error);
  }

  lemma {:induction false} DisturbedSomewhere(s: State, es: seq<Event>, from: nat, k: nat) returns (t: nat)
    requires !Undisturbed(s, es, from, k)
    ensures from <= t < |es| && Disturbing(Run(s, es[..t]), es[t], k)
    decreases |es|
  {
    t := |es| - 1;
    if !Disturbing(Run(s, es[..t]), es[t], k) {
      var init := es[..t];
      t := DisturbedSomewhere(s, init, from, k);
      assert init[..t] == es[..t];
    }
  }

  /** A store error that the call would not meet on the tables it began with takes interference: between its
      beginning and its write, a step not its own has changed the tables. */
  lemma ExtraErrorsNeedInterference(s: State, es: seq<Event>, from: nat, e: Event, error: StoreError) returns (t: nat)
    requires Beginning(s) && Schedule(s, es) && e.Turn? && e.call < |s.calls|
    requires Possible(Run(s, es), e) && PendingWrite(Run(s, es).calls[e.call], e).Some?
    requires from <= |es| && Run(s, es[..from]).calls[e.call].phase == Start
    requires FailsWith(Step(Run(s, es), e).calls[e.call], error)
    requires !Surfaces(Run(s, es[..from]).db, s.calls[e.call].req, error)
    ensures from <= t < |es| && Disturbing(Run(s, es[..t]), es[t], e.call)
  {
    if Undisturbed(s, es, from, e.call) {
      UndisturbedErrorsSurface(s, es, from, e, error);
      assert false;
    }
    t := DisturbedSomewhere(s, es, from, e.call);
  }
}
