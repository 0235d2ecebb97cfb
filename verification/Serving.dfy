/** What each service call does when no other call overlaps it: the specification of the service methods, and
    proof that the step machine meets it. */
module Serving {
  import opened Basics
  import opened Tables
  import opened Entities
  import opened Listing
  import opened Machine
  import opened Linearisation
  import opened Access

  // ---- Specifications ----

  /** The mapping rows an assign asks for. */
  function Asked(classId: Id, userIds: seq<Id>): (asked: set<Mapping>)
    ensures |asked| <= |userIds|
  {
    if userIds == [] then {} else {Mapping(userIds[0], classId)} + Asked(classId, userIds[1..])
  }

  lemma {:induction false} AskedMembers(classId: Id, userIds: seq<Id>)
    ensures forall m :: m in Asked(classId, userIds) <==> m.classId == classId && m.servantId in userIds
  {
    if userIds != [] {
      AskedMembers(classId, userIds[1..]);
    }
  }

  /** How many distinct rows an assign asks for that are not there. */
  function CountNew(roster: set<Mapping>, classId: Id, userIds: seq<Id>): (n: nat)
    ensures n <= |userIds|
  {
    var asked := Asked(classId, userIds);
    assert asked == (asked - roster) + (asked * roster);
    |asked - roster|
  }

  /** All or nothing up to the checks; then every asked row is there, and the counts say which were new. */
  function ServeAssign(db: Db, classId: Id, userIds: seq<Id>): (Db, Outcome) {
    if classId !in db.classes then (db, Threw(ClassNotFound(classId)))
    else
      match FirstUnknown(db.users, userIds)
      case Some(id) => (db, Threw(ServantMustBeAUser(id)))
      case None => AssignAll(db, classId, userIds)
  }

  function AssignAll(db: Db, classId: Id, userIds: seq<Id>): (Db, Outcome) {
    var missing := CountNew(db.servants, classId, userIds);
    (db.(servants := db.servants + Asked(classId, userIds)), Assigned(missing, |userIds| - missing))
  }

  /** What a call returns once its write has answered. */
  function Answer(w: Write, after: Db, reply: Reply): Outcome {
    match reply
    case Failed(e) => Threw(Store(e))
    case Done(_) =>
      match w
      case InsertClass(id, row) => ClassResult(id, row)
      case UpdateClass(id, _) => if id in after.classes then ClassResult(id, after.classes[id]) else Completed
      case InsertMember(m) => Read(m.id, m.row)
      case UpdateMember(id, _) => if id in after.members then Read(id, after.members[id]) else Completed
      case _ => Completed
  }

  function Commit(db: Db, w: Write): (Db, Outcome) {
    (Apply(db, w).0, Answer(w, Apply(db, w).0, Apply(db, w).1))
  }

  function Read(id: Id, row: MemberRow): Outcome {
    match FromRow(id, row)
    case Ok(m) => MemberResult(m)
    case Err(e) => Threw(e)
  }

  /** `addBulk` after validation: one bulk insert, then the first page of the roster. */
  ghost function CommitBulk(db: Db, classId: Id, ids: seq<Id>, rows: seq<MemberRow>, limit: nat): (Db, Outcome)
    requires |ids| == |rows|
  {
    var (after, reply) := Apply(db, InsertMembers(Zip(ids, rows)));
    (after, if reply.Failed? then Threw(Store(reply.error)) else Refetch(after, classId, reply.count, limit))
  }

  ghost function Refetch(db: Db, classId: Id, created: nat, limit: nat): Outcome {
    match FirstOfRoster(db.members, classId, limit)
    case Ok(items) => BulkAdded(created, items)
    case Err(e) => Threw(e)
  }

  /** The tenant guard on a store at rest. */
  function TenantDecision(db: Db, user: Option<AuthUser>, header: Option<string>): Outcome {
    if user.None? then Threw(Unauthorized)
    else
      match HeaderClass(header)
      case None => Threw(Forbidden(MissingHeader))
      case Some(classId) =>
        if Bypasses(user.value) then Admitted(classId)
        else if classId !in db.classes then Threw(Forbidden(NoSuchClass))
        else if HasAccess(db, user.value.id, classId) then Admitted(classId)
        else Threw(Forbidden(NoAccess))
  }

  /** How many row ids a request makes the generator issue. */
  function IdsFor(req: Request): nat {
    match req
    case CreateClass(_, _, _) => 1
    case AddOne(_, _) => 1
    case AddBulk(_, raws) => |raws|
    case _ => 0
  }

  ghost function Serve(db: Db, req: Request, ids: seq<Id>, now: nat): (Db, Outcome)
    requires |ids| == IdsFor(req)
  {
    match req
    case Assign(classId, userIds) => ServeAssign(db, classId, userIds)
    case Unassign(classId, userId) =>
      if classId !in db.classes then (db, Threw(ClassNotFound(classId)))
      else if Mapping(userId, classId) !in db.servants then (db, Completed)
      else Commit(db, DeleteServant(Mapping(userId, classId)))
    case CreateClass(name, level, leaderId) =>
      if leaderId !in db.users then (db, Threw(LeaderMustBeAUser(leaderId)))
      else Commit(db, InsertClass(ids[0], ClassRow(name, level, leaderId, now)))
    case ChangeClass(classId, patch) =>
      if classId !in db.classes then (db, Threw(ClassNotFound(classId)))
      else if patch.leaderId.Some? && patch.leaderId.value != "" && patch.leaderId.value !in db.users
      then (db, Threw(LeaderMustBeAUser(patch.leaderId.value)))
      else Commit(db, UpdateClass(classId, patch))
    case RemoveClass(classId) =>
      if classId !in db.classes then (db, Threw(ClassNotFound(classId))) else Commit(db, DeleteClass(classId))
    case AddOne(classId, raw) =>
      if classId !in db.classes then (db, Threw(ClassNotFound(classId)))
      else (match RowFor(classId, raw)
            case Err(e) => (db, Threw(e))
            case Ok(row) => Commit(db, InsertMember(NewMember(ids[0], row))))
    case AddBulk(classId, raws) =>
      if classId !in db.classes then (db, Threw(ClassNotFound(classId)))
      else
        RowsForAll(classId, raws);
        (match RowsFor(classId, raws)
         case Err(e) => (db, Threw(e))
         case Ok(rows) => CommitBulk(db, classId, ids, rows, |raws|))
    case ChangeMember(memberId, input) =>
      if memberId !in db.members then (db, Threw(MemberNotFound(memberId)))
      else (match FromRow(memberId, db.members[memberId])
            case Err(e) => (db, Threw(e))
            case Ok(_) =>
              match PatchFor(input)
              case Err(e) => (db, Threw(e))
              case Ok(patch) => Commit(db, UpdateMember(memberId, patch)))
    case SetActive(memberId, isActive) =>
      if memberId !in db.members then (db, Threw(MemberNotFound(memberId)))
      else (match FromRow(memberId, db.members[memberId])
            case Err(e) => (db, Threw(e))
            case Ok(_) => Commit(db, UpdateMember(memberId, MemberPatch(None, None, Some(isActive)))))
    case Enter(user, header) => (db, TenantDecision(db, user, header))
  }

  // ---- The machine meets the specification ----

  /** What a call still has to do and return, if it goes on alone. */
  ghost function Rest(db: Db, c: Call, ids: seq<Id>, now: nat): (Db, Outcome)
    requires |ids| == IdsFor(c.req)
  {
    match c.phase
    case Start => Serve(db, c.req, ids, now)
    case Finished(o) => (db, o)
    case CheckUsers =>
      if !c.req.Assign? then (db, Completed)
      else
        (match FirstUnknown(db.users, c.req.userIds)
         case Some(id) => (db, Threw(ServantMustBeAUser(id)))
         case None => RestOfInserts(db, c, 0))
    case PreReading(_) => if !c.req.Assign? then (db, Completed) else RestOfInserts(db, c, 0)
    case Inserting(_, i) =>
      if !c.req.Assign? || i > |c.req.userIds| then (db, Completed) else RestOfInserts(db, c, i)
    case CheckMapping =>
      (match c.req
       case Unassign(classId, userId) =>
         if Mapping(userId, classId) in db.servants then Commit(db, DeleteServant(Mapping(userId, classId)))
         else (db, Completed)
       case Enter(user, header) =>
         if user.Some? && HeaderClass(header).Some? && Mapping(user.value.id, HeaderClass(header).value) in db.servants
         then (db, Admitted(HeaderClass(header).value))
         else (db, Threw(Forbidden(NoAccess)))
       case _ => (db, Completed))
    case CheckLeader =>
      if c.req.ChangeClass? && c.req.patch.leaderId.Some? then
        if c.req.patch.leaderId.value in db.users then Commit(db, UpdateClass(c.req.classId, c.req.patch))
        else (db, Threw(LeaderMustBeAUser(c.req.patch.leaderId.value)))
      else (db, Completed)
    case Writing =>
      if PendingWrite(c, Turn(0, 0, ids, now)).Some? then Commit(db, PendingWrite(c, Turn(0, 0, ids, now)).value)
      else (db, Completed)
    case WritingRows(rows) =>
      if c.req.AddOne? && |rows| == 1 then Commit(db, InsertMember(NewMember(ids[0], rows[0])))
      else if c.req.AddBulk? && |rows| == |ids| then CommitBulk(db, c.req.classId, ids, rows, |c.req.raws|)
      else (db, Completed)
    case WritingPatch(patch) =>
      if c.req.ChangeMember? then Commit(db, UpdateMember(c.req.memberId, patch)) else (db, Completed)
    case Refetching(created) =>
      if c.req.AddBulk? then
        (db, Refetch(db, c.req.classId, created, |c.req.raws|))
      else (db, Completed)
  }

  ghost function RestOfInserts(db: Db, c: Call, i: nat): (Db, Outcome)
    requires c.req.Assign? && i <= |c.req.userIds|
  {
    var rest := c.req.userIds[i..];
    var missing := CountNew(db.servants, c.req.classId, rest);
    (db.(servants := db.servants + Asked(c.req.classId, rest)),
     Assigned(c.inserted + missing, c.already + (|rest| - missing)))
  }

  /** A pre-read that found a row is still right, as it is while nobody else runs; the class is still there. */
  ghost predicate Current(db: Db, c: Call) {
    match c.phase
    case CheckUsers => c.req.Assign? && c.req.classId in db.classes && c.inserted == 0 && c.already == 0
    case PreReading(seen) =>
      && c.req.Assign? && c.req.classId in db.classes && c.inserted == 0 && c.already == 0
      && |seen| == |c.req.userIds|
      && forall j | 0 <= j < |seen| && seen[j] == Some(true) :: Mapping(c.req.userIds[j], c.req.classId) in db.servants
    case Inserting(existing, i) =>
      && c.req.Assign? && c.req.classId in db.classes && |existing| == |c.req.userIds|
      && forall j | 0 <= j < |existing| && existing[j] :: Mapping(c.req.userIds[j], c.req.classId) in db.servants
    case CheckMapping =>
      c.req.Enter? ==>
        && c.req.user.Some? && HeaderClass(c.req.header).Some? && !Bypasses(c.req.user.value)
        && HeaderClass(c.req.header).value in db.classes
        && db.classes[HeaderClass(c.req.header).value].leaderId != c.req.user.value.id
    case Start => c.inserted == 0 && c.already == 0
    case _ => true
  }

  lemma AssignStartRest(db: Db, c: Call, e: Event)
    requires e.Turn? && |e.ids| == IdsFor(c.req) && c.phase.Start? && Current(db, c) && c.req.Assign?
    ensures Current(db, Begin(c, db))
    ensures Rest(db, Begin(c, db), e.ids, e.now) == Rest(db, c, e.ids, e.now)
  {
    assert c.req.userIds[0..] == c.req.userIds;
  }

  lemma ClassStartRest(db: Db, c: Call, e: Event)
    requires e.Turn? && |e.ids| == IdsFor(c.req) && c.phase.Start? && Current(db, c)
    requires c.req.Unassign? || c.req.CreateClass? || c.req.ChangeClass? || c.req.RemoveClass?
    ensures Current(db, Begin(c, db))
    ensures Rest(db, Begin(c, db), e.ids, e.now) == Rest(db, c, e.ids, e.now)
  {
  }

  lemma AddStartRest(db: Db, c: Call, e: Event)
    requires e.Turn? && |e.ids| == IdsFor(c.req) && c.phase.Start? && Current(db, c) && c.req.AddOne?
    ensures Current(db, Begin(c, db))
    ensures Rest(db, Begin(c, db), e.ids, e.now) == Rest(db, c, e.ids, e.now)
  {
  }

  lemma ChangeStartRest(db: Db, c: Call, e: Event)
    requires e.Turn? && |e.ids| == IdsFor(c.req) && c.phase.Start? && Current(db, c) && c.req.ChangeMember?
    ensures Current(db, Begin(c, db))
    ensures Rest(db, Begin(c, db), e.ids, e.now) == Rest(db, c, e.ids, e.now)
  {
  }

  lemma ActivateStartRest(db: Db, c: Call, e: Event)
    requires e.Turn? && |e.ids| == IdsFor(c.req) && c.phase.Start? && Current(db, c) && c.req.SetActive?
    ensures Current(db, Begin(c, db))
    ensures Rest(db, Begin(c, db), e.ids, e.now) == Rest(db, c, e.ids, e.now)
  {
  }

  lemma BulkStartRest(db: Db, c: Call, e: Event)
    requires e.Turn? && |e.ids| == IdsFor(c.req) && c.phase.Start? && Current(db, c) && c.req.AddBulk?
    ensures Current(db, Begin(c, db))
    ensures Rest(db, Begin(c, db), e.ids, e.now) == Rest(db, c, e.ids, e.now)
  {
    RowsForAll(c.req.classId, c.req.raws);
  }

  lemma EnterStartRest(db: Db, c: Call, e: Event)
    requires e.Turn? && |e.ids| == IdsFor(c.req) && c.phase.Start? && Current(db, c) && c.req.Enter?
    ensures Current(db, Begin(c, db))
    ensures Rest(db, Begin(c, db), e.ids, e.now) == Rest(db, c, e.ids, e.now)
  {
  }

  lemma StartRest(db: Db, c: Call, e: Event)
    requires e.Turn? && |e.ids| == IdsFor(c.req) && c.phase.Start? && Current(db, c)
    ensures Current(db, Begin(c, db))
    ensures Rest(db, Begin(c, db), e.ids, e.now) == Rest(db, c, e.ids, e.now)
  {
    match c.req
    case Assign(_, _) => AssignStartRest(db, c, e);
    case AddOne(_, _) => AddStartRest(db, c, e);
    case AddBulk(_, _) => BulkStartRest(db, c, e);
    case ChangeMember(_, _) => ChangeStartRest(db, c, e);
    case SetActive(_, _) => ActivateStartRest(db, c, e);
    case Enter(_, _) => EnterStartRest(db, c, e);
    case _ => ClassStartRest(db, c, e);
  }

  lemma ReadCurrent(db: Db, c: Call, pick: nat)
    requires Fits(db, c) && Current(db, c) && !c.phase.Start?
    ensures Current(db, AfterRead(c, db, pick))
  {
  }

  lemma CheckUsersRest(db: Db, c: Call, e: Event)
    requires e.Turn? && e.ids == [] && Current(db, c) && c.phase.CheckUsers?
    ensures Rest(db, AfterRead(c, db, e.pick), e.ids, e.now) == Rest(db, c, e.ids, e.now)
  {
  }

  lemma PreReadingRest(db: Db, c: Call, e: Event)
    requires e.Turn? && e.ids == [] && Current(db, c) && c.phase.PreReading?
    ensures Rest(db, AfterRead(c, db, e.pick), e.ids, e.now) == Rest(db, c, e.ids, e.now)
  {
  }

  lemma LoopReadRest(db: Db, c: Call, e: Event)
    requires e.Turn? && e.ids == [] && Fits(db, c) && Current(db, c) && c.phase.Inserting?
    requires PendingWrite(c, e).None?
    ensures Rest(db, AfterRead(c, db, e.pick), e.ids, e.now) == Rest(db, c, e.ids, e.now)
  {
    var i := c.phase.i;
    if i < |c.phase.existing| {
      RestSkips(db, c, AfterRead(c, db, e.pick), i);
    } else {
      assert c.req.userIds[i..] == [];
      assert db.servants + {} == db.servants;
    }
  }

  lemma AssignReadRest(db: Db, c: Call, e: Event)
    requires e.Turn? && e.ids == [] && c.req.Assign?
    requires Fits(db, c) && Current(db, c) && !c.phase.Start? && PendingWrite(c, e).None?
    ensures Rest(db, AfterRead(c, db, e.pick), e.ids, e.now) == Rest(db, c, e.ids, e.now)
  {
    match c.phase
    case CheckUsers => CheckUsersRest(db, c, e);
    case PreReading(_) => PreReadingRest(db, c, e);
    case Inserting(_, _) => LoopReadRest(db, c, e);
    case _ =>
  }

  lemma GuardReadRest(db: Db, c: Call, e: Event)
    requires e.Turn? && e.ids == [] && c.req.Enter? && Current(db, c) && c.phase.CheckMapping?
    ensures Rest(db, AfterRead(c, db, e.pick), e.ids, e.now) == Rest(db, c, e.ids, e.now)
  {
  }

  lemma RefetchReads(db: Db, c: Call, pick: nat)
    requires c.phase.Refetching? && c.req.AddBulk?
    ensures AfterRead(c, db, pick)
         == c.(phase := Finished(Refetch(db, c.req.classId, c.phase.created, |c.req.raws|)))
  {
  }

  lemma RefetchRest(db: Db, c: Call, e: Event)
    requires e.Turn? && |e.ids| == IdsFor(c.req) && c.phase.Refetching? && Fits(db, c)
    ensures Rest(db, AfterRead(c, db, e.pick), e.ids, e.now) == Rest(db, c, e.ids, e.now)
  {
    RefetchReads(db, c, e.pick);
  }

  lemma CheckRest(db: Db, c: Call, e: Event)
    requires e.Turn? && |e.ids| == IdsFor(c.req) && Fits(db, c)
    requires c.phase.CheckLeader? || (c.phase.CheckMapping? && c.req.Unassign?)
    ensures Rest(db, AfterRead(c, db, e.pick), e.ids, e.now) == Rest(db, c, e.ids, e.now)
  {
  }

  lemma OtherReadRest(db: Db, c: Call, e: Event)
    requires e.Turn? && |e.ids| == IdsFor(c.req) && !c.req.Assign?
    requires Fits(db, c) && Current(db, c) && !c.phase.Start? && PendingWrite(c, e).None?
    ensures Rest(db, AfterRead(c, db, e.pick), e.ids, e.now) == Rest(db, c, e.ids, e.now)
  {
    match c.phase
    case CheckMapping =>
      if c.req.Enter? {
        GuardReadRest(db, c, e);
      } else {
        CheckRest(db, c, e);
      }
    case CheckLeader => CheckRest(db, c, e);
    case Refetching(_) => RefetchRest(db, c, e);
    case _ =>
  }

  lemma FirstAsked(c: Call, i: nat)
    requires c.req.Assign? && i < |c.req.userIds|
    ensures Asked(c.req.classId, c.req.userIds[i..])
         == {Mapping(c.req.userIds[i], c.req.classId)} + Asked(c.req.classId, c.req.userIds[i + 1..])
  {
    assert c.req.userIds[i..][1..] == c.req.userIds[i + 1..];
  }

  lemma AddOneMapping(roster: set<Mapping>, asked: set<Mapping>, m: Mapping)
    ensures m in roster ==> ({m} + asked) - roster == asked - roster && roster + ({m} + asked) == roster + asked
    ensures m !in roster ==> |({m} + asked) - roster| == 1 + |asked - (roster + {m})|
    ensures roster + ({m} + asked) == (roster + {m}) + asked
  {
    if m !in roster {
      assert ({m} + asked) - roster == {m} + (asked - (roster + {m}));
    }
  }

  /** Passing over an element whose row is there changes nothing of what remains to be returned. */
  lemma RestSkips(db: Db, c: Call, next: Call, i: nat)
    requires c.req.Assign? && i < |c.req.userIds| && next.req == c.req
    requires Mapping(c.req.userIds[i], c.req.classId) in db.servants
    requires next.inserted == c.inserted && next.already == c.already + 1
    ensures RestOfInserts(db, next, i + 1) == RestOfInserts(db, c, i)
  {
    FirstAsked(c, i);
    AddOneMapping(db.servants, Asked(c.req.classId, c.req.userIds[i + 1..]), Mapping(c.req.userIds[i], c.req.classId));
  }

  lemma RestAdds(db: Db, c: Call, after: Db, next: Call, i: nat)
    requires c.req.Assign? && i < |c.req.userIds| && next.req == c.req
    requires var m := Mapping(c.req.userIds[i], c.req.classId);
             m !in db.servants && after == db.(servants := db.servants + {m})
    requires next.inserted == c.inserted + 1 && next.already == c.already
    ensures RestOfInserts(after, next, i + 1) == RestOfInserts(db, c, i)
  {
    FirstAsked(c, i);
    AddOneMapping(db.servants, Asked(c.req.classId, c.req.userIds[i + 1..]), Mapping(c.req.userIds[i], c.req.classId));
  }

  lemma InsertTurn(db: Db, c: Call, e: Event)
    requires e.Turn? && Fits(db, c) && Current(db, c) && c.phase.Inserting? && PendingWrite(c, e).Some?
    ensures var m := Mapping(c.req.userIds[c.phase.i], c.req.classId);
            var next := c.(phase := Inserting(c.phase.existing, c.phase.i + 1));
            TurnOf(db, c, e) == if m in db.servants then (db, next.(already := c.already + 1))
                                else (db.(servants := db.servants + {m}), next.(inserted := c.inserted + 1))
  {
    InsertReply(db, Mapping(c.req.userIds[c.phase.i], c.req.classId));
  }

  lemma InsertRest(db: Db, c: Call, e: Event)
    requires e.Turn? && e.ids == []
    requires Fits(db, c) && Current(db, c) && c.phase.Inserting? && PendingWrite(c, e).Some?
    ensures Current(TurnOf(db, c, e).0, TurnOf(db, c, e).1)
    ensures Rest(TurnOf(db, c, e).0, TurnOf(db, c, e).1, e.ids, e.now) == Rest(db, c, e.ids, e.now)
  {
    InsertTurn(db, c, e);
    var i := c.phase.i;
    var (after, next) := TurnOf(db, c, e);
    if Mapping(c.req.userIds[i], c.req.classId) in db.servants {
      RestSkips(db, c, next, i);
    } else {
      RestAdds(db, c, after, next, i);
    }
  }

  /** With the class and the user known, an insert either succeeds or meets a duplicate. */
  lemma InsertReply(db: Db, m: Mapping)
    requires m.classId in db.classes && m.servantId in db.users
    ensures Apply(db, InsertServant(m))
         == if m in db.servants then (db, Failed(P2002(ServantPair))) else (db.(servants := db.servants + {m}), Done(1))
  {
    assert db.issued + {} == db.issued;
  }

  /** One insert of the loop: what remains to be returned stays the same, whether the row goes in or is there. */
  lemma InsertAdvances(db: Db, c: Call, i: nat, after: Db, reply: Reply)
    requires c.req.Assign? && i < |c.req.userIds| && c.req.classId in db.classes && c.req.userIds[i] in db.users
    requires (after, reply) == Apply(db, InsertServant(Mapping(c.req.userIds[i], c.req.classId)))
    ensures after.users == db.users && after.classes == db.classes && db.servants <= after.servants
    ensures reply.Done? || reply == Failed(P2002(ServantPair))
    ensures RestOfInserts(after, if reply.Done? then c.(inserted := c.inserted + 1) else c.(already := c.already + 1), i + 1)
         == RestOfInserts(db, c, i)
  {
    InsertReply(db, Mapping(c.req.userIds[i], c.req.classId));
    if reply.Done? {
      RestAdds(db, c, after, c.(inserted := c.inserted + 1), i);
    } else {
      RestSkips(db, c, c.(already := c.already + 1), i);
    }
  }

  lemma NothingAskedYet(db: Db, c: Call)
    requires c.req.Assign? && c.inserted == 0 && c.already == 0
    ensures RestOfInserts(db, c, 0) == AssignAll(db, c.req.classId, c.req.userIds)
  {
    assert c.req.userIds[0..] == c.req.userIds;
  }

  lemma RestDone(db: Db, c: Call)
    requires c.req.Assign?
    ensures RestOfInserts(db, c, |c.req.userIds|) == (db, Assigned(c.inserted, c.already))
  {
    assert c.req.userIds[|c.req.userIds|..] == [];
    assert db.servants + {} == db.servants;
  }

  /** A call other than `assign` and `addBulk` returns as soon as its write has answered. */
  lemma AnswerReturned(c: Call, w: Write, after: Db, reply: Reply)
    requires !c.phase.Inserting? && !w.InsertMembers?
    requires reply.Done? && w.UpdateClass? ==> w.id in after.classes
    requires reply.Done? && w.UpdateMember? ==> w.id in after.members
    ensures AfterWrite(c, w, after, reply) == c.(phase := Finished(Answer(w, after, reply)))
  {
  }

  lemma UpdatedRowExists(db: Db, w: Write)
    ensures Apply(db, w).1.Done? && w.UpdateClass? ==> w.id in Apply(db, w).0.classes
    ensures Apply(db, w).1.Done? && w.UpdateMember? ==> w.id in Apply(db, w).0.members
  {
  }

  lemma WriteCommits(db: Db, c: Call, e: Event)
    requires e.Turn? && !c.phase.Inserting?
    requires PendingWrite(c, e).Some? && !PendingWrite(c, e).value.InsertMembers?
    ensures TurnOf(db, c, e)
         == (Commit(db, PendingWrite(c, e).value).0, c.(phase := Finished(Commit(db, PendingWrite(c, e).value).1)))
  {
    var w := PendingWrite(c, e).value;
    UpdatedRowExists(db, w);
    AnswerReturned(c, w, Apply(db, w).0, Apply(db, w).1);
  }

  lemma PendingIsRest(db: Db, c: Call, e: Event)
    requires e.Turn? && |e.ids| == IdsFor(c.req) && Fits(db, c) && !c.phase.Inserting?
    requires PendingWrite(c, e).Some? && !PendingWrite(c, e).value.InsertMembers?
    ensures Rest(db, c, e.ids, e.now) == Commit(db, PendingWrite(c, e).value)
  {
  }

  lemma BulkWriteRest(db: Db, c: Call, e: Event)
    requires e.Turn? && |e.ids| == IdsFor(c.req) && Fits(db, c) && !c.phase.Inserting?
    requires PendingWrite(c, e).Some? && PendingWrite(c, e).value.InsertMembers?
    ensures Current(TurnOf(db, c, e).0, TurnOf(db, c, e).1)
    ensures Rest(TurnOf(db, c, e).0, TurnOf(db, c, e).1, e.ids, e.now) == Rest(db, c, e.ids, e.now)
  {
    assert c.phase.WritingRows? && c.req.AddBulk?;
  }

  lemma WriteRest(db: Db, c: Call, e: Event)
    requires e.Turn? && |e.ids| == IdsFor(c.req) && Fits(db, c) && !c.phase.Inserting?
    requires PendingWrite(c, e).Some? && !PendingWrite(c, e).value.InsertMembers?
    ensures Current(TurnOf(db, c, e).0, TurnOf(db, c, e).1)
    ensures Rest(TurnOf(db, c, e).0, TurnOf(db, c, e).1, e.ids, e.now) == Rest(db, c, e.ids, e.now)
  {
    WriteCommits(db, c, e);
    PendingIsRest(db, c, e);
  }

  lemma TurnRest(db: Db, c: Call, e: Event)
    requires e.Turn? && |e.ids| == IdsFor(c.req) && Fits(db, c) && Current(db, c)
    ensures Current(TurnOf(db, c, e).0, TurnOf(db, c, e).1)
    ensures TurnOf(db, c, e).1.req == c.req
    ensures Rest(TurnOf(db, c, e).0, TurnOf(db, c, e).1, e.ids, e.now) == Rest(db, c, e.ids, e.now)
  {
    TurnCounts(db, c, e);
    if PendingWrite(c, e).Some? {
      if c.phase.Inserting? {
        InsertRest(db, c, e);
      } else if PendingWrite(c, e).value.InsertMembers? {
        BulkWriteRest(db, c, e);
      } else {
        WriteRest(db, c, e);
      }
    } else if c.phase.Start? {
      StartRest(db, c, e);
    } else {
      ReadCurrent(db, c, e.pick);
      if c.req.Assign? {
        AssignReadRest(db, c, e);
      } else {
        OtherReadRest(db, c, e);
      }
    }
  }

  lemma TurnFits(db: Db, c: Call, e: Event)
    requires e.Turn? && Fits(db, c)
    ensures Fits(TurnOf(db, c, e).0, TurnOf(db, c, e).1)
  {
    if PendingWrite(c, e).Some? {
      WriteFits(db, c, e);
    } else {
      ReadFits(db, c, e.pick);
    }
  }

  /** Only call k runs, and every turn is offered the same new ids and the same time. */
  ghost predicate Alone(es: seq<Event>, k: nat, ids: seq<Id>, now: nat) {
    forall t | 0 <= t < |es| :: es[t].Turn? && es[t].call == k && es[t].ids == ids && es[t].now == now
  }

  lemma OwnStepRest(s: State, e: Event, k: nat)
    requires k < |s.calls| && e.Turn? && e.call == k && |e.ids| == IdsFor(s.calls[k].req)
    requires Fits(s.db, s.calls[k]) && Current(s.db, s.calls[k])
    ensures var c := Step(s, e).calls[k];
            && c.req == s.calls[k].req
            && Fits(Step(s, e).db, c) && Current(Step(s, e).db, c)
            && Rest(Step(s, e).db, c, e.ids, e.now) == Rest(s.db, s.calls[k], e.ids, e.now)
  {
    TurnFits(s.db, s.calls[k], e);
    TurnRest(s.db, s.calls[k], e);
  }

  lemma {:induction false} AloneRest(s: State, es: seq<Event>, k: nat, ids: seq<Id>, now: nat)
    requires k < |s.calls| && s.calls[k] == NewCall(s.calls[k].req)
    requires |ids| == IdsFor(s.calls[k].req) && Alone(es, k, ids, now)
    ensures var c := Run(s, es).calls[k];
            && c.req == s.calls[k].req
            && Fits(Run(s, es).db, c) && Current(Run(s, es).db, c)
            && Rest(Run(s, es).db, c, ids, now) == Serve(s.db, s.calls[k].req, ids, now)
  {
    if es != [] {
      var n := |es| - 1;
      assert forall t | 0 <= t < n :: es[..n][t] == es[t];
      AloneRest(s, es[..n], k, ids, now);
      OwnStepRest(Run(s, es[..n]), es[n], k);
    }
  }

  /** A call that runs alone, whatever the order of its pre-reads, does exactly what its specification says. */
  lemma SoloCallServes(s: State, es: seq<Event>, k: nat, ids: seq<Id>, now: nat)
    requires k < |s.calls| && s.calls[k] == NewCall(s.calls[k].req)
    requires |ids| == IdsFor(s.calls[k].req) && Alone(es, k, ids, now)
    requires Run(s, es).calls[k].phase.Finished?
    ensures (Run(s, es).db, Run(s, es).calls[k].phase.outcome) == Serve(s.db, s.calls[k].req, ids, now)
  {
    AloneRest(s, es, k, ids, now);
  }
}
