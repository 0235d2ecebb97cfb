/** What callers see when service calls do not overlap: which errors escape, and what repeating and undoing a call
    does. */
module Outcomes {
  import opened Basics
  import opened Tables
  import opened Entities
  import opened Ordering
  import opened Listing
  import opened Machine
  import opened Serving

  /** The generator's ids are new and distinct, and the body has passed its request schema. */
  ghost predicate Sensible(db: Db, req: Request, ids: seq<Id>) {
    && |ids| == IdsFor(req)
    && Distinct(ids) && (forall i | 0 <= i < |ids| :: ids[i] !in db.issued)
    && (req.ChangeClass? ==> req.patch.leaderId != Some(""))
  }

  lemma FreshZip(db: Db, ids: seq<Id>, rows: seq<MemberRow>)
    requires |ids| == |rows| && Distinct(ids) && forall i | 0 <= i < |ids| :: ids[i] !in db.issued
    ensures FreshFor(db, InsertMembers(Zip(ids, rows)))
  {
  }

  // ---- Each call keeps the tables ----

  lemma CommitKeeps(db: Db, w: Write)
    requires Consistent(db) && PhonesCanonical(db) && FreshFor(db, w) && StoresCanonicalPhones(w)
    ensures Consistent(Commit(db, w).0) && PhonesCanonical(Commit(db, w).0)
  {
    WriteKeepsConsistent(db, w);
    WriteKeepsPhones(db, w);
  }

  lemma BulkKeeps(db: Db, classId: Id, raws: seq<RawMember>, ids: seq<Id>)
    requires Consistent(db) && PhonesCanonical(db) && Sensible(db, AddBulk(classId, raws), ids)
    requires RowsFor(classId, raws).Ok?
    ensures |RowsFor(classId, raws).value| == |ids|
    ensures var w := InsertMembers(Zip(ids, RowsFor(classId, raws).value));
            FreshFor(db, w) && Consistent(Apply(db, w).0) && PhonesCanonical(Apply(db, w).0)
  {
    RowsForAll(classId, raws);
    RowsCanonical(classId, raws);
    var rows := RowsFor(classId, raws).value;
    FreshZip(db, ids, rows);
    CommitKeeps(db, InsertMembers(Zip(ids, rows)));
  }

  lemma ServeMemberKeeps(db: Db, req: Request, ids: seq<Id>, now: nat)
    requires Consistent(db) && PhonesCanonical(db) && Sensible(db, req, ids)
    requires req.AddOne? || req.AddBulk? || req.ChangeMember? || req.SetActive?
    ensures Consistent(Serve(db, req, ids, now).0) && PhonesCanonical(Serve(db, req, ids, now).0)
  {
    match req
    case AddOne(classId, raw) =>
      if RowFor(classId, raw).Ok? {
        CommitKeeps(db, InsertMember(NewMember(ids[0], RowFor(classId, raw).value)));
      }
    case AddBulk(classId, raws) =>
      if RowsFor(classId, raws).Ok? {
        BulkKeeps(db, classId, raws, ids);
      }
    case ChangeMember(memberId, input) =>
      if PatchFor(input).Ok? {
        CommitKeeps(db, UpdateMember(memberId, PatchFor(input).value));
      }
    case SetActive(memberId, isActive) => CommitKeeps(db, UpdateMember(memberId, MemberPatch(None, None, Some(isActive))));
  }

  lemma ServeKeeps(db: Db, req: Request, ids: seq<Id>, now: nat)
    requires Consistent(db) && PhonesCanonical(db) && Sensible(db, req, ids)
    ensures Consistent(Serve(db, req, ids, now).0) && PhonesCanonical(Serve(db, req, ids, now).0)
  {
    match req
    case Assign(classId, userIds) => AskedMembers(classId, userIds);
    case Unassign(classId, userId) => CommitKeeps(db, DeleteServant(Mapping(userId, classId)));
    case CreateClass(name, level, leaderId) => CommitKeeps(db, InsertClass(ids[0], ClassRow(name, level, leaderId, now)));
    case ChangeClass(classId, patch) => CommitKeeps(db, UpdateClass(classId, patch));
    case RemoveClass(classId) => CommitKeeps(db, DeleteClass(classId));
    case Enter(_, _) =>
    case _ => ServeMemberKeeps(db, req, ids, now);
  }

  // ---- The exact error surface ----

  /** Exactly when a call fails on the store, and with what. Nothing else ever escapes. */
  ghost predicate Surfaces(db: Db, req: Request, e: StoreError) {
    match req
    case CreateClass(_, _, leaderId) =>
      e == P2002(LeaderId) && leaderId in db.users && LedBySomeone(db.classes, leaderId)
    case ChangeClass(classId, patch) =>
      && e == P2002(LeaderId) && classId in db.classes
      && patch.leaderId.Some? && patch.leaderId.value in db.users
      && LeaderTaken(db.classes, patch.leaderId.value, classId)
    case AddOne(classId, raw) =>
      e == P2002(MemberUserId) && classId in db.classes && RowFor(classId, raw).Ok? && UserTaken(db.members, raw.userId)
    case RemoveClass(classId) =>
      e == P2003(MemberToClass) && classId in db.classes && HasMembers(db.members, classId)
    case _ => false
  }

  lemma CreateSurface(db: Db, name: string, level: Level, leaderId: Id, ids: seq<Id>, now: nat, e: StoreError)
    requires Consistent(db) && Sensible(db, CreateClass(name, level, leaderId), ids)
    ensures Serve(db, CreateClass(name, level, leaderId), ids, now).1 == Threw(Store(e))
       <==> Surfaces(db, CreateClass(name, level, leaderId), e)
  {
    assert ids[0] !in db.classes;
  }

  lemma ChangeSurface(db: Db, classId: Id, patch: ClassPatch, now: nat, e: StoreError)
    requires Consistent(db) && Sensible(db, ChangeClass(classId, patch), [])
    ensures Serve(db, ChangeClass(classId, patch), [], now).1 == Threw(Store(e))
       <==> Surfaces(db, ChangeClass(classId, patch), e)
  {
  }

  lemma AddSurface(db: Db, classId: Id, raw: RawMember, ids: seq<Id>, now: nat, e: StoreError)
    requires Consistent(db) && Sensible(db, AddOne(classId, raw), ids)
    ensures Serve(db, AddOne(classId, raw), ids, now).1 == Threw(Store(e)) <==> Surfaces(db, AddOne(classId, raw), e)
  {
  }

  lemma UpdateSurface(db: Db, req: Request, now: nat, e: StoreError)
    requires req.ChangeMember? || req.SetActive?
    ensures Serve(db, req, [], now).1 != Threw(Store(e))
  {
  }

  lemma BulkSurface(db: Db, classId: Id, raws: seq<RawMember>, ids: seq<Id>, now: nat, e: StoreError)
    requires Consistent(db) && PhonesCanonical(db) && Sensible(db, AddBulk(classId, raws), ids)
    ensures Serve(db, AddBulk(classId, raws), ids, now).1 != Threw(Store(e))
  {
    RowsForAll(classId, raws);
    if classId in db.classes && RowsFor(classId, raws).Ok? {
      BulkServes(db, classId, raws, ids, now);
    }
  }

  /** The rows a valid batch would insert. */
  function BatchOf(classId: Id, raws: seq<RawMember>, ids: seq<Id>): (batch: seq<NewMember>)
    requires RowsFor(classId, raws).Ok? && |ids| == |raws|
    ensures |batch| == |raws|
  {
    RowsForAll(classId, raws);
    Zip(ids, RowsFor(classId, raws).value)
  }

  lemma BatchFits(db: Db, classId: Id, raws: seq<RawMember>, ids: seq<Id>)
    requires Sensible(db, AddBulk(classId, raws), ids) && RowsFor(classId, raws).Ok?
    ensures FreshBatch(db.issued, BatchOf(classId, raws, ids))
    ensures forall m | m in BatchOf(classId, raws, ids) :: m.row.classId == classId
    ensures forall i | 0 <= i < |raws| :: BatchOf(classId, raws, ids)[i].row.userId == raws[i].userId
  {
    RowsForAll(classId, raws);
    RowsCanonical(classId, raws);
    FreshZip(db, ids, RowsFor(classId, raws).value);
    forall i | 0 <= i < |raws| ensures BatchOf(classId, raws, ids)[i].row.userId == raws[i].userId {
      assert RowFor(classId, raws[i]) == Ok(RowsFor(classId, raws).value[i]);
    }
  }

  /** Counting what a table has gained. */
  lemma KeysGained(before: map<Id, MemberRow>, after: map<Id, MemberRow>)
    requires before.Keys <= after.Keys
    ensures |after.Keys - before.Keys| == |after| - |before|
  {
    assert after.Keys == before.Keys + (after.Keys - before.Keys);
  }

  lemma RosterSplits(before: map<Id, MemberRow>, after: map<Id, MemberRow>, classId: Id)
    requires forall m | m in before :: m in after && after[m] == before[m]
    requires forall m | m in after && m !in before :: after[m].classId == classId
    ensures RosterOf(after, classId) == RosterOf(before, classId) + (after.Keys - before.Keys)
  {
  }

  lemma RosterGrows(before: map<Id, MemberRow>, after: map<Id, MemberRow>, classId: Id)
    requires before.Keys <= after.Keys
    requires RosterOf(after, classId) == RosterOf(before, classId) + (after.Keys - before.Keys)
    ensures |RosterOf(after, classId)| == |RosterOf(before, classId)| + (|after| - |before|)
  {
    KeysGained(before, after);
    assert RosterOf(before, classId) !! (after.Keys - before.Keys);
  }

  lemma BulkRows(members: map<Id, MemberRow>, batch: seq<NewMember>, classId: Id)
    requires FreshBatch(members.Keys, batch) && forall m | m in batch :: m.row.classId == classId
    ensures var (after, n) := InsertAll(members, batch);
            && (forall m | m in after.Keys - members.Keys :: after[m].classId == classId)
            && |RosterOf(after, classId)| == |RosterOf(members, classId)| + n
  {
    InsertAllRows(members, batch);
    InsertAllSize(members, batch);
    var after := InsertAll(members, batch).0;
    forall m | m in after && m !in members ensures after[m].classId == classId {
      assert NewMember(m, after[m]).row.classId == classId;
    }
    RosterSplits(members, after, classId);
    RosterGrows(members, after, classId);
  }

  lemma BulkApplies(db: Db, batch: seq<NewMember>)
    requires forall m | m in InsertAll(db.members, batch).0.Keys - db.members.Keys ::
               InsertAll(db.members, batch).0[m].classId in db.classes
    ensures var (members, n) := InsertAll(db.members, batch);
            Apply(db, InsertMembers(batch)) == (db.(members := members, issued := db.issued + Ids(batch)), Done(n))
  {
  }

  /** With the class there, a bulk insert into it cannot fail. */
  lemma BulkInserts(db: Db, classId: Id, batch: seq<NewMember>)
    requires Consistent(db) && classId in db.classes && FreshBatch(db.issued, batch)
    requires forall m | m in batch :: m.row.classId == classId
    ensures var (members, n) := InsertAll(db.members, batch);
            && Apply(db, InsertMembers(batch)) == (db.(members := members, issued := db.issued + Ids(batch)), Done(n))
            && |RosterOf(members, classId)| == |RosterOf(db.members, classId)| + n
  {
    assert FreshBatch(db.members.Keys, batch);
    BulkRows(db.members, batch, classId);
    BulkApplies(db, batch);
  }

  lemma ServesAsCommit(db: Db, classId: Id, raws: seq<RawMember>, ids: seq<Id>, now: nat)
    requires classId in db.classes && RowsFor(classId, raws).Ok? && |ids| == |raws|
    ensures |RowsFor(classId, raws).value| == |ids|
    ensures Serve(db, AddBulk(classId, raws), ids, now) == CommitBulk(db, classId, ids, RowsFor(classId, raws).value, |raws|)
  {
    RowsForAll(classId, raws);
  }

  lemma CommitsBatch(db: Db, classId: Id, ids: seq<Id>, rows: seq<MemberRow>, limit: nat, after: Db, n: nat)
    requires |ids| == |rows| && Apply(db, InsertMembers(Zip(ids, rows))) == (after, Done(n))
    requires FirstOfRoster(after.members, classId, limit).Ok?
    ensures CommitBulk(db, classId, ids, rows, limit)
         == (after, BulkAdded(n, FirstOfRoster(after.members, classId, limit).value))
  {
  }

  /** A valid bulk add inserts its batch, then reads the first page of the roster. */
  lemma BulkServes(db: Db, classId: Id, raws: seq<RawMember>, ids: seq<Id>, now: nat)
    requires Consistent(db) && PhonesCanonical(db) && Sensible(db, AddBulk(classId, raws), ids)
    requires classId in db.classes && RowsFor(classId, raws).Ok?
    ensures var batch := BatchOf(classId, raws, ids);
            var (members, n) := InsertAll(db.members, batch);
            var after := db.(members := members, issued := db.issued + Ids(batch));
            && PhonesCanonical(after)
            && FirstOfRoster(members, classId, |raws|).Ok?
            && Serve(db, AddBulk(classId, raws), ids, now)
               == (after, BulkAdded(n, FirstOfRoster(members, classId, |raws|).value))
  {
    var batch := BatchOf(classId, raws, ids);
    var (after, reply) := Apply(db, InsertMembers(batch));
    BatchFits(db, classId, raws, ids);
    BulkInserts(db, classId, batch);
    BulkKeeps(db, classId, raws, ids);
    RosterReadsBack(after, classId, |raws|);
    ServesAsCommit(db, classId, raws, ids, now);
    CommitsBatch(db, classId, ids, RowsFor(classId, raws).value, |raws|, after, InsertAll(db.members, batch).1);
  }

  lemma RosterReadsBack(db: Db, classId: Id, limit: nat)
    requires PhonesCanonical(db)
    ensures FirstOfRoster(db.members, classId, limit).Ok?
    ensures var page := Page(SortedMembers(db.members, RosterOf(db.members, classId)), 1, limit);
            var items := FirstOfRoster(db.members, classId, limit).value;
            |items| == |page| && forall i | 0 <= i < |page| :: FromRow(page[i], db.members[page[i]]) == Ok(items[i])
  {
    var page := Page(SortedMembers(db.members, RosterOf(db.members, classId)), 1, limit);
    ReadAllCanonical(db.members, page);
  }

  /** The exact error surface of one call that overlaps no other: it fails on the store with error e if and only
      if `Surfaces` says so. Every other duplicate, foreign-key or missing-row error is unreachable. */
  lemma StoreErrorsExactly(db: Db, req: Request, ids: seq<Id>, now: nat, e: StoreError)
    requires Consistent(db) && PhonesCanonical(db) && Sensible(db, req, ids)
    ensures Serve(db, req, ids, now).1 == Threw(Store(e)) <==> Surfaces(db, req, e)
  {
    match req
    case Assign(_, _) =>
    case Unassign(_, _) =>
    case CreateClass(name, level, leaderId) => CreateSurface(db, name, level, leaderId, ids, now, e);
    case ChangeClass(classId, patch) => ChangeSurface(db, classId, patch, now, e);
    case RemoveClass(_) =>
    case AddOne(classId, raw) => AddSurface(db, classId, raw, ids, now, e);
    case AddBulk(classId, raws) => BulkSurface(db, classId, raws, ids, now, e);
    case ChangeMember(_, _) => UpdateSurface(db, req, now, e);
    case SetActive(_, _) => UpdateSurface(db, req, now, e);
    case Enter(_, _) =>
  }

  // ---- Runs of calls that do not overlap ----

  datatype Job = Job(req: Request, ids: seq<Id>, now: nat)

  ghost predicate AllSensible(db: Db, jobs: seq<Job>) {
    jobs == []
    || (AllSensible(db, jobs[..|jobs| - 1])
        && Sensible(ServeAll(db, jobs[..|jobs| - 1]), jobs[|jobs| - 1].req, jobs[|jobs| - 1].ids))
  }

  ghost function ServeAll(db: Db, jobs: seq<Job>): Db {
    if jobs == [] then db
    else
      var before, job := ServeAll(db, jobs[..|jobs| - 1]), jobs[|jobs| - 1];
      if |job.ids| == IdsFor(job.req) then Serve(before, job.req, job.ids, job.now).0 else before
  }

  /** In every run of calls one after another the tables stay consistent and readable, and the last call fails on
      the store exactly as its own request and the state it meets say. */
  lemma {:induction false} StoreErrorsOverRuns(db: Db, jobs: seq<Job>, job: Job, e: StoreError)
    requires Consistent(db) && PhonesCanonical(db) && AllSensible(db, jobs + [job])
    ensures var before := ServeAll(db, jobs);
            && Consistent(before) && PhonesCanonical(before)
            && |job.ids| == IdsFor(job.req)
            && (Serve(before, job.req, job.ids, job.now).1 == Threw(Store(e)) <==> Surfaces(before, job.req, e))
  {
    assert (jobs + [job])[..|jobs|] == jobs;
    if jobs != [] {
      var n := |jobs| - 1;
      assert jobs == jobs[..n] + [jobs[n]];
      StoreErrorsOverRuns(db, jobs[..n], jobs[n], e);
      ServeKeeps(ServeAll(db, jobs[..n]), jobs[n].req, jobs[n].ids, jobs[n].now);
    }
    StoreErrorsExactly(ServeAll(db, jobs), job.req, job.ids, job.now, e);
  }

  // ---- Repeating and undoing ----

  /** Without overlap `unassign` always completes on an existing class, and repeating it changes nothing. */
  lemma UnassignIdempotent(db: Db, classId: Id, userId: Id, now: nat)
    requires classId in db.classes
    ensures var (after, outcome) := Serve(db, Unassign(classId, userId), [], now);
            && outcome == Completed
            && after == db.(servants := db.servants - {Mapping(userId, classId)})
            && Serve(after, Unassign(classId, userId), [], now) == (after, Completed)
  {
    assert db.issued + {} == db.issued;
    if Mapping(userId, classId) !in db.servants {
      assert db.servants - {Mapping(userId, classId)} == db.servants;
    }
  }

  lemma AssignAllRepeats(db: Db, classId: Id, userIds: seq<Id>)
    ensures var after := AssignAll(db, classId, userIds).0;
            && AssignAll(after, classId, userIds).0.servants == after.servants
            && AssignAll(after, classId, userIds).1 == Assigned(0, |userIds|)
  {
    var asked := Asked(classId, userIds);
    assert asked - (db.servants + asked) == {};
  }

  /** Repeating an assign assigns nobody new. */
  lemma AssignRepeats(db: Db, after: Db, classId: Id, userIds: seq<Id>)
    requires classId in db.classes && FirstUnknown(db.users, userIds).None?
    requires after == ServeAssign(db, classId, userIds).0
    ensures ServeAssign(after, classId, userIds) == (after, Assigned(0, |userIds|))
  {
    AssignAllRepeats(db, classId, userIds);
  }

  /** Unassigning the one servant an assign has added restores the tables exactly. */
  lemma UnassignUndoesAssign(db: Db, classId: Id, userId: Id, now: nat)
    requires classId in db.classes && userId in db.users && Mapping(userId, classId) !in db.servants
    ensures var (after, outcome) := ServeAssign(db, classId, [userId]);
            outcome == Assigned(1, 0) && Serve(after, Unassign(classId, userId), [], now) == (db, Completed)
  {
    var m := Mapping(userId, classId);
    assert [userId][1..] == [];
    assert FirstUnknown(db.users, [userId][1..]).None?;
    assert Asked(classId, [userId]) == {m};
    assert {m} - db.servants == {m};
    assert CountNew(db.servants, classId, [userId]) == 1;
    var after := db.(servants := db.servants + {m});
    assert ServeAssign(db, classId, [userId]) == (after, Assigned(1, 0));
    UnassignIdempotent(after, classId, userId, now);
    assert after.servants - {m} == db.servants;
  }

  /** Deleting a class that has just been created restores every table. */
  lemma DeleteUndoesCreate(db: Db, name: string, level: Level, leaderId: Id, ids: seq<Id>, now: nat)
    requires Consistent(db) && Sensible(db, CreateClass(name, level, leaderId), ids)
    requires leaderId in db.users && forall c | c in db.classes :: db.classes[c].leaderId != leaderId
    ensures var (created, outcome) := Serve(db, CreateClass(name, level, leaderId), ids, now);
            && outcome == ClassResult(ids[0], ClassRow(name, level, leaderId, now))
            && created.classes == db.classes[ids[0] := outcome.klass]
            && Serve(created, RemoveClass(ids[0]), [], now) == (db.(issued := db.issued + {ids[0]}), Completed)
  {
    var row := ClassRow(name, level, leaderId, now);
    var created := Serve(db, CreateClass(name, level, leaderId), ids, now).0;
    assert ids[0] !in db.classes;
    assert created == db.(classes := db.classes[ids[0] := row], issued := db.issued + {ids[0]});
    assert created.classes - {ids[0]} == db.classes;
    assert MappingsOf(db.servants, ids[0]) == {};
    assert db.servants - {} == db.servants;
    assert created.issued + {} == created.issued;
  }
}
