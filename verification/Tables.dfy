/** The roster tables and the constraints of prisma/schema.prisma, with the atomic writes the repositories
    issue. Each write is one statement: it either takes effect or fails with one store error. */
module Tables {
  import opened Basics
  import opened Phones

  type Id = string

  datatype Level = Primary1 | Primary2 | Primary3 | Primary4 | Primary5 | Primary6 | Secondary | College

  datatype ClassRow = ClassRow(name: string, level: Level, leaderId: Id, createdAt: nat)

  datatype MemberRow = MemberRow(
    classId: Id, userId: Option<Id>, fullName: string, phone: Option<string>, isActive: bool)

  datatype Mapping = Mapping(servantId: Id, classId: Id)

  /** `userKeys` says whether the foreign keys to `users` are in force: the schema declares them, the
      migrations drop them with the first `users` table. `issued` is every row id generated so far. */
  datatype Db = Db(
    userKeys: bool,
    users: set<Id>,
    classes: map<Id, ClassRow>,
    members: map<Id, MemberRow>,
    servants: set<Mapping>,
    issued: set<Id>)

  // ---- Constraints ----

  ghost predicate UniqueLeaders(classes: map<Id, ClassRow>) {
    forall a, b | a in classes && b in classes && classes[a].leaderId == classes[b].leaderId :: a == b
  }

  ghost predicate UniqueMemberUsers(members: map<Id, MemberRow>) {
    forall a, b | a in members && b in members && members[a].userId.Some? && members[a].userId == members[b].userId ::
      a == b
  }

  ghost predicate MembersInClasses(db: Db) {
    forall m | m in db.members :: db.members[m].classId in db.classes
  }

  ghost predicate ServantsInClasses(db: Db) {
    forall s | s in db.servants :: s.classId in db.classes
  }

  /** Primary keys, unique columns and foreign keys between the roster tables. */
  ghost predicate Consistent(db: Db) {
    && UniqueLeaders(db.classes)
    && UniqueMemberUsers(db.members)
    && MembersInClasses(db)
    && ServantsInClasses(db)
    && db.classes.Keys <= db.issued
    && db.members.Keys <= db.issued
  }

  /** Leaders and servants are known users. */
  ghost predicate UsersKnown(db: Db) {
    && (forall c | c in db.classes :: db.classes[c].leaderId in db.users)
    && (forall s | s in db.servants :: s.servantId in db.users)
  }

  /** Every stored phone is null or canonical E.164. */
  ghost predicate PhonesCanonical(db: Db) {
    forall m | m in db.members && db.members[m].phone.Some? :: MatchesE164(db.members[m].phone.value)
  }

  // ---- Writes ----

  datatype ClassPatch = ClassPatch(name: Option<string>, level: Option<Level>, leaderId: Option<Id>)

  datatype MemberPatch = MemberPatch(fullName: Option<string>, phone: Option<Option<string>>, isActive: Option<bool>)

  datatype NewMember = NewMember(id: Id, row: MemberRow)

  datatype Write =
    | InsertServant(mapping: Mapping)
    | DeleteServant(mapping: Mapping)
    | InsertClass(id: Id, klass: ClassRow)
    | UpdateClass(id: Id, classPatch: ClassPatch)
    | DeleteClass(id: Id)
    | InsertMember(member: NewMember)
    | InsertMembers(batch: seq<NewMember>)
    | UpdateMember(id: Id, memberPatch: MemberPatch)

  datatype UniqueKey = ServantPair | LeaderId | MemberUserId

  datatype ForeignKey = ServantToUser | ServantToClass | ClassToLeader | MemberToClass

  /** Prisma's codes: P2002, P2003 and P2025. */
  datatype StoreError = P2002(unique: UniqueKey) | P2003(key: ForeignKey) | P2025

  datatype Reply = Done(count: nat) | Failed(error: StoreError)

  function Or<T>(o: Option<T>, otherwise: T): T {
    if o.Some? then o.value else otherwise
  }

  function PatchClass(row: ClassRow, patch: ClassPatch): ClassRow {
    row.(name := Or(patch.name, row.name), level := Or(patch.level, row.level), leaderId := Or(patch.leaderId, row.leaderId))
  }

  function PatchMember(row: MemberRow, patch: MemberPatch): MemberRow {
    row.(fullName := Or(patch.fullName, row.fullName),
         phone := Or(patch.phone, row.phone),
         isActive := Or(patch.isActive, row.isActive))
  }

  predicate LeaderTaken(classes: map<Id, ClassRow>, leaderId: Id, exceptFor: Id) {
    exists c | c in classes :: c != exceptFor && classes[c].leaderId == leaderId
  }

  predicate LedBySomeone(classes: map<Id, ClassRow>, leaderId: Id) {
    exists c | c in classes :: classes[c].leaderId == leaderId
  }

  predicate HasMembers(members: map<Id, MemberRow>, classId: Id) {
    exists m | m in members :: members[m].classId == classId
  }

  predicate UserTaken(members: map<Id, MemberRow>, userId: Option<Id>) {
    userId.Some? && exists m | m in members :: members[m].userId == userId
  }

  function MappingsOf(servants: set<Mapping>, classId: Id): set<Mapping> {
    set s | s in servants && s.classId == classId
  }

  /** `createMany` with `skipDuplicates`: rows go in one after another, and a row whose user is already a
      member is skipped. The result counts the rows that went in. */
  function InsertAll(members: map<Id, MemberRow>, batch: seq<NewMember>): (map<Id, MemberRow>, nat) {
    if batch == [] then (members, 0)
    else
      var (before, n) := InsertAll(members, batch[..|batch| - 1]);
      var last := batch[|batch| - 1];
      if UserTaken(before, last.row.userId) then (before, n) else (before[last.id := last.row], n + 1)
  }

  function Ids(batch: seq<NewMember>): set<Id> {
    set i | 0 <= i < |batch| :: batch[i].id
  }

  function ApplyServantWrite(db: Db, w: Write): (Db, Reply)
    requires w.InsertServant? || w.DeleteServant?
  {
    match w
    case InsertServant(m) =>
      if m in db.servants then (db, Failed(P2002(ServantPair)))
      else if m.classId !in db.classes then (db, Failed(P2003(ServantToClass)))
      else if db.userKeys && m.servantId !in db.users then (db, Failed(P2003(ServantToUser)))
      else (db.(servants := db.servants + {m}), Done(1))
    case DeleteServant(m) =>
      if m !in db.servants then (db, Failed(P2025)) else (db.(servants := db.servants - {m}), Done(1))
  }

  function ApplyClassWrite(db: Db, w: Write): (Db, Reply)
    requires w.InsertClass? || w.UpdateClass? || w.DeleteClass?
  {
    match w
    case InsertClass(id, row) =>
      if LeaderTaken(db.classes, row.leaderId, id) then (db, Failed(P2002(LeaderId)))
      else if db.userKeys && row.leaderId !in db.users then (db, Failed(P2003(ClassToLeader)))
      else (db.(classes := db.classes[id := row]), Done(1))
    case UpdateClass(id, patch) =>
      if id !in db.classes then (db, Failed(P2025))
      else
        var row := PatchClass(db.classes[id], patch);
        if LeaderTaken(db.classes, row.leaderId, id) then (db, Failed(P2002(LeaderId)))
        else if db.userKeys && row.leaderId != db.classes[id].leaderId && row.leaderId !in db.users
        then (db, Failed(P2003(ClassToLeader)))
        else (db.(classes := db.classes[id := row]), Done(1))
    case DeleteClass(id) =>
      if id !in db.classes then (db, Failed(P2025))
      else if HasMembers(db.members, id) then (db, Failed(P2003(MemberToClass)))
      else (db.(classes := db.classes - {id}, servants := db.servants - MappingsOf(db.servants, id)), Done(1))
  }

  function ApplyMemberWrite(db: Db, w: Write): (Db, Reply)
    requires w.InsertMember? || w.InsertMembers? || w.UpdateMember?
  {
    match w
    case InsertMember(m) =>
      if UserTaken(db.members, m.row.userId) then (db, Failed(P2002(MemberUserId)))
      else if m.row.classId !in db.classes then (db, Failed(P2003(MemberToClass)))
      else (db.(members := db.members[m.id := m.row]), Done(1))
    case InsertMembers(batch) =>
      var (members, n) := InsertAll(db.members, batch);
      if exists m | m in members.Keys - db.members.Keys :: members[m].classId !in db.classes
      then (db, Failed(P2003(MemberToClass)))
      else (db.(members := members), Done(n))
    case UpdateMember(id, patch) =>
      if id !in db.members then (db, Failed(P2025))
      else (db.(members := db.members[id := PatchMember(db.members[id], patch)]), Done(1))
  }

  /** The ids a write has generated for it. */
  function Generated(w: Write): set<Id> {
    match w
    case InsertClass(id, _) => {id}
    case InsertMember(m) => {m.id}
    case InsertMembers(batch) => Ids(batch)
    case _ => {}
  }

  function Apply(db: Db, w: Write): (Db, Reply) {
    var (after, reply) :=
      match w
      case InsertServant(_) => ApplyServantWrite(db, w)
      case DeleteServant(_) => ApplyServantWrite(db, w)
      case InsertClass(_, _) => ApplyClassWrite(db, w)
      case UpdateClass(_, _) => ApplyClassWrite(db, w)
      case DeleteClass(_) => ApplyClassWrite(db, w)
      case InsertMember(_) => ApplyMemberWrite(db, w)
      case InsertMembers(_) => ApplyMemberWrite(db, w)
      case UpdateMember(_, _) => ApplyMemberWrite(db, w);
    (after.(issued := db.issued + Generated(w)), reply)
  }

  /** Generated ids are new, and distinct within a batch. */
  ghost predicate FreshFor(db: Db, w: Write) {
    match w
    case InsertClass(id, _) => id !in db.issued
    case InsertMember(m) => m.id !in db.issued
    case InsertMembers(batch) => FreshBatch(db.issued, batch)
    case _ => true
  }

  // ---- What every write keeps ----

  /** Ids that are new to the table and pairwise different. */
  ghost predicate FreshBatch(used: set<Id>, batch: seq<NewMember>) {
    && (forall m | m in batch :: m.id !in used)
    && forall i, j | 0 <= i < j < |batch| :: batch[i].id != batch[j].id
  }

  lemma FreshInit(used: set<Id>, batch: seq<NewMember>)
    requires FreshBatch(used, batch) && batch != []
    ensures FreshBatch(used, batch[..|batch| - 1])
    ensures forall m | m in batch[..|batch| - 1] :: m in batch && m.id != batch[|batch| - 1].id
  {
  }

  /** A bulk insert leaves the old rows alone and adds only rows of the batch. */
  lemma {:induction false} InsertAllRows(members: map<Id, MemberRow>, batch: seq<NewMember>)
    requires FreshBatch(members.Keys, batch)
    ensures var after := InsertAll(members, batch).0;
            && (forall m | m in members :: m in after && after[m] == members[m])
            && (forall m | m in after && m !in members :: NewMember(m, after[m]) in batch)
  {
    if batch != [] {
      var init := batch[..|batch| - 1];
      var last := batch[|batch| - 1];
      FreshInit(members.Keys, batch);
      InsertAllRows(members, init);
      var before := InsertAll(members, init).0;
      assert last in batch && NewMember(last.id, last.row) == last;
      assert forall m | m in before && m !in members :: NewMember(m, before[m]).id != last.id;
    }
  }

  lemma {:induction false} InsertAllSize(members: map<Id, MemberRow>, batch: seq<NewMember>)
    requires FreshBatch(members.Keys, batch)
    ensures |InsertAll(members, batch).0| == |members| + InsertAll(members, batch).1
  {
    if batch != [] {
      FreshInit(members.Keys, batch);
      InsertAllSize(members, batch[..|batch| - 1]);
      LastIsNew(members, batch);
    }
  }

  lemma {:induction false} InsertAllUnique(members: map<Id, MemberRow>, batch: seq<NewMember>)
    requires UniqueMemberUsers(members) && FreshBatch(members.Keys, batch)
    ensures UniqueMemberUsers(InsertAll(members, batch).0)
  {
    if batch != [] {
      FreshInit(members.Keys, batch);
      InsertAllUnique(members, batch[..|batch| - 1]);
    }
  }

  function NullUsers(batch: seq<NewMember>): nat {
    if batch == [] then 0
    else NullUsers(batch[..|batch| - 1]) + if batch[|batch| - 1].row.userId.None? then 1 else 0
  }

  /** The distinct users of a batch that are not yet members of any class. */
  function NewUsers(members: map<Id, MemberRow>, batch: seq<NewMember>): set<Option<Id>> {
    set m | m in batch && m.row.userId.Some? && !UserTaken(members, m.row.userId) :: m.row.userId
  }

  predicate Mentions(batch: seq<NewMember>, userId: Option<Id>) {
    exists m | m in batch :: m.row.userId == userId
  }

  lemma MentionsLast(batch: seq<NewMember>, userId: Option<Id>)
    requires batch != []
    ensures Mentions(batch, userId)
       <==> Mentions(batch[..|batch| - 1], userId) || batch[|batch| - 1].row.userId == userId
  {
    assert batch == batch[..|batch| - 1] + [batch[|batch| - 1]];
  }

  lemma UserTakenAfter(members: map<Id, MemberRow>, m: NewMember, userId: Option<Id>)
    requires m.id !in members
    ensures UserTaken(members[m.id := m.row], userId)
       <==> UserTaken(members, userId) || (userId.Some? && m.row.userId == userId)
  {
    var after := members[m.id := m.row];
    if UserTaken(members, userId) {
      var k :| k in members && members[k].userId == userId;
      assert k in after && after[k].userId == userId;
    }
    if userId.Some? && m.row.userId == userId {
      assert m.id in after && after[m.id].userId == userId;
    }
  }

  lemma LastIsNew(members: map<Id, MemberRow>, batch: seq<NewMember>)
    requires FreshBatch(members.Keys, batch) && batch != []
    ensures batch[|batch| - 1].id !in InsertAll(members, batch[..|batch| - 1]).0
  {
    var init := batch[..|batch| - 1];
    FreshInit(members.Keys, batch);
    InsertAllRows(members, init);
    var before := InsertAll(members, init).0;
    assert forall m | m in before && m !in members :: NewMember(m, before[m]).id != batch[|batch| - 1].id;
    assert batch[|batch| - 1] in batch;
  }

  lemma {:induction false} InsertAllUsers(members: map<Id, MemberRow>, batch: seq<NewMember>, userId: Option<Id>)
    requires FreshBatch(members.Keys, batch) && userId.Some?
    ensures UserTaken(InsertAll(members, batch).0, userId)
       <==> UserTaken(members, userId) || Mentions(batch, userId)
  {
    if batch != [] {
      var init := batch[..|batch| - 1];
      FreshInit(members.Keys, batch);
      InsertAllUsers(members, init, userId);
      LastIsNew(members, batch);
      UserTakenAfter(InsertAll(members, init).0, batch[|batch| - 1], userId);
      MentionsLast(batch, userId);
    }
  }

  lemma NewUsersLast(members: map<Id, MemberRow>, batch: seq<NewMember>)
    requires batch != []
    ensures var init, last := NewUsers(members, batch[..|batch| - 1]), batch[|batch| - 1].row.userId;
            NewUsers(members, batch) == if last.Some? && !UserTaken(members, last) then init + {last} else init
  {
    assert batch == batch[..|batch| - 1] + [batch[|batch| - 1]];
  }

  lemma NewUsersMember(members: map<Id, MemberRow>, batch: seq<NewMember>, userId: Option<Id>)
    ensures userId in NewUsers(members, batch)
       <==> userId.Some? && Mentions(batch, userId) && !UserTaken(members, userId)
  {
  }

  /** A bulk insert creates one row per null user and one per distinct user not yet a member anywhere. */
  lemma {:induction false} InsertAllCount(members: map<Id, MemberRow>, batch: seq<NewMember>)
    requires FreshBatch(members.Keys, batch)
    ensures InsertAll(members, batch).1 == NullUsers(batch) + |NewUsers(members, batch)|
  {
    if batch != [] {
      var init := batch[..|batch| - 1];
      var last := batch[|batch| - 1];
      FreshInit(members.Keys, batch);
      InsertAllCount(members, init);
      NewUsersLast(members, batch);
      var u := last.row.userId;
      var known := NewUsers(members, init);
      if u.Some? {
        InsertAllUsers(members, init, u);
        NewUsersMember(members, init, u);
        if u in known {
          assert known + {u} == known;
        } else {
          assert |known + {u}| == |known| + 1;
        }
      }
    }
  }

  /** The row at index i has no user, or a user who is no member yet and in no earlier row of the batch. */
  predicate FirstOfItsUser(members: map<Id, MemberRow>, batch: seq<NewMember>, i: nat)
    requires i < |batch|
  {
    var u := batch[i].row.userId;
    u.None? || (!UserTaken(members, u) && forall j | 0 <= j < i :: batch[j].row.userId != u)
  }

  lemma LastGoesIn(members: map<Id, MemberRow>, batch: seq<NewMember>)
    requires FreshBatch(members.Keys, batch) && batch != []
    ensures var n := |batch| - 1;
            UserTaken(InsertAll(members, batch[..n]).0, batch[n].row.userId) <==> !FirstOfItsUser(members, batch, n)
  {
    var n := |batch| - 1;
    FreshInit(members.Keys, batch);
    if batch[n].row.userId.Some? {
      InsertAllUsers(members, batch[..n], batch[n].row.userId);
      assert forall j | 0 <= j < n :: batch[..n][j] == batch[j];
    }
  }

  /** Of the rows with one user exactly the first goes in, if that user is not a member already, and it goes in as it
      is; rows without a user all go in. */
  lemma {:induction false} FirstGoesIn(members: map<Id, MemberRow>, batch: seq<NewMember>, i: nat)
    requires FreshBatch(members.Keys, batch) && i < |batch|
    ensures var after := InsertAll(members, batch).0;
            && (batch[i].id in after <==> FirstOfItsUser(members, batch, i))
            && (batch[i].id in after ==> after[batch[i].id] == batch[i].row)
  {
    var n := |batch| - 1;
    FreshInit(members.Keys, batch);
    if i < n {
      FirstGoesIn(members, batch[..n], i);
      assert batch[..n][i] == batch[i] && FirstOfItsUser(members, batch[..n], i) == FirstOfItsUser(members, batch, i);
    } else {
      LastIsNew(members, batch);
      LastGoesIn(members, batch);
    }
  }

  lemma ServantInsertKeeps(db: Db, m: Mapping)
    requires Consistent(db)
    ensures Consistent(Apply(db, InsertServant(m)).0)
  {
  }

  lemma ServantDeleteKeeps(db: Db, m: Mapping)
    requires Consistent(db)
    ensures Consistent(Apply(db, DeleteServant(m)).0)
  {
  }

  lemma ClassInsertKeeps(db: Db, id: Id, row: ClassRow)
    requires Consistent(db) && id !in db.issued
    ensures Consistent(Apply(db, InsertClass(id, row)).0)
  {
  }

  lemma ClassUpdateKeeps(db: Db, id: Id, patch: ClassPatch)
    requires Consistent(db)
    ensures Consistent(Apply(db, UpdateClass(id, patch)).0)
  {
  }

  lemma ClassDeleteKeeps(db: Db, id: Id)
    requires Consistent(db)
    ensures Consistent(Apply(db, DeleteClass(id)).0)
  {
    var after := Apply(db, DeleteClass(id)).0;
    forall m | m in after.members ensures after.members[m].classId in after.classes {
    }
  }

  lemma MemberInsertKeeps(db: Db, m: NewMember)
    requires Consistent(db) && m.id !in db.issued
    ensures Consistent(Apply(db, InsertMember(m)).0)
  {
  }

  lemma MemberUpdateKeeps(db: Db, id: Id, patch: MemberPatch)
    requires Consistent(db)
    ensures Consistent(Apply(db, UpdateMember(id, patch)).0)
  {
  }

  /** Every row of the table after a bulk insert is an old one or one of the batch. */
  lemma BulkRowsFrom(db: Db, batch: seq<NewMember>, m: Id)
    requires Consistent(db) && FreshBatch(db.issued, batch)
    requires m in Apply(db, InsertMembers(batch)).0.members && m !in db.members
    ensures m in Ids(batch) && NewMember(m, Apply(db, InsertMembers(batch)).0.members[m]) in batch
    ensures Apply(db, InsertMembers(batch)).0.members[m].classId in db.classes
  {
    InsertAllRows(db.members, batch);
    var row := Apply(db, InsertMembers(batch)).0.members[m];
    var i :| 0 <= i < |batch| && batch[i] == NewMember(m, row);
    assert batch[i].id in Ids(batch);
  }

  lemma BulkWriteKeeps(db: Db, batch: seq<NewMember>)
    requires Consistent(db) && FreshBatch(db.issued, batch)
    ensures Consistent(Apply(db, InsertMembers(batch)).0)
  {
    assert FreshBatch(db.members.Keys, batch);
    InsertAllRows(db.members, batch);
    InsertAllUnique(db.members, batch);
    var after := Apply(db, InsertMembers(batch)).0;
    forall m | m in after.members ensures m in after.issued && after.members[m].classId in after.classes {
      if m !in db.members {
        BulkRowsFrom(db, batch, m);
      }
    }
  }

  /** Every write keeps every key, unique column and foreign key of the schema, whether it succeeds or fails. */
  lemma WriteKeepsConsistent(db: Db, w: Write)
    requires Consistent(db) && FreshFor(db, w)
    ensures Consistent(Apply(db, w).0)
  {
    match w
    case InsertServant(m) => ServantInsertKeeps(db, m);
    case DeleteServant(m) => ServantDeleteKeeps(db, m);
    case InsertClass(id, row) => ClassInsertKeeps(db, id, row);
    case UpdateClass(id, patch) => ClassUpdateKeeps(db, id, patch);
    case DeleteClass(id) => ClassDeleteKeeps(db, id);
    case InsertMember(m) => MemberInsertKeeps(db, m);
    case InsertMembers(batch) => BulkWriteKeeps(db, batch);
    case UpdateMember(id, patch) => MemberUpdateKeeps(db, id, patch);
  }

  /** The users a write refers to are known. */
  ghost predicate RefersToUsers(db: Db, w: Write) {
    match w
    case InsertServant(m) => m.servantId in db.users
    case InsertClass(_, row) => row.leaderId in db.users
    case UpdateClass(_, patch) => patch.leaderId.Some? ==> patch.leaderId.value in db.users
    case _ => true
  }

  lemma WriteKeepsUsersKnown(db: Db, w: Write)
    requires UsersKnown(db) && RefersToUsers(db, w)
    ensures UsersKnown(Apply(db, w).0)
  {
  }

  /** The phones a write stores are canonical. */
  ghost predicate StoresCanonicalPhones(w: Write) {
    match w
    case InsertMember(m) => m.row.phone.Some? ==> MatchesE164(m.row.phone.value)
    case InsertMembers(batch) =>
      forall m | m in batch && m.row.phone.Some? :: MatchesE164(m.row.phone.value)
    case UpdateMember(_, patch) =>
      patch.phone.Some? && patch.phone.value.Some? ==> MatchesE164(patch.phone.value.value)
    case _ => true
  }

  lemma BulkKeepsPhones(db: Db, batch: seq<NewMember>)
    requires Consistent(db) && FreshBatch(db.issued, batch)
    requires PhonesCanonical(db) && StoresCanonicalPhones(InsertMembers(batch))
    ensures PhonesCanonical(Apply(db, InsertMembers(batch)).0)
  {
    var after := Apply(db, InsertMembers(batch)).0;
    assert FreshBatch(db.members.Keys, batch);
    InsertAllRows(db.members, batch);
    forall m | m in after.members && after.members[m].phone.Some? ensures MatchesE164(after.members[m].phone.value) {
      if m !in db.members {
        BulkRowsFrom(db, batch, m);
      }
    }
  }

  lemma WriteKeepsPhones(db: Db, w: Write)
    requires Consistent(db) && FreshFor(db, w)
    requires PhonesCanonical(db) && StoresCanonicalPhones(w)
    ensures PhonesCanonical(Apply(db, w).0)
  {
    if w.InsertMembers? {
      BulkKeepsPhones(db, w.batch);
    }
  }

  // ---- What no write can do ----

  lemma BulkMembersStay(db: Db, batch: seq<NewMember>, m: Id)
    requires Consistent(db) && FreshBatch(db.issued, batch) && m in db.members
    ensures var after := Apply(db, InsertMembers(batch)).0; m in after.members && after.members[m] == db.members[m]
  {
    assert FreshBatch(db.members.Keys, batch);
    InsertAllRows(db.members, batch);
  }

  lemma RosterWritesKeepMembers(db: Db, w: Write)
    requires !w.InsertMember? && !w.InsertMembers? && !w.UpdateMember?
    ensures Apply(db, w).0.members == db.members
  {
  }

  /** No write removes a member row or moves it to another class. */
  lemma MembersStay(db: Db, w: Write, m: Id)
    requires Consistent(db) && FreshFor(db, w) && m in db.members
    ensures m in Apply(db, w).0.members
    ensures Apply(db, w).0.members[m].classId == db.members[m].classId
    ensures Apply(db, w).0.members[m].userId == db.members[m].userId
  {
    match w
    case InsertMember(_) =>
    case InsertMembers(batch) => BulkMembersStay(db, batch, m);
    case UpdateMember(_, _) =>
    case _ => RosterWritesKeepMembers(db, w);
  }

  /** No write brings back a class id that was issued and is gone. */
  lemma GoneClassesStayGone(db: Db, w: Write, c: Id)
    requires Consistent(db) && FreshFor(db, w) && c in db.issued && c !in db.classes
    ensures c in Apply(db, w).0.issued && c !in Apply(db, w).0.classes
  {
  }

  /** Deleting a class does not cascade to its members: it succeeds if and only if the class exists and has
      none, active or not, and then removes exactly the class and its servant mappings. */
  lemma DeleteClassRestricts(db: Db, c: Id)
    ensures var (after, reply) := Apply(db, DeleteClass(c));
            && (reply.Done? <==> c in db.classes && !HasMembers(db.members, c))
            && (reply == Failed(P2003(MemberToClass)) <==> c in db.classes && HasMembers(db.members, c))
            && after.members == db.members
            && (reply.Done? ==> after.classes == db.classes - {c})
            && (reply.Done? ==> forall s :: s in after.servants <==> s in db.servants && s.classId != c)
  {
  }
}
