/** The repositories, services and guards as objects over the shared tables, method by method as in
    src/modules/classes and src/common/guards. Each method is proved to do what its specification in Serving
    says when no other call overlaps it. Generated ids and the clock are parameters. */
module Services {
  import opened Basics
  import opened Tables
  import opened Entities
  import opened Ordering
  import opened Listing
  import opened Machine
  import opened Serving
  import opened Outcomes
  import opened Effects
  import opened Bulk
  import Guards

  /** The database connection. */
  class PrismaService {
    var db: Db

    constructor (db: Db)
      ensures this.db == db
    {
      this.db := db;
    }

    method Execute(w: Write) returns (reply: Reply)
      modifies this
      ensures (db, reply) == Apply(old(db), w)
    {
      var (after, answer) := Apply(db, w);
      db := after;
      reply := answer;
    }
  }

  class PrismaUserDirectory {
    const prisma: PrismaService

    constructor (prisma: PrismaService)
      ensures this.prisma == prisma
    {
      this.prisma := prisma;
    }

    method Exists(id: Id) returns (found: bool)
      ensures found <==> id in prisma.db.users
    {
      found := id in prisma.db.users;
    }

    method ExistsMany(ids: seq<Id>) returns (known: set<Id>)
      ensures forall id :: id in known <==> id in ids && id in prisma.db.users
    {
      known := set id | id in ids && id in prisma.db.users;
    }
  }

  class PrismaClassRepository {
    const prisma: PrismaService

    constructor (prisma: PrismaService)
      ensures this.prisma == prisma
    {
      this.prisma := prisma;
    }

    method Exists(id: Id) returns (found: bool)
      ensures found <==> id in prisma.db.classes
    {
      found := id in prisma.db.classes;
    }

    method FindById(id: Id) returns (row: Option<ClassRow>)
      ensures row == if id in prisma.db.classes then Some(prisma.db.classes[id]) else None
    {
      row := if id in prisma.db.classes then Some(prisma.db.classes[id]) else None;
    }

    method List(filter: ClassFilter, page: nat, limit: nat) returns (ids: seq<Id>, total: nat)
      requires page >= 1
      ensures var all := FilteredClasses(prisma.db.classes, filter);
              total == |all| && ids == Page(SortedClasses(prisma.db.classes, all), page, limit)
      ensures ClassListPromise(prisma.db.classes, filter, page, limit, ids, total)
    {
      ClassListKeepsPromise(prisma.db.classes, filter, page, limit);
      var all := FilteredClasses(prisma.db.classes, filter);
      ClassOrderTotal(prisma.db.classes);
      var sorted := Sort(all, ClassOrder(prisma.db.classes));
      ids, total := Page(sorted, page, limit), |all|;
    }

    method Create(id: Id, row: ClassRow) returns (r: Result<ClassRow, StoreError>)
      modifies prisma
      ensures (prisma.db, Settled(r, id)) == Commit(old(prisma.db), InsertClass(id, row))
    {
      var reply := prisma.Execute(InsertClass(id, row));
      r := if reply.Done? then Ok(row) else Err(reply.error);
    }

    method Update(id: Id, patch: ClassPatch) returns (r: Result<ClassRow, StoreError>)
      modifies prisma
      ensures (prisma.db, Settled(r, id)) == Commit(old(prisma.db), UpdateClass(id, patch))
    {
      UpdatedRowExists(prisma.db, UpdateClass(id, patch));
      var reply := prisma.Execute(UpdateClass(id, patch));
      r := if reply.Done? then Ok(prisma.db.classes[id]) else Err(reply.error);
    }

    method Delete(id: Id) returns (reply: Reply)
      modifies prisma
      ensures (prisma.db, reply) == Apply(old(prisma.db), DeleteClass(id))
    {
      reply := prisma.Execute(DeleteClass(id));
    }
  }

  /** A repository answer as the outcome of the call that passes it on. */
  function Settled(r: Result<ClassRow, StoreError>, id: Id): Outcome {
    match r
    case Ok(row) => ClassResult(id, row)
    case Err(e) => Threw(Store(e))
  }

  class PrismaServantClassRepository {
    const prisma: PrismaService

    constructor (prisma: PrismaService)
      ensures this.prisma == prisma
    {
      this.prisma := prisma;
    }

    method IsAssigned(servantId: Id, classId: Id) returns (found: bool)
      ensures found <==> Mapping(servantId, classId) in prisma.db.servants
    {
      found := Mapping(servantId, classId) in prisma.db.servants;
    }

    method Assign(servantId: Id, classId: Id) returns (reply: Reply)
      modifies prisma
      ensures (prisma.db, reply) == Apply(old(prisma.db), InsertServant(Mapping(servantId, classId)))
    {
      reply := prisma.Execute(InsertServant(Mapping(servantId, classId)));
    }

    method Unassign(servantId: Id, classId: Id) returns (reply: Reply)
      modifies prisma
      ensures (prisma.db, reply) == Apply(old(prisma.db), DeleteServant(Mapping(servantId, classId)))
    {
      reply := prisma.Execute(DeleteServant(Mapping(servantId, classId)));
    }

    method ListByClass(classId: Id) returns (ids: set<Id>)
      ensures forall u :: u in ids <==> Mapping(u, classId) in prisma.db.servants
    {
      ids := set s | s in prisma.db.servants && s.classId == classId :: s.servantId;
      forall u | Mapping(u, classId) in prisma.db.servants ensures u in ids {
        assert Mapping(u, classId).servantId == u;
      }
    }
  }

  class PrismaMemberRepository {
    const prisma: PrismaService

    constructor (prisma: PrismaService)
      ensures this.prisma == prisma
    {
      this.prisma := prisma;
    }

    method FindById(id: Id) returns (r: Result<Option<Member>, Error>)
      ensures id !in prisma.db.members ==> r == Ok(None)
      ensures id in prisma.db.members ==>
                r == match FromRow(id, prisma.db.members[id]) case Ok(m) => Ok(Some(m)) case Err(e) => Err(e)
    {
      if id !in prisma.db.members {
        return Ok(None);
      }
      var read := FromRow(id, prisma.db.members[id]);
      r := if read.Ok? then Ok(Some(read.value)) else Err(read.error);
    }

    method Create(id: Id, row: MemberRow) returns (r: Outcome)
      modifies prisma
      ensures (prisma.db, r) == Commit(old(prisma.db), InsertMember(NewMember(id, row)))
    {
      var reply := prisma.Execute(InsertMember(NewMember(id, row)));
      r := if reply.Done? then Read(id, row) else Threw(Store(reply.error));
    }

    method CreateMany(ids: seq<Id>, rows: seq<MemberRow>) returns (reply: Reply)
      requires |ids| == |rows|
      modifies prisma
      ensures (prisma.db, reply) == Apply(old(prisma.db), InsertMembers(Zip(ids, rows)))
    {
      reply := prisma.Execute(InsertMembers(Zip(ids, rows)));
    }

    /** The update object is filled field by field; only present fields reach the row. */
    method Update(id: Id, input: MemberPatch) returns (r: Outcome)
      modifies prisma
      ensures (prisma.db, r) == Commit(old(prisma.db), UpdateMember(id, input))
    {
      var data := MemberPatch(None, None, None);
      if input.fullName.Some? {
        data := data.(fullName := input.fullName);
      }
      if input.phone.Some? {
        data := data.(phone := input.phone);
      }
      if input.isActive.Some? {
        data := data.(isActive := input.isActive);
      }
      UpdatedRowExists(prisma.db, UpdateMember(id, data));
      var reply := prisma.Execute(UpdateMember(id, data));
      r := if reply.Done? then Read(id, prisma.db.members[id]) else Threw(Store(reply.error));
    }

    method SetActive(id: Id, isActive: bool) returns (r: Outcome)
      modifies prisma
      ensures (prisma.db, r) == Commit(old(prisma.db), UpdateMember(id, MemberPatch(None, None, Some(isActive))))
    {
      r := Update(id, MemberPatch(None, None, Some(isActive)));
    }

    method ListByClass(classId: Id, filter: MemberFilter, like: (string, string) -> bool, page: nat, limit: nat)
      returns (r: Result<seq<Member>, Error>, total: nat)
      requires page >= 1
      ensures r == RosterPage(prisma.db.members, classId, filter, like, page, limit)
      ensures total == |Filtered(prisma.db.members, classId, filter, like)|
      ensures r.Ok? ==> MemberListPromise(prisma.db.members, classId, filter, like, page, limit, r.value, total)
      ensures PhonesCanonical(prisma.db) ==> r.Ok?
    {
      ghost var listed := RosterPage(prisma.db.members, classId, filter, like, page, limit);
      assert PhonesCanonical(prisma.db) ==> listed.Ok? by {
        RosterPageReads(prisma.db, classId, filter, like, page, limit);
      }
      if listed.Ok? {
        MemberListKeepsPromise(prisma.db.members, classId, filter, like, page, limit, listed.value);
      }
      var all := Filtered(prisma.db.members, classId, filter, like);
      MemberOrderTotal(prisma.db.members);
      var sorted := Sort(all, MemberOrder(prisma.db.members));
      r, total := ReadAll(prisma.db.members, Page(sorted, page, limit)), |all|;
    }
  }

  class ServantClassService {
    const classes: PrismaClassRepository
    const mapping: PrismaServantClassRepository
    const users: PrismaUserDirectory

    /** All collaborators share one connection. */
    ghost predicate Wired() {
      classes.prisma == mapping.prisma == users.prisma
    }

    constructor (classes: PrismaClassRepository, mapping: PrismaServantClassRepository, users: PrismaUserDirectory)
      ensures this.classes == classes && this.mapping == mapping && this.users == users
    {
      this.classes, this.mapping, this.users := classes, mapping, users;
    }

    /** The first requested id that is no user, as `filter` and index 0 find it. */
    method FindMissing(userIds: seq<Id>) returns (missing: Option<Id>)
      ensures missing == FirstUnknown(users.prisma.db.users, userIds)
      ensures missing.None? <==> forall j | 0 <= j < |userIds| :: userIds[j] in users.prisma.db.users
      ensures missing.Some? ==> exists i | 0 <= i < |userIds| ::
                missing.value == userIds[i] && IsFirstUnknown(users.prisma.db.users, userIds, i)
    {
      var known := users.ExistsMany(userIds);
      var i := 0;
      while i < |userIds|
        invariant 0 <= i <= |userIds|
        invariant FirstUnknown(users.prisma.db.users, userIds) == FirstUnknown(users.prisma.db.users, userIds[i..])
        invariant forall j | 0 <= j < i :: userIds[j] in users.prisma.db.users
      {
        if userIds[i] !in known {
          assert IsFirstUnknown(users.prisma.db.users, userIds, i);
          return Some(userIds[i]);
        }
        i := i + 1;
      }
      missing := None;
    }

    /** The batch of pre-reads. */
    method PreRead(classId: Id, userIds: seq<Id>) returns (existing: seq<bool>)
      ensures |existing| == |userIds|
      ensures forall j | 0 <= j < |userIds| :: existing[j] <==> Mapping(userIds[j], classId) in mapping.prisma.db.servants
    {
      existing := [];
      while |existing| < |userIds|
        invariant |existing| <= |userIds|
        invariant forall j | 0 <= j < |existing| :: existing[j] <==> Mapping(userIds[j], classId) in mapping.prisma.db.servants
      {
        var found := mapping.IsAssigned(userIds[|existing|], classId);
        existing := existing + [found];
      }
    }

    /** The insert loop: pre-read rows are counted, the others inserted, and a duplicate counts as already there. */
    method InsertMissing(classId: Id, userIds: seq<Id>, existing: seq<bool>) returns (r: Outcome)
      requires classId in mapping.prisma.db.classes && forall j | 0 <= j < |userIds| :: userIds[j] in mapping.prisma.db.users
      requires |existing| == |userIds|
      requires forall j | 0 <= j < |userIds| && existing[j] :: Mapping(userIds[j], classId) in mapping.prisma.db.servants
      modifies mapping.prisma
      ensures (mapping.prisma.db, r) == AssignAll(old(mapping.prisma.db), classId, userIds)
    {
      var inserted, already := 0, 0;
      var i := 0;
      ghost var start := mapping.prisma.db;
      ghost var call := Call(Request.Assign(classId, userIds), Start, 0, 0);
      NothingAskedYet(start, call);
      while i < |userIds|
        invariant 0 <= i <= |userIds|
        invariant mapping.prisma.db.users == start.users && mapping.prisma.db.classes == start.classes
        invariant start.servants <= mapping.prisma.db.servants
        invariant RestOfInserts(mapping.prisma.db, call.(inserted := inserted, already := already), i)
               == AssignAll(start, classId, userIds)
      {
        ghost var before, here := mapping.prisma.db, call.(inserted := inserted, already := already);
        if existing[i] {
          already := already + 1;
          RestSkips(before, here, here.(already := already), i);
        } else {
          var reply := mapping.Assign(userIds[i], classId);
          InsertAdvances(before, here, i, mapping.prisma.db, reply);
          match reply
          case Done(_) =>
            inserted := inserted + 1;
          case Failed(P2002(_)) =>
            already := already + 1;
          case Failed(e) =>
            return Threw(Store(e));
        }
        i := i + 1;
      }
      RestDone(mapping.prisma.db, call.(inserted := inserted, already := already));
      r := Assigned(inserted, already);
    }

    method Assign(classId: Id, userIds: seq<Id>) returns (r: Outcome)
      requires Wired()
      modifies mapping.prisma
      ensures (mapping.prisma.db, r) == ServeAssign(old(mapping.prisma.db), classId, userIds)
      ensures AssignPromise(old(mapping.prisma.db), mapping.prisma.db, r, classId, userIds)
    {
      AssignKeepsPromise(mapping.prisma.db, classId, userIds);
      var found := classes.Exists(classId);
      if !found {
        return Threw(ClassNotFound(classId));
      }
      var missing := FindMissing(userIds);
      if missing.Some? {
        return Threw(ServantMustBeAUser(missing.value));
      }
      NoneUnknown(mapping.prisma.db.users, userIds);
      var existing := PreRead(classId, userIds);
      r := InsertMissing(classId, userIds, existing);
    }

    method Unassign(classId: Id, userId: Id) returns (r: Outcome)
      requires Wired()
      modifies mapping.prisma
      ensures (mapping.prisma.db, r) == Serve(old(mapping.prisma.db), Request.Unassign(classId, userId), [], 0)
      ensures UnassignPromise(old(mapping.prisma.db), mapping.prisma.db, r, classId, userId)
    {
      UnassignKeepsPromise(mapping.prisma.db, classId, userId);
      var found := classes.Exists(classId);
      if !found {
        return Threw(ClassNotFound(classId));
      }
      var mapped := mapping.IsAssigned(userId, classId);
      if !mapped {
        return Completed;
      }
      var reply := mapping.Unassign(userId, classId);
      r := match reply case Done(_) => Completed case Failed(e) => Threw(Store(e));
    }

    method List(classId: Id) returns (r: Result<set<Id>, Error>)
      requires Wired()
      ensures classId !in mapping.prisma.db.classes ==> r == Err(ClassNotFound(classId))
      ensures classId in mapping.prisma.db.classes ==>
                r.Ok? && forall u :: u in r.value <==> Mapping(u, classId) in mapping.prisma.db.servants
    {
      var found := classes.Exists(classId);
      if !found {
        return Err(ClassNotFound(classId));
      }
      var ids := mapping.ListByClass(classId);
      r := Ok(ids);
    }
  }

  class ClassService {
    const repo: PrismaClassRepository
    const users: PrismaUserDirectory

    /** All collaborators share one connection. */
    ghost predicate Wired() {
      repo.prisma == users.prisma
    }

    constructor (repo: PrismaClassRepository, users: PrismaUserDirectory)
      ensures this.repo == repo && this.users == users
    {
      this.repo, this.users := repo, users;
    }

    method GetById(id: Id) returns (r: Result<ClassRow, Error>)
      ensures r == if id in repo.prisma.db.classes then Ok(repo.prisma.db.classes[id]) else Err(ClassNotFound(id))
    {
      var row := repo.FindById(id);
      r := if row.Some? then Ok(row.value) else Err(ClassNotFound(id));
    }

    method Create(name: string, level: Level, leaderId: Id, newId: Id, now: nat) returns (r: Outcome)
      requires Wired()
      modifies repo.prisma
      ensures (repo.prisma.db, r) == Serve(old(repo.prisma.db), CreateClass(name, level, leaderId), [newId], now)
      ensures Sane(old(repo.prisma.db)) && newId !in old(repo.prisma.db).issued ==>
                CreatePromise(old(repo.prisma.db), repo.prisma.db, r, newId, ClassRow(name, level, leaderId, now))
    {
      ghost var before, row := repo.prisma.db, ClassRow(name, level, leaderId, now);
      ghost var (after, answer) := Serve(before, CreateClass(name, level, leaderId), [newId], now);
      assert Sane(before) && newId !in before.issued ==> CreatePromise(before, after, answer, newId, row) by {
        if Sane(before) && newId !in before.issued {
          CreateKeepsPromise(before, name, level, leaderId, newId, now);
        }
      }
      var known := users.Exists(leaderId);
      if !known {
        return Threw(LeaderMustBeAUser(leaderId));
      }
      var created := repo.Create(newId, ClassRow(name, level, leaderId, now));
      r := Settled(created, newId);
    }

    method Update(id: Id, patch: ClassPatch) returns (r: Outcome)
      requires Wired()
      modifies repo.prisma
      ensures (repo.prisma.db, r) == Serve(old(repo.prisma.db), ChangeClass(id, patch), [], 0)
      ensures Sane(old(repo.prisma.db)) && patch.leaderId != Some("") ==>
                ChangePromise(old(repo.prisma.db), repo.prisma.db, r, id, patch)
    {
      ghost var before := repo.prisma.db;
      ghost var (after, answer) := Serve(before, ChangeClass(id, patch), [], 0);
      assert Sane(before) && patch.leaderId != Some("") ==> ChangePromise(before, after, answer, id, patch) by {
        if Sane(before) && patch.leaderId != Some("") {
          ChangeKeepsPromise(before, id, patch);
        }
      }
      var row := GetById(id);
      if row.Err? {
        return Threw(row.error);
      }
      if patch.leaderId.Some? && patch.leaderId.value != "" {
        var known := users.Exists(patch.leaderId.value);
        if !known {
          return Threw(LeaderMustBeAUser(patch.leaderId.value));
        }
      }
      var updated := repo.Update(id, patch);
      r := Settled(updated, id);
    }

    method Delete(id: Id) returns (r: Outcome)
      requires Wired()
      modifies repo.prisma
      ensures (repo.prisma.db, r) == Serve(old(repo.prisma.db), RemoveClass(id), [], 0)
      ensures DeletePromise(old(repo.prisma.db), repo.prisma.db, r, id)
    {
      DeleteKeepsPromise(repo.prisma.db, id);
      var row := GetById(id);
      if row.Err? {
        return Threw(row.error);
      }
      var reply := repo.Delete(id);
      r := match reply case Done(_) => Completed case Failed(e) => Threw(Store(e));
    }
  }

  class MemberService {
    const members: PrismaMemberRepository
    const classes: PrismaClassRepository

    /** All collaborators share one connection. */
    ghost predicate Wired() {
      members.prisma == classes.prisma
    }

    constructor (members: PrismaMemberRepository, classes: PrismaClassRepository)
      ensures this.members == members && this.classes == classes
    {
      this.members, this.classes := members, classes;
    }

    method GetById(id: Id) returns (r: Result<Member, Error>)
      ensures id !in members.prisma.db.members ==> r == Err(MemberNotFound(id))
      ensures id in members.prisma.db.members ==> r == FromRow(id, members.prisma.db.members[id])
    {
      var found := members.FindById(id);
      match found
      case Err(e) => r := Err(e);
      case Ok(None) => r := Err(MemberNotFound(id));
      case Ok(Some(m)) => r := Ok(m);
    }

    method AddOne(classId: Id, raw: RawMember, newId: Id) returns (r: Outcome)
      requires Wired()
      modifies members.prisma
      ensures (members.prisma.db, r) == Serve(old(members.prisma.db), Request.AddOne(classId, raw), [newId], 0)
      ensures Sane(old(members.prisma.db)) && newId !in old(members.prisma.db).issued ==>
                AddPromise(old(members.prisma.db), members.prisma.db, r, newId, classId, raw)
    {
      ghost var before := members.prisma.db;
      ghost var (after, answer) := Serve(before, Request.AddOne(classId, raw), [newId], 0);
      assert Sane(before) && newId !in before.issued ==> AddPromise(before, after, answer, newId, classId, raw) by {
        if Sane(before) && newId !in before.issued {
          AddKeepsPromise(before, classId, raw, newId);
        }
      }
      var found := classes.Exists(classId);
      if !found {
        return Threw(ClassNotFound(classId));
      }
      var row := RowFor(classId, raw);
      if row.Err? {
        return Threw(row.error);
      }
      r := members.Create(newId, row.value);
    }

    method AddBulk(classId: Id, raws: seq<RawMember>, newIds: seq<Id>) returns (r: Outcome)
      requires Wired() && |newIds| == |raws|
      modifies members.prisma
      ensures (members.prisma.db, r) == Serve(old(members.prisma.db), Request.AddBulk(classId, raws), newIds, 0)
      ensures Sane(old(members.prisma.db)) && Sensible(old(members.prisma.db), Request.AddBulk(classId, raws), newIds) ==>
                AddBulkPromise(old(members.prisma.db), members.prisma.db, r, newIds, classId, raws)
    {
      ghost var before, req := members.prisma.db, Request.AddBulk(classId, raws);
      ghost var (after, answer) := Serve(before, req, newIds, 0);
      assert Sane(before) && Sensible(before, req, newIds) ==>
          AddBulkPromise(before, after, answer, newIds, classId, raws) by {
        if Sane(before) && Sensible(before, req, newIds) {
          AddBulkKeepsPromise(before, classId, raws, newIds, 0);
        }
      }
      var found := classes.Exists(classId);
      if !found {
        return Threw(ClassNotFound(classId));
      }
      RowsForAll(classId, raws);
      var rows := RowsFor(classId, raws);
      if rows.Err? {
        return Threw(rows.error);
      }
      var reply := members.CreateMany(newIds, rows.value);
      if reply.Failed? {
        return Threw(Store(reply.error));
      }
      r := RefetchRoster(classId, reply.count, |raws|);
    }

    /** The first page of the roster, to answer a bulk add. */
    method RefetchRoster(classId: Id, created: nat, limit: nat) returns (r: Outcome)
      ensures r == Refetch(members.prisma.db, classId, created, limit)
    {
      var all := MemberFilter(None, None);
      assert Filtered(members.prisma.db.members, classId, all, (a, b) => true) == RosterOf(members.prisma.db.members, classId);
      var items, total := members.ListByClass(classId, all, (a, b) => true, 1, limit);
      r := if items.Ok? then BulkAdded(created, items.value) else Threw(items.error);
    }

    method Update(id: Id, input: MemberInput) returns (r: Outcome)
      requires Wired()
      modifies members.prisma
      ensures (members.prisma.db, r) == Serve(old(members.prisma.db), ChangeMember(id, input), [], 0)
      ensures Sane(old(members.prisma.db)) ==>
                ChangeMemberPromise(old(members.prisma.db), members.prisma.db, r, id, input)
    {
      ghost var before := members.prisma.db;
      ghost var (after, answer) := Serve(before, ChangeMember(id, input), [], 0);
      assert Sane(before) ==> ChangeMemberPromise(before, after, answer, id, input) by {
        if Sane(before) {
          ChangeMemberKeepsPromise(before, id, input);
        }
      }
      var current := GetById(id);
      if current.Err? {
        return Threw(current.error);
      }
      var patch := PatchFor(input);
      if patch.Err? {
        return Threw(patch.error);
      }
      r := members.Update(id, patch.value);
    }

    method SetActive(id: Id, isActive: bool) returns (r: Outcome)
      requires Wired()
      modifies members.prisma
      ensures (members.prisma.db, r) == Serve(old(members.prisma.db), Request.SetActive(id, isActive), [], 0)
      ensures Sane(old(members.prisma.db)) ==>
                SetActivePromise(old(members.prisma.db), members.prisma.db, r, id, isActive)
    {
      ghost var before := members.prisma.db;
      ghost var (after, answer) := Serve(before, Request.SetActive(id, isActive), [], 0);
      assert Sane(before) ==> SetActivePromise(before, after, answer, id, isActive) by {
        if Sane(before) {
          SetActiveKeepsPromise(before, id, isActive);
        }
      }
      var current := GetById(id);
      if current.Err? {
        return Threw(current.error);
      }
      r := members.SetActive(id, isActive);
    }

    method List(classId: Id, filter: MemberFilter, like: (string, string) -> bool, page: nat, limit: nat)
      returns (r: Result<seq<Member>, Error>, total: nat)
      requires page >= 1 && Wired()
      ensures classId !in classes.prisma.db.classes ==> r == Err(ClassNotFound(classId))
      ensures classId in classes.prisma.db.classes ==>
                && r == RosterPage(members.prisma.db.members, classId, filter, like, page, limit)
                && total == |Filtered(members.prisma.db.members, classId, filter, like)|
                && (r.Ok? ==> MemberListPromise(members.prisma.db.members, classId, filter, like, page, limit, r.value, total))
                && (PhonesCanonical(members.prisma.db) ==> r.Ok?)
    {
      var found := classes.Exists(classId);
      if !found {
        return Err(ClassNotFound(classId)), 0;
      }
      r, total := members.ListByClass(classId, filter, like, page, limit);
    }
  }

  class HttpRequest {
    const user: Option<AuthUser>
    const classHeader: Option<string>
    var activeClassId: Option<Id>

    constructor (user: Option<AuthUser>, classHeader: Option<string>)
      ensures this.user == user && this.classHeader == classHeader && activeClassId == None
    {
      this.user, this.classHeader, activeClassId := user, classHeader, None;
    }
  }

  class ClassTenantGuard {
    const prisma: PrismaService

    constructor (prisma: PrismaService)
      ensures this.prisma == prisma
    {
      this.prisma := prisma;
    }

    method CanActivate(request: HttpRequest) returns (r: Outcome)
      modifies request
      ensures r == TenantDecision(prisma.db, request.user, request.classHeader)
      ensures Guards.TenantPromise(prisma.db, request.user, request.classHeader, r)
      ensures request.activeClassId == if r.Admitted? then Some(r.activeClassId) else old(request.activeClassId)
    {
      Guards.TenantKeepsPromise(prisma.db, request.user, request.classHeader);
      if request.user.None? {
        return Threw(Unauthorized);
      }
      var user := request.user.value;
      var header := HeaderClass(request.classHeader);
      if header.None? {
        return Threw(Forbidden(MissingHeader));
      }
      var classId := header.value;
      if user.role == Some(SUPER_ADMIN) {
        request.activeClassId := Some(classId);
        return Admitted(classId);
      }
      if classId !in prisma.db.classes {
        return Threw(Forbidden(NoSuchClass));
      }
      if prisma.db.classes[classId].leaderId == user.id {
        request.activeClassId := Some(classId);
        return Admitted(classId);
      }
      if Mapping(user.id, classId) !in prisma.db.servants {
        return Threw(Forbidden(NoAccess));
      }
      request.activeClassId := Some(classId);
      r := Admitted(classId);
    }
  }

  class RolesGuard {
    const required: seq<Guards.UserRole>

    constructor (required: seq<Guards.UserRole>)
      ensures this.required == required
    {
      this.required := required;
    }

    method CanActivate(request: HttpRequest, session: Option<AuthUser>) returns (r: Guards.RolesVerdict)
      ensures r == Guards.RolesDecision(required, request.user, session)
      ensures Guards.RolesPromise(required, request.user, session, r)
    {
      Guards.RolesKeepPromise(required, request.user, session);
      if |required| == 0 {
        return Guards.Allowed;
      }
      var rawUser := request.user;
      if rawUser.None? || rawUser.value.id == "" {
        rawUser := session;
      }
      if rawUser.None? || rawUser.value.id == "" {
        return Guards.NoUser;
      }
      var role := Guards.NormaliseRole(rawUser.value.role);
      if role !in required {
        return Guards.WrongRole(role);
      }
      r := Guards.Allowed;
    }
  }
}
