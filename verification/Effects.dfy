/** What each service call promises its caller when no other call overlaps it, said of the tables before and after
    and of the answer alone: every answer with the exact condition it is given under, what has changed, what has
    not, and what repeating or undoing the call would do. */
module Effects {
  import opened Basics
  import opened Phones
  import opened Tables
  import opened Entities
  import opened Listing
  import opened Machine
  import opened Access
  import opened Serving
  import opened Outcomes

  /** The tables a run keeps. */
  ghost predicate Sane(db: Db) {
    Consistent(db) && PhonesCanonical(db)
  }

  // ---- Classes and servants ----

  /** `assign` needs the class and only known users, and otherwise changes nothing; then every listed user is mapped
      and nobody else newly so, `inserted` is how many rows the table has gained and the two counts sum to the length
      of the list, and repeating the call assigns nobody. */
  ghost predicate AssignPromise(before: Db, after: Db, r: Outcome, classId: Id, userIds: seq<Id>) {
    var found := classId in before.classes;
    var known := forall i | 0 <= i < |userIds| :: userIds[i] in before.users;
    && (r == Threw(ClassNotFound(classId)) <==> !found)
    && (r.Threw? && r.error.ServantMustBeAUser? <==> found && !known)
    && (r.Threw? && r.error.ServantMustBeAUser? ==>
          exists i | 0 <= i < |userIds| :: r.error.servantId == userIds[i] && IsFirstUnknown(before.users, userIds, i))
    && (r.Assigned? <==> found && known)
    && (r.Threw? ==> after == before)
    && (r.Assigned? ==>
          && r.inserted + r.already == |userIds|
          && |after.servants| == |before.servants| + r.inserted
          && (forall m :: m in after.servants <==>
                m in before.servants || (m.classId == classId && m.servantId in userIds))
          && after.(servants := before.servants) == before
          && (forall i | 0 <= i < |userIds| :: HasAccess(after, userIds[i], classId))
          && Serve(after, Assign(classId, userIds), [], 0) == (after, Assigned(0, |userIds|)))
  }

  lemma AssignGrows(db: Db, classId: Id, userIds: seq<Id>)
    ensures var (after, r) := AssignAll(db, classId, userIds);
            && |after.servants| == |db.servants| + r.inserted && r.inserted + r.already == |userIds|
            && forall m :: m in after.servants <==>
                 m in db.servants || (m.classId == classId && m.servantId in userIds)
  {
    var asked := Asked(classId, userIds);
    AskedMembers(classId, userIds);
    assert db.servants + asked == db.servants + (asked - db.servants);
  }

  lemma AssignKeepsPromise(db: Db, classId: Id, userIds: seq<Id>)
    ensures var (after, r) := ServeAssign(db, classId, userIds); AssignPromise(db, after, r, classId, userIds)
  {
    NoneUnknown(db.users, userIds);
    if classId in db.classes && FirstUnknown(db.users, userIds).None? {
      var after := ServeAssign(db, classId, userIds).0;
      AssignGrows(db, classId, userIds);
      AssignRepeats(db, after, classId, userIds);
      forall i | 0 <= i < |userIds| ensures HasAccess(after, userIds[i], classId) {
        assert userIds[i] in userIds && Mapping(userIds[i], classId) in after.servants;
      }
    }
  }

  /** `unassign` fails only on a missing class; afterwards the user has access as leader or not at all, nothing else
      has changed, and repeating the call changes nothing. */
  ghost predicate UnassignPromise(before: Db, after: Db, r: Outcome, classId: Id, userId: Id) {
    && (r == Threw(ClassNotFound(classId)) <==> classId !in before.classes)
    && (r == Completed <==> classId in before.classes)
    && (r != Completed ==> after == before)
    && (r == Completed ==>
          && (HasAccess(after, userId, classId) <==> Leads(before, userId, classId))
          && (forall m :: m in after.servants <==> m in before.servants && m != Mapping(userId, classId))
          && after.(servants := before.servants) == before
          && Serve(after, Unassign(classId, userId), [], 0) == (after, Completed))
  }

  lemma UnassignKeepsPromise(db: Db, classId: Id, userId: Id)
    ensures var (after, r) := Serve(db, Unassign(classId, userId), [], 0);
            UnassignPromise(db, after, r, classId, userId)
  {
    if classId in db.classes {
      UnassignIdempotent(db, classId, userId, 0);
    }
  }

  /** `create` needs a known user who leads no class yet; the new class is open to its leader and to nobody else, no
      row has changed, and deleting the class takes everything back. */
  ghost predicate CreatePromise(before: Db, after: Db, r: Outcome, id: Id, row: ClassRow) {
    && (r == Threw(LeaderMustBeAUser(row.leaderId)) <==> row.leaderId !in before.users)
    && (r == Threw(Store(P2002(LeaderId))) <==> row.leaderId in before.users && LedBySomeone(before.classes, row.leaderId))
    && (r == ClassResult(id, row) <==> row.leaderId in before.users && !LedBySomeone(before.classes, row.leaderId))
    && (r.Threw? ==> after.(issued := before.issued) == before)
    && (!r.Threw? ==>
          && after.classes == before.classes[id := row] && id !in before.classes
          && after.(classes := before.classes, issued := before.issued) == before
          && (forall u :: HasAccess(after, u, id) <==> u == row.leaderId)
          && Serve(after, RemoveClass(id), [], 0) == (before.(issued := after.issued), Completed))
  }

  lemma CreateKeepsPromise(db: Db, name: string, level: Level, leaderId: Id, id: Id, now: nat)
    requires Sane(db) && id !in db.issued
    ensures var (after, r) := Serve(db, CreateClass(name, level, leaderId), [id], now);
            CreatePromise(db, after, r, id, ClassRow(name, level, leaderId, now))
  {
    assert id !in db.classes;
    assert forall u :: Mapping(u, id) !in db.servants;
    if leaderId in db.users && !LedBySomeone(db.classes, leaderId) {
      DeleteUndoesCreate(db, name, level, leaderId, [id], now);
      assert Serve(db, CreateClass(name, level, leaderId), [id], now).0 == db.(
        classes := db.classes[id := ClassRow(name, level, leaderId, now)], issued := db.issued + {id});
    }
  }

  /** The row of a class after an update: its creation time, and each other field as given or as it was. */
  predicate Updated(row: ClassRow, was: ClassRow, patch: ClassPatch) {
    && row.name == (if patch.name.Some? then patch.name.value else was.name)
    && row.level == (if patch.level.Some? then patch.level.value else was.level)
    && row.leaderId == (if patch.leaderId.Some? then patch.leaderId.value else was.leaderId)
    && row.createdAt == was.createdAt
  }

  /** `update` needs the class, and for a new leader a known user who leads no other class; it changes the given
      fields of that one row, access to the class follows the leader, and leaders stay unique. */
  ghost predicate ChangePromise(before: Db, after: Db, r: Outcome, id: Id, patch: ClassPatch) {
    var found := id in before.classes;
    var known := patch.leaderId.Some? ==> patch.leaderId.value in before.users;
    var taken := patch.leaderId.Some?
      && exists c | c in before.classes :: c != id && before.classes[c].leaderId == patch.leaderId.value;
    && (r == Threw(ClassNotFound(id)) <==> !found)
    && (patch.leaderId.Some? ==> (r == Threw(LeaderMustBeAUser(patch.leaderId.value)) <==> found && !known))
    && (r == Threw(Store(P2002(LeaderId))) <==> found && known && taken)
    && (r.ClassResult? <==> found && known && !taken)
    && (r.Threw? ==> after == before)
    && (r.ClassResult? ==>
          && r.classId == id && Updated(r.klass, before.classes[id], patch)
          && after == before.(classes := before.classes[id := r.klass])
          && UniqueLeaders(after.classes)
          && (forall u :: HasAccess(after, u, id) <==> u == r.klass.leaderId || Mapped(before, u, id)))
  }

  /** `update` on an existing class, for a known leader if any. */
  lemma ChangeServes(db: Db, id: Id, patch: ClassPatch)
    requires Sane(db) && id in db.classes && patch.leaderId != Some("")
    requires patch.leaderId.Some? ==> patch.leaderId.value in db.users
    ensures var row := PatchClass(db.classes[id], patch);
            Serve(db, ChangeClass(id, patch), [], 0)
              == if patch.leaderId.Some? && LeaderTaken(db.classes, patch.leaderId.value, id)
                 then (db, Threw(Store(P2002(LeaderId))))
                 else (db.(classes := db.classes[id := row]), ClassResult(id, row))
  {
    assert db.issued + {} == db.issued;
  }

  lemma ChangeKeepsPromise(db: Db, id: Id, patch: ClassPatch)
    requires Sane(db) && patch.leaderId != Some("")
    ensures var (after, r) := Serve(db, ChangeClass(id, patch), [], 0); ChangePromise(db, after, r, id, patch)
  {
    if id in db.classes && (patch.leaderId.Some? ==> patch.leaderId.value in db.users) {
      ChangeServes(db, id, patch);
      ServeKeeps(db, ChangeClass(id, patch), [], 0);
      assert Updated(PatchClass(db.classes[id], patch), db.classes[id], patch);
    }
  }

  /** `delete` needs a class that has no members, active or not; then nobody has access to it any more, and just the
      class and its mappings are gone. */
  ghost predicate DeletePromise(before: Db, after: Db, r: Outcome, id: Id) {
    && (r == Threw(ClassNotFound(id)) <==> id !in before.classes)
    && (r == Threw(Store(P2003(MemberToClass))) <==> id in before.classes && HasMembers(before.members, id))
    && (r == Completed <==> id in before.classes && !HasMembers(before.members, id))
    && (r != Completed ==> after == before)
    && (r == Completed ==>
          && after.classes == before.classes - {id}
          && (forall m :: m in after.servants <==> m in before.servants && m.classId != id)
          && after.(classes := before.classes, servants := before.servants) == before
          && (forall u :: !HasAccess(after, u, id))
          && (forall u, c | c != id :: HasAccess(after, u, c) == HasAccess(before, u, c)))
  }

  lemma DeleteKeepsPromise(db: Db, id: Id)
    ensures var (after, r) := Serve(db, RemoveClass(id), [], 0); DeletePromise(db, after, r, id)
  {
    assert db.issued + {} == db.issued;
    DeleteClassRestricts(db, id);
  }

  // ---- Members ----

  /** The phone a stored row should carry for an optional input: none for an absent, null or empty one. */
  ghost predicate PhoneStored(input: Option<string>, phone: Option<Phone>) {
    if input.None? || input.value == "" then phone == None
    else Parse(input.value).Ok? && phone == Some(Parse(input.value).value)
  }

  /** The row an input becomes is the input, active, with its phone in canonical form. */
  lemma RowReadsBack(classId: Id, raw: RawMember, id: Id)
    requires RowFor(classId, raw).Ok?
    ensures FromRow(id, RowFor(classId, raw).value).Ok?
    ensures var m := FromRow(id, RowFor(classId, raw).value).value;
            m == Member(id, classId, raw.userId, raw.fullName, m.phone, true) && PhoneStored(raw.phone, m.phone)
  {
    var row := RowFor(classId, raw).value;
    CanonicalRowReads(id, row);
    if row.phone.Some? {
      CanonicalIsFixed(row.phone.value, DEFAULT_COUNTRY_CODE);
    }
  }

  /** `addOne` needs the class, a valid phone if there is one, and a user who is a member nowhere; the new row is
      what was given, active, with the phone in canonical form, and no other row has changed. */
  ghost predicate AddPromise(before: Db, after: Db, r: Outcome, id: Id, classId: Id, raw: RawMember) {
    var found := classId in before.classes;
    && (r == Threw(ClassNotFound(classId)) <==> !found)
    && (r.Threw? && r.error.BadPhone? <==> found && !Storable(raw.phone))
    && (found && !Storable(raw.phone) ==> r == Threw(BadPhone(raw.phone.value)))
    && (r == Threw(Store(P2002(MemberUserId))) <==> found && Storable(raw.phone) && UserTaken(before.members, raw.userId))
    && (r.MemberResult? <==> found && Storable(raw.phone) && !UserTaken(before.members, raw.userId))
    && (r.Threw? ==> after.(issued := before.issued) == before)
    && (r.MemberResult? ==>
          && r.member == Member(id, classId, raw.userId, raw.fullName, r.member.phone, true)
          && PhoneStored(raw.phone, r.member.phone)
          && after.members.Keys == before.members.Keys + {id} && id !in before.members
          && FromRow(id, after.members[id]) == Ok(r.member)
          && (forall m | m in before.members :: after.members[m] == before.members[m])
          && after.(members := before.members, issued := before.issued) == before)
  }

  lemma NewRowFor(classId: Id, raw: RawMember)
    requires Storable(raw.phone)
    ensures RowFor(classId, raw).Ok?
    ensures RowFor(classId, raw).value.userId == raw.userId && RowFor(classId, raw).value.classId == classId
  {
  }

  lemma InsertCommits(db: Db, id: Id, row: MemberRow)
    requires row.classId in db.classes
    ensures Commit(db, InsertMember(NewMember(id, row)))
         == if UserTaken(db.members, row.userId)
            then (db.(issued := db.issued + {id}), Threw(Store(P2002(MemberUserId))))
            else (db.(members := db.members[id := row], issued := db.issued + {id}), Read(id, row))
  {
  }

  /** `addOne` on an existing class with a valid phone. */
  lemma AddServes(db: Db, classId: Id, raw: RawMember, id: Id)
    requires classId in db.classes && Storable(raw.phone)
    ensures RowFor(classId, raw).Ok? && FromRow(id, RowFor(classId, raw).value).Ok?
    ensures var row, (after, r) := RowFor(classId, raw).value, Serve(db, AddOne(classId, raw), [id], 0);
            if UserTaken(db.members, raw.userId)
            then after == db.(issued := db.issued + {id}) && r == Threw(Store(P2002(MemberUserId)))
            else && after == db.(members := db.members[id := row], issued := db.issued + {id})
                 && r == MemberResult(FromRow(id, row).value)
  {
    NewRowFor(classId, raw);
    RowReadsBack(classId, raw, id);
    var row := RowFor(classId, raw).value;
    assert Serve(db, AddOne(classId, raw), [id], 0) == Commit(db, InsertMember(NewMember([id][0], row)));
    InsertCommits(db, id, row);
  }

  lemma AddKeepsPromise(db: Db, classId: Id, raw: RawMember, id: Id)
    requires Sane(db) && id !in db.issued
    ensures var (after, r) := Serve(db, AddOne(classId, raw), [id], 0); AddPromise(db, after, r, id, classId, raw)
  {
    if classId in db.classes && Storable(raw.phone) {
      AddServes(db, classId, raw, id);
      RowReadsBack(classId, raw, id);
      assert id !in db.members;
    }
  }

  /** The phone an update leaves on a member. */
  predicate PhoneAfter(input: MemberInput, was: Option<string>, phone: Option<Phone>) {
    match input.phone
    case None => (phone.Some? <==> was.Some?) && (phone.Some? ==> phone.value.value == was.value)
    case Some(None) => phone == None
    case Some(Some(text)) => Parse(text).Ok? && phone == Some(Parse(text).value)
  }

  /** `update` needs the member, and for a new phone a valid one; it changes the given fields of that one row, and
      repeating it changes nothing and answers the same. */
  ghost predicate ChangeMemberPromise(before: Db, after: Db, r: Outcome, id: Id, input: MemberInput) {
    var found := id in before.members;
    var bad := input.phone.Some? && input.phone.value.Some? && Parse(input.phone.value.value).Err?;
    && (r == Threw(MemberNotFound(id)) <==> !found)
    && (r.Threw? && r.error.BadPhone? <==> found && bad)
    && (found && bad ==> r == Threw(BadPhone(input.phone.value.value)))
    && (r.MemberResult? <==> found && !bad)
    && (r.Threw? ==> after == before)
    && (r.MemberResult? ==>
          var row := before.members[id];
          && r.member == Member(id, row.classId, row.userId,
                                if input.fullName.Some? then input.fullName.value else row.fullName,
                                r.member.phone,
                                if input.isActive.Some? then input.isActive.value else row.isActive)
          && PhoneAfter(input, row.phone, r.member.phone)
          && after.members.Keys == before.members.Keys
          && FromRow(id, after.members[id]) == Ok(r.member)
          && (forall m | m in before.members && m != id :: after.members[m] == before.members[m])
          && after.(members := before.members) == before
          && Serve(after, ChangeMember(id, input), [], 0) == (after, r))
  }

  /** A valid member update, on a table of canonical phones. */
  lemma PatchServes(db: Db, id: Id, input: MemberInput)
    requires PhonesCanonical(db) && id in db.members && PatchFor(input).Ok?
    ensures var row := PatchMember(db.members[id], PatchFor(input).value);
            && CanonicalPhone(row.phone)
            && FromRow(id, row).Ok? && PhoneAfter(input, db.members[id].phone, FromRow(id, row).value.phone)
            && Serve(db, ChangeMember(id, input), [], 0)
               == (db.(members := db.members[id := row]), MemberResult(FromRow(id, row).value))
  {
    var row := PatchMember(db.members[id], PatchFor(input).value);
    CanonicalRowReads(id, db.members[id]);
    CanonicalRowReads(id, row);
    assert db.issued + {} == db.issued;
  }

  lemma PatchTwice(db: Db, id: Id, input: MemberInput)
    requires PhonesCanonical(db) && id in db.members && PatchFor(input).Ok?
    ensures var (after, r) := Serve(db, ChangeMember(id, input), [], 0);
            Serve(after, ChangeMember(id, input), [], 0) == (after, r)
  {
    var row := PatchMember(db.members[id], PatchFor(input).value);
    PatchServes(db, id, input);
    var after := db.(members := db.members[id := row]);
    assert PatchMember(row, PatchFor(input).value) == row;
    assert after.members[id := row] == after.members;
    PatchServes(after, id, input);
  }

  lemma ChangeMemberRefused(db: Db, id: Id, input: MemberInput)
    requires Sane(db) && (id !in db.members || PatchFor(input).Err?)
    ensures Serve(db, ChangeMember(id, input), [], 0)
         == (db, Threw(if id !in db.members then MemberNotFound(id) else BadPhone(input.phone.value.value)))
  {
    if id in db.members {
      CanonicalRowReads(id, db.members[id]);
    }
  }

  lemma ChangeMemberDone(db: Db, id: Id, input: MemberInput)
    requires Sane(db) && id in db.members && PatchFor(input).Ok?
    ensures var (after, r) := Serve(db, ChangeMember(id, input), [], 0); ChangeMemberPromise(db, after, r, id, input)
  {
    PatchServes(db, id, input);
    PatchTwice(db, id, input);
  }

  lemma ChangeMemberKeepsPromise(db: Db, id: Id, input: MemberInput)
    requires Sane(db)
    ensures var (after, r) := Serve(db, ChangeMember(id, input), [], 0); ChangeMemberPromise(db, after, r, id, input)
  {
    if id in db.members && PatchFor(input).Ok? {
      ChangeMemberDone(db, id, input);
    } else {
      ChangeMemberRefused(db, id, input);
    }
  }

  /** Activation and soft deletion need the member and set the flag of that one row, which stays on its roster; the
      last of several calls decides, so each undoes the other. */
  ghost predicate SetActivePromise(before: Db, after: Db, r: Outcome, id: Id, isActive: bool) {
    && (r == Threw(MemberNotFound(id)) <==> id !in before.members)
    && (r.MemberResult? <==> id in before.members)
    && (r.Threw? ==> after == before)
    && (r.MemberResult? ==>
          var row := before.members[id];
          && FromRow(id, row).Ok? && r.member == FromRow(id, row).value.(isActive := isActive)
          && after == before.(members := before.members[id := row.(isActive := isActive)])
          && (forall c :: RosterOf(after.members, c) == RosterOf(before.members, c))
          && (forall b :: Serve(after, SetActive(id, b), [], 0) == Serve(before, SetActive(id, b), [], 0))
          && (isActive != row.isActive ==> Serve(after, SetActive(id, row.isActive), [], 0).0 == before))
  }

  lemma FlagKeepsRosters(members: map<Id, MemberRow>, id: Id, isActive: bool)
    requires id in members
    ensures forall c :: RosterOf(members[id := members[id].(isActive := isActive)], c) == RosterOf(members, c)
  {
  }

  lemma SetActiveServes(db: Db, id: Id, isActive: bool)
    requires PhonesCanonical(db) && id in db.members
    ensures FromRow(id, db.members[id]).Ok?
    ensures var (after, r) := Serve(db, SetActive(id, isActive), [], 0);
            && after == db.(members := db.members[id := db.members[id].(isActive := isActive)])
            && r == MemberResult(FromRow(id, db.members[id]).value.(isActive := isActive))
            && PhonesCanonical(after)
  {
    var row := db.members[id];
    CanonicalRowReads(id, row);
    CanonicalRowReads(id, row.(isActive := isActive));
    assert db.issued + {} == db.issued;
  }

  lemma SetActiveTwice(db: Db, id: Id, isActive: bool, b: bool)
    requires PhonesCanonical(db) && id in db.members
    ensures Serve(Serve(db, SetActive(id, isActive), [], 0).0, SetActive(id, b), [], 0)
         == Serve(db, SetActive(id, b), [], 0)
  {
    var after := Serve(db, SetActive(id, isActive), [], 0).0;
    SetActiveServes(db, id, isActive);
    SetActiveServes(db, id, b);
    SetActiveServes(after, id, b);
    assert after.members[id := db.members[id].(isActive := b)] == db.members[id := db.members[id].(isActive := b)];
  }

  lemma SetActiveSame(db: Db, id: Id)
    requires PhonesCanonical(db) && id in db.members
    ensures Serve(db, SetActive(id, db.members[id].isActive), [], 0).0 == db
  {
    SetActiveServes(db, id, db.members[id].isActive);
    assert db.members[id := db.members[id]] == db.members;
  }

  lemma SetActiveKeepsPromise(db: Db, id: Id, isActive: bool)
    requires Sane(db)
    ensures var (after, r) := Serve(db, SetActive(id, isActive), [], 0); SetActivePromise(db, after, r, id, isActive)
  {
    if id in db.members {
      SetActiveServes(db, id, isActive);
      FlagKeepsRosters(db.members, id, isActive);
      forall b { SetActiveTwice(db, id, isActive, b); }
      SetActiveSame(db, id);
    }
  }
}
