/** What a bulk add reports: src/modules/classes/services/member.service.ts, `addBulk`, when no other call overlaps
    it. */
module Bulk {
  import opened Basics
  import opened Tables
  import opened Entities
  import opened Ordering
  import opened Listing
  import opened Machine
  import opened Serving
  import opened Outcomes
  import opened Effects

  /** One invalid phone anywhere in a batch stops the call before it writes anything. */
  lemma BulkValidatesFirst(db: Db, classId: Id, raws: seq<RawMember>, ids: seq<Id>, now: nat)
    requires classId in db.classes && |ids| == |raws|
    requires Consistent(db) && PhonesCanonical(db) && Sensible(db, AddBulk(classId, raws), ids)
    ensures var (after, outcome) := Serve(db, AddBulk(classId, raws), ids, now);
            && (outcome.Threw? <==> exists i | 0 <= i < |raws| :: RowFor(classId, raws[i]).Err?)
            && (outcome.Threw? ==> after == db && outcome.error.BadPhone?)
  {
    RowsForAll(classId, raws);
    if RowsFor(classId, raws).Ok? {
      BulkServes(db, classId, raws, ids, now);
    }
  }

  function NullUserInputs(raws: seq<RawMember>): nat {
    if raws == [] then 0 else NullUserInputs(raws[..|raws| - 1]) + if raws[|raws| - 1].userId.None? then 1 else 0
  }

  /** The distinct users a batch names who are not members of any class yet. */
  function NewUserInputs(members: map<Id, MemberRow>, raws: seq<RawMember>): set<Option<Id>> {
    set r | r in raws && r.userId.Some? && !UserTaken(members, r.userId) :: r.userId
  }

  lemma {:induction false} NullUsersOfBatch(batch: seq<NewMember>, raws: seq<RawMember>)
    requires |batch| == |raws| && forall i | 0 <= i < |raws| :: batch[i].row.userId == raws[i].userId
    ensures NullUsers(batch) == NullUserInputs(raws)
  {
    if raws != [] {
      var n := |raws| - 1;
      NullUsersOfBatch(batch[..n], raws[..n]);
    }
  }

  lemma NewUsersOfBatch(members: map<Id, MemberRow>, batch: seq<NewMember>, raws: seq<RawMember>)
    requires |batch| == |raws| && forall i | 0 <= i < |raws| :: batch[i].row.userId == raws[i].userId
    ensures NewUsers(members, batch) == NewUserInputs(members, raws)
  {
    forall u | u in NewUsers(members, batch) ensures u in NewUserInputs(members, raws) {
      var m :| m in batch && m.row.userId == u && u.Some? && !UserTaken(members, u);
      var i :| 0 <= i < |batch| && batch[i] == m;
      assert raws[i] in raws;
    }
    forall u | u in NewUserInputs(members, raws) ensures u in NewUsers(members, batch) {
      var r :| r in raws && r.userId == u && u.Some? && !UserTaken(members, u);
      var i :| 0 <= i < |raws| && raws[i] == r;
      assert batch[i] in batch;
    }
  }

  lemma BatchCounted(db: Db, raws: seq<RawMember>, batch: seq<NewMember>)
    requires Consistent(db) && FreshBatch(db.issued, batch)
    requires |batch| == |raws| && forall i | 0 <= i < |raws| :: batch[i].row.userId == raws[i].userId
    ensures InsertAll(db.members, batch).1 == NullUserInputs(raws) + |NewUserInputs(db.members, raws)|
  {
    assert FreshBatch(db.members.Keys, batch);
    InsertAllCount(db.members, batch);
    NullUsersOfBatch(batch, raws);
    NewUsersOfBatch(db.members, batch, raws);
  }

  /** A valid batch is counted exactly: `created` is its rows without a user plus the distinct users it names that
      were members nowhere, and the roster of the class grows by exactly that. */
  lemma BulkCountedExactly(db: Db, classId: Id, raws: seq<RawMember>, ids: seq<Id>, now: nat)
    requires Consistent(db) && PhonesCanonical(db) && Sensible(db, AddBulk(classId, raws), ids)
    requires classId in db.classes && RowsFor(classId, raws).Ok?
    ensures var (after, outcome) := Serve(db, AddBulk(classId, raws), ids, now);
            && outcome.BulkAdded?
            && outcome.created == NullUserInputs(raws) + |NewUserInputs(db.members, raws)|
            && |RosterOf(after.members, classId)| == |RosterOf(db.members, classId)| + outcome.created
  {
    var batch := BatchOf(classId, raws, ids);
    BatchFits(db, classId, raws, ids);
    BulkInserts(db, classId, batch);
    BatchCounted(db, raws, batch);
    BulkServes(db, classId, raws, ids, now);
  }

  /** The first members of the sorted roster, as many as asked for or as there are. */
  ghost predicate PrefixOfRoster(members: map<Id, MemberRow>, classId: Id, items: seq<Member>, limit: nat) {
    var sorted := SortedMembers(members, RosterOf(members, classId));
    && |items| == Min(limit, |sorted|)
    && forall i | 0 <= i < |items| ::
         sorted[i] in members && FromRow(sorted[i], members[sorted[i]]) == Ok(items[i])
  }

  lemma FirstPageIsPrefix(db: Db, classId: Id, limit: nat)
    requires PhonesCanonical(db)
    ensures FirstOfRoster(db.members, classId, limit).Ok?
    ensures PrefixOfRoster(db.members, classId, FirstOfRoster(db.members, classId, limit).value, limit)
  {
    RosterReadsBack(db, classId, limit);
  }

  /** The list a bulk add returns is not its batch: it is the prefix of the class's whole sorted roster as long as
      the batch, or all of it if that is shorter. */
  lemma BulkReturnsRosterPrefix(db: Db, classId: Id, raws: seq<RawMember>, ids: seq<Id>, now: nat)
    requires Consistent(db) && PhonesCanonical(db) && Sensible(db, AddBulk(classId, raws), ids)
    requires classId in db.classes && RowsFor(classId, raws).Ok?
    ensures var (after, outcome) := Serve(db, AddBulk(classId, raws), ids, now);
            outcome.BulkAdded? && PrefixOfRoster(after.members, classId, outcome.items, |raws|)
  {
    BulkServes(db, classId, raws, ids, now);
    FirstPageIsPrefix(Serve(db, AddBulk(classId, raws), ids, now).0, classId, |raws|);
  }

  /** The key a new row of a batch is sorted by. */
  function NewKey(raw: RawMember, id: Id): MemberKey {
    MemberKey(true, raw.fullName, id)
  }

  /** When a bulk add returns the members it created, told from the tables and the batch before the call: the class
      had no members, or no row is skipped and every row sorts before every older member. */
  ghost predicate CreatedComeFirst(db: Db, classId: Id, raws: seq<RawMember>, ids: seq<Id>)
    requires |ids| == |raws|
  {
    var older := RosterOf(db.members, classId);
    || older == {}
    || (&& NullUserInputs(raws) + |NewUserInputs(db.members, raws)| == |raws|
        && forall i, o | 0 <= i < |raws| && o in older :: KeyLeq(NewKey(raws[i], ids[i]), KeyOf(db.members, o)))
  }

  ghost predicate Holds(members: map<Id, MemberRow>, batch: seq<NewMember>) {
    forall i | 0 <= i < |batch| :: batch[i].id in members && members[batch[i].id] == batch[i].row
  }

  lemma HoldsOneMore(before: map<Id, MemberRow>, batch: seq<NewMember>)
    requires batch != [] && forall i | 0 <= i < |batch| - 1 :: batch[i].id != batch[|batch| - 1].id
    requires Holds(before, batch[..|batch| - 1])
    ensures Holds(before[batch[|batch| - 1].id := batch[|batch| - 1].row], batch)
  {
    forall i | 0 <= i < |batch| - 1 ensures batch[i].id in before && before[batch[i].id] == batch[i].row {
      assert batch[..|batch| - 1][i] == batch[i];
    }
  }

  /** With nothing skipped a bulk insert puts every row of the batch in. */
  lemma {:induction false} NothingSkipped(members: map<Id, MemberRow>, batch: seq<NewMember>)
    requires FreshBatch(members.Keys, batch)
    ensures InsertAll(members, batch).1 <= |batch|
    ensures InsertAll(members, batch).1 == |batch| ==> Holds(InsertAll(members, batch).0, batch)
  {
    if batch != [] {
      var init := batch[..|batch| - 1];
      FreshInit(members.Keys, batch);
      NothingSkipped(members, init);
      if InsertAll(members, batch).1 == |batch| {
        HoldsOneMore(InsertAll(members, init).0, batch);
      }
    }
  }

  function ItemIds(items: seq<Member>): set<Id> {
    set m | m in items :: m.id
  }

  lemma ItemsOfPrefix(members: map<Id, MemberRow>, classId: Id, items: seq<Member>, limit: nat)
    requires PrefixOfRoster(members, classId, items, limit)
    ensures var sorted := SortedMembers(members, RosterOf(members, classId));
            ItemIds(items) == Elements(sorted[..Min(limit, |sorted|)])
  {
    var sorted := SortedMembers(members, RosterOf(members, classId));
    forall i | 0 <= i < |items| ensures items[i].id == sorted[i] {
      assert FromRow(sorted[i], members[sorted[i]]) == Ok(items[i]);
    }
    forall id | id in Elements(sorted[..|items|]) ensures id in ItemIds(items) {
      var i :| 0 <= i < |items| && sorted[..|items|][i] == id;
      assert items[i] in items;
    }
    forall id | id in ItemIds(items) ensures id in Elements(sorted[..|items|]) {
      var i :| 0 <= i < |items| && items[i].id == id;
      assert sorted[..|items|][i] == id;
    }
  }

  /** The rows of a batch stand in the table under their ids and sort by their keys. */
  lemma BatchSorts(db: Db, classId: Id, raws: seq<RawMember>, ids: seq<Id>, i: nat)
    requires Sensible(db, AddBulk(classId, raws), ids) && RowsFor(classId, raws).Ok? && i < |raws|
    ensures var m := BatchOf(classId, raws, ids)[i];
            m in BatchOf(classId, raws, ids) && m.id == ids[i] && MemberKey(m.row.isActive, m.row.fullName, m.id) == NewKey(raws[i], ids[i])
  {
    RowsForAll(classId, raws);
    assert RowFor(classId, raws[i]) == Ok(RowsFor(classId, raws).value[i]);
  }

  /** With nothing skipped, the new rows of the table are those of the batch, in their own keys. */
  lemma BatchInTable(db: Db, classId: Id, raws: seq<RawMember>, ids: seq<Id>, i: nat)
    requires Consistent(db) && Sensible(db, AddBulk(classId, raws), ids) && RowsFor(classId, raws).Ok? && i < |raws|
    requires InsertAll(db.members, BatchOf(classId, raws, ids)).1 == |raws|
    ensures var after := InsertAll(db.members, BatchOf(classId, raws, ids)).0;
            ids[i] in after.Keys - db.members.Keys && KeyOf(after, ids[i]) == NewKey(raws[i], ids[i])
  {
    var batch := BatchOf(classId, raws, ids);
    BatchFits(db, classId, raws, ids);
    assert FreshBatch(db.members.Keys, batch);
    NothingSkipped(db.members, batch);
    BatchSorts(db, classId, raws, ids, i);
  }

  lemma AddedIsBatch(db: Db, classId: Id, raws: seq<RawMember>, ids: seq<Id>, a: Id) returns (i: nat)
    requires Consistent(db) && Sensible(db, AddBulk(classId, raws), ids) && RowsFor(classId, raws).Ok?
    requires a in InsertAll(db.members, BatchOf(classId, raws, ids)).0.Keys - db.members.Keys
    ensures i < |raws| && ids[i] == a
  {
    var batch := BatchOf(classId, raws, ids);
    BatchFits(db, classId, raws, ids);
    assert FreshBatch(db.members.Keys, batch);
    InsertAllRows(db.members, batch);
    i :| 0 <= i < |batch| && batch[i] == NewMember(a, InsertAll(db.members, batch).0[a]);
    BatchSorts(db, classId, raws, ids, i);
  }

  /** Older rows keep their keys through a bulk insert. */
  lemma OlderKeysStay(members: map<Id, MemberRow>, batch: seq<NewMember>, o: Id)
    requires FreshBatch(members.Keys, batch) && o in members
    ensures KeyOf(InsertAll(members, batch).0, o) == KeyOf(members, o)
  {
    InsertAllRows(members, batch);
  }

  ghost predicate AllBefore(members: map<Id, MemberRow>, added: set<Id>, older: set<Id>) {
    forall a, o | a in added && o in older :: MemberOrder(members)(a, o)
  }

  /** If no row of the batch is skipped, the order of the new members is told by the batch. */
  lemma BatchBefore(db: Db, classId: Id, raws: seq<RawMember>, ids: seq<Id>, after: map<Id, MemberRow>, older: set<Id>)
    requires Consistent(db) && Sensible(db, AddBulk(classId, raws), ids) && RowsFor(classId, raws).Ok?
    requires InsertAll(db.members, BatchOf(classId, raws, ids)) == (after, |raws|) && older <= db.members.Keys
    ensures AllBefore(after, after.Keys - db.members.Keys, older)
       <==> forall i, o | 0 <= i < |raws| && o in older :: KeyLeq(NewKey(raws[i], ids[i]), KeyOf(db.members, o))
  {
    var added := after.Keys - db.members.Keys;
    BatchFits(db, classId, raws, ids);
    forall o | o in older ensures KeyOf(after, o) == KeyOf(db.members, o) {
      assert FreshBatch(db.members.Keys, BatchOf(classId, raws, ids));
      OlderKeysStay(db.members, BatchOf(classId, raws, ids), o);
    }
    forall i | 0 <= i < |raws| ensures ids[i] in added && KeyOf(after, ids[i]) == NewKey(raws[i], ids[i]) {
      BatchInTable(db, classId, raws, ids, i);
    }
    forall a | a in added ensures exists i :: 0 <= i < |raws| && ids[i] == a {
      var i := AddedIsBatch(db, classId, raws, ids, a);
    }
    SameOrder(raws, ids, db.members, after, added, older);
  }

  lemma SameOrder(raws: seq<RawMember>, ids: seq<Id>, before: map<Id, MemberRow>, after: map<Id, MemberRow>,
                  added: set<Id>, older: set<Id>)
    requires |ids| == |raws|
    requires forall o | o in older :: KeyOf(after, o) == KeyOf(before, o)
    requires forall i | 0 <= i < |raws| :: ids[i] in added && KeyOf(after, ids[i]) == NewKey(raws[i], ids[i])
    requires forall a | a in added :: exists i :: 0 <= i < |raws| && ids[i] == a
    ensures AllBefore(after, added, older)
       <==> forall i, o | 0 <= i < |raws| && o in older :: KeyLeq(NewKey(raws[i], ids[i]), KeyOf(before, o))
  {
    if AllBefore(after, added, older) {
      forall i, o | 0 <= i < |raws| && o in older ensures KeyLeq(NewKey(raws[i], ids[i]), KeyOf(before, o)) {
        assert MemberOrder(after)(ids[i], o);
      }
    }
  }

  /** The roster after a bulk insert is the old one and the new rows. */
  lemma BatchSplitsRoster(members: map<Id, MemberRow>, classId: Id, batch: seq<NewMember>)
    requires FreshBatch(members.Keys, batch) && forall m | m in batch :: m.row.classId == classId
    ensures var after := InsertAll(members, batch).0;
            RosterOf(after, classId) == RosterOf(members, classId) + (after.Keys - members.Keys)
  {
    InsertAllRows(members, batch);
    var after := InsertAll(members, batch).0;
    forall m | m in after && m !in members ensures after[m].classId == classId {
      assert NewMember(m, after[m]).row.classId == classId;
    }
    RosterSplits(members, after, classId);
  }

  lemma AddedCount(members: map<Id, MemberRow>, batch: seq<NewMember>)
    requires FreshBatch(members.Keys, batch)
    ensures var (after, n) := InsertAll(members, batch);
            |after.Keys - members.Keys| == n <= |batch|
  {
    InsertAllRows(members, batch);
    InsertAllSize(members, batch);
    NothingSkipped(members, batch);
    KeysGained(members, InsertAll(members, batch).0);
  }

  /** The prefix of the new roster is the new rows exactly when there are no older ones, or none was skipped and all
      come before the older ones. */
  lemma RosterPrefixIsAdded(members: map<Id, MemberRow>, classId: Id, batch: seq<NewMember>)
    requires FreshBatch(members.Keys, batch) && forall m | m in batch :: m.row.classId == classId
    ensures var (after, n) := InsertAll(members, batch);
            var sorted, added := SortedMembers(after, RosterOf(after, classId)), after.Keys - members.Keys;
            (Elements(sorted[..Min(|batch|, |sorted|)]) == added) <==>
              RosterOf(members, classId) == {} || (n == |batch| && AllBefore(after, added, RosterOf(members, classId)))
  {
    var after := InsertAll(members, batch).0;
    BatchSplitsRoster(members, classId, batch);
    AddedCount(members, batch);
    SortedMembersList(after, RosterOf(after, classId));
    PrefixIsAdded(SortedMembers(after, RosterOf(after, classId)), RosterOf(members, classId),
                  after.Keys - members.Keys, MemberOrder(after), |batch|);
  }

  /** What the condition says, on the tables afterwards. */
  lemma CreatedComeFirstMeans(db: Db, classId: Id, raws: seq<RawMember>, ids: seq<Id>)
    requires Consistent(db) && Sensible(db, AddBulk(classId, raws), ids) && RowsFor(classId, raws).Ok?
    ensures var (after, n) := InsertAll(db.members, BatchOf(classId, raws, ids));
            var older := RosterOf(db.members, classId);
            CreatedComeFirst(db, classId, raws, ids) <==>
              older == {} || (n == |raws| && AllBefore(after, after.Keys - db.members.Keys, older))
  {
    var (after, n) := InsertAll(db.members, BatchOf(classId, raws, ids));
    BatchFits(db, classId, raws, ids);
    BatchCounted(db, raws, BatchOf(classId, raws, ids));
    if n == |raws| {
      BatchBefore(db, classId, raws, ids, after, RosterOf(db.members, classId));
    }
  }

  /** Exactly when a bulk add returns the members it has created, and no others. */
  lemma BulkReturnsCreatedExactly(db: Db, classId: Id, raws: seq<RawMember>, ids: seq<Id>, now: nat)
    requires Consistent(db) && PhonesCanonical(db) && Sensible(db, AddBulk(classId, raws), ids)
    requires classId in db.classes && RowsFor(classId, raws).Ok?
    ensures var (after, outcome) := Serve(db, AddBulk(classId, raws), ids, now);
            && outcome.BulkAdded?
            && (ItemIds(outcome.items) == after.members.Keys - db.members.Keys
                <==> CreatedComeFirst(db, classId, raws, ids))
  {
    var batch := BatchOf(classId, raws, ids);
    BulkServes(db, classId, raws, ids, now);
    BulkReturnsRosterPrefix(db, classId, raws, ids, now);
    ItemsOfPrefix(InsertAll(db.members, batch).0, classId, Serve(db, AddBulk(classId, raws), ids, now).1.items, |raws|);
    BatchFits(db, classId, raws, ids);
    assert FreshBatch(db.members.Keys, batch);
    RosterPrefixIsAdded(db.members, classId, batch);
    CreatedComeFirstMeans(db, classId, raws, ids);
  }

  /** The row at index i of a batch has no user, or a user who is no member yet and in no earlier row. */
  predicate NotSkipped(members: map<Id, MemberRow>, raws: seq<RawMember>, i: nat)
    requires i < |raws|
  {
    var u := raws[i].userId;
    u.None? || ((forall m | m in members :: members[m].userId != u) && forall j | 0 <= j < i :: raws[j].userId != u)
  }

  /** What a bulk insert has put in: exactly the rows that are not skipped, each as given, active, with its phone in
      canonical form, and nothing else has changed. */
  ghost predicate RowsPutIn(before: Db, after: Db, ids: seq<Id>, classId: Id, raws: seq<RawMember>)
    requires |ids| == |raws|
  {
    && (forall m | m in before.members :: m in after.members && after.members[m] == before.members[m])
    && (forall m | m in after.members && m !in before.members :: m in ids)
    && (forall i | 0 <= i < |raws| :: ids[i] in after.members <==> NotSkipped(before.members, raws, i))
    && (forall i | 0 <= i < |raws| && ids[i] in after.members :: ReadsAsGiven(after.members[ids[i]], ids[i], classId, raws[i]))
    && after.(members := before.members, issued := before.issued) == before
  }

  ghost predicate ReadsAsGiven(row: MemberRow, id: Id, classId: Id, raw: RawMember) {
    match FromRow(id, row)
    case Err(_) => false
    case Ok(m) => m == Member(id, classId, raw.userId, raw.fullName, m.phone, true) && PhoneStored(raw.phone, m.phone)
  }

  /** `addBulk` needs the class and no invalid phone, of which it reports the first, and otherwise writes nothing; its
      count is the rows without a user and the distinct users that were members nowhere, the roster grows by it, and
      the items are the first page of the class's member list, which is the created members exactly when those come
      first. */
  ghost predicate AddBulkPromise(
    before: Db, after: Db, r: Outcome, ids: seq<Id>, classId: Id, raws: seq<RawMember>)
    requires |ids| == |raws|
  {
    var found := classId in before.classes;
    var bad := exists i | 0 <= i < |raws| :: !Storable(raws[i].phone);
    && (r == Threw(ClassNotFound(classId)) <==> !found)
    && (found && bad ==>
          exists i | 0 <= i < |raws| :: FirstInvalid(raws, i) && r == Threw(BadPhone(raws[i].phone.value)))
    && (r.BulkAdded? <==> found && !bad)
    && (r.Threw? ==> after == before)
    && (r.BulkAdded? ==>
          && r.created == NullUserInputs(raws) + |NewUserInputs(before.members, raws)|
          && |RosterOf(after.members, classId)| == |RosterOf(before.members, classId)| + r.created
          && RowsPutIn(before, after, ids, classId, raws)
          && MemberListPromise(after.members, classId, MemberFilter(None, None), (a, b) => true, 1, |raws|, r.items,
                               |RosterOf(after.members, classId)|)
          && (ItemIds(r.items) == after.members.Keys - before.members.Keys
              <==> CreatedComeFirst(before, classId, raws, ids)))
  }

  lemma BulkPutsIn(db: Db, classId: Id, raws: seq<RawMember>, ids: seq<Id>, i: nat)
    requires Consistent(db) && Sensible(db, AddBulk(classId, raws), ids) && RowsFor(classId, raws).Ok? && i < |raws|
    ensures var after := InsertAll(db.members, BatchOf(classId, raws, ids)).0;
            && (ids[i] in after <==> NotSkipped(db.members, raws, i))
            && (ids[i] in after ==> ReadsAsGiven(after[ids[i]], ids[i], classId, raws[i]))
  {
    var batch := BatchOf(classId, raws, ids);
    BatchFits(db, classId, raws, ids);
    assert FreshBatch(db.members.Keys, batch);
    FirstGoesIn(db.members, batch, i);
    BatchSorts(db, classId, raws, ids, i);
    RowsForAll(classId, raws);
    assert RowFor(classId, raws[i]) == Ok(batch[i].row);
    RowReadsBack(classId, raws[i], ids[i]);
  }

  lemma BulkPutsInAll(db: Db, classId: Id, raws: seq<RawMember>, ids: seq<Id>, now: nat)
    requires Consistent(db) && PhonesCanonical(db) && Sensible(db, AddBulk(classId, raws), ids)
    requires classId in db.classes && RowsFor(classId, raws).Ok?
    ensures RowsPutIn(db, Serve(db, AddBulk(classId, raws), ids, now).0, ids, classId, raws)
  {
    var batch := BatchOf(classId, raws, ids);
    var after := InsertAll(db.members, batch).0;
    BulkServes(db, classId, raws, ids, now);
    BatchFits(db, classId, raws, ids);
    assert FreshBatch(db.members.Keys, batch);
    InsertAllRows(db.members, batch);
    forall m | m in after && m !in db.members ensures m in ids {
      var i := AddedIsBatch(db, classId, raws, ids, m);
    }
    forall i | 0 <= i < |raws|
      ensures ids[i] in after <==> NotSkipped(db.members, raws, i)
      ensures ids[i] in after ==> ReadsAsGiven(after[ids[i]], ids[i], classId, raws[i])
    {
      BulkPutsIn(db, classId, raws, ids, i);
    }
  }

  lemma BulkListsRoster(db: Db, classId: Id, raws: seq<RawMember>, ids: seq<Id>, now: nat)
    requires Consistent(db) && PhonesCanonical(db) && Sensible(db, AddBulk(classId, raws), ids)
    requires classId in db.classes && RowsFor(classId, raws).Ok?
    ensures var (after, r) := Serve(db, AddBulk(classId, raws), ids, now);
            && r.BulkAdded?
            && MemberListPromise(after.members, classId, MemberFilter(None, None), (a, b) => true, 1, |raws|, r.items,
                                 |RosterOf(after.members, classId)|)
  {
    var members := InsertAll(db.members, BatchOf(classId, raws, ids)).0;
    BulkServes(db, classId, raws, ids, now);
    assert Filtered(members, classId, MemberFilter(None, None), (a, b) => true) == RosterOf(members, classId);
    MemberListKeepsPromise(members, classId, MemberFilter(None, None), (a, b) => true, 1, |raws|,
                           FirstOfRoster(members, classId, |raws|).value);
  }

  lemma AddBulkKeepsPromise(db: Db, classId: Id, raws: seq<RawMember>, ids: seq<Id>, now: nat)
    requires Consistent(db) && PhonesCanonical(db) && Sensible(db, AddBulk(classId, raws), ids)
    ensures var (after, r) := Serve(db, AddBulk(classId, raws), ids, now);
            AddBulkPromise(db, after, r, ids, classId, raws)
  {
    RowsForAll(classId, raws);
    FirstInvalidReported(classId, raws);
    if classId in db.classes && RowsFor(classId, raws).Ok? {
      BulkCountedExactly(db, classId, raws, ids, now);
      BulkPutsInAll(db, classId, raws, ids, now);
      BulkListsRoster(db, classId, raws, ids, now);
      BulkReturnsCreatedExactly(db, classId, raws, ids, now);
    }
  }

  /** Such a call can even return none of the members it has created: with Ann on the roster, adding Bob returns
      Ann. */
  lemma BulkReturnsOthers() returns (db: Db, raws: seq<RawMember>)
    ensures Consistent(db) && PhonesCanonical(db) && "c" in db.classes && Sensible(db, AddBulk("c", raws), ["bob"])
    ensures var outcome := Serve(db, AddBulk("c", raws), ["bob"], 0).1;
            outcome == BulkAdded(1, [Member("ann", "c", None, "Ann", None, true)])
  {
    var ann := MemberRow("c", None, "Ann", None, true);
    var bob := MemberRow("c", None, "Bob", None, true);
    db := Db(true, {"u"}, map["c" := ClassRow("class", Primary1, "u", 0)], map["ann" := ann], {}, {"c", "ann"});
    raws := [RawMember("Bob", None, None)];
    var after := map["ann" := ann, "bob" := bob];
    assert raws[1..] == [] && RowFor("c", raws[0]) == Ok(bob);
    assert RowsFor("c", raws[1..]) == Ok([]);
    assert RowsFor("c", raws) == Ok([bob] + []);
    var batch := BatchOf("c", raws, ["bob"]);
    assert batch == [NewMember("bob", bob)];
    assert batch[..0] == [];
    assert InsertAll(db.members, batch) == (after, 1);
    BulkServes(db, "c", raws, ["bob"], 0);
    AnnThenBob(after);
  }

  lemma AnnThenBob(members: map<Id, MemberRow>)
    requires members == map["ann" := MemberRow("c", None, "Ann", None, true), "bob" := MemberRow("c", None, "Bob", None, true)]
    ensures FirstOfRoster(members, "c", 1) == Ok([Member("ann", "c", None, "Ann", None, true)])
  {
    AnnBeforeBob(members);
    FirstOfTwo(members, "ann", "bob");
  }

  lemma AnnBeforeBob(members: map<Id, MemberRow>)
    requires members == map["ann" := MemberRow("c", None, "Ann", None, true), "bob" := MemberRow("c", None, "Bob", None, true)]
    ensures SortedMembers(members, RosterOf(members, "c")) == ["ann", "bob"]
  {
    MemberOrderTotal(members);
    NamesInOrder();
    assert RosterOf(members, "c") == {"ann", "bob"};
    SortedPair("ann", "bob", MemberOrder(members));
  }

  lemma NamesInOrder()
    ensures LexLeq("Ann", "Bob") && "Ann" != "Bob" && "ann" != "bob"
  {
    assert "Ann"[0] < "Bob"[0] && "ann"[0] < "bob"[0];
  }

  lemma SortedPair(a: Id, b: Id, leq: (Id, Id) -> bool)
    requires TotalOrder(leq) && a != b && leq(a, b)
    ensures SortBy({a, b}, leq) == [a, b]
  {
    SortedUnique({a, b}, leq, [a, b]);
  }

  lemma FirstOfTwo(members: map<Id, MemberRow>, a: Id, b: Id)
    requires a in members && FromRow(a, members[a]).Ok?
    ensures Page([a, b], 1, 1) == [a]
    ensures ReadAll(members, [a]) == Ok([FromRow(a, members[a]).value])
  {
    var one := [a];
    assert one[0] == a && one[1..] == [];
    assert ReadAll(members, one[1..]) == Ok([]);
    assert [FromRow(a, members[a]).value] + [] == [FromRow(a, members[a]).value];
  }
}
