/** The two paged list queries, on an unchanging table with one fixed tie-break. */
module Listing {
  import opened Basics
  import opened Tables
  import opened Entities
  import opened Ordering

  datatype MemberFilter = MemberFilter(q: Option<string>, isActive: Option<bool>)

  datatype ClassFilter = ClassFilter(level: Option<Level>, leaderId: Option<Id>)

  /** `orderBy: [{ isActive: 'desc' }, { fullName: 'asc' }]`, ties broken by id. */
  datatype MemberKey = MemberKey(isActive: bool, fullName: string, id: Id)

  predicate KeyLeq(a: MemberKey, b: MemberKey) {
    if a.isActive != b.isActive then a.isActive
    else if a.fullName != b.fullName then LexLeq(a.fullName, b.fullName)
    else LexLeq(a.id, b.id)
  }

  /** One member ranks before another: active ones first, then by name, then by id. */
  ghost predicate Ranks(a: MemberKey, b: MemberKey) {
    || (a.isActive && !b.isActive)
    || (a.isActive == b.isActive && Precedes(a.fullName, b.fullName))
    || (a.isActive == b.isActive && a.fullName == b.fullName && Precedes(a.id, b.id))
  }

  lemma KeyMeans(a: MemberKey, b: MemberKey)
    ensures KeyLeq(a, b) <==> a == b || Ranks(a, b)
  {
    LexMeans(a.fullName, b.fullName);
    LexMeans(a.id, b.id);
    PrecedesNotItself(a.fullName);
  }

  lemma PrecedesNotItself(s: string)
    ensures !Precedes(s, s)
  {
  }

  function KeyOf(members: map<Id, MemberRow>, id: Id): MemberKey {
    if id in members then MemberKey(members[id].isActive, members[id].fullName, id) else MemberKey(false, "", id)
  }

  function MemberOrder(members: map<Id, MemberRow>): (Id, Id) -> bool {
    (a, b) => KeyLeq(KeyOf(members, a), KeyOf(members, b))
  }

  /** `orderBy: { createdAt: 'desc' }`, ties broken by id. */
  predicate NewerFirst(classes: map<Id, ClassRow>, a: Id, b: Id) {
    var x := if a in classes then classes[a].createdAt else 0;
    var y := if b in classes then classes[b].createdAt else 0;
    if x != y then x > y else LexLeq(a, b)
  }

  /** One class ranks before another: newer ones first, ties by id. */
  ghost predicate RanksNewer(classes: map<Id, ClassRow>, a: Id, b: Id)
    requires a in classes && b in classes
  {
    || classes[a].createdAt > classes[b].createdAt
    || (classes[a].createdAt == classes[b].createdAt && Precedes(a, b))
  }

  lemma NewerMeans(classes: map<Id, ClassRow>, a: Id, b: Id)
    requires a in classes && b in classes
    ensures NewerFirst(classes, a, b) <==> a == b || RanksNewer(classes, a, b)
  {
    LexMeans(a, b);
  }

  function ClassOrder(classes: map<Id, ClassRow>): (Id, Id) -> bool {
    (a, b) => NewerFirst(classes, a, b)
  }

  lemma KeyTotal(a: MemberKey, b: MemberKey)
    ensures KeyLeq(a, b) || KeyLeq(b, a)
    ensures KeyLeq(a, b) && KeyLeq(b, a) ==> a == b
  {
    LexTotal(a.fullName, b.fullName);
    LexTotal(a.id, b.id);
  }

  lemma KeyTransitive(a: MemberKey, b: MemberKey, c: MemberKey)
    requires KeyLeq(a, b) && KeyLeq(b, c)
    ensures KeyLeq(a, c)
  {
    if a.isActive == b.isActive == c.isActive {
      if a.fullName == b.fullName == c.fullName {
        LexTransitive(a.id, b.id, c.id);
      } else if a.fullName != b.fullName && b.fullName != c.fullName {
        LexTransitive(a.fullName, b.fullName, c.fullName);
        LexTotal(a.fullName, b.fullName);
      }
    }
  }

  lemma MemberOrderTotal(members: map<Id, MemberRow>)
    ensures TotalOrder(MemberOrder(members))
  {
    var leq := MemberOrder(members);
    forall a, b ensures (leq(a, b) || leq(b, a)) && (leq(a, b) && leq(b, a) ==> a == b) {
      KeyTotal(KeyOf(members, a), KeyOf(members, b));
    }
    forall a, b, c | leq(a, b) && leq(b, c) ensures leq(a, c) {
      KeyTransitive(KeyOf(members, a), KeyOf(members, b), KeyOf(members, c));
    }
  }

  lemma ClassOrderTotal(classes: map<Id, ClassRow>)
    ensures TotalOrder(ClassOrder(classes))
  {
    LexTotalOrder();
    assert forall a, b :: LexLeq(a, b) || LexLeq(b, a);
    assert forall a, b :: LexLeq(a, b) && LexLeq(b, a) ==> a == b;
    assert forall a, b, c :: LexLeq(a, b) && LexLeq(b, c) ==> LexLeq(a, c);
  }

  // ---- Members ----

  function RosterOf(members: map<Id, MemberRow>, classId: Id): set<Id> {
    set m | m in members && members[m].classId == classId
  }

  /** The `where` clause of `listByClass`; `like` is the database's case-insensitive containment test. */
  function Filtered(members: map<Id, MemberRow>, classId: Id, filter: MemberFilter, like: (string, string) -> bool): set<Id> {
    set m | m in RosterOf(members, classId)
      && (filter.isActive.Some? ==> members[m].isActive == filter.isActive.value)
      && (filter.q.Some? && filter.q.value != "" ==> like(members[m].fullName, filter.q.value))
  }

  ghost function SortedMembers(members: map<Id, MemberRow>, ids: set<Id>): (sorted: seq<Id>)
    ensures forall id :: id in sorted <==> id in ids
  {
    MemberOrderTotal(members);
    SortBy(ids, MemberOrder(members))
  }

  lemma SortedMembersList(members: map<Id, MemberRow>, ids: set<Id>)
    ensures TotalOrder(MemberOrder(members))
    ensures Lists(SortedMembers(members, ids), ids, MemberOrder(members))
  {
    MemberOrderTotal(members);
  }

  /** `rows.map(Member.fromPrisma)`: throws at the first row that does not read back. */
  function ReadAll(members: map<Id, MemberRow>, ids: seq<Id>): Result<seq<Member>, Error>
    requires forall i | 0 <= i < |ids| :: ids[i] in members
  {
    if ids == [] then Ok([])
    else
      match FromRow(ids[0], members[ids[0]])
      case Err(e) => Err(e)
      case Ok(m) =>
        match ReadAll(members, ids[1..])
        case Err(e) => Err(e)
        case Ok(ms) => Ok([m] + ms)
  }

  ghost function RosterPage(
    members: map<Id, MemberRow>, classId: Id, filter: MemberFilter, like: (string, string) -> bool, page: nat, limit: nat)
    : Result<seq<Member>, Error>
    requires page >= 1
  {
    ReadAll(members, Page(SortedMembers(members, Filtered(members, classId, filter, like)), page, limit))
  }

  /** The first page of the unfiltered roster: what `addBulk` returns. */
  ghost function FirstOfRoster(members: map<Id, MemberRow>, classId: Id, limit: nat): Result<seq<Member>, Error> {
    ReadAll(members, Page(SortedMembers(members, RosterOf(members, classId)), 1, limit))
  }

  lemma {:induction false} ReadAllCanonical(members: map<Id, MemberRow>, ids: seq<Id>)
    requires forall i | 0 <= i < |ids| :: ids[i] in members && CanonicalPhone(members[ids[i]].phone)
    ensures ReadAll(members, ids).Ok?
    ensures |ReadAll(members, ids).value| == |ids|
    ensures forall i | 0 <= i < |ids| :: FromRow(ids[i], members[ids[i]]) == Ok(ReadAll(members, ids).value[i])
  {
    if ids != [] {
      CanonicalRowReads(ids[0], members[ids[0]]);
      ReadAllCanonical(members, ids[1..]);
    }
  }

  /** The pages of the filtered, sorted roster, for every limit: pages 1 to ceil(total / limit) are exactly
      its rows in order, each row is on exactly one of them, and every later page is empty. */
  lemma MemberPagesPartition(
    members: map<Id, MemberRow>, classId: Id, filter: MemberFilter, like: (string, string) -> bool,
    limit: nat, i: nat, page: nat)
    requires limit >= 1 && page >= 1
    ensures var ids := Filtered(members, classId, filter, like);
            var rows := SortedMembers(members, ids);
            && |rows| == |ids| && (forall m :: m in rows <==> m in ids)
            && FirstPages(rows, limit, PageCount(|ids|, limit)) == rows
            && (page > PageCount(|ids|, limit) ==> Page(rows, page, limit) == [])
            && (i < |rows| ==> (rows[i] in Page(rows, page, limit) <==> page == i / limit + 1))
  {
    var rows := SortedMembers(members, Filtered(members, classId, filter, like));
    PagesPartition(rows, limit, PageCount(|rows|, limit) + 1);
    if page > PageCount(|rows|, limit) {
      PagesPartition(rows, limit, page);
    }
    if i < |rows| {
      EachRowOnOnePage(rows, i, limit, page);
    }
  }

  /** The members a caller wants listed: those of the class with the given flag, if one is given, and with a name like
      the given text, if one is given. */
  ghost function Wanted(members: map<Id, MemberRow>, classId: Id, filter: MemberFilter, like: (string, string) -> bool): set<Id> {
    set id | id in members && members[id].classId == classId
      && (filter.isActive.Some? ==> members[id].isActive == filter.isActive.value)
      && (filter.q.Some? && filter.q.value != "" ==> like(members[id].fullName, filter.q.value))
  }

  lemma WantedAreFiltered(members: map<Id, MemberRow>, classId: Id, filter: MemberFilter, like: (string, string) -> bool)
    ensures Wanted(members, classId, filter, like) == Filtered(members, classId, filter, like)
  {
  }

  /** What a caller of the member list gets: the wanted rows of the class, active ones first and then by name, from
      the first row of the page to its last, each as it is stored; and how many wanted rows there are. */
  ghost predicate MemberListPromise(
    members: map<Id, MemberRow>, classId: Id, filter: MemberFilter, like: (string, string) -> bool,
    page: nat, limit: nat, items: seq<Member>, total: nat)
    requires page >= 1
  {
    var wanted := Wanted(members, classId, filter, like);
    && total == |wanted|
    && PageByRank(wanted, (a, b) => Ranks(KeyOf(members, a), KeyOf(members, b)), page, limit, IdsOf(items))
    && (forall i | 0 <= i < |items| ::
          items[i].id in members && FromRow(items[i].id, members[items[i].id]) == Ok(items[i]))
    && RosterOrdered(items)
  }

  function IdsOf(items: seq<Member>): (ids: seq<Id>)
    ensures |ids| == |items| && forall i | 0 <= i < |items| :: ids[i] == items[i].id
  {
    seq(|items|, i requires 0 <= i < |items| => items[i].id)
  }

  /** No soft-deleted member stands before an active one, and among equals in that the names ascend. */
  ghost predicate RosterOrdered(items: seq<Member>) {
    forall i, j | 0 <= i < j < |items| ::
      && (items[i].isActive || !items[j].isActive)
      && (items[i].isActive == items[j].isActive ==>
            || Precedes(items[i].fullName, items[j].fullName)
            || (items[i].fullName == items[j].fullName && Precedes(items[i].id, items[j].id)))
  }

  lemma {:induction false} ReadAllRows(members: map<Id, MemberRow>, ids: seq<Id>)
    requires forall i | 0 <= i < |ids| :: ids[i] in members
    requires ReadAll(members, ids).Ok?
    ensures |ReadAll(members, ids).value| == |ids|
    ensures forall i | 0 <= i < |ids| :: FromRow(ids[i], members[ids[i]]) == Ok(ReadAll(members, ids).value[i])
  {
    if ids != [] {
      ReadAllRows(members, ids[1..]);
    }
  }

  /** A read row carries the id, flag and name it is sorted by. */
  lemma ReadKeeps(members: map<Id, MemberRow>, id: Id)
    requires id in members && FromRow(id, members[id]).Ok?
    ensures var m := FromRow(id, members[id]).value;
            m.id == id && KeyOf(members, id) == MemberKey(m.isActive, m.fullName, m.id)
  {
  }

  /** Each row ranks before all that follow it. */
  ghost predicate Ranked(members: map<Id, MemberRow>, rows: seq<Id>) {
    forall i, j | 0 <= i < j < |rows| :: Ranks(KeyOf(members, rows[i]), KeyOf(members, rows[j]))
  }

  lemma SortedRanked(members: map<Id, MemberRow>, ids: set<Id>)
    ensures Ranked(members, SortedMembers(members, ids))
  {
    var sorted := SortedMembers(members, ids);
    SortedMembersList(members, ids);
    forall i, j | 0 <= i < j < |sorted| ensures Ranks(KeyOf(members, sorted[i]), KeyOf(members, sorted[j])) {
      assert MemberOrder(members)(sorted[i], sorted[j]) && sorted[i] != sorted[j];
      KeyMeans(KeyOf(members, sorted[i]), KeyOf(members, sorted[j]));
    }
  }

  lemma PageRanked(members: map<Id, MemberRow>, rows: seq<Id>, page: nat, limit: nat)
    requires page >= 1 && Ranked(members, rows)
    ensures Ranked(members, Page(rows, page, limit))
  {
    var part := Page(rows, page, limit);
    forall i, j | 0 <= i < j < |part| ensures Ranks(KeyOf(members, part[i]), KeyOf(members, part[j])) {
      PageAt(rows, page, limit, i);
      PageAt(rows, page, limit, j);
    }
  }

  lemma PageRanks(members: map<Id, MemberRow>, ids: set<Id>, page: nat, limit: nat)
    requires page >= 1
    ensures PageByRank(ids, (a, b) => Ranks(KeyOf(members, a), KeyOf(members, b)), page, limit,
                       Page(SortedMembers(members, ids), page, limit))
  {
    MemberOrderTotal(members);
    forall a, b
      ensures Ranks(KeyOf(members, a), KeyOf(members, b)) <==> a != b && MemberOrder(members)(a, b)
    {
      KeyMeans(KeyOf(members, a), KeyOf(members, b));
      NoSelfRank(KeyOf(members, a));
    }
    PageHasRanks(ids, MemberOrder(members), (a, b) => Ranks(KeyOf(members, a), KeyOf(members, b)), page, limit);
  }

  lemma NoSelfRank(k: MemberKey)
    ensures !Ranks(k, k)
  {
    PrecedesNotItself(k.fullName);
    PrecedesNotItself(k.id);
  }

  /** Reading ranked rows gives ordered members. */
  lemma ReadOrdered(members: map<Id, MemberRow>, rows: seq<Id>, items: seq<Member>)
    requires forall i | 0 <= i < |rows| :: rows[i] in members
    requires Ranked(members, rows) && ReadAll(members, rows) == Ok(items)
    ensures RosterOrdered(items) && IdsOf(items) == rows
    ensures forall i | 0 <= i < |items| ::
              items[i].id in members && FromRow(items[i].id, members[items[i].id]) == Ok(items[i])
  {
    ReadAllRows(members, rows);
    forall i | 0 <= i < |items|
      ensures rows[i] == items[i].id && KeyOf(members, rows[i]) == MemberKey(items[i].isActive, items[i].fullName, items[i].id)
    {
      ReadKeeps(members, rows[i]);
    }
    forall i, j | 0 <= i < j < |items|
      ensures Ranks(MemberKey(items[i].isActive, items[i].fullName, items[i].id),
                    MemberKey(items[j].isActive, items[j].fullName, items[j].id))
    {
      assert Ranks(KeyOf(members, rows[i]), KeyOf(members, rows[j]));
    }
  }

  lemma PageReadsOrdered(members: map<Id, MemberRow>, ids: set<Id>, page: nat, limit: nat, items: seq<Member>)
    requires page >= 1 && ids <= members.Keys
    requires ReadAll(members, Page(SortedMembers(members, ids), page, limit)) == Ok(items)
    ensures RosterOrdered(items) && IdsOf(items) == Page(SortedMembers(members, ids), page, limit)
    ensures forall i | 0 <= i < |items| ::
              items[i].id in members && FromRow(items[i].id, members[items[i].id]) == Ok(items[i])
  {
    var rows := Page(SortedMembers(members, ids), page, limit);
    SortedRanked(members, ids);
    PageRanked(members, SortedMembers(members, ids), page, limit);
    ReadOrdered(members, rows, items);
  }

  lemma RosterPageReads(
    db: Db, classId: Id, filter: MemberFilter, like: (string, string) -> bool, page: nat, limit: nat)
    requires page >= 1
    ensures PhonesCanonical(db) ==> RosterPage(db.members, classId, filter, like, page, limit).Ok?
  {
    if PhonesCanonical(db) {
      ReadAllCanonical(db.members, Page(SortedMembers(db.members, Filtered(db.members, classId, filter, like)), page, limit));
    }
  }

  lemma MemberListKeepsPromise(
    members: map<Id, MemberRow>, classId: Id, filter: MemberFilter, like: (string, string) -> bool,
    page: nat, limit: nat, items: seq<Member>)
    requires page >= 1 && RosterPage(members, classId, filter, like, page, limit) == Ok(items)
    ensures MemberListPromise(members, classId, filter, like, page, limit, items,
                              |Filtered(members, classId, filter, like)|)
  {
    var ids := Filtered(members, classId, filter, like);
    PageReadsOrdered(members, ids, page, limit, items);
    PageRanks(members, ids, page, limit);
    WantedAreFiltered(members, classId, filter, like);
  }

  // ---- Classes ----

  function FilteredClasses(classes: map<Id, ClassRow>, filter: ClassFilter): set<Id> {
    set c | c in classes
      && (filter.level.Some? ==> classes[c].level == filter.level.value)
      && (filter.leaderId.Some? && filter.leaderId.value != "" ==> classes[c].leaderId == filter.leaderId.value)
  }

  ghost function SortedClasses(classes: map<Id, ClassRow>, ids: set<Id>): seq<Id> {
    ClassOrderTotal(classes);
    SortBy(ids, ClassOrder(classes))
  }

  lemma ClassPagesPartition(classes: map<Id, ClassRow>, filter: ClassFilter, limit: nat, i: nat, page: nat)
    requires limit >= 1 && page >= 1
    ensures var ids := FilteredClasses(classes, filter);
            var rows := SortedClasses(classes, ids);
            && |rows| == |ids| && (forall c :: c in rows <==> c in ids)
            && FirstPages(rows, limit, PageCount(|ids|, limit)) == rows
            && (page > PageCount(|ids|, limit) ==> Page(rows, page, limit) == [])
            && (i < |rows| ==> (rows[i] in Page(rows, page, limit) <==> page == i / limit + 1))
  {
    var rows := SortedClasses(classes, FilteredClasses(classes, filter));
    PagesPartition(rows, limit, PageCount(|rows|, limit) + 1);
    if page > PageCount(|rows|, limit) {
      PagesPartition(rows, limit, page);
    }
    if i < |rows| {
      EachRowOnOnePage(rows, i, limit, page);
    }
  }

  /** At most one class has a given leader, so a leader filter selects at most one. */
  lemma LeaderFilterIsUnique(classes: map<Id, ClassRow>, filter: ClassFilter)
    requires UniqueLeaders(classes) && filter.leaderId.Some? && filter.leaderId.value != ""
    ensures |FilteredClasses(classes, filter)| <= 1
  {
    var s := FilteredClasses(classes, filter);
    if s != {} {
      var c :| c in s;
      assert s == {c};
    }
  }

  /** What a caller of the class list gets: the classes of the wanted level and leader, newest first, from the first
      row of the page to its last; and how many such classes there are. */
  ghost predicate ClassListPromise(
    classes: map<Id, ClassRow>, filter: ClassFilter, page: nat, limit: nat, ids: seq<Id>, total: nat)
    requires page >= 1
  {
    var wanted := set c | c in classes
      && (filter.level.Some? ==> classes[c].level == filter.level.value)
      && (filter.leaderId.Some? && filter.leaderId.value != "" ==> classes[c].leaderId == filter.leaderId.value);
    && total == |wanted|
    && PageByRank(wanted, (a, b) => a in classes && b in classes && RanksNewer(classes, a, b), page, limit, ids)
    && (forall i | 0 <= i < |ids| :: ids[i] in classes)
    && (forall i, j | 0 <= i < j < |ids| :: classes[ids[i]].createdAt >= classes[ids[j]].createdAt)
  }

  lemma ClassPageRanks(classes: map<Id, ClassRow>, all: set<Id>, page: nat, limit: nat)
    requires page >= 1 && all <= classes.Keys
    ensures PageByRank(all, (a, b) => a in classes && b in classes && RanksNewer(classes, a, b), page, limit,
                       Page(SortedClasses(classes, all), page, limit))
  {
    ClassOrderTotal(classes);
    var before := (a, b) => a in classes && b in classes && RanksNewer(classes, a, b);
    forall a, b | a in all && b in all ensures before(a, b) <==> a != b && ClassOrder(classes)(a, b) {
      NewerMeans(classes, a, b);
      PrecedesNotItself(a);
    }
    PageHasRanks(all, ClassOrder(classes), before, page, limit);
  }

  lemma ClassPageDescends(classes: map<Id, ClassRow>, all: set<Id>, page: nat, limit: nat, i: nat, j: nat)
    requires page >= 1 && all <= classes.Keys && i < j < |Page(SortedClasses(classes, all), page, limit)|
    ensures var rows := Page(SortedClasses(classes, all), page, limit);
            rows[i] in classes && rows[j] in classes && classes[rows[i]].createdAt >= classes[rows[j]].createdAt
  {
    ClassOrderTotal(classes);
    var sorted, skip := SortedClasses(classes, all), (page - 1) * limit;
    PageAt(sorted, page, limit, i);
    PageAt(sorted, page, limit, j);
    assert sorted[skip + i] in all && sorted[skip + j] in all;
    assert ClassOrder(classes)(sorted[skip + i], sorted[skip + j]);
  }

  lemma ClassListKeepsPromise(classes: map<Id, ClassRow>, filter: ClassFilter, page: nat, limit: nat)
    requires page >= 1
    ensures var all := FilteredClasses(classes, filter);
            ClassListPromise(classes, filter, page, limit, Page(SortedClasses(classes, all), page, limit), |all|)
  {
    var all := FilteredClasses(classes, filter);
    var rows := Page(SortedClasses(classes, all), page, limit);
    ClassPageRanks(classes, all, page, limit);
    forall i, j | 0 <= i < j < |rows|
      ensures rows[i] in classes && rows[j] in classes && classes[rows[i]].createdAt >= classes[rows[j]].createdAt
    {
      ClassPageDescends(classes, all, page, limit, i, j);
    }
  }
}
