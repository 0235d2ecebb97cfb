/** Service calls as a concurrent step machine. Every store call of a service is one step on the shared tables;
    between two steps of one call any number of steps of other calls may run. */
module Machine {
  import opened Basics
  import opened Text
  import opened Tables
  import opened Entities
  import opened Listing

  const SUPER_ADMIN := "SUPER_ADMIN"

  /** `req.user` as authentication attaches it: the role is the raw string of the user row. */
  datatype AuthUser = AuthUser(id: Id, role: Option<string>)

  datatype Request =
    | Assign(classId: Id, userIds: seq<Id>)
    | Unassign(classId: Id, userId: Id)
    | CreateClass(name: string, level: Level, leaderId: Id)
    | ChangeClass(classId: Id, patch: ClassPatch)
    | RemoveClass(classId: Id)
    | AddOne(classId: Id, raw: RawMember)
    | AddBulk(classId: Id, raws: seq<RawMember>)
    | ChangeMember(memberId: Id, input: MemberInput)
    | SetActive(memberId: Id, isActive: bool)
    | Enter(user: Option<AuthUser>, header: Option<string>)

  datatype Outcome =
    | Assigned(inserted: nat, already: nat)
    | Completed
    | ClassResult(classId: Id, klass: ClassRow)
    | MemberResult(member: Member)
    | BulkAdded(created: nat, items: seq<Member>)
    | Admitted(activeClassId: Id)
    | Threw(error: Error)

  /** Where a call stands: which store call it makes next, with the locals it has gathered. */
  datatype Phase =
    | Start
    | CheckUsers
    | PreReading(seen: seq<Option<bool>>)
    | Inserting(existing: seq<bool>, i: nat)
    | CheckMapping
    | CheckLeader
    | Writing
    | WritingRows(rows: seq<MemberRow>)
    | WritingPatch(patch: MemberPatch)
    | Refetching(created: nat)
    | Finished(outcome: Outcome)

  /** A call: its request, its phase, and the two counters of `assign`. */
  datatype Call = Call(req: Request, phase: Phase, inserted: nat, already: nat)

  datatype State = State(db: Db, calls: seq<Call>)

  /** One instant: a call takes its next step, or a new user signs up. `pick` chooses among the concurrent
      pre-reads; `ids` and `now` are what the id generator and the clock would return. */
  datatype Event = Turn(call: nat, pick: nat, ids: seq<Id>, now: nat) | SignUp(user: Id)

  function NewCall(req: Request): Call {
    Call(req, Start, 0, 0)
  }

  function Throw(c: Call, e: Error): Call {
    c.(phase := Finished(Threw(e)))
  }

  function Return(c: Call, o: Outcome): Call {
    c.(phase := Finished(o))
  }

  // ---- The write a call issues next ----

  function Zip(ids: seq<Id>, rows: seq<MemberRow>): seq<NewMember>
    requires |ids| == |rows|
  {
    seq(|rows|, i requires 0 <= i < |rows| => NewMember(ids[i], rows[i]))
  }

  function PendingWrite(c: Call, e: Event): Option<Write>
    requires e.Turn?
  {
    match c.phase
    case Inserting(existing, i) =>
      if c.req.Assign? && i < |existing| && i < |c.req.userIds| && !existing[i]
      then Some(InsertServant(Mapping(c.req.userIds[i], c.req.classId)))
      else None
    case Writing =>
      (match c.req
       case Unassign(classId, userId) => Some(DeleteServant(Mapping(userId, classId)))
       case CreateClass(name, level, leaderId) =>
         if e.ids == [] then None else Some(InsertClass(e.ids[0], ClassRow(name, level, leaderId, e.now)))
       case ChangeClass(classId, patch) => Some(UpdateClass(classId, patch))
       case RemoveClass(classId) => Some(DeleteClass(classId))
       case SetActive(memberId, isActive) => Some(UpdateMember(memberId, MemberPatch(None, None, Some(isActive))))
       case _ => None)
    case WritingRows(rows) =>
      if c.req.AddOne? && |rows| == 1 && e.ids != [] then Some(InsertMember(NewMember(e.ids[0], rows[0])))
      else if c.req.AddBulk? && |rows| == |e.ids| then Some(InsertMembers(Zip(e.ids, rows)))
      else None
    case WritingPatch(patch) =>
      if c.req.ChangeMember? then Some(UpdateMember(c.req.memberId, patch)) else None
    case _ => None
  }

  function ReturnMember(c: Call, id: Id, row: MemberRow): Call {
    match FromRow(id, row)
    case Ok(m) => Return(c, MemberResult(m))
    case Err(e) => Throw(c, e)
  }

  /** The insert loop of `assign`: a duplicate counts as already assigned, any other error escapes. */
  function AfterInsert(c: Call, reply: Reply): Call
    requires c.phase.Inserting?
  {
    match reply
    case Done(_) => c.(phase := Inserting(c.phase.existing, c.phase.i + 1), inserted := c.inserted + 1)
    case Failed(P2002(_)) => c.(phase := Inserting(c.phase.existing, c.phase.i + 1), already := c.already + 1)
    case Failed(e) => Throw(c, Store(e))
  }

  /** Where a call stands once its write has answered. */
  function AfterWrite(c: Call, w: Write, after: Db, reply: Reply): Call {
    if c.phase.Inserting? then AfterInsert(c, reply)
    else
      match reply
      case Failed(e) => Throw(c, Store(e))
      case Done(n) =>
        match w
        case InsertClass(id, row) => Return(c, ClassResult(id, row))
        case UpdateClass(id, _) => if id in after.classes then Return(c, ClassResult(id, after.classes[id])) else c
        case InsertMember(m) => ReturnMember(c, m.id, m.row)
        case InsertMembers(_) => c.(phase := Refetching(n))
        case UpdateMember(id, _) => if id in after.members then ReturnMember(c, id, after.members[id]) else c
        case _ => Return(c, Completed)
  }

  // ---- The reads and local steps of a call ----

  /** The first id that is not a known user. */
  function FirstUnknown(users: set<Id>, ids: seq<Id>): Option<Id> {
    if ids == [] then None
    else if ids[0] !in users then Some(ids[0])
    else FirstUnknown(users, ids[1..])
  }

  /** The id at index i is unknown, and every id before it is known. */
  ghost predicate IsFirstUnknown(users: set<Id>, ids: seq<Id>, i: nat)
    requires i < |ids|
  {
    ids[i] !in users && forall j | 0 <= j < i :: ids[j] in users
  }

  function HeaderClass(header: Option<string>): Option<Id> {
    if header.Some? && Trim(header.value) != "" then Some(Trim(header.value)) else None
  }

  /** A header names the id that stands between its white space; a blank or absent one names none. */
  lemma HeaderNamesId(before: string, id: string, after: string)
    requires forall i | 0 <= i < |before| :: before[i] in WHITE_SPACE
    requires forall i | 0 <= i < |after| :: after[i] in WHITE_SPACE
    ensures HeaderClass(None) == None && HeaderClass(Some(before)) == None
    ensures id != "" && id[0] !in WHITE_SPACE && id[|id| - 1] !in WHITE_SPACE ==>
              HeaderClass(Some(before + (id + after))) == Some(id)
  {
    forall i | 0 <= i < |before| ensures IsWhite(before[i]) {
      WhiteCharacters(before[i]);
    }
    TrimEmptyIffBlank(before);
    if id != "" && id[0] !in WHITE_SPACE && id[|id| - 1] !in WHITE_SPACE {
      TrimPadded(before, id, after);
    }
  }

  /** The tenant guard up to and including its first read. */
  function BeginEnter(c: Call, db: Db): Call
    requires c.req.Enter?
  {
    if c.req.user.None? then Throw(c, Unauthorized)
    else
      match HeaderClass(c.req.header)
      case None => Throw(c, Forbidden(MissingHeader))
      case Some(classId) =>
        var user := c.req.user.value;
        if user.role == Some(SUPER_ADMIN) then Return(c, Admitted(classId))
        else if classId !in db.classes then Throw(c, Forbidden(NoSuchClass))
        else if db.classes[classId].leaderId == user.id then Return(c, Admitted(classId))
        else c.(phase := CheckMapping)
  }

  /** The first read of each service call, and the local work up to its next store call. */
  function Begin(c: Call, db: Db): Call {
    match c.req
    case Assign(classId, _) => if classId in db.classes then c.(phase := CheckUsers) else Throw(c, ClassNotFound(classId))
    case Unassign(classId, _) =>
      if classId in db.classes then c.(phase := CheckMapping) else Throw(c, ClassNotFound(classId))
    case CreateClass(_, _, leaderId) =>
      if leaderId in db.users then c.(phase := Writing) else Throw(c, LeaderMustBeAUser(leaderId))
    case ChangeClass(classId, patch) =>
      if classId !in db.classes then Throw(c, ClassNotFound(classId))
      else if patch.leaderId.Some? && patch.leaderId.value != "" then c.(phase := CheckLeader)
      else c.(phase := Writing)
    case RemoveClass(classId) =>
      if classId in db.classes then c.(phase := Writing) else Throw(c, ClassNotFound(classId))
    case AddOne(classId, raw) =>
      if classId !in db.classes then Throw(c, ClassNotFound(classId))
      else (match RowFor(classId, raw) case Ok(row) => c.(phase := WritingRows([row])) case Err(e) => Throw(c, e))
    case AddBulk(classId, raws) =>
      if classId !in db.classes then Throw(c, ClassNotFound(classId))
      else (match RowsFor(classId, raws) case Ok(rows) => c.(phase := WritingRows(rows)) case Err(e) => Throw(c, e))
    case ChangeMember(memberId, input) =>
      if memberId !in db.members then Throw(c, MemberNotFound(memberId))
      else
        (match FromRow(memberId, db.members[memberId])
         case Err(e) => Throw(c, e)
         case Ok(_) =>
           match PatchFor(input) case Ok(patch) => c.(phase := WritingPatch(patch)) case Err(e) => Throw(c, e))
    case SetActive(memberId, _) =>
      if memberId !in db.members then Throw(c, MemberNotFound(memberId))
      else (match FromRow(memberId, db.members[memberId]) case Ok(_) => c.(phase := Writing) case Err(e) => Throw(c, e))
    case Enter(_, _) => BeginEnter(c, db)
  }

  predicate AllRead(seen: seq<Option<bool>>) {
    forall j | 0 <= j < |seen| :: seen[j].Some?
  }

  /** The pre-read that a step performs: one that has not answered yet. */
  predicate Reads(c: Call, pick: nat) {
    && c.req.Assign? && c.phase.PreReading?
    && pick < |c.phase.seen| && pick < |c.req.userIds|
    && c.phase.seen[pick].None?
  }

  /** Where a call stands after a step that writes nothing. */
  ghost function AfterRead(c: Call, db: Db, pick: nat): Call {
    match c.phase
    case Start => Begin(c, db)
    case CheckUsers =>
      if !c.req.Assign? then c
      else
        (match FirstUnknown(db.users, c.req.userIds)
         case Some(id) => Throw(c, ServantMustBeAUser(id))
         case None => c.(phase := PreReading(seq(|c.req.userIds|, _ => None))))
    case PreReading(seen) =>
      if Reads(c, pick)
      then c.(phase := PreReading(seen[pick := Some(Mapping(c.req.userIds[pick], c.req.classId) in db.servants)]))
      else if AllRead(seen)
      then c.(phase := Inserting(seq(|seen|, j requires 0 <= j < |seen| && seen[j].Some? => seen[j].value), 0))
      else c
    case Inserting(existing, i) =>
      if i < |existing| then
        if existing[i] then c.(phase := Inserting(existing, i + 1), already := c.already + 1) else c
      else Return(c, Assigned(c.inserted, c.already))
    case CheckMapping =>
      (match c.req
       case Unassign(classId, userId) =>
         if Mapping(userId, classId) in db.servants then c.(phase := Writing) else Return(c, Completed)
       case Enter(Some(user), header) =>
         (match HeaderClass(header)
          case None => c
          case Some(classId) =>
            if Mapping(user.id, classId) in db.servants then Return(c, Admitted(classId))
            else Throw(c, Forbidden(NoAccess)))
       case _ => c)
    case CheckLeader =>
      if c.req.ChangeClass? && c.req.patch.leaderId.Some? then
        if c.req.patch.leaderId.value in db.users then c.(phase := Writing)
        else Throw(c, LeaderMustBeAUser(c.req.patch.leaderId.value))
      else c
    case Refetching(created) =>
      if c.req.AddBulk? then
        (match FirstOfRoster(db.members, c.req.classId, |c.req.raws|)
         case Ok(items) => Return(c, BulkAdded(created, items))
         case Err(e) => Throw(c, e))
      else c
    case _ => c
  }

  // ---- Steps and runs ----

  ghost function TurnOf(db: Db, c: Call, e: Event): (Db, Call)
    requires e.Turn?
  {
    match PendingWrite(c, e)
    case Some(w) =>
      var (after, reply) := Apply(db, w);
      (after, AfterWrite(c, w, after, reply))
    case None => (db, AfterRead(c, db, e.pick))
  }

  ghost function Step(s: State, e: Event): State {
    match e
    case SignUp(user) => s.(db := s.db.(users := s.db.users + {user}))
    case Turn(k, _, _, _) =>
      if k >= |s.calls| then s
      else
        var (db, c) := TurnOf(s.db, s.calls[k], e);
        State(db, s.calls[k := c])
  }

  /** The ids an event brings are new when its call uses them for a row. */
  ghost predicate Possible(s: State, e: Event) {
    e.Turn? && e.call < |s.calls| && PendingWrite(s.calls[e.call], e).Some? ==>
      FreshFor(s.db, PendingWrite(s.calls[e.call], e).value)
  }

  ghost function Run(s: State, es: seq<Event>): (r: State)
    ensures |r.calls| == |s.calls|
  {
    if es == [] then s else Step(Run(s, es[..|es| - 1]), es[|es| - 1])
  }

  ghost predicate Schedule(s: State, es: seq<Event>) {
    es == [] || (Schedule(s, es[..|es| - 1]) && Possible(Run(s, es[..|es| - 1]), es[|es| - 1]))
  }

  /** No call has begun yet: where a run starts. */
  ghost predicate NothingBegun(s: State) {
    forall k | 0 <= k < |s.calls| :: s.calls[k] == NewCall(s.calls[k].req)
  }

  // ---- What holds of a call in every run ----

  /** The locals of a call fit its request and what its earlier reads have established. */
  ghost predicate Fits(db: Db, c: Call) {
    match c.phase
    case PreReading(seen) =>
      c.req.Assign? && |seen| == |c.req.userIds| && (forall j | 0 <= j < |seen| :: c.req.userIds[j] in db.users)
    case Inserting(existing, i) =>
      && c.req.Assign? && |existing| == |c.req.userIds| && i <= |existing|
      && forall j | 0 <= j < |existing| :: c.req.userIds[j] in db.users
    case CheckUsers => c.req.Assign?
    case CheckLeader => c.req.ChangeClass? && c.req.patch.leaderId.Some?
    case CheckMapping =>
      c.req.Unassign? || (c.req.Enter? && c.req.user.Some? && HeaderClass(c.req.header).Some?)
    case Writing =>
      (match c.req
       case CreateClass(_, _, leaderId) => leaderId in db.users
       case ChangeClass(_, patch) => patch.leaderId.Some? && patch.leaderId.value != "" ==> patch.leaderId.value in db.users
       case Unassign(_, _) => true
       case RemoveClass(_) => true
       case SetActive(_, _) => true
       case _ => false)
    case WritingRows(rows) =>
      && (|| (c.req.AddOne? && |rows| == 1 && RowFor(c.req.classId, c.req.raw) == Ok(rows[0]))
          || (c.req.AddBulk? && RowsFor(c.req.classId, c.req.raws) == Ok(rows)))
      && forall i | 0 <= i < |rows| :: rows[i].classId == c.req.classId && CanonicalPhone(rows[i].phone)
    case WritingPatch(patch) =>
      && c.req.ChangeMember? && PatchFor(c.req.input) == Ok(patch)
      && (patch.phone.Some? ==> CanonicalPhone(patch.phone.value))
    case Refetching(_) => c.req.AddBulk?
    case _ => true
  }

  ghost predicate AllFit(s: State) {
    forall k | 0 <= k < |s.calls| :: Fits(s.db, s.calls[k])
  }

  lemma {:induction false} NoneUnknown(users: set<Id>, ids: seq<Id>)
    ensures FirstUnknown(users, ids).None? <==> forall j | 0 <= j < |ids| :: ids[j] in users
    ensures FirstUnknown(users, ids).Some? ==>
              exists i | 0 <= i < |ids| :: FirstUnknown(users, ids).value == ids[i] && IsFirstUnknown(users, ids, i)
  {
    if ids != [] {
      NoneUnknown(users, ids[1..]);
      assert forall j | 1 <= j < |ids| :: ids[j] == ids[1..][j - 1];
      if ids[0] !in users {
        assert IsFirstUnknown(users, ids, 0);
      } else if FirstUnknown(users, ids[1..]).Some? {
        var i :| 0 <= i < |ids[1..]| && FirstUnknown(users, ids[1..]).value == ids[1..][i] && IsFirstUnknown(users, ids[1..], i);
        UnknownNext(users, ids, i);
      } else {
        assert forall j | 0 <= j < |ids[1..]| :: ids[1..][j] in users;
      }
    }
  }

  lemma UnknownNext(users: set<Id>, ids: seq<Id>, i: nat)
    requires ids != [] && ids[0] in users && i < |ids[1..]| && IsFirstUnknown(users, ids[1..], i)
    ensures IsFirstUnknown(users, ids, i + 1) && ids[i + 1] == ids[1..][i]
  {
    forall j | 0 <= j < i + 1 ensures ids[j] in users {
      if j > 0 {
        assert ids[j] == ids[1..][j - 1];
      }
    }
  }

  lemma RowsCanonical(classId: Id, raws: seq<RawMember>)
    requires RowsFor(classId, raws).Ok?
    ensures forall i | 0 <= i < |RowsFor(classId, raws).value| ::
              RowsFor(classId, raws).value[i].classId == classId && CanonicalPhone(RowsFor(classId, raws).value[i].phone)
  {
    RowsForAll(classId, raws);
    var rows := RowsFor(classId, raws).value;
    forall i | 0 <= i < |rows| ensures rows[i].classId == classId && CanonicalPhone(rows[i].phone) {
      assert RowFor(classId, raws[i]) == Ok(rows[i]);
    }
  }

  /** A call keeps fitting through its own steps. */
  lemma BeginFits(db: Db, c: Call)
    ensures Fits(db, Begin(c, db))
  {
    if c.req.AddBulk? && RowsFor(c.req.classId, c.req.raws).Ok? {
      RowsCanonical(c.req.classId, c.req.raws);
    }
  }

  lemma ReadFits(db: Db, c: Call, pick: nat)
    requires Fits(db, c)
    ensures Fits(db, AfterRead(c, db, pick))
  {
    if c.phase.Start? {
      BeginFits(db, c);
    } else if c.phase.CheckUsers? {
      NoneUnknown(db.users, c.req.userIds);
    }
  }

  lemma WritesKeepUsers(db: Db, w: Write)
    ensures Apply(db, w).0.users == db.users
  {
  }

  lemma AfterWriteFits(db: Db, c: Call, w: Write, after: Db, reply: Reply, e: Event)
    requires e.Turn? && Fits(db, c) && PendingWrite(c, e) == Some(w) && after.users == db.users
    ensures Fits(after, AfterWrite(c, w, after, reply))
  {
  }

  lemma WriteFits(db: Db, c: Call, e: Event)
    requires e.Turn? && Fits(db, c) && PendingWrite(c, e).Some?
    ensures Fits(TurnOf(db, c, e).0, TurnOf(db, c, e).1)
    ensures TurnOf(db, c, e).0.users == db.users
  {
    var w := PendingWrite(c, e).value;
    WritesKeepUsers(db, w);
    AfterWriteFits(db, c, w, Apply(db, w).0, Apply(db, w).1, e);
  }

  lemma FitsGrows(db: Db, after: Db, c: Call)
    requires Fits(db, c) && db.users <= after.users
    ensures Fits(after, c)
  {
  }

  lemma StepFits(s: State, e: Event)
    requires AllFit(s)
    ensures AllFit(Step(s, e))
    ensures s.db.users <= Step(s, e).db.users
  {
    var after := Step(s, e);
    if e.Turn? && e.call < |s.calls| {
      var c := s.calls[e.call];
      if PendingWrite(c, e).Some? {
        WriteFits(s.db, c, e);
      } else {
        ReadFits(s.db, c, e.pick);
      }
    }
    forall k | 0 <= k < |after.calls| ensures Fits(after.db, after.calls[k]) {
      if !(e.Turn? && k == e.call) {
        FitsGrows(s.db, after.db, s.calls[k]);
      }
    }
  }

  // ---- Invariants over every run ----

  lemma StepConsistent(s: State, e: Event)
    requires Consistent(s.db) && Possible(s, e)
    ensures Consistent(Step(s, e).db)
  {
    if e.Turn? && e.call < |s.calls| && PendingWrite(s.calls[e.call], e).Some? {
      WriteKeepsConsistent(s.db, PendingWrite(s.calls[e.call], e).value);
    }
  }

  /** Calls neither come nor go nor change their request, and a step moves only the call that takes it. */
  lemma StepKeepsCalls(s: State, e: Event)
    ensures |Step(s, e).calls| == |s.calls|
    ensures forall k | 0 <= k < |s.calls| :: Step(s, e).calls[k].req == s.calls[k].req
    ensures forall k | 0 <= k < |s.calls| && !(e.Turn? && e.call == k) :: Step(s, e).calls[k] == s.calls[k]
  {
  }

  lemma {:induction false} RunKeepsCalls(s: State, es: seq<Event>)
    ensures forall k | 0 <= k < |s.calls| :: Run(s, es).calls[k].req == s.calls[k].req
  {
    if es != [] {
      var before := Run(s, es[..|es| - 1]);
      RunKeepsCalls(s, es[..|es| - 1]);
      StepKeepsCalls(before, es[|es| - 1]);
    }
  }

  lemma {:induction false} RunFits(s: State, es: seq<Event>)
    requires AllFit(s)
    ensures AllFit(Run(s, es))
  {
    if es != [] {
      RunFits(s, es[..|es| - 1]);
      StepFits(Run(s, es[..|es| - 1]), es[|es| - 1]);
    }
  }

  /** In every run every key, unique column and foreign key of the roster tables holds at every instant. */
  lemma {:induction false} RunConsistent(s: State, es: seq<Event>)
    requires Consistent(s.db) && AllFit(s) && Schedule(s, es)
    ensures Consistent(Run(s, es).db) && AllFit(Run(s, es))
  {
    if es != [] {
      var before := Run(s, es[..|es| - 1]);
      RunConsistent(s, es[..|es| - 1]);
      StepConsistent(before, es[|es| - 1]);
      StepFits(before, es[|es| - 1]);
    }
  }

  lemma FinishedStays(db: Db, c: Call, e: Event)
    requires e.Turn? && c.phase.Finished?
    ensures TurnOf(db, c, e) == (db, c)
  {
  }

  /** The step of a run at which a call finishes. */
  lemma {:induction false} FinishingStep(s: State, es: seq<Event>, k: nat) returns (t: nat)
    requires k < |s.calls| && !s.calls[k].phase.Finished? && Run(s, es).calls[k].phase.Finished?
    ensures t < |es| && es[t].Turn? && es[t].call == k
    ensures !Run(s, es[..t]).calls[k].phase.Finished?
    ensures TurnOf(Run(s, es[..t]).db, Run(s, es[..t]).calls[k], es[t]).1 == Run(s, es).calls[k]
  {
    var n := |es| - 1;
    var before := Run(s, es[..n]);
    StepKeepsCalls(before, es[n]);
    if es[n].Turn? && es[n].call == k && !before.calls[k].phase.Finished? {
      t := n;
    } else {
      if es[n].Turn? && es[n].call == k {
        FinishedStays(before.db, before.calls[k], es[n]);
      }
      t := FinishingStep(s, es[..n], k);
      assert es[..n][..t] == es[..t];
    }
  }
}
