/** Who may act in a class: the tenant guard among running service calls, and what no run can undo
    (src/common/guards/class-tenant.guard.ts). */
module Access {
  import opened Basics
  import opened Text
  import opened Tables
  import opened Entities
  import opened Machine

  predicate Leads(db: Db, userId: Id, classId: Id) {
    classId in db.classes && db.classes[classId].leaderId == userId
  }

  predicate Mapped(db: Db, userId: Id, classId: Id) {
    Mapping(userId, classId) in db.servants
  }

  /** The class exists, and the user leads it or is mapped to it. */
  predicate HasAccess(db: Db, userId: Id, classId: Id) {
    classId in db.classes && (Leads(db, userId, classId) || Mapped(db, userId, classId))
  }

  predicate Bypasses(user: AuthUser) {
    user.role == Some("SUPER_ADMIN")
  }

  /** A guard call for an ordinary user and a present header. */
  predicate Ordinary(req: Request, userId: Id, classId: Id) {
    && req.Enter? && req.user.Some? && req.user.value.id == userId && !Bypasses(req.user.value)
    && HeaderClass(req.header) == Some(classId)
  }

  // ---- Admission under interference ----

  predicate IsAdmitted(c: Call) {
    c.phase.Finished? && c.phase.outcome.Admitted?
  }

  /** The step that admits reads the row that grants access, while the class exists. */
  lemma AdmittingTurn(db: Db, c: Call, e: Event)
    requires Consistent(db) && Fits(db, c) && e.Turn?
    requires c.req.Enter? && c.req.user.Some? && !Bypasses(c.req.user.value)
    requires !c.phase.Finished? && IsAdmitted(TurnOf(db, c, e).1)
    ensures var classId := TurnOf(db, c, e).1.phase.outcome.activeClassId;
            HeaderClass(c.req.header) == Some(classId) && HasAccess(db, c.req.user.value.id, classId)
  {
  }

  lemma {:induction false} SchedulePrefix(s: State, es: seq<Event>, n: nat)
    requires Schedule(s, es) && n <= |es|
    ensures Schedule(s, es[..n])
  {
    if n < |es| {
      SchedulePrefix(s, es[..|es| - 1], n);
      assert es[..|es| - 1][..n] == es[..n];
    } else {
      assert es[..n] == es;
    }
  }

  /** If the tenant guard admits an ordinary user, then at one of its own two reads the class existed and the
      user was its leader or a mapped servant, whatever ran in between. */
  lemma AdmissionWasJustified(s: State, es: seq<Event>, k: nat, userId: Id, classId: Id) returns (t: nat)
    requires Consistent(s.db) && AllFit(s) && Schedule(s, es)
    requires k < |s.calls| && !s.calls[k].phase.Finished? && Ordinary(s.calls[k].req, userId, classId)
    requires IsAdmitted(Run(s, es).calls[k])
    ensures t < |es| && es[t].Turn? && es[t].call == k
    ensures HasAccess(Run(s, es[..t]).db, userId, classId)
    ensures Run(s, es).calls[k].phase.outcome == Admitted(classId)
  {
    t := FinishingStep(s, es, k);
    var before := Run(s, es[..t]);
    SchedulePrefix(s, es, t);
    RunConsistent(s, es[..t]);
    RunKeepsCalls(s, es[..t]);
    AdmittingTurn(before.db, before.calls[k], es[t]);
  }

  /** The rows the guard looks at for one user and class. */
  datatype Footing = Footing(present: bool, leads: bool, mapped: bool)

  function FootingIn(db: Db, userId: Id, classId: Id): Footing {
    Footing(classId in db.classes, Leads(db, userId, classId), Mapped(db, userId, classId))
  }

  ghost predicate Decided(db: Db, c: Call, userId: Id, classId: Id) {
    match c.phase
    case Start => true
    case CheckMapping => classId in db.classes && !Leads(db, userId, classId)
    case Finished(Admitted(admitted)) => admitted == classId && HasAccess(db, userId, classId)
    case Finished(Threw(_)) => !HasAccess(db, userId, classId)
    case _ => false
  }

  lemma DecidedTurn(db: Db, c: Call, e: Event, userId: Id, classId: Id)
    requires e.Turn? && Ordinary(c.req, userId, classId) && Decided(db, c, userId, classId)
    ensures Decided(db, TurnOf(db, c, e).1, userId, classId) && TurnOf(db, c, e).0 == db
  {
  }

  lemma DecidedFrozen(db: Db, after: Db, c: Call, userId: Id, classId: Id)
    requires Decided(db, c, userId, classId) && FootingIn(db, userId, classId) == FootingIn(after, userId, classId)
    ensures Decided(after, c, userId, classId)
  {
  }

  /** If the rows the guard reads do not change during the request, it admits if and only if the user has
      access. */
  lemma {:induction false} FrozenGuardIsExact(s: State, es: seq<Event>, k: nat, userId: Id, classId: Id)
    requires k < |s.calls| && s.calls[k] == NewCall(s.calls[k].req) && Ordinary(s.calls[k].req, userId, classId)
    requires forall t | 0 <= t <= |es| ::
               FootingIn(Run(s, es[..t]).db, userId, classId) == FootingIn(s.db, userId, classId)
    ensures Decided(Run(s, es).db, Run(s, es).calls[k], userId, classId)
    ensures Run(s, es).calls[k].phase.Finished? ==>
              (IsAdmitted(Run(s, es).calls[k]) <==> HasAccess(s.db, userId, classId))
  {
    assert es[..|es|] == es;
    if es != [] {
      var n := |es| - 1;
      var before, e := Run(s, es[..n]), es[n];
      forall t | 0 <= t <= n ensures es[..n][..t] == es[..t] {}
      FrozenGuardIsExact(s, es[..n], k, userId, classId);
      RunKeepsCalls(s, es[..n]);
      StepKeepsCalls(before, e);
      if e.Turn? && e.call == k {
        DecidedTurn(before.db, before.calls[k], e, userId, classId);
      } else {
        DecidedFrozen(before.db, Run(s, es).db, before.calls[k], userId, classId);
      }
    }
  }

  // ---- The outcome of a request, read by read ----

  /** Access at every instant of a run so far. */
  ghost predicate Throughout(s: State, es: seq<Event>, userId: Id, classId: Id) {
    forall t | 0 <= t <= |es| :: HasAccess(Run(s, es[..t]).db, userId, classId)
  }

  /** Step t is a turn of call k, which stands at the given phase. */
  ghost predicate TurnAt(s: State, es: seq<Event>, t: int, k: nat, phase: Phase)
    requires k < |s.calls|
  {
    0 <= t < |es| && es[t].Turn? && es[t].call == k && Run(s, es[..t]).calls[k].phase == phase
  }

  /** What the guard answers when its first read meets one state of the tables and its second another. */
  function Verdict(first: Db, second: Db, userId: Id, classId: Id): Outcome {
    if classId !in first.classes then Threw(Forbidden(NoSuchClass))
    else if Leads(first, userId, classId) || Mapped(second, userId, classId) then Admitted(classId)
    else Threw(Forbidden(NoAccess))
  }

  /** The reads a call has made so far, and what follows from them: the first at step t, the second at step u. */
  ghost predicate ReadsSoFar(s: State, es: seq<Event>, k: nat, userId: Id, classId: Id, t: int, u: int)
    requires k < |s.calls|
  {
    var phase := Run(s, es).calls[k].phase;
    phase != Start ==>
      && TurnAt(s, es, t, k, Start)
      && var first := Run(s, es[..t]).db;
         var decided := classId !in first.classes || Leads(first, userId, classId);
         if phase == CheckMapping then !decided
         else
           && (if decided then u == t else t < u && TurnAt(s, es, u, k, CheckMapping))
           && phase == Finished(Verdict(first, Run(s, es[..u]).db, userId, classId))
  }

  lemma RunMore(s: State, es: seq<Event>, e: Event)
    ensures Run(s, es + [e]) == Step(Run(s, es), e)
    ensures Schedule(s, es + [e]) <==> Schedule(s, es) && Possible(Run(s, es), e)
  {
    assert (es + [e])[..|es + [e]| - 1] == es;
  }

  /** One read of the guard. */
  lemma GuardTurn(db: Db, c: Call, e: Event, userId: Id, classId: Id)
    requires e.Turn? && Ordinary(c.req, userId, classId)
    ensures c.phase == Start ==>
              TurnOf(db, c, e).1.phase == if classId in db.classes && !Leads(db, userId, classId) then CheckMapping
                                          else Finished(Verdict(db, db, userId, classId))
    ensures c.phase == CheckMapping ==>
              TurnOf(db, c, e).1.phase
                == Finished(if Mapped(db, userId, classId) then Admitted(classId) else Threw(Forbidden(NoAccess)))
  {
  }

  /** The reads before the last step of a run stay what they were. */
  lemma ReadsStay(s: State, es: seq<Event>, e: Event, k: nat, userId: Id, classId: Id, t: int, u: int)
    requires k < |s.calls| && ReadsSoFar(s, es, k, userId, classId, t, u)
    requires Run(s, es + [e]).calls[k].phase == Run(s, es).calls[k].phase
    ensures ReadsSoFar(s, es + [e], k, userId, classId, t, u)
  {
    assert forall i | 0 <= i <= |es| :: (es + [e])[..i] == es[..i];
  }

  lemma ReadsGrow(s: State, es: seq<Event>, e: Event, k: nat, userId: Id, classId: Id, t: int, u: int)
    requires k < |s.calls| && Ordinary(s.calls[k].req, userId, classId) && e.Turn? && e.call == k
    requires ReadsSoFar(s, es, k, userId, classId, t, u) && !Run(s, es).calls[k].phase.Finished?
    ensures ReadsSoFar(s, es + [e], k, userId, classId, if Run(s, es).calls[k].phase == Start then |es| else t, |es|)
  {
    var before := Run(s, es);
    RunKeepsCalls(s, es);
    RunMore(s, es, e);
    GuardTurn(before.db, before.calls[k], e, userId, classId);
    assert forall i | 0 <= i <= |es| :: (es + [e])[..i] == es[..i];
    assert es[..|es|] == es;
  }

  lemma {:induction false} ReadStepByStep(s: State, es: seq<Event>, k: nat, userId: Id, classId: Id)
    returns (t: nat, u: nat)
    requires k < |s.calls| && s.calls[k] == NewCall(s.calls[k].req) && Ordinary(s.calls[k].req, userId, classId)
    ensures ReadsSoFar(s, es, k, userId, classId, t, u)
  {
    t, u := 0, 0;
    if es != [] {
      var n := |es| - 1;
      var before, e := Run(s, es[..n]), es[n];
      t, u := ReadStepByStep(s, es[..n], k, userId, classId);
      assert es[..n] + [e] == es;
      if e.Turn? && e.call == k && !before.calls[k].phase.Finished? {
        ReadsGrow(s, es[..n], e, k, userId, classId, t, u);
        t, u := if before.calls[k].phase == Start then n else t, n;
      } else {
        if e.Turn? && e.call == k {
          FinishedStays(before.db, before.calls[k], e);
        }
        StepKeepsCalls(before, e);
        ReadsStay(s, es[..n], e, k, userId, classId, t, u);
      }
    }
  }

  /** Exactly what a finished request was answered, in every run. It has a first read, and the class's absence
      or the user's leadership at that instant decides; otherwise it has a later second read, and the mapping at
      that instant decides. Nothing between the two reads matters. */
  lemma GuardDecidesByItsReads(s: State, es: seq<Event>, k: nat, userId: Id, classId: Id) returns (t: nat, u: nat)
    requires k < |s.calls| && s.calls[k] == NewCall(s.calls[k].req) && Ordinary(s.calls[k].req, userId, classId)
    requires Run(s, es).calls[k].phase.Finished?
    ensures TurnAt(s, es, t, k, Start) && t <= u < |es|
    ensures var first, second := Run(s, es[..t]).db, Run(s, es[..u]).db;
            && (if classId !in first.classes || Leads(first, userId, classId) then u == t
                else TurnAt(s, es, u, k, CheckMapping))
            && Run(s, es).calls[k].phase.outcome == Verdict(first, second, userId, classId)
  {
    t, u := ReadStepByStep(s, es, k, userId, classId);
  }

  /** A user with access at every instant of a request is refused exactly when the ground of that access moves
      between the guard's two reads: mapped but not leading at the first, leading but not mapped at the second. */
  lemma ContinuousAccessRefusedExactly(s: State, es: seq<Event>, k: nat, userId: Id, classId: Id)
    returns (t: nat, u: nat)
    requires k < |s.calls| && s.calls[k] == NewCall(s.calls[k].req) && Ordinary(s.calls[k].req, userId, classId)
    requires Run(s, es).calls[k].phase.Finished? && Throughout(s, es, userId, classId)
    ensures TurnAt(s, es, t, k, Start) && t <= u < |es| && (t < u ==> TurnAt(s, es, u, k, CheckMapping))
    ensures var first, second := Run(s, es[..t]).db, Run(s, es[..u]).db;
            !IsAdmitted(Run(s, es).calls[k]) <==>
              && !Leads(first, userId, classId) && Mapped(first, userId, classId)
              && Leads(second, userId, classId) && !Mapped(second, userId, classId)
  {
    t, u := GuardDecidesByItsReads(s, es, k, userId, classId);
    assert HasAccess(Run(s, es[..t]).db, userId, classId) && HasAccess(Run(s, es[..u]).db, userId, classId);
  }

  /** A user who leads the class throughout, or is mapped to it throughout, is never refused, whatever happens to
      the other ground meanwhile. */
  lemma SteadyAccessAdmitted(s: State, es: seq<Event>, k: nat, userId: Id, classId: Id)
    requires k < |s.calls| && s.calls[k] == NewCall(s.calls[k].req) && Ordinary(s.calls[k].req, userId, classId)
    requires Run(s, es).calls[k].phase.Finished? && Throughout(s, es, userId, classId)
    requires || (forall i | 0 <= i <= |es| :: Leads(Run(s, es[..i]).db, userId, classId))
             || (forall i | 0 <= i <= |es| :: Mapped(Run(s, es[..i]).db, userId, classId))
    ensures Run(s, es).calls[k].phase.outcome == Admitted(classId)
  {
    var t, u := GuardDecidesByItsReads(s, es, k, userId, classId);
    assert HasAccess(Run(s, es[..t]).db, userId, classId);
    assert Leads(Run(s, es[..t]).db, userId, classId) || Mapped(Run(s, es[..u]).db, userId, classId);
  }

  // ---- What no run undoes ----

  lemma StepKeepsMember(s: State, e: Event, m: Id)
    requires Consistent(s.db) && Possible(s, e) && m in s.db.members
    ensures m in Step(s, e).db.members
    ensures Step(s, e).db.members[m].classId == s.db.members[m].classId
    ensures Step(s, e).db.members[m].userId == s.db.members[m].userId
  {
    if e.Turn? && e.call < |s.calls| && PendingWrite(s.calls[e.call], e).Some? {
      MembersStay(s.db, PendingWrite(s.calls[e.call], e).value, m);
    }
  }

  /** No run removes a member or moves it to another class. */
  lemma {:induction false} MembersArePermanent(s: State, es: seq<Event>, m: Id)
    requires Consistent(s.db) && AllFit(s) && Schedule(s, es) && m in s.db.members
    ensures m in Run(s, es).db.members
    ensures Run(s, es).db.members[m].classId == s.db.members[m].classId
    ensures Run(s, es).db.members[m].userId == s.db.members[m].userId
  {
    if es != [] {
      var init := es[..|es| - 1];
      MembersArePermanent(s, init, m);
      RunConsistent(s, init);
      StepKeepsMember(Run(s, init), es[|es| - 1], m);
    }
  }

  lemma RemovalRefused(db: Db, c: Call, e: Event, m: Id)
    requires e.Turn? && c.req.RemoveClass? && c.phase == Writing && c.req.classId in db.classes
    requires m in db.members && db.members[m].classId == c.req.classId
    ensures TurnOf(db, c, e) == (db, c.(phase := Finished(Threw(Store(P2003(MemberToClass))))))
  {
    assert db.issued + {} == db.issued;
  }

  /** A class that has ever had a member, active or soft-deleted, exists in every later state, and every attempt
      to delete it fails on the members' foreign key and changes nothing. */
  lemma ClassWithMemberIsPermanent(s: State, es: seq<Event>, m: Id, k: nat, e: Event)
    requires Consistent(s.db) && AllFit(s) && Schedule(s, es) && m in s.db.members
    requires k < |s.calls| && e.Turn? && e.call == k
    ensures var classId, now := s.db.members[m].classId, Run(s, es);
            && classId in now.db.classes
            && (now.calls[k].req == RemoveClass(classId) && now.calls[k].phase == Writing ==>
                  && Step(now, e).calls[k].phase == Finished(Threw(Store(P2003(MemberToClass))))
                  && Step(now, e).db == now.db)
  {
    var now := Run(s, es);
    MembersArePermanent(s, es, m);
    RunConsistent(s, es);
    assert now.db.members[m].classId in now.db.classes;
    if now.calls[k].req == RemoveClass(s.db.members[m].classId) && now.calls[k].phase == Writing {
      RemovalRefused(now.db, now.calls[k], e, m);
    }
  }

  lemma StepKeepsGone(s: State, e: Event, classId: Id)
    requires Consistent(s.db) && Possible(s, e) && classId in s.db.issued && classId !in s.db.classes
    ensures classId in Step(s, e).db.issued && classId !in Step(s, e).db.classes
  {
    if e.Turn? && e.call < |s.calls| && PendingWrite(s.calls[e.call], e).Some? {
      GoneClassesStayGone(s.db, PendingWrite(s.calls[e.call], e).value, classId);
    }
  }

  lemma {:induction false} DeletedStaysDeleted(s: State, es: seq<Event>, classId: Id)
    requires Consistent(s.db) && AllFit(s) && Schedule(s, es)
    requires classId in s.db.issued && classId !in s.db.classes
    ensures classId in Run(s, es).db.issued && classId !in Run(s, es).db.classes
  {
    if es != [] {
      var init := es[..|es| - 1];
      DeletedStaysDeleted(s, init, classId);
      RunConsistent(s, init);
      StepKeepsGone(Run(s, init), es[|es| - 1], classId);
    }
  }

  /** Once a class is deleted the guard admits no ordinary user for its id, in any later run, and not even a call
      that had already seen the class when it went. */
  lemma DeletedClassAdmitsNobody(s: State, es: seq<Event>, k: nat, userId: Id, classId: Id)
    requires Consistent(s.db) && AllFit(s) && Schedule(s, es)
    requires classId in s.db.issued && classId !in s.db.classes
    requires k < |s.calls| && !s.calls[k].phase.Finished? && Ordinary(s.calls[k].req, userId, classId)
    ensures !IsAdmitted(Run(s, es).calls[k])
  {
    if IsAdmitted(Run(s, es).calls[k]) {
      var t := AdmissionWasJustified(s, es, k, userId, classId);
      SchedulePrefix(s, es, t);
      DeletedStaysDeleted(s, es[..t], classId);
      assert false;
    }
  }

  ghost predicate UpdatesMember(req: Request, m: Id) {
    (req.ChangeMember? && req.memberId == m) || (req.SetActive? && req.memberId == m)
  }

  /** Once past its check a member update's row is there, and it has not failed on the store. */
  ghost predicate UpdateOnCourse(db: Db, c: Call, m: Id) {
    match c.phase
    case Writing => m in db.members
    case WritingPatch(_) => m in db.members
    case Finished(Threw(Store(_))) => false
    case WritingRows(_) => false
    case Inserting(_, _) => false
    case _ => true
  }

  lemma UpdateTurn(db: Db, c: Call, e: Event, m: Id)
    requires e.Turn? && Fits(db, c) && UpdatesMember(c.req, m) && UpdateOnCourse(db, c, m)
    ensures UpdateOnCourse(TurnOf(db, c, e).0, TurnOf(db, c, e).1, m)
  {
  }

  /** No interleaving makes a member update fail on the store: a member that passed the check stays. */
  lemma {:induction false} MemberUpdatesNeverFail(s: State, es: seq<Event>, k: nat, m: Id)
    requires Consistent(s.db) && AllFit(s) && Schedule(s, es)
    requires k < |s.calls| && s.calls[k] == NewCall(s.calls[k].req) && UpdatesMember(s.calls[k].req, m)
    ensures UpdateOnCourse(Run(s, es).db, Run(s, es).calls[k], m)
    ensures forall e :: Run(s, es).calls[k].phase != Finished(Threw(Store(e)))
  {
    if es != [] {
      var init, e := es[..|es| - 1], es[|es| - 1];
      var before := Run(s, init);
      MemberUpdatesNeverFail(s, init, k, m);
      RunConsistent(s, init);
      RunKeepsCalls(s, init);
      StepKeepsCalls(before, e);
      if e.Turn? && e.call == k {
        UpdateTurn(before.db, before.calls[k], e, m);
      } else if m in before.db.members {
        StepKeepsMember(before, e, m);
      }
    }
  }

  // ---- Users and phones over every run ----

  lemma StepKeepsUsers(s: State, e: Event)
    requires AllFit(s) && UsersKnown(s.db) && AllLeadersNamed(s)
    ensures UsersKnown(Step(s, e).db) && AllLeadersNamed(Step(s, e))
  {
    StepKeepsCalls(s, e);
    if e.Turn? && e.call < |s.calls| && PendingWrite(s.calls[e.call], e).Some? {
      WriteKeepsUsersKnown(s.db, PendingWrite(s.calls[e.call], e).value);
    }
  }

  /** The request schema admits only non-empty leader ids. */
  ghost predicate AllLeadersNamed(s: State) {
    forall k | 0 <= k < |s.calls| :: s.calls[k].req.ChangeClass? ==> s.calls[k].req.patch.leaderId != Some("")
  }

  /** In every run every leader and every mapped servant is a known user, with or without the foreign keys to
      the users table. */
  lemma {:induction false} RunKeepsUsers(s: State, es: seq<Event>)
    requires AllFit(s) && UsersKnown(s.db) && AllLeadersNamed(s)
    ensures UsersKnown(Run(s, es).db) && AllLeadersNamed(Run(s, es)) && AllFit(Run(s, es))
  {
    if es != [] {
      var init := es[..|es| - 1];
      RunKeepsUsers(s, init);
      StepKeepsUsers(Run(s, init), es[|es| - 1]);
      StepFits(Run(s, init), es[|es| - 1]);
    }
  }

  lemma PendingPhonesCanonical(db: Db, c: Call, e: Event)
    requires e.Turn? && Fits(db, c) && PendingWrite(c, e).Some?
    ensures StoresCanonicalPhones(PendingWrite(c, e).value)
  {
  }

  /** Reading the row succeeds and returns exactly what is stored. */
  ghost predicate ReadsBack(id: Id, row: MemberRow) {
    match FromRow(id, row)
    case Err(_) => false
    case Ok(m) =>
      && (m.id, m.classId, m.userId, m.fullName, m.isActive) == (id, row.classId, row.userId, row.fullName, row.isActive)
      && (m.phone.Some? <==> row.phone.Some?)
      && (m.phone.Some? ==> m.phone.value.value == row.phone.value)
  }

  /** In every state reachable from a table of canonical phones every stored phone is null or canonical, so
      reading any member row back never throws and returns exactly the stored phone. */
  lemma {:induction false} StoredPhonesReadBack(s: State, es: seq<Event>)
    requires Consistent(s.db) && AllFit(s) && Schedule(s, es) && PhonesCanonical(s.db)
    ensures PhonesCanonical(Run(s, es).db)
    ensures forall m | m in Run(s, es).db.members :: ReadsBack(m, Run(s, es).db.members[m])
  {
    if es != [] {
      var init, e := es[..|es| - 1], es[|es| - 1];
      var before := Run(s, init);
      StoredPhonesReadBack(s, init);
      RunConsistent(s, init);
      if e.Turn? && e.call < |before.calls| && PendingWrite(before.calls[e.call], e).Some? {
        PendingPhonesCanonical(before.db, before.calls[e.call], e);
        WriteKeepsPhones(before.db, PendingWrite(before.calls[e.call], e).value);
      }
    }
    forall m | m in Run(s, es).db.members ensures ReadsBack(m, Run(s, es).db.members[m]) {
      CanonicalRowReads(m, Run(s, es).db.members[m]);
    }
  }

  // ---- Access changes for one class only ----

  /** The class a request names or, for a creation, the one its event creates. */
  predicate Names(req: Request, e: Event, classId: Id)
    requires e.Turn?
  {
    match req
    case Assign(c, _) => c == classId
    case Unassign(c, _) => c == classId
    case ChangeClass(c, _) => c == classId
    case RemoveClass(c) => c == classId
    case CreateClass(_, _, _) => e.ids != [] && e.ids[0] == classId
    case _ => false
  }

  /** The class whose tenant access a write may change. */
  predicate Touches(w: Write, classId: Id) {
    match w
    case InsertServant(m) => m.classId == classId
    case DeleteServant(m) => m.classId == classId
    case InsertClass(id, _) => id == classId
    case UpdateClass(id, _) => id == classId
    case DeleteClass(id) => id == classId
    case _ => false
  }

  lemma WriteTouches(db: Db, w: Write, userId: Id, classId: Id)
    requires !Touches(w, classId)
    ensures HasAccess(Apply(db, w).0, userId, classId) == HasAccess(db, userId, classId)
  {
  }

  /** A call's next write is to the class it names, if to any. */
  lemma PendingTouches(db: Db, c: Call, e: Event, classId: Id)
    requires e.Turn? && Fits(db, c) && PendingWrite(c, e).Some? && !Names(c.req, e, classId)
    ensures !Touches(PendingWrite(c, e).value, classId)
  {
  }

  /** A step changes tenant access for no class but the one its call names; member calls and guards change none. */
  lemma AccessChangesOnlyWhereNamed(s: State, e: Event, userId: Id, classId: Id)
    requires AllFit(s)
    requires HasAccess(Step(s, e).db, userId, classId) != HasAccess(s.db, userId, classId)
    ensures e.Turn? && e.call < |s.calls| && Names(s.calls[e.call].req, e, classId)
  {
    if e.Turn? && e.call < |s.calls| && !Names(s.calls[e.call].req, e, classId) {
      AccessTurn(s.db, s.calls[e.call], e, userId, classId);
    }
  }

  lemma AccessTurn(db: Db, c: Call, e: Event, userId: Id, classId: Id)
    requires e.Turn? && Fits(db, c)
    requires !Names(c.req, e, classId)
    ensures HasAccess(TurnOf(db, c, e).0, userId, classId) == HasAccess(db, userId, classId)
  {
    if PendingWrite(c, e).Some? {
      PendingTouches(db, c, e, classId);
      WriteTouches(db, PendingWrite(c, e).value, userId, classId);
    }
  }

  // ---- Admission is not complete under interference ----

  /** Call k takes one step that generates no id, from one state to the next, and access holds afterwards. */
  ghost predicate Moves(before: State, k: nat, after: State, userId: Id, classId: Id) {
    && Possible(before, Turn(k, 0, [], 0))
    && Step(before, Turn(k, 0, [], 0)) == after
    && HasAccess(after.db, userId, classId)
  }

  lemma Advance(s: State, es: seq<Event>, k: nat, next: State, userId: Id, classId: Id) returns (longer: seq<Event>)
    requires Schedule(s, es) && Throughout(s, es, userId, classId)
    requires Moves(Run(s, es), k, next, userId, classId)
    ensures Schedule(s, longer) && Throughout(s, longer, userId, classId)
    ensures Run(s, longer) == next
  {
    var e := Turn(k, 0, [], 0);
    longer := es + [e];
    RunMore(s, es, e);
    forall t | 0 <= t <= |longer| ensures HasAccess(Run(s, longer[..t]).db, userId, classId) {
      if t <= |es| {
        assert longer[..t] == es[..t];
      } else {
        assert longer[..t] == longer;
      }
    }
  }

  /** The scene: class c led by v, with u mapped to it; u's request meets a promotion of u and an unassignment. */
  const LED_BY_V := ClassRow("class", Primary1, "v", 0)
  const LED_BY_U := ClassRow("class", Primary1, "u", 0)
  const BEFORE := Db(true, {"u", "v"}, map["c" := LED_BY_V], map[], {Mapping("u", "c")}, {"c"})
  const PROMOTED := BEFORE.(classes := map["c" := LED_BY_U])
  const DROPPED := PROMOTED.(servants := {})

  function Scene(db: Db, guard: Phase, promote: Phase, drop: Phase): State {
    State(db, [Call(Enter(Some(AuthUser("u", Some("LEADER"))), Some("c")), guard, 0, 0),
               Call(ChangeClass("c", ClassPatch(None, None, Some("u"))), promote, 0, 0),
               Call(Unassign("c", "u"), drop, 0, 0)])
  }

  lemma GuardReadsTheClass()
    ensures Moves(Scene(BEFORE, Start, Start, Start), 0, Scene(BEFORE, CheckMapping, Start, Start), "u", "c")
    ensures Ordinary(Scene(BEFORE, Start, Start, Start).calls[0].req, "u", "c")
  {
    assert Trim("c") == "c";
  }

  lemma Promotes()
    ensures Moves(Scene(BEFORE, CheckMapping, Start, Start), 1, Scene(BEFORE, CheckMapping, CheckLeader, Start), "u", "c")
    ensures Moves(Scene(BEFORE, CheckMapping, CheckLeader, Start), 1, Scene(BEFORE, CheckMapping, Writing, Start), "u", "c")
  {
  }

  lemma Promoted()
    ensures Moves(Scene(BEFORE, CheckMapping, Writing, Start), 1,
                  Scene(PROMOTED, CheckMapping, Finished(ClassResult("c", LED_BY_U)), Start), "u", "c")
  {
    assert BEFORE.classes["c" := LED_BY_U] == PROMOTED.classes;
    assert BEFORE.issued + {} == BEFORE.issued;
  }

  lemma Unassigns(promoted: Phase)
    ensures Moves(Scene(PROMOTED, CheckMapping, promoted, Start), 2, Scene(PROMOTED, CheckMapping, promoted, CheckMapping), "u", "c")
    ensures Moves(Scene(PROMOTED, CheckMapping, promoted, CheckMapping), 2, Scene(PROMOTED, CheckMapping, promoted, Writing), "u", "c")
  {
  }

  lemma Unassigned(promoted: Phase)
    ensures Moves(Scene(PROMOTED, CheckMapping, promoted, Writing), 2,
                  Scene(DROPPED, CheckMapping, promoted, Finished(Completed)), "u", "c")
  {
    assert PROMOTED.servants - {Mapping("u", "c")} == {};
    assert PROMOTED.issued + {} == PROMOTED.issued;
  }

  lemma GuardReadsTheMapping(promoted: Phase, dropped: Phase)
    ensures Moves(Scene(DROPPED, CheckMapping, promoted, dropped), 0,
                  Scene(DROPPED, Finished(Threw(Forbidden(NoAccess))), promoted, dropped), "u", "c")
  {
    assert Trim("c") == "c";
  }

  /** The case of ContinuousAccessRefusedExactly does occur. A servant who is made leader and then unassigned between
      the guard's two reads has access at every instant of the request and is refused all the same. */
  lemma ContinuousAccessMayBeRefused() returns (s: State, es: seq<Event>)
    ensures Consistent(s.db) && UsersKnown(s.db) && NothingBegun(s) && Schedule(s, es)
    ensures |s.calls| == 3 && Ordinary(s.calls[0].req, "u", "c")
    ensures Throughout(s, es, "u", "c")
    ensures Run(s, es).calls[0].phase == Finished(Threw(Forbidden(NoAccess)))
  {
    s := Scene(BEFORE, Start, Start, Start);
    SceneIsSound();
    es := PromotedMeanwhile();
    var promoted := Finished(ClassResult("c", LED_BY_U));
    es := UnassignedMeanwhile(s, es, promoted);
    GuardReadsTheMapping(promoted, Finished(Completed));
    es := Advance(s, es, 0, Scene(DROPPED, Finished(Threw(Forbidden(NoAccess))), promoted, Finished(Completed)), "u", "c");
  }

  lemma SceneIsSound()
    ensures var s := Scene(BEFORE, Start, Start, Start);
            && Consistent(s.db) && UsersKnown(s.db) && NothingBegun(s)
            && Ordinary(s.calls[0].req, "u", "c")
  {
    assert Trim("c") == "c";
  }

  lemma PromotedMeanwhile() returns (es: seq<Event>)
    ensures var s := Scene(BEFORE, Start, Start, Start);
            && Schedule(s, es) && Throughout(s, es, "u", "c")
            && Run(s, es) == Scene(PROMOTED, CheckMapping, Finished(ClassResult("c", LED_BY_U)), Start)
  {
    var s := Scene(BEFORE, Start, Start, Start);
    es := [];
    GuardReadsTheClass();
    es := Advance(s, es, 0, Scene(BEFORE, CheckMapping, Start, Start), "u", "c");
    Promotes();
    es := Advance(s, es, 1, Scene(BEFORE, CheckMapping, CheckLeader, Start), "u", "c");
    es := Advance(s, es, 1, Scene(BEFORE, CheckMapping, Writing, Start), "u", "c");
    Promoted();
    es := Advance(s, es, 1, Scene(PROMOTED, CheckMapping, Finished(ClassResult("c", LED_BY_U)), Start), "u", "c");
  }

  lemma UnassignedMeanwhile(s: State, before: seq<Event>, promoted: Phase) returns (es: seq<Event>)
    requires Schedule(s, before) && Throughout(s, before, "u", "c")
    requires Run(s, before) == Scene(PROMOTED, CheckMapping, promoted, Start)
    ensures Schedule(s, es) && Throughout(s, es, "u", "c")
    ensures Run(s, es) == Scene(DROPPED, CheckMapping, promoted, Finished(Completed))
  {
    Unassigns(promoted);
    es := Advance(s, before, 2, Scene(PROMOTED, CheckMapping, promoted, CheckMapping), "u", "c");
    es := Advance(s, es, 2, Scene(PROMOTED, CheckMapping, promoted, Writing), "u", "c");
    Unassigned(promoted);
    es := Advance(s, es, 2, Scene(DROPPED, CheckMapping, promoted, Finished(Completed)), "u", "c");
  }
}
