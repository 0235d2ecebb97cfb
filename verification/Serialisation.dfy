/** Calls under interference against their sequential specifications: a call that writes once does, at its write,
    exactly what it would do alone; a failed `assign` leaves nothing behind; what a bulk add reports is right at its
    own two instants. */
module Serialisation {
  import opened Tables
  import opened Entities
  import opened Listing
  import opened Machine
  import opened Linearisation
  import opened Access
  import opened Serving
  import opened Outcomes
  import opened Bulk
  import opened Races
  import opened Causes

  // ---- Calls that write once ----

  /** The calls whose write is their last step. */
  predicate WritesOnce(req: Request) {
    !req.Assign? && !req.AddBulk? && !req.Enter?
  }

  predicate FailsOnStore(c: Call) {
    c.phase.Finished? && c.phase.outcome.Threw? && c.phase.outcome.error.Store?
  }

  /** The generated ids a call's write uses. */
  function IdsUsed(req: Request, e: Event): (ids: seq<Id>)
    requires e.Turn? && WritesOnce(req) && (IdsFor(req) == 1 ==> e.ids != [])
    ensures |ids| == IdsFor(req)
  {
    if IdsFor(req) == 1 then [e.ids[0]] else []
  }

  /** The call's step does to the tables, and answers, exactly what the call does alone on the tables it meets. */
  ghost predicate ServesHere(db: Db, req: Request, e: Event, after: Db, outcome: Outcome)
    requires e.Turn? && WritesOnce(req) && (IdsFor(req) == 1 ==> e.ids != [])
  {
    (after, outcome) == Serve(db, req, IdsUsed(req, e), e.now)
  }

  lemma WriteBringsIds(c: Call, e: Event)
    requires e.Turn? && WritesOnce(c.req) && PendingWrite(c, e).Some?
    ensures IdsFor(c.req) == 1 ==> e.ids != []
    ensures !c.phase.Inserting? && !PendingWrite(c, e).value.InsertMembers?
  {
  }

  lemma WriteAnswers(db: Db, c: Call, e: Event)
    requires e.Turn? && WritesOnce(c.req) && PendingWrite(c, e).Some?
    ensures TurnOf(db, c, e).0 == Commit(db, PendingWrite(c, e).value).0
    ensures TurnOf(db, c, e).1.phase == Finished(Commit(db, PendingWrite(c, e).value).1)
  {
    WriteBringsIds(c, e);
    WriteCommits(db, c, e);
  }

  lemma UnassignServesHere(db: Db, c: Call, e: Event)
    requires ReadyToWrite(db, c, e) && c.req.Unassign? && !WriteFails(db, c.req, P2025)
    ensures ServesHere(db, c.req, e, Commit(db, PendingWrite(c, e).value).0, Commit(db, PendingWrite(c, e).value).1)
  {
  }

  lemma CreateServesHere(db: Db, c: Call, e: Event)
    requires ReadyToWrite(db, c, e) && c.req.CreateClass?
    ensures ServesHere(db, c.req, e, Commit(db, PendingWrite(c, e).value).0, Commit(db, PendingWrite(c, e).value).1)
  {
  }

  lemma ChangeServesHere(db: Db, c: Call, e: Event)
    requires ReadyToWrite(db, c, e) && (c.req.ChangeClass? || c.req.RemoveClass?) && !WriteFails(db, c.req, P2025)
    ensures ServesHere(db, c.req, e, Commit(db, PendingWrite(c, e).value).0, Commit(db, PendingWrite(c, e).value).1)
  {
  }

  lemma AddServesHere(db: Db, c: Call, e: Event)
    requires ReadyToWrite(db, c, e) && c.req.AddOne? && c.req.classId in db.classes
    ensures ServesHere(db, c.req, e, Commit(db, PendingWrite(c, e).value).0, Commit(db, PendingWrite(c, e).value).1)
  {
  }

  lemma UpdateServesHere(db: Db, c: Call, e: Event)
    requires ReadyToWrite(db, c, e) && (c.req.ChangeMember? || c.req.SetActive?) && PhonesCanonical(db)
    ensures ServesHere(db, c.req, e, Commit(db, PendingWrite(c, e).value).0, Commit(db, PendingWrite(c, e).value).1)
  {
    CanonicalRowReads(c.req.memberId, db.members[c.req.memberId]);
  }

  /** A write that does not fail finds the class of its call. */
  lemma SucceedsOnClass(db: Db, req: Request)
    requires forall e :: !WriteFails(db, req, e)
    ensures req.ChangeClass? || req.RemoveClass? || req.AddOne? ==> req.classId in db.classes
    ensures !WriteFails(db, req, P2025)
  {
    assert !WriteFails(db, req, P2025) && !WriteFails(db, req, P2003(MemberToClass));
    assert !WriteFails(db, req, P2002(MemberUserId));
  }

  lemma TurnServesHere(db: Db, c: Call, e: Event)
    requires ReadyToWrite(db, c, e) && WritesOnce(c.req) && PhonesCanonical(db)
    requires !FailsOnStore(TurnOf(db, c, e).1)
    ensures IdsFor(c.req) == 1 ==> e.ids != []
    ensures TurnOf(db, c, e).1.phase.Finished?
    ensures ServesHere(db, c.req, e, TurnOf(db, c, e).0, TurnOf(db, c, e).1.phase.outcome)
  {
    forall error ensures !WriteFails(db, c.req, error) {
      TurnFails(db, c, e, error);
    }
    SucceedsOnClass(db, c.req);
    WriteBringsIds(c, e);
    WriteAnswers(db, c, e);
    match c.req
    case Unassign(_, _) => UnassignServesHere(db, c, e);
    case CreateClass(_, _, _) => CreateServesHere(db, c, e);
    case ChangeClass(_, _) => ChangeServesHere(db, c, e);
    case RemoveClass(_) => ChangeServesHere(db, c, e);
    case AddOne(_, _) => AddServesHere(db, c, e);
    case _ => UpdateServesHere(db, c, e);
  }

  /** Serialisation at the write. In every run, whatever has happened since its checks, a call that writes once and
      does not fail on the store does at its write step exactly what its sequential specification does on the tables
      of that instant, to the tables and in its answer. */
  lemma WriteStepServes(s: State, es: seq<Event>, e: Event)
    requires Beginning(s) && PhonesCanonical(s.db) && Schedule(s, es) && e.Turn? && e.call < |s.calls|
    requires Possible(Run(s, es), e) && PendingWrite(Run(s, es).calls[e.call], e).Some?
    requires WritesOnce(s.calls[e.call].req)
    requires !FailsOnStore(Step(Run(s, es), e).calls[e.call])
    ensures IdsFor(s.calls[e.call].req) == 1 ==> e.ids != []
    ensures var next := Step(Run(s, es), e);
            && next.calls[e.call].phase.Finished?
            && ServesHere(Run(s, es).db, s.calls[e.call].req, e, next.db, next.calls[e.call].phase.outcome)
  {
    RunReadies(s, es, e);
    StoredPhonesReadBack(s, es);
    TurnServesHere(Run(s, es).db, Run(s, es).calls[e.call], e);
  }

  // ---- A failed assign leaves nothing behind ----

  lemma StepIssues(s: State, e: Event)
    ensures s.db.issued <= Step(s, e).db.issued
  {
  }

  ghost predicate PastChecks(c: Call) {
    !c.phase.Start? && !c.phase.Finished?
  }

  /** The class of an assign that is past its first check has been issued. */
  lemma {:induction false} AssignClassIssued(s: State, es: seq<Event>, k: nat)
    requires Beginning(s) && Schedule(s, es) && k < |s.calls| && s.calls[k].req.Assign?
    ensures PastChecks(Run(s, es).calls[k]) ==> s.calls[k].req.classId in Run(s, es).db.issued
  {
    if es != [] {
      var init, e := es[..|es| - 1], es[|es| - 1];
      var before := Run(s, init);
      AssignClassIssued(s, init, k);
      RunConsistent(s, init);
      RunKeepsCalls(s, init);
      StepIssues(before, e);
      StepKeepsCalls(before, e);
      if e.Turn? && e.call == k && before.calls[k].phase.Start? && PastChecks(Run(s, es).calls[k]) {
        BeganWithClass(before.db, before.calls[k]);
      } else if e.Turn? && e.call == k {
        TurnOnward(before.db, before.calls[k], e);
      }
    }
  }

  /** A class that was issued and is gone at step t is gone at the end. */
  lemma {:induction false} GoneLater(s: State, es: seq<Event>, t: nat, classId: Id)
    requires Beginning(s) && Schedule(s, es) && t <= |es|
    requires classId in Run(s, es[..t]).db.issued && classId !in Run(s, es[..t]).db.classes
    ensures classId in Run(s, es).db.issued && classId !in Run(s, es).db.classes
    decreases |es|
  {
    if t == |es| {
      assert es[..t] == es;
    } else {
      var init := es[..|es| - 1];
      assert init[..t] == es[..t];
      GoneLater(s, init, t, classId);
      RunConsistent(s, init);
      StepKeepsGone(Run(s, init), es[|es| - 1], classId);
    }
  }

  /** The class is gone, and with it every mapping of it. */
  ghost predicate NothingLeft(db: Db, classId: Id) {
    classId !in db.classes && forall u :: Mapping(u, classId) !in db.servants
  }

  lemma StoreFailureLosesClass(s: State, es: seq<Event>, k: nat, error: StoreError)
    requires Beginning(s) && Schedule(s, es) && k < |s.calls| && s.calls[k].req.Assign?
    requires FailsWith(Run(s, es).calls[k], error)
    ensures NothingLeft(Run(s, es).db, s.calls[k].req.classId)
  {
    var t := StoreErrorsComeFromWrites(s, es, k, error);
    SchedulePrefix(s, es, t);
    AssignClassIssued(s, es[..t], k);
    GoneLater(s, es, t, s.calls[k].req.classId);
    RunConsistent(s, es);
  }

  /** An assign that throws anything but a store error has not inserted anything. */
  lemma ThrowsBeforeInserting(db: Db, c: Call, e: Event)
    requires e.Turn? && Fits(db, c) && InStep(c) && c.req.Assign? && !c.phase.Finished?
    requires HasThrown(TurnOf(db, c, e).1) && !TurnOf(db, c, e).1.phase.outcome.error.Store?
    ensures TurnOf(db, c, e).1.inserted == 0
  {
  }

  /** `assign` is all or nothing in every interleaving. A call that completes has put in every row it was asked for
      (AssignLinearises); of one that throws nothing is left at the end of any run: it has put nothing in, or its class
      has been deleted together with every mapping of it. */
  lemma FailedAssignLeavesNothing(s: State, es: seq<Event>, k: nat)
    requires Beginning(s) && Schedule(s, es) && k < |s.calls| && s.calls[k].req.Assign?
    requires HasThrown(Run(s, es).calls[k])
    ensures FreshPuts(Log(s, es), k) == 0 || NothingLeft(Run(s, es).db, s.calls[k].req.classId)
  {
    var error := Run(s, es).calls[k].phase.outcome.error;
    if error.Store? {
      StoreFailureLosesClass(s, es, k, error.error);
    } else {
      var t := FinishingStep(s, es, k);
      RunTally(s, es);
      RunTally(s, es[..t]);
      RunKeepsCalls(s, es[..t]);
      assert Tally(Run(s, es[..t]).calls[k], Log(s, es[..t]), k);
      ThrowsBeforeInserting(Run(s, es[..t]).db, Run(s, es[..t]).calls[k], es[t]);
      assert Tally(Run(s, es).calls[k], Log(s, es), k);
    }
  }

  // ---- Bulk adds under interference ----

  /** Step t is the write of bulk add k, which counts `created` rows. */
  ghost predicate BulkWrites(s: State, es: seq<Event>, t: int, k: nat, created: nat)
    requires k < |s.calls| && s.calls[k].req.AddBulk?
  {
    && 0 <= t < |es| && es[t].Turn? && es[t].call == k
    && var before, after := Run(s, es[..t]).db.members, Run(s, es[..t + 1]).db.members;
       && created == NullUserInputs(s.calls[k].req.raws) + |NewUserInputs(before, s.calls[k].req.raws)|
       && |RosterOf(after, s.calls[k].req.classId)| == |RosterOf(before, s.calls[k].req.classId)| + created
  }

  lemma BulkTurn(db: Db, c: Call, e: Event)
    requires e.Turn? && !c.phase.Inserting? && PendingWrite(c, e).Some? && PendingWrite(c, e).value.InsertMembers?
    requires TurnOf(db, c, e).1.phase.Refetching?
    ensures var batch := PendingWrite(c, e).value.batch;
            (TurnOf(db, c, e).0.members, TurnOf(db, c, e).1.phase.created) == InsertAll(db.members, batch)
  {
  }

  lemma BulkWriteTurn(db: Db, c: Call, e: Event)
    requires ReadyToWrite(db, c, e) && c.req.AddBulk? && TurnOf(db, c, e).1.phase.Refetching?
    ensures var created, after := TurnOf(db, c, e).1.phase.created, TurnOf(db, c, e).0.members;
            && created == NullUserInputs(c.req.raws) + |NewUserInputs(db.members, c.req.raws)|
            && |RosterOf(after, c.req.classId)| == |RosterOf(db.members, c.req.classId)| + created
  {
    var batch := PendingWrite(c, e).value.batch;
    PendingBatch(db, c, e);
    BulkTurn(db, c, e);
    BatchCounted(db, c.req.raws, batch);
    assert FreshBatch(db.members.Keys, batch);
    BulkRows(db.members, batch, c.req.classId);
  }

  lemma RefetchesAfterWrite(db: Db, c: Call, e: Event)
    requires e.Turn? && !c.phase.Refetching? && TurnOf(db, c, e).1.phase.Refetching?
    ensures PendingWrite(c, e).Some? && c.req.AddBulk?
  {
  }

  lemma BulkWriteStep(s: State, es: seq<Event>, t: nat, k: nat)
    requires Beginning(s) && Schedule(s, es) && t < |es| && es[t].Turn? && es[t].call == k
    requires k < |s.calls| && s.calls[k].req.AddBulk?
    requires !Run(s, es[..t]).calls[k].phase.Refetching? && Run(s, es[..t + 1]).calls[k].phase.Refetching?
    ensures BulkWrites(s, es, t, k, Run(s, es[..t + 1]).calls[k].phase.created)
  {
    var before := Run(s, es[..t]);
    StepBetween(s, es, t);
    PrefixSound(s, es, t);
    SchedulePrefix(s, es, t);
    RefetchesAfterWrite(before.db, before.calls[k], es[t]);
    RunReadies(s, es[..t], es[t]);
    BulkWriteTurn(before.db, before.calls[k], es[t]);
  }

  lemma RefetchingStays(db: Db, c: Call, e: Event)
    requires e.Turn? && c.phase.Refetching? && TurnOf(db, c, e).1.phase.Refetching?
    ensures TurnOf(db, c, e).1 == c
  {
  }

  /** A bulk add about to refetch has written, and remembers its count. */
  lemma {:induction false} RefetchingHasWritten(s: State, es: seq<Event>, until: nat, k: nat) returns (t: nat)
    requires Beginning(s) && Schedule(s, es) && until <= |es| && k < |s.calls| && s.calls[k].req.AddBulk?
    requires Run(s, es[..until]).calls[k].phase.Refetching?
    ensures t < until && BulkWrites(s, es, t, k, Run(s, es[..until]).calls[k].phase.created)
    decreases until
  {
    t := until - 1;
    StepBetween(s, es, t);
    StepKeepsCalls(Run(s, es[..t]), es[t]);
    if Run(s, es[..t]).calls[k].phase.Refetching? {
      if es[t].Turn? && es[t].call == k {
        RefetchingStays(Run(s, es[..t]).db, Run(s, es[..t]).calls[k], es[t]);
      }
      t := RefetchingHasWritten(s, es, t, k);
    } else {
      BulkWriteStep(s, es, t, k);
    }
  }

  lemma RefetchTurn(db: Db, c: Call, e: Event)
    requires e.Turn? && c.req.AddBulk? && PhonesCanonical(db) && Fits(db, c)
    requires !c.phase.Finished? && TurnOf(db, c, e).1.phase.Finished? && TurnOf(db, c, e).1.phase.outcome.BulkAdded?
    ensures c.phase.Refetching? && TurnOf(db, c, e).1.phase.outcome.created == c.phase.created
    ensures PrefixOfRoster(db.members, c.req.classId, TurnOf(db, c, e).1.phase.outcome.items, |c.req.raws|)
  {
    FirstPageIsPrefix(db, c.req.classId, |c.req.raws|);
  }

  /** What a completed bulk add reports, in every run: its count is exact at its write step t, where the roster grows
      by it, and its items are the prefix of the sorted roster at its later refetch step u. */
  lemma BulkReportsItsInstants(s: State, es: seq<Event>, k: nat) returns (t: nat, u: nat)
    requires Beginning(s) && PhonesCanonical(s.db) && Schedule(s, es) && k < |s.calls| && s.calls[k].req.AddBulk?
    requires Run(s, es).calls[k].phase.Finished? && Run(s, es).calls[k].phase.outcome.BulkAdded?
    ensures t < u < |es| && es[u].Turn? && es[u].call == k
    ensures BulkWrites(s, es, t, k, Run(s, es).calls[k].phase.outcome.created)
    ensures PrefixOfRoster(Run(s, es[..u]).db.members, s.calls[k].req.classId, Run(s, es).calls[k].phase.outcome.items,
                           |s.calls[k].req.raws|)
  {
    u := FinishingStep(s, es, k);
    PrefixSound(s, es, u);
    SchedulePrefix(s, es, u);
    StoredPhonesReadBack(s, es[..u]);
    RunKeepsCalls(s, es[..u]);
    RefetchTurn(Run(s, es[..u]).db, Run(s, es[..u]).calls[k], es[u]);
    t := RefetchingHasWritten(s, es, u, k);
  }
}
