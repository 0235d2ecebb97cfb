/** Counting consequences of the linearisation: conservation of mapping rows, overlapping assigns, and the
    unassign race (src/modules/classes/services/servant-class.service.ts). */
module Accounting {
  import opened Basics
  import opened Tables
  import opened Entities
  import opened Machine
  import opened Linearisation

  // ---- Conservation ----

  /** The `assigned` counters of all calls: finished, in flight and aborted. */
  function SumInserted(calls: seq<Call>): nat {
    if calls == [] then 0 else SumInserted(calls[..|calls| - 1]) + calls[|calls| - 1].inserted
  }

  /** Rows deleted by `unassign`. */
  function Dropped(log: seq<Entry>): nat {
    if log == [] then 0 else Dropped(log[..|log| - 1]) + if log[|log| - 1].op.Drop? then 1 else 0
  }

  /** Rows that went with a deleted class. */
  function Cascaded(log: seq<Entry>): nat {
    if log == [] then 0
    else Cascaded(log[..|log| - 1]) + match log[|log| - 1].op case DropClass(_, gone) => |gone| case _ => 0
  }

  lemma {:induction false} SumUpdated(calls: seq<Call>, k: nat, c: Call)
    requires k < |calls|
    ensures SumInserted(calls[k := c]) == SumInserted(calls) - calls[k].inserted + c.inserted
  {
    var n := |calls| - 1;
    if k < n {
      SumUpdated(calls[..n], k, c);
      assert calls[k := c][..n] == calls[..n][k := c];
    } else {
      assert calls[k := c][..n] == calls[..n];
    }
  }

  lemma {:induction false} NothingInserted(calls: seq<Call>)
    requires forall k | 0 <= k < |calls| :: calls[k].inserted == 0
    ensures SumInserted(calls) == 0
  {
    if calls != [] {
      NothingInserted(calls[..|calls| - 1]);
    }
  }

  lemma MoreCounted(log: seq<Entry>, point: Option<Entry>)
    ensures Dropped(Extend(log, point)) == Dropped(log) + (if point.Some? && point.value.op.Drop? then 1 else 0)
    ensures Cascaded(Extend(log, point))
         == Cascaded(log) + (if point.Some? && point.value.op.DropClass? then |point.value.op.gone| else 0)
  {
    if point.Some? {
      assert Extend(log, point)[..|log|] == log;
    }
  }

  /** How one operation changes the size of the roster. */
  lemma PlaySize(roster: set<Mapping>, op: Op)
    requires Legal(roster, op)
    ensures |Play(roster, op)| == match op
              case Put(_, _, isNew) => |roster| + if isNew then 1 else 0
              case Drop(_) => |roster| - 1
              case DropClass(_, gone) => |roster| - |gone|
  {
    match op
    case Put(_, m, isNew) =>
      if !isNew {
        assert roster + {m} == roster;
      }
    case Drop(m) =>
    case DropClass(_, gone) =>
      assert gone <= roster;
  }

  lemma StepSum(s: State, e: Event)
    requires AllFit(s)
    ensures SumInserted(Step(s, e).calls)
         == SumInserted(s.calls)
            + (if PointOf(s, e).Some? && PointOf(s, e).value.op.Put? && PointOf(s, e).value.op.isNew then 1 else 0)
  {
    if e.Turn? && e.call < |s.calls| {
      TurnCounts(s.db, s.calls[e.call], e);
      SumUpdated(s.calls, e.call, TurnOf(s.db, s.calls[e.call], e).1);
    }
  }

  /** Conservation. In every reachable state the mapping table holds its initial rows, plus one for each count
      in the `assigned` counters of all calls, minus the rows unassigned, minus the rows cascaded. */
  lemma {:induction false} RowsConserved(s: State, es: seq<Event>)
    requires NothingBegun(s)
    ensures |Run(s, es).db.servants| + Dropped(Log(s, es)) + Cascaded(Log(s, es))
         == |s.db.servants| + SumInserted(Run(s, es).calls)
  {
    if es == [] {
      NothingInserted(s.calls);
    } else {
      var init, e := es[..|es| - 1], es[|es| - 1];
      var before := Run(s, init);
      RowsConserved(s, init);
      RunTally(s, init);
      LogLast(s, es);
      MoreCounted(Log(s, init), PointOf(before, e));
      StepSum(before, e);
      StepPlays(before, e);
      if PointOf(before, e).Some? {
        PlaySize(before.db.servants, PointOf(before, e).value.op);
      }
    }
  }

  // ---- Overlapping assigns on one class ----

  ghost predicate OnlyAssigns(s: State, classId: Id) {
    forall k | 0 <= k < |s.calls| :: s.calls[k].req.Assign? && s.calls[k].req.classId == classId
  }

  ghost predicate AllAssigned(s: State) {
    forall k | 0 <= k < |s.calls| :: s.calls[k].phase.Finished? && s.calls[k].phase.outcome.Assigned?
  }

  /** The mappings the calls ask for. */
  ghost function Requested(s: State): set<Mapping> {
    set k, j | 0 <= k < |s.calls| && s.calls[k].req.Assign? && 0 <= j < |s.calls[k].req.userIds| ::
      Mapping(s.calls[k].req.userIds[j], s.calls[k].req.classId)
  }

  function PutMappings(log: seq<Entry>): set<Mapping> {
    set i | 0 <= i < |log| && log[i].op.Put? :: log[i].op.mapping
  }

  ghost predicate OnlyPuts(log: seq<Entry>) {
    forall i | 0 <= i < |log| :: log[i].op.Put?
  }

  lemma {:induction false} PutsAccumulate(roster: set<Mapping>, log: seq<Entry>)
    requires OnlyPuts(log)
    ensures PlayAll(roster, log) == roster + PutMappings(log)
    ensures Dropped(log) == 0 && Cascaded(log) == 0
  {
    if log != [] {
      var init := log[..|log| - 1];
      assert forall i | 0 <= i < |init| :: init[i] == log[i];
      PutsAccumulate(roster, init);
      assert PutMappings(log) == PutMappings(init) + {log[|log| - 1].op.mapping} by {
        assert log[|log| - 1].op.mapping in PutMappings(log);
      }
    }
  }

  /** An assign call never performs anything but inserts-if-absent. */
  lemma AssignOnlyPuts(db: Db, c: Call, e: Event)
    requires e.Turn? && c.req.Assign? && Fits(db, c) && OpOf(db, c, e).Some?
    ensures OpOf(db, c, e).value.Put?
  {
  }

  lemma {:induction false} AssignRunsOnlyPut(s: State, es: seq<Event>, classId: Id)
    requires NothingBegun(s) && OnlyAssigns(s, classId)
    ensures OnlyPuts(Log(s, es)) && forall i | 0 <= i < |Log(s, es)| :: Log(s, es)[i].call < |s.calls|
  {
    if es != [] {
      var init, e := es[..|es| - 1], es[|es| - 1];
      var before := Run(s, init);
      AssignRunsOnlyPut(s, init, classId);
      LogLast(s, es);
      RunTally(s, init);
      RunKeepsCalls(s, init);
      if PointOf(before, e).Some? {
        AssignOnlyPuts(before.db, before.calls[e.call], e);
      }
    }
  }

  /** The history of a completed call mentions each of its elements. */
  lemma {:induction false} CountedMeansLogged(log: seq<Entry>, k: nat, j: nat) returns (i: nat)
    requires PutsAt(log, k, j) >= 1
    ensures i < |log| && log[i].call == k && log[i].op.Put? && log[i].op.index == j
  {
    var last := log[|log| - 1];
    if last.call == k && last.op.Put? && last.op.index == j {
      i := |log| - 1;
    } else {
      i := CountedMeansLogged(log[..|log| - 1], k, j);
    }
  }

  lemma LoggedIsRequested(s: State, es: seq<Event>, classId: Id, i: nat)
    requires NothingBegun(s) && OnlyAssigns(s, classId) && i < |Log(s, es)|
    ensures Log(s, es)[i].op.Put? && Log(s, es)[i].op.mapping in Requested(s)
  {
    RunTally(s, es);
    RunKeepsCalls(s, es);
    AssignRunsOnlyPut(s, es, classId);
    var k := Log(s, es)[i].call;
    assert Tally(Run(s, es).calls[k], Log(s, es), k);
    assert ForElement(Log(s, es)[i].op, s.calls[k].req);
  }

  lemma RequestedIsLogged(s: State, es: seq<Event>, k: nat, j: nat)
    requires NothingBegun(s) && AllAssigned(Run(s, es))
    requires k < |s.calls| && s.calls[k].req.Assign? && j < |s.calls[k].req.userIds|
    ensures Mapping(s.calls[k].req.userIds[j], s.calls[k].req.classId) in PutMappings(Log(s, es))
  {
    RunTally(s, es);
    RunKeepsCalls(s, es);
    assert Tally(Run(s, es).calls[k], Log(s, es), k);
    var i := CountedMeansLogged(Log(s, es), k, j);
    assert ForElement(Log(s, es)[i].op, s.calls[k].req);
  }

  lemma CompletedPutsAreRequested(s: State, es: seq<Event>, classId: Id)
    requires NothingBegun(s) && OnlyAssigns(s, classId) && AllAssigned(Run(s, es))
    ensures PutMappings(Log(s, es)) == Requested(s)
  {
    forall m | m in PutMappings(Log(s, es)) ensures m in Requested(s) {
      var i :| 0 <= i < |Log(s, es)| && Log(s, es)[i].op.Put? && Log(s, es)[i].op.mapping == m;
      LoggedIsRequested(s, es, classId, i);
    }
    forall m | m in Requested(s) ensures m in PutMappings(Log(s, es)) {
      var k, j :| 0 <= k < |s.calls| && s.calls[k].req.Assign? && 0 <= j < |s.calls[k].req.userIds|
        && m == Mapping(s.calls[k].req.userIds[j], s.calls[k].req.classId);
      RequestedIsLogged(s, es, k, j);
    }
  }

  /** When only assigns on one class overlap and all complete, the roster is the old one with every requested
      servant added, whatever the schedule. */
  lemma OverlappingAssignsUnion(s: State, es: seq<Event>, classId: Id)
    requires NothingBegun(s) && OnlyAssigns(s, classId) && AllAssigned(Run(s, es))
    ensures Run(s, es).db.servants == s.db.servants + Requested(s)
    ensures Dropped(Log(s, es)) == 0 && Cascaded(Log(s, es)) == 0
  {
    RunsLinearise(s, es);
    AssignRunsOnlyPut(s, es, classId);
    PutsAccumulate(s.db.servants, Log(s, es));
    CompletedPutsAreRequested(s, es, classId);
  }

  lemma UnionSize(roster: set<Mapping>, asked: set<Mapping>)
    ensures |roster + asked| == |roster| + |asked - roster|
  {
    assert roster + asked == roster + (asked - roster);
  }

  /** Overlapping assigns never count a row twice. When only assigns on one class overlap and all complete,
      their `assigned` counts sum to the number of distinct requested servants not mapped at the start, whatever
      the schedule, and each call's two counts add up to the length of its list. */
  lemma OverlappingAssignsSum(s: State, es: seq<Event>, classId: Id)
    requires NothingBegun(s) && OnlyAssigns(s, classId) && AllAssigned(Run(s, es))
    ensures SumInserted(Run(s, es).calls) == |Requested(s) - s.db.servants|
    ensures forall k | 0 <= k < |s.calls| ::
              Run(s, es).calls[k].inserted + Run(s, es).calls[k].already == |s.calls[k].req.userIds|
  {
    OverlappingAssignsUnion(s, es, classId);
    RowsConserved(s, es);
    UnionSize(s.db.servants, Requested(s));
    forall k | 0 <= k < |s.calls|
      ensures Run(s, es).calls[k].inserted + Run(s, es).calls[k].already == |s.calls[k].req.userIds|
    {
      CompletedCounts(s, es, k);
    }
  }

  lemma CompletedCounts(s: State, es: seq<Event>, k: nat)
    requires NothingBegun(s) && k < |s.calls| && AllAssigned(Run(s, es))
    ensures Run(s, es).calls[k].req == s.calls[k].req && s.calls[k].req.Assign?
    ensures Run(s, es).calls[k].inserted + Run(s, es).calls[k].already == |s.calls[k].req.userIds|
  {
    RunTally(s, es);
    RunKeepsCalls(s, es);
    assert Tally(Run(s, es).calls[k], Log(s, es), k);
  }

  /** The only way an insert of `assign` aborts the call, under any interleaving: the class has been deleted since
      it was checked. Duplicates never escape, and the users are still known. */
  lemma InsertAbortsExactly(s: State, e: Event, error: Error)
    requires Consistent(s.db) && AllFit(s) && e.Turn? && e.call < |s.calls|
    requires s.calls[e.call].req.Assign? && s.calls[e.call].phase.Inserting?
    requires PendingWrite(s.calls[e.call], e).Some?
    ensures Step(s, e).calls[e.call].phase == Finished(Threw(error))
       <==> s.calls[e.call].req.classId !in s.db.classes && error == Store(P2003(ServantToClass))
  {
    assert Fits(s.db, s.calls[e.call]);
  }

  // ---- One mapping row over a run ----

  function Bit(b: bool): nat {
    if b then 1 else 0
  }

  predicate Removes(op: Op, m: Mapping) {
    match op
    case Put(_, _, _) => false
    case Drop(d) => d == m
    case DropClass(_, gone) => m in gone
  }

  function Insertions(log: seq<Entry>, m: Mapping): nat {
    if log == [] then 0
    else
      var op := log[|log| - 1].op;
      Insertions(log[..|log| - 1], m) + Bit(op.Put? && op.isNew && op.mapping == m)
  }

  function Removals(log: seq<Entry>, m: Mapping): nat {
    if log == [] then 0 else Removals(log[..|log| - 1], m) + Bit(Removes(log[|log| - 1].op, m))
  }

  lemma {:induction false} RowBalance(roster: set<Mapping>, log: seq<Entry>, m: Mapping)
    requires LegalAll(roster, log)
    ensures Bit(m in PlayAll(roster, log)) + Removals(log, m) == Bit(m in roster) + Insertions(log, m)
  {
    if log != [] {
      RowBalance(roster, log[..|log| - 1], m);
    }
  }

  /** In every run each mapping row is inserted and removed in turn: its presence at the end is its presence at
      the start plus the inserts that created it minus the unassigns and cascades that removed it. */
  lemma EachRowAccounted(s: State, es: seq<Event>, m: Mapping)
    ensures Bit(m in Run(s, es).db.servants) + Removals(Log(s, es), m)
         == Bit(m in s.db.servants) + Insertions(Log(s, es), m)
  {
    RunsLinearise(s, es);
    RowBalance(s.db.servants, Log(s, es), m);
  }

  /** Step t is a successful `unassign` of the row, or the deletion of its class. */
  ghost predicate Takes(s: State, es: seq<Event>, t: int, m: Mapping) {
    0 <= t < |es| && PointOf(Run(s, es[..t]), es[t]).Some? && Removes(PointOf(Run(s, es[..t]), es[t]).value.op, m)
  }

  lemma {:induction false} LostRowWasTaken(s: State, es: seq<Event>, from: nat, m: Mapping) returns (t: nat)
    requires from <= |es|
    requires m in Run(s, es[..from]).db.servants && m !in Run(s, es).db.servants
    ensures from <= t < |es| && Takes(s, es, t, m)
    decreases |es|
  {
    assert es[..|es|] == es;
    var n := |es| - 1;
    assert from <= n;
    if m in Run(s, es[..n]).db.servants {
      StepPlays(Run(s, es[..n]), es[n]);
      t := n;
    } else {
      assert es[..n][..from] == es[..from];
      t := LostRowWasTaken(s, es[..n], from, m);
      assert es[..n][..t] == es[..t];
    }
  }

  /** The delete step of an `unassign` that passed its check: it fails with P2025 exactly when the row is absent
      at that instant, and otherwise removes that row and no other. */
  lemma UnassignDeletes(s: State, e: Event)
    requires e.Turn? && e.call < |s.calls|
    requires s.calls[e.call].req.Unassign? && s.calls[e.call].phase == Writing
    ensures var c := s.calls[e.call];
            var m := Mapping(c.req.userId, c.req.classId);
            var after := Step(s, e);
            && (after.calls[e.call].phase == Finished(Threw(Store(P2025))) <==> m !in s.db.servants)
            && (after.calls[e.call].phase == Finished(Completed) <==> m in s.db.servants)
            && after.db.servants == s.db.servants - {m}
  {
  }

  /** The check step of an `unassign`: it goes on exactly when it finds the row. */
  lemma UnassignChecks(s: State, e: Event)
    requires e.Turn? && e.call < |s.calls|
    requires s.calls[e.call].req.Unassign? && s.calls[e.call].phase == CheckMapping
    ensures var m := Mapping(s.calls[e.call].req.userId, s.calls[e.call].req.classId);
            && Step(s, e).db == s.db
            && (Step(s, e).calls[e.call].phase == Writing <==> m in s.db.servants)
  {
  }

  /** The unassign race, over a whole run: if the row was there when the call checked it at step t and gone when
      it deleted, some other step in between, a successful unassign or a class deletion, took exactly that row. */
  lemma UnassignRace(s: State, es: seq<Event>, t: nat, e: Event, m: Mapping) returns (taker: nat)
    requires t < |es| && es[t].Turn? && es[t].call < |s.calls|
    requires e.Turn? && e.call == es[t].call
    requires var c := Run(s, es[..t]).calls[es[t].call];
             c.req.Unassign? && c.phase == CheckMapping && m == Mapping(c.req.userId, c.req.classId)
    requires Run(s, es[..t + 1]).calls[es[t].call].phase == Writing
    requires Run(s, es).calls[es[t].call].phase == Writing
    requires Step(Run(s, es), e).calls[e.call].phase == Finished(Threw(Store(P2025)))
    ensures t < taker < |es| && Takes(s, es, taker, m)
  {
    assert es[..t + 1][..t] == es[..t];
    UnassignChecks(Run(s, es[..t]), es[t]);
    RunKeepsCalls(s, es[..t]);
    RunKeepsCalls(s, es);
    UnassignDeletes(Run(s, es), e);
    taker := LostRowWasTaken(s, es, t + 1, m);
  }
}
