/** The servant mapping under any interleaving: each run of the machine is a sequential history of atomic
    roster operations, one per element of a completed `assign`
    (src/modules/classes/services/servant-class.service.ts). */
module Linearisation {
  import opened Basics
  import opened Tables
  import opened Machine

  // ---- The sequential object ----

  /** `Put` is one insert-if-absent: `isNew` is its answer. */
  datatype Op =
    | Put(index: nat, mapping: Mapping, isNew: bool)
    | Drop(mapping: Mapping)
    | DropClass(classId: Id, gone: set<Mapping>)

  /** The answers an operation gives are right for the roster it meets. */
  predicate Legal(roster: set<Mapping>, op: Op) {
    match op
    case Put(_, m, isNew) => isNew <==> m !in roster
    case Drop(m) => m in roster
    case DropClass(classId, gone) => gone == MappingsOf(roster, classId)
  }

  function Play(roster: set<Mapping>, op: Op): set<Mapping> {
    match op
    case Put(_, m, _) => roster + {m}
    case Drop(m) => roster - {m}
    case DropClass(_, gone) => roster - gone
  }

  datatype Entry = Entry(call: nat, op: Op)

  function PlayAll(roster: set<Mapping>, log: seq<Entry>): set<Mapping> {
    if log == [] then roster else Play(PlayAll(roster, log[..|log| - 1]), log[|log| - 1].op)
  }

  predicate LegalAll(roster: set<Mapping>, log: seq<Entry>) {
    log == [] || (LegalAll(roster, log[..|log| - 1]) && Legal(PlayAll(roster, log[..|log| - 1]), log[|log| - 1].op))
  }

  // ---- Linearisation points ----

  /** The roster operation that takes effect at a step: a pre-read that finds the row, an insert that
      succeeds or meets a duplicate, a successful delete, a successful class deletion. */
  function OpOf(db: Db, c: Call, e: Event): Option<Op>
    requires e.Turn?
  {
    match PendingWrite(c, e)
    case None =>
      if Reads(c, e.pick) && Mapping(c.req.userIds[e.pick], c.req.classId) in db.servants
      then Some(Put(e.pick, Mapping(c.req.userIds[e.pick], c.req.classId), false))
      else None
    case Some(InsertServant(m)) =>
      if !c.phase.Inserting? then None
      else
        (match Apply(db, InsertServant(m)).1
         case Done(_) => Some(Put(c.phase.i, m, true))
         case Failed(P2002(_)) => Some(Put(c.phase.i, m, false))
         case Failed(_) => None)
    case Some(DeleteServant(m)) => if Apply(db, DeleteServant(m)).1.Done? then Some(Drop(m)) else None
    case Some(DeleteClass(id)) =>
      if Apply(db, DeleteClass(id)).1.Done? then Some(DropClass(id, MappingsOf(db.servants, id))) else None
    case _ => None
  }

  /** The linearisation point of a step, if it is one. */
  function PointOf(s: State, e: Event): Option<Entry> {
    if e.Turn? && e.call < |s.calls| && OpOf(s.db, s.calls[e.call], e).Some?
    then Some(Entry(e.call, OpOf(s.db, s.calls[e.call], e).value))
    else None
  }

  /** Step by step, the linearisation points of a run. */
  ghost function Points(s: State, es: seq<Event>): (points: seq<Option<Entry>>)
    ensures |points| == |es|
  {
    if es == [] then [] else Points(s, es[..|es| - 1]) + [PointOf(Run(s, es[..|es| - 1]), es[|es| - 1])]
  }

  function Extend(log: seq<Entry>, point: Option<Entry>): seq<Entry> {
    if point.Some? then log + [point.value] else log
  }

  function History(points: seq<Option<Entry>>): seq<Entry> {
    if points == [] then [] else Extend(History(points[..|points| - 1]), points[|points| - 1])
  }

  /** The sequential history of a run. */
  ghost function Log(s: State, es: seq<Event>): seq<Entry> {
    History(Points(s, es))
  }

  lemma LogLast(s: State, es: seq<Event>)
    requires es != []
    ensures Log(s, es) == Extend(Log(s, es[..|es| - 1]), PointOf(Run(s, es[..|es| - 1]), es[|es| - 1]))
  {
    assert Points(s, es)[..|es| - 1] == Points(s, es[..|es| - 1]);
  }

  lemma {:induction false} PointAt(s: State, es: seq<Event>, t: nat)
    requires t < |es|
    ensures Points(s, es)[t] == PointOf(Run(s, es[..t]), es[t])
  {
    if t < |es| - 1 {
      PointAt(s, es[..|es| - 1], t);
      assert es[..|es| - 1][..t] == es[..t];
    }
  }

  /** A step changes the mapping table exactly as its operation does, and not at all if it has none. */
  lemma TurnPlays(db: Db, c: Call, e: Event)
    requires e.Turn?
    ensures var after := TurnOf(db, c, e).0.servants;
            match OpOf(db, c, e)
            case None => after == db.servants
            case Some(op) => Legal(db.servants, op) && after == Play(db.servants, op)
  {
  }

  /** Every interleaving is equivalent to the sequential history of its linearisation points: the same final
      roster, and every answer right at its place in that history. */
  lemma {:induction false} RunsLinearise(s: State, es: seq<Event>)
    ensures Run(s, es).db.servants == PlayAll(s.db.servants, Log(s, es))
    ensures LegalAll(s.db.servants, Log(s, es))
  {
    if es != [] {
      var init, e := es[..|es| - 1], es[|es| - 1];
      var before := Run(s, init);
      RunsLinearise(s, init);
      LogLast(s, es);
      StepPlays(before, e);
      if PointOf(before, e).Some? {
        assert Log(s, es)[..|Log(s, es)| - 1] == Log(s, init);
      }
    }
  }

  lemma StepPlays(s: State, e: Event)
    ensures match PointOf(s, e)
            case None => Step(s, e).db.servants == s.db.servants
            case Some(entry) =>
              Legal(s.db.servants, entry.op) && Step(s, e).db.servants == Play(s.db.servants, entry.op)
  {
    if e.Turn? && e.call < |s.calls| {
      TurnPlays(s.db, s.calls[e.call], e);
    }
  }

  // ---- What one call contributes ----

  /** Rows that call k has put in. */
  function FreshPuts(log: seq<Entry>, k: nat): nat {
    if log == [] then 0
    else
      var last := log[|log| - 1];
      FreshPuts(log[..|log| - 1], k) + if last.call == k && last.op.Put? && last.op.isNew then 1 else 0
  }

  function StalePuts(log: seq<Entry>, k: nat): nat {
    if log == [] then 0
    else
      var last := log[|log| - 1];
      StalePuts(log[..|log| - 1], k) + if last.call == k && last.op.Put? && !last.op.isNew then 1 else 0
  }

  /** Operations of call k for the element at index j. */
  function PutsAt(log: seq<Entry>, k: nat, j: nat): nat {
    if log == [] then 0
    else
      var last := log[|log| - 1];
      PutsAt(log[..|log| - 1], k, j) + if last.call == k && last.op.Put? && last.op.index == j then 1 else 0
  }

  function PutsBelow(log: seq<Entry>, k: nat, n: nat): nat {
    if n == 0 then 0 else PutsBelow(log, k, n - 1) + PutsAt(log, k, n - 1)
  }

  /** Every operation of call k is for one of its elements. */
  ghost predicate OwnPuts(log: seq<Entry>, k: nat, req: Request) {
    forall i | 0 <= i < |log| && log[i].call == k :: ForElement(log[i].op, req)
  }

  lemma {:induction false} PutsBelowLast(log: seq<Entry>, k: nat, n: nat)
    requires log != []
    ensures var last := log[|log| - 1];
            PutsBelow(log, k, n) == PutsBelow(log[..|log| - 1], k, n)
              + if last.call == k && last.op.Put? && last.op.index < n then 1 else 0
  {
    if n > 0 {
      PutsBelowLast(log, k, n - 1);
    }
  }

  lemma {:induction false} PutsBelowNone(k: nat, n: nat)
    ensures PutsBelow([], k, n) == 0
  {
    if n > 0 {
      PutsBelowNone(k, n - 1);
    }
  }

  lemma {:induction false} AllPutsCounted(log: seq<Entry>, k: nat, req: Request)
    requires req.Assign? && OwnPuts(log, k, req)
    ensures FreshPuts(log, k) + StalePuts(log, k) == PutsBelow(log, k, |req.userIds|)
  {
    if log == [] {
      PutsBelowNone(k, |req.userIds|);
    } else {
      var init := log[..|log| - 1];
      assert OwnPuts(init, k, req) by {
        forall i | 0 <= i < |init| ensures init[i] == log[i] {}
      }
      AllPutsCounted(init, k, req);
      PutsBelowLast(log, k, |req.userIds|);
    }
  }

  lemma {:induction false} OneEach(log: seq<Entry>, k: nat, n: nat)
    requires forall j | 0 <= j < n :: PutsAt(log, k, j) == 1
    ensures PutsBelow(log, k, n) == n
  {
    if n > 0 {
      OneEach(log, k, n - 1);
    }
  }

  // ---- The invariant of an assign call ----

  /** Operations done so far for the element at index j. */
  function DoneAt(c: Call, j: nat): nat {
    match c.phase
    case PreReading(seen) => if j < |seen| && seen[j] == Some(true) then 1 else 0
    case Inserting(existing, i) => if j < |existing| && (existing[j] || j < i) then 1 else 0
    case Finished(_) => 1
    case _ => 0
  }

  predicate HasThrown(c: Call) {
    c.phase.Finished? && c.phase.outcome.Threw?
  }

  ghost predicate Tally(c: Call, log: seq<Entry>, k: nat) {
    && FreshPuts(log, k) == c.inserted
    && OwnPuts(log, k, c.req)
    && (c.req.Assign? && !HasThrown(c) ==>
          forall j | 0 <= j < |c.req.userIds| :: PutsAt(log, k, j) == DoneAt(c, j))
    && InStep(c)
  }

  /** The counters of a call agree with its place in the insert loop, and with what it returns. */
  ghost predicate InStep(c: Call) {
    match c.phase
    case Inserting(_, i) => c.inserted + c.already == i
    case Finished(Assigned(inserted, already)) =>
      c.req.Assign? && inserted == c.inserted && already == c.already && inserted + already == |c.req.userIds|
    case Finished(_) => true
    case _ => c.inserted == 0 && c.already == 0
  }

  lemma InsertCounts(db: Db, c: Call, e: Event)
    requires e.Turn? && Fits(db, c) && c.phase.Inserting? && PendingWrite(c, e).Some?
    ensures var c' := TurnOf(db, c, e).1;
            var op := OpOf(db, c, e);
            && c'.req == c.req
            && c'.inserted == c.inserted + (if op.Some? && op.value.Put? && op.value.isNew then 1 else 0)
            && (op.Some? ==> ForElement(op.value, c.req))
  {
  }

  lemma WriteCounts(c: Call, w: Write, after: Db, reply: Reply)
    requires !c.phase.Inserting?
    ensures var c' := AfterWrite(c, w, after, reply); c'.req == c.req && c'.inserted == c.inserted
  {
  }

  lemma ReadCounts(db: Db, c: Call, pick: nat)
    ensures var c' := AfterRead(c, db, pick); c'.req == c.req && c'.inserted == c.inserted
  {
  }

  /** The effect of one step on the counters of the call that takes it. */
  lemma TurnCounts(db: Db, c: Call, e: Event)
    requires e.Turn? && Fits(db, c)
    ensures var c' := TurnOf(db, c, e).1;
            var op := OpOf(db, c, e);
            && c'.req == c.req
            && c'.inserted == c.inserted + (if op.Some? && op.value.Put? && op.value.isNew then 1 else 0)
            && (op.Some? ==> ForElement(op.value, c.req))
  {
    if PendingWrite(c, e).Some? {
      if c.phase.Inserting? {
        InsertCounts(db, c, e);
      } else {
        WriteCounts(c, PendingWrite(c, e).value, Apply(db, PendingWrite(c, e).value).0, Apply(db, PendingWrite(c, e).value).1);
      }
    } else {
      ReadCounts(db, c, e.pick);
    }
  }

  lemma TurnProgress(db: Db, c: Call, e: Event, j: nat)
    requires e.Turn? && Fits(db, c) && c.req.Assign? && j < |c.req.userIds|
    ensures var c' := TurnOf(db, c, e).1;
            var op := OpOf(db, c, e);
            !HasThrown(c') ==>
              DoneAt(c', j) == DoneAt(c, j) + (if op.Some? && op.value.Put? && op.value.index == j then 1 else 0)
  {
  }

  lemma ReadInStep(db: Db, c: Call, pick: nat)
    requires Fits(db, c) && InStep(c)
    ensures InStep(AfterRead(c, db, pick))
  {
  }

  lemma WriteInStep(c: Call, w: Write, after: Db, reply: Reply)
    requires InStep(c) && !c.phase.Finished?
    ensures InStep(AfterWrite(c, w, after, reply))
  {
  }

  lemma TurnInStep(db: Db, c: Call, e: Event)
    requires e.Turn? && Fits(db, c) && InStep(c)
    ensures InStep(TurnOf(db, c, e).1)
  {
    if PendingWrite(c, e).Some? {
      var w := PendingWrite(c, e).value;
      WriteInStep(c, w, Apply(db, w).0, Apply(db, w).1);
    } else {
      ReadInStep(db, c, e.pick);
    }
  }

  ghost predicate Own(point: Option<Entry>, k: nat) {
    point.Some? && point.value.call == k && point.value.op.Put?
  }

  lemma ExtendCounts(log: seq<Entry>, point: Option<Entry>, k: nat, j: nat)
    ensures FreshPuts(Extend(log, point), k)
         == FreshPuts(log, k) + (if Own(point, k) && point.value.op.isNew then 1 else 0)
    ensures PutsAt(Extend(log, point), k, j)
         == PutsAt(log, k, j) + (if Own(point, k) && point.value.op.index == j then 1 else 0)
  {
    if point.Some? {
      assert Extend(log, point)[..|log|] == log;
    }
  }

  ghost predicate ForElement(op: Op, req: Request) {
    op.Put? ==> req.Assign? && op.index < |req.userIds| && op.mapping == Mapping(req.userIds[op.index], req.classId)
  }

  lemma ElementTurn(db: Db, c: Call, e: Event, log: seq<Entry>, point: Option<Entry>, j: nat)
    requires e.Turn? && Fits(db, c) && c.req.Assign? && j < |c.req.userIds|
    requires HasThrown(c) || PutsAt(log, e.call, j) == DoneAt(c, j)
    requires point == if OpOf(db, c, e).Some? then Some(Entry(e.call, OpOf(db, c, e).value)) else None
    requires !HasThrown(TurnOf(db, c, e).1)
    ensures PutsAt(Extend(log, point), e.call, j) == DoneAt(TurnOf(db, c, e).1, j)
  {
    TurnProgress(db, c, e, j);
    ExtendCounts(log, point, e.call, j);
  }

  lemma TallyNext(c: Call, next: Call, log: seq<Entry>, point: Option<Entry>, k: nat)
    requires Tally(c, log, k) && next.req == c.req && InStep(next)
    requires next.inserted == c.inserted + (if Own(point, k) && point.value.op.isNew then 1 else 0)
    requires point.Some? ==> ForElement(point.value.op, c.req)
    requires c.req.Assign? && !HasThrown(next) ==>
               forall j | 0 <= j < |c.req.userIds| :: PutsAt(Extend(log, point), k, j) == DoneAt(next, j)
    ensures Tally(next, Extend(log, point), k)
  {
    ExtendCounts(log, point, k, 0);
  }

  lemma TallyTurn(db: Db, c: Call, e: Event, log: seq<Entry>, point: Option<Entry>)
    requires e.Turn? && Fits(db, c) && Tally(c, log, e.call)
    requires point == if OpOf(db, c, e).Some? then Some(Entry(e.call, OpOf(db, c, e).value)) else None
    ensures Tally(TurnOf(db, c, e).1, Extend(log, point), e.call)
  {
    var next := TurnOf(db, c, e).1;
    TurnCounts(db, c, e);
    TurnInStep(db, c, e);
    if c.req.Assign? && !HasThrown(next) {
      forall j | 0 <= j < |c.req.userIds| ensures PutsAt(Extend(log, point), e.call, j) == DoneAt(next, j) {
        ElementTurn(db, c, e, log, point, j);
      }
    }
    TallyNext(c, next, log, point, e.call);
  }

  lemma TallyOther(c: Call, log: seq<Entry>, point: Option<Entry>, k: nat)
    requires point.Some? ==> point.value.call != k
    requires Tally(c, log, k)
    ensures Tally(c, Extend(log, point), k)
  {
    ExtendCounts(log, point, k, 0);
    if c.req.Assign? {
      forall j | 0 <= j < |c.req.userIds| ensures PutsAt(Extend(log, point), k, j) == PutsAt(log, k, j) {
        ExtendCounts(log, point, k, j);
      }
    }
  }

  ghost predicate AllTally(s: State, log: seq<Entry>) {
    forall k | 0 <= k < |s.calls| :: Tally(s.calls[k], log, k)
  }

  lemma StepTally(s: State, e: Event, log: seq<Entry>)
    requires AllFit(s) && AllTally(s, log)
    ensures AllTally(Step(s, e), Extend(log, PointOf(s, e)))
  {
    var after := Step(s, e);
    if e.Turn? && e.call < |s.calls| {
      TallyTurn(s.db, s.calls[e.call], e, log, PointOf(s, e));
      forall k | 0 <= k < |after.calls| ensures Tally(after.calls[k], Extend(log, PointOf(s, e)), k) {
        if k != e.call {
          TallyOther(s.calls[k], log, PointOf(s, e), k);
        }
      }
    }
  }

  lemma {:induction false} RunTally(s: State, es: seq<Event>)
    requires NothingBegun(s)
    ensures AllFit(Run(s, es)) && AllTally(Run(s, es), Log(s, es))
  {
    if es != [] {
      var init, e := es[..|es| - 1], es[|es| - 1];
      RunTally(s, init);
      LogLast(s, es);
      StepFits(Run(s, init), e);
      StepTally(Run(s, init), e, Log(s, init));
    }
  }

  // ---- Each element at one instant ----

  /** At step t call k performs its operation for the element at index j. */
  ghost predicate Instant(points: seq<Option<Entry>>, t: int, k: nat, j: nat) {
    0 <= t < |points| && Own(points[t], k) && points[t].value.op.index == j
  }

  ghost predicate OnlyInstant(points: seq<Option<Entry>>, t: int, k: nat, j: nat) {
    Instant(points, t, k, j) && forall u :: Instant(points, u, k, j) ==> u == t
  }

  /** The history holds as many operations for an element as there are instants. */
  lemma {:induction false} InstantsCounted(points: seq<Option<Entry>>, k: nat, j: nat)
    ensures PutsAt(History(points), k, j) == 0 ==> forall t :: !Instant(points, t, k, j)
    ensures PutsAt(History(points), k, j) == 1 ==> exists t :: OnlyInstant(points, t, k, j)
  {
    if points != [] {
      var n := |points| - 1;
      InstantsCounted(points[..n], k, j);
      ExtendCounts(History(points[..n]), points[n], k, j);
      assert forall t | t < n :: Instant(points[..n], t, k, j) <==> Instant(points, t, k, j);
      if PutsAt(History(points), k, j) == 1 {
        if Instant(points, n, k, j) {
          assert OnlyInstant(points, n, k, j);
        } else {
          var t :| OnlyInstant(points[..n], t, k, j);
          assert OnlyInstant(points, t, k, j);
        }
      }
    }
  }

  /** Step t is an insert-if-absent of a mapping: the answer is whether the row is absent at that instant, and
      afterwards it is present. */
  ghost predicate AtomicPut(s: State, es: seq<Event>, t: int, mapping: Mapping) {
    && 0 <= t < |es|
    && var point := Points(s, es)[t];
       var before, after := Run(s, es[..t]).db.servants, Run(s, es[..t + 1]).db.servants;
       && point.Some? && point.value.op.Put? && point.value.op.mapping == mapping
       && (point.value.op.isNew <==> mapping !in before)
       && after == before + {mapping}
  }

  lemma InstantIsAtomic(s: State, es: seq<Event>, t: nat, k: nat, j: nat)
    requires NothingBegun(s) && k < |s.calls| && Instant(Points(s, es), t, k, j)
    ensures s.calls[k].req.Assign? && j < |s.calls[k].req.userIds|
    ensures AtomicPut(s, es, t, Mapping(s.calls[k].req.userIds[j], s.calls[k].req.classId))
  {
    var before := Run(s, es[..t]);
    PointAt(s, es, t);
    RunTally(s, es[..t]);
    RunKeepsCalls(s, es[..t]);
    TurnCounts(before.db, before.calls[k], es[t]);
    StepPlays(before, es[t]);
    assert es[..t + 1][..t] == es[..t];
  }

  /** The element of an assign that asks for `mapping` is one atomic insert-if-absent, at one instant of its call. */
  ghost predicate PutOnce(s: State, es: seq<Event>, k: nat, j: nat, mapping: Mapping) {
    exists t :: OnlyInstant(Points(s, es), t, k, j) && AtomicPut(s, es, t, mapping)
  }

  lemma CountedOnce(s: State, es: seq<Event>, k: nat, j: nat)
    requires NothingBegun(s) && k < |s.calls| && PutsAt(Log(s, es), k, j) == 1
    ensures s.calls[k].req.Assign? && j < |s.calls[k].req.userIds|
    ensures PutOnce(s, es, k, j, Mapping(s.calls[k].req.userIds[j], s.calls[k].req.classId))
  {
    InstantsCounted(Points(s, es), k, j);
    var t :| OnlyInstant(Points(s, es), t, k, j);
    InstantIsAtomic(s, es, t, k, j);
  }

  /** Linearisation of `assign`. Whatever else runs, each element of a completed call is one atomic
      insert-if-absent at exactly one instant of the call's own, and the counts it returns are the numbers of
      those that found the row absent and present. Stale pre-reads and repeated ids change nothing of this. */
  lemma AssignLinearises(s: State, es: seq<Event>, k: nat, inserted: nat, already: nat)
    requires NothingBegun(s) && k < |s.calls|
    requires Run(s, es).calls[k].phase == Finished(Assigned(inserted, already))
    ensures var req := s.calls[k].req;
            && req.Assign?
            && (forall j | 0 <= j < |req.userIds| :: PutOnce(s, es, k, j, Mapping(req.userIds[j], req.classId)))
            && inserted == FreshPuts(Log(s, es), k)
            && already == StalePuts(Log(s, es), k)
            && inserted + already == |req.userIds|
  {
    var req := s.calls[k].req;
    var log := Log(s, es);
    RunTally(s, es);
    RunKeepsCalls(s, es);
    assert Tally(Run(s, es).calls[k], log, k);
    OneEach(log, k, |req.userIds|);
    AllPutsCounted(log, k, req);
    forall j | 0 <= j < |req.userIds| ensures PutOnce(s, es, k, j, Mapping(req.userIds[j], req.classId)) {
      CountedOnce(s, es, k, j);
    }
  }

  // ---- Real-time order ----

  /** Step t is the instant of some operation of call k: an insert-if-absent, a delete or a class deletion. */
  ghost predicate Performs(s: State, es: seq<Event>, t: int, k: nat) {
    0 <= t < |es| && Points(s, es)[t].Some? && Points(s, es)[t].value.call == k
  }

  lemma OperationUnderWay(db: Db, c: Call, e: Event)
    requires e.Turn? && OpOf(db, c, e).Some?
    ensures !c.phase.Start? && !c.phase.Finished?
    ensures !c.req.Assign? ==> TurnOf(db, c, e).1.phase.Finished?
  {
  }

  /** A call performs its operations strictly inside itself: at steps of its own, after it has begun and before it
      has finished. */
  lemma InstantInsideCall(s: State, es: seq<Event>, t: nat, k: nat)
    requires Performs(s, es, t, k)
    ensures k < |s.calls| && es[t].Turn? && es[t].call == k
    ensures !Run(s, es[..t]).calls[k].phase.Start? && !Run(s, es[..t]).calls[k].phase.Finished?
  {
    PointAt(s, es, t);
    OperationUnderWay(Run(s, es[..t]).db, Run(s, es[..t]).calls[k], es[t]);
  }

  lemma TurnOnward(db: Db, c: Call, e: Event)
    requires e.Turn?
    ensures c.phase.Finished? ==> TurnOf(db, c, e).1.phase.Finished?
    ensures !c.phase.Start? ==> !TurnOf(db, c, e).1.phase.Start?
  {
  }

  /** A finished call stays finished and a begun call stays begun. */
  lemma {:induction false} PhasesOnward(s: State, es: seq<Event>, n: nat, k: nat)
    requires n <= |es| && k < |s.calls|
    ensures Run(s, es[..n]).calls[k].phase.Finished? ==> Run(s, es).calls[k].phase.Finished?
    ensures !Run(s, es[..n]).calls[k].phase.Start? ==> !Run(s, es).calls[k].phase.Start?
    decreases |es|
  {
    if n == |es| {
      assert es[..n] == es;
    } else {
      var init, e := es[..|es| - 1], es[|es| - 1];
      PhasesOnward(s, init, n, k);
      assert init[..n] == es[..n];
      StepKeepsCalls(Run(s, init), e);
      if e.Turn? && e.call == k {
        TurnOnward(Run(s, init).db, Run(s, init).calls[k], e);
      }
    }
  }

  lemma PhasesBetween(s: State, es: seq<Event>, n: nat, t: nat, k: nat)
    requires n <= t <= |es| && k < |s.calls|
    ensures Run(s, es[..n]).calls[k].phase.Finished? ==> Run(s, es[..t]).calls[k].phase.Finished?
    ensures !Run(s, es[..n]).calls[k].phase.Start? ==> !Run(s, es[..t]).calls[k].phase.Start?
  {
    PhasesOnward(s, es[..t], n, k);
    assert es[..t][..n] == es[..n];
  }

  /** The history respects real time: if one call has finished before another begins, every operation of the
      first comes before every operation of the second, whatever kind of call they are. */
  lemma RealTimeOrder(s: State, es: seq<Event>, n: nat, k: nat, later: nat, t: nat, u: nat)
    requires n <= |es| && k < |s.calls| && later < |s.calls|
    requires Run(s, es[..n]).calls[k].phase.Finished? && Run(s, es[..n]).calls[later].phase.Start?
    requires Performs(s, es, t, k) && Performs(s, es, u, later)
    ensures t < n <= u
  {
    InstantInsideCall(s, es, t, k);
    InstantInsideCall(s, es, u, later);
    if n <= t {
      PhasesBetween(s, es, n, t, k);
    }
    if u < n {
      PhasesBetween(s, es, u, n, later);
    }
  }

  // ---- Removals at one instant ----

  /** An operation of a call other than `assign` is the last thing the call does. */
  lemma OperationEndsCall(s: State, es: seq<Event>, t: nat, k: nat)
    requires k < |s.calls| && Performs(s, es, t, k) && !s.calls[k].req.Assign?
    ensures Run(s, es[..t + 1]).calls[k].phase.Finished?
  {
    PointAt(s, es, t);
    OperationUnderWay(Run(s, es[..t]).db, Run(s, es[..t]).calls[k], es[t]);
    RunKeepsCalls(s, es[..t]);
    assert es[..t + 1][..t] == es[..t];
  }

  lemma OnlyLastStepPerforms(s: State, es: seq<Event>, t: nat, u: nat, k: nat)
    requires k < |s.calls| && !s.calls[k].req.Assign? && t < |es| && es[t].Turn? && es[t].call == k
    requires !Run(s, es[..t]).calls[k].phase.Finished? && Run(s, es[..t + 1]).calls[k].phase.Finished?
    requires Performs(s, es, u, k)
    ensures u == t
  {
    InstantInsideCall(s, es, u, k);
    if u < t {
      OperationEndsCall(s, es, u, k);
      PhasesBetween(s, es, u + 1, t, k);
    } else if t < u {
      PhasesBetween(s, es, t + 1, u, k);
    }
  }

  /** Step t of call k removes the row if it is there: at the call's check if the row is absent then, and otherwise
      at its delete. */
  ghost predicate AtomicRemove(s: State, es: seq<Event>, t: int, k: nat, m: Mapping)
    requires k < |s.calls|
  {
    && 0 <= t < |es| && es[t].Turn? && es[t].call == k
    && var before, after := Run(s, es[..t]).db.servants, Run(s, es[..t + 1]).db.servants;
       && after == before - {m}
       && Points(s, es)[t] == (if m in before then Some(Entry(k, Drop(m))) else None)
       && Run(s, es[..t]).calls[k].phase == (if m in before then Writing else CheckMapping)
  }

  lemma UnassignLastTurn(db: Db, c: Call, e: Event)
    requires e.Turn? && c.req.Unassign? && !c.phase.Finished? && TurnOf(db, c, e).1.phase == Finished(Completed)
    ensures var m := Mapping(c.req.userId, c.req.classId);
            && TurnOf(db, c, e).0.servants == db.servants - {m}
            && OpOf(db, c, e) == (if m in db.servants then Some(Drop(m)) else None)
            && c.phase == (if m in db.servants then Writing else CheckMapping)
  {
  }

  /** Linearisation of `unassign`. Whatever else runs, a completed call is one atomic remove-if-present at one
      instant of its own, and does nothing to the mapping table at any other. */
  lemma UnassignLinearises(s: State, es: seq<Event>, k: nat) returns (t: nat)
    requires k < |s.calls| && !s.calls[k].phase.Finished? && s.calls[k].req.Unassign?
    requires Run(s, es).calls[k].phase == Finished(Completed)
    ensures AtomicRemove(s, es, t, k, Mapping(s.calls[k].req.userId, s.calls[k].req.classId))
    ensures forall u | Performs(s, es, u, k) :: u == t
  {
    t := FinishingStep(s, es, k);
    PointAt(s, es, t);
    RunKeepsCalls(s, es[..t]);
    UnassignLastTurn(Run(s, es[..t]).db, Run(s, es[..t]).calls[k], es[t]);
    assert es[..t + 1][..t] == es[..t];
    forall u | Performs(s, es, u, k) ensures u == t {
      OnlyLastStepPerforms(s, es, t, u, k);
    }
  }

  /** Step t of call k deletes the class and, with it, exactly the mappings it has at that instant. */
  ghost predicate AtomicClassDeletion(s: State, es: seq<Event>, t: int, k: nat, classId: Id) {
    && 0 <= t < |es| && es[t].Turn? && es[t].call == k
    && var before, after := Run(s, es[..t]).db, Run(s, es[..t + 1]).db;
       && classId in before.classes && after.classes == before.classes - {classId}
       && after.servants == before.servants - MappingsOf(before.servants, classId)
       && Points(s, es)[t] == Some(Entry(k, DropClass(classId, MappingsOf(before.servants, classId))))
  }

  lemma ClassDeletionLastTurn(db: Db, c: Call, e: Event)
    requires e.Turn? && c.req.RemoveClass? && !c.phase.Finished? && TurnOf(db, c, e).1.phase == Finished(Completed)
    ensures var (classId, after) := (c.req.classId, TurnOf(db, c, e).0);
            && classId in db.classes && after.classes == db.classes - {classId}
            && after.servants == db.servants - MappingsOf(db.servants, classId)
            && OpOf(db, c, e) == Some(DropClass(classId, MappingsOf(db.servants, classId)))
  {
  }

  /** Linearisation of class deletion: a completed call is one atomic deletion at one instant of its own. */
  lemma ClassDeletionLinearises(s: State, es: seq<Event>, k: nat) returns (t: nat)
    requires k < |s.calls| && !s.calls[k].phase.Finished? && s.calls[k].req.RemoveClass?
    requires Run(s, es).calls[k].phase == Finished(Completed)
    ensures AtomicClassDeletion(s, es, t, k, s.calls[k].req.classId)
    ensures forall u | Performs(s, es, u, k) :: u == t
  {
    t := FinishingStep(s, es, k);
    PointAt(s, es, t);
    RunKeepsCalls(s, es[..t]);
    ClassDeletionLastTurn(Run(s, es[..t]).db, Run(s, es[..t]).calls[k], es[t]);
    assert es[..t + 1][..t] == es[..t];
    forall u | Performs(s, es, u, k) ensures u == t {
      OnlyLastStepPerforms(s, es, t, u, k);
    }
  }

  /** A call other than `assign` that throws has performed nothing. */
  lemma ThrownCallsPerformNothing(s: State, es: seq<Event>, k: nat, u: int)
    requires k < |s.calls| && !s.calls[k].phase.Finished? && !s.calls[k].req.Assign?
    requires HasThrown(Run(s, es).calls[k])
    ensures !Performs(s, es, u, k)
  {
    if Performs(s, es, u, k) {
      var t := FinishingStep(s, es, k);
      RunKeepsCalls(s, es[..t]);
      PointAt(s, es, t);
      assert es[..t + 1][..t] == es[..t];
      OnlyLastStepPerforms(s, es, t, u, k);
      assert false;
    }
  }
}
