// When an alias call that returns without an exception has united its two distinct ids.
module PersonUniting {
  import opened Wrappers
  import opened PersonTables
  import opened PersonInterleaving
  import opened PersonSteps
  import opened PersonLocks
  import PersonSequential

  // What can come between a call and its purpose.
  datatype Obstacle =
    | FailedStatement // a statement of the call, or of a call that it makes, is answered with an error
    | StaleRead       // what the call has read about its ids is out of date when it decides or writes, unnoticed
    | Refusal         // $identify does not merge a person that is already identified

  function PersonOf(t: Tables, k: Key): Option<nat> {
    if k in t.ids then Some(t.ids[k]) else None
  }

  function IdOf(p: Option<Person>): Option<nat> {
    if p.Some? then Some(p.value.id) else None
  }

  // Both distinct ids still belong to the persons that the frame has read, or to none.
  predicate Current(t: Tables, f: Frame) {
    match f
    case AliasFrame(_, previousId, distinctId, team, _, _, _, oldPerson, newPerson) =>
      PersonOf(t, Key(team, previousId)) == IdOf(oldPerson) && PersonOf(t, Key(team, distinctId)) == IdOf(newPerson)
    case MergeFrame(_, into, other, intoId, otherId, _, _, _, _, _) =>
      PersonOf(t, Key(into.team, otherId)) == Some(other.id) && PersonOf(t, Key(into.team, intoId)) == Some(into.id)
    case CreateFrame(_, _, _) => true
  }

  // The steps that rely on what was read.
  predicate Relies(f: Frame) {
    (f.AliasFrame? && f.apc == Decide) || (f.MergeFrame? && f.mpc == Move)
  }

  predicate Refuses(f: Frame) {
    && f.AliasFrame? && f.apc == Decide && f.oldPerson.Some? && f.newPerson.Some?
    && f.oldPerson.value.id != f.newPerson.value.id && f.identify && f.oldPerson.value.isIdentified
  }

  // An insert that does not succeed is no obstacle to a first call, which is run again.
  function ObstaclesAt(t: Tables, f: Frame, a: Answer): set<Obstacle> {
    if Retried(t, f, a) then {}
    else
      (if a.error.Some? then {FailedStatement} else {})
      + (if Relies(f) && !Current(t, f) then {StaleRead} else {})
      + (if Refuses(f) then {Refusal} else {})
  }

  // What worker i meets in a turn.
  predicate MeetsOnly(c: Config, turn: Turn, i: nat, allowed: set<Obstacle>) {
    turn.worker == i && i < |c.workers| && c.workers[i].stack != [] ==>
      ObstaclesAt(c.tables, c.workers[i].stack[0], turn.answer) <= allowed
  }

  // Turns of workers that need not wait, in which worker i meets no other obstacles.
  ghost function Meets(i: nat, allowed: set<Obstacle>): (Config, Turn) -> bool {
    (c, turn) => Runs(c, turn) && MeetsOnly(c, turn, i, allowed)
  }

  // ----- a call without obstacles unites -----

  // The call alias(a, b) before the statement that unites the two ids.
  predicate OnItsWay(stack: seq<Frame>, a: Key, b: Key) {
    && a.team == b.team && a != b && stack != []
    && var f := stack[0];
       || (f.AliasFrame? && (f.apc == FetchOld || f.apc == FetchNew || f.apc == Decide)
           && Key(f.team, f.previousId) == a && Key(f.team, f.distinctId) == b)
       || (f.MergeFrame? && (f.mpc == TxUpdate || f.mpc == Move) && f.into.id != f.other.id
           && Key(f.into.team, f.otherId) == a && Key(f.into.team, f.intoId) == b)
  }

  ghost predicate UnitesOrGoesOn(t: Tables, w: Worker, a: Key, b: Key) {
    SamePerson(t, a, b) || OnItsWay(w.stack, a, b)
  }

  lemma InsertUnites(t: Tables, f: Frame, answer: Answer, a: Key, b: Key)
    requires Consistent(t) && FrameOk(t, f) && f.AliasFrame? && Current(t, f) && a != b
    requires Key(f.team, f.previousId) == a && Key(f.team, f.distinctId) == b
    requires f.oldPerson.None? || f.newPerson.None?
    ensures var r := DecideStatement(t, f, answer); r.Ok? && SamePerson(r.value, a, b)
  {
    if f.oldPerson.None? && f.newPerson.None? {
      PersonSequential.CreateJoins(t, a, b, f.identify, answer.now, answer.uuid);
      assert PersonSequential.InClassOf(t, a, a) && PersonSequential.InClassOf(t, b, b);
    }
  }

  lemma MoveUnites(t: Tables, f: Frame, a: Key, b: Key)
    requires Consistent(t) && f.MergeFrame? && Current(t, f) && f.into.id != f.other.id && a != b
    requires Key(f.into.team, f.otherId) == a && Key(f.into.team, f.intoId) == b
    ensures var r := MoveDistinctIds(t, f.other.id, f.into.id, f.into.team); r.Ok? && SamePerson(r.value, a, b)
  {
    assert a in RowsOf(t, f.other.id, f.into.team);
  }

  lemma StepUnitesOrGoesOn(t: Tables, w: Worker, answer: Answer, a: Key, b: Key)
    requires Consistent(t) && WorkerOk(t, w) && OnItsWay(w.stack, a, b)
    requires ObstaclesAt(t, w.stack[0], answer) == {}
    ensures var (t', w') := StepWorker(t, w, answer); UnitesOrGoesOn(t', w', a, b)
  {
    var f := w.stack[0];
    assert f in w.stack && FrameOk(t, f);
    hide Consistent, FrameOk, FetchPerson, DecideStatement, MoveDistinctIds, StepWorker, WorkerOk;
    if Retried(t, f, answer) {
      InsertIsRetried(t, w, answer, f);
    } else if f.AliasFrame? {
      if f.apc == FetchOld {
        FetchesOld(t, w, answer, f);
      } else if f.apc == FetchNew {
        FetchesNew(t, w, answer, f);
      } else {
        DecideUnitesOrGoesOn(t, w, answer, a, b, f);
      }
    } else if f.mpc == TxUpdate {
      Updates(t, w, answer, f);
    } else {
      MoveUnites(t, f, a, b);
      Moves(t, w, answer, f);
    }
  }

  lemma DecideUnitesOrGoesOn(t: Tables, w: Worker, answer: Answer, a: Key, b: Key, f: Frame)
    requires Consistent(t) && FrameOk(t, f) && w.stack != [] && w.stack[0] == f && f.AliasFrame? && f.apc == Decide
    requires Key(f.team, f.previousId) == a && Key(f.team, f.distinctId) == b && a != b
    requires Current(t, f) && answer.error.None? && !Refuses(f)
    ensures var (t', w') := StepWorker(t, w, answer); UnitesOrGoesOn(t', w', a, b)
  {
    if f.oldPerson.Some? && f.newPerson.Some? {
      assert f.newPerson.value.team == f.team;
      hide Consistent, FrameOk, StepWorker;
      Decides(t, w, answer, f);
    } else {
      hide Consistent, FrameOk, StepWorker, DecideStatement;
      InsertUnites(t, f, answer, a, b);
      Inserts(t, w, answer, f);
    }
  }

  lemma {:induction false} CleanRunUnites(c: Config, schedule: seq<Turn>, i: nat, a: Key, b: Key)
    requires Inv(c) && i < |c.workers| && UnitesOrGoesOn(c.tables, c.workers[i], a, b)
    requires Always(c, schedule, Meets(i, {}))
    ensures var c' := Run(c, schedule); |c'.workers| == |c.workers| && UnitesOrGoesOn(c'.tables, c'.workers[i], a, b)
    decreases |schedule|
  {
    if schedule != [] {
      var turn := schedule[0];
      var next := Step(c, turn);
      StepKeeps(c, turn);
      assert MeetsOnly(c, turn, i, {});
      if turn.worker == i && c.workers[i].stack != [] && !SamePerson(c.tables, a, b) {
        assert c.workers[i] in c.workers;
        StepUnitesOrGoesOn(c.tables, c.workers[i], turn.answer, a, b);
      }
      hide Inv, StepWorker, Meets, SamePerson, OnItsWay;
      CleanRunUnites(next, schedule[1..], i, a, b);
    }
  }

  // Over every interleaving: a call of alias that met no obstacle and has come to its end has united its ids, also
  // if its insert was refused because another worker was faster.
  lemma CleanCallUnites(c: Config, schedule: seq<Turn>, i: nat, a: string, b: string, team: int, identify: bool)
    requires Initial(c) && i < |c.workers| && c.workers[i] == Begins(a, b, team, identify) && a != b
    requires Always(c, schedule, Meets(i, {}))
    ensures var c' := Run(c, schedule);
            |c'.workers| == |c.workers| && (c'.workers[i].stack == [] ==> SamePerson(c'.tables, Key(team, a), Key(team, b)))
  {
    assert Inv(c);
    CleanRunUnites(c, schedule, i, Key(team, a), Key(team, b));
  }

  // A first call that finds nobody creates one person for both ids, identified as asked.
  lemma CreatesAsAsked(t: Tables, f: Frame, answer: Answer)
    requires Consistent(t) && f.AliasFrame? && f.oldPerson.None? && f.newPerson.None? && f.previousId != f.distinctId
    requires Key(f.team, f.previousId) !in t.ids && Key(f.team, f.distinctId) !in t.ids
    ensures var r := DecideStatement(t, f, answer);
            && r.Ok? && FetchPerson(r.value, Key(f.team, f.previousId)) == FetchPerson(r.value, Key(f.team, f.distinctId))
            && var p := FetchPerson(r.value, Key(f.team, f.distinctId));
               && p.Some? && p.value.isIdentified == f.identify && p.value.createdAt == answer.now
               && p.value.properties == map[] && p.value.team == f.team
  {
    var a, b := Key(f.team, f.previousId), Key(f.team, f.distinctId);
    PersonSequential.CreateJoins(t, a, b, f.identify, answer.now, answer.uuid);
    var r := DecideStatement(t, f, answer);
    assert r.Ok? && PersonSequential.Joined(t, r.value, a, b, f.identify, answer.now);
    FetchedIsOfTeam(r.value, b);
  }

  lemma FetchedIsOfTeam(t: Tables, k: Key)
    ensures FetchPerson(t, k).Some? ==> FetchPerson(t, k).value.team == k.team
  {
  }

  // ----- createPersonIfDistinctIdIsNew -----

  function CreateCall(team: int, id: string): Worker {
    Worker([CreateFrame(Count, team, id)], 0, 0, false)
  }

  // The distinct id has a person, or worker i is still to create one.
  ghost predicate HasOrCreates(t: Tables, w: Worker, k: Key) {
    k in t.ids || (|w.stack| == 1 && w.stack[0].CreateFrame? && Key(w.stack[0].createTeam, w.stack[0].createId) == k)
  }

  // No statement of worker i fails, and it does not remember the id.
  ghost function CreatesCleanly(i: nat): (Config, Turn) -> bool {
    (c: Config, turn: Turn) => turn.worker == i ==> turn.answer.error.None? && !turn.answer.seen
  }

  lemma StepHasOrCreates(t: Tables, w: Worker, a: Answer, k: Key)
    requires Consistent(t) && w.stack != [] && HasOrCreates(t, w, k) && k !in t.ids
    requires a.error.None? && !a.seen
    ensures HasOrCreates(StepWorker(t, w, a).0, StepWorker(t, w, a).1, k)
  {
    if w.stack[0].cpc == Insert {
      PersonSequential.CreateOne(t, a.now, k.team, a.uuid, k.distinctId);
    }
  }

  // A remembered id makes no statement, and for one that is stored nothing is created.
  lemma KnownIdIsSkipped(t: Tables, w: Worker, a: Answer)
    requires w.stack != [] && w.stack[0].CreateFrame? && w.stack[0].cpc == Count
    requires a.seen || (a.error.None? && Key(w.stack[0].createTeam, w.stack[0].createId) in t.ids)
    ensures Becomes(t, w, a, t, [])
  {
  }

  lemma IdsStayInTables(t: Tables, t': Tables, k: Key)
    requires Grows(t, t') && k in t.ids
    ensures k in t'.ids
  {
    assert SamePerson(t, k, k) && SamePerson(t', k, k);
  }

  lemma {:induction false} CleanRunCreates(c: Config, schedule: seq<Turn>, i: nat, k: Key)
    requires Inv(c) && i < |c.workers| && HasOrCreates(c.tables, c.workers[i], k)
    requires Always(c, schedule, CreatesCleanly(i))
    ensures var c' := Run(c, schedule);
            Inv(c') && |c'.workers| == |c.workers| && HasOrCreates(c'.tables, c'.workers[i], k)
    decreases |schedule|
  {
    if schedule != [] {
      var turn := schedule[0];
      StepKeeps(c, turn);
      if k in c.tables.ids {
        IdsStayInTables(c.tables, Step(c, turn).tables, k);
      } else if turn.worker == i {
        StepHasOrCreates(c.tables, c.workers[i], turn.answer, k);
      }
      hide Inv, StepWorker, HasOrCreates;
      CleanRunCreates(Step(c, turn), schedule[1..], i, k);
    }
  }

  // Over every interleaving: when the call is over, its distinct id belongs to a person, whoever created it.
  lemma CleanCreateCallCreates(c: Config, schedule: seq<Turn>, i: nat, team: int, id: string)
    requires Initial(c) && i < |c.workers| && c.workers[i] == CreateCall(team, id)
    requires Always(c, schedule, CreatesCleanly(i))
    ensures var c' := Run(c, schedule);
            && |c'.workers| == |c.workers|
            && (c'.workers[i].stack == [] ==> FetchPerson(c'.tables, Key(team, id)).Some?)
  {
    assert Inv(c);
    CleanRunCreates(c, schedule, i, Key(team, id));
  }

  // ----- each obstacle alone can keep the ids apart -----

  lemma MayTurn(c: Config, turn: Turn, i: nat, allowed: set<Obstacle>)
    requires Unhindered(c, turn.worker) && MeetsOnly(c, turn, i, allowed)
    ensures Meets(i, allowed)(c, turn)
  {
  }

  // A call has read both persons.
  function AfterReading(f: Frame, previous: Option<Person>, current: Option<Person>): Frame
    requires f.AliasFrame?
  {
    AliasFrame(Decide, f.previousId, f.distinctId, f.team, f.identify, f.retry, f.attempts, previous, current)
  }

  lemma ReadsBoth(start: Config, schedule: seq<Turn>, c: Config, allowed: set<Obstacle>, j: nat, f: Frame)
    returns (longer: seq<Turn>, next: Config)
    requires Leads(start, schedule, c, Meets(0, allowed)) && j < |c.workers| && c.workers[j].stack != []
    requires c.workers[j].stack[0] == f && f.AliasFrame? && f.apc == FetchOld && f.previousId != f.distinctId
    ensures Leads(start, longer, next, Meets(0, allowed)) && next.tables == c.tables
    ensures |next.workers| == |c.workers| && next.workers[j].threw == c.workers[j].threw
    ensures forall k :: 0 <= k < |c.workers| && k != j ==> next.workers[k] == c.workers[k]
    ensures next.workers[j].stack
         == [AfterReading(f, FetchPerson(c.tables, Key(f.team, f.previousId)), FetchPerson(c.tables, Key(f.team, f.distinctId)))]
            + c.workers[j].stack[1..]
  {
    hide StepWorker, Run, Always, FetchPerson, Becomes, Meets, Leads, Runs;
    var t := c.tables;
    MayTurn(c, Turn(j, SUCCEEDS), 0, allowed);
    FetchesOld(t, c.workers[j], SUCCEEDS, f);
    var f1 := f.(apc := FetchNew, oldPerson := FetchPerson(t, Key(f.team, f.previousId)));
    var s1, c1 := TakesTurn(start, schedule, c, Meets(0, allowed), j, SUCCEEDS, t, [f1]);
    MayTurn(c1, Turn(j, SUCCEEDS), 0, allowed);
    FetchesNew(t, c1.workers[j], SUCCEEDS, f1);
    longer, next := TakesTurn(start, s1, c1, Meets(0, allowed), j, SUCCEEDS, t,
                              [f1.(apc := Decide, newPerson := FetchPerson(t, Key(f.team, f.distinctId)))]);
  }

  // A call that finishes and has nothing to identify.
  lemma EndsCall(start: Config, schedule: seq<Turn>, c: Config, allowed: set<Obstacle>, j: nat, f: Frame)
    returns (longer: seq<Turn>, next: Config)
    requires Leads(start, schedule, c, Meets(0, allowed)) && j < |c.workers| && c.workers[j].stack != []
    requires c.workers[j].stack[0] == f && f.AliasFrame? && f.apc == Finish
    requires f.identify ==> PersonSequential.IsIdentified(c.tables, Key(f.team, f.distinctId))
    ensures Leads(start, longer, next, Meets(0, allowed)) && next.tables == c.tables
    ensures |next.workers| == |c.workers| && next.workers[j].threw == c.workers[j].threw
    ensures forall k :: 0 <= k < |c.workers| && k != j ==> next.workers[k] == c.workers[k]
    ensures next.workers[j].stack == c.workers[j].stack[1..]
  {
    hide StepWorker, Run, Always, FetchPerson, Becomes, Meets, Leads, Runs;
    MayTurn(c, Turn(j, SUCCEEDS), 0, allowed);
    Finishes(c.tables, c.workers[j], SUCCEEDS, f);
    longer, next := TakesTurn(start, schedule, c, Meets(0, allowed), j, SUCCEEDS, c.tables, []);
  }

  // The creating transaction fails, and is tried once more if the call may retry.
  lemma FailsToCreate(start: Config, schedule: seq<Turn>, c: Config, f: Frame)
    returns (longer: seq<Turn>, next: Config)
    requires Leads(start, schedule, c, Meets(0, {FailedStatement})) && |c.workers| == 1 && c.workers[0].stack != []
    requires c.workers[0].stack[0] == f && f.AliasFrame? && f.apc == Decide && f.oldPerson.None? && f.newPerson.None?
    requires Current(c.tables, f)
    ensures Leads(start, longer, next, Meets(0, {FailedStatement})) && next.tables == c.tables
    ensures |next.workers| == 1 && next.workers[0].threw == c.workers[0].threw
    ensures next.workers[0].stack
         == (if f.retry then [AliasCall(f.previousId, f.distinctId, f.team, f.identify, false, 0), f.(apc := Finish)]
             else [f.(apc := Finish)]) + c.workers[0].stack[1..]
  {
    InsertFails(c.tables, c.workers[0], f);
    hide StepWorker, Run, Always, FetchPerson, Becomes, Meets, Leads, Runs;
    MayTurn(c, Turn(0, FAILS), 0, {FailedStatement});
    longer, next := TakesTurn(start, schedule, c, Meets(0, {FailedStatement}), 0, FAILS, c.tables,
                              if f.retry
                              then [AliasCall(f.previousId, f.distinctId, f.team, f.identify, false, 0), f.(apc := Finish)]
                              else [f.(apc := Finish)]);
  }

  lemma InsertFails(t: Tables, w: Worker, f: Frame)
    requires w.stack != [] && w.stack[0] == f && f.AliasFrame? && f.apc == Decide
    requires f.oldPerson.None? || f.newPerson.None?
    ensures Becomes(t, w, FAILS, t,
                    if f.retry
                    then [AliasCall(f.previousId, f.distinctId, f.team, f.identify, false, 0), f.(apc := Finish)]
                    else [f.(apc := Finish)])
  {
    hide DecideStatement;
  }

  // Worker 0 has called alias(a, b) and returned from it, and the ids are on different persons or on none.
  ghost predicate ReturnedApart(start: Config, c: Config, a: string, b: string, team: int, identify: bool) {
    && Initial(start) && start.workers != [] && start.workers[0] == Begins(a, b, team, identify) && a != b
    && c.workers != [] && c.workers[0].stack == [] && !c.workers[0].threw
    && !SamePerson(c.tables, Key(team, a), Key(team, b))
  }

  // Both ids are unknown, and creating the person fails twice.
  lemma FailuresKeepApart(a: string, b: string, team: int) returns (start: Config, schedule: seq<Turn>, c: Config)
    requires a != b
    ensures Leads(start, schedule, c, Meets(0, {FailedStatement})) && ReturnedApart(start, c, a, b, team, false)
  {
    var allowed := {FailedStatement};
    start := Config(Tables(map[], map[], 0), [Begins(a, b, team, false)]);
    assert Initial(start);
    assert Leads(start, [], start, Meets(0, allowed));
    assert FetchPerson(start.tables, Key(team, a)) == FetchPerson(start.tables, Key(team, b)) == None;
    var s1, c1 := ReadsBoth(start, [], start, allowed, 0, start.workers[0].stack[0]);
    hide Run, Always, Meets, Leads, FetchPerson, Initial;
    var s2, c2 := FailsToCreate(start, s1, c1, c1.workers[0].stack[0]);
    var s3, c3 := ReadsBoth(start, s2, c2, allowed, 0, c2.workers[0].stack[0]);
    var s4, c4 := FailsToCreate(start, s3, c3, c3.workers[0].stack[0]);
    var s5, c5 := EndsCall(start, s4, c4, allowed, 0, c4.workers[0].stack[0]);
    schedule, c := EndsCall(start, s5, c5, allowed, 0, c5.workers[0].stack[0]);
  }

  // Two persons that are both identified.
  lemma RefusalKeepsApart(t: Tables, a: string, b: string, team: int)
    returns (start: Config, schedule: seq<Turn>, c: Config)
    requires Consistent(t) && PersonSequential.IsIdentified(t, Key(team, a)) && PersonSequential.IsIdentified(t, Key(team, b))
    requires t.ids[Key(team, a)] != t.ids[Key(team, b)]
    ensures Leads(start, schedule, c, Meets(0, {Refusal})) && ReturnedApart(start, c, a, b, team, true)
  {
    var allowed := {Refusal};
    start := Config(t, [Begins(a, b, team, true)]);
    assert Initial(start);
    assert Leads(start, [], start, Meets(0, allowed));
    FetchedIsThere(t, Key(team, a));
    FetchedIsThere(t, Key(team, b));
    var s1, c1 := ReadsBoth(start, [], start, allowed, 0, start.workers[0].stack[0]);
    var f := c1.workers[0].stack[0];
    hide Run, Always, Meets, Leads, FetchPerson, Initial, StepWorker, Becomes, Consistent;
    MayTurn(c1, Turn(0, SUCCEEDS), 0, allowed);
    Decides(t, c1.workers[0], SUCCEEDS, f);
    var s2, c2 := TakesTurn(start, s1, c1, Meets(0, allowed), 0, SUCCEEDS, t, [f.(apc := Finish)]);
    schedule, c := EndsCall(start, s2, c2, allowed, 0, c2.workers[0].stack[0]);
  }

  // ----- a read that is out of date -----

  function Finishing(f: Frame): Frame
    requires f.AliasFrame?
  {
    f.(apc := Finish)
  }

  // The merge of a call after its move.
  function Deleting(f: Frame): Frame
    requires f.AliasFrame? && f.oldPerson.Some? && f.newPerson.Some?
  {
    MergeFrame(TxDelete, f.newPerson.value, f.oldPerson.value, f.distinctId, f.previousId, f.identify, f.attempts,
               false, true, false)
  }

  function FirstCall(a: string, b: string, team: int, previous: Person): Frame {
    AliasFrame(Decide, a, b, team, false, true, 0, Some(previous), None)
  }

  function SecondCall(a: string, c: string, team: int, previous: Person, current: Person): Frame {
    AliasFrame(Decide, a, c, team, false, true, 0, Some(previous), Some(current))
  }

  // Worker 0 calls alias(a, b) and reads a at its person.  Worker 1 calls alias(a, c) and moves a to the person of c.
  // Then worker 0 adds b to the person that it has read, and returns.  The delete of worker 1 is refused, and its
  // retry names a and c only: it returns as well, and b stays alone.
  lemma StaleReadKeepsApart(t: Tables, a: string, b: string, c: string, team: int)
    returns (start: Config, schedule: seq<Turn>, last: Config)
    requires Consistent(t) && Key(team, a) in t.ids && Key(team, c) in t.ids && Key(team, b) !in t.ids
    requires t.ids[Key(team, a)] != t.ids[Key(team, c)]
    ensures Leads(start, schedule, last, Meets(0, {StaleRead})) && ReturnedApart(start, last, a, b, team, false)
    ensures start.tables == t && start.workers == [Begins(a, b, team, false), Begins(a, c, team, false)]
    ensures |last.workers| == 2 && last.workers[1].stack == [] && !last.workers[1].threw
  {
    start := Config(t, [Begins(a, b, team, false), Begins(a, c, team, false)]);
    assert Initial(start);
    assert Leads(start, [], start, Meets(0, {StaleRead}));
    var x, y := t.persons[t.ids[Key(team, a)]], t.persons[t.ids[Key(team, c)]];
    var s1, c1 := OneReadsOtherMoves(start, a, b, c, team, x, y);
    hide Run, Always, Meets, Leads, FetchPerson, Initial, Consistent, MoveDistinctIds;
    var s2, c2 := AddsToWhatItRead(start, s1, c1, a, b, c, team, x, y);
    schedule, last := RefusedDeleteIsRetried(start, s2, c2, a, c, team, x, y);
  }

  lemma OneReadsOtherMoves(start: Config, a: string, b: string, c: string, team: int, x: Person, y: Person)
    returns (schedule: seq<Turn>, next: Config)
    requires Leads(start, [], start, Meets(0, {StaleRead})) && Consistent(start.tables)
    requires start.workers == [Begins(a, b, team, false), Begins(a, c, team, false)]
    requires FetchPerson(start.tables, Key(team, a)) == Some(x) && FetchPerson(start.tables, Key(team, c)) == Some(y)
    requires Key(team, b) !in start.tables.ids && x.id != y.id
    ensures Leads(start, schedule, next, Meets(0, {StaleRead})) && |next.workers| == 2
    ensures var t := next.tables;
            && t.persons == start.tables.persons && Key(team, b) !in t.ids && x.id in t.persons && x.team == team
            && FetchPerson(t, Key(team, a)) == Some(y) && FetchPerson(t, Key(team, c)) == Some(y)
            && Key(team, a) in t.ids && t.ids[Key(team, a)] == y.id
    ensures next.workers[0].stack == [FirstCall(a, b, team, x)] && !next.workers[0].threw
    ensures next.workers[1].stack == [Deleting(SecondCall(a, c, team, x, y)), Finishing(SecondCall(a, c, team, x, y))]
    ensures !next.workers[1].threw
  {
    var allowed, t, f := {StaleRead}, start.tables, SecondCall(a, c, team, x, y);
    FetchedIsThere(t, Key(team, a));
    FetchedIsThere(t, Key(team, c));
    assert FetchPerson(t, Key(team, b)).None?;
    MovesOthers(t, MergeCall(f), Key(team, c));
    MoveAddsNoId(t, x.id, y.id, team);
    hide Run, Always, Meets, Leads, FetchPerson, StepWorker, Becomes, Consistent, Runs, MoveDistinctIds;
    var s1, c1 := ReadsBoth(start, [], start, allowed, 0, start.workers[0].stack[0]);
    var s2, c2 := ReadsBoth(start, s1, c1, allowed, 1, c1.workers[1].stack[0]);
    MayTurn(c2, Turn(1, SUCCEEDS), 0, allowed);
    Decides(t, c2.workers[1], SUCCEEDS, f);
    var s3, c3 := TakesTurn(start, s2, c2, Meets(0, allowed), 1, SUCCEEDS, t, [MergeCall(f), Finishing(f)]);
    schedule, next := UpdatesAndMoves(start, s3, c3, f);
  }

  lemma UpdatesAndMoves(start: Config, schedule: seq<Turn>, c: Config, f: Frame)
    returns (longer: seq<Turn>, next: Config)
    requires Leads(start, schedule, c, Meets(0, {StaleRead})) && |c.workers| == 2
    requires f.AliasFrame? && f.oldPerson.Some? && f.newPerson.Some?
    requires |c.workers[0].stack| == 1 && LockedRows(c.workers[0].stack[0]) == {}
    requires c.workers[1].stack == [MergeCall(f), Finishing(f)]
    requires MoveDistinctIds(c.tables, f.oldPerson.value.id, f.newPerson.value.id, f.newPerson.value.team).Ok?
    ensures Leads(start, longer, next, Meets(0, {StaleRead})) && |next.workers| == 2
    ensures next.tables
         == MoveDistinctIds(c.tables, f.oldPerson.value.id, f.newPerson.value.id, f.newPerson.value.team).value
    ensures next.workers[0] == c.workers[0]
    ensures next.workers[1].stack == [Deleting(f), Finishing(f)] && next.workers[1].threw == c.workers[1].threw
  {
    hide Run, Always, Meets, Leads, StepWorker, Becomes, Runs, MoveDistinctIds;
    MayTurn(c, Turn(1, SUCCEEDS), 0, {StaleRead});
    Updates(c.tables, c.workers[1], SUCCEEDS, MergeCall(f));
    var s1, c1 := TakesTurn(start, schedule, c, Meets(0, {StaleRead}), 1, SUCCEEDS, c.tables, [Moving(f)]);
    MayTurn(c1, Turn(1, SUCCEEDS), 0, {StaleRead});
    Moves(c.tables, c1.workers[1], SUCCEEDS, Moving(f));
    longer, next := TakesTurn(start, s1, c1, Meets(0, {StaleRead}), 1, SUCCEEDS,
                              MoveDistinctIds(c.tables, f.oldPerson.value.id, f.newPerson.value.id,
                                              f.newPerson.value.team).value, [Deleting(f)]);
  }

  lemma MoveAddsNoId(t: Tables, source: nat, target: nat, team: int)
    ensures var r := MoveDistinctIds(t, source, target, team); r.Ok? ==> r.value.ids.Keys == t.ids.Keys
  {
  }

  lemma AddsToWhatItRead(start: Config, schedule: seq<Turn>, c: Config, a: string, b: string, other: string, team: int,
                         x: Person, y: Person)
    returns (longer: seq<Turn>, next: Config)
    requires Leads(start, schedule, c, Meets(0, {StaleRead})) && |c.workers| == 2 && x.id != y.id && a != b && other != b
    requires var t := c.tables;
             && Key(team, b) !in t.ids && x.id in t.persons && x.team == team
             && FetchPerson(t, Key(team, a)) == Some(y) && FetchPerson(t, Key(team, other)) == Some(y)
             && Key(team, a) in t.ids && t.ids[Key(team, a)] == y.id
    requires c.workers[0].stack == [FirstCall(a, b, team, x)] && !c.workers[0].threw
    requires c.workers[1].stack
          == [Deleting(SecondCall(a, other, team, x, y)), Finishing(SecondCall(a, other, team, x, y))]
    ensures Leads(start, longer, next, Meets(0, {StaleRead})) && |next.workers| == 2
    ensures next.workers[0].stack == [] && !next.workers[0].threw && next.workers[1] == c.workers[1]
    ensures var t := next.tables;
            && !SamePerson(t, Key(team, a), Key(team, b))
            && FetchPerson(t, Key(team, a)) == Some(y) && FetchPerson(t, Key(team, other)) == Some(y)
  {
    var allowed, t, f := {StaleRead}, c.tables, FirstCall(a, b, team, x);
    var t' := t.(ids := t.ids[Key(team, b) := x.id]);
    assert DecideStatement(t, f, SUCCEEDS) == Ok(t');
    assert t'.persons == t.persons && t'.ids[Key(team, b)] == x.id && t'.ids[Key(team, a)] == t.ids[Key(team, a)];
    assert FetchPerson(t', Key(team, a)) == Some(y) && FetchPerson(t', Key(team, other)) == Some(y);
    hide Run, Always, Meets, Leads, FetchPerson, StepWorker, Becomes, Runs, DecideStatement, SamePerson;
    MayTurn(c, Turn(0, SUCCEEDS), 0, allowed);
    Inserts(t, c.workers[0], SUCCEEDS, f);
    var s1, c1 := TakesTurn(start, schedule, c, Meets(0, allowed), 0, SUCCEEDS, t', [Finishing(f)]);
    longer, next := EndsCall(start, s1, c1, allowed, 0, Finishing(f));
    StaysApart(t', Key(team, a), Key(team, b));
  }

  lemma StaysApart(t: Tables, a: Key, b: Key)
    requires a in t.ids && b in t.ids && t.ids[a] != t.ids[b]
    ensures !SamePerson(t, a, b)
  {
  }

  lemma RefusedDeleteIsRetried(start: Config, schedule: seq<Turn>, c: Config, a: string, other: string, team: int,
                               x: Person, y: Person)
    returns (longer: seq<Turn>, next: Config)
    requires Leads(start, schedule, c, Meets(0, {StaleRead})) && |c.workers| == 2 && a != other && y.team == team
    requires FetchPerson(c.tables, Key(team, a)) == Some(y) && FetchPerson(c.tables, Key(team, other)) == Some(y)
    requires c.workers[0].stack == []
    requires c.workers[1].stack
          == [Deleting(SecondCall(a, other, team, x, y)), Finishing(SecondCall(a, other, team, x, y))]
    ensures Leads(start, longer, next, Meets(0, {StaleRead})) && |next.workers| == 2 && next.tables == c.tables
    ensures next.workers[0] == c.workers[0]
    ensures next.workers[1].stack == [] && next.workers[1].threw == c.workers[1].threw
  {
    hide Run, Always, Meets, Leads, FetchPerson, StepWorker, Becomes, Runs;
    var allowed, t := {StaleRead}, c.tables;
    var f := Deleting(SecondCall(a, other, team, x, y));
    MayTurn(c, Turn(1, FAILS), 0, allowed);
    DeleteIsRetried(t, c.workers[1], FAILS, f);
    var g := f.(mpc := Commit, failed := f.failed + 1, aborted := true);
    var s1, c1 := TakesTurn(start, schedule, c, Meets(0, allowed), 1, FAILS, t, [CatchCall(f), g]);
    var s2, c2 := ReadsBoth(start, s1, c1, allowed, 1, CatchCall(f));
    var h := c2.workers[1].stack[0];
    MayTurn(c2, Turn(1, SUCCEEDS), 0, allowed);
    Decides(t, c2.workers[1], SUCCEEDS, h);
    var s3, c3 := TakesTurn(start, s2, c2, Meets(0, allowed), 1, SUCCEEDS, t, [Finishing(h)]);
    var s4, c4 := EndsCall(start, s3, c3, allowed, 1, Finishing(h));
    longer, next := AbortedMergeEnds(start, s4, c4, g);
  }

  lemma AbortedMergeEnds(start: Config, schedule: seq<Turn>, c: Config, m: Frame)
    returns (longer: seq<Turn>, next: Config)
    requires Leads(start, schedule, c, Meets(0, {StaleRead})) && |c.workers| == 2
    requires |c.workers[1].stack| == 2 && c.workers[1].stack[0] == m
    requires m.MergeFrame? && m.mpc == Commit && m.aborted
    requires var finish := c.workers[1].stack[1]; finish.AliasFrame? && finish.apc == Finish && !finish.identify
    ensures Leads(start, longer, next, Meets(0, {StaleRead})) && |next.workers| == 2 && next.tables == c.tables
    ensures next.workers[0] == c.workers[0]
    ensures next.workers[1].stack == [] && next.workers[1].threw == c.workers[1].threw
  {
    hide Run, Always, Meets, Leads, FetchPerson, StepWorker, Becomes, Runs;
    MayTurn(c, Turn(1, SUCCEEDS), 0, {StaleRead});
    Commits(c.tables, c.workers[1], SUCCEEDS, m);
    var s1, c1 := TakesTurn(start, schedule, c, Meets(0, {StaleRead}), 1, SUCCEEDS, c.tables, []);
    longer, next := EndsCall(start, s1, c1, {StaleRead}, 1, c1.workers[1].stack[0]);
  }

  ghost predicate CanReturnApart(allowed: set<Obstacle>) {
    exists start: Config, schedule: seq<Turn>, a: string, b: string, team: int, identify: bool ::
      && Always(start, schedule, Meets(0, allowed))
      && ReturnedApart(start, Run(start, schedule), a, b, team, identify)
  }

  // In all runs in which the call meets these obstacles at most, it returns only when it has united its two ids, if
  // and only if there are none.
  lemma ReturnedCallsUniteExactly(allowed: set<Obstacle>)
    ensures !CanReturnApart(allowed) <==> allowed == {}
  {
    if CanReturnApart({}) {
      var start: Config, schedule: seq<Turn>, a: string, b: string, team: int, identify: bool :|
        && Always(start, schedule, Meets(0, {}))
        && ReturnedApart(start, Run(start, schedule), a, b, team, identify);
      CleanCallUnites(start, schedule, 0, a, b, team, identify);
    }
    if allowed != {} {
      var obstacle :| obstacle in allowed;
      OneObstacleIsEnough(obstacle, allowed);
    }
  }

  lemma OneObstacleIsEnough(obstacle: Obstacle, allowed: set<Obstacle>)
    requires obstacle in allowed
    ensures CanReturnApart(allowed)
  {
    var p, q := Person(0, 1, 0, map[], true, "a"), Person(1, 1, 0, map[], true, "b");
    var t := Tables(map[0 := p, 1 := q], map[Key(1, "a") := 0, Key(1, "b") := 1], 2);
    assert FetchPerson(t, Key(1, "a")) == Some(p) && FetchPerson(t, Key(1, "b")) == Some(q);
    assert Consistent(t) && Key(1, "c") !in t.ids;
    hide Always, Meets, Run, ReturnedApart, Consistent, FetchPerson;
    MoreObstacles({obstacle}, allowed);
    match obstacle {
      case FailedStatement =>
        var start, schedule, c := FailuresKeepApart("a", "b", 1);
        WeakerAlways(start, schedule, Meets(0, {obstacle}), Meets(0, allowed));
        assert ReturnedApart(start, Run(start, schedule), "a", "b", 1, false);
      case StaleRead =>
        var start, schedule, c := StaleReadKeepsApart(t, "a", "c", "b", 1);
        WeakerAlways(start, schedule, Meets(0, {obstacle}), Meets(0, allowed));
        assert ReturnedApart(start, Run(start, schedule), "a", "c", 1, false);
      case Refusal =>
        var start, schedule, c := RefusalKeepsApart(t, "a", "b", 1);
        WeakerAlways(start, schedule, Meets(0, {obstacle}), Meets(0, allowed));
        assert ReturnedApart(start, Run(start, schedule), "a", "b", 1, true);
    }
  }

  lemma MoreObstacles(some: set<Obstacle>, more: set<Obstacle>)
    requires some <= more
    ensures forall c, turn :: Meets(0, some)(c, turn) ==> Meets(0, more)(c, turn)
  {
  }
}
