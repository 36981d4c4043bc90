// Any number of workers run alias, mergePeople and createPersonIfDistinctIdIsNew against the same two
// tables.  Between any two SQL statements of one worker, every other worker may run.  An adversary
// picks the schedule and may make any statement fail.
module PersonInterleaving {
  import opened Wrappers
  import opened PersonTables

  const MAX_FAILED_PERSON_MERGE_ATTEMPTS := 3

  datatype AliasPc = FetchOld | FetchNew | Decide | Finish | Identify(found: Person)
  datatype MergePc = TxUpdate | Move | TxDelete | Commit
  datatype CreatePc = Count | Insert

  // One activation record.  A frame that has made a call waits, with its program counter already at
  // the statement after the call, until it is on top of the stack again.
  datatype Frame =
    | AliasFrame(apc: AliasPc, previousId: string, distinctId: string, team: int,
                 identify: bool, retry: bool, attempts: nat,
                 oldPerson: Option<Person>, newPerson: Option<Person>)
    | MergeFrame(mpc: MergePc, into: Person, other: Person, intoId: string, otherId: string,
                 identify: bool, failed: nat, aborted: bool,
                 updatePending: bool, deletePending: bool) // statements of the open transaction
    | CreateFrame(cpc: CreatePc, createTeam: int, createId: string)

  // merges, steps and threw are read by the properties alone.
  datatype Worker = Worker(stack: seq<Frame>, merges: nat, steps: nat, threw: bool)

  // What the outside world answers at a step: whether it fails, and with what, and whether the error comes
  // late, when the statement has taken effect (its answer is lost, or queueing its message fails); the uuid
  // and clock reading that createPerson uses; whether the worker's LRU has seen the distinct id.
  datatype Answer = Answer(error: Option<DbError>, late: bool, uuid: string, now: int, seen: bool)

  datatype Config = Config(tables: Tables, workers: seq<Worker>)

  function AliasCall(previousId: string, distinctId: string, team: int, identify: bool, retry: bool, attempts: nat): Frame {
    AliasFrame(FetchOld, previousId, distinctId, team, identify, retry, attempts, None, None)
  }

  function Top(w: Worker, f: Frame): Worker
    requires w.stack != []
  {
    w.(stack := [f] + w.stack[1..])
  }

  function Pop(w: Worker): Worker
    requires w.stack != []
  {
    w.(stack := w.stack[1..])
  }

  function Call(w: Worker, caller: Frame, callee: Frame): Worker
    requires w.stack != []
  {
    w.(stack := [callee, caller] + w.stack[1..])
  }

  // An exception that no frame catches: every open transaction is rolled back on the way out.
  function Throw(w: Worker): Worker {
    w.(stack := [], threw := true)
  }

  // A statement with its answer: the tables after it, and the error that its caller sees.
  function Perform(t: Tables, result: Result<Tables, DbError>, a: Answer): (Tables, Option<DbError>) {
    match result
    case Err(e) => (t, if a.error.Some? then a.error else Some(e))
    case Ok(t') => (if a.error.Some? && !a.late then t else t', a.error)
  }

  // One step of a worker: at most one SQL statement.
  function StepWorker(t: Tables, w: Worker, a: Answer): (Tables, Worker)
    requires w.stack != []
  {
    var w := w.(steps := w.steps + 1);
    match w.stack[0]
    case AliasFrame(_, _, _, _, _, _, _, _, _) => StepAlias(t, w, a)
    case MergeFrame(_, _, _, _, _, _, _, _, _, _) => StepMerge(t, w, a)
    case CreateFrame(_, _, _) => StepCreate(t, w, a)
  }

  // process-event.ts:274-353
  function StepAlias(t: Tables, w: Worker, a: Answer): (Tables, Worker)
    requires w.stack != [] && w.stack[0].AliasFrame?
  {
    var f := w.stack[0];
    match f.apc
    case FetchOld =>
      if f.previousId == f.distinctId then (t, Pop(w))
      else if a.error.Some? then (t, Throw(w))
      else (t, Top(w, f.(apc := FetchNew, oldPerson := FetchPerson(t, Key(f.team, f.previousId)))))
    case FetchNew =>
      if a.error.Some? then (t, Throw(w))
      else (t, Top(w, f.(apc := Decide, newPerson := FetchPerson(t, Key(f.team, f.distinctId)))))
    case Decide => StepDecide(t, w, a)
    case Finish =>
      if !f.identify then (t, Pop(w))
      else
        var found := FetchPerson(t, Key(f.team, f.distinctId));
        if a.error.Some? || found.None? then (t, Throw(w))
        else if found.value.isIdentified then (t, Pop(w))
        else (t, Top(w, f.(apc := Identify(found.value))))
    case Identify(found) =>
      var (t', error) := Perform(t, Ok(UpdatePerson(t, found.id, IDENTIFY)), a);
      (t', if error.Some? then Throw(w) else Pop(w))
  }

  function StepDecide(t: Tables, w: Worker, a: Answer): (Tables, Worker)
    requires w.stack != [] && w.stack[0].AliasFrame?
  {
    var f := w.stack[0];
    var finish := f.(apc := Finish);
    if f.oldPerson.Some? && f.newPerson.Some? then
      if f.oldPerson.value.id == f.newPerson.value.id || (f.identify && f.oldPerson.value.isIdentified)
      then (t, Top(w, finish))
      else
        var merge := MergeFrame(TxUpdate, f.newPerson.value, f.oldPerson.value, f.distinctId, f.previousId,
                                f.identify, f.attempts, false, false, false);
        (t, Call(w.(merges := w.merges + 1), finish, merge))
    else
      var (t', error) := Perform(t, DecideStatement(t, f, a), a);
      // The retry does not pass totalMergeAttempts on: it starts again from 0.
      (t', if error.Some? && f.retry
           then Call(w, finish, AliasCall(f.previousId, f.distinctId, f.team, f.identify, false, 0))
           else Top(w, finish))
  }

  // The statement inside each of the three try blocks of alias.
  function DecideStatement(t: Tables, f: Frame, a: Answer): Result<Tables, DbError>
    requires f.AliasFrame? && (f.oldPerson.None? || f.newPerson.None?)
  {
    if f.oldPerson.Some? then InsertDistinctId(t, Key(f.oldPerson.value.team, f.distinctId), f.oldPerson.value.id)
    else if f.newPerson.Some? then InsertDistinctId(t, Key(f.newPerson.value.team, f.previousId), f.newPerson.value.id)
    else CreatePerson(t, a.now, map[], f.team, f.identify, a.uuid, [f.distinctId, f.previousId])
  }

  // process-event.ts:395-441.  moveDistinctIds runs on its own connection and takes effect at once;
  // the update and the delete take effect at the commit.
  function StepMerge(t: Tables, w: Worker, a: Answer): (Tables, Worker)
    requires w.stack != [] && w.stack[0].MergeFrame?
  {
    var f := w.stack[0];
    match f.mpc
    case TxUpdate =>
      if a.error.Some? then CatchInMerge(t, Top(w, f.(aborted := true)), a.error.value)
      else (t, Top(w, f.(mpc := Move, updatePending := true)))
    case Move =>
      var (t', error) := Perform(t, MoveDistinctIds(t, f.other.id, f.into.id, f.into.team), a);
      if error.Some? then CatchInMerge(t', w, error.value) else (t', Top(w, f.(mpc := TxDelete)))
    case TxDelete =>
      // A foreign key that is checked per statement fails here, one that is deferred fails at the
      // commit; the adversary's error covers the first case.
      if a.error.Some? then CatchInMerge(t, Top(w, f.(aborted := true)), a.error.value)
      else (t, Top(w, f.(mpc := Commit, deletePending := true)))
    case Commit =>
      if f.aborted then (t, Pop(w)) // Postgres answers COMMIT of an aborted transaction with a rollback
      else
        var (t', error) := Perform(t, CommitMerge(t, f), a);
        (t', if error.Some? then Throw(w) else Pop(w))
  }

  function CommitMerge(t: Tables, f: Frame): Result<Tables, DbError>
    requires f.MergeFrame?
  {
    var t1 := if f.updatePending then UpdatePerson(t, f.into.id, MergeUpdate(f.into, f.other)) else t;
    if f.deletePending then DeletePerson(t1, f.other.id) else Ok(t1)
  }

  // The catch block of mergePeople (process-event.ts:418-440).
  function CatchInMerge(t: Tables, w: Worker, e: DbError): (Tables, Worker)
    requires w.stack != [] && w.stack[0].MergeFrame?
  {
    var f := w.stack[0];
    if e != DatabaseError then (t, Throw(w))
    else if f.failed + 1 == MAX_FAILED_PERSON_MERGE_ATTEMPTS then (t, Throw(w))
    else (t, Call(w, f.(mpc := Commit, failed := f.failed + 1),
                  AliasCall(f.otherId, f.intoId, f.into.team, f.identify, false, f.failed + 1)))
  }

  // process-event.ts:623-640; every error of createPerson is swallowed.
  function StepCreate(t: Tables, w: Worker, a: Answer): (Tables, Worker)
    requires w.stack != [] && w.stack[0].CreateFrame?
  {
    var f := w.stack[0];
    match f.cpc
    case Count =>
      if a.seen then (t, Pop(w))
      else if a.error.Some? then (t, Throw(w))
      else if Key(f.createTeam, f.createId) in t.ids then (t, Pop(w))
      else (t, Top(w, f.(cpc := Insert)))
    case Insert =>
      var (t', _) := Perform(t, CreatePerson(t, a.now, map[], f.createTeam, false, a.uuid, [f.createId]), a);
      (t', Pop(w))
  }

  datatype Turn = Turn(worker: nat, answer: Answer)

  function Step(c: Config, turn: Turn): Config {
    if turn.worker < |c.workers| && c.workers[turn.worker].stack != [] then
      var (t, w) := StepWorker(c.tables, c.workers[turn.worker], turn.answer);
      Config(t, c.workers[turn.worker := w])
    else c
  }

  function Run(c: Config, schedule: seq<Turn>): Config
    decreases |schedule|
  {
    if schedule == [] then c else Run(Step(c, schedule[0]), schedule[1..])
  }

  // A worker that is about to begin one of the two top-level calls.
  ghost predicate Starting(w: Worker) {
    && w.merges == 0 && w.steps == 0 && !w.threw
    && |w.stack| == 1
    && var f := w.stack[0];
       || (f.CreateFrame? && f.cpc == Count)
       || (f.AliasFrame? && f == AliasCall(f.previousId, f.distinctId, f.team, f.identify, true, 0))
  }

  ghost predicate Initial(c: Config) {
    Consistent(c.tables) && forall w <- c.workers :: Starting(w)
  }

  // ----- safety over every interleaving -----

  // A copy of a row may be stale in every column but two: ids are never reused and teams never change.
  ghost predicate Genuine(t: Tables, p: Person) {
    p.id < t.nextId && (p.id in t.persons ==> t.persons[p.id].team == p.team)
  }

  ghost predicate FrameOk(t: Tables, f: Frame) {
    match f
    case AliasFrame(_, _, _, team, _, _, _, oldPerson, newPerson) =>
      && (oldPerson.Some? ==> Genuine(t, oldPerson.value) && oldPerson.value.team == team)
      && (newPerson.Some? ==> Genuine(t, newPerson.value) && newPerson.value.team == team)
    case MergeFrame(_, into, other, _, _, _, _, _, _, _) =>
      Genuine(t, into) && Genuine(t, other) && into.team == other.team
    case CreateFrame(_, _, _) => true
  }

  ghost predicate WorkerOk(t: Tables, w: Worker) {
    forall f <- w.stack :: FrameOk(t, f)
  }

  ghost predicate Inv(c: Config) {
    Consistent(c.tables) && forall w <- c.workers :: WorkerOk(c.tables, w)
  }

  // What one worker's step guarantees to every other worker.
  ghost predicate Guarantee(t: Tables, t': Tables) {
    && Grows(t, t')
    && t.nextId <= t'.nextId
    && (forall p <- t'.persons :: p in t.persons || t.nextId <= p)
    && (forall p <- t'.persons :: p in t.persons ==> t'.persons[p].team == t.persons[p].team)
  }

  lemma GenuineStable(t: Tables, t': Tables, f: Frame)
    requires Guarantee(t, t') && FrameOk(t, f)
    ensures FrameOk(t', f)
  {
  }

  lemma CommitKeeps(t: Tables, f: Frame)
    requires Consistent(t) && f.MergeFrame?
    ensures var r := CommitMerge(t, f);
            r.Ok? ==> Consistent(r.value) && Guarantee(t, r.value)
  {
    var t1 := if f.updatePending then UpdatePerson(t, f.into.id, MergeUpdate(f.into, f.other)) else t;
    assert Consistent(t1) && Guarantee(t, t1);
    DeleteKeeps(t1, f.other.id);
  }

  lemma DecideKeeps(t: Tables, f: Frame, a: Answer)
    requires Consistent(t) && FrameOk(t, f)
    requires f.AliasFrame? && (f.oldPerson.None? || f.newPerson.None?)
    ensures var r := DecideStatement(t, f, a);
            r.Ok? ==> Consistent(r.value) && Guarantee(t, r.value)
  {
    if f.oldPerson.Some? {
      InsertKeeps(t, Key(f.oldPerson.value.team, f.distinctId), f.oldPerson.value.id);
    } else if f.newPerson.Some? {
      InsertKeeps(t, Key(f.newPerson.value.team, f.previousId), f.newPerson.value.id);
    } else {
      CreateKeeps(t, a.now, map[], f.team, f.identify, a.uuid, [f.distinctId, f.previousId]);
    }
  }

  // New frames are in order; the others were there before the step.
  ghost predicate Kept(t: Tables, t': Tables, w: Worker, w': Worker) {
    && Consistent(t')
    && Guarantee(t, t')
    && (forall g <- w'.stack :: g in w.stack || FrameOk(t', g))
  }

  lemma NothingChanges(t: Tables)
    ensures Guarantee(t, t)
  {
  }

  lemma FetchedIsGenuine(t: Tables, team: int, id: string)
    requires Consistent(t)
    ensures var p := FetchPerson(t, Key(team, id));
            p.Some? ==> Genuine(t, p.value) && p.value.team == team
  {
  }

  lemma IdentifyKeeps(t: Tables, p: nat)
    requires Consistent(t)
    ensures Consistent(UpdatePerson(t, p, IDENTIFY)) && Guarantee(t, UpdatePerson(t, p, IDENTIFY))
  {
  }

  lemma PerformKeeps(t: Tables, result: Result<Tables, DbError>, a: Answer)
    requires Consistent(t) && (result.Ok? ==> Consistent(result.value) && Guarantee(t, result.value))
    ensures var t' := Perform(t, result, a).0; Consistent(t') && Guarantee(t, t')
  {
    NothingChanges(t);
    hide Consistent, Guarantee;
  }

  lemma StepDecideKeeps(t: Tables, w: Worker, a: Answer)
    requires w.stack != [] && w.stack[0].AliasFrame?
    requires Consistent(t) && FrameOk(t, w.stack[0])
    ensures var (t', w') := StepDecide(t, w, a); Kept(t, t', w, w')
  {
    var f := w.stack[0];
    NothingChanges(t);
    if f.oldPerson.None? || f.newPerson.None? {
      DecideKeeps(t, f, a);
      PerformKeeps(t, DecideStatement(t, f, a), a);
      GenuineStable(t, Perform(t, DecideStatement(t, f, a), a).0, f);
    }
    hide Consistent, Guarantee, Genuine, DecideStatement, Perform;
  }

  lemma StepAliasKeeps(t: Tables, w: Worker, a: Answer)
    requires w.stack != [] && w.stack[0].AliasFrame?
    requires Consistent(t) && FrameOk(t, w.stack[0])
    ensures var (t', w') := StepAlias(t, w, a); Kept(t, t', w, w')
  {
    var f := w.stack[0];
    NothingChanges(t);
    FetchedIsGenuine(t, f.team, f.previousId);
    FetchedIsGenuine(t, f.team, f.distinctId);
    match f.apc {
      case FetchOld =>
      case FetchNew =>
      case Decide => StepDecideKeeps(t, w, a);
      case Finish =>
      case Identify(found) =>
        IdentifyKeeps(t, found.id);
        PerformKeeps(t, Ok(UpdatePerson(t, found.id, IDENTIFY)), a);
    }
    hide Consistent, Guarantee, Genuine, StepDecide, FetchPerson, UpdatePerson, Perform;
  }

  lemma CatchKeeps(t: Tables, w: Worker, e: DbError)
    requires w.stack != [] && w.stack[0].MergeFrame?
    requires FrameOk(t, w.stack[0])
    ensures var (t', w') := CatchInMerge(t, w, e);
            t' == t && forall g <- w'.stack :: g in w.stack[1..] || FrameOk(t, g)
  {
  }

  lemma StepMergeKeeps(t: Tables, w: Worker, a: Answer)
    requires w.stack != [] && w.stack[0].MergeFrame?
    requires Consistent(t) && FrameOk(t, w.stack[0])
    ensures var (t', w') := StepMerge(t, w, a); Kept(t, t', w, w')
  {
    var f := w.stack[0];
    assert forall g <- w.stack[1..] :: g in w.stack;
    NothingChanges(t);
    match f.mpc {
      case TxUpdate =>
        if a.error.Some? {
          CatchKeeps(t, Top(w, f.(aborted := true)), a.error.value);
        }
      case Move =>
        var moved := MoveDistinctIds(t, f.other.id, f.into.id, f.into.team);
        MoveKeeps(t, f.other.id, f.into.id, f.into.team);
        MoveGuarantees(t, moved);
        PerformKeeps(t, moved, a);
        var (t', error) := Perform(t, moved, a);
        GenuineStable(t, t', f);
        if error.Some? {
          CatchKeeps(t', w, error.value);
        }
      case TxDelete =>
        if a.error.Some? {
          CatchKeeps(t, Top(w, f.(aborted := true)), a.error.value);
        }
      case Commit =>
        CommitKeeps(t, f);
        PerformKeeps(t, CommitMerge(t, f), a);
    }
    hide Consistent, Guarantee, Genuine, MoveDistinctIds, CommitMerge, CatchInMerge, Perform;
  }

  lemma MoveGuarantees(t: Tables, moved: Result<Tables, DbError>)
    requires moved.Ok? ==> Grows(t, moved.value) && moved.value.persons == t.persons && moved.value.nextId == t.nextId
    ensures moved.Ok? ==> Guarantee(t, moved.value)
  {
  }

  lemma StepCreateKeeps(t: Tables, w: Worker, a: Answer)
    requires w.stack != [] && w.stack[0].CreateFrame? && Consistent(t)
    ensures var (t', w') := StepCreate(t, w, a); Kept(t, t', w, w')
  {
    var f := w.stack[0];
    CreateKeeps(t, a.now, map[], f.createTeam, false, a.uuid, [f.createId]);
    NothingChanges(t);
    PerformKeeps(t, CreatePerson(t, a.now, map[], f.createTeam, false, a.uuid, [f.createId]), a);
    hide Consistent, Guarantee, CreatePerson, Perform;
  }

  lemma KeptIsOk(t: Tables, t': Tables, w: Worker, w': Worker)
    requires WorkerOk(t, w) && Kept(t, t', w, w')
    ensures WorkerOk(t', w')
  {
    forall g | g in w'.stack
      ensures FrameOk(t', g)
    {
      if g in w.stack {
        GenuineStable(t, t', g);
      }
    }
  }

  lemma StepWorkerKeeps(t: Tables, w: Worker, a: Answer)
    requires Consistent(t) && WorkerOk(t, w) && w.stack != []
    ensures var (t', w') := StepWorker(t, w, a);
            Consistent(t') && Guarantee(t, t') && WorkerOk(t', w')
  {
    assert FrameOk(t, w.stack[0]);
    var w1 := w.(steps := w.steps + 1);
    match w.stack[0] {
      case AliasFrame(_, _, _, _, _, _, _, _, _) =>
        assert StepWorker(t, w, a) == StepAlias(t, w1, a);
        StepAliasKeeps(t, w1, a);
        KeptIsOk(t, StepAlias(t, w1, a).0, w1, StepAlias(t, w1, a).1);
      case MergeFrame(_, _, _, _, _, _, _, _, _, _) =>
        assert StepWorker(t, w, a) == StepMerge(t, w1, a);
        StepMergeKeeps(t, w1, a);
        KeptIsOk(t, StepMerge(t, w1, a).0, w1, StepMerge(t, w1, a).1);
      case CreateFrame(_, _, _) =>
        assert StepWorker(t, w, a) == StepCreate(t, w1, a);
        StepCreateKeeps(t, w1, a);
        KeptIsOk(t, StepCreate(t, w1, a).0, w1, StepCreate(t, w1, a).1);
    }
  }

  lemma StepKeeps(c: Config, turn: Turn)
    requires Inv(c)
    ensures Inv(Step(c, turn)) && Guarantee(c.tables, Step(c, turn).tables)
  {
    if turn.worker < |c.workers| && c.workers[turn.worker].stack != [] {
      var i := turn.worker;
      assert c.workers[i] in c.workers;
      StepWorkerKeeps(c.tables, c.workers[i], turn.answer);
      var c' := Step(c, turn);
      forall j | 0 <= j < |c'.workers|
        ensures WorkerOk(c'.tables, c'.workers[j])
      {
        if j != i {
          assert c.workers[j] in c.workers;
          forall f | f in c.workers[j].stack
            ensures FrameOk(c'.tables, f)
          {
            GenuineStable(c.tables, c'.tables, f);
          }
        }
      }
    }
  }

  // Main theorem, from any point of a run to any later point.
  lemma {:induction false} RunOnlyUnites(c: Config, schedule: seq<Turn>)
    requires Inv(c)
    ensures var c' := Run(c, schedule);
            && Inv(c')
            && Grows(c.tables, c'.tables)
            // a person that is gone stays gone
            && (forall p <- c'.tables.persons :: p in c.tables.persons || c.tables.nextId <= p)
    decreases |schedule|
  {
    if schedule != [] {
      StepKeeps(c, schedule[0]);
      RunOnlyUnites(Step(c, schedule[0]), schedule[1..]);
    }
  }

  lemma EveryRunIsSafe(c: Config, schedule: seq<Turn>, more: seq<Turn>)
    requires Initial(c)
    ensures var mid, end := Run(c, schedule), Run(Run(c, schedule), more);
            && Consistent(mid.tables) && Consistent(end.tables)
            && (forall a, b :: SamePerson(mid.tables, a, b) ==> SamePerson(end.tables, a, b))
            && (forall k <- mid.tables.ids :: FetchPerson(end.tables, k).Some?)
  {
    assert Inv(c);
    RunOnlyUnites(c, schedule);
    var mid := Run(c, schedule);
    RunOnlyUnites(mid, more);
    var end := Run(mid, more);
    forall k | k in mid.tables.ids
      ensures FetchPerson(end.tables, k).Some?
    {
      assert SamePerson(mid.tables, k, k);
      assert SamePerson(end.tables, k, k);
    }
  }

  // ----- every call ends, after at most 3 merge transactions -----

  // An upper bound on the steps of an alias call and of a mergePeople call, over every answer.
  function AliasCost(retry: bool, attempts: nat): nat
    decreases if retry then 1 else 0, 3 - attempts, 1
  {
    5 + if retry then AliasCost(false, 0) else MergeCost(attempts)
  }

  function MergeCost(attempts: nat): nat
    decreases 0, 3 - attempts, 0
  {
    4 + if attempts + 1 < MAX_FAILED_PERSON_MERGE_ATTEMPTS then AliasCost(false, attempts + 1) else 0
  }

  // The steps a frame may still cause, and the merge transactions it may still start.
  function StepsLeft(f: Frame): nat {
    match f
    case AliasFrame(FetchOld, _, _, _, _, retry, attempts, _, _) => AliasCost(retry, attempts)
    case AliasFrame(FetchNew, _, _, _, _, retry, attempts, _, _) => AliasCost(retry, attempts) - 1
    case AliasFrame(Decide, _, _, _, _, retry, attempts, _, _) => AliasCost(retry, attempts) - 2
    case AliasFrame(Finish, _, _, _, _, _, _, _, _) => 2
    case AliasFrame(Identify(_), _, _, _, _, _, _, _, _) => 1
    case MergeFrame(TxUpdate, _, _, _, _, _, failed, _, _, _) => MergeCost(failed)
    case MergeFrame(Move, _, _, _, _, _, failed, _, _, _) => MergeCost(failed) - 1
    case MergeFrame(TxDelete, _, _, _, _, _, failed, _, _, _) => MergeCost(failed) - 2
    case MergeFrame(Commit, _, _, _, _, _, _, _, _, _) => 1
    case CreateFrame(Count, _, _) => 2
    case CreateFrame(Insert, _, _) => 1
  }

  function MergesLeft(f: Frame): int {
    match f
    case AliasFrame(pc, _, _, _, _, retry, attempts, _, _) =>
      if pc.FetchOld? || pc.FetchNew? || pc.Decide? then 3 - attempts else 0
    case MergeFrame(pc, _, _, _, _, _, failed, _, _, _) => if pc.Commit? then 0 else 2 - failed
    case CreateFrame(_, _, _) => 0
  }

  function TotalSteps(stack: seq<Frame>): nat {
    if stack == [] then 0 else StepsLeft(stack[0]) + TotalSteps(stack[1..])
  }

  function TotalMerges(stack: seq<Frame>): int {
    if stack == [] then 0 else MergesLeft(stack[0]) + TotalMerges(stack[1..])
  }

  // Retrying alias calls are top-level ones, and failed attempts stay below the maximum.
  ghost predicate Bounded(f: Frame) {
    match f
    case AliasFrame(_, _, _, _, _, retry, attempts, _, _) => attempts <= 2 && (retry ==> attempts == 0)
    case MergeFrame(_, _, _, _, _, _, failed, _, _, _) => failed <= 2
    case CreateFrame(_, _, _) => true
  }

  ghost predicate WorkerBounded(w: Worker) {
    && (forall f <- w.stack :: Bounded(f))
    && w.merges + TotalMerges(w.stack) <= 3
  }

  lemma {:induction false} Totals(fs: seq<Frame>, rest: seq<Frame>)
    ensures TotalSteps(fs + rest) == TotalSteps(fs) + TotalSteps(rest)
    ensures TotalMerges(fs + rest) == TotalMerges(fs) + TotalMerges(rest)
  {
    if fs == [] {
      assert fs + rest == rest;
    } else {
      assert (fs + rest)[1..] == fs[1..] + rest;
      Totals(fs[1..], rest);
    }
  }

  // A step replaces the top frame by at most two frames that together have less left to do.
  ghost predicate Replaces(w: Worker, w': Worker, fs: seq<Frame>)
    requires w.stack != []
  {
    && w'.stack == fs + w.stack[1..]
    && (forall g <- fs :: Bounded(g))
    && TotalSteps(fs) < StepsLeft(w.stack[0])
    && w'.merges + TotalMerges(fs) <= w.merges + MergesLeft(w.stack[0])
  }

  ghost predicate Spends(w: Worker, w': Worker)
    requires w.stack != []
  {
    (w'.stack == [] && w'.merges == w.merges) || exists fs :: Replaces(w, w', fs)
  }

  lemma PopSpends(w: Worker)
    requires w.stack != [] && Bounded(w.stack[0])
    requires 0 < StepsLeft(w.stack[0])
    ensures Spends(w, Pop(w))
  {
    assert Replaces(w, Pop(w), []);
  }

  lemma ThrowSpends(w: Worker)
    requires w.stack != []
    ensures Spends(w, Throw(w))
  {
  }

  lemma TopSpends(w: Worker, g: Frame)
    requires w.stack != [] && Bounded(g)
    requires StepsLeft(g) < StepsLeft(w.stack[0]) && MergesLeft(g) <= MergesLeft(w.stack[0])
    ensures Spends(w, Top(w, g))
  {
    assert [g][1..] == [];
    assert TotalSteps([g]) == StepsLeft(g) + TotalSteps([]) && TotalMerges([g]) == MergesLeft(g) + TotalMerges([]);
    assert Replaces(w, Top(w, g), [g]);
  }

  lemma CallSpends(w: Worker, merges: nat, caller: Frame, callee: Frame)
    requires w.stack != [] && Bounded(caller) && Bounded(callee)
    requires StepsLeft(caller) + StepsLeft(callee) < StepsLeft(w.stack[0])
    requires merges + MergesLeft(caller) + MergesLeft(callee) <= w.merges + MergesLeft(w.stack[0])
    ensures Spends(w, Call(w.(merges := merges), caller, callee))
  {
    var fs := [callee, caller];
    assert fs[1..] == [caller] && [caller][1..] == [];
    assert TotalSteps([caller]) == StepsLeft(caller) && TotalMerges([caller]) == MergesLeft(caller);
    assert TotalSteps(fs) == StepsLeft(callee) + TotalSteps(fs[1..]);
    assert TotalMerges(fs) == MergesLeft(callee) + TotalMerges(fs[1..]);
    assert Replaces(w, Call(w.(merges := merges), caller, callee), fs);
  }

  lemma DecideSpends(t: Tables, w: Worker, a: Answer)
    requires w.stack != [] && w.stack[0].AliasFrame? && Bounded(w.stack[0]) && w.stack[0].apc == Decide
    ensures Spends(w, StepDecide(t, w, a).1) && StepDecide(t, w, a).1.steps == w.steps
  {
    hide Perform, DecideStatement, Spends;
    var f := w.stack[0];
    var finish := f.(apc := Finish);
    TopSpends(w, finish);
    if f.oldPerson.Some? && f.newPerson.Some? {
      CallSpends(w, w.merges + 1, finish,
                 MergeFrame(TxUpdate, f.newPerson.value, f.oldPerson.value, f.distinctId, f.previousId,
                            f.identify, f.attempts, false, false, false));
    } else if f.retry {
      assert w.(merges := w.merges) == w;
      CallSpends(w, w.merges, finish, AliasCall(f.previousId, f.distinctId, f.team, f.identify, false, 0));
    }
  }

  lemma AliasSpends(t: Tables, w: Worker, a: Answer)
    requires w.stack != [] && w.stack[0].AliasFrame? && Bounded(w.stack[0])
    ensures Spends(w, StepAlias(t, w, a).1) && StepAlias(t, w, a).1.steps == w.steps
  {
    hide Perform, FetchPerson, StepDecide, UpdatePerson, Spends;
    var f := w.stack[0];
    PopSpends(w);
    ThrowSpends(w);
    match f.apc {
      case FetchOld =>
        TopSpends(w, f.(apc := FetchNew, oldPerson := FetchPerson(t, Key(f.team, f.previousId))));
      case FetchNew =>
        TopSpends(w, f.(apc := Decide, newPerson := FetchPerson(t, Key(f.team, f.distinctId))));
      case Decide => DecideSpends(t, w, a);
      case Finish =>
        var found := FetchPerson(t, Key(f.team, f.distinctId));
        if found.Some? {
          TopSpends(w, f.(apc := Identify(found.value)));
        }
      case Identify(_) =>
    }
  }

  lemma CatchSpends(t: Tables, w: Worker, aborted: bool, e: DbError)
    requires w.stack != [] && w.stack[0].MergeFrame? && Bounded(w.stack[0]) && !w.stack[0].mpc.Commit?
    ensures var w1 := Top(w, w.stack[0].(aborted := aborted));
            var r := CatchInMerge(t, w1, e).1;
            Spends(w, r) && r.steps == w.steps
  {
    hide Spends;
    ThrowSpends(w);
    var f := w.stack[0];
    var w1 := Top(w, f.(aborted := aborted));
    assert w1.stack[1..] == w.stack[1..] && w.(merges := w.merges) == w;
    if f.failed + 1 < MAX_FAILED_PERSON_MERGE_ATTEMPTS {
      CallSpends(w, w.merges, f.(aborted := aborted, mpc := Commit, failed := f.failed + 1),
                 AliasCall(f.otherId, f.intoId, f.into.team, f.identify, false, f.failed + 1));
    }
  }

  lemma MergeSpends(t: Tables, w: Worker, a: Answer)
    requires w.stack != [] && w.stack[0].MergeFrame? && Bounded(w.stack[0])
    ensures Spends(w, StepMerge(t, w, a).1) && StepMerge(t, w, a).1.steps == w.steps
  {
    hide Perform, MoveDistinctIds, CommitMerge, Spends, CatchInMerge;
    var f := w.stack[0];
    PopSpends(w);
    ThrowSpends(w);
    assert Top(w, f.(aborted := f.aborted)) == w;
    match f.mpc {
      case TxUpdate =>
        TopSpends(w, f.(mpc := Move, updatePending := true));
        if a.error.Some? {
          CatchSpends(t, w, true, a.error.value);
        }
      case Move =>
        TopSpends(w, f.(mpc := TxDelete));
        var (t', error) := Perform(t, MoveDistinctIds(t, f.other.id, f.into.id, f.into.team), a);
        if error.Some? {
          CatchSpends(t', w, f.aborted, error.value);
        }
      case TxDelete =>
        TopSpends(w, f.(mpc := Commit, deletePending := true));
        if a.error.Some? {
          CatchSpends(t, w, true, a.error.value);
        }
      case Commit =>
    }
  }

  lemma CreateSpends(t: Tables, w: Worker, a: Answer)
    requires w.stack != [] && w.stack[0].CreateFrame?
    ensures Spends(w, StepCreate(t, w, a).1) && StepCreate(t, w, a).1.steps == w.steps
  {
    PopSpends(w);
    if w.stack[0].cpc == Count {
      TopSpends(w, w.stack[0].(cpc := Insert));
    }
  }

  lemma SpendsBounds(w: Worker, w': Worker)
    requires w.stack != [] && WorkerBounded(w) && Spends(w, w')
    ensures WorkerBounded(w')
    ensures w'.stack == [] || TotalSteps(w'.stack) < TotalSteps(w.stack)
  {
    var rest := w.stack[1..];
    assert Bounded(w.stack[0]);
    assert forall g <- rest :: g in w.stack;
    MergesNonNegative(rest);
    if w'.stack != [] {
      var fs :| Replaces(w, w', fs);
      Totals(fs, rest);
    }
  }

  lemma StepSpends(t: Tables, w: Worker, a: Answer)
    requires w.stack != [] && WorkerBounded(w)
    ensures var w' := StepWorker(t, w, a).1;
            && WorkerBounded(w')
            && w'.steps + TotalSteps(w'.stack) <= w.steps + TotalSteps(w.stack)
  {
    hide StepAlias, StepMerge, StepCreate;
    assert Bounded(w.stack[0]);
    var w1 := w.(steps := w.steps + 1);
    match w.stack[0] {
      case AliasFrame(_, _, _, _, _, _, _, _, _) => AliasSpends(t, w1, a);
      case MergeFrame(_, _, _, _, _, _, _, _, _, _) => MergeSpends(t, w1, a);
      case CreateFrame(_, _, _) => CreateSpends(t, w1, a);
    }
    SpendsBounds(w1, StepWorker(t, w, a).1);
    assert 1 <= TotalSteps(w.stack) by {
      assert 1 <= StepsLeft(w.stack[0]);
    }
  }

  lemma {:induction false} MergesNonNegative(stack: seq<Frame>)
    requires forall f <- stack :: Bounded(f)
    ensures 0 <= TotalMerges(stack)
  {
    if stack != [] {
      assert Bounded(stack[0]);
      MergesNonNegative(stack[1..]);
    }
  }

  // Whatever the schedule and the answers: a top-level call takes at most AliasCost(true, 0) == 32
  // steps and starts at most 3 merge transactions, counting those of the alias calls it makes.
  lemma {:induction false} EveryCallEnds(c: Config, schedule: seq<Turn>, i: nat)
    requires i < |c.workers| && WorkerBounded(c.workers[i])
    ensures var c' := Run(c, schedule);
            && |c'.workers| == |c.workers|
            && c'.workers[i].merges <= 3
            && WorkerBounded(c'.workers[i])
            && c'.workers[i].steps + TotalSteps(c'.workers[i].stack)
               <= c.workers[i].steps + TotalSteps(c.workers[i].stack)
    decreases |schedule|
  {
    MergesNonNegative(c.workers[i].stack);
    if schedule != [] {
      var turn := schedule[0];
      if turn.worker == i && c.workers[i].stack != [] {
        StepSpends(c.tables, c.workers[i], turn.answer);
      }
      EveryCallEnds(Step(c, turn), schedule[1..], i);
    }
  }

  lemma TopLevelCallsEnd(c: Config, schedule: seq<Turn>, i: nat)
    requires Initial(c) && i < |c.workers|
    ensures i < |Run(c, schedule).workers|
    ensures var w := Run(c, schedule).workers[i];
            w.merges <= 3 && w.steps <= 32
  {
    var w := c.workers[i];
    assert Starting(w);
    assert w.stack == [w.stack[0]] && w.stack[1..] == [];
    assert AliasCost(true, 0) == 32 by {
      assert MergeCost(2) == 4 && AliasCost(false, 2) == 9 && MergeCost(1) == 13 && AliasCost(false, 1) == 18;
      assert MergeCost(0) == 22 && AliasCost(false, 0) == 27;
    }
    EveryCallEnds(c, schedule, i);
  }
}
