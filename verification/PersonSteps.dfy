// Runs of workers, and what the single steps of alias and mergePeople do when their statements succeed.  Each lemma
// about a step gives the tables after it and the frames that take the place of the top frame; a run is put together
// turn by turn, with a property that every turn has at the state in which it is taken.
module PersonSteps {
  import opened Wrappers
  import opened PersonTables
  import opened PersonInterleaving

  // Every turn of a run has the property, at the state in which it is taken.
  ghost predicate Always(c: Config, schedule: seq<Turn>, p: (Config, Turn) -> bool)
    decreases |schedule|
  {
    schedule == [] || (p(c, schedule[0]) && Always(Step(c, schedule[0]), schedule[1..], p))
  }

  lemma {:induction false} OneMoreTurn(c: Config, schedule: seq<Turn>, turn: Turn, p: (Config, Turn) -> bool)
    ensures Run(c, schedule + [turn]) == Step(Run(c, schedule), turn)
    ensures Always(c, schedule + [turn], p) <==> Always(c, schedule, p) && p(Run(c, schedule), turn)
    decreases |schedule|
  {
    hide Step;
    var all := schedule + [turn];
    if schedule == [] {
      assert all[0] == turn && all[1..] == [];
      assert Run(Step(c, turn), []) == Step(c, turn);
      assert Always(Step(c, turn), [], p);
    } else {
      assert all[0] == schedule[0] && all[1..] == schedule[1..] + [turn];
      OneMoreTurn(Step(c, schedule[0]), schedule[1..], turn, p);
    }
  }

  lemma {:induction false} WeakerAlways(c: Config, schedule: seq<Turn>, p: (Config, Turn) -> bool,
                                        q: (Config, Turn) -> bool)
    requires Always(c, schedule, p) && forall c, turn :: p(c, turn) ==> q(c, turn)
    ensures Always(c, schedule, q)
    decreases |schedule|
  {
    if schedule != [] {
      WeakerAlways(Step(c, schedule[0]), schedule[1..], p, q);
    }
  }

  lemma StepOf(c: Config, i: nat, a: Answer)
    requires i < |c.workers| && c.workers[i].stack != []
    ensures var (t, w) := StepWorker(c.tables, c.workers[i], a);
            Step(c, Turn(i, a)) == Config(t, c.workers[i := w])
  {
  }

  const SUCCEEDS := Answer(None, false, "", 0, false)

  lemma NoError()
    ensures SUCCEEDS.error.None?
  {
  }

  const FAILS := SUCCEEDS.(error := Some(DatabaseError))

  // The step leaves these tables and replaces the top frame by these frames.
  predicate Becomes(t: Tables, w: Worker, a: Answer, t': Tables, front: seq<Frame>)
    requires w.stack != []
  {
    var (t1, w1) := StepWorker(t, w, a);
    t1 == t' && w1.stack == front + w.stack[1..] && w1.threw == w.threw
  }

  lemma FetchesOld(t: Tables, w: Worker, a: Answer, f: Frame)
    requires a.error.None? && w.stack != [] && w.stack[0] == f && f.AliasFrame? && f.apc == FetchOld
    ensures Becomes(t, w, a, t,
                    if f.previousId == f.distinctId then []
                    else [f.(apc := FetchNew, oldPerson := FetchPerson(t, Key(f.team, f.previousId)))])
  {
    hide FetchPerson;
  }

  lemma FetchesNew(t: Tables, w: Worker, a: Answer, f: Frame)
    requires a.error.None? && w.stack != [] && w.stack[0] == f && f.AliasFrame? && f.apc == FetchNew
    ensures Becomes(t, w, a, t,
                    [f.(apc := Decide, newPerson := FetchPerson(t, Key(f.team, f.distinctId)))])
  {
    hide FetchPerson;
  }

  predicate Merges(f: Frame)
    requires f.AliasFrame? && f.oldPerson.Some? && f.newPerson.Some?
  {
    f.oldPerson.value.id != f.newPerson.value.id && !(f.identify && f.oldPerson.value.isIdentified)
  }

  function MergeCall(f: Frame): Frame
    requires f.AliasFrame? && f.oldPerson.Some? && f.newPerson.Some?
  {
    MergeFrame(TxUpdate, f.newPerson.value, f.oldPerson.value, f.distinctId, f.previousId, f.identify, f.attempts,
               false, false, false)
  }

  lemma Decides(t: Tables, w: Worker, a: Answer, f: Frame)
    requires a.error.None? && w.stack != [] && w.stack[0] == f && f.AliasFrame? && f.apc == Decide
    requires f.oldPerson.Some? && f.newPerson.Some?
    ensures Becomes(t, w, a, t, if Merges(f) then [MergeCall(f), f.(apc := Finish)] else [f.(apc := Finish)])
  {
  }

  lemma Inserts(t: Tables, w: Worker, a: Answer, f: Frame)
    requires a.error.None? && w.stack != [] && w.stack[0] == f && f.AliasFrame? && f.apc == Decide
    requires (f.oldPerson.None? || f.newPerson.None?) && DecideStatement(t, f, a).Ok?
    ensures Becomes(t, w, a, DecideStatement(t, f, a).value, [f.(apc := Finish)])
  {
    hide DecideStatement;
  }

  // An insert of a first call that the tables refuse, or that is answered with an error.
  predicate Retried(t: Tables, f: Frame, a: Answer) {
    && f.AliasFrame? && f.apc == Decide && f.retry && (f.oldPerson.None? || f.newPerson.None?)
    && (DecideStatement(t, f, a).Err? || a.error.Some?)
  }

  lemma InsertIsRetried(t: Tables, w: Worker, a: Answer, f: Frame)
    requires w.stack != [] && w.stack[0] == f && Retried(t, f, a)
    ensures Becomes(t, w, a, Perform(t, DecideStatement(t, f, a), a).0,
                    [AliasCall(f.previousId, f.distinctId, f.team, f.identify, false, 0), f.(apc := Finish)])
  {
    hide DecideStatement;
  }

  lemma Finishes(t: Tables, w: Worker, a: Answer, f: Frame)
    requires a.error.None? && w.stack != [] && w.stack[0] == f && f.AliasFrame? && f.apc == Finish
    requires f.identify ==> FetchPerson(t, Key(f.team, f.distinctId)).Some?
    ensures var found := FetchPerson(t, Key(f.team, f.distinctId));
            Becomes(t, w, a, t,
                    if f.identify && !found.value.isIdentified then [f.(apc := Identify(found.value))] else [])
  {
    hide FetchPerson;
  }

  lemma Identifies(t: Tables, w: Worker, a: Answer, f: Frame)
    requires a.error.None? && w.stack != [] && w.stack[0] == f && f.AliasFrame? && f.apc.Identify?
    ensures Becomes(t, w, a, UpdatePerson(t, f.apc.found.id, IDENTIFY), [])
  {
    hide UpdatePerson;
  }

  lemma Updates(t: Tables, w: Worker, a: Answer, f: Frame)
    requires a.error.None? && w.stack != [] && w.stack[0] == f && f.MergeFrame? && f.mpc == TxUpdate
    ensures Becomes(t, w, a, t, [f.(mpc := Move, updatePending := true)])
  {
  }

  lemma Moves(t: Tables, w: Worker, a: Answer, f: Frame)
    requires a.error.None? && w.stack != [] && w.stack[0] == f && f.MergeFrame? && f.mpc == Move
    requires MoveDistinctIds(t, f.other.id, f.into.id, f.into.team).Ok?
    ensures Becomes(t, w, a, MoveDistinctIds(t, f.other.id, f.into.id, f.into.team).value,
                    [f.(mpc := TxDelete)])
  {
    hide MoveDistinctIds;
  }

  lemma Deletes(t: Tables, w: Worker, a: Answer, f: Frame)
    requires a.error.None? && w.stack != [] && w.stack[0] == f && f.MergeFrame? && f.mpc == TxDelete
    ensures Becomes(t, w, a, t, [f.(mpc := Commit, deletePending := true)])
  {
  }

  lemma Commits(t: Tables, w: Worker, a: Answer, f: Frame)
    requires a.error.None? && w.stack != [] && w.stack[0] == f && f.MergeFrame? && f.mpc == Commit
    requires f.aborted || CommitMerge(t, f).Ok?
    ensures Becomes(t, w, a, if f.aborted then t else CommitMerge(t, f).value, [])
  {
    hide CommitMerge;
  }

  // moveDistinctIds fails with a database error, and the catch block calls alias.
  predicate RetriesMove(f: Frame, a: Answer) {
    && f.MergeFrame? && f.mpc == Move
    && a.error == Some(DatabaseError) && f.failed + 1 != MAX_FAILED_PERSON_MERGE_ATTEMPTS
  }

  function CatchCall(f: Frame): Frame
    requires f.MergeFrame?
  {
    AliasCall(f.otherId, f.intoId, f.into.team, f.identify, false, f.failed + 1)
  }

  lemma MoveIsRetried(t: Tables, w: Worker, a: Answer, f: Frame)
    requires w.stack != [] && w.stack[0] == f && RetriesMove(f, a)
    ensures Becomes(t, w, a, Perform(t, MoveDistinctIds(t, f.other.id, f.into.id, f.into.team), a).0,
                    [CatchCall(f), f.(mpc := Commit, failed := f.failed + 1)])
  {
    hide MoveDistinctIds;
  }

  lemma UpdateIsRetried(t: Tables, w: Worker, a: Answer, f: Frame)
    requires w.stack != [] && w.stack[0] == f && f.MergeFrame? && f.mpc == TxUpdate
    requires a.error == Some(DatabaseError) && f.failed + 1 != MAX_FAILED_PERSON_MERGE_ATTEMPTS
    ensures Becomes(t, w, a, t, [CatchCall(f), f.(mpc := Commit, failed := f.failed + 1, aborted := true)])
  {
  }

  // The delete fails, as it does while a distinct id still points to the person.
  lemma DeleteIsRetried(t: Tables, w: Worker, a: Answer, f: Frame)
    requires w.stack != [] && w.stack[0] == f && f.MergeFrame? && f.mpc == TxDelete
    requires a.error == Some(DatabaseError) && f.failed + 1 != MAX_FAILED_PERSON_MERGE_ATTEMPTS
    ensures Becomes(t, w, a, t, [CatchCall(f), f.(mpc := Commit, failed := f.failed + 1, aborted := true)])
  {
  }

  // ----- building a run turn by turn -----

  ghost predicate Leads(start: Config, schedule: seq<Turn>, c: Config, p: (Config, Turn) -> bool) {
    Run(start, schedule) == c && Always(start, schedule, p)
  }

  lemma TakesTurn(start: Config, schedule: seq<Turn>, c: Config, p: (Config, Turn) -> bool, i: nat, a: Answer,
                  t: Tables, front: seq<Frame>) returns (longer: seq<Turn>, next: Config)
    requires Leads(start, schedule, c, p) && i < |c.workers| && c.workers[i].stack != []
    requires Becomes(c.tables, c.workers[i], a, t, front) && p(c, Turn(i, a))
    ensures Leads(start, longer, next, p)
    ensures next.tables == t && |next.workers| == |c.workers|
    ensures next.workers[i].stack == front + c.workers[i].stack[1..] && next.workers[i].threw == c.workers[i].threw
    ensures forall j :: 0 <= j < |c.workers| && j != i ==> next.workers[j] == c.workers[j]
  {
    hide StepWorker, Always, Run;
    StepOf(c, i, a);
    OneMoreTurn(start, schedule, Turn(i, a), p);
    longer := schedule + [Turn(i, a)];
    next := Step(c, Turn(i, a));
  }
}
