// A row that an open transaction has written stays locked until the transaction ends.  mergePeople keeps its
// transaction open, idle, while the alias call of its catch block runs on other connections.
module PersonLocks {
  import opened Wrappers
  import opened PersonTables
  import opened PersonInterleaving
  import opened PersonSteps

  // ----- which statement waits for which transaction -----

  // A transaction that Postgres has aborted holds no locks.
  function LockedRows(f: Frame): set<nat> {
    if !f.MergeFrame? || f.aborted then {}
    else (if f.updatePending then {f.into.id} else {}) + DeletedRows(f)
  }

  function DeletedRows(f: Frame): set<nat> {
    if f.MergeFrame? && !f.aborted && f.deletePending then {f.other.id} else {}
  }

  // The person row that the next statement of a frame writes.
  function WrittenRow(f: Frame): Option<nat> {
    if f.AliasFrame? && f.apc.Identify? then Some(f.apc.found.id)
    else if f.MergeFrame? && f.mpc == TxUpdate then Some(f.into.id)
    else if f.MergeFrame? && f.mpc == TxDelete then Some(f.other.id)
    else None
  }

  // The person row that a foreign key makes the next statement look at.  That waits for a delete, but not for an
  // update of columns that are no key.
  function ReferencedRow(f: Frame): Option<nat> {
    if f.AliasFrame? && f.apc == Decide && f.oldPerson.Some? && f.newPerson.None? then Some(f.oldPerson.value.id)
    else if f.AliasFrame? && f.apc == Decide && f.oldPerson.None? && f.newPerson.Some? then Some(f.newPerson.value.id)
    else if f.MergeFrame? && f.mpc == Move then Some(f.into.id)
    else None
  }

  // The open transaction of one frame makes the next statement of another wait.
  predicate Blocks(t: Tables, holder: Frame, f: Frame) {
    var written, referenced := WrittenRow(f), ReferencedRow(f);
    || (written.Some? && written.value in t.persons && written.value in LockedRows(holder))
    || (referenced.Some? && referenced.value in t.persons && referenced.value in DeletedRows(holder))
  }

  // Worker i waits for the transaction of the frame at depth d of worker j.
  predicate Waits(c: Config, i: nat, j: nat, d: nat) {
    && i < |c.workers| && c.workers[i].stack != []
    && j < |c.workers| && d < |c.workers[j].stack|
    && (i != j || d != 0)
    && Blocks(c.tables, c.workers[j].stack[d], c.workers[i].stack[0])
  }

  function Next(ring: seq<nat>, k: nat): nat
    requires k < |ring|
  {
    if k + 1 < |ring| then ring[k + 1] else ring[0]
  }

  // Each worker waits for the next one, and the last for the first: none of them goes on by itself.
  ghost predicate Ring(c: Config, ring: seq<nat>) {
    ring != [] && forall k :: 0 <= k < |ring| ==> exists d :: Waits(c, ring[k], Next(ring, k), d)
  }

  // Postgres sees the ring, and breaks it, if each waits for the very connection on which the next one waits.
  // It does not know that the transaction of a lower frame depends on the statement of the top frame.
  ghost predicate Seen(c: Config, ring: seq<nat>) {
    ring != [] && forall k :: 0 <= k < |ring| ==> Waits(c, ring[k], Next(ring, k), 0)
  }

  // A turn that a worker can take: its next statement need not wait.
  ghost predicate Runs(c: Config, turn: Turn) {
    forall j, d :: !Waits(c, turn.worker, j, d)
  }

  // ----- what every run keeps about the frames -----

  predicate Idle(f: Frame) {
    LockedRows(f) == {}
  }

  // Before its first statement a transaction holds no locks, then those of its update.
  predicate Steady(f: Frame) {
    && (f.MergeFrame? && f.mpc != Commit ==>
          !f.aborted && !f.deletePending && (f.updatePending <==> f.mpc != TxUpdate))
    && (f.MergeFrame? && f.deletePending ==> f.updatePending && !f.aborted)
  }

  // Distinct ids whose person a frame has read stay in the tables.
  ghost predicate Remembers(t: Tables, f: Frame) {
    match f
    case AliasFrame(pc, previousId, distinctId, team, _, _, _, oldPerson, newPerson) =>
      && (pc == FetchNew || pc == Decide ==> previousId != distinctId)
      && (pc == FetchNew || pc == Decide ==> oldPerson.Some? ==> Key(team, previousId) in t.ids)
      && (pc == Decide ==> newPerson.Some? ==> Key(team, distinctId) in t.ids)
    case MergeFrame(_, into, _, intoId, otherId, _, _, _, _, _) =>
      intoId != otherId && Key(into.team, intoId) in t.ids && Key(into.team, otherId) in t.ids
    case CreateFrame(_, _, _) => true
  }

  ghost predicate FrameSafe(t: Tables, f: Frame) {
    Steady(f) && Remembers(t, f)
  }

  ghost predicate StackOk(t: Tables, stack: seq<Frame>) {
    && (forall f <- stack :: FrameSafe(t, f))
    && (forall i :: 1 <= i < |stack| ==> DeletedRows(stack[i]) == {})
  }

  lemma IdsStay(t: Tables, t': Tables, f: Frame)
    requires Grows(t, t') && FrameSafe(t, f)
    ensures FrameSafe(t', f)
  {
    forall k | k in t.ids
      ensures k in t'.ids
    {
      assert SamePerson(t, k, k) && SamePerson(t', k, k);
    }
  }

  lemma StackStays(t: Tables, t': Tables, stack: seq<Frame>)
    requires Grows(t, t') && StackOk(t, stack)
    ensures StackOk(t', stack)
  {
    forall f <- stack
      ensures FrameSafe(t', f)
    {
      IdsStay(t, t', f);
    }
  }

  // Only the top frame holds locks.
  ghost predicate Unlocked(stack: seq<Frame>) {
    forall i :: 1 <= i < |stack| ==> Idle(stack[i])
  }

  // A step replaces the top frame by none, by one, or by a callee and its caller, or it throws.  A caller holds
  // locks only after a failed move.
  ghost predicate Fronts(t: Tables, stack: seq<Frame>, next: seq<Frame>, retried: bool)
    requires stack != []
  {
    var rest := stack[1..];
    || next == [] || next == rest
    || (exists f :: next == [f] + rest && FrameSafe(t, f))
    || (exists f, g :: next == [f, g] + rest && FrameSafe(t, f) && FrameSafe(t, g)
          && DeletedRows(g) == {} && (retried || Idle(g)))
  }

  lemma FrontsAreOk(t: Tables, t': Tables, stack: seq<Frame>, next: seq<Frame>, retried: bool)
    requires stack != [] && StackOk(t, stack) && Grows(t, t') && Fronts(t', stack, next, retried)
    ensures StackOk(t', next)
  {
    StackStays(t, t', stack);
    hide FrameSafe, Grows, Idle, DeletedRows;
    var k := |next| - |stack| + 1;
    forall i | 1 <= i < |next|
      ensures DeletedRows(next[i]) == {}
    {
      assert i >= k ==> next[i] == stack[i - k + 1];
    }
  }

  lemma FrontsStayUnlocked(t: Tables, stack: seq<Frame>, next: seq<Frame>)
    requires stack != [] && Unlocked(stack) && Fronts(t, stack, next, false)
    ensures Unlocked(next)
  {
    hide FrameSafe, Idle, DeletedRows;
    var k := |next| - |stack| + 1;
    forall i | 1 <= i < |next|
      ensures Idle(next[i])
    {
      assert i >= k ==> next[i] == stack[i - k + 1];
    }
  }

  lemma PopFronts(t: Tables, w: Worker)
    requires w.stack != []
    ensures Fronts(t, w.stack, Pop(w).stack, false) && Fronts(t, w.stack, Throw(w).stack, false)
    ensures Fronts(t, w.stack, Pop(w).stack, true) && Fronts(t, w.stack, Throw(w).stack, true)
  {
  }

  lemma TopFronts(t: Tables, w: Worker, f: Frame)
    requires w.stack != [] && FrameSafe(t, f)
    ensures Fronts(t, w.stack, Top(w, f).stack, false) && Fronts(t, w.stack, Top(w, f).stack, true)
  {
    hide FrameSafe;
  }

  lemma CallFronts(t: Tables, w: Worker, caller: Frame, callee: Frame, retried: bool)
    requires w.stack != [] && FrameSafe(t, caller) && FrameSafe(t, callee)
    requires DeletedRows(caller) == {} && (retried || Idle(caller))
    ensures Fronts(t, w.stack, Call(w, caller, callee).stack, retried)
  {
    hide FrameSafe, DeletedRows, Idle;
    assert [callee, caller] + w.stack[1..] == Call(w, caller, callee).stack;
  }

  lemma AliasFronts(t: Tables, w: Worker, a: Answer)
    requires w.stack != [] && w.stack[0].AliasFrame? && FrameSafe(t, w.stack[0]) && FrameOk(t, w.stack[0])
    requires Consistent(t)
    ensures var (t', w') := StepAlias(t, w, a); Grows(t, t') && Fronts(t', w.stack, w'.stack, false)
  {
    StepAliasKeeps(t, w, a);
    var f := w.stack[0];
    var t' := StepAlias(t, w, a).0;
    PopFronts(t', w);
    FetchedHasId(t, Key(f.team, f.previousId));
    FetchedHasId(t, Key(f.team, f.distinctId));
    hide Grows, Guarantee, Consistent, FetchPerson, UpdatePerson, StepDecide, Perform, Fronts;
    match f.apc {
      case FetchOld =>
        if f.previousId != f.distinctId {
          TopFronts(t, w, f.(apc := FetchNew, oldPerson := FetchPerson(t, Key(f.team, f.previousId))));
        }
      case FetchNew =>
        TopFronts(t, w, f.(apc := Decide, newPerson := FetchPerson(t, Key(f.team, f.distinctId))));
      case Decide => DecideFronts(t, w, a);
      case Finish =>
        var found := FetchPerson(t, Key(f.team, f.distinctId));
        if found.Some? {
          TopFronts(t, w, f.(apc := Identify(found.value)));
        }
      case Identify(_) =>
    }
  }

  lemma DecideFronts(t: Tables, w: Worker, a: Answer)
    requires w.stack != [] && w.stack[0].AliasFrame? && FrameSafe(t, w.stack[0]) && FrameOk(t, w.stack[0])
    requires w.stack[0].apc == Decide
    ensures Fronts(StepDecide(t, w, a).0, w.stack, StepDecide(t, w, a).1.stack, false)
  {
    var f := w.stack[0];
    var t' := StepDecide(t, w, a).0;
    var finish := f.(apc := Finish);
    hide DecideStatement, Perform, Fronts;
    TopFronts(t', w, finish);
    if f.oldPerson.Some? && f.newPerson.Some? {
      assert t' == t;
      CallFronts(t, w, finish, MergeCall(f), false);
    } else {
      CallFronts(t', w, finish, AliasCall(f.previousId, f.distinctId, f.team, f.identify, false, 0), false);
    }
  }

  lemma FetchedHasId(t: Tables, k: Key)
    ensures FetchPerson(t, k).Some? ==> k in t.ids
  {
  }

  lemma CatchFronts(t: Tables, w: Worker, e: DbError)
    requires w.stack != [] && w.stack[0].MergeFrame? && FrameSafe(t, w.stack[0]) && w.stack[0].mpc == Move
    ensures var f := w.stack[0];
            Fronts(t, w.stack, CatchInMerge(t, w, e).1.stack,
                   e == DatabaseError && f.failed + 1 != MAX_FAILED_PERSON_MERGE_ATTEMPTS)
  {
    var f := w.stack[0];
    hide Fronts;
    PopFronts(t, w);
    CallFronts(t, w, f.(mpc := Commit, failed := f.failed + 1), CatchCall(f), true);
  }

  lemma MergeFronts(t: Tables, w: Worker, a: Answer)
    requires w.stack != [] && w.stack[0].MergeFrame? && FrameSafe(t, w.stack[0]) && FrameOk(t, w.stack[0])
    requires Consistent(t)
    ensures var (t', w') := StepMerge(t, w, a);
            Grows(t, t') && Fronts(t', w.stack, w'.stack, RetriesMove(w.stack[0], a))
  {
    StepMergeKeeps(t, w, a);
    var f := w.stack[0];
    var t' := StepMerge(t, w, a).0;
    PopFronts(t', w);
    match f.mpc {
      case TxUpdate =>
        TopFronts(t, w, f.(mpc := Move, updatePending := true));
        if a.error.Some? {
          AbortedCatch(t, w, a.error.value);
        }
      case Move =>
        var (t1, error) := Perform(t, MoveDistinctIds(t, f.other.id, f.into.id, f.into.team), a);
        assert t1 == t';
        IdsStay(t, t1, f);
        TopFronts(t1, w, f.(mpc := TxDelete));
        if error.Some? {
          PerformFails(t, f, a);
          CatchFronts(t1, w, error.value);
        }
      case TxDelete =>
        TopFronts(t, w, f.(mpc := Commit, deletePending := true));
        if a.error.Some? {
          AbortedCatch(t, w, a.error.value);
        }
      case Commit =>
    }
    hide Grows, Guarantee, Consistent, MoveDistinctIds, CommitMerge, Perform, CatchInMerge, Fronts, FrameSafe;
  }

  // moveDistinctIds itself raises no database error.
  lemma PerformFails(t: Tables, f: Frame, a: Answer)
    requires f.MergeFrame? && f.mpc == Move
    ensures var error := Perform(t, MoveDistinctIds(t, f.other.id, f.into.id, f.into.team), a).1;
            error.Some? ==>
              (RetriesMove(f, a) <==> error.value == DatabaseError && f.failed + 1 != MAX_FAILED_PERSON_MERGE_ATTEMPTS)
  {
  }

  lemma AbortedCatch(t: Tables, w: Worker, e: DbError)
    requires w.stack != [] && w.stack[0].MergeFrame? && FrameSafe(t, w.stack[0]) && !w.stack[0].mpc.Commit?
    ensures Fronts(t, w.stack, CatchInMerge(t, Top(w, w.stack[0].(aborted := true)), e).1.stack, false)
  {
    var f := w.stack[0].(aborted := true);
    hide Fronts;
    PopFronts(t, w);
    CallFronts(t, w, f.(mpc := Commit, failed := f.failed + 1), CatchCall(f), false);
  }

  lemma CreateFronts(t: Tables, w: Worker, a: Answer)
    requires w.stack != [] && w.stack[0].CreateFrame? && Consistent(t)
    ensures var (t', w') := StepCreate(t, w, a); Grows(t, t') && Fronts(t', w.stack, w'.stack, false)
  {
    StepCreateKeeps(t, w, a);
    var t' := StepCreate(t, w, a).0;
    PopFronts(t', w);
    TopFronts(t', w, w.stack[0].(cpc := Insert));
    hide Grows, Guarantee, Consistent, CreatePerson, Perform, Fronts, FrameSafe;
  }

  lemma StepFronts(t: Tables, w: Worker, a: Answer)
    requires w.stack != [] && FrameSafe(t, w.stack[0]) && FrameOk(t, w.stack[0]) && Consistent(t)
    ensures var (t', w') := StepWorker(t, w, a);
            Grows(t, t') && Fronts(t', w.stack, w'.stack, RetriesMove(w.stack[0], a))
  {
    hide StepAlias, StepMerge, StepCreate, Fronts, FrameSafe, FrameOk, Consistent, Grows;
    var w1 := w.(steps := w.steps + 1);
    match w.stack[0] {
      case AliasFrame(_, _, _, _, _, _, _, _, _) => AliasFronts(t, w1, a);
      case MergeFrame(_, _, _, _, _, _, _, _, _, _) => MergeFronts(t, w1, a);
      case CreateFrame(_, _, _) => CreateFronts(t, w1, a);
    }
  }

  lemma StepStackOk(t: Tables, w: Worker, a: Answer)
    requires w.stack != [] && Consistent(t) && WorkerOk(t, w) && StackOk(t, w.stack)
    ensures var (t', w') := StepWorker(t, w, a); StackOk(t', w'.stack) && Grows(t, t')
    ensures Unlocked(w.stack) && !RetriesMove(w.stack[0], a) ==> Unlocked(StepWorker(t, w, a).1.stack)
  {
    assert w.stack[0] in w.stack && FrameSafe(t, w.stack[0]) && FrameOk(t, w.stack[0]);
    hide *;
    StepFronts(t, w, a);
    var next := StepWorker(t, w, a).1.stack;
    FrontsAreOk(t, StepWorker(t, w, a).0, w.stack, next, RetriesMove(w.stack[0], a));
    if Unlocked(w.stack) && !RetriesMove(w.stack[0], a) {
      FrontsStayUnlocked(StepWorker(t, w, a).0, w.stack, next);
    }
  }

  ghost predicate StacksOk(c: Config) {
    Inv(c) && forall w <- c.workers :: StackOk(c.tables, w.stack)
  }

  lemma StepStacksOk(c: Config, turn: Turn)
    requires StacksOk(c)
    ensures StacksOk(Step(c, turn))
  {
    StepKeeps(c, turn);
    var c' := Step(c, turn);
    if turn.worker < |c.workers| && c.workers[turn.worker].stack != [] {
      var w := c.workers[turn.worker];
      assert w in c.workers;
      StepStackOk(c.tables, w, turn.answer);
      hide StackOk, Inv, StepWorker, Grows;
      forall v <- c'.workers
        ensures StackOk(c'.tables, v.stack)
      {
        var j :| 0 <= j < |c'.workers| && c'.workers[j] == v;
        if j != turn.worker {
          assert v == c.workers[j];
          StackStays(c.tables, c'.tables, v.stack);
        }
      }
    }
  }

  lemma {:induction false} RunStacksOk(c: Config, schedule: seq<Turn>)
    requires StacksOk(c)
    ensures StacksOk(Run(c, schedule))
    decreases |schedule|
  {
    if schedule != [] {
      StepStacksOk(c, schedule[0]);
      RunStacksOk(Step(c, schedule[0]), schedule[1..]);
    }
  }

  lemma StartsOk(c: Config)
    requires Initial(c)
    ensures StacksOk(c)
  {
  }

  // ----- what a merge leaves when it commits -----

  // The person to keep has the earlier time of creation, the properties of both where its own win, and the flag of
  // either copy; the other person is gone, and all other rows and all ids are as before.
  ghost predicate IsMerged(before: Tables, after: Tables, into: Person, other: Person) {
    && after.ids == before.ids && other.id !in after.persons
    && (forall p <- before.persons :: p != other.id ==> p in after.persons)
    && (forall p <- after.persons :: p in before.persons && (p != into.id ==> after.persons[p] == before.persons[p]))
    && (into.id in after.persons ==>
          var row := after.persons[into.id];
          && row.uuid == before.persons[into.id].uuid && row.team == before.persons[into.id].team
          && row.createdAt <= into.createdAt && row.createdAt <= other.createdAt
          && row.createdAt in {into.createdAt, other.createdAt}
          && row.properties.Keys == into.properties.Keys + other.properties.Keys
          && (forall k <- row.properties ::
                row.properties[k] == if k in into.properties then into.properties[k] else other.properties[k])
          && row.isIdentified == (into.isIdentified || other.isIdentified))
  }

  lemma CommitMerges(t: Tables, f: Frame)
    requires f.MergeFrame? && f.updatePending && f.deletePending && f.into.id != f.other.id
    requires Consistent(t) && CommitMerge(t, f).Ok?
    ensures IsMerged(t, CommitMerge(t, f).value, f.into, f.other)
  {
  }

  // Over every interleaving: a merge that has got to its delete takes effect when it commits, unless a distinct id
  // points to the other person again.
  lemma EveryMergeTakesEffect(c: Config, schedule: seq<Turn>, i: nat, a: Answer)
    requires Initial(c) && a.error.None?
    requires var now := Run(c, schedule); i < |now.workers| && now.workers[i].stack != []
    requires var f := Run(c, schedule).workers[i].stack[0];
             f.MergeFrame? && f.mpc == Commit && f.deletePending && f.into.id != f.other.id
    ensures var now := Run(c, schedule);
            var f := now.workers[i].stack[0];
            var (t, w) := StepWorker(now.tables, now.workers[i], a);
            if Referenced(now.tables, f.other.id) then t == now.tables && w.threw
            else IsMerged(now.tables, t, f.into, f.other) && w.stack == now.workers[i].stack[1..]
  {
    StartsOk(c);
    RunStacksOk(c, schedule);
    var now := Run(c, schedule);
    var w := now.workers[i];
    assert w in now.workers && w.stack[0] in w.stack && FrameSafe(now.tables, w.stack[0]);
    CommitIsRefusedExactly(now.tables, w.stack[0]);
    if !Referenced(now.tables, w.stack[0].other.id) {
      CommitMerges(now.tables, w.stack[0]);
    }
    hide CommitMerge, IsMerged, StacksOk, StackOk, Initial, Run;
  }

  lemma CommitIsRefusedExactly(t: Tables, f: Frame)
    requires f.MergeFrame? && f.deletePending
    ensures CommitMerge(t, f).Err? <==> Referenced(t, f.other.id)
  {
  }

  // ----- without a retried move Postgres sees every ring -----

  predicate RetriesNoMove(c: Config, turn: Turn) {
    turn.worker < |c.workers| && c.workers[turn.worker].stack != [] ==>
      !RetriesMove(c.workers[turn.worker].stack[0], turn.answer)
  }

  ghost predicate AllUnlocked(c: Config) {
    forall i :: 0 <= i < |c.workers| ==> Unlocked(c.workers[i].stack)
  }

  lemma {:induction false} RunStaysUnlocked(c: Config, schedule: seq<Turn>)
    requires StacksOk(c) && AllUnlocked(c) && Always(c, schedule, RetriesNoMove)
    ensures AllUnlocked(Run(c, schedule))
    decreases |schedule|
  {
    if schedule != [] {
      var turn := schedule[0];
      StepStacksOk(c, turn);
      if turn.worker < |c.workers| && c.workers[turn.worker].stack != [] {
        assert c.workers[turn.worker] in c.workers;
        StepStackOk(c.tables, c.workers[turn.worker], turn.answer);
      }
      hide StacksOk, Unlocked, StepWorker, RetriesMove;
      assert AllUnlocked(Step(c, turn));
      RunStaysUnlocked(Step(c, turn), schedule[1..]);
    }
  }

  // Over every interleaving: a worker that waits holds no locks but those of the connection on which it waits.
  lemma EveryRingIsSeen(c: Config, schedule: seq<Turn>, ring: seq<nat>)
    requires Initial(c) && Always(c, schedule, RetriesNoMove)
    ensures var c' := Run(c, schedule);
            && (forall i, j, d :: Waits(c', i, j, d) ==> d == 0)
            && (Ring(c', ring) ==> Seen(c', ring))
  {
    StartsOk(c);
    RunStaysUnlocked(c, schedule);
    var c' := Run(c, schedule);
    hide StacksOk, Initial, Run, Always, RetriesNoMove;
    forall i: nat, j: nat, d: nat | Waits(c', i, j, d)
      ensures d == 0
    {
      assert Unlocked(c'.workers[j].stack);
    }
    hide Waits;
  }

  // ----- what the alias call of the catch block comes to -----

  ghost predicate WaitsForItself(t: Tables, w: Worker) {
    w.stack != [] && exists d :: 1 <= d < |w.stack| && Blocks(t, w.stack[d], w.stack[0])
  }

  // The rows that the open transactions of a call stack have locked.
  function Held(stack: seq<Frame>): set<nat> {
    if stack == [] then {} else LockedRows(stack[0]) + Held(stack[1..])
  }

  lemma {:induction false} HeldExactly(stack: seq<Frame>, row: nat)
    ensures row in Held(stack) <==> exists d :: 0 <= d < |stack| && row in LockedRows(stack[d])
  {
    hide LockedRows;
    if stack != [] {
      HeldExactly(stack[1..], row);
      if d :| 0 <= d < |stack[1..]| && row in LockedRows(stack[1..][d]) {
        assert row in LockedRows(stack[d + 1]);
      }
      if d :| 1 <= d < |stack| && row in LockedRows(stack[d]) {
        assert row in LockedRows(stack[1..][d - 1]);
      }
    }
  }

  ghost predicate NoneDeletes(stack: seq<Frame>) {
    forall f <- stack :: DeletedRows(f) == {}
  }

  lemma WaitsExactly(t: Tables, w: Worker)
    requires w.stack != [] && NoneDeletes(w.stack[1..])
    ensures var row := WrittenRow(w.stack[0]);
            WaitsForItself(t, w) <==> row.Some? && row.value in t.persons && row.value in Held(w.stack[1..])
  {
    var row := WrittenRow(w.stack[0]);
    if row.Some? {
      HeldExactly(w.stack[1..], row.value);
      hide LockedRows, DeletedRows, Held, WrittenRow, ReferencedRow;
      if d :| 0 <= d < |w.stack[1..]| && row.value in LockedRows(w.stack[1..][d]) && row.value in t.persons {
        assert Blocks(t, w.stack[d + 1], w.stack[0]);
      }
      if d :| 1 <= d < |w.stack| && Blocks(t, w.stack[d], w.stack[0]) {
        assert w.stack[d] == w.stack[1..][d - 1] && row.value in LockedRows(w.stack[1..][d - 1]);
      }
    }
  }

  datatype CallEnd = Returned | Waiting | Unfinished

  // The worker runs alone and its statements succeed, until the call at the given depth is over.
  ghost function Ending(t: Tables, w: Worker, depth: nat, steps: nat): CallEnd
    decreases steps
  {
    if WaitsForItself(t, w) then Waiting
    else if |w.stack| <= depth then Returned
    else if steps == 0 then Unfinished
    else Ending(StepWorker(t, w, SUCCEEDS).0, StepWorker(t, w, SUCCEEDS).1, depth, steps - 1)
  }

  // The next statement of the top frame writes no row that is locked below.
  predicate Passes(w: Worker) {
    w.stack != [] && (WrittenRow(w.stack[0]).Some? ==> WrittenRow(w.stack[0]).value !in Held(w.stack[1..]))
  }

  lemma Stops(t: Tables, w: Worker, depth: nat, steps: nat)
    requires w.stack != [] && NoneDeletes(w.stack[1..])
    requires !Passes(w) && WrittenRow(w.stack[0]).value in t.persons
    ensures Ending(t, w, depth, steps) == Waiting
  {
    WaitsExactly(t, w);
  }

  lemma GoesOn(t: Tables, w: Worker, depth: nat, steps: nat, t': Tables, front: seq<Frame>) returns (w': Worker)
    requires |w.stack| > depth && steps > 0 && NoneDeletes(w.stack[1..]) && Passes(w)
    requires Becomes(t, w, SUCCEEDS, t', front)
    ensures w'.stack == front + w.stack[1..]
    ensures Ending(t, w, depth, steps) == Ending(t', w', depth, steps - 1)
  {
    WaitsExactly(t, w);
    hide StepWorker, WaitsForItself, Held, WrittenRow, NoneDeletes;
    w' := StepWorker(t, w, SUCCEEDS).1;
  }

  lemma Pops(t: Tables, w: Worker, depth: nat, steps: nat, t': Tables) returns (w': Worker)
    requires |w.stack| > depth && steps > 0 && NoneDeletes(w.stack[1..]) && Passes(w)
    requires Becomes(t, w, SUCCEEDS, t', [])
    ensures w'.stack == w.stack[1..]
    ensures Ending(t, w, depth, steps) == Ending(t', w', depth, steps - 1)
  {
    hide StepWorker, Ending, Becomes, Passes, NoneDeletes;
    w' := GoesOn(t, w, depth, steps, t', []);
    assert [] + w.stack[1..] == w.stack[1..];
  }

  lemma Tops(t: Tables, w: Worker, depth: nat, steps: nat, t': Tables, f: Frame) returns (w': Worker)
    requires |w.stack| > depth && steps > 0 && NoneDeletes(w.stack[1..]) && Passes(w)
    requires Becomes(t, w, SUCCEEDS, t', [f])
    ensures |w'.stack| == |w.stack| && w'.stack[0] == f && w'.stack[1..] == w.stack[1..]
    ensures Ending(t, w, depth, steps) == Ending(t', w', depth, steps - 1)
  {
    hide StepWorker, Ending, Becomes, Passes, NoneDeletes;
    w' := GoesOn(t, w, depth, steps, t', [f]);
  }

  // The call at the given depth is over.
  lemma Returns(t: Tables, w: Worker, depth: nat, steps: nat)
    requires |w.stack| == depth > 0 && NoneDeletes(w.stack) && WrittenRow(w.stack[0]).None?
    ensures Ending(t, w, depth, steps) == Returned
  {
    assert forall f <- w.stack[1..] :: f in w.stack;
    WaitsExactly(t, w);
  }

  // The row that setIsIdentified writes at the end of an alias call, if it writes one.
  function IdentifiedRow(f: Frame, current: Person): set<nat>
    requires f.AliasFrame?
  {
    if f.identify && !current.isIdentified then {current.id} else {}
  }

  // The rows that an alias call writes when it finds these persons.
  function RowsOfCall(f: Frame, previous: Person, current: Person): set<nat>
    requires f.AliasFrame?
  {
    if f.previousId == f.distinctId then {}
    else if previous.id != current.id && !(f.identify && previous.isIdentified) then {previous.id, current.id}
    else IdentifiedRow(f, current)
  }

  function EndOf(rows: set<nat>, held: set<nat>): CallEnd {
    if rows !! held then Returned else Waiting
  }

  lemma FinishEnds(t: Tables, w: Worker, depth: nat, f: Frame, steps: nat)
    requires Consistent(t) && |w.stack| == depth + 1 && depth > 0 && steps >= 2
    requires w.stack[0] == f && f.AliasFrame? && f.apc == Finish
    requires NoneDeletes(w.stack[1..]) && FetchPerson(t, Key(f.team, f.distinctId)).Some?
    requires WrittenRow(w.stack[1]).None?
    ensures var found := FetchPerson(t, Key(f.team, f.distinctId)).value;
            Ending(t, w, depth, steps) == EndOf(IdentifiedRow(f, found), Held(w.stack[1..]))
  {
    hide StepWorker, FetchPerson, Held, Becomes, Ending, NoneDeletes;
    var found := FetchPerson(t, Key(f.team, f.distinctId)).value;
    FetchedIsThere(t, Key(f.team, f.distinctId));
    Finishes(t, w, SUCCEEDS, f);
    if f.identify && !found.isIdentified {
      var g := f.(apc := Identify(found));
      var w1 := Tops(t, w, depth, steps, t, g);
      IdentifyEnds(t, w1, depth, g, steps - 1);
    } else {
      var w1 := Pops(t, w, depth, steps, t);
      Returns(t, w1, depth, steps - 1);
    }
  }

  lemma IdentifyEnds(t: Tables, w: Worker, depth: nat, f: Frame, steps: nat)
    requires |w.stack| == depth + 1 && depth > 0 && steps >= 1
    requires w.stack[0] == f && f.AliasFrame? && f.apc.Identify? && f.apc.found.id in t.persons
    requires NoneDeletes(w.stack[1..]) && WrittenRow(w.stack[1]).None?
    ensures Ending(t, w, depth, steps) == EndOf({f.apc.found.id}, Held(w.stack[1..]))
  {
    hide StepWorker, Held, Becomes, Ending, NoneDeletes;
    if f.apc.found.id in Held(w.stack[1..]) {
      Stops(t, w, depth, steps);
    } else {
      Identifies(t, w, SUCCEEDS, f);
      var w1 := Pops(t, w, depth, steps, UpdatePerson(t, f.apc.found.id, IDENTIFY));
      Returns(UpdatePerson(t, f.apc.found.id, IDENTIFY), w1, depth, steps - 1);
    }
  }

  lemma FetchedIsThere(t: Tables, k: Key)
    requires Consistent(t)
    ensures var p := FetchPerson(t, k);
            p.Some? ==> p.value.id in t.persons && t.persons[p.value.id] == p.value && p.value.team == k.team
                        && k in t.ids && t.ids[k] == p.value.id
  {
  }

  // A merge that runs alone on rows as they are: nothing stops it, and the target keeps the distinct id.
  lemma MergeAlone(t: Tables, m: Frame)
    requires Consistent(t) && m.MergeFrame? && m.into.id != m.other.id && m.updatePending && m.deletePending
    requires FetchPerson(t, Key(m.into.team, m.intoId)) == Some(m.into)
    requires FetchPerson(t, Key(m.into.team, m.otherId)) == Some(m.other)
    ensures var moved := MoveDistinctIds(t, m.other.id, m.into.id, m.into.team);
            && moved.Ok? && moved.value.persons == t.persons && Consistent(moved.value)
            && var done := CommitMerge(moved.value, m);
               && done.Ok? && Consistent(done.value)
               && var kept := FetchPerson(done.value, Key(m.into.team, m.intoId));
                  kept.Some? && kept.value.id == m.into.id
  {
    var k := Key(m.into.team, m.otherId);
    FetchedIsThere(t, k);
    FetchedIsThere(t, Key(m.into.team, m.intoId));
    assert k in RowsOf(t, m.other.id, m.into.team);
    MoveKeeps(t, m.other.id, m.into.id, m.into.team);
    var moved := MoveDistinctIds(t, m.other.id, m.into.id, m.into.team);
    CommitKeeps(moved.value, m);
    hide Consistent, Guarantee, Grows;
  }

  // From the move on, a merge that runs alone waits if the row that it deletes is locked below.
  lemma MoveEnds(t: Tables, w: Worker, depth: nat, m: Frame, finish: Frame)
    requires Consistent(t) && |w.stack| == depth + 2 && depth > 0 && w.stack[0] == m && w.stack[1] == finish
    requires NoneDeletes(w.stack[1..]) && WrittenRow(w.stack[2]).None?
    requires m.MergeFrame? && m.mpc == Move && m.updatePending && !m.aborted && m.into.id != m.other.id
    requires FetchPerson(t, Key(m.into.team, m.intoId)) == Some(m.into)
    requires FetchPerson(t, Key(m.into.team, m.otherId)) == Some(m.other)
    requires finish.AliasFrame? && finish.apc == Finish
    requires Key(finish.team, finish.distinctId) == Key(m.into.team, m.intoId)
    requires m.into.id !in Held(w.stack[1..])
    ensures Ending(t, w, depth, 5) == EndOf({m.other.id}, Held(w.stack[1..]))
  {
    hide *;
    NoError();
    var m2, m3 := m.(mpc := TxDelete), m.(mpc := Commit, deletePending := true);
    MergeAlone(t, m3);
    FetchedIsThere(t, Key(m.into.team, m.otherId));
    Moves(t, w, SUCCEEDS, m);
    var t2 := MoveDistinctIds(t, m.other.id, m.into.id, m.into.team).value;
    MovePasses(w, m);
    var w2 := Tops(t, w, depth, 5, t2, m2);
    SecondFrame(w, w2);
    DeleteEnds(t2, w2, depth, m2, finish);
  }

  lemma MovePasses(w: Worker, m: Frame)
    requires w.stack != [] && w.stack[0] == m && m.MergeFrame? && m.mpc == Move
    ensures Passes(w)
  {
  }

  lemma DeleteEnds(t: Tables, w: Worker, depth: nat, m: Frame, finish: Frame)
    requires |w.stack| == depth + 2 && depth > 0 && w.stack[0] == m && w.stack[1] == finish
    requires NoneDeletes(w.stack[1..]) && WrittenRow(w.stack[2]).None?
    requires m.MergeFrame? && m.mpc == TxDelete && !m.aborted && m.other.id in t.persons
    requires var done := CommitMerge(t, m.(mpc := Commit, deletePending := true)); done.Ok? && Consistent(done.value)
    requires finish.AliasFrame? && finish.apc == Finish
    requires var found := FetchPerson(CommitMerge(t, m.(mpc := Commit, deletePending := true)).value,
                                      Key(finish.team, finish.distinctId));
             found.Some? && found.value.id !in Held(w.stack[1..])
    ensures Ending(t, w, depth, 4) == EndOf({m.other.id}, Held(w.stack[1..]))
  {
    hide StepWorker, FetchPerson, Held, Becomes, CommitMerge, Consistent, Ending, NoneDeletes;
    if m.other.id in Held(w.stack[1..]) {
      Stops(t, w, depth, 4);
    } else {
      Deletes(t, w, SUCCEEDS, m);
      var m3 := m.(mpc := Commit, deletePending := true);
      var w3 := Tops(t, w, depth, 4, t, m3);
      SecondFrame(w, w3);
      CommitEnds(t, w3, depth, m3, finish);
    }
  }

  lemma SecondFrame(w: Worker, w': Worker)
    requires |w.stack| > 2 && |w'.stack| == |w.stack| && w'.stack[1..] == w.stack[1..]
    ensures w'.stack[1] == w.stack[1] && w'.stack[2] == w.stack[2]
  {
    assert w'.stack[1] == w'.stack[1..][0] && w'.stack[2] == w'.stack[1..][1];
  }

  lemma CommitEnds(t: Tables, w: Worker, depth: nat, m: Frame, finish: Frame)
    requires |w.stack| == depth + 2 && depth > 0 && w.stack[0] == m && w.stack[1] == finish
    requires NoneDeletes(w.stack[1..]) && WrittenRow(w.stack[2]).None?
    requires m.MergeFrame? && m.mpc == Commit && !m.aborted
    requires CommitMerge(t, m).Ok? && Consistent(CommitMerge(t, m).value)
    requires finish.AliasFrame? && finish.apc == Finish
    requires var found := FetchPerson(CommitMerge(t, m).value, Key(finish.team, finish.distinctId));
             found.Some? && found.value.id !in Held(w.stack[1..])
    ensures Ending(t, w, depth, 3) == Returned
  {
    HeldBelow(w.stack[1..]);
    assert w.stack[1..][1..] == w.stack[2..];
    assert forall f <- w.stack[2..] :: f in w.stack[1..];
    assert NoneDeletes(w.stack[2..]);
    hide StepWorker, FetchPerson, Held, Becomes, CommitMerge, Consistent, Ending, NoneDeletes;
    Commits(t, w, SUCCEEDS, m);
    var t' := CommitMerge(t, m).value;
    var w' := Pops(t, w, depth, 3, t');
    FinishEnds(t', w', depth, finish, 2);
  }

  lemma MergeEnds(t: Tables, w: Worker, depth: nat, finish: Frame)
    requires Consistent(t) && |w.stack| == depth + 2 && depth > 0 && w.stack[1] == finish
    requires NoneDeletes(w.stack[1..]) && WrittenRow(w.stack[2]).None?
    requires finish.AliasFrame? && finish.apc == Finish && finish.oldPerson.Some? && finish.newPerson.Some?
    requires finish.oldPerson.value.id != finish.newPerson.value.id && w.stack[0] == MergeCall(finish)
    requires FetchPerson(t, Key(finish.team, finish.previousId)) == finish.oldPerson
    requires FetchPerson(t, Key(finish.team, finish.distinctId)) == finish.newPerson
    ensures Ending(t, w, depth, 6)
         == EndOf({finish.oldPerson.value.id, finish.newPerson.value.id}, Held(w.stack[1..]))
  {
    hide StepWorker, FetchPerson, Held, Becomes, Consistent, Ending, NoneDeletes, LockedRows, DeletedRows, FrameOk,
      Blocks, ReferencedRow;
    var m := w.stack[0];
    FetchedIsThere(t, Key(finish.team, finish.distinctId));
    if m.into.id in Held(w.stack[1..]) {
      Stops(t, w, depth, 6);
    } else {
      Updates(t, w, SUCCEEDS, m);
      var m1 := m.(mpc := Move, updatePending := true);
      var w1 := Tops(t, w, depth, 6, t, m1);
      SecondFrame(w, w1);
      MoveEnds(t, w1, depth, m1, finish);
    }
  }

  // An alias call that finds these persons and runs alone waits for its own call stack exactly if it writes a row
  // that is locked there, and otherwise returns.
  lemma CallEndsExactly(t: Tables, w: Worker, depth: nat, f: Frame, previous: Person, current: Person)
    requires Consistent(t) && |w.stack| == depth + 1 && depth > 0 && w.stack[0] == f
    requires NoneDeletes(w.stack[1..]) && WrittenRow(w.stack[1]).None?
    requires f.AliasFrame? && f.apc == FetchOld
    requires FetchPerson(t, Key(f.team, f.previousId)) == Some(previous)
    requires FetchPerson(t, Key(f.team, f.distinctId)) == Some(current)
    ensures Ending(t, w, depth, 9) == EndOf(RowsOfCall(f, previous, current), Held(w.stack[1..]))
  {
    hide StepWorker, FetchPerson, Held, Becomes, Consistent, Ending, NoneDeletes;
    FetchesOld(t, w, SUCCEEDS, f);
    if f.previousId == f.distinctId {
      var w1 := Pops(t, w, depth, 9, t);
      Returns(t, w1, depth, 8);
    } else {
      var f1 := f.(apc := FetchNew, oldPerson := Some(previous));
      var w1 := Tops(t, w, depth, 9, t, f1);
      FetchesNew(t, w1, SUCCEEDS, f1);
      var f2 := f1.(apc := Decide, newPerson := Some(current));
      var w2 := Tops(t, w1, depth, 8, t, f2);
      BelowTop(w, w2);
      DecisionEnds(t, w2, depth, f2);
    }
  }

  lemma BelowTop(w: Worker, w': Worker)
    requires |w.stack| > 1 && |w'.stack| == |w.stack| && w'.stack[1..] == w.stack[1..]
    ensures w'.stack[1] == w.stack[1]
  {
    assert w'.stack[1] == w'.stack[1..][0];
  }

  lemma DecisionEnds(t: Tables, w: Worker, depth: nat, f: Frame)
    requires Consistent(t) && |w.stack| == depth + 1 && depth > 0 && w.stack[0] == f
    requires NoneDeletes(w.stack[1..]) && WrittenRow(w.stack[1]).None?
    requires f.AliasFrame? && f.apc == Decide && f.oldPerson.Some? && f.newPerson.Some?
    requires FetchPerson(t, Key(f.team, f.previousId)) == f.oldPerson
    requires FetchPerson(t, Key(f.team, f.distinctId)) == f.newPerson
    ensures Ending(t, w, depth, 7)
         == EndOf(if Merges(f) then {f.oldPerson.value.id, f.newPerson.value.id}
                  else IdentifiedRow(f, f.newPerson.value), Held(w.stack[1..]))
  {
    hide StepWorker, FetchPerson, Held, Becomes, Consistent, Ending;
    Decides(t, w, SUCCEEDS, f);
    var finish := f.(apc := Finish);
    if Merges(f) {
      var w1 := GoesOn(t, w, depth, 7, t, [MergeCall(f), finish]);
      assert w1.stack[1..] == [finish] + w.stack[1..];
      HeldBelow(w1.stack[1..]);
      assert w1.stack[1..][1..] == w.stack[1..];
      MergeEnds(t, w1, depth, finish);
    } else {
      var w1 := Tops(t, w, depth, 7, t, finish);
      BelowTop(w, w1);
      FinishEnds(t, w1, depth, finish, 6);
    }
  }

  lemma HeldBelow(stack: seq<Frame>)
    requires stack != [] && stack[0].AliasFrame?
    ensures Held(stack) == Held(stack[1..])
  {
  }

  // Over every interleaving, whatever other workers have done since: a failed move that is retried leads the
  // worker, if it then runs alone, to wait for itself exactly when the call writes a row that one of the worker's
  // open transactions has locked.
  lemma FailedMoveWaitsExactly(c: Config, schedule: seq<Turn>, i: nat, a: Answer)
    requires Initial(c)
    requires var now := Run(c, schedule);
             i < |now.workers| && now.workers[i].stack != [] && RetriesMove(now.workers[i].stack[0], a)
    ensures var w := Run(c, schedule).workers[i];
            var (t, w') := StepWorker(Run(c, schedule).tables, w, a);
            var call := CatchCall(w.stack[0]);
            var previous := FetchPerson(t, Key(call.team, call.previousId));
            var current := FetchPerson(t, Key(call.team, call.distinctId));
            && previous.Some? && current.Some?
            && Ending(t, w', |w.stack|, 9) == EndOf(RowsOfCall(call, previous.value, current.value), Held(w.stack))
  {
    StartsOk(c);
    RunStacksOk(c, schedule);
    var now := Run(c, schedule);
    var w := now.workers[i];
    assert w in now.workers;
    RetryEndsExactly(now.tables, w, a, w.stack[0]);
  }

  lemma RetryEndsExactly(t0: Tables, w: Worker, a: Answer, f: Frame)
    requires Consistent(t0) && WorkerOk(t0, w) && StackOk(t0, w.stack)
    requires w.stack != [] && w.stack[0] == f && RetriesMove(f, a)
    ensures var (t, w') := StepWorker(t0, w, a);
            var call := CatchCall(f);
            var previous := FetchPerson(t, Key(call.team, call.previousId));
            var current := FetchPerson(t, Key(call.team, call.distinctId));
            && previous.Some? && current.Some?
            && Ending(t, w', |w.stack|, 9) == EndOf(RowsOfCall(call, previous.value, current.value), Held(w.stack))
  {
    StepWorkerKeeps(t0, w, a);
    StepStackOk(t0, w, a);
    MoveIsRetried(t0, w, a, f);
    var (t, w') := StepWorker(t0, w, a);
    var call, g := CatchCall(f), f.(mpc := Commit, failed := f.failed + 1);
    assert w'.stack == [call, g] + w.stack[1..];
    assert g in w'.stack && Remembers(t, g);
    IdIsFetched(t, Key(call.team, call.previousId));
    IdIsFetched(t, Key(call.team, call.distinctId));
    NoLowerDeletes(t, w'.stack);
    assert w'.stack[1..] == [g] + w.stack[1..];
    SameHeld(w.stack, w'.stack[1..]);
    hide StackOk, Consistent, WorkerOk, StepWorker, FetchPerson, Held, Becomes, Ending, RetriesMove, NoneDeletes;
    CallEndsExactly(t, w', |w.stack|, call, FetchPerson(t, Key(call.team, call.previousId)).value,
                    FetchPerson(t, Key(call.team, call.distinctId)).value);
  }

  lemma IdIsFetched(t: Tables, k: Key)
    requires Consistent(t) && k in t.ids
    ensures FetchPerson(t, k).Some?
  {
  }

  lemma NoLowerDeletes(t: Tables, stack: seq<Frame>)
    requires StackOk(t, stack) && stack != []
    ensures NoneDeletes(stack[1..])
  {
    forall f <- stack[1..]
      ensures DeletedRows(f) == {}
    {
      var d :| 0 <= d < |stack[1..]| && stack[1..][d] == f;
      assert f == stack[d + 1];
    }
  }

  lemma SameHeld(stack: seq<Frame>, stack': seq<Frame>)
    requires stack != [] && stack' != [] && stack'[1..] == stack[1..] && LockedRows(stack'[0]) == LockedRows(stack[0])
    ensures Held(stack') == Held(stack)
  {
  }

  // ----- runs that get stuck -----

  predicate MoveErrorIn(c: Config, turn: Turn, allowed: set<DbError>) {
    turn.worker < |c.workers| && c.workers[turn.worker].stack != [] ==>
      var f := c.workers[turn.worker].stack[0];
      f.MergeFrame? && f.mpc == Move && turn.answer.error.Some? ==> turn.answer.error.value in allowed
  }

  // Turns of workers that need not wait, with these errors of moveDistinctIds.
  ghost function Allows(allowed: set<DbError>): (Config, Turn) -> bool {
    (c, turn) => Runs(c, turn) && MoveErrorIn(c, turn, allowed)
  }

  // Some workers wait for each other, and Postgres sees no ring at all.
  ghost predicate Stuck(c: Config) {
    (exists ring :: Ring(c, ring)) && forall ring :: !Seen(c, ring)
  }

  // No other frame has locked a row that the next statement of worker i needs.
  ghost predicate Unhindered(c: Config, i: nat) {
    i < |c.workers| && c.workers[i].stack != [] ==>
      var f := c.workers[i].stack[0];
      forall j, d :: 0 <= j < |c.workers| && 0 <= d < |c.workers[j].stack| && (i != j || d != 0) ==>
        var held := LockedRows(c.workers[j].stack[d]);
        && (WrittenRow(f).Some? ==> WrittenRow(f).value !in held)
        && (ReferencedRow(f).Some? ==> ReferencedRow(f).value !in held)
  }

  lemma UnhinderedRuns(c: Config, turn: Turn, allowed: set<DbError>)
    requires Unhindered(c, turn.worker) && MoveErrorIn(c, turn, allowed)
    ensures Allows(allowed)(c, turn)
  {
  }

  lemma Reads(c: Config, i: nat, a: Answer, allowed: set<DbError>)
    requires i < |c.workers| && c.workers[i].stack != [] && c.workers[i].stack[0].AliasFrame?
    requires WrittenRow(c.workers[i].stack[0]).None? && ReferencedRow(c.workers[i].stack[0]).None?
    ensures Allows(allowed)(c, Turn(i, a))
  {
    UnhinderedRuns(c, Turn(i, a), allowed);
  }

  // The first three turns of a call that finds two persons to merge.
  lemma ReadsAndMerges(start: Config, schedule: seq<Turn>, c: Config, allowed: set<DbError>, i: nat, f: Frame)
    returns (longer: seq<Turn>, next: Config)
    requires Leads(start, schedule, c, Allows(allowed)) && i < |c.workers| && c.workers[i].stack != []
    requires c.workers[i].stack[0] == f && f.AliasFrame? && f.apc == FetchOld && f.previousId != f.distinctId
    requires var previous, current := FetchPerson(c.tables, Key(f.team, f.previousId)),
                                      FetchPerson(c.tables, Key(f.team, f.distinctId));
             previous.Some? && current.Some? && Merges(f.(oldPerson := previous, newPerson := current))
    ensures Leads(start, longer, next, Allows(allowed))
    ensures next.tables == c.tables && |next.workers| == |c.workers|
    ensures forall j :: 0 <= j < |c.workers| && j != i ==> next.workers[j] == c.workers[j]
    ensures var finish := f.(apc := Finish, oldPerson := FetchPerson(c.tables, Key(f.team, f.previousId)),
                             newPerson := FetchPerson(c.tables, Key(f.team, f.distinctId)));
            next.workers[i].stack == [MergeCall(finish), finish] + c.workers[i].stack[1..]
  {
    hide StepWorker, Run, Always, FetchPerson, Becomes, Allows, Leads, Runs, MoveErrorIn;
    var t := c.tables;
    Reads(c, i, SUCCEEDS, allowed);
    FetchesOld(t, c.workers[i], SUCCEEDS, f);
    var f1 := f.(apc := FetchNew, oldPerson := FetchPerson(t, Key(f.team, f.previousId)));
    var s1, c1 := TakesTurn(start, schedule, c, Allows(allowed), i, SUCCEEDS, t, [f1]);
    Reads(c1, i, SUCCEEDS, allowed);
    FetchesNew(t, c1.workers[i], SUCCEEDS, f1);
    var f2 := f1.(apc := Decide, newPerson := FetchPerson(t, Key(f.team, f.distinctId)));
    var s2, c2 := TakesTurn(start, s1, c1, Allows(allowed), i, SUCCEEDS, t, [f2]);
    Reads(c2, i, SUCCEEDS, allowed);
    Decides(t, c2.workers[i], SUCCEEDS, f2);
    longer, next := TakesTurn(start, s2, c2, Allows(allowed), i, SUCCEEDS, t, [MergeCall(f2), f2.(apc := Finish)]);
  }

  // The first statement of a merge.
  lemma LocksTarget(start: Config, schedule: seq<Turn>, c: Config, allowed: set<DbError>, i: nat, m: Frame)
    returns (longer: seq<Turn>, next: Config)
    requires Leads(start, schedule, c, Allows(allowed)) && i < |c.workers| && c.workers[i].stack != []
    requires c.workers[i].stack[0] == m && m.MergeFrame? && m.mpc == TxUpdate && Unhindered(c, i)
    ensures Leads(start, longer, next, Allows(allowed))
    ensures next.tables == c.tables && |next.workers| == |c.workers|
    ensures forall j :: 0 <= j < |c.workers| && j != i ==> next.workers[j] == c.workers[j]
    ensures next.workers[i].stack == [m.(mpc := Move, updatePending := true)] + c.workers[i].stack[1..]
  {
    hide StepWorker, Run, Always, Becomes, Allows, Leads, Runs, Unhindered;
    UnhinderedRuns(c, Turn(i, SUCCEEDS), allowed);
    Updates(c.tables, c.workers[i], SUCCEEDS, m);
    longer, next := TakesTurn(start, schedule, c, Allows(allowed), i, SUCCEEDS, c.tables,
                              [m.(mpc := Move, updatePending := true)]);
  }

  // The move fails without effect, and the catch block calls alias.
  lemma FailsToMove(start: Config, schedule: seq<Turn>, c: Config, allowed: set<DbError>, i: nat, m: Frame)
    returns (longer: seq<Turn>, next: Config)
    requires DatabaseError in allowed
    requires Leads(start, schedule, c, Allows(allowed)) && i < |c.workers| && c.workers[i].stack != []
    requires c.workers[i].stack[0] == m && RetriesMove(m, FAILS) && Unhindered(c, i)
    ensures Leads(start, longer, next, Allows(allowed))
    ensures next.tables == c.tables && |next.workers| == |c.workers|
    ensures forall j :: 0 <= j < |c.workers| && j != i ==> next.workers[j] == c.workers[j]
    ensures next.workers[i].stack
         == [CatchCall(m), m.(mpc := Commit, failed := m.failed + 1)] + c.workers[i].stack[1..]
  {
    hide StepWorker, Run, Always, Becomes, Allows, Leads, Runs, Unhindered;
    UnhinderedRuns(c, Turn(i, FAILS), allowed);
    MoveIsRetried(c.tables, c.workers[i], FAILS, m);
    longer, next := TakesTurn(start, schedule, c, Allows(allowed), i, FAILS, c.tables,
                              [CatchCall(m), m.(mpc := Commit, failed := m.failed + 1)]);
  }

  function Begins(a: string, b: string, team: int, identify: bool): Worker {
    Worker([AliasCall(a, b, team, identify, true, 0)], 0, 0, false)
  }

  // A single worker joins two persons and only the first move fails: it then waits for its own transaction.
  lemma OneFailureBlocks(t: Tables, a: string, b: string, team: int, identify: bool)
    returns (start: Config, schedule: seq<Turn>, c: Config)
    requires Consistent(t)
    requires var previous, current := FetchPerson(t, Key(team, a)), FetchPerson(t, Key(team, b));
             && previous.Some? && current.Some? && previous.value.id != current.value.id
             && !(identify && previous.value.isIdentified)
    ensures start == Config(t, [Begins(a, b, team, identify)]) && Initial(start)
    ensures Leads(start, schedule, c, Allows({DatabaseError}))
    ensures c.tables == t && |c.workers| == 1 && WaitsForItself(t, c.workers[0]) && Stuck(c)
  {
    var allowed := {DatabaseError};
    FetchedIsThere(t, Key(team, b));
    start := Config(t, [Begins(a, b, team, identify)]);
    assert Initial(start);
    assert Leads(start, [], start, Allows(allowed));
    var s1, c1 := ReadsAndMerges(start, [], start, allowed, 0, start.workers[0].stack[0]);
    hide StepWorker, Run, Always, Becomes, Allows, Leads, Runs, FetchPerson, Consistent, Initial;
    var m := c1.workers[0].stack[0];
    var s2, c2 := LocksTarget(start, s1, c1, allowed, 0, m);
    var s3, c3 := FailsToMove(start, s2, c2, allowed, 0, c2.workers[0].stack[0]);
    schedule, c := ReadsAndMerges(start, s3, c3, allowed, 0, c3.workers[0].stack[0]);
    assert Blocks(t, c.workers[0].stack[2], c.workers[0].stack[0]);
    OneWorkerIsStuck(c, 2);
  }

  // The update of a merge fails, and the catch block calls alias.
  lemma FailsToUpdate(start: Config, schedule: seq<Turn>, c: Config, allowed: set<DbError>, i: nat, m: Frame)
    returns (longer: seq<Turn>, next: Config)
    requires Leads(start, schedule, c, Allows(allowed)) && i < |c.workers| && c.workers[i].stack != []
    requires c.workers[i].stack[0] == m && m.MergeFrame? && m.mpc == TxUpdate && Unhindered(c, i)
    requires m.failed + 1 != MAX_FAILED_PERSON_MERGE_ATTEMPTS
    ensures Leads(start, longer, next, Allows(allowed))
    ensures next.tables == c.tables && |next.workers| == |c.workers|
    ensures forall j :: 0 <= j < |c.workers| && j != i ==> next.workers[j] == c.workers[j]
    ensures next.workers[i].stack
         == [CatchCall(m), m.(mpc := Commit, failed := m.failed + 1, aborted := true)] + c.workers[i].stack[1..]
  {
    hide StepWorker, Run, Always, Becomes, Allows, Leads, Runs, Unhindered;
    UnhinderedRuns(c, Turn(i, FAILS), allowed);
    UpdateIsRetried(c.tables, c.workers[i], FAILS, m);
    longer, next := TakesTurn(start, schedule, c, Allows(allowed), i, FAILS, c.tables,
                              [CatchCall(m), m.(mpc := Commit, failed := m.failed + 1, aborted := true)]);
  }

  // The bound on merges is reached: after two failed updates a third merge of the same call begins.
  lemma ThirdMergeBegins(t: Tables, a: string, b: string, team: int)
    returns (start: Config, schedule: seq<Turn>, c: Config)
    requires Consistent(t)
    requires var previous, current := FetchPerson(t, Key(team, a)), FetchPerson(t, Key(team, b));
             previous.Some? && current.Some? && previous.value.id != current.value.id
    ensures start == Config(t, [Begins(a, b, team, false)]) && Initial(start)
    ensures Leads(start, schedule, c, Allows({}))
    ensures c.tables == t && |c.workers| == 1 && |c.workers[0].stack| > 0
    ensures var m := c.workers[0].stack[0]; m.MergeFrame? && m.mpc == TxUpdate && m.failed == 2
  {
    FetchedIsThere(t, Key(team, b));
    start := Config(t, [Begins(a, b, team, false)]);
    assert Initial(start);
    assert Leads(start, [], start, Allows({}));
    var s1, c1 := ReadsAndMerges(start, [], start, {}, 0, start.workers[0].stack[0]);
    hide StepWorker, Run, Always, Becomes, Allows, Leads, Runs, FetchPerson, Consistent, Initial;
    var s2, c2 := FailsToUpdate(start, s1, c1, {}, 0, c1.workers[0].stack[0]);
    var s3, c3 := ReadsAndMerges(start, s2, c2, {}, 0, c2.workers[0].stack[0]);
    var s4, c4 := FailsToUpdate(start, s3, c3, {}, 0, c3.workers[0].stack[0]);
    schedule, c := ReadsAndMerges(start, s4, c4, {}, 0, c4.workers[0].stack[0]);
  }

  lemma OneWorkerIsStuck(c: Config, d: nat)
    requires |c.workers| == 1 && 1 <= d < |c.workers[0].stack|
    requires Blocks(c.tables, c.workers[0].stack[d], c.workers[0].stack[0])
    ensures Stuck(c) && WaitsForItself(c.tables, c.workers[0])
  {
    hide Blocks;
    assert Waits(c, 0, 0, d);
    var alone: seq<nat> := [0];
    assert Next(alone, 0) == 0;
    assert forall k :: 0 <= k < |alone| ==> k == 0 && Waits(c, alone[k], Next(alone, k), d);
    assert Ring(c, alone);
    forall ring
      ensures !Seen(c, ring)
    {
      if ring != [] {
        assert !Waits(c, ring[0], Next(ring, 0), 0);
      }
    }
  }

  // Two workers, of which neither waits for itself.  The first merges P into X, and its move fails.  The second has
  // merged X into Y as far as the delete of X, which the first has locked.  The call of the first finds Y.
  lemma TwoWorkersBlock(t: Tables, p: string, x: string, y: string, team: int)
    returns (start: Config, schedule: seq<Turn>, c: Config)
    requires Consistent(t)
    requires var ofP, ofX, ofY := FetchPerson(t, Key(team, p)), FetchPerson(t, Key(team, x)), FetchPerson(t, Key(team, y));
             && ofP.Some? && ofX.Some? && ofY.Some?
             && ofP.value.id != ofX.value.id && ofX.value.id != ofY.value.id && ofY.value.id != ofP.value.id
    ensures start == Config(t, [Begins(p, x, team, false), Begins(x, y, team, false)]) && Initial(start)
    ensures Leads(start, schedule, c, Allows({DatabaseError})) && |c.workers| == 2 && Stuck(c)
    ensures !WaitsForItself(c.tables, c.workers[0]) && !WaitsForItself(c.tables, c.workers[1])
  {
    start := Config(t, [Begins(p, x, team, false), Begins(x, y, team, false)]);
    assert Initial(start);
    assert Leads(start, [], start, Allows({DatabaseError}));
    FetchedIsThere(t, Key(team, p));
    FetchedIsThere(t, Key(team, x));
    FetchedIsThere(t, Key(team, y));
    hide *;
    var first, second, s1, c1 := BothBegin(start, p, x, y, team);
    schedule, c := FirstRetries(start, s1, c1, first, second);
  }

  function Finished(t: Tables, a: string, b: string, team: int): Frame {
    AliasFrame(Finish, a, b, team, false, true, 0, FetchPerson(t, Key(team, a)), FetchPerson(t, Key(team, b)))
  }

  // The merge of a call, with the target locked.
  function Moving(f: Frame): Frame
    requires f.AliasFrame? && f.oldPerson.Some? && f.newPerson.Some?
  {
    MergeFrame(Move, f.newPerson.value, f.oldPerson.value, f.distinctId, f.previousId, f.identify, f.attempts,
               false, true, false)
  }

  lemma BothBegin(start: Config, p: string, x: string, y: string, team: int)
    returns (first: Frame, second: Frame, schedule: seq<Turn>, c: Config)
    requires start.workers == [Begins(p, x, team, false), Begins(x, y, team, false)]
    requires Leads(start, [], start, Allows({DatabaseError}))
    requires var t := start.tables;
             var ofP, ofX, ofY := FetchPerson(t, Key(team, p)), FetchPerson(t, Key(team, x)), FetchPerson(t, Key(team, y));
             && ofP.Some? && ofX.Some? && ofY.Some?
             && ofP.value.id != ofX.value.id && ofX.value.id != ofY.value.id && ofY.value.id != ofP.value.id
    ensures Leads(start, schedule, c, Allows({DatabaseError}))
    ensures c.tables == start.tables && |c.workers| == 2
    ensures first == Finished(c.tables, p, x, team) && first.oldPerson.Some? && first.newPerson.Some?
    ensures second == Finished(c.tables, x, y, team) && second.oldPerson.Some? && second.newPerson.Some?
    ensures c.workers[0].stack == [Moving(first), first]
    ensures c.workers[1].stack == [Moving(second), second]
  {
    hide StepWorker, Run, Always, Becomes, Allows, Leads, Runs, FetchPerson, Consistent, Initial;
    var allowed := {DatabaseError};
    first, second := Finished(start.tables, p, x, team), Finished(start.tables, x, y, team);
    var s1, c1 := ReadsAndMerges(start, [], start, allowed, 0, start.workers[0].stack[0]);
    assert c1.workers[0].stack == [MergeCall(first), first];
    var s2, c2 := LocksTarget(start, s1, c1, allowed, 0, c1.workers[0].stack[0]);
    var s3, c3 := ReadsAndMerges(start, s2, c2, allowed, 1, c2.workers[1].stack[0]);
    assert c3.workers[1].stack == [MergeCall(second), second];
    schedule, c := LocksTarget(start, s3, c3, allowed, 1, c3.workers[1].stack[0]);
  }

  // The second worker moves the ids of the row that the first has locked, whose own move then fails.
  lemma FirstRetries(start: Config, schedule: seq<Turn>, c: Config, first: Frame, second: Frame)
    returns (longer: seq<Turn>, next: Config)
    requires Leads(start, schedule, c, Allows({DatabaseError})) && Consistent(c.tables) && |c.workers| == 2
    requires first.AliasFrame? && first.oldPerson.Some? && first.newPerson.Some? && first.attempts == 0 && !first.identify
    requires second.AliasFrame? && second.oldPerson.Some? && second.newPerson.Some? && second.attempts == 0
    requires first.apc == Finish && second.apc == Finish
    requires c.workers[0].stack == [Moving(first), first]
    requires c.workers[1].stack == [Moving(second), second]
    requires var P, X, Y := first.oldPerson.value, first.newPerson.value, second.newPerson.value;
             && second.oldPerson.value == X && P.id != X.id && X.id != Y.id && Y.id != P.id
             && P.team == X.team == Y.team == first.team == second.team && second.previousId == first.distinctId
             && FetchPerson(c.tables, Key(X.team, first.previousId)) == Some(P)
             && FetchPerson(c.tables, Key(X.team, first.distinctId)) == Some(X)
             && FetchPerson(c.tables, Key(X.team, second.distinctId)) == Some(Y)
    ensures Leads(start, longer, next, Allows({DatabaseError})) && |next.workers| == 2 && Stuck(next)
    ensures !WaitsForItself(next.tables, next.workers[0]) && !WaitsForItself(next.tables, next.workers[1])
  {
    hide StepWorker, Run, Always, Becomes, Allows, Leads, Runs, FetchPerson, Consistent, MoveDistinctIds, Stuck,
      WaitsForItself;
    var allowed := {DatabaseError};
    var m := c.workers[1].stack[0];
    FetchedIsThere(c.tables, Key(m.into.team, second.distinctId));
    FetchedIsThere(c.tables, Key(m.into.team, first.distinctId));
    MovesOthers(c.tables, m, Key(m.into.team, first.previousId));
    UnhinderedRuns(c, Turn(1, SUCCEEDS), allowed);
    Moves(c.tables, c.workers[1], SUCCEEDS, m);
    var s1, c1 := TakesTurn(start, schedule, c, Allows(allowed), 1, SUCCEEDS,
                            MoveDistinctIds(c.tables, m.other.id, m.into.id, m.into.team).value, [m.(mpc := TxDelete)]);
    var s2, c2 := FailsToMove(start, s1, c1, allowed, 0, c1.workers[0].stack[0]);
    longer, next := ReadsAndMerges(start, s2, c2, allowed, 0, c2.workers[0].stack[0]);
    EndOfRun(next, m.other, m.into);
  }

  lemma EndOfRun(c: Config, X: Person, Y: Person)
    requires |c.workers| == 2 && X.id != Y.id && X.id in c.tables.persons && Y.id in c.tables.persons
    requires |c.workers[0].stack| == 4 && |c.workers[1].stack| == 2
    requires var top := c.workers[0].stack[0];
             top.MergeFrame? && top.mpc == TxUpdate && top.into == Y && Idle(top)
    requires var lower := c.workers[0].stack[2]; LockedRows(lower) == {X.id}
    requires c.workers[0].stack[1].AliasFrame? && c.workers[0].stack[3].AliasFrame? && c.workers[1].stack[1].AliasFrame?
    requires var other := c.workers[1].stack[0];
             other.MergeFrame? && other.mpc == TxDelete && other.other == X && Y.id in LockedRows(other)
    ensures Stuck(c)
    ensures !WaitsForItself(c.tables, c.workers[0]) && !WaitsForItself(c.tables, c.workers[1])
  {
    hide Stuck, WaitsForItself;
    FirstWaitsForSecond(c.tables, c.workers[0]);
    SecondWaitsForFirst(c.tables, c.workers[1]);
    TwoWorkersAreStuck(c);
  }

  lemma SecondWaitsForFirst(t: Tables, w: Worker)
    requires |w.stack| == 2 && Idle(w.stack[1])
    ensures !WaitsForItself(t, w)
  {
    IdleNeverBlocks(t, w.stack[1], w.stack[0]);
  }

  // The only locks below the first worker's statement are on another row.
  lemma FirstWaitsForSecond(t: Tables, w: Worker)
    requires |w.stack| == 4 && Idle(w.stack[1]) && Idle(w.stack[3])
    requires var row := WrittenRow(w.stack[0]);
             row.Some? && ReferencedRow(w.stack[0]).None? && row.value !in LockedRows(w.stack[2])
    ensures !WaitsForItself(t, w)
  {
    IdleNeverBlocks(t, w.stack[1], w.stack[0]);
    IdleNeverBlocks(t, w.stack[3], w.stack[0]);
  }

  // What the first worker finds after the move of the second.
  lemma MovesOthers(t: Tables, m: Frame, k: Key)
    requires Consistent(t) && m.MergeFrame? && m.into.id != m.other.id && k.team == m.into.team
    requires FetchPerson(t, Key(m.into.team, m.intoId)) == Some(m.into)
    requires FetchPerson(t, Key(m.into.team, m.otherId)) == Some(m.other)
    requires FetchPerson(t, k).Some? && FetchPerson(t, k).value.id != m.other.id
    ensures var moved := MoveDistinctIds(t, m.other.id, m.into.id, m.into.team);
            && moved.Ok? && moved.value.persons == t.persons
            && FetchPerson(moved.value, k) == FetchPerson(t, k)
            && FetchPerson(moved.value, Key(m.into.team, m.otherId)) == Some(m.into)
            && moved.value.ids[Key(m.into.team, m.otherId)] == m.into.id
  {
    FetchedIsThere(t, Key(m.into.team, m.otherId));
    FetchedIsThere(t, Key(m.into.team, m.intoId));
    assert Key(m.into.team, m.otherId) in RowsOf(t, m.other.id, m.into.team);
  }

  lemma IdleNeverBlocks(t: Tables, holder: Frame, f: Frame)
    requires Idle(holder)
    ensures !Blocks(t, holder, f)
  {
  }

  // The first worker waits for the second one's statement, and that one for a lower frame of the first.
  lemma TwoWorkersAreStuck(c: Config)
    requires |c.workers| == 2 && c.workers[0].stack != [] && |c.workers[1].stack| == 2 && |c.workers[0].stack| > 2
    requires Blocks(c.tables, c.workers[1].stack[0], c.workers[0].stack[0])
    requires Blocks(c.tables, c.workers[0].stack[2], c.workers[1].stack[0])
    requires Idle(c.workers[0].stack[0])
    ensures Stuck(c)
  {
    hide Blocks, Idle, Ring, Seen;
    IdleNeverBlocks(c.tables, c.workers[0].stack[0], c.workers[1].stack[0]);
    assert Waits(c, 0, 1, 0) && Waits(c, 1, 0, 2) && !Waits(c, 1, 0, 0);
    hide Waits;
    TwoInRing(c, [0, 1], 0, 2);
    NoneSeen(c);
  }

  lemma TwoInRing(c: Config, ring: seq<nat>, d: nat, e: nat)
    requires |ring| == 2 && Waits(c, ring[0], ring[1], d) && Waits(c, ring[1], ring[0], e)
    ensures Ring(c, ring)
  {
    hide Waits;
    forall k | 0 <= k < |ring|
      ensures exists d :: Waits(c, ring[k], Next(ring, k), d)
    {
      if k == 0 {
        assert Waits(c, ring[k], Next(ring, k), d);
      } else {
        assert Waits(c, ring[k], Next(ring, k), e);
      }
    }
  }

  lemma NoneSeen(c: Config)
    requires |c.workers| == 2 && !Waits(c, 1, 0, 0)
    ensures forall ring :: !Seen(c, ring)
  {
    forall ring | Seen(c, ring)
      ensures false
    {
      OnlyFirst(c, ring, 0);
      OnlyFirst(c, ring, if |ring| > 1 then 1 else 0);
    }
  }

  lemma OnlyFirst(c: Config, ring: seq<nat>, k: nat)
    requires |c.workers| == 2 && !Waits(c, 1, 0, 0) && Seen(c, ring) && k < |ring|
    ensures ring[k] == 0 && Next(ring, k) == 1
  {
    hide Blocks;
    assert Waits(c, ring[k], Next(ring, k), 0);
  }

  ghost predicate CanGetStuck(allowed: set<DbError>) {
    exists start: Config, schedule: seq<Turn> ::
      Initial(start) && Always(start, schedule, Allows(allowed)) && Stuck(Run(start, schedule))
  }

  // Workers wait for each other unseen by Postgres in some run with these errors of moveDistinctIds, if and only if
  // a database error is among them.
  lemma StuckExactly(allowed: set<DbError>)
    ensures CanGetStuck(allowed) <==> DatabaseError in allowed
  {
    if CanGetStuck(allowed) {
      var start: Config, schedule: seq<Turn> :|
        Initial(start) && Always(start, schedule, Allows(allowed)) && Stuck(Run(start, schedule));
      if DatabaseError !in allowed {
        AllowedRetriesNoMove(allowed);
        WeakerAlways(start, schedule, Allows(allowed), RetriesNoMove);
        var ring :| Ring(Run(start, schedule), ring);
        EveryRingIsSeen(start, schedule, ring);
      }
    }
    if DatabaseError in allowed {
      var a, b := Person(0, 1, 0, map[], false, "a"), Person(1, 1, 0, map[], false, "b");
      var t := Tables(map[0 := a, 1 := b], map[Key(1, "a") := 0, Key(1, "b") := 1], 2);
      assert FetchPerson(t, Key(1, "a")) == Some(a) && FetchPerson(t, Key(1, "b")) == Some(b);
      hide Allows, Always, Stuck, Initial, Run;
      var start, schedule, c := OneFailureBlocks(t, "a", "b", 1, false);
      MoreAllowed({DatabaseError}, allowed);
      WeakerAlways(start, schedule, Allows({DatabaseError}), Allows(allowed));
    }
  }

  lemma AllowedRetriesNoMove(allowed: set<DbError>)
    requires DatabaseError !in allowed
    ensures forall c, turn :: Allows(allowed)(c, turn) ==> RetriesNoMove(c, turn)
  {
  }

  lemma MoreAllowed(allowed: set<DbError>, more: set<DbError>)
    requires allowed <= more
    ensures forall c, turn :: Allows(allowed)(c, turn) ==> Allows(more)(c, turn)
  {
  }
}
