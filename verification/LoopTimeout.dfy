// The loop-timeout transform (src/worker/vm/transforms/loop-timeout.ts:9-84).
module LoopTimeout {
  import opened Wrappers
  import opened Digits
  import opened LoopLanguage

  // _LP, _LP2, _LP3, ...
  function UidName(i: nat): string {
    "_LP" + if i <= 1 then "" else Decimal(i)
  }

  lemma UidNamesDiffer(i: nat, j: nat)
    requires 1 <= i && 1 <= j && UidName(i) == UidName(j)
    ensures i == j
  {
    if 1 < i && 1 < j {
      assert UidName(i)[3..] == Decimal(i) && UidName(j)[3..] == Decimal(j);
      DecimalInjective(i, j);
    } else {
      assert |UidName(i)| == |UidName(j)|;
    }
  }

  // generateUidIdentifier('LP'): the first of these names that is not taken.
  function FreshFrom(used: set<string>, i: nat): (name: string)
    requires 1 <= i
    ensures name !in used && exists j :: i <= j && name == UidName(j)
    decreases |used|
  {
    if UidName(i) !in used then UidName(i)
    else
      var name := FreshFrom(used - {UidName(i)}, i + 1);
      assert name != UidName(i) by {
        var j :| i + 1 <= j && name == UidName(j);
        if name == UidName(i) { UidNamesDiffer(i, j); }
      }
      name
  }

  function GenerateBefore(id: string): Stmt {
    Const(To(id, Now))
  }

  function GenerateInside(id: string, line: nat, column: nat, timeout: nat): Stmt {
    If(Gt(Sub(Now, Var(id)), Lit(timeout * 1000)), Throw(TimedOut(line, column, timeout)), Block([]))
  }

  // Where one statement is expected, several need a block around them.
  function Single(stmts: seq<Stmt>): Stmt {
    if |stmts| == 1 then stmts[0] else Block(stmts)
  }

  function WithBody(s: Stmt, b: Stmt): Stmt
    requires s.IsLoop()
  {
    match s
    case While(loc, test, _) => While(loc, test, b)
    case DoWhile(loc, _, test) => DoWhile(loc, b, test)
    case For(loc, init, test, update, _) => For(loc, init, test, update, b)
  }

  // The visitor: outer loops are visited before the loops in their bodies.  Returns the statements
  // that take the place of s, and the names taken so far.
  function Protect(s: Stmt, timeout: nat, used: set<string>): (r: (seq<Stmt>, set<string>))
    ensures used <= r.1
    decreases s, 1
  {
    match s
    case If(c, thn, els) =>
      var (thn', used1) := Protect(thn, timeout, used);
      var (els', used2) := Protect(els, timeout, used1);
      ([If(c, Single(thn'), Single(els'))], used2)
    case Block(stmts) =>
      var (stmts', used1) := ProtectAll(stmts, timeout, used);
      ([Block(stmts')], used1)
    case While(_, _, _) => ProtectLoop(s, timeout, used)
    case DoWhile(_, _, _) => ProtectLoop(s, timeout, used)
    case For(_, _, _, _, _) => ProtectLoop(s, timeout, used)
    case _ => ([s], used)
  }

  function ProtectLoop(s: Stmt, timeout: nat, used: set<string>): (r: (seq<Stmt>, set<string>))
    requires s.IsLoop()
    ensures used <= r.1
    decreases s, 0
  {
    if s.loc.None? then
      var (body', used1) := Protect(s.body, timeout, used);
      ([WithBody(s, Single(body'))], used1)
    else
      var id := FreshFrom(used, 1);
      var inside := GenerateInside(id, s.loc.value.0, s.loc.value.1, timeout);
      var (body', used1) := ProtectBody(s.body, timeout, used + {id});
      ([GenerateBefore(id), WithBody(s, Block([inside] + body'))], used1)
  }

  // A body that is a block keeps its braces, any other body gets them.
  function ProtectBody(b: Stmt, timeout: nat, used: set<string>): (r: (seq<Stmt>, set<string>))
    ensures used <= r.1
    decreases b, 2
  {
    if b.Block? then ProtectAll(b.stmts, timeout, used) else Protect(b, timeout, used)
  }

  function ProtectAll(stmts: seq<Stmt>, timeout: nat, used: set<string>): (r: (seq<Stmt>, set<string>))
    ensures used <= r.1
    decreases stmts, 0
  {
    if stmts == [] then ([], used)
    else
      var (first, used1) := Protect(stmts[0], timeout, used);
      var (rest, used2) := ProtectAll(stmts[1..], timeout, used1);
      (first + rest, used2)
  }

  // ----- the transformed program is the guarded program -----

  ghost predicate SameVariable(x: string, env: Env, env': Env) {
    (x in env <==> x in env') && (x in env ==> env[x] == env'[x])
  }

  // Equal apart from the generated names.
  ghost predicate Alike(st: State, st': State, gen: set<string>) {
    st.progress == st'.progress && st.entries == st'.entries && forall x :: x !in gen ==> SameVariable(x, st.env, st'.env)
  }

  ghost predicate Corresponds(r: Outcome, r': Outcome, gen: set<string>) {
    match (r, r')
    case (OutOfFuel, OutOfFuel) => true
    case (End(how, st), End(how', st')) => how == how' && Alike(st, st', gen)
    case _ => false
  }

  ghost predicate Keeps(st: State, r: Outcome, names: set<string>) {
    r.End? ==> forall x <- names :: SameVariable(x, st.env, r.st.env)
  }

  lemma {:induction false} EvalAlike(e: Expr, st: State, st': State, clock: (nat, nat) -> int, gen: set<string>)
    requires Alike(st, st', gen) && ExprNames(e) !! gen
    ensures Eval(e, st, clock) == Eval(e, st', clock)
  {
    match e
    case Lit(_) =>
    case Var(x) => assert SameVariable(x, st.env, st'.env);
    case Now =>
    case Add(a, b) => EvalAlike(a, st, st', clock, gen); EvalAlike(b, st, st', clock, gen);
    case Sub(a, b) => EvalAlike(a, st, st', clock, gen); EvalAlike(b, st, st', clock, gen);
    case Gt(a, b) => EvalAlike(a, st, st', clock, gen); EvalAlike(b, st, st', clock, gen);
  }

  lemma StoreAlike(a: Assignment, st: State, st': State, clock: (nat, nat) -> int, gen: set<string>)
    requires Alike(st, st', gen) && AssignmentNames(a) !! gen
    ensures Alike(Store(a, st, clock), Store(a, st', clock), gen)
    ensures forall x :: x !in AssignmentNames(a) ==> SameVariable(x, st'.env, Store(a, st', clock).env)
  {
    EvalAlike(a.e, st, st', clock, gen);
    var v := Eval(a.e, st, clock);
    forall x | x !in gen
      ensures SameVariable(x, st.env[a.name := v], st'.env[a.name := v])
    {
      assert SameVariable(x, st.env, st'.env);
    }
  }

  lemma StoreOptionalAlike(a: Option<Assignment>, st: State, st': State, clock: (nat, nat) -> int, gen: set<string>)
    requires Alike(st, st', gen) && OptionalNames(a) !! gen
    ensures Alike(StoreOptional(a, st, clock), StoreOptional(a, st', clock), gen)
    ensures forall x :: x !in OptionalNames(a) ==> SameVariable(x, st'.env, StoreOptional(a, st', clock).env)
  {
    if a.Some? {
      StoreAlike(a.value, st, st', clock, gen);
    }
  }

  lemma {:induction false} ExecAppend(a: seq<Stmt>, b: seq<Stmt>, st: State, clock: (nat, nat) -> int,
                                      guard: Guard, fuel: nat)
    ensures var r := ExecAll(a, st, clock, guard, fuel);
            ExecAll(a + b, st, clock, guard, fuel) ==
            (if r.End? && r.how == Normal then ExecAll(b, r.st, clock, guard, fuel) else r)
    decreases |a|
  {
    if a == [] {
      assert a + b == b;
    } else {
      assert (a + b)[1..] == a[1..] + b;
      var r := Exec(a[0], st, clock, guard, fuel);
      if r.End? {
        ExecAppend(a[1..], b, r.st, clock, guard, fuel);
      }
    }
  }

  lemma ExecOne(s: Stmt, st: State, clock: (nat, nat) -> int, guard: Guard, fuel: nat)
    ensures ExecAll([s], st, clock, guard, fuel) == Exec(s, st, clock, guard, fuel)
  {
    var r := Exec(s, st, clock, guard, fuel);
    assert [s][1..] == [];
    if r.End? && r.how == Normal {
      assert ExecAll([], r.st, clock, guard, fuel) == r;
    }
  }

  lemma ExecSingle(stmts: seq<Stmt>, st: State, clock: (nat, nat) -> int, guard: Guard, fuel: nat)
    ensures Exec(Single(stmts), st, clock, guard, fuel) == ExecAll(stmts, st, clock, guard, fuel)
  {
    if |stmts| == 1 {
      assert stmts == [stmts[0]];
      ExecOne(stmts[0], st, clock, guard, fuel);
    }
  }

  // The inserted check throws exactly when the guard says that the loop overran.
  lemma InsideChecks(id: string, line: nat, column: nat, timeout: nat, rest: seq<Stmt>, st: State,
                     clock: (nat, nat) -> int, fuel: nat)
    requires id in st.env
    ensures ExecAll([GenerateInside(id, line, column, timeout)] + rest, st, clock, Unguarded, fuel)
         == if Time(st, clock) - st.env[id] > timeout * 1000
            then End(Threw(TimedOut(line, column, timeout)), st)
            else ExecAll(rest, st, clock, Unguarded, fuel)
  {
    var inside := GenerateInside(id, line, column, timeout);
    assert ([inside] + rest)[1..] == rest;
    var elapsed, limit := Sub(Now, Var(id)), Lit(timeout * 1000);
    assert Eval(elapsed, st, clock) == Time(st, clock) - st.env[id];
    assert Eval(limit, st, clock) == timeout * 1000;
    assert Eval(Gt(elapsed, limit), st, clock) != 0 <==> Time(st, clock) - st.env[id] > timeout * 1000;
    assert Exec(Block([]), st, clock, Unguarded, fuel) == ExecAll([], st, clock, Unguarded, fuel) == End(Normal, st);
    var error := TimedOut(line, column, timeout);
    assert Exec(Throw(error), st, clock, Unguarded, fuel) == End(Threw(error), st);
    assert inside == If(Gt(elapsed, limit), Throw(error), Block([]));
    ExecAppend([inside], rest, st, clock, Unguarded, fuel);
    ExecOne(inside, st, clock, Unguarded, fuel);
  }

  // What the proof carries along: the program's own names are taken, and none of them is generated.
  ghost predicate Scoped(names: set<string>, used: set<string>, used1: set<string>, gen: set<string>) {
    names <= used && names !! gen && used1 - used <= gen
  }

  lemma {:induction false} Simulates(s: Stmt, timeout: nat, used: set<string>, gen: set<string>,
                                     st: State, st': State, clock: (nat, nat) -> int, fuel: nat)
    requires Scoped(Names(s), used, Protect(s, timeout, used).1, gen) && Alike(st, st', gen)
    ensures var r' := ExecAll(Protect(s, timeout, used).0, st', clock, Unguarded, fuel);
            && Corresponds(Exec(s, st, clock, Guarded(timeout), fuel), r', gen)
            && Keeps(st', r', used - Names(s))
    decreases s, 5, 0
  {
    var stmts := Protect(s, timeout, used).0;
    match s {
      case Assign(a) =>
        ExecOne(s, st', clock, Unguarded, fuel);
        StoreAlike(a, st, st', clock, gen);
      case Const(a) =>
        ExecOne(s, st', clock, Unguarded, fuel);
        StoreAlike(a, st, st', clock, gen);
      case Throw(_) =>
        ExecOne(s, st', clock, Unguarded, fuel);
      case Break =>
        ExecOne(s, st', clock, Unguarded, fuel);
      case Continue =>
        ExecOne(s, st', clock, Unguarded, fuel);
      case If(c, thn, els) =>
        var (thn', used1) := Protect(thn, timeout, used);
        var (els', used2) := Protect(els, timeout, used1);
        ExecOne(stmts[0], st', clock, Unguarded, fuel);
        EvalAlike(c, st, st', clock, gen);
        ExecSingle(thn', st', clock, Unguarded, fuel);
        ExecSingle(els', st', clock, Unguarded, fuel);
        Simulates(thn, timeout, used, gen, st, st', clock, fuel);
        Simulates(els, timeout, used1, gen, st, st', clock, fuel);
      case Block(ss) =>
        ExecOne(stmts[0], st', clock, Unguarded, fuel);
        SimulatesAll(ss, timeout, used, gen, st, st', clock, fuel);
      case While(_, _, _) => SimulatesLoop(s, timeout, used, gen, st, st', clock, fuel);
      case DoWhile(_, _, _) => SimulatesLoop(s, timeout, used, gen, st, st', clock, fuel);
      case For(_, _, _, _, _) => SimulatesLoop(s, timeout, used, gen, st, st', clock, fuel);
    }
  }

  lemma {:induction false} SimulatesAll(ss: seq<Stmt>, timeout: nat, used: set<string>, gen: set<string>,
                                        st: State, st': State, clock: (nat, nat) -> int, fuel: nat)
    requires Scoped(AllNames(ss), used, ProtectAll(ss, timeout, used).1, gen) && Alike(st, st', gen)
    ensures var r' := ExecAll(ProtectAll(ss, timeout, used).0, st', clock, Unguarded, fuel);
            && Corresponds(ExecAll(ss, st, clock, Guarded(timeout), fuel), r', gen)
            && Keeps(st', r', used - AllNames(ss))
    decreases ss, 0, 0
  {
    if ss != [] {
      var (first, used1) := Protect(ss[0], timeout, used);
      var (rest, used2) := ProtectAll(ss[1..], timeout, used1);
      Simulates(ss[0], timeout, used, gen, st, st', clock, fuel);
      ExecAppend(first, rest, st', clock, Unguarded, fuel);
      var r := Exec(ss[0], st, clock, Guarded(timeout), fuel);
      var r' := ExecAll(first, st', clock, Unguarded, fuel);
      if r.End? && r.how == Normal {
        SimulatesAll(ss[1..], timeout, used1, gen, r.st, r'.st, clock, fuel);
        KeepsBoth(st', r', ExecAll(first + rest, st', clock, Unguarded, fuel),
                  used - Names(ss[0]), used1 - AllNames(ss[1..]), used - AllNames(ss));
      }
    }
  }

  lemma KeepsBoth(st: State, r1: Outcome, r2: Outcome, names1: set<string>, names2: set<string>, names: set<string>)
    requires r1.End? && Keeps(st, r1, names1) && Keeps(r1.st, r2, names2)
    requires names <= names1 && names <= names2
    ensures Keeps(st, r2, names)
  {
    if r2.End? {
      forall x | x in names
        ensures SameVariable(x, st.env, r2.st.env)
      {
        assert SameVariable(x, st.env, r1.st.env) && SameVariable(x, r1.st.env, r2.st.env);
      }
    }
  }

  // The loop that takes the place of s, without what comes before it.
  function NewLoop(s: Stmt, timeout: nat, used: set<string>): (s': Stmt)
    requires s.IsLoop()
    ensures s'.IsLoop()
  {
    var stmts := ProtectLoop(s, timeout, used).0;
    stmts[|stmts| - 1]
  }

  lemma {:induction false} SimulatesLoop(s: Stmt, timeout: nat, used: set<string>, gen: set<string>,
                                         st: State, st': State, clock: (nat, nat) -> int, fuel: nat)
    requires s.IsLoop()
    requires Scoped(Names(s), used, ProtectLoop(s, timeout, used).1, gen) && Alike(st, st', gen)
    ensures var r' := ExecAll(ProtectLoop(s, timeout, used).0, st', clock, Unguarded, fuel);
            && Corresponds(Exec(s, st, clock, Guarded(timeout), fuel), r', gen)
            && Keeps(st', r', used - Names(s))
    decreases s, 4, 0
  {
    var start := Time(st, clock);
    var stmts := ProtectLoop(s, timeout, used).0;
    var s' := NewLoop(s, timeout, used);
    var st1' := st';
    if s.loc.Some? {
      var id := FreshFrom(used, 1);
      st1' := st'.(env := st'.env[id := start]);
      assert id in gen;
      assert stmts == [GenerateBefore(id)] + [s'];
      assert Exec(GenerateBefore(id), st', clock, Unguarded, fuel) == End(Normal, st1');
      ExecOne(GenerateBefore(id), st', clock, Unguarded, fuel);
      ExecAppend([GenerateBefore(id)], [s'], st', clock, Unguarded, fuel);
      forall x | x !in gen
        ensures SameVariable(x, st.env, st1'.env)
      {
        assert SameVariable(x, st.env, st'.env);
      }
    }
    ExecOne(s', st1', clock, Unguarded, fuel);
    if s.For? {
      StoreOptionalAlike(s.init, st, st1', clock, gen);
    }
    SimulatesIterate(s, timeout, used, gen, Init(s, st, clock), Init(s', st1', clock), start, Time(st1', clock),
                     s.DoWhile?, clock, fuel, fuel);
  }

  function UsedInside(s: Stmt, used: set<string>): set<string>
    requires s.IsLoop()
  {
    if s.loc.Some? then used + {FreshFrom(used, 1)} else used
  }

  // The generated variable of the loop holds the time at which it began.
  ghost predicate Started(s: Stmt, used: set<string>, st: State, start: int)
    requires s.IsLoop()
  {
    s.loc.Some? ==> var id := FreshFrom(used, 1); id in st.env && st.env[id] == start
  }

  // One entry to the body, of the old loop and of the new one.
  lemma {:induction false} SimulatesEntry(s: Stmt, timeout: nat, used: set<string>, gen: set<string>,
                                          st: State, st': State, start: int, clock: (nat, nat) -> int, fuel: nat)
    requires s.IsLoop()
    requires Scoped(Names(s), used, ProtectLoop(s, timeout, used).1, gen) && Alike(st, st', gen)
    requires Started(s, used, st', start)
    ensures var r' := Exec(NewLoop(s, timeout, used).body, st', clock, Unguarded, fuel);
            if Overran(s, st, start, clock, Guarded(timeout))
            then r' == End(Threw(TimeoutError(s, Guarded(timeout))), st')
            else && Corresponds(Exec(s.body, st, clock, Guarded(timeout), fuel), r', gen)
                 && Keeps(st', r', UsedInside(s, used) - Names(s.body))
    decreases s, 2, 0
  {
    assert Names(s.body) <= Names(s);
    if s.loc.None? {
      Simulates(s.body, timeout, used, gen, st, st', clock, fuel);
      ExecSingle(Protect(s.body, timeout, used).0, st', clock, Unguarded, fuel);
    } else {
      var id, line, column := FreshFrom(used, 1), s.loc.value.0, s.loc.value.1;
      var (body', used1) := ProtectBody(s.body, timeout, used + {id});
      var inside := GenerateInside(id, line, column, timeout);
      assert NewLoop(s, timeout, used).body == Block([inside] + body');
      InsideChecks(id, line, column, timeout, body', st', clock, fuel);
      if s.body.Block? {
        SimulatesAll(s.body.stmts, timeout, used + {id}, gen, st, st', clock, fuel);
      } else {
        Simulates(s.body, timeout, used + {id}, gen, st, st', clock, fuel);
      }
    }
  }

  lemma UpdateAlike(s: Stmt, timeout: nat, used: set<string>, gen: set<string>, st: State, st': State,
                    clock: (nat, nat) -> int)
    requires s.IsLoop() && Names(s) !! gen && Alike(st, st', gen)
    ensures var s' := NewLoop(s, timeout, used);
            && Alike(Update(s, st, clock), Update(s', st', clock), gen)
            && (forall x :: x !in Names(s) ==> SameVariable(x, st'.env, Update(s', st', clock).env))
  {
    if s.For? {
      StoreOptionalAlike(s.update, st, st', clock, gen);
    }
  }

  lemma ContinuesAlike(s: Stmt, timeout: nat, used: set<string>, gen: set<string>, st: State, st': State,
                       clock: (nat, nat) -> int)
    requires s.IsLoop() && Names(s) !! gen && Alike(st, st', gen)
    ensures Continues(s, st, clock) == Continues(NewLoop(s, timeout, used), st', clock)
  {
    if s.For? {
      if s.forTest.Some? {
        EvalAlike(s.forTest.value, st, st', clock, gen);
      }
    } else {
      EvalAlike(s.test, st, st', clock, gen);
    }
  }

  lemma {:induction false} SimulatesIterate(s: Stmt, timeout: nat, used: set<string>, gen: set<string>,
                                            st: State, st': State, start: int, start': int, skipTest: bool,
                                            clock: (nat, nat) -> int, fuel: nat, left: nat)
    requires s.IsLoop()
    requires Scoped(Names(s), used, ProtectLoop(s, timeout, used).1, gen) && Alike(st, st', gen)
    requires Started(s, used, st', start)
    ensures var r' := Iterate(NewLoop(s, timeout, used), st', start', skipTest, clock, Unguarded, fuel, left);
            && Corresponds(Iterate(s, st, start, skipTest, clock, Guarded(timeout), fuel, left), r', gen)
            && Keeps(st', r', used - Names(s))
    decreases s, 3, left
  {
    hide Exec, ProtectLoop, Update, Continues;
    var s' := NewLoop(s, timeout, used);
    ContinuesAlike(s, timeout, used, gen, st, st', clock);
    if (skipTest || Continues(s, st, clock)) && left > 0 {
      var entered, entered' := Enter(st), Enter(st');
      SimulatesEntry(s, timeout, used, gen, entered, entered', start, clock, fuel);
      if !Overran(s, entered, start, clock, Guarded(timeout)) {
        var r := Exec(s.body, entered, clock, Guarded(timeout), fuel);
        var r' := Exec(s'.body, entered', clock, Unguarded, fuel);
        if r.End? {
          BodyNames(s);
          if !r.how.Threw? && !r.how.Broke? {
            UpdateAlike(s, timeout, used, gen, r.st, r'.st, clock);
            var next, next' := Update(s, r.st, clock), Update(s', r'.st, clock);
            var inside := UsedInside(s, used) - Names(s);
            KeepsBoth(st', r', End(Normal, next'), inside, inside, inside);
            assert s.loc.Some? ==> FreshFrom(used, 1) in inside;
            SimulatesIterate(s, timeout, used, gen, next, next', start, start', false, clock, fuel, left - 1);
            KeepsBoth(st', End(Normal, next'),
                      Iterate(s', next', start', false, clock, Unguarded, fuel, left - 1),
                      inside, used - Names(s), used - Names(s));
          }
        }
      }
    }
  }

  lemma BodyNames(s: Stmt)
    requires s.IsLoop()
    ensures Names(s.body) <= Names(s)
  {
  }

  // ----- when the guard stops a program -----

  // In the plain run of s, every entry to the body of a loop that has a location happens at most
  // limit milliseconds after that activation of the loop began.
  predicate Within(s: Stmt, st: State, clock: (nat, nat) -> int, limit: nat, fuel: nat)
    decreases s, 1, 0
  {
    match s
    case If(c, thn, els) =>
      if Eval(c, st, clock) != 0 then Within(thn, st, clock, limit, fuel) else Within(els, st, clock, limit, fuel)
    case Block(stmts) => WithinAll(stmts, st, clock, limit, fuel)
    case While(_, _, _) => WithinLoop(s, Init(s, st, clock), Time(st, clock), false, clock, limit, fuel, fuel)
    case DoWhile(_, _, _) => WithinLoop(s, Init(s, st, clock), Time(st, clock), true, clock, limit, fuel, fuel)
    case For(_, _, _, _, _) => WithinLoop(s, Init(s, st, clock), Time(st, clock), false, clock, limit, fuel, fuel)
    case _ => true
  }

  predicate WithinAll(stmts: seq<Stmt>, st: State, clock: (nat, nat) -> int, limit: nat, fuel: nat)
    decreases stmts, 0, 0
  {
    stmts != [] ==>
      && Within(stmts[0], st, clock, limit, fuel)
      && var r := Exec(stmts[0], st, clock, Unguarded, fuel);
         (r.End? && r.how == Normal ==> WithinAll(stmts[1..], r.st, clock, limit, fuel))
  }

  predicate WithinLoop(s: Stmt, st: State, start: int, skipTest: bool, clock: (nat, nat) -> int, limit: nat,
                       fuel: nat, left: nat)
    requires s.IsLoop()
    decreases s, 0, left
  {
    (skipTest || Continues(s, st, clock)) && left > 0 ==>
      var entered := Enter(st);
      && (s.loc.Some? ==> Time(entered, clock) - start <= limit)
      && Within(s.body, entered, clock, limit, fuel)
      && var r := Exec(s.body, entered, clock, Unguarded, fuel);
         (r.End? && !r.how.Threw? && !r.how.Broke? ==>
            WithinLoop(s, Update(s, r.st, clock), start, false, clock, limit, fuel, left - 1))
  }

  predicate IsTimeout(r: Outcome) {
    r.End? && r.how.Threw? && r.how.error.TimedOut?
  }

  // Source programs throw errors of their own.
  predicate OwnErrors(s: Stmt) {
    match s
    case Throw(error) => error.UserError?
    case If(_, thn, els) => OwnErrors(thn) && OwnErrors(els)
    case Block(stmts) => forall t <- stmts :: OwnErrors(t)
    case While(_, _, body) => OwnErrors(body)
    case DoWhile(_, body, _) => OwnErrors(body)
    case For(_, _, _, _, body) => OwnErrors(body)
    case _ => true
  }

  lemma {:induction false} GuardStops(s: Stmt, st: State, clock: (nat, nat) -> int, timeout: nat, fuel: nat)
    requires OwnErrors(s)
    ensures var guarded, plain := Exec(s, st, clock, Guarded(timeout), fuel), Exec(s, st, clock, Unguarded, fuel);
            && !IsTimeout(plain)
            && (if Within(s, st, clock, timeout * 1000, fuel) then guarded == plain else IsTimeout(guarded))
    decreases s, 1, 0
  {
    match s
    case If(c, thn, els) =>
      GuardStops(thn, st, clock, timeout, fuel);
      GuardStops(els, st, clock, timeout, fuel);
    case Block(stmts) => GuardStopsAll(stmts, st, clock, timeout, fuel);
    case While(_, _, _) => GuardStopsLoop(s, Init(s, st, clock), Time(st, clock), false, clock, timeout, fuel, fuel);
    case DoWhile(_, _, _) => GuardStopsLoop(s, Init(s, st, clock), Time(st, clock), true, clock, timeout, fuel, fuel);
    case For(_, _, _, _, _) => GuardStopsLoop(s, Init(s, st, clock), Time(st, clock), false, clock, timeout, fuel, fuel);
    case _ =>
  }

  lemma {:induction false} GuardStopsAll(stmts: seq<Stmt>, st: State, clock: (nat, nat) -> int, timeout: nat, fuel: nat)
    requires forall t <- stmts :: OwnErrors(t)
    ensures var guarded := ExecAll(stmts, st, clock, Guarded(timeout), fuel);
            var plain := ExecAll(stmts, st, clock, Unguarded, fuel);
            && !IsTimeout(plain)
            && (if WithinAll(stmts, st, clock, timeout * 1000, fuel) then guarded == plain else IsTimeout(guarded))
    decreases stmts, 0, 0
  {
    if stmts != [] {
      GuardStops(stmts[0], st, clock, timeout, fuel);
      var r := Exec(stmts[0], st, clock, Unguarded, fuel);
      if r.End? && r.how == Normal {
        GuardStopsAll(stmts[1..], r.st, clock, timeout, fuel);
      }
    }
  }

  lemma {:induction false} GuardStopsLoop(s: Stmt, st: State, start: int, skipTest: bool, clock: (nat, nat) -> int,
                                          timeout: nat, fuel: nat, left: nat)
    requires s.IsLoop() && OwnErrors(s)
    ensures var guarded := Iterate(s, st, start, skipTest, clock, Guarded(timeout), fuel, left);
            var plain := Iterate(s, st, start, skipTest, clock, Unguarded, fuel, left);
            && !IsTimeout(plain)
            && (if WithinLoop(s, st, start, skipTest, clock, timeout * 1000, fuel, left) then guarded == plain
                else IsTimeout(guarded))
    decreases s, 0, left
  {
    if (skipTest || Continues(s, st, clock)) && left > 0 {
      var entered := Enter(st);
      GuardStops(s.body, entered, clock, timeout, fuel);
      var r := Exec(s.body, entered, clock, Unguarded, fuel);
      if r.End? && !r.how.Threw? && !r.how.Broke? {
        GuardStopsLoop(s, Update(s, r.st, clock), start, false, clock, timeout, fuel, left - 1);
      }
    }
  }

  // ----- the transform as a whole -----

  function LoopTimeout(program: seq<Stmt>, timeout: nat): seq<Stmt> {
    ProtectAll(program, timeout, AllNames(program)).0
  }

  ghost function GeneratedNames(program: seq<Stmt>, timeout: nat): set<string> {
    ProtectAll(program, timeout, AllNames(program)).1 - AllNames(program)
  }

  // Same completion, same final values of the program's variables; and a timeout is thrown if and only
  // if some loop of the original ran longer than the limit.
  lemma TransformPreservesMeaning(program: seq<Stmt>, timeout: nat, st: State, clock: (nat, nat) -> int, fuel: nat)
    requires forall s <- program :: OwnErrors(s)
    ensures var plain := ExecAll(program, st, clock, Unguarded, fuel);
            var protected := ExecAll(LoopTimeout(program, timeout), st, clock, Unguarded, fuel);
            && (IsTimeout(protected) <==> !WithinAll(program, st, clock, timeout * 1000, fuel))
            && (!IsTimeout(protected) ==> Corresponds(plain, protected, GeneratedNames(program, timeout)))
            && GeneratedNames(program, timeout) !! AllNames(program)
  {
    var gen := GeneratedNames(program, timeout);
    SimulatesAll(program, timeout, AllNames(program), gen, st, st, clock, fuel);
    GuardStopsAll(program, st, clock, timeout, fuel);
  }

  // ----- the transform forces termination -----

  ghost predicate Located(s: Stmt) {
    match s
    case If(_, thn, els) => Located(thn) && Located(els)
    case Block(stmts) => forall t <- stmts :: Located(t)
    case While(loc, _, body) => loc.Some? && Located(body)
    case DoWhile(loc, body, _) => loc.Some? && Located(body)
    case For(loc, _, _, _, body) => loc.Some? && Located(body)
    case _ => true
  }

  // The clock never runs backwards, and it advances by at least one for each body entry.
  ghost predicate Advances(clock: (nat, nat) -> int) {
    forall m: nat, n: nat, i: nat, j: nat :: m <= n && i <= j ==> clock(m, i) + (j - i) <= clock(n, j)
  }

  predicate NotBefore(st: State, later: State) {
    st.progress <= later.progress && st.entries <= later.entries
  }

  lemma {:induction false} Progresses(s: Stmt, st: State, clock: (nat, nat) -> int, guard: Guard, fuel: nat)
    ensures var r := Exec(s, st, clock, guard, fuel); r.End? ==> NotBefore(st, r.st)
    decreases s, 1, 0
  {
    match s
    case If(c, thn, els) =>
      Progresses(thn, st, clock, guard, fuel);
      Progresses(els, st, clock, guard, fuel);
    case Block(stmts) => ProgressesAll(stmts, st, clock, guard, fuel);
    case While(_, _, _) => ProgressesLoop(s, Init(s, st, clock), Time(st, clock), false, clock, guard, fuel, fuel);
    case DoWhile(_, _, _) => ProgressesLoop(s, Init(s, st, clock), Time(st, clock), true, clock, guard, fuel, fuel);
    case For(_, _, _, _, _) => ProgressesLoop(s, Init(s, st, clock), Time(st, clock), false, clock, guard, fuel, fuel);
    case _ =>
  }

  lemma {:induction false} ProgressesAll(stmts: seq<Stmt>, st: State, clock: (nat, nat) -> int, guard: Guard, fuel: nat)
    ensures var r := ExecAll(stmts, st, clock, guard, fuel); r.End? ==> NotBefore(st, r.st)
    decreases stmts, 0, 0
  {
    if stmts != [] {
      Progresses(stmts[0], st, clock, guard, fuel);
      var r := Exec(stmts[0], st, clock, guard, fuel);
      if r.End? && r.how == Normal {
        ProgressesAll(stmts[1..], r.st, clock, guard, fuel);
      }
    }
  }

  lemma {:induction false} ProgressesLoop(s: Stmt, st: State, start: int, skipTest: bool, clock: (nat, nat) -> int,
                                          guard: Guard, fuel: nat, left: nat)
    requires s.IsLoop()
    ensures var r := Iterate(s, st, start, skipTest, clock, guard, fuel, left); r.End? ==> NotBefore(st, r.st)
    decreases s, 0, left
  {
    if (skipTest || Continues(s, st, clock)) && left > 0 {
      Progresses(s.body, Enter(st), clock, guard, fuel);
      var r := Exec(s.body, Enter(st), clock, guard, fuel);
      if r.End? && !r.how.Threw? && !r.how.Broke? {
        ProgressesLoop(s, Update(s, r.st, clock), start, false, clock, guard, fuel, left - 1);
      }
    }
  }

  // fuel is the number of body entries that one activation may make: timeout * 1000 pass the check,
  // and the next one would throw.
  lemma {:induction false} Halts(s: Stmt, st: State, clock: (nat, nat) -> int, timeout: nat, fuel: nat)
    requires Located(s) && Advances(clock) && timeout * 1000 < fuel
    ensures Exec(s, st, clock, Guarded(timeout), fuel).End?
    decreases s, 1, 0
  {
    match s
    case If(c, thn, els) =>
      Halts(thn, st, clock, timeout, fuel);
      Halts(els, st, clock, timeout, fuel);
    case Block(stmts) => HaltsAll(stmts, st, clock, timeout, fuel);
    case While(_, _, _) => HaltsLoop(s, Init(s, st, clock), Time(st, clock), false, clock, timeout, fuel, fuel);
    case DoWhile(_, _, _) => HaltsLoop(s, Init(s, st, clock), Time(st, clock), true, clock, timeout, fuel, fuel);
    case For(_, _, _, _, _) => HaltsLoop(s, Init(s, st, clock), Time(st, clock), false, clock, timeout, fuel, fuel);
    case _ =>
  }

  lemma {:induction false} HaltsAll(stmts: seq<Stmt>, st: State, clock: (nat, nat) -> int, timeout: nat, fuel: nat)
    requires (forall s <- stmts :: Located(s)) && Advances(clock) && timeout * 1000 < fuel
    ensures ExecAll(stmts, st, clock, Guarded(timeout), fuel).End?
    decreases stmts, 0, 0
  {
    if stmts != [] {
      Halts(stmts[0], st, clock, timeout, fuel);
      var r := Exec(stmts[0], st, clock, Guarded(timeout), fuel);
      if r.how == Normal {
        HaltsAll(stmts[1..], r.st, clock, timeout, fuel);
      }
    }
  }

  lemma EntriesTakeTime(st: State, later: State, clock: (nat, nat) -> int)
    requires Advances(clock) && NotBefore(st, later)
    ensures Time(st, clock) + (later.entries - st.entries) <= Time(later, clock)
  {
  }

  lemma {:induction false} HaltsLoop(s: Stmt, st: State, start: int, skipTest: bool, clock: (nat, nat) -> int,
                                     timeout: nat, fuel: nat, left: nat)
    requires s.IsLoop() && Located(s) && Advances(clock) && timeout * 1000 < fuel
    requires 0 < left <= fuel && start + (fuel - left) <= Time(st, clock)
    ensures Iterate(s, st, start, skipTest, clock, Guarded(timeout), fuel, left).End?
    decreases s, 0, left
  {
    hide Advances;
    if skipTest || Continues(s, st, clock) {
      var entered := Enter(st);
      EntriesTakeTime(st, entered, clock);
      if !Overran(s, entered, start, clock, Guarded(timeout)) {
        Halts(s.body, entered, clock, timeout, fuel);
        Progresses(s.body, entered, clock, Guarded(timeout), fuel);
        var r := Exec(s.body, entered, clock, Guarded(timeout), fuel);
        if !r.how.Threw? && !r.how.Broke? {
          var next := Update(s, r.st, clock);
          assert NotBefore(entered, next);
          EntriesTakeTime(entered, next, clock);
          HaltsLoop(s, next, start, false, clock, timeout, fuel, left - 1);
        }
      }
    }
  }

  lemma TransformedProgramsHalt(program: seq<Stmt>, timeout: nat, st: State, clock: (nat, nat) -> int, fuel: nat)
    requires (forall s <- program :: Located(s)) && Advances(clock) && timeout * 1000 < fuel
    ensures ExecAll(LoopTimeout(program, timeout), st, clock, Unguarded, fuel).End?
  {
    HaltsAll(program, st, clock, timeout, fuel);
    SimulatesAll(program, timeout, AllNames(program), GeneratedNames(program, timeout), st, st, clock, fuel);
  }

  // ----- the language -----

  lemma Arithmetic(m: int, n: int, st: State, clock: (nat, nat) -> int)
    ensures Eval(Add(Lit(m), Lit(n)), st, clock) == m + n && Eval(Sub(Lit(m), Lit(n)), st, clock) == m - n
    ensures Eval(Gt(Lit(m), Lit(n)), st, clock) != 0 <==> m > n
  {
  }

  // A test that is false ends while and for before the body, and do-while after it.
  lemma FalseTestEnds(loc: Location, body: Stmt, st: State, clock: (nat, nat) -> int, fuel: nat)
    ensures Exec(While(loc, Lit(0), body), st, clock, Unguarded, fuel) == End(Normal, st)
    ensures Exec(For(loc, None, Some(Lit(0)), None, body), st, clock, Unguarded, fuel) == End(Normal, st)
    ensures fuel > 0 && Exec(body, Enter(st), clock, Unguarded, fuel).End?
            && Exec(body, Enter(st), clock, Unguarded, fuel).how == Normal ==>
              Exec(DoWhile(loc, body, Lit(0)), st, clock, Unguarded, fuel) == Exec(body, Enter(st), clock, Unguarded, fuel)
  {
    var s, start := DoWhile(loc, body, Lit(0)), Time(st, clock);
    var r := Exec(body, Enter(st), clock, Unguarded, fuel);
    if fuel > 0 && r.End? && r.how == Normal {
      assert Exec(s, st, clock, Unguarded, fuel) == Iterate(s, st, start, true, clock, Unguarded, fuel, fuel);
      assert Iterate(s, r.st, start, false, clock, Unguarded, fuel, fuel - 1) == End(Normal, r.st);
    }
  }

  // A test that is true enters the body, and a break there ends the loop.
  lemma TrueTestEnters(loc: Location, st: State, clock: (nat, nat) -> int, fuel: nat)
    requires fuel > 0
    ensures Exec(While(loc, Lit(1), Break), st, clock, Unguarded, fuel) == End(Normal, Enter(st))
    ensures Exec(For(loc, None, Some(Lit(1)), None, Break), st, clock, Unguarded, fuel) == End(Normal, Enter(st))
    ensures Exec(DoWhile(loc, Break, Lit(1)), st, clock, Unguarded, fuel) == End(Normal, Enter(st))
  {
    var start := Time(st, clock);
    assert Exec(Break, Enter(st), clock, Unguarded, fuel) == End(Broke, Enter(st));
    assert Iterate(While(loc, Lit(1), Break), st, start, false, clock, Unguarded, fuel, fuel) == End(Normal, Enter(st));
    assert Iterate(For(loc, None, Some(Lit(1)), None, Break), st, start, false, clock, Unguarded, fuel, fuel)
        == End(Normal, Enter(st));
    assert Iterate(DoWhile(loc, Break, Lit(1)), st, start, true, clock, Unguarded, fuel, fuel) == End(Normal, Enter(st));
  }

  // ----- a loop is stopped exactly if it has a location -----

  datatype Form = WhileForm | DoWhileForm | ForForm

  predicate HasForm(s: Stmt, form: Form) {
    match form
    case WhileForm => s.While?
    case DoWhileForm => s.DoWhile?
    case ForForm => s.For?
  }

  // Every loop of this form at this location halts once it is transformed: for all tests, assignments, bodies with
  // located loops, timeouts, states, clocks that advance and sufficient fuel.
  ghost predicate AllHalt(form: Form, loc: Location) {
    forall s: Stmt, timeout: nat, st: State, clock: (nat, nat) -> int, fuel: nat ::
      HasForm(s, form) && s.loc == loc && Located(s.body) && Advances(clock) && timeout * 1000 < fuel ==>
        ExecAll(LoopTimeout([s], timeout), st, clock, Unguarded, fuel).End?
  }

  lemma LoopsHaltExactly(form: Form, loc: Location)
    ensures AllHalt(form, loc) <==> loc.Some?
  {
    hide AllHalt;
    if loc.Some? {
      LocatedLoopsHalt(form, loc);
    } else {
      SomeLoopRunsOn(form);
    }
  }

  lemma LocatedLoopsHalt(form: Form, loc: Location)
    requires loc.Some?
    ensures AllHalt(form, loc)
  {
    hide LoopTimeout, ExecAll, Advances;
    forall s: Stmt, timeout: nat, st: State, clock: (nat, nat) -> int, fuel: nat
      | HasForm(s, form) && s.loc == loc && Located(s.body) && Advances(clock) && timeout * 1000 < fuel
      ensures ExecAll(LoopTimeout([s], timeout), st, clock, Unguarded, fuel).End?
    {
      assert Located(s);
      TransformedProgramsHalt([s], timeout, st, clock, fuel);
    }
  }

  lemma SomeLoopRunsOn(form: Form)
    ensures !AllHalt(form, None)
  {
    hide LoopTimeout, ExecAll;
    var s, st, clock := Endless(form), State(map[], 0, 0), (m: nat, n: nat) => n;
    assert HasForm(s, form) && s.loc == None && Located(s.body) && Advances(clock);
    hide Endless, HasForm, Located, Advances;
    UnlocatedLoopRunsOn(form, 0, st, clock, 1);
    assert !ExecAll(LoopTimeout([s], 0), st, clock, Unguarded, 1).End?;
  }

  // Without a location the transform leaves a loop as it is, and no number of iterations ends this one.
  function Endless(form: Form): Stmt {
    match form
    case WhileForm => While(None, Lit(1), Block([]))
    case DoWhileForm => DoWhile(None, Block([]), Lit(1))
    case ForForm => For(None, None, None, None, Block([]))
  }

  lemma {:induction false} UnlocatedLoopRunsOn(form: Form, timeout: nat, st: State, clock: (nat, nat) -> int, fuel: nat)
    ensures LoopTimeout([Endless(form)], timeout) == [Endless(form)]
    ensures ExecAll([Endless(form)], st, clock, Unguarded, fuel) == OutOfFuel
  {
    var s := Endless(form);
    StaysTheSame(form, timeout, AllNames([s]));
    NeverDone(form, st, Time(st, clock), form.DoWhileForm?, clock, fuel, fuel);
    ExecOne(s, st, clock, Unguarded, fuel);
  }

  lemma StaysTheSame(form: Form, timeout: nat, used: set<string>)
    ensures ProtectAll([Endless(form)], timeout, used).0 == [Endless(form)]
  {
    var s := Endless(form);
    assert [s][1..] == [];
    assert ProtectAll([], timeout, used) == ([], used);
    assert Protect(Block([]), timeout, used) == ([Block([])], used);
    assert WithBody(s, Single([Block([])])) == s;
    assert ProtectLoop(s, timeout, used) == ([s], used);
    assert Protect(s, timeout, used) == ([s], used);
  }

  lemma {:induction false} NeverDone(form: Form, st: State, start: int, skipTest: bool, clock: (nat, nat) -> int,
                                     fuel: nat, left: nat)
    ensures Iterate(Endless(form), st, start, skipTest, clock, Unguarded, fuel, left) == OutOfFuel
    decreases left
  {
    if left > 0 {
      assert Exec(Block([]), Enter(st), clock, Unguarded, fuel) == ExecAll([], Enter(st), clock, Unguarded, fuel);
      NeverDone(form, Enter(st), start, false, clock, fuel, left - 1);
    }
  }
}
