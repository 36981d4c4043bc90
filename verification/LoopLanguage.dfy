// A small language with the three loop forms that the loop-timeout transform rewrites, and its meaning.
module LoopLanguage {
  import opened Wrappers

  datatype Expr =
    | Lit(n: int)
    | Var(name: string)
    | Now // Date.now()
    | Add(left: Expr, right: Expr)
    | Sub(left: Expr, right: Expr)
    | Gt(left: Expr, right: Expr)

  datatype Error = UserError(code: int) | TimedOut(line: nat, column: nat, seconds: nat)

  // node.loc, which generated nodes do not have
  type Location = Option<(nat, nat)>

  datatype Assignment = To(name: string, e: Expr)

  datatype Stmt =
    | Assign(a: Assignment)
    | Const(a: Assignment)
    | Throw(error: Error)
    | Break
    | Continue
    | If(cond: Expr, thn: Stmt, els: Stmt)
    | Block(stmts: seq<Stmt>)
    | While(loc: Location, test: Expr, body: Stmt)
    | DoWhile(loc: Location, body: Stmt, test: Expr)
    | For(loc: Location, init: Option<Assignment>, forTest: Option<Expr>, update: Option<Assignment>, body: Stmt)
  {
    predicate IsLoop() {
      While? || DoWhile? || For?
    }
  }

  type Env = map<string, int>

  // progress counts assignments and loop-body entries, entries the latter alone; the clock is any function
  // of the two.
  datatype State = State(env: Env, progress: nat, entries: nat)

  datatype Completion = Normal | Broke | Continued | Threw(error: Error)

  datatype Outcome = OutOfFuel | End(how: Completion, st: State)

  function Time(st: State, clock: (nat, nat) -> int): int {
    clock(st.progress, st.entries)
  }

  function Eval(e: Expr, st: State, clock: (nat, nat) -> int): int {
    match e
    case Lit(n) => n
    case Var(x) => if x in st.env then st.env[x] else 0
    case Now => Time(st, clock)
    case Add(a, b) => Eval(a, st, clock) + Eval(b, st, clock)
    case Sub(a, b) => Eval(a, st, clock) - Eval(b, st, clock)
    case Gt(a, b) => if Eval(a, st, clock) > Eval(b, st, clock) then 1 else 0
  }

  function Tick(st: State): State {
    st.(progress := st.progress + 1)
  }

  function Enter(st: State): State {
    Tick(st).(entries := st.entries + 1)
  }

  function Store(a: Assignment, st: State, clock: (nat, nat) -> int): State {
    st.(env := st.env[a.name := Eval(a.e, st, clock)])
  }

  function StoreOptional(a: Option<Assignment>, st: State, clock: (nat, nat) -> int): State {
    match a
    case None => st
    case Some(a) => Tick(Store(a, st, clock))
  }

  function Init(s: Stmt, st: State, clock: (nat, nat) -> int): State
    requires s.IsLoop()
  {
    if s.For? then StoreOptional(s.init, st, clock) else st
  }

  function Update(s: Stmt, st: State, clock: (nat, nat) -> int): State
    requires s.IsLoop()
  {
    if s.For? then StoreOptional(s.update, st, clock) else st
  }

  function Continues(s: Stmt, st: State, clock: (nat, nat) -> int): bool
    requires s.IsLoop()
  {
    if s.For? then s.forTest.None? || Eval(s.forTest.value, st, clock) != 0 else Eval(s.test, st, clock) != 0
  }

  // What a loop is given to run under: nothing, or a limit on the time since the loop began, looked
  // at on every entry to the body.  Loops without a location are never limited.
  datatype Guard = Unguarded | Guarded(seconds: nat)

  predicate Overran(s: Stmt, st: State, start: int, clock: (nat, nat) -> int, guard: Guard)
    requires s.IsLoop()
  {
    guard.Guarded? && s.loc.Some? && Time(st, clock) - start > guard.seconds * 1000
  }

  function TimeoutError(s: Stmt, guard: Guard): Error
    requires s.IsLoop() && guard.Guarded? && s.loc.Some?
  {
    TimedOut(s.loc.value.0, s.loc.value.1, guard.seconds)
  }

  // fuel bounds the body entries of every single loop activation.
  function Exec(s: Stmt, st: State, clock: (nat, nat) -> int, guard: Guard, fuel: nat): Outcome
    decreases s, 1, 0
  {
    match s
    case Assign(a) => End(Normal, Tick(Store(a, st, clock)))
    case Const(a) => End(Normal, Store(a, st, clock))
    case Throw(error) => End(Threw(error), st)
    case Break => End(Broke, st)
    case Continue => End(Continued, st)
    case If(cond, thn, els) =>
      if Eval(cond, st, clock) != 0 then Exec(thn, st, clock, guard, fuel) else Exec(els, st, clock, guard, fuel)
    case Block(stmts) => ExecAll(stmts, st, clock, guard, fuel)
    case While(_, _, _) => Iterate(s, Init(s, st, clock), Time(st, clock), false, clock, guard, fuel, fuel)
    case DoWhile(_, _, _) => Iterate(s, Init(s, st, clock), Time(st, clock), true, clock, guard, fuel, fuel)
    case For(_, _, _, _, _) => Iterate(s, Init(s, st, clock), Time(st, clock), false, clock, guard, fuel, fuel)
  }

  function ExecAll(stmts: seq<Stmt>, st: State, clock: (nat, nat) -> int, guard: Guard, fuel: nat): Outcome
    decreases stmts, 0, 0
  {
    if stmts == [] then End(Normal, st)
    else
      var r := Exec(stmts[0], st, clock, guard, fuel);
      if r.End? && r.how == Normal then ExecAll(stmts[1..], r.st, clock, guard, fuel) else r
  }

  // The loop s, which began at time start, from the point where it decides whether to go round again.
  function Iterate(s: Stmt, st: State, start: int, skipTest: bool, clock: (nat, nat) -> int, guard: Guard,
                   fuel: nat, left: nat): Outcome
    requires s.IsLoop()
    decreases s, 0, left
  {
    if !skipTest && !Continues(s, st, clock) then End(Normal, st)
    else if left == 0 then OutOfFuel
    else
      var entered := Enter(st);
      if Overran(s, entered, start, clock, guard) then End(Threw(TimeoutError(s, guard)), entered)
      else
        var r := Exec(s.body, entered, clock, guard, fuel);
        if r.OutOfFuel? || r.how.Threw? then r
        else if r.how.Broke? then End(Normal, r.st)
        else Iterate(s, Update(s, r.st, clock), start, false, clock, guard, fuel, left - 1)
  }

  // ----- names -----

  function ExprNames(e: Expr): set<string> {
    match e
    case Lit(_) => {}
    case Now => {}
    case Var(x) => {x}
    case Add(a, b) => ExprNames(a) + ExprNames(b)
    case Sub(a, b) => ExprNames(a) + ExprNames(b)
    case Gt(a, b) => ExprNames(a) + ExprNames(b)
  }

  function AssignmentNames(a: Assignment): set<string> {
    {a.name} + ExprNames(a.e)
  }

  function OptionalNames(a: Option<Assignment>): set<string> {
    if a.Some? then AssignmentNames(a.value) else {}
  }

  function Names(s: Stmt): set<string> {
    match s
    case Assign(a) => AssignmentNames(a)
    case Const(a) => AssignmentNames(a)
    case Throw(_) => {}
    case Break => {}
    case Continue => {}
    case If(c, thn, els) => ExprNames(c) + Names(thn) + Names(els)
    case Block(stmts) => AllNames(stmts)
    case While(_, c, body) => ExprNames(c) + Names(body)
    case DoWhile(_, body, c) => ExprNames(c) + Names(body)
    case For(_, init, c, update, body) =>
      OptionalNames(init) + (if c.Some? then ExprNames(c.value) else {}) + OptionalNames(update) + Names(body)
  }

  function AllNames(stmts: seq<Stmt>): set<string> {
    if stmts == [] then {} else Names(stmts[0]) + AllNames(stmts[1..])
  }
}
