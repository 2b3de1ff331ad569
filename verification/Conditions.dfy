/**
 Boolean expressions of the language and their compilation to branching code
 (compile.go): conditions with labels, values of `and`, `or` and comparisons, and
 the peephole steps that fold the last instruction away. The generator is a
 function on the code store; `ConditionCompiler` is the same in place.
 */
module Conditions {

  // ----- expressions -----

  datatype Value = Nil | False | True | Datum(id: nat)

  datatype RelOp = Lt | Gt | Le | Ge | Eq | Ne

  /** Expressions without side effects. `Const` stands for a number or a string. */
  datatype Expr =
    | NilExpr
    | TrueExpr
    | FalseExpr
    | Const(k: nat)
    | Local(r: nat)
    | Global(name: nat)
    | Upvalue(u: nat)
    | Not(e: Expr)
    | And(left: Expr, right: Expr)
    | Or(left: Expr, right: Expr)
    | Rel(op: RelOp, left: Expr, right: Expr)

  /** Registers; those never written hold nil. */
  type Regs = map<nat, Value>

  /** What expressions read besides registers, and the comparisons of values. */
  datatype Env = Env(
    global: nat -> Value,
    upvalue: nat -> Value,
    eq: (Value, Value) -> bool,
    lt: (Value, Value) -> bool,
    le: (Value, Value) -> bool)

  function Get(rs: Regs, i: nat): Value {
    if i in rs then rs[i] else Nil
  }

  predicate Truthy(v: Value) {
    v != Nil && v != False
  }

  function Bool(b: bool): Value {
    if b then True else False
  }

  function Compare(env: Env, op: RelOp, v: Value, w: Value): bool {
    match op
    case Lt => env.lt(v, w)
    case Gt => env.lt(w, v)
    case Le => env.le(v, w)
    case Ge => env.le(w, v)
    case Eq => env.eq(v, w)
    case Ne => !env.eq(v, w)
  }

  /** The value of an expression; the second operand of `and` and `or` counts only
      when the first does not decide. */
  function Eval(env: Env, rs: Regs, e: Expr): Value {
    match e
    case NilExpr => Nil
    case TrueExpr => True
    case FalseExpr => False
    case Const(k) => Datum(k)
    case Local(r) => Get(rs, r)
    case Global(name) => env.global(name)
    case Upvalue(u) => env.upvalue(u)
    case Not(x) => Bool(!Truthy(Eval(env, rs, x)))
    case And(l, r) => if Truthy(Eval(env, rs, l)) then Eval(env, rs, r) else Eval(env, rs, l)
    case Or(l, r) => if Truthy(Eval(env, rs, l)) then Eval(env, rs, l) else Eval(env, rs, r)
    case Rel(op, l, r) => Bool(Compare(env, op, Eval(env, rs, l), Eval(env, rs, r)))
  }

  /** All locals of the expression are registers below `top`. */
  predicate LocalsBelow(e: Expr, top: nat) {
    match e
    case Local(r) => r < top
    case Not(x) => LocalsBelow(x, top)
    case And(l, r) => LocalsBelow(l, top) && LocalsBelow(r, top)
    case Or(l, r) => LocalsBelow(l, top) && LocalsBelow(r, top)
    case Rel(op, l, r) => LocalsBelow(l, top) && LocalsBelow(r, top)
    case _ => true
  }

  // ----- code -----

  datatype RK = Reg(r: nat) | Kst(k: nat)

  /** Instructions; a jump names a label. */
  datatype Inst =
    | Move(a: nat, b: nat)
    | LoadK(a: nat, bx: nat)
    | LoadBool(a: nat, value: bool, skip: bool)
    | LoadNil(a: nat, b: nat)
    | GetGlobal(a: nat, bx: nat)
    | GetUpval(a: nat, b: nat)
    | NotOp(a: nat, b: nat)
    | Jmp(target: nat)
    | EqOp(flag: bool, x: RK, y: RK)
    | LtOp(flag: bool, x: RK, y: RK)
    | LeOp(flag: bool, x: RK, y: RK)
    | Test(a: nat, flag: bool)
    | TestSet(a: nat, b: nat, flag: bool)
    | Other(id: nat)

  /** The code store with the labels of its function. A label holds the position
      before its target. */
  datatype Store = Store(code: seq<Inst>, labels: map<nat, int>, next: nat, lastTarget: int)

  const MAX_RK: nat := 255

  function LastPc(st: Store): int {
    |st.code| - 1
  }

  function Emit(st: Store, i: Inst): Store {
    st.(code := st.code + [i])
  }

  function Pop(st: Store): Store
    requires st.code != []
  {
    st.(code := st.code[..|st.code| - 1])
  }

  function Last(st: Store): Inst
    requires st.code != []
  {
    st.code[|st.code| - 1]
  }

  function NewLabels(st: Store, n: nat): Store {
    st.(next := st.next + n)
  }

  function SetLabel(st: Store, l: nat): Store {
    st.(labels := st.labels[l := LastPc(st)], lastTarget := if LastPc(st) > st.lastTarget then LastPc(st) else st.lastTarget)
  }

  predicate CanPop(st: Store) {
    LastPc(st) > st.lastTarget
  }

  /** Load nil to `reg`, by extending a load of nils that ends just below it. */
  function AddLoadNil(st: Store, reg: nat): Store {
    if st.code != [] && Last(st).LoadNil? && Last(st).b + 1 == reg && CanPop(st) then
      st.(code := st.code[|st.code| - 1 := LoadNil(Last(st).a, reg)])
    else
      Emit(st, LoadNil(reg, reg))
  }

  /** The result of folding the last instruction into its user: the operand and the
      next free register. */
  datatype Operand = Operand(st: Store, rk: RK, reg: nat)

  function PropagateMV(st: Store, top: nat, reg: nat): Operand {
    if st.code != [] && Last(st).Move? && Last(st).a >= top && CanPop(st) then Operand(Pop(st), Reg(Last(st).b), reg)
    else Operand(st, Reg(reg), reg + 1)
  }

  function PropagateKMV(st: Store, top: nat, reg: nat): Operand {
    if st.code != [] && Last(st).LoadK? && Last(st).a >= top && CanPop(st) && Last(st).bx <= MAX_RK then
      Operand(Pop(st), Kst(Last(st).bx), reg)
    else PropagateMV(st, top, reg)
  }

  function RelInst(op: RelOp, flip: bool, x: RK, y: RK): Inst {
    match op
    case Lt => LtOp(flip, x, y)
    case Gt => LtOp(flip, y, x)
    case Le => LeOp(flip, x, y)
    case Ge => LeOp(flip, y, x)
    case Eq => EqOp(flip, x, y)
    case Ne => EqOp(!flip, x, y)
  }

  function RelCode(st: Store, top: nat, reg: nat, e: Expr, flip: bool, target: nat): Store
    requires e.Rel?
    decreases e, 0
  {
    var x := PropagateKMV(CompileExpr(st, top, reg, e.left), top, reg);
    var y := PropagateKMV(CompileExpr(x.st, top, x.reg, e.right), top, x.reg);
    Emit(Emit(y.st, RelInst(e.op, flip, x.rk, y.rk)), Jmp(target))
  }

  /** Code that leaves the value of `e` in `reg`. */
  function CompileExpr(st: Store, top: nat, reg: nat, e: Expr): Store
    decreases e, 1
  {
    match e
    case NilExpr => AddLoadNil(st, reg)
    case TrueExpr => Emit(st, LoadBool(reg, true, false))
    case FalseExpr => Emit(st, LoadBool(reg, false, false))
    case Const(k) => Emit(st, LoadK(reg, k))
    case Local(r) => Emit(st, Move(reg, r))
    case Global(name) => Emit(st, GetGlobal(reg, name))
    case Upvalue(u) => Emit(st, GetUpval(reg, u))
    case Not(x) =>
      if x.TrueExpr? then Emit(st, LoadBool(reg, false, false))
      else if x.FalseExpr? || x.NilExpr? then Emit(st, LoadBool(reg, true, false))
      else
        var o := PropagateMV(CompileExpr(st, top, reg, x), top, reg);
        Emit(o.st, NotOp(reg, o.rk.r))
    case Rel(_, _, _) =>
      var over := st.next;
      var st1 := Emit(RelCode(NewLabels(st, 1), top, reg, e, true, over), LoadBool(reg, false, true));
      Emit(SetLabel(st1, over), LoadBool(reg, true, false))
    case And(_, _) => LogicalCode(st, top, reg, e)
    case Or(_, _) => LogicalCode(st, top, reg, e)
  }

  /** `and` and `or` as values. The labels made here are, in order, the end, the two
      loads of truth values and the second operand. */
  function LogicalCode(st: Store, top: nat, reg: nat, e: Expr): Store
    requires e.And? || e.Or?
    decreases e, 0, 1
  {
    var end, t, f, next := st.next, st.next + 1, st.next + 2, st.next + 3;
    var x := FirstPart(NewLabels(st, 4), top, reg, e, t, f, end, next);
    var y := LastPart(SetLabel(x.st, next), top, reg, e, t, f, end);
    Finish(y.st, reg, x.bools || y.bools, t, f, end)
  }

  /** The first operand of a logical value: `and` goes on when it is true, `or` when
      it is false. */
  function FirstPart(st: Store, top: nat, reg: nat, e: Expr, t: nat, f: nat, end: nat, next: nat): Part
    requires e.And? || e.Or?
    decreases e, 0, 0
  {
    if e.And? then Inner(st, top, reg, e.left, next, end, false, t, f, end) else Inner(st, top, reg, e.left, end, next, true, t, f, end)
  }

  function LastPart(st: Store, top: nat, reg: nat, e: Expr, t: nat, f: nat, end: nat): Part
    requires e.And? || e.Or?
    decreases e, 0, 0
  {
    Outer(st, top, reg, e.right, t, f, end)
  }

  /** The code of a logical value from its two parts. */
  lemma {:induction false} LogicalCodeIs(st: Store, top: nat, reg: nat, e: Expr, x: Part, y: Part)
    requires (e.And? || e.Or?) && x == FirstPart(NewLabels(st, 4), top, reg, e, st.next + 1, st.next + 2, st.next, st.next + 3)
    requires y == LastPart(SetLabel(x.st, st.next + 3), top, reg, e, st.next + 1, st.next + 2, st.next)
    ensures LogicalCode(st, top, reg, e) == Finish(y.st, reg, x.bools || y.bools, st.next + 1, st.next + 2, st.next)
  {
  }

  /** The loads of false and true that leaves jump to, if any do; the end. */
  function Finish(st: Store, reg: nat, bools: bool, t: nat, f: nat, end: nat): Store {
    var st1 := if bools then Emit(SetLabel(Emit(SetLabel(st, f), LoadBool(reg, false, true)), t), LoadBool(reg, true, false)) else st;
    SetLabel(if st1.code != [] && Last(st1) == Jmp(end) then Pop(st1) else st1, end)
  }

  /** The store after a part of a logical value, and whether that part jumps to the
      loads of false and true. */
  datatype Part = Part(st: Store, bools: bool)

  /** An operand that does not come last: to `thenLabel` or `elseLabel`, one of which
      may be the end, where the value must be in `reg`. With `hasNext` the code
      falls through when the value is false, else when it is true. */
  function Inner(st: Store, top: nat, reg: nat, e: Expr, thenLabel: nat, elseLabel: nat, hasNext: bool, t: nat, f: nat, end: nat): Part
    decreases e, 2
  {
    var jump := if hasNext then thenLabel else elseLabel;
    match e
    case FalseExpr => if elseLabel == end then Part(Emit(st, Jmp(f)), true) else Part(Emit(st, Jmp(elseLabel)), false)
    case NilExpr => if elseLabel == end then Part(Emit(CompileExpr(st, top, reg, e), Jmp(end)), false) else Part(Emit(st, Jmp(elseLabel)), false)
    case TrueExpr => if thenLabel == end then Part(Emit(st, Jmp(t)), true) else Part(Emit(st, Jmp(thenLabel)), false)
    case Const(_) => if thenLabel == end then Part(Emit(CompileExpr(st, top, reg, e), Jmp(end)), false) else Part(Emit(st, Jmp(thenLabel)), false)
    case And(l, r) =>
      var next := st.next;
      var x := Inner(NewLabels(st, 1), top, reg, l, next, elseLabel, false, t, f, end);
      var y := Inner(SetLabel(x.st, next), top, reg, r, thenLabel, elseLabel, hasNext, t, f, end);
      Part(y.st, x.bools || y.bools)
    case Or(l, r) =>
      var next := st.next;
      var x := Inner(NewLabels(st, 1), top, reg, l, thenLabel, next, true, t, f, end);
      var y := Inner(SetLabel(x.st, next), top, reg, r, thenLabel, elseLabel, hasNext, t, f, end);
      Part(y.st, x.bools || y.bools)
    case Rel(_, _, _) =>
      if thenLabel == end then Part(RelCode(st, top, reg, e, hasNext, t), true)
      else if elseLabel == end then Part(RelCode(st, top, reg, e, hasNext, f), true)
      else Part(RelCode(st, top, reg, e, hasNext, jump), false)
    case _ =>
      if e.Local? && (elseLabel == end || (thenLabel == end && hasNext)) then
        Part(Emit(Emit(st, if reg == e.r then Test(reg, hasNext) else TestSet(reg, e.r, hasNext)), Jmp(jump)), false)
      else
        var st1 := CompileExpr(st, top, reg, e);
        Part(Emit(Emit(st1, if hasNext then TestSet(reg, reg, hasNext) else Test(reg, hasNext)), Jmp(jump)), false)
  }

  /** The last operand: both its outcomes go to the end. */
  function Outer(st: Store, top: nat, reg: nat, e: Expr, t: nat, f: nat, end: nat): Part
    decreases e, 2
  {
    match e
    case FalseExpr => Part(Emit(st, Jmp(f)), true)
    case NilExpr => Part(Emit(CompileExpr(st, top, reg, e), Jmp(end)), false)
    case TrueExpr => Part(Emit(st, Jmp(t)), true)
    case Const(_) => Part(Emit(CompileExpr(st, top, reg, e), Jmp(end)), false)
    case And(l, r) =>
      var next := st.next;
      var x := Inner(NewLabels(st, 1), top, reg, l, next, end, false, t, f, end);
      var y := Outer(SetLabel(x.st, next), top, reg, r, t, f, end);
      Part(y.st, x.bools || y.bools)
    case Or(l, r) =>
      var next := st.next;
      var x := Inner(NewLabels(st, 1), top, reg, l, end, next, true, t, f, end);
      var y := Outer(SetLabel(x.st, next), top, reg, r, t, f, end);
      Part(y.st, x.bools || y.bools)
    case Rel(_, _, _) => Part(RelCode(st, top, reg, e, true, t), true)
    case _ =>
      var st1 := CompileExpr(st, top, reg, e);
      var st2 := if st1.code != [] && Last(st1).Move? && Last(st1).a == reg then st1 else Emit(st1, Move(reg, reg));
      Part(Emit(st2, Jmp(end)), false)
  }

  /** Code that goes to `thenLabel` or `elseLabel` by the truth of `e`. */
  function Branch(st: Store, top: nat, reg: nat, e: Expr, thenLabel: nat, elseLabel: nat, hasNext: bool): Store
    decreases e, 2
  {
    var jump := if hasNext then thenLabel else elseLabel;
    if (e.FalseExpr? || e.NilExpr?) && !hasNext then Emit(st, Jmp(elseLabel))
    else if (e.TrueExpr? || e.Const?) && !hasNext then st
    else
      match e
      case Not(x) => Branch(st, top, reg, x, elseLabel, thenLabel, !hasNext)
      case And(l, r) =>
        var next := st.next;
        var st1 := Branch(NewLabels(st, 1), top, reg, l, next, elseLabel, false);
        Branch(SetLabel(st1, next), top, reg, r, thenLabel, elseLabel, hasNext)
      case Or(l, r) =>
        var next := st.next;
        var st1 := Branch(NewLabels(st, 1), top, reg, l, thenLabel, next, true);
        Branch(SetLabel(st1, next), top, reg, r, thenLabel, elseLabel, hasNext)
      case Rel(_, _, _) => RelCode(st, top, reg, e, hasNext, jump)
      case _ =>
        var o := PropagateMV(CompileExpr(st, top, reg, e), top, reg);
        Emit(Emit(o.st, Test(o.rk.r, hasNext)), Jmp(jump))
  }

  // ----- the machine -----

  datatype State = State(pc: int, rs: Regs)

  function Operand1(rs: Regs, x: RK): Value {
    match x
    case Reg(r) => Get(rs, r)
    case Kst(k) => Datum(k)
  }

  function NilRange(rs: Regs, a: nat, b: nat): Regs
    decreases b + 1 - a
  {
    if a > b then rs else NilRange(rs[a := Nil], a + 1, b)
  }

  /** Skip the next instruction when the outcome is not the flag of the comparison. */
  function After(pc: int, outcome: bool, flag: bool): int {
    if outcome != flag then pc + 2 else pc + 1
  }

  function Step(st: Store, env: Env, s: State): State {
    if s.pc < 0 || s.pc >= |st.code| then s else
    match st.code[s.pc]
    case Move(a, b) => State(s.pc + 1, s.rs[a := Get(s.rs, b)])
    case LoadK(a, k) => State(s.pc + 1, s.rs[a := Datum(k)])
    case LoadBool(a, v, skip) => State(if skip then s.pc + 2 else s.pc + 1, s.rs[a := Bool(v)])
    case LoadNil(a, b) => State(s.pc + 1, NilRange(s.rs, a, b))
    case GetGlobal(a, k) => State(s.pc + 1, s.rs[a := env.global(k)])
    case GetUpval(a, u) => State(s.pc + 1, s.rs[a := env.upvalue(u)])
    case NotOp(a, b) => State(s.pc + 1, s.rs[a := Bool(!Truthy(Get(s.rs, b)))])
    case Jmp(l) => State(if l in st.labels then st.labels[l] + 1 else s.pc, s.rs)
    case EqOp(flag, x, y) => State(After(s.pc, env.eq(Operand1(s.rs, x), Operand1(s.rs, y)), flag), s.rs)
    case LtOp(flag, x, y) => State(After(s.pc, env.lt(Operand1(s.rs, x), Operand1(s.rs, y)), flag), s.rs)
    case LeOp(flag, x, y) => State(After(s.pc, env.le(Operand1(s.rs, x), Operand1(s.rs, y)), flag), s.rs)
    case Test(a, flag) => State(After(s.pc, Truthy(Get(s.rs, a)), flag), s.rs)
    case TestSet(a, b, flag) =>
      if Truthy(Get(s.rs, b)) == flag then State(s.pc + 1, s.rs[a := Get(s.rs, b)]) else State(s.pc + 2, s.rs)
    case Other(_) => s
  }

  function Run(st: Store, env: Env, s: State, n: nat): State
    decreases n
  {
    if n == 0 then s else Run(st, env, Step(st, env, s), n - 1)
  }

  ghost predicate Reaches(st: Store, env: Env, s: State, s': State) {
    exists n: nat :: Run(st, env, s, n) == s'
  }
}
