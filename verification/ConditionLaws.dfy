/**
 What the language says about conditions (sections 2.5.2 and 2.5.3 of the Lua 5.1
 manual) and what the machine's tests do, case by case.
 */
module ConditionLaws {
  import opened Conditions

  predicate IsFalse(v: Value) {
    v == Nil || v == False
  }

  /** `and` and `or` return one of their operands, `not` a boolean. */
  lemma {:induction false} LogicalOperators(env: Env, rs: Regs, l: Expr, r: Expr)
    ensures Eval(env, rs, And(l, r)) == if IsFalse(Eval(env, rs, l)) then Eval(env, rs, l) else Eval(env, rs, r)
    ensures Eval(env, rs, Or(l, r)) == if IsFalse(Eval(env, rs, l)) then Eval(env, rs, r) else Eval(env, rs, l)
    ensures Eval(env, rs, Not(l)) == if IsFalse(Eval(env, rs, l)) then True else False
    ensures Truthy(Eval(env, rs, Not(And(l, r)))) <==> Truthy(Eval(env, rs, Or(Not(l), Not(r))))
    ensures Truthy(Eval(env, rs, Not(Or(l, r)))) <==> Truthy(Eval(env, rs, And(Not(l), Not(r))))
  {
  }

  /** `a > b` is `b < a`, `a >= b` is `b <= a`, and `a ~= b` is `not (a == b)`; the other
      comparisons ask for the order or equality of the values as they stand. */
  lemma {:induction false} RelationalOperators(env: Env, rs: Regs, l: Expr, r: Expr)
    ensures Eval(env, rs, Rel(Gt, l, r)) == Eval(env, rs, Rel(Lt, r, l))
    ensures Eval(env, rs, Rel(Ge, l, r)) == Eval(env, rs, Rel(Le, r, l))
    ensures Eval(env, rs, Rel(Ne, l, r)) == Eval(env, rs, Not(Rel(Eq, l, r)))
    ensures Eval(env, rs, Rel(Lt, l, r)) == if env.lt(Eval(env, rs, l), Eval(env, rs, r)) then True else False
    ensures Eval(env, rs, Rel(Le, l, r)) == if env.le(Eval(env, rs, l), Eval(env, rs, r)) then True else False
    ensures Eval(env, rs, Rel(Eq, l, r)) == if env.eq(Eval(env, rs, l), Eval(env, rs, r)) then True else False
  {
  }

  /** The value of a register or constant operand. */
  function ValueOf(rs: Regs, x: RK): Value {
    if x.Kst? then Datum(x.k) else if x.r in rs then rs[x.r] else Nil
  }

  /** A comparison skips the next instruction if its outcome is not its flag. */
  lemma {:induction false} ComparisonSteps(st: Store, env: Env, s: State, flag: bool, x: RK, y: RK)
    requires 0 <= s.pc < |st.code|
    ensures st.code[s.pc] == EqOp(flag, x, y) ==> Step(st, env, s) == State(if env.eq(ValueOf(s.rs, x), ValueOf(s.rs, y)) == flag then s.pc + 1 else s.pc + 2, s.rs)
    ensures st.code[s.pc] == LtOp(flag, x, y) ==> Step(st, env, s) == State(if env.lt(ValueOf(s.rs, x), ValueOf(s.rs, y)) == flag then s.pc + 1 else s.pc + 2, s.rs)
    ensures st.code[s.pc] == LeOp(flag, x, y) ==> Step(st, env, s) == State(if env.le(ValueOf(s.rs, x), ValueOf(s.rs, y)) == flag then s.pc + 1 else s.pc + 2, s.rs)
  {
  }

  /** A test skips the next instruction if the truth of its register is not its flag;
      otherwise the second form copies the register as well. */
  lemma {:induction false} TestSteps(st: Store, env: Env, s: State, a: nat, b: nat, flag: bool)
    requires 0 <= s.pc < |st.code|
    ensures st.code[s.pc] == Test(a, flag) ==> Step(st, env, s) == State(if !IsFalse(ValueOf(s.rs, Reg(a))) == flag then s.pc + 1 else s.pc + 2, s.rs)
    ensures st.code[s.pc] == TestSet(a, b, flag) ==>
              Step(st, env, s) == if !IsFalse(ValueOf(s.rs, Reg(b))) == flag then State(s.pc + 1, s.rs[a := ValueOf(s.rs, Reg(b))]) else State(s.pc + 2, s.rs)
    ensures st.code[s.pc] == NotOp(a, b) ==> Step(st, env, s) == State(s.pc + 1, s.rs[a := if IsFalse(ValueOf(s.rs, Reg(b))) then True else False])
    ensures st.code[s.pc] == LoadBool(a, flag, true) ==> Step(st, env, s) == State(s.pc + 2, s.rs[a := if flag then True else False])
    ensures st.code[s.pc] == LoadBool(a, flag, false) ==> Step(st, env, s) == State(s.pc + 1, s.rs[a := if flag then True else False])
  {
  }

  // ----- operands fit their instruction -----

  predicate Fits(x: RK) {
    x.Kst? ==> x.k <= 255
  }

  predicate AllFit(code: seq<Inst>) {
    forall i :: 0 <= i < |code| ==>
      match code[i]
      case EqOp(_, x, y) => Fits(x) && Fits(y)
      case LtOp(_, x, y) => Fits(x) && Fits(y)
      case LeOp(_, x, y) => Fits(x) && Fits(y)
      case _ => true
  }

  /** A constant is folded into its comparison exactly if its index is at most 255 and
      the load is the last instruction, of a free register, and no label's target. */
  lemma {:induction false} ConstantFolded(st: Store, top: nat, reg: nat)
    ensures var o := PropagateKMV(st, top, reg);
            && (o.rk.Kst? <==> st.code != [] && Last(st).LoadK? && Last(st).a >= top && Last(st).bx <= 255 && |st.code| - 1 > st.lastTarget)
            && (o.rk.Kst? ==> o == Operand(Pop(st), Kst(Last(st).bx), reg) && o.rk.k <= 255)
            && (AllFit(st.code) ==> AllFit(o.st.code))
  {
  }

  /** A load of nil to `reg` extends one that ends just below, if no label follows that
      one; otherwise it is an instruction of its own. */
  lemma {:induction false} NilLoaded(st: Store, reg: nat, a: nat, b: nat)
    ensures st.code != [] && st.code[|st.code| - 1] == LoadNil(a, b) && reg == b + 1 && |st.code| - 1 > st.lastTarget ==>
              AddLoadNil(st, reg) == st.(code := st.code[..|st.code| - 1] + [LoadNil(a, reg)])
    ensures st.code == [] || !st.code[|st.code| - 1].LoadNil? || reg != st.code[|st.code| - 1].b + 1 || |st.code| - 1 <= st.lastTarget ==>
              AddLoadNil(st, reg) == st.(code := st.code + [LoadNil(reg, reg)])
  {
    if st.code != [] {
      assert st.code[|st.code| - 1 := LoadNil(a, reg)] == st.code[..|st.code| - 1] + [LoadNil(a, reg)];
    }
  }

  lemma {:induction false} EmitFits(st: Store, i: Inst)
    requires AllFit(st.code) && AllFit([i])
    ensures AllFit(Emit(st, i).code)
  {
    assert [i][0] == i;
  }

  lemma {:induction false} NilFits(st: Store, reg: nat)
    requires AllFit(st.code)
    ensures AllFit(AddLoadNil(st, reg).code)
  {
  }

  lemma {:induction false} MoveFits(st: Store, top: nat, reg: nat)
    requires AllFit(st.code)
    ensures AllFit(PropagateMV(st, top, reg).st.code) && PropagateMV(st, top, reg).rk.Reg?
  {
  }

  lemma {:induction false} RelFits(st: Store, top: nat, reg: nat, e: Expr, flip: bool, target: nat)
    requires e.Rel? && AllFit(st.code)
    ensures AllFit(RelCode(st, top, reg, e, flip, target).code)
    decreases e, 0
  {
    ExprFits(st, top, reg, e.left);
    ConstantFolded(CompileExpr(st, top, reg, e.left), top, reg);
    var x := PropagateKMV(CompileExpr(st, top, reg, e.left), top, reg);
    ExprFits(x.st, top, x.reg, e.right);
    ConstantFolded(CompileExpr(x.st, top, x.reg, e.right), top, x.reg);
    var y := PropagateKMV(CompileExpr(x.st, top, x.reg, e.right), top, x.reg);
    ComparisonFits(y.st, RelInst(e.op, flip, x.rk, y.rk), target);
  }

  lemma {:induction false} ComparisonFits(st: Store, i: Inst, target: nat)
    requires AllFit(st.code) && AllFit([i])
    ensures AllFit(Emit(Emit(st, i), Jmp(target)).code)
  {
    EmitFits(st, i);
    EmitFits(Emit(st, i), Jmp(target));
  }

  lemma {:induction false} FinishFits(st: Store, reg: nat, bools: bool, t: nat, f: nat, end: nat)
    requires AllFit(st.code)
    ensures AllFit(Finish(st, reg, bools, t, f, end).code)
  {
  }

  lemma {:induction false} ExprFits(st: Store, top: nat, reg: nat, e: Expr)
    requires AllFit(st.code)
    ensures AllFit(CompileExpr(st, top, reg, e).code)
    decreases e, 1
  {
    match e
    case NilExpr => NilFits(st, reg);
    case Not(x) =>
      if !x.TrueExpr? && !x.FalseExpr? && !x.NilExpr? {
        ExprFits(st, top, reg, x);
        MoveFits(CompileExpr(st, top, reg, x), top, reg);
        var o := PropagateMV(CompileExpr(st, top, reg, x), top, reg);
        EmitFits(o.st, NotOp(reg, o.rk.r));
      }
    case Rel(_, _, _) =>
      RelFits(NewLabels(st, 1), top, reg, e, true, st.next);
      var st1 := RelCode(NewLabels(st, 1), top, reg, e, true, st.next);
      EmitFits(st1, LoadBool(reg, false, true));
      EmitFits(SetLabel(Emit(st1, LoadBool(reg, false, true)), st.next), LoadBool(reg, true, false));
    case And(_, _) => LogicalFits(st, top, reg, e);
    case Or(_, _) => LogicalFits(st, top, reg, e);
    case _ =>
  }

  lemma {:induction false} LogicalFits(st: Store, top: nat, reg: nat, e: Expr)
    requires (e.And? || e.Or?) && AllFit(st.code)
    ensures AllFit(LogicalCode(st, top, reg, e).code)
    decreases e, 0, 1
  {
    var end, t, f, next := st.next, st.next + 1, st.next + 2, st.next + 3;
    var x := FirstPart(NewLabels(st, 4), top, reg, e, t, f, end, next);
    FirstPartFits(NewLabels(st, 4), top, reg, e, t, f, end, next);
    var y := LastPart(SetLabel(x.st, next), top, reg, e, t, f, end);
    LastPartFits(SetLabel(x.st, next), top, reg, e, t, f, end);
    FinishFits(y.st, reg, x.bools || y.bools, t, f, end);
    LogicalCodeIs(st, top, reg, e, x, y);
  }

  lemma {:induction false} FirstPartFits(st: Store, top: nat, reg: nat, e: Expr, t: nat, f: nat, end: nat, next: nat)
    requires (e.And? || e.Or?) && AllFit(st.code)
    ensures AllFit(FirstPart(st, top, reg, e, t, f, end, next).st.code)
    decreases e, 0, 0
  {
    if e.And? {
      InnerFits(st, top, reg, e.left, next, end, false, t, f, end);
    } else {
      InnerFits(st, top, reg, e.left, end, next, true, t, f, end);
    }
  }

  lemma {:induction false} LastPartFits(st: Store, top: nat, reg: nat, e: Expr, t: nat, f: nat, end: nat)
    requires (e.And? || e.Or?) && AllFit(st.code)
    ensures AllFit(LastPart(st, top, reg, e, t, f, end).st.code)
    decreases e, 0, 0
  {
    OuterFits(st, top, reg, e.right, t, f, end);
  }

  lemma {:induction false} TestFits(st: Store, i: Inst, target: nat)
    requires AllFit(st.code) && (i.Test? || i.TestSet?)
    ensures AllFit(Emit(Emit(st, i), Jmp(target)).code)
  {
  }

  lemma {:induction false} InnerFits(st: Store, top: nat, reg: nat, e: Expr, thenLabel: nat, elseLabel: nat, hasNext: bool, t: nat, f: nat, end: nat)
    requires AllFit(st.code)
    ensures AllFit(Inner(st, top, reg, e, thenLabel, elseLabel, hasNext, t, f, end).st.code)
    decreases e, 2
  {
    match e
    case And(l, r) =>
      InnerFits(NewLabels(st, 1), top, reg, l, st.next, elseLabel, false, t, f, end);
      var x := Inner(NewLabels(st, 1), top, reg, l, st.next, elseLabel, false, t, f, end);
      InnerFits(SetLabel(x.st, st.next), top, reg, r, thenLabel, elseLabel, hasNext, t, f, end);
    case Or(l, r) =>
      InnerFits(NewLabels(st, 1), top, reg, l, thenLabel, st.next, true, t, f, end);
      var x := Inner(NewLabels(st, 1), top, reg, l, thenLabel, st.next, true, t, f, end);
      InnerFits(SetLabel(x.st, st.next), top, reg, r, thenLabel, elseLabel, hasNext, t, f, end);
    case Rel(_, _, _) =>
      RelFits(st, top, reg, e, hasNext, if thenLabel == end then t else if elseLabel == end then f else if hasNext then thenLabel else elseLabel);
    case _ =>
      ExprFits(st, top, reg, e);
      InnerLeafFits(st, CompileExpr(st, top, reg, e), top, reg, e, thenLabel, elseLabel, hasNext, t, f, end);
  }

  lemma {:induction false} InnerLeafFits(st: Store, st1: Store, top: nat, reg: nat, e: Expr, thenLabel: nat, elseLabel: nat, hasNext: bool, t: nat, f: nat, end: nat)
    requires !e.And? && !e.Or? && !e.Rel? && AllFit(st.code) && st1 == CompileExpr(st, top, reg, e) && AllFit(st1.code)
    ensures AllFit(Inner(st, top, reg, e, thenLabel, elseLabel, hasNext, t, f, end).st.code)
  {
  }

  lemma {:induction false} OuterFits(st: Store, top: nat, reg: nat, e: Expr, t: nat, f: nat, end: nat)
    requires AllFit(st.code)
    ensures AllFit(Outer(st, top, reg, e, t, f, end).st.code)
    decreases e, 2
  {
    match e
    case And(l, r) =>
      InnerFits(NewLabels(st, 1), top, reg, l, st.next, end, false, t, f, end);
      var x := Inner(NewLabels(st, 1), top, reg, l, st.next, end, false, t, f, end);
      OuterFits(SetLabel(x.st, st.next), top, reg, r, t, f, end);
    case Or(l, r) =>
      InnerFits(NewLabels(st, 1), top, reg, l, end, st.next, true, t, f, end);
      var x := Inner(NewLabels(st, 1), top, reg, l, end, st.next, true, t, f, end);
      OuterFits(SetLabel(x.st, st.next), top, reg, r, t, f, end);
    case Rel(_, _, _) => RelFits(st, top, reg, e, true, t);
    case _ => ExprFits(st, top, reg, e);
  }

  /** All constants in the code of a condition fit the operands of their instructions. */
  lemma {:induction false} BranchFits(st: Store, top: nat, reg: nat, e: Expr, thenLabel: nat, elseLabel: nat, hasNext: bool)
    requires AllFit(st.code)
    ensures AllFit(Branch(st, top, reg, e, thenLabel, elseLabel, hasNext).code)
    decreases e
  {
    if !((e.FalseExpr? || e.NilExpr? || e.TrueExpr? || e.Const?) && !hasNext) {
      match e
      case Not(x) => BranchFits(st, top, reg, x, elseLabel, thenLabel, !hasNext);
      case And(l, r) =>
        BranchFits(NewLabels(st, 1), top, reg, l, st.next, elseLabel, false);
        var st1 := Branch(NewLabels(st, 1), top, reg, l, st.next, elseLabel, false);
        BranchFits(SetLabel(st1, st.next), top, reg, r, thenLabel, elseLabel, hasNext);
      case Or(l, r) =>
        BranchFits(NewLabels(st, 1), top, reg, l, thenLabel, st.next, true);
        var st1 := Branch(NewLabels(st, 1), top, reg, l, thenLabel, st.next, true);
        BranchFits(SetLabel(st1, st.next), top, reg, r, thenLabel, elseLabel, hasNext);
      case Rel(_, _, _) => RelFits(st, top, reg, e, hasNext, if hasNext then thenLabel else elseLabel);
      case _ =>
        ExprFits(st, top, reg, e);
        MoveFits(CompileExpr(st, top, reg, e), top, reg);
        var o := PropagateMV(CompileExpr(st, top, reg, e), top, reg);
        TestFits(o.st, Test(o.rk.r, hasNext), if hasNext then thenLabel else elseLabel);
    }
  }
}
