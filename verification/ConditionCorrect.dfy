/**
 Correctness of generated conditions and logical values: whatever is emitted
 around it, the code does what the expression means. The generated stores stand
 under tokens (`Seen`, `Fit`), so that each proof unfolds only its own step.
 */
module ConditionCorrect {
  import opened Conditions
  import opened ConditionProof

  predicate Seen(t: nat) {
    true
  }

  predicate Fit(t: nat) {
    true
  }

  /** The program `p` is made of `st` and later code. */
  ghost predicate Fits(st: Store, p: Store) {
    forall t {:trigger Fit(t)} :: Fit(t) ==> Grows(st, p)
  }

  lemma {:induction false} FitsTrans(st: Store, st': Store, p: Store)
    requires Extends(st, st') && Fits(st', p)
    ensures Fits(st, p)
  {
    assert Fit(0);
    GrowsTrans(st, st', p);
  }

  /** An instruction that later code cannot change. */
  lemma {:induction false} CodeAt(p: Store, st: Store, i: Inst)
    requires Fits(Emit(st, i), p) && !i.LoadNil?
    ensures Fits(st, p) && |st.code| < |p.code| && p.code[|st.code|] == i
  {
    assert Fit(0);
    assert Kept(Emit(st, i), p, |st.code|);
    EmitGrows(st, i);
    GrowsTrans(st, Emit(st, i), p);
  }

  lemma {:induction false} CodeAt2(p: Store, st: Store, i: Inst, j: Inst)
    requires Fits(Emit(Emit(st, i), j), p) && !i.LoadNil? && !j.LoadNil?
    ensures Fits(st, p) && |st.code| + 1 < |p.code| && p.code[|st.code|] == i && p.code[|st.code| + 1] == j
  {
    CodeAt(p, Emit(st, i), j);
    CodeAt(p, st, i);
  }

  lemma {:induction false} LabelAt(p: Store, st: Store, l: nat)
    requires Fits(SetLabel(st, l), p) && l !in st.labels
    ensures Fits(st, p) && l in p.labels && p.labels[l] + 1 == |st.code|
  {
    assert Fit(0);
    assert Grows(st, SetLabel(st, l));
    GrowsTrans(st, SetLabel(st, l), p);
  }

  lemma {:induction false} PopFits(p: Store, st: Store)
    requires st.code != [] && Fits(st, p)
    ensures Fits(Pop(st), p) && |st.code| <= |p.code| && (!Last(st).LoadNil? ==> p.code[|st.code| - 1] == Last(st))
  {
    assert Fit(0);
    var q := Pop(st);
    assert Kept(st, p, |st.code| - 1);
    forall i | 0 <= i < |q.code| ensures Kept(q, p, i) {
      assert Kept(st, p, i);
    }
  }

  // ----- the generated stores -----

  ghost predicate IsExpr(st: Store, top: nat, reg: nat, e: Expr, st': Store) {
    forall t {:trigger Seen(t)} :: Seen(t) ==> st' == CompileExpr(st, top, reg, e)
  }

  /** An operand, with constants folded or not. */
  ghost predicate IsOperand(st: Store, top: nat, reg: nat, e: Expr, constants: bool, o: Operand) {
    forall t {:trigger Seen(t)} :: Seen(t) ==>
      o == if constants then PropagateKMV(CompileExpr(st, top, reg, e), top, reg) else PropagateMV(CompileExpr(st, top, reg, e), top, reg)
  }

  ghost predicate IsRel(st: Store, top: nat, reg: nat, e: Expr, flip: bool, target: nat, st': Store)
    requires e.Rel?
  {
    forall t {:trigger Seen(t)} :: Seen(t) ==> st' == RelCode(st, top, reg, e, flip, target)
  }

  /** The labels of a part of a logical value. */
  datatype Goals = Goals(thenLabel: nat, elseLabel: nat, hasNext: bool, t: nat, f: nat, end: nat)

  ghost predicate IsInner(st: Store, top: nat, reg: nat, e: Expr, g: Goals, x: Part) {
    forall t {:trigger Seen(t)} :: Seen(t) ==> x == Inner(st, top, reg, e, g.thenLabel, g.elseLabel, g.hasNext, g.t, g.f, g.end)
  }

  ghost predicate IsOuter(st: Store, top: nat, reg: nat, e: Expr, t: nat, f: nat, end: nat, y: Part) {
    forall k {:trigger Seen(k)} :: Seen(k) ==> y == Outer(st, top, reg, e, t, f, end)
  }

  ghost predicate IsBranch(st: Store, top: nat, reg: nat, e: Expr, thenLabel: nat, elseLabel: nat, hasNext: bool, st': Store) {
    forall t {:trigger Seen(t)} :: Seen(t) ==> st' == Branch(st, top, reg, e, thenLabel, elseLabel, hasNext)
  }

  // ----- values -----

  /** A place to start from: labels are in order, locals are below `reg`, and nils
      just loaded are there. */
  ghost predicate Ready(p: Store, st: Store, top: nat, reg: nat, e: Expr, rs: Regs) {
    LabelsOk(st) && LocalsBelow(e, top) && top <= reg && NilsLoaded(p, st, rs)
  }

  /** Running the code between `st` and `st'` puts `v` in `reg` and touches nothing
      below. */
  ghost predicate Computes(p: Store, env: Env, st: Store, st': Store, rs: Regs, rs': Regs, reg: nat, v: Value) {
    && Reaches(p, env, State(|st.code|, rs), State(|st'.code|, rs'))
    && Get(rs', reg) == v && Agree(rs, rs', reg) && NilsLoaded(p, st', rs')
  }

  lemma {:induction false} Simple(p: Store, env: Env, st: Store, rs: Regs, reg: nat, i: Inst, v: Value) returns (rs': Regs)
    requires Fits(Emit(st, i), p)
    requires (i.LoadBool? && !i.skip && v == Bool(i.value)) || (i.LoadK? && v == Datum(i.bx)) || (i.Move? && v == Get(rs, i.b))
          || (i.GetGlobal? && v == env.global(i.bx)) || (i.GetUpval? && v == env.upvalue(i.b))
    requires i.a == reg
    ensures Computes(p, env, st, Emit(st, i), rs, rs', reg, v)
  {
    CodeAt(p, st, i);
    rs' := rs[reg := v];
    One(p, env, State(|st.code|, rs));
  }

  lemma {:induction false} NilCorrect(p: Store, env: Env, st: Store, rs: Regs, reg: nat) returns (rs': Regs)
    requires Fits(AddLoadNil(st, reg), p) && NilsLoaded(p, st, rs)
    ensures Computes(p, env, st, AddLoadNil(st, reg), rs, rs', reg, Nil)
  {
    var st' := AddLoadNil(st, reg);
    assert Fit(0);
    assert Kept(st', p, |st'.code| - 1);
    if |st'.code| == |st.code| {
      rs' := rs;
      Stay(p, env, State(|st.code|, rs));
      assert p.code[|st.code| - 1].b >= reg;
    } else {
      var b := p.code[|st.code|].b;
      rs' := NilRange(rs, reg, b);
      forall i ensures Get(rs', i) == if reg <= i <= b then Nil else Get(rs, i) {
        NilRangeGet(rs, reg, b, i);
      }
      One(p, env, State(|st.code|, rs));
    }
  }

  /** The code of an expression leaves its value in `reg`, whatever surrounds it. */
  lemma {:induction false} ExprCorrect(p: Store, env: Env, st: Store, top: nat, reg: nat, e: Expr, st': Store, rs: Regs) returns (rs': Regs)
    requires Ready(p, st, top, reg, e, rs) && IsExpr(st, top, reg, e, st') && Fits(st', p)
    ensures Computes(p, env, st, st', rs, rs', reg, Eval(env, rs, e))
    decreases e, 2
  {
    match e {
      case Not(x) =>
        if !x.TrueExpr? && !x.FalseExpr? && !x.NilExpr? {
          rs' := NotCorrect(p, env, st, top, reg, e, st', rs);
        } else {
          rs' := PlainCorrect(p, env, st, top, reg, e, st', rs);
        }
      case Rel(_, _, _) => rs' := RelValueCorrect(p, env, st, top, reg, e, st', rs);
      case And(_, _) => rs' := LogicalCorrect(p, env, st, top, reg, e, st', rs);
      case Or(_, _) => rs' := LogicalCorrect(p, env, st, top, reg, e, st', rs);
      case _ => rs' := PlainCorrect(p, env, st, top, reg, e, st', rs);
    }
  }

  /** Expressions that load their value in one instruction. */
  lemma {:induction false} PlainCorrect(p: Store, env: Env, st: Store, top: nat, reg: nat, e: Expr, st': Store, rs: Regs) returns (rs': Regs)
    requires Ready(p, st, top, reg, e, rs) && IsExpr(st, top, reg, e, st') && Fits(st', p)
    requires !e.Rel? && !e.And? && !e.Or? && (e.Not? ==> e.e.TrueExpr? || e.e.FalseExpr? || e.e.NilExpr?)
    ensures Computes(p, env, st, st', rs, rs', reg, Eval(env, rs, e))
  {
    assert Seen(0);
    match e {
      case NilExpr => rs' := NilCorrect(p, env, st, rs, reg);
      case TrueExpr => rs' := Simple(p, env, st, rs, reg, LoadBool(reg, true, false), True);
      case FalseExpr => rs' := Simple(p, env, st, rs, reg, LoadBool(reg, false, false), False);
      case Const(k) => rs' := Simple(p, env, st, rs, reg, LoadK(reg, k), Datum(k));
      case Local(r) => rs' := Simple(p, env, st, rs, reg, Move(reg, r), Get(rs, r));
      case Global(name) => rs' := Simple(p, env, st, rs, reg, GetGlobal(reg, name), env.global(name));
      case Upvalue(u) => rs' := Simple(p, env, st, rs, reg, GetUpval(reg, u), env.upvalue(u));
      case Not(x) => rs' := Simple(p, env, st, rs, reg, LoadBool(reg, !x.TrueExpr?, false), Bool(!x.TrueExpr?));
    }
  }

  // ----- operands -----

  /** The value is at hand as the operand `o`, out of the way of later registers. */
  ghost predicate Delivers(p: Store, env: Env, st: Store, top: nat, reg: nat, o: Operand, rs: Regs, rs': Regs, v: Value) {
    && Reaches(p, env, State(|st.code|, rs), State(|o.st.code|, rs'))
    && Operand1(rs', o.rk) == v && Agree(rs, rs', reg) && NilsLoaded(p, o.st, rs')
    && reg <= o.reg && (o.rk.Reg? ==> o.rk.r < top || o.rk.r < o.reg)
  }

  /** An operand is either folded away or computed in `reg`. */
  lemma {:induction false} OperandCases(st: Store, top: nat, reg: nat, e: Expr, constants: bool, o: Operand) returns (st1: Store)
    requires LabelsOk(st) && IsOperand(st, top, reg, e, constants, o)
    ensures IsExpr(st, top, reg, e, st1)
    ensures o == Operand(st1, Reg(reg), reg + 1)
         || (e.Local? && o == Operand(st, Reg(e.r), reg)) || (e.Const? && o == Operand(st, Kst(e.k), reg))
    ensures Extends(st, o.st)
  {
    assert Seen(0);
    st1 := CompileExpr(st, top, reg, e);
    OperandExtends(st, top, reg, e);
    ExprExtends(st, top, reg, e);
    if e.Local? {
      PopEmit(st, Move(reg, e.r));
    } else if e.Const? {
      PopEmit(st, LoadK(reg, e.k));
    }
  }

  lemma {:induction false} OperandCorrect(p: Store, env: Env, st: Store, top: nat, reg: nat, e: Expr, constants: bool, o: Operand, rs: Regs) returns (rs': Regs)
    requires Ready(p, st, top, reg, e, rs) && IsOperand(st, top, reg, e, constants, o) && Fits(o.st, p)
    ensures Delivers(p, env, st, top, reg, o, rs, rs', Eval(env, rs, e))
    decreases e, 3
  {
    var st1 := OperandCases(st, top, reg, e, constants, o);
    if o == Operand(st1, Reg(reg), reg + 1) {
      rs' := ExprCorrect(p, env, st, top, reg, e, st1, rs);
    } else {
      rs' := rs;
      Stay(p, env, State(|st.code|, rs));
    }
  }

  lemma {:induction false} NotParts(st: Store, top: nat, reg: nat, e: Expr, st': Store) returns (o: Operand)
    requires e.Not? && !e.e.TrueExpr? && !e.e.FalseExpr? && !e.e.NilExpr? && IsExpr(st, top, reg, e, st')
    ensures IsOperand(st, top, reg, e.e, false, o) && o.rk.Reg? && st' == Emit(o.st, NotOp(reg, o.rk.r))
  {
    assert Seen(0);
    o := PropagateMV(CompileExpr(st, top, reg, e.e), top, reg);
  }

  lemma {:induction false} NotCorrect(p: Store, env: Env, st: Store, top: nat, reg: nat, e: Expr, st': Store, rs: Regs) returns (rs': Regs)
    requires e.Not? && !e.e.TrueExpr? && !e.e.FalseExpr? && !e.e.NilExpr?
    requires Ready(p, st, top, reg, e, rs) && IsExpr(st, top, reg, e, st') && Fits(st', p)
    ensures Computes(p, env, st, st', rs, rs', reg, Eval(env, rs, e))
    decreases e, 1
  {
    var o := NotParts(st, top, reg, e, st');
    CodeAt(p, o.st, NotOp(reg, o.rk.r));
    var rs1 := OperandCorrect(p, env, st, top, reg, e.e, false, o, rs);
    AndStep(p, env, State(|st.code|, rs), State(|o.st.code|, rs1));
    rs' := rs1[reg := Eval(env, rs, e)];
  }

  // ----- comparisons -----

  lemma {:induction false} RelParts(st: Store, top: nat, reg: nat, e: Expr, flip: bool, target: nat, st': Store) returns (x: Operand, y: Operand)
    requires e.Rel? && LabelsOk(st) && IsRel(st, top, reg, e, flip, target, st')
    ensures IsOperand(st, top, reg, e.left, true, x) && Extends(st, x.st)
    ensures IsOperand(x.st, top, x.reg, e.right, true, y) && Extends(x.st, y.st)
    ensures st' == Emit(Emit(y.st, RelInst(e.op, flip, x.rk, y.rk)), Jmp(target))
  {
    assert Seen(0);
    x := PropagateKMV(CompileExpr(st, top, reg, e.left), top, reg);
    y := PropagateKMV(CompileExpr(x.st, top, x.reg, e.right), top, x.reg);
    OperandExtends(st, top, reg, e.left);
    OperandExtends(x.st, top, x.reg, e.right);
  }

  lemma {:induction false} RelCorrect(p: Store, env: Env, st: Store, top: nat, reg: nat, e: Expr, flip: bool, target: nat, st': Store, rs: Regs) returns (rs': Regs)
    requires e.Rel? && Ready(p, st, top, reg, e, rs) && IsRel(st, top, reg, e, flip, target, st') && Fits(st', p) && target in p.labels
    ensures Agree(rs, rs', reg)
    ensures Reaches(p, env, State(|st.code|, rs), State(if (Eval(env, rs, e) == True) == flip then p.labels[target] + 1 else |st'.code|, rs'))
    decreases e, 0
  {
    var x, y := RelParts(st, top, reg, e, flip, target, st');
    CodeAt2(p, y.st, RelInst(e.op, flip, x.rk, y.rk), Jmp(target));
    FitsTrans(x.st, y.st, p);
    var rs1 := OperandCorrect(p, env, st, top, reg, e.left, true, x, rs);
    rs' := OperandCorrect(p, env, x.st, top, x.reg, e.right, true, y, rs1);
    EvalAgree(env, rs, rs1, e.right, top);
    Then(p, env, State(|st.code|, rs), State(|x.st.code|, rs1), State(|y.st.code|, rs'));
    assert Operand1(rs', x.rk) == Operand1(rs1, x.rk);
    CompareStep(p, env, State(|st.code|, rs), |y.st.code|, e.op, flip, x.rk, y.rk, target, rs');
  }

  /** A comparison and the jump behind it. */
  lemma {:induction false} CompareStep(p: Store, env: Env, s: State, pc: nat, op: RelOp, flip: bool, x: RK, y: RK, target: nat, rs: Regs)
    requires Reaches(p, env, s, State(pc, rs))
    requires pc + 1 < |p.code| && p.code[pc] == RelInst(op, flip, x, y) && p.code[pc + 1] == Jmp(target) && target in p.labels
    ensures Reaches(p, env, s, State(if Compare(env, op, Operand1(rs, x), Operand1(rs, y)) == flip then p.labels[target] + 1 else pc + 2, rs))
  {
    AndStep(p, env, s, State(pc, rs));
    if Compare(env, op, Operand1(rs, x), Operand1(rs, y)) == flip {
      AndStep(p, env, s, State(pc + 1, rs));
    }
  }

  lemma {:induction false} RelValueParts(st: Store, top: nat, reg: nat, e: Expr, st': Store) returns (st1: Store)
    requires e.Rel? && LabelsOk(st) && IsExpr(st, top, reg, e, st')
    ensures IsRel(NewLabels(st, 1), top, reg, e, true, st.next, st1) && st.next !in st1.labels
    ensures st' == Emit(SetLabel(Emit(st1, LoadBool(reg, false, true)), st.next), LoadBool(reg, true, false))
  {
    assert Seen(0);
    st1 := RelCode(NewLabels(st, 1), top, reg, e, true, st.next);
    RelExtends(NewLabels(st, 1), top, reg, e, true, st.next);
  }

  lemma {:induction false} RelValueCorrect(p: Store, env: Env, st: Store, top: nat, reg: nat, e: Expr, st': Store, rs: Regs) returns (rs': Regs)
    requires e.Rel? && Ready(p, st, top, reg, e, rs) && IsExpr(st, top, reg, e, st') && Fits(st', p)
    ensures Computes(p, env, st, st', rs, rs', reg, Eval(env, rs, e))
    decreases e, 1
  {
    var over := st.next;
    var st1 := RelValueParts(st, top, reg, e, st');
    var st2 := Emit(st1, LoadBool(reg, false, true));
    CodeAt(p, SetLabel(st2, over), LoadBool(reg, true, false));
    LabelAt(p, st2, over);
    CodeAt(p, st1, LoadBool(reg, false, true));
    var rs1 := RelCorrect(p, env, NewLabels(st, 1), top, reg, e, true, over, st1, rs);
    var v := Eval(env, rs, e);
    AndStep(p, env, State(|st.code|, rs), State(if v == True then |st1.code| + 1 else |st1.code|, rs1));
    rs' := rs1[reg := v];
  }

  // ----- logical values -----

  /** Where a part of a logical value arrives: at the label for its outcome; at the
      end with the value in `reg`; or at the load of that truth value. */
  ghost predicate Arrives(p: Store, s: State, v: Value, reg: nat, g: Goals, bools: bool) {
    var goal := if Truthy(v) then g.thenLabel else g.elseLabel;
    if goal != g.end then goal in p.labels && s.pc == p.labels[goal] + 1
    else
      || (g.end in p.labels && s.pc == p.labels[g.end] + 1 && Get(s.rs, reg) == v)
      || (bools && v == Bool(Truthy(v)) && g.t in p.labels && g.f in p.labels && s.pc == p.labels[if Truthy(v) then g.t else g.f] + 1)
  }

  ghost predicate Labelled(p: Store, g: Goals, bools: bool) {
    g.thenLabel in p.labels && g.elseLabel in p.labels && g.end in p.labels && (bools ==> g.t in p.labels && g.f in p.labels)
  }

  lemma {:induction false} JumpThere(p: Store, env: Env, s: State, s1: State, l: nat)
    requires Reaches(p, env, s, s1) && 0 <= s1.pc < |p.code| && p.code[s1.pc] == Jmp(l) && l in p.labels
    ensures Reaches(p, env, s, State(p.labels[l] + 1, s1.rs))
  {
    AndStep(p, env, s, s1);
  }

  /** How the labels of a part that does not come last may be chosen, and that the
      code falls through to one of them. */
  ghost predicate Chosen(p: Store, g: Goals, x: Part) {
    && g.thenLabel != g.elseLabel && (g.thenLabel == g.end ==> g.hasNext) && (g.elseLabel == g.end ==> !g.hasNext)
    && Labelled(p, g, x.bools) && p.labels[if g.hasNext then g.elseLabel else g.thenLabel] + 1 == |x.st.code|
  }

  lemma {:induction false} InnerCorrect(p: Store, env: Env, st: Store, top: nat, reg: nat, e: Expr, g: Goals, x: Part, rs: Regs) returns (s: State)
    requires Ready(p, st, top, reg, e, rs) && IsInner(st, top, reg, e, g, x) && Fits(x.st, p) && Chosen(p, g, x)
    requires g.thenLabel < st.next && g.elseLabel < st.next && g.end < st.next
    ensures Reaches(p, env, State(|st.code|, rs), s) && Agree(rs, s.rs, reg) && Arrives(p, s, Eval(env, rs, e), reg, g, x.bools)
    decreases e, 4
  {
    if e.And? || e.Or? {
      s := InnerLogical(p, env, st, top, reg, e, g, x, rs);
    } else if e.Rel? {
      s := InnerRel(p, env, st, top, reg, e, g, x, rs);
    } else if Leaf(e) {
      s := InnerLeaf(p, env, st, top, reg, e, g, x, rs);
    } else {
      s := InnerConstant(p, env, st, top, reg, e, g, x, rs);
    }
  }

  lemma {:induction false} InnerRel(p: Store, env: Env, st: Store, top: nat, reg: nat, e: Expr, g: Goals, x: Part, rs: Regs) returns (s: State)
    requires e.Rel? && Ready(p, st, top, reg, e, rs) && IsInner(st, top, reg, e, g, x) && Fits(x.st, p) && Chosen(p, g, x)
    ensures Reaches(p, env, State(|st.code|, rs), s) && Agree(rs, s.rs, reg) && Arrives(p, s, Eval(env, rs, e), reg, g, x.bools)
    decreases e, 1
  {
    var target := if g.thenLabel == g.end then g.t else if g.elseLabel == g.end then g.f else if g.hasNext then g.thenLabel else g.elseLabel;
    assert IsRel(st, top, reg, e, g.hasNext, target, x.st) && (g.thenLabel == g.end || g.elseLabel == g.end ==> x.bools) by {
      assert Seen(0);
    }
    var rs' := RelCorrect(p, env, st, top, reg, e, g.hasNext, target, x.st, rs);
    s := State(if (Eval(env, rs, e) == True) == g.hasNext then p.labels[target] + 1 else |x.st.code|, rs');
  }

  /** A constant loads its value only where the end is its goal. */
  lemma {:induction false} InnerConstantParts(st: Store, top: nat, reg: nat, e: Expr, g: Goals, x: Part) returns (st1: Store, target: nat)
    requires (e.NilExpr? || e.TrueExpr? || e.FalseExpr? || e.Const?) && IsInner(st, top, reg, e, g, x)
    ensures x.st == Emit(st1, Jmp(target))
    ensures var goal := if e.TrueExpr? || e.Const? then g.thenLabel else g.elseLabel;
            if goal != g.end then st1 == st && target == goal
            else if e.NilExpr? || e.Const? then IsExpr(st, top, reg, e, st1) && target == g.end
            else st1 == st && x.bools && target == if e.TrueExpr? then g.t else g.f
  {
    assert Seen(0);
    var goal := if e.TrueExpr? || e.Const? then g.thenLabel else g.elseLabel;
    st1 := if goal == g.end && (e.NilExpr? || e.Const?) then CompileExpr(st, top, reg, e) else st;
    target := if goal != g.end || e.NilExpr? || e.Const? then goal else if e.TrueExpr? then g.t else g.f;
  }

  lemma {:induction false} InnerConstant(p: Store, env: Env, st: Store, top: nat, reg: nat, e: Expr, g: Goals, x: Part, rs: Regs) returns (s: State)
    requires e.NilExpr? || e.TrueExpr? || e.FalseExpr? || e.Const?
    requires Ready(p, st, top, reg, e, rs) && IsInner(st, top, reg, e, g, x) && Fits(x.st, p) && Labelled(p, g, x.bools)
    ensures Reaches(p, env, State(|st.code|, rs), s) && Agree(rs, s.rs, reg) && Arrives(p, s, Eval(env, rs, e), reg, g, x.bools)
    decreases e, 3
  {
    var st1, target := InnerConstantParts(st, top, reg, e, g, x);
    CodeAt(p, st1, Jmp(target));
    var rs' := rs;
    if st1 == st {
      Stay(p, env, State(|st.code|, rs));
    }
    if (if e.TrueExpr? || e.Const? then g.thenLabel else g.elseLabel) == g.end && (e.NilExpr? || e.Const?) {
      rs' := ExprCorrect(p, env, st, top, reg, e, st1, rs);
    }
    JumpThere(p, env, State(|st.code|, rs), State(|st1.code|, rs'), target);
    s := State(p.labels[target] + 1, rs');
  }

  /** A test of a local that is set on the way to the end, or of the value in `reg`. */
  lemma {:induction false} InnerLeafParts(st: Store, top: nat, reg: nat, e: Expr, g: Goals, x: Part) returns (st1: Store, i: Inst)
    requires Leaf(e) && LocalsBelow(e, top) && top <= reg && IsInner(st, top, reg, e, g, x)
    ensures x.st == Emit(Emit(st1, i), Jmp(if g.hasNext then g.thenLabel else g.elseLabel))
    ensures if e.Local? && (g.elseLabel == g.end || (g.thenLabel == g.end && g.hasNext)) then st1 == st && i == TestSet(reg, e.r, g.hasNext)
            else IsExpr(st, top, reg, e, st1) && i == if g.hasNext then TestSet(reg, reg, true) else Test(reg, false)
  {
    assert Seen(0);
    if e.Local? && (g.elseLabel == g.end || (g.thenLabel == g.end && g.hasNext)) {
      st1, i := st, TestSet(reg, e.r, g.hasNext);
    } else {
      st1, i := CompileExpr(st, top, reg, e), if g.hasNext then TestSet(reg, reg, true) else Test(reg, false);
    }
  }

  lemma {:induction false} InnerLeaf(p: Store, env: Env, st: Store, top: nat, reg: nat, e: Expr, g: Goals, x: Part, rs: Regs) returns (s: State)
    requires Leaf(e) && Ready(p, st, top, reg, e, rs) && IsInner(st, top, reg, e, g, x) && Fits(x.st, p) && Chosen(p, g, x)
    ensures Reaches(p, env, State(|st.code|, rs), s) && Agree(rs, s.rs, reg) && Arrives(p, s, Eval(env, rs, e), reg, g, x.bools)
    decreases e, 3
  {
    var jump := if g.hasNext then g.thenLabel else g.elseLabel;
    var st1, i := InnerLeafParts(st, top, reg, e, g, x);
    CodeAt2(p, st1, i, Jmp(jump));
    var rs1 := rs;
    if e.Local? && (g.elseLabel == g.end || (g.thenLabel == g.end && g.hasNext)) {
      Stay(p, env, State(|st.code|, rs));
    } else {
      rs1 := ExprCorrect(p, env, st, top, reg, e, st1, rs);
    }
    AndStep(p, env, State(|st.code|, rs), State(|st1.code|, rs1));
    s := Step(p, env, State(|st1.code|, rs1));
    if Truthy(Eval(env, rs, e)) == g.hasNext {
      JumpThere(p, env, State(|st.code|, rs), s, jump);
      s := State(p.labels[jump] + 1, s.rs);
    }
  }

  /** The first operand of `and` goes on when it is true, that of `or` when false. */
  function FirstGoals(e: Expr, g: Goals, next: nat): Goals {
    if e.And? then g.(thenLabel := next, hasNext := false) else g.(elseLabel := next, hasNext := true)
  }

  lemma {:induction false} InnerParts(p: Store, st: Store, top: nat, reg: nat, e: Expr, g: Goals, x: Part) returns (a: Part, b: Part)
    requires (e.And? || e.Or?) && LabelsOk(st) && IsInner(st, top, reg, e, g, x) && Fits(x.st, p)
    ensures var st1 := SetLabel(a.st, st.next);
            && IsInner(NewLabels(st, 1), top, reg, e.left, FirstGoals(e, g, st.next), a) && IsInner(st1, top, reg, e.right, g, b)
            && x == Part(b.st, a.bools || b.bools) && LabelsOk(st1) && st.next < st1.next
            && Fits(a.st, p) && st.next in p.labels && p.labels[st.next] + 1 == |a.st.code|
  {
    assert Seen(0);
    var g1, st0 := FirstGoals(e, g, st.next), NewLabels(st, 1);
    a := Inner(st0, top, reg, e.left, g1.thenLabel, g1.elseLabel, g1.hasNext, g.t, g.f, g.end);
    InnerExtends(st0, top, reg, e.left, g1.thenLabel, g1.elseLabel, g1.hasNext, g.t, g.f, g.end);
    var st1 := SetLabel(a.st, st.next);
    b := Inner(st1, top, reg, e.right, g.thenLabel, g.elseLabel, g.hasNext, g.t, g.f, g.end);
    InnerExtends(st1, top, reg, e.right, g.thenLabel, g.elseLabel, g.hasNext, g.t, g.f, g.end);
    FitsTrans(st1, b.st, p);
    LabelAt(p, a.st, st.next);
  }

  lemma {:induction false} InnerLogical(p: Store, env: Env, st: Store, top: nat, reg: nat, e: Expr, g: Goals, x: Part, rs: Regs) returns (s: State)
    requires (e.And? || e.Or?) && Ready(p, st, top, reg, e, rs) && IsInner(st, top, reg, e, g, x) && Fits(x.st, p) && Chosen(p, g, x)
    requires g.thenLabel < st.next && g.elseLabel < st.next && g.end < st.next
    ensures Reaches(p, env, State(|st.code|, rs), s) && Agree(rs, s.rs, reg) && Arrives(p, s, Eval(env, rs, e), reg, g, x.bools)
    decreases e, 3
  {
    var a, b := InnerParts(p, st, top, reg, e, g, x);
    var st1 := SetLabel(a.st, st.next);
    s := InnerCorrect(p, env, NewLabels(st, 1), top, reg, e.left, FirstGoals(e, g, st.next), a, rs);
    if Truthy(Eval(env, rs, e.left)) == e.And? {
      var s1 := s;
      EvalAgree(env, rs, s1.rs, e.right, top);
      s := InnerCorrect(p, env, st1, top, reg, e.right, g, b, s1.rs);
      Then(p, env, State(|st.code|, rs), s1, s);
    }
  }

  /** The store of a last operand without its jump to the end. */
  function Cut(st: Store, end: nat): Store {
    if st.code != [] && Last(st) == Jmp(end) then Pop(st) else st
  }

  /** What must follow a last operand: the end, or a jump there; and when it does
      not end in that jump, the load of false. */
  ghost predicate Followed(p: Store, st: Store, t: nat, f: nat, end: nat, bools: bool) {
    && Fits(Cut(st, end), p) && end in p.labels && (bools ==> t in p.labels && f in p.labels)
    && (if st.code != [] && Last(st) == Jmp(end) then
          p.labels[end] + 1 == |st.code| - 1 || (|st.code| <= |p.code| && p.code[|st.code| - 1] == Jmp(end))
        else
          f in p.labels && p.labels[f] + 1 == |st.code|)
  }

  lemma {:induction false} OuterCorrect(p: Store, env: Env, st: Store, top: nat, reg: nat, e: Expr, t: nat, f: nat, end: nat, y: Part, rs: Regs)
    returns (s: State)
    requires Ready(p, st, top, reg, e, rs) && IsOuter(st, top, reg, e, t, f, end, y) && st.code != []
    requires t != end && f != end && end < st.next && Followed(p, y.st, t, f, end, y.bools)
    ensures Reaches(p, env, State(|st.code|, rs), s) && Agree(rs, s.rs, reg)
    ensures Arrives(p, s, Eval(env, rs, e), reg, Goals(end, end, false, t, f, end), y.bools)
    decreases e, 4
  {
    if e.And? || e.Or? {
      s := OuterLogical(p, env, st, top, reg, e, t, f, end, y, rs);
    } else if e.Rel? {
      assert IsRel(st, top, reg, e, true, t, y.st) && y.bools && Last(y.st) == Jmp(t) by {
        assert Seen(0);
        RelExtends(st, top, reg, e, true, t);
      }
      var rs' := RelCorrect(p, env, st, top, reg, e, true, t, y.st, rs);
      s := State(if Eval(env, rs, e) == True then p.labels[t] + 1 else |y.st.code|, rs');
    } else if e.TrueExpr? || e.FalseExpr? {
      var target := if e.TrueExpr? then t else f;
      assert y == Part(Emit(st, Jmp(target)), true) by {
        assert Seen(0);
      }
      PopEmit(st, Jmp(target));
      CodeAt(p, st, Jmp(target));
      Stay(p, env, State(|st.code|, rs));
      JumpThere(p, env, State(|st.code|, rs), State(|st.code|, rs), target);
      s := State(p.labels[target] + 1, rs);
    } else {
      s := OuterLeaf(p, env, st, top, reg, e, t, f, end, y, rs);
    }
  }

  lemma {:induction false} OuterLeafParts(st: Store, top: nat, reg: nat, e: Expr, t: nat, f: nat, end: nat, y: Part) returns (st1: Store, st2: Store)
    requires (Leaf(e) || e.NilExpr? || e.Const?) && IsOuter(st, top, reg, e, t, f, end, y)
    ensures IsExpr(st, top, reg, e, st1) && (st2 == st1 || st2 == Emit(st1, Move(reg, reg)))
    ensures y.st.code != [] && Last(y.st) == Jmp(end) && Pop(y.st) == st2 && |y.st.code| == |st2.code| + 1
  {
    assert Seen(0);
    st1 := CompileExpr(st, top, reg, e);
    PopEmit(st1, Jmp(end));
    PopEmit(Emit(st1, Move(reg, reg)), Jmp(end));
    st2 := Pop(y.st);
  }

  lemma {:induction false} OuterLeaf(p: Store, env: Env, st: Store, top: nat, reg: nat, e: Expr, t: nat, f: nat, end: nat, y: Part, rs: Regs)
    returns (s: State)
    requires Leaf(e) || e.NilExpr? || e.Const?
    requires Ready(p, st, top, reg, e, rs) && IsOuter(st, top, reg, e, t, f, end, y) && Followed(p, y.st, t, f, end, y.bools)
    ensures Reaches(p, env, State(|st.code|, rs), s) && Agree(rs, s.rs, reg)
    ensures end in p.labels && s.pc == p.labels[end] + 1 && Get(s.rs, reg) == Eval(env, rs, e)
    decreases e, 3
  {
    var st1, st2 := OuterLeafParts(st, top, reg, e, t, f, end, y);
    if st2 != st1 {
      CodeAt(p, st1, Move(reg, reg));
    }
    var rs1 := ExprCorrect(p, env, st, top, reg, e, st1, rs);
    if st2 != st1 {
      AndStep(p, env, State(|st.code|, rs), State(|st1.code|, rs1));
      rs1 := rs1[reg := Get(rs1, reg)];
    }
    if p.labels[end] + 1 != |st2.code| {
      JumpThere(p, env, State(|st.code|, rs), State(|st2.code|, rs1), end);
    }
    s := State(p.labels[end] + 1, rs1);
  }

  lemma {:induction false} OuterParts(st: Store, top: nat, reg: nat, e: Expr, t: nat, f: nat, end: nat, y: Part) returns (a: Part, b: Part)
    requires (e.And? || e.Or?) && LabelsOk(st) && st.code != [] && IsOuter(st, top, reg, e, t, f, end, y)
    ensures y == Part(b.st, a.bools || b.bools) && Both(NewLabels(st, 1), top, reg, e, t, f, end, st.next, a, b)
  {
    a, b := MakeBoth(NewLabels(st, 1), top, reg, e, t, f, end, st.next);
    assert Seen(0);
  }

  lemma {:induction false} MakeBoth(st: Store, top: nat, reg: nat, e: Expr, t: nat, f: nat, end: nat, next: nat) returns (a: Part, b: Part)
    requires (e.And? || e.Or?) && LabelsOk(st) && next < st.next && next !in st.labels
    ensures Both(st, top, reg, e, t, f, end, next, a, b) && b.st.code != [] && (!b.bools ==> Last(b.st) == Jmp(end))
    ensures forall l :: l < st.next && l !in st.labels && l != next ==> l !in b.st.labels
  {
    var g := FirstGoals(e, Goals(end, end, false, t, f, end), next);
    a := Inner(st, top, reg, e.left, g.thenLabel, g.elseLabel, g.hasNext, t, f, end);
    InnerExtends(st, top, reg, e.left, g.thenLabel, g.elseLabel, g.hasNext, t, f, end);
    var st1 := SetLabel(a.st, next);
    b := Outer(st1, top, reg, e.right, t, f, end);
    OuterExtends(st1, top, reg, e.right, t, f, end);
  }

  /** `a` and `b` are the code of the operands of a logical value, from `st` on. */
  ghost predicate Both(st: Store, top: nat, reg: nat, e: Expr, t: nat, f: nat, end: nat, next: nat, a: Part, b: Part)
    requires e.And? || e.Or?
  {
    var st1 := SetLabel(a.st, next);
    && IsInner(st, top, reg, e.left, FirstGoals(e, Goals(end, end, false, t, f, end), next), a) && IsOuter(st1, top, reg, e.right, t, f, end, b)
    && next !in a.st.labels && next < st.next <= st1.next && LabelsOk(st1) && a.st.code != [] && Extends(st1, Cut(b.st, end))
  }

  /** First part, then the last operand if the first does not decide. */
  lemma {:induction false} BothCorrect(p: Store, env: Env, st: Store, top: nat, reg: nat, e: Expr, t: nat, f: nat, end: nat, next: nat, a: Part, b: Part, rs: Regs)
    returns (s: State)
    requires (e.And? || e.Or?) && Ready(p, st, top, reg, e, rs) && Both(st, top, reg, e, t, f, end, next, a, b)
    requires t != end && f != end && next != end && end < st.next && Followed(p, b.st, t, f, end, a.bools || b.bools)
    ensures Reaches(p, env, State(|st.code|, rs), s) && Agree(rs, s.rs, reg)
    ensures Arrives(p, s, Eval(env, rs, e), reg, Goals(end, end, false, t, f, end), a.bools || b.bools)
    decreases e, 0
  {
    var st1, g1 := SetLabel(a.st, next), FirstGoals(e, Goals(end, end, false, t, f, end), next);
    FitsTrans(st1, Cut(b.st, end), p);
    LabelAt(p, a.st, next);
    s := InnerCorrect(p, env, st, top, reg, e.left, g1, a, rs);
    if Truthy(Eval(env, rs, e.left)) == e.And? {
      var s1 := s;
      EvalAgree(env, rs, s1.rs, e.right, top);
      s := OuterCorrect(p, env, st1, top, reg, e.right, t, f, end, b, s1.rs);
      Then(p, env, State(|st.code|, rs), s1, s);
    }
  }

  lemma {:induction false} OuterLogical(p: Store, env: Env, st: Store, top: nat, reg: nat, e: Expr, t: nat, f: nat, end: nat, y: Part, rs: Regs)
    returns (s: State)
    requires (e.And? || e.Or?) && Ready(p, st, top, reg, e, rs) && IsOuter(st, top, reg, e, t, f, end, y) && st.code != []
    requires t != end && f != end && end < st.next && Followed(p, y.st, t, f, end, y.bools)
    ensures Reaches(p, env, State(|st.code|, rs), s) && Agree(rs, s.rs, reg)
    ensures Arrives(p, s, Eval(env, rs, e), reg, Goals(end, end, false, t, f, end), y.bools)
    decreases e, 3
  {
    var a, b := OuterParts(st, top, reg, e, t, f, end, y);
    s := BothCorrect(p, env, NewLabels(st, 1), top, reg, e, t, f, end, st.next, a, b, rs);
  }

  lemma {:induction false} LogicalIsFinish(st: Store, top: nat, reg: nat, e: Expr, st': Store, a: Part, b: Part)
    requires (e.And? || e.Or?) && IsExpr(st, top, reg, e, st')
    requires IsInner(NewLabels(st, 4), top, reg, e.left, FirstGoals(e, Goals(st.next, st.next, false, st.next + 1, st.next + 2, st.next), st.next + 3), a)
    requires IsOuter(SetLabel(a.st, st.next + 3), top, reg, e.right, st.next + 1, st.next + 2, st.next, b)
    ensures st' == Finish(b.st, reg, a.bools || b.bools, st.next + 1, st.next + 2, st.next)
  {
    IsLogicalCode(st, top, reg, e, st');
    IsFirstPart(NewLabels(st, 4), top, reg, e, st.next + 1, st.next + 2, st.next, st.next + 3, a);
    IsLastPart(SetLabel(a.st, st.next + 3), top, reg, e, st.next + 1, st.next + 2, st.next, b);
    LogicalCodeIs(st, top, reg, e, a, b);
  }

  lemma {:induction false} IsLogicalCode(st: Store, top: nat, reg: nat, e: Expr, st': Store)
    requires (e.And? || e.Or?) && IsExpr(st, top, reg, e, st')
    ensures st' == LogicalCode(st, top, reg, e)
  {
    assert Seen(0);
  }

  lemma {:induction false} IsFirstPart(st: Store, top: nat, reg: nat, e: Expr, t: nat, f: nat, end: nat, next: nat, a: Part)
    requires (e.And? || e.Or?) && IsInner(st, top, reg, e.left, FirstGoals(e, Goals(end, end, false, t, f, end), next), a)
    ensures a == FirstPart(st, top, reg, e, t, f, end, next)
  {
    assert Seen(0);
  }

  lemma {:induction false} IsLastPart(st: Store, top: nat, reg: nat, e: Expr, t: nat, f: nat, end: nat, b: Part)
    requires (e.And? || e.Or?) && IsOuter(st, top, reg, e.right, t, f, end, b)
    ensures b == LastPart(st, top, reg, e, t, f, end)
  {
    assert Seen(0);
  }

  /** The loads of truth values behind a logical value, if it has them. */
  ghost predicate LoadsBehind(p: Store, st: Store, reg: nat, bools: bool, t: nat, f: nat, end: nat) {
    && end in p.labels
    && (bools ==> && t in p.labels && f in p.labels
                  && p.labels[f] + 1 == |st.code| && p.labels[t] + 1 == |st.code| + 1 && p.labels[end] + 1 == |st.code| + 2
                  && |st.code| + 1 < |p.code| && p.code[|st.code|] == LoadBool(reg, false, true) && p.code[|st.code| + 1] == LoadBool(reg, true, false))
  }

  lemma {:induction false} LogicalParts(p: Store, st: Store, top: nat, reg: nat, e: Expr, st': Store) returns (a: Part, b: Part)
    requires (e.And? || e.Or?) && LabelsOk(st) && IsExpr(st, top, reg, e, st') && Fits(st', p)
    ensures var end, t, f := st.next, st.next + 1, st.next + 2;
            && Both(NewLabels(st, 4), top, reg, e, t, f, end, st.next + 3, a, b)
            && Followed(p, b.st, t, f, end, a.bools || b.bools) && LoadsBehind(p, b.st, reg, a.bools || b.bools, t, f, end)
            && p.labels[end] + 1 == |st'.code| && !CanPop(st')
  {
    var end, t, f := st.next, st.next + 1, st.next + 2;
    a, b := MakeBoth(NewLabels(st, 4), top, reg, e, t, f, end, st.next + 3);
    LogicalIsFinish(st, top, reg, e, st', a, b);
    FinishFollows(p, b.st, reg, a.bools || b.bools, t, f, end);
  }

  /** `and` and `or` as values. */
  lemma {:induction false} LogicalCorrect(p: Store, env: Env, st: Store, top: nat, reg: nat, e: Expr, st': Store, rs: Regs) returns (rs': Regs)
    requires (e.And? || e.Or?) && Ready(p, st, top, reg, e, rs) && IsExpr(st, top, reg, e, st') && Fits(st', p)
    ensures Computes(p, env, st, st', rs, rs', reg, Eval(env, rs, e))
    decreases e, 1
  {
    var end, t, f := st.next, st.next + 1, st.next + 2;
    var a, b := LogicalParts(p, st, top, reg, e, st');
    LabelsReady(p, st, top, reg, e, rs);
    var s := BothCorrect(p, env, NewLabels(st, 4), top, reg, e, t, f, end, st.next + 3, a, b, rs);
    rs' := Land(p, env, State(|st.code|, rs), s, b.st, reg, a.bools || b.bools, t, f, end, Eval(env, rs, e));
    NothingToPop(p, st', rs');
  }

  lemma {:induction false} LabelsReady(p: Store, st: Store, top: nat, reg: nat, e: Expr, rs: Regs)
    requires Ready(p, st, top, reg, e, rs)
    ensures Ready(p, NewLabels(st, 4), top, reg, e, rs)
  {
  }

  lemma {:induction false} NothingToPop(p: Store, st: Store, rs: Regs)
    requires !CanPop(st)
    ensures NilsLoaded(p, st, rs)
  {
  }

  /** From where the operands arrive to the end. */
  lemma {:induction false} Land(p: Store, env: Env, s0: State, s: State, st: Store, reg: nat, bools: bool, t: nat, f: nat, end: nat, v: Value) returns (rs': Regs)
    requires Reaches(p, env, s0, s) && Agree(s0.rs, s.rs, reg) && Arrives(p, s, v, reg, Goals(end, end, false, t, f, end), bools)
    requires LoadsBehind(p, st, reg, bools, t, f, end)
    ensures Reaches(p, env, s0, State(p.labels[end] + 1, rs')) && Get(rs', reg) == v && Agree(s0.rs, rs', reg)
  {
    rs' := s.rs;
    if s.pc != p.labels[end] + 1 || Get(s.rs, reg) != v {
      AndStep(p, env, s0, s);
      rs' := s.rs[reg := v];
    }
  }

  /** What `Finish` puts behind the operands. */
  lemma {:induction false} FinishFollows(p: Store, st: Store, reg: nat, bools: bool, t: nat, f: nat, end: nat)
    requires st.code != [] && Fits(Finish(st, reg, bools, t, f, end), p) && (!bools ==> Last(st) == Jmp(end))
    requires end !in st.labels && t !in st.labels && f !in st.labels && end != t && end != f && t != f
    ensures Followed(p, st, t, f, end, bools) && p.labels[end] + 1 == |Finish(st, reg, bools, t, f, end).code|
    ensures !CanPop(Finish(st, reg, bools, t, f, end))
    ensures LoadsBehind(p, st, reg, bools, t, f, end)
  {
    if bools {
      var st1 := SetLabel(st, f);
      var st2 := Emit(st1, LoadBool(reg, false, true));
      var st3 := SetLabel(st2, t);
      var st4 := Emit(st3, LoadBool(reg, true, false));
      LabelAt(p, st4, end);
      CodeAt(p, st3, LoadBool(reg, true, false));
      LabelAt(p, st2, t);
      CodeAt(p, st1, LoadBool(reg, false, true));
      LabelAt(p, st, f);
      PopFits(p, st);
    } else {
      LabelAt(p, Pop(st), end);
    }
  }

  // ----- conditions -----

  /** Labels of a condition, and that its code falls through to one of them. */
  ghost predicate Targets(p: Store, thenLabel: nat, elseLabel: nat, hasNext: bool, st': Store) {
    thenLabel in p.labels && elseLabel in p.labels && p.labels[if hasNext then elseLabel else thenLabel] + 1 == |st'.code|
  }

  /** The code of a condition goes to the label for its truth value, provided the
      label it falls through to is set right behind it, and leaves the registers
      below `reg` alone. */
  lemma {:induction false} BranchCorrect(p: Store, env: Env, st: Store, top: nat, reg: nat, e: Expr, thenLabel: nat, elseLabel: nat, hasNext: bool, st': Store, rs: Regs)
    returns (rs': Regs)
    requires Ready(p, st, top, reg, e, rs) && IsBranch(st, top, reg, e, thenLabel, elseLabel, hasNext, st') && Fits(st', p)
    requires thenLabel < st.next && elseLabel < st.next && Targets(p, thenLabel, elseLabel, hasNext, st')
    ensures Agree(rs, rs', reg)
    ensures Reaches(p, env, State(|st.code|, rs), State(p.labels[if Truthy(Eval(env, rs, e)) then thenLabel else elseLabel] + 1, rs'))
    decreases e, 4
  {
    if (e.FalseExpr? || e.NilExpr? || e.TrueExpr? || e.Const?) && !hasNext {
      rs' := rs;
      Stay(p, env, State(|st.code|, rs));
      assert Seen(0);
      if e.FalseExpr? || e.NilExpr? {
        CodeAt(p, st, Jmp(elseLabel));
        JumpThere(p, env, State(|st.code|, rs), State(|st.code|, rs), elseLabel);
      }
    } else if e.Not? {
      assert IsBranch(st, top, reg, e.e, elseLabel, thenLabel, !hasNext, st') by {
        assert Seen(0);
      }
      rs' := BranchCorrect(p, env, st, top, reg, e.e, elseLabel, thenLabel, !hasNext, st', rs);
    } else if e.And? || e.Or? {
      rs' := BranchLogical(p, env, st, top, reg, e, thenLabel, elseLabel, hasNext, st', rs);
    } else if e.Rel? {
      assert IsRel(st, top, reg, e, hasNext, if hasNext then thenLabel else elseLabel, st') by {
        assert Seen(0);
      }
      rs' := RelCorrect(p, env, st, top, reg, e, hasNext, if hasNext then thenLabel else elseLabel, st', rs);
    } else {
      rs' := BranchLeaf(p, env, st, top, reg, e, thenLabel, elseLabel, hasNext, st', rs);
    }
  }

  lemma {:induction false} BranchParts(p: Store, st: Store, top: nat, reg: nat, e: Expr, thenLabel: nat, elseLabel: nat, hasNext: bool, st': Store) returns (a: Store)
    requires (e.And? || e.Or?) && LabelsOk(st) && IsBranch(st, top, reg, e, thenLabel, elseLabel, hasNext, st') && Fits(st', p)
    ensures var st1 := SetLabel(a, st.next);
            && IsBranch(NewLabels(st, 1), top, reg, e.left, if e.And? then st.next else thenLabel, if e.And? then elseLabel else st.next, e.Or?, a)
            && IsBranch(st1, top, reg, e.right, thenLabel, elseLabel, hasNext, st') && LabelsOk(st1) && st.next < st1.next
            && Fits(a, p) && st.next in p.labels && p.labels[st.next] + 1 == |a.code|
  {
    assert Seen(0);
    var st0, lt, le := NewLabels(st, 1), if e.And? then st.next else thenLabel, if e.And? then elseLabel else st.next;
    a := Branch(st0, top, reg, e.left, lt, le, e.Or?);
    BranchExtends(st0, top, reg, e.left, lt, le, e.Or?);
    var st1 := SetLabel(a, st.next);
    BranchExtends(st1, top, reg, e.right, thenLabel, elseLabel, hasNext);
    FitsTrans(st1, st', p);
    LabelAt(p, a, st.next);
  }

  lemma {:induction false} BranchLogical(p: Store, env: Env, st: Store, top: nat, reg: nat, e: Expr, thenLabel: nat, elseLabel: nat, hasNext: bool, st': Store, rs: Regs)
    returns (rs': Regs)
    requires (e.And? || e.Or?) && Ready(p, st, top, reg, e, rs) && IsBranch(st, top, reg, e, thenLabel, elseLabel, hasNext, st') && Fits(st', p)
    requires thenLabel < st.next && elseLabel < st.next && Targets(p, thenLabel, elseLabel, hasNext, st')
    ensures Agree(rs, rs', reg)
    ensures Reaches(p, env, State(|st.code|, rs), State(p.labels[if Truthy(Eval(env, rs, e)) then thenLabel else elseLabel] + 1, rs'))
    decreases e, 3
  {
    var a := BranchParts(p, st, top, reg, e, thenLabel, elseLabel, hasNext, st');
    var st1 := SetLabel(a, st.next);
    rs' := BranchCorrect(p, env, NewLabels(st, 1), top, reg, e.left, if e.And? then st.next else thenLabel, if e.And? then elseLabel else st.next, e.Or?, a, rs);
    if Truthy(Eval(env, rs, e.left)) == e.And? {
      var rs1 := rs';
      EvalAgree(env, rs, rs1, e.right, top);
      rs' := BranchCorrect(p, env, st1, top, reg, e.right, thenLabel, elseLabel, hasNext, st', rs1);
      Then(p, env, State(|st.code|, rs), State(|st1.code|, rs1), State(p.labels[if Truthy(Eval(env, rs, e)) then thenLabel else elseLabel] + 1, rs'));
    }
  }

  lemma {:induction false} BranchLeaf(p: Store, env: Env, st: Store, top: nat, reg: nat, e: Expr, thenLabel: nat, elseLabel: nat, hasNext: bool, st': Store, rs: Regs)
    returns (rs': Regs)
    requires !e.Not? && !e.And? && !e.Or? && !e.Rel? && (e.Local? || e.Global? || e.Upvalue? || hasNext)
    requires Ready(p, st, top, reg, e, rs) && IsBranch(st, top, reg, e, thenLabel, elseLabel, hasNext, st') && Fits(st', p)
    requires Targets(p, thenLabel, elseLabel, hasNext, st')
    ensures Agree(rs, rs', reg)
    ensures Reaches(p, env, State(|st.code|, rs), State(p.labels[if Truthy(Eval(env, rs, e)) then thenLabel else elseLabel] + 1, rs'))
    decreases e, 3
  {
    var jump := if hasNext then thenLabel else elseLabel;
    var o := BranchLeafParts(st, top, reg, e, thenLabel, elseLabel, hasNext, st');
    CodeAt2(p, o.st, Test(o.rk.r, hasNext), Jmp(jump));
    rs' := OperandCorrect(p, env, st, top, reg, e, false, o, rs);
    AndStep(p, env, State(|st.code|, rs), State(|o.st.code|, rs'));
    if Truthy(Eval(env, rs, e)) == hasNext {
      JumpThere(p, env, State(|st.code|, rs), State(|o.st.code| + 1, rs'), jump);
    }
  }

  lemma {:induction false} BranchLeafParts(st: Store, top: nat, reg: nat, e: Expr, thenLabel: nat, elseLabel: nat, hasNext: bool, st': Store) returns (o: Operand)
    requires !e.Not? && !e.And? && !e.Or? && !e.Rel? && (e.Local? || e.Global? || e.Upvalue? || hasNext)
    requires IsBranch(st, top, reg, e, thenLabel, elseLabel, hasNext, st')
    ensures IsOperand(st, top, reg, e, false, o) && o.rk.Reg?
    ensures st' == Emit(Emit(o.st, Test(o.rk.r, hasNext)), Jmp(if hasNext then thenLabel else elseLabel))
  {
    assert Seen(0);
    o := PropagateMV(CompileExpr(st, top, reg, e), top, reg);
  }

  // ----- whole statements -----

  /** The condition of an `if`, compiled from the first free register: from its first
      instruction the program goes to the then-branch, set right behind the
      condition, exactly when the condition is true, and otherwise to the
      else-label; registers below `top` are as before. */
  lemma {:induction false} IfCondition(p: Store, env: Env, st: Store, top: nat, e: Expr, rs: Regs) returns (rs': Regs)
    requires LabelsOk(st) && LocalsBelow(e, top) && NilsLoaded(p, st, rs)
    requires Grows(SetLabel(Branch(NewLabels(st, 3), top, top, e, st.next, st.next + 1, false), st.next), p) && st.next + 1 in p.labels
    ensures Agree(rs, rs', top) && st.next in p.labels
    ensures Reaches(p, env, State(|st.code|, rs), State(p.labels[if Truthy(Eval(env, rs, e)) then st.next else st.next + 1] + 1, rs'))
    ensures p.labels[st.next] + 1 == |Branch(NewLabels(st, 3), top, top, e, st.next, st.next + 1, false).code|
  {
    var st0 := NewLabels(st, 3);
    var st' := Branch(st0, top, top, e, st.next, st.next + 1, false);
    IfReady(p, st, top, e, rs, st');
    rs' := BranchCorrect(p, env, st0, top, top, e, st.next, st.next + 1, false, st', rs);
  }

  lemma {:induction false} IfReady(p: Store, st: Store, top: nat, e: Expr, rs: Regs, st': Store)
    requires LabelsOk(st) && LocalsBelow(e, top) && NilsLoaded(p, st, rs) && st' == Branch(NewLabels(st, 3), top, top, e, st.next, st.next + 1, false)
    requires Grows(SetLabel(st', st.next), p) && st.next + 1 in p.labels
    ensures Ready(p, NewLabels(st, 3), top, top, e, rs) && IsBranch(NewLabels(st, 3), top, top, e, st.next, st.next + 1, false, st')
    ensures Fits(st', p) && Targets(p, st.next, st.next + 1, false, st')
  {
    BranchExtends(NewLabels(st, 3), top, top, e, st.next, st.next + 1, false);
    LabelAt(p, st', st.next);
  }

  /** No peephole step moves a label that was set: labels keep their positions, and
      the code up to each of them stays as it is. */
  lemma {:induction false} LabelsStay(st: Store, top: nat, reg: nat, e: Expr, thenLabel: nat, elseLabel: nat, hasNext: bool, l: nat, i: nat)
    requires LabelsOk(st) && l in st.labels && i <= st.labels[l] <= st.lastTarget && st.labels[l] < |st.code|
    ensures var st' := Branch(st, top, reg, e, thenLabel, elseLabel, hasNext);
            l in st'.labels && st'.labels[l] == st.labels[l] && st.labels[l] < |st'.code| && st'.code[i] == st.code[i]
    ensures var st' := CompileExpr(st, top, reg, e);
            l in st'.labels && st'.labels[l] == st.labels[l] && st.labels[l] < |st'.code| && st'.code[i] == st.code[i]
  {
    BranchExtends(st, top, reg, e, thenLabel, elseLabel, hasNext);
    ExprExtends(st, top, reg, e);
    assert Kept(st, Branch(st, top, reg, e, thenLabel, elseLabel, hasNext), i);
    assert Kept(st, CompileExpr(st, top, reg, e), i);
  }
}
