/**
 The code generated for a condition reaches the right label, and the code
 generated for a value leaves that value in its register (compile.go against the
 instructions of vm.go).
 */
module ConditionProof {
  import opened Conditions

  // ----- runs -----

  lemma {:induction false} RunAdd(p: Store, env: Env, s: State, m: nat, n: nat)
    ensures Run(p, env, s, m + n) == Run(p, env, Run(p, env, s, m), n)
    decreases m
  {
    if m > 0 {
      RunAdd(p, env, Step(p, env, s), m - 1, n);
    }
  }

  lemma {:induction false} Stay(p: Store, env: Env, s: State)
    ensures Reaches(p, env, s, s)
  {
    assert Run(p, env, s, 0) == s;
  }

  lemma {:induction false} Then(p: Store, env: Env, s: State, s1: State, s2: State)
    requires Reaches(p, env, s, s1) && Reaches(p, env, s1, s2)
    ensures Reaches(p, env, s, s2)
  {
    var m :| Run(p, env, s, m) == s1;
    var n :| Run(p, env, s1, n) == s2;
    RunAdd(p, env, s, m, n);
  }

  lemma {:induction false} One(p: Store, env: Env, s: State)
    ensures Reaches(p, env, s, Step(p, env, s))
  {
    assert Run(p, env, s, 1) == Run(p, env, Step(p, env, s), 0);
  }

  /** One more step at the end of a run. */
  lemma {:induction false} AndStep(p: Store, env: Env, s: State, s1: State)
    requires Reaches(p, env, s, s1)
    ensures Reaches(p, env, s, Step(p, env, s1))
  {
    One(p, env, s1);
    Then(p, env, s, s1, Step(p, env, s1));
  }

  lemma {:induction false} NilRangeGet(rs: Regs, a: nat, b: nat, i: nat)
    ensures Get(NilRange(rs, a, b), i) == if a <= i <= b then Nil else Get(rs, i)
    decreases b + 1 - a
  {
    if a <= b {
      NilRangeGet(rs[a := Nil], a + 1, b, i);
    }
  }

  // ----- what later code may do to earlier code -----

  /** Later code leaves an instruction alone, but for extending a load of nils that
      comes last and that no label follows. */
  ghost predicate Kept(st: Store, st': Store, i: nat)
    requires i < |st.code| <= |st'.code|
  {
    || st'.code[i] == st.code[i]
    || (i == |st.code| - 1 && CanPop(st) && st.code[i].LoadNil? && st'.code[i].LoadNil?
        && st'.code[i].a == st.code[i].a && st'.code[i].b >= st.code[i].b)
  }

  /** `st'` came from `st` by adding code and new labels. */
  ghost predicate Grows(st: Store, st': Store) {
    && |st.code| <= |st'.code| && st.next <= st'.next && st.lastTarget <= st'.lastTarget
    && (forall i :: 0 <= i < |st.code| ==> Kept(st, st', i))
    && (forall l :: l in st.labels ==> l in st'.labels && st'.labels[l] == st.labels[l])
  }

  /** Every label set so far is below the next new one. */
  ghost predicate LabelsOk(st: Store) {
    forall l :: l in st.labels ==> l < st.next
  }

  /** Labels set between `st` and `st'` are new. */
  ghost predicate OnlyNew(st: Store, st': Store) {
    forall l :: l in st'.labels && l !in st.labels ==> st.next <= l < st'.next
  }

  lemma {:induction false} GrowsTrans(a: Store, b: Store, c: Store)
    requires Grows(a, b) && Grows(b, c)
    ensures Grows(a, c)
  {
    forall i | 0 <= i < |a.code| ensures Kept(a, c, i) {
      assert Kept(a, b, i) && Kept(b, c, i);
    }
  }

  lemma {:induction false} EmitGrows(st: Store, i: Inst)
    ensures Grows(st, Emit(st, i))
  {
  }

  /** The registers of a load of nils that comes last hold nil. */
  ghost predicate NilsLoaded(p: Store, st: Store, rs: Regs) {
    st.code != [] && CanPop(st) && |st.code| <= |p.code| && p.code[|st.code| - 1].LoadNil? && Last(st).LoadNil? ==>
      Last(st).a <= Last(st).b && forall i :: p.code[|st.code| - 1].a <= i <= p.code[|st.code| - 1].b ==> Get(rs, i) == Nil
  }

  ghost predicate Agree(rs: Regs, rs': Regs, n: nat) {
    forall i :: 0 <= i < n ==> Get(rs', i) == Get(rs, i)
  }

  lemma {:induction false} EvalAgree(env: Env, rs: Regs, rs': Regs, e: Expr, top: nat)
    requires LocalsBelow(e, top) && Agree(rs, rs', top)
    ensures Eval(env, rs', e) == Eval(env, rs, e)
  {
    match e
    case Not(x) => EvalAgree(env, rs, rs', x, top);
    case And(l, r) =>
      EvalAgree(env, rs, rs', l, top);
      EvalAgree(env, rs, rs', r, top);
    case Or(l, r) =>
      EvalAgree(env, rs, rs', l, top);
      EvalAgree(env, rs, rs', r, top);
    case Rel(op, l, r) =>
      EvalAgree(env, rs, rs', l, top);
      EvalAgree(env, rs, rs', r, top);
    case _ =>
  }

  // ----- the shape of generated code -----

  /** What every generator keeps: earlier code, earlier labels, and that labels are
      set once. */
  ghost predicate Extends(st: Store, st': Store) {
    Grows(st, st') && OnlyNew(st, st') && (LabelsOk(st) ==> LabelsOk(st'))
  }

  lemma {:induction false} ExtendsTrans(a: Store, b: Store, c: Store)
    requires Extends(a, b) && Extends(b, c)
    ensures Extends(a, c)
  {
    GrowsTrans(a, b, c);
  }

  lemma {:induction false} EmitExtends(st: Store, st': Store, i: Inst)
    requires Extends(st, st')
    ensures Extends(st, Emit(st', i))
  {
    EmitGrows(st', i);
    assert Extends(st', Emit(st', i));
    ExtendsTrans(st, st', Emit(st', i));
  }

  lemma {:induction false} SelfExtends(st: Store, n: nat)
    ensures Extends(st, NewLabels(st, n))
  {
  }

  /** Setting one of the labels made since `st`. */
  lemma {:induction false} LabelExtends(st: Store, st': Store, l: nat)
    requires Extends(st, st') && st.next <= l < st'.next && l !in st'.labels
    ensures Extends(st, SetLabel(st', l))
  {
    assert Grows(st', SetLabel(st', l));
    GrowsTrans(st, st', SetLabel(st', l));
  }

  lemma {:induction false} LoadNilExtends(st: Store, reg: nat)
    ensures Extends(st, AddLoadNil(st, reg))
  {
  }

  /** Only a constant or a local ends in an instruction that may be folded away, and
      then that instruction is all of its code. */
  ghost predicate Foldable(st: Store, st': Store, reg: nat, e: Expr) {
    && st'.code != []
    && (Last(st').Move? && CanPop(st') ==> e.Local? && st' == Emit(st, Move(reg, e.r)))
    && (Last(st').LoadK? && CanPop(st') ==> e.Const? && st' == Emit(st, LoadK(reg, e.k)))
  }

  lemma {:induction false} PopEmit(st: Store, i: Inst)
    ensures Pop(Emit(st, i)) == st && Last(Emit(st, i)) == i
  {
    assert (st.code + [i])[..|st.code|] == st.code;
  }

  lemma {:induction false} ExprExtends(st: Store, top: nat, reg: nat, e: Expr)
    requires LabelsOk(st)
    ensures Extends(st, CompileExpr(st, top, reg, e)) && Foldable(st, CompileExpr(st, top, reg, e), reg, e)
    decreases e, 1
  {
    SelfExtends(st, 0);
    match e {
      case NilExpr => LoadNilExtends(st, reg);
      case Not(x) =>
        if !x.TrueExpr? && !x.FalseExpr? && !x.NilExpr? {
          OperandExtends(st, top, reg, x);
          EmitExtends(st, PropagateMV(CompileExpr(st, top, reg, x), top, reg).st, NotOp(reg, PropagateMV(CompileExpr(st, top, reg, x), top, reg).rk.r));
        }
      case Rel(_, _, _) => RelValueExtends(st, top, reg, e);
      case And(l, r) => LogicalExtends(st, top, reg, e);
      case Or(l, r) => LogicalExtends(st, top, reg, e);
      case _ =>
    }
  }

  lemma {:induction false} OperandExtends(st: Store, top: nat, reg: nat, e: Expr)
    requires LabelsOk(st)
    ensures Extends(st, PropagateMV(CompileExpr(st, top, reg, e), top, reg).st)
    ensures Extends(st, PropagateKMV(CompileExpr(st, top, reg, e), top, reg).st)
    decreases e, 2
  {
    ExprExtends(st, top, reg, e);
    SelfExtends(st, 0);
    if e.Local? {
      PopEmit(st, Move(reg, e.r));
    } else if e.Const? {
      PopEmit(st, LoadK(reg, e.k));
    }
  }

  lemma {:induction false} RelExtends(st: Store, top: nat, reg: nat, e: Expr, flip: bool, target: nat)
    requires LabelsOk(st) && e.Rel?
    ensures var r := RelCode(st, top, reg, e, flip, target); r.code != [] && Last(r) == Jmp(target) && Extends(st, Pop(r)) && Extends(st, r)
    decreases e, 0, 0
  {
    var x := PropagateKMV(CompileExpr(st, top, reg, e.left), top, reg);
    OperandExtends(st, top, reg, e.left);
    var y := PropagateKMV(CompileExpr(x.st, top, x.reg, e.right), top, x.reg);
    OperandExtends(x.st, top, x.reg, e.right);
    ExtendsTrans(st, x.st, y.st);
    var i := RelInst(e.op, flip, x.rk, y.rk);
    EmitExtends(st, y.st, i);
    EmitExtends(st, Emit(y.st, i), Jmp(target));
    PopEmit(Emit(y.st, i), Jmp(target));
  }

  lemma {:induction false} RelValueExtends(st: Store, top: nat, reg: nat, e: Expr)
    requires LabelsOk(st) && e.Rel?
    ensures Extends(st, CompileExpr(st, top, reg, e)) && Foldable(st, CompileExpr(st, top, reg, e), reg, e)
    decreases e, 0, 2
  {
    var st0, over := NewLabels(st, 1), st.next;
    SelfExtends(st, 1);
    RelExtends(st0, top, reg, e, true, over);
    var st1 := RelCode(st0, top, reg, e, true, over);
    ExtendsTrans(st, st0, st1);
    EmitExtends(st, st1, LoadBool(reg, false, true));
    var st2 := Emit(st1, LoadBool(reg, false, true));
    LabelExtends(st, st2, over);
    EmitExtends(st, SetLabel(st2, over), LoadBool(reg, true, false));
  }

  lemma {:induction false} LogicalExtends(st: Store, top: nat, reg: nat, e: Expr)
    requires LabelsOk(st) && (e.And? || e.Or?)
    ensures var r := LogicalCode(st, top, reg, e); Extends(st, r) && r.code != [] && !CanPop(r)
    decreases e, 0, 1
  {
    var st0, end, t, f, next := NewLabels(st, 4), st.next, st.next + 1, st.next + 2, st.next + 3;
    SelfExtends(st, 4);
    var x := FirstPart(st0, top, reg, e, t, f, end, next);
    FirstPartExtends(st0, top, reg, e, t, f, end, next);
    ExtendsTrans(st, st0, x.st);
    LabelExtends(st, x.st, next);
    var st1 := SetLabel(x.st, next);
    OuterExtends(st1, top, reg, e.right, t, f, end);
    var y := Outer(st1, top, reg, e.right, t, f, end);
    ExtendsTrans(st, st1, y.st);
    ExtendsTrans(st, st1, Pop(y.st));
    FinishExtends(st, y.st, reg, x.bools || y.bools, t, f, end);
    LogicalCodeIs(st, top, reg, e, x, y);
  }

  lemma {:induction false} FirstPartExtends(st: Store, top: nat, reg: nat, e: Expr, t: nat, f: nat, end: nat, next: nat)
    requires LabelsOk(st) && (e.And? || e.Or?)
    ensures var x := FirstPart(st, top, reg, e, t, f, end, next); Extends(st, x.st) && x.st.code != []
    decreases e, 0, 0
  {
    if e.And? {
      InnerExtends(st, top, reg, e.left, next, end, false, t, f, end);
    } else {
      InnerExtends(st, top, reg, e.left, end, next, true, t, f, end);
    }
  }

  lemma {:induction false} FinishExtends(st: Store, st': Store, reg: nat, bools: bool, t: nat, f: nat, end: nat)
    requires Extends(st, st') && st'.code != [] && Extends(st, Pop(st')) && st'.code != [] && |st'.code| > 1
    requires st.next <= end < t < f < st'.next && end !in st'.labels && t !in st'.labels && f !in st'.labels
    ensures var r := Finish(st', reg, bools, t, f, end); Extends(st, r) && r.code != [] && !CanPop(r)
  {
    if bools {
      LabelExtends(st, st', f);
      var st1 := Emit(SetLabel(st', f), LoadBool(reg, false, true));
      EmitExtends(st, SetLabel(st', f), LoadBool(reg, false, true));
      LabelExtends(st, st1, t);
      EmitExtends(st, SetLabel(st1, t), LoadBool(reg, true, false));
      LabelExtends(st, Emit(SetLabel(st1, t), LoadBool(reg, true, false)), end);
    } else if Last(st') == Jmp(end) {
      LabelExtends(st, Pop(st'), end);
    } else {
      LabelExtends(st, st', end);
    }
  }

  /** A part of a logical value ends in a jump, and its labels are its own. */
  lemma {:induction false} InnerConstantExtends(st: Store, top: nat, reg: nat, e: Expr, thenLabel: nat, elseLabel: nat, hasNext: bool, t: nat, f: nat, end: nat)
    requires LabelsOk(st) && (e.FalseExpr? || e.TrueExpr? || e.NilExpr? || e.Const?)
    ensures var x := Inner(st, top, reg, e, thenLabel, elseLabel, hasNext, t, f, end); Extends(st, x.st) && x.st.code != []
    decreases e, 2
  {
    SelfExtends(st, 0);
    ExprExtends(st, top, reg, e);
    EmitExtends(st, CompileExpr(st, top, reg, e), Jmp(end));
  }

  /** Two operands, one behind the other, with a new label between them. */
  lemma {:induction false} BothExtend(st: Store, top: nat, reg: nat, e: Expr, thenFirst: nat, elseFirst: nat, hasFirst: bool,
                                      thenLabel: nat, elseLabel: nat, hasNext: bool, t: nat, f: nat, end: nat)
    requires LabelsOk(st) && (e.And? || e.Or?)
    ensures var x := Inner(NewLabels(st, 1), top, reg, e.left, thenFirst, elseFirst, hasFirst, t, f, end);
            var y := Inner(SetLabel(x.st, st.next), top, reg, e.right, thenLabel, elseLabel, hasNext, t, f, end);
            Extends(st, y.st) && y.st.code != []
    decreases e, 2
  {
    var next := st.next;
    SelfExtends(st, 1);
    InnerExtends(NewLabels(st, 1), top, reg, e.left, thenFirst, elseFirst, hasFirst, t, f, end);
    var x := Inner(NewLabels(st, 1), top, reg, e.left, thenFirst, elseFirst, hasFirst, t, f, end);
    ExtendsTrans(st, NewLabels(st, 1), x.st);
    LabelExtends(st, x.st, next);
    InnerExtends(SetLabel(x.st, next), top, reg, e.right, thenLabel, elseLabel, hasNext, t, f, end);
    ExtendsTrans(st, SetLabel(x.st, next), Inner(SetLabel(x.st, next), top, reg, e.right, thenLabel, elseLabel, hasNext, t, f, end).st);
  }

  lemma {:induction false} InnerExtends(st: Store, top: nat, reg: nat, e: Expr, thenLabel: nat, elseLabel: nat, hasNext: bool, t: nat, f: nat, end: nat)
    requires LabelsOk(st)
    ensures Extends(st, Inner(st, top, reg, e, thenLabel, elseLabel, hasNext, t, f, end).st)
    ensures Inner(st, top, reg, e, thenLabel, elseLabel, hasNext, t, f, end).st.code != []
    decreases e, 3
  {
    match e {
      case FalseExpr => InnerConstantExtends(st, top, reg, e, thenLabel, elseLabel, hasNext, t, f, end);
      case TrueExpr => InnerConstantExtends(st, top, reg, e, thenLabel, elseLabel, hasNext, t, f, end);
      case NilExpr => InnerConstantExtends(st, top, reg, e, thenLabel, elseLabel, hasNext, t, f, end);
      case Const(_) => InnerConstantExtends(st, top, reg, e, thenLabel, elseLabel, hasNext, t, f, end);
      case And(l, r) =>
        BothExtend(st, top, reg, e, st.next, elseLabel, false, thenLabel, elseLabel, hasNext, t, f, end);
      case Or(l, r) =>
        BothExtend(st, top, reg, e, thenLabel, st.next, true, thenLabel, elseLabel, hasNext, t, f, end);
      case Rel(_, _, _) =>
        RelExtends(st, top, reg, e, hasNext, if thenLabel == end then t else if elseLabel == end then f else if hasNext then thenLabel else elseLabel);
      case _ => InnerLeafExtends(st, top, reg, e, thenLabel, elseLabel, hasNext, t, f, end);
    }
  }

  lemma {:induction false} TwoExtends(st: Store, st': Store, i: Inst, j: Inst)
    requires Extends(st, st')
    ensures Extends(st, Emit(Emit(st', i), j))
  {
    EmitExtends(st, st', i);
    EmitExtends(st, Emit(st', i), j);
  }

  ghost predicate Leaf(e: Expr) {
    e.Local? || e.Global? || e.Upvalue? || e.Not?
  }

  lemma {:induction false} InnerLeafExtends(st: Store, top: nat, reg: nat, e: Expr, thenLabel: nat, elseLabel: nat, hasNext: bool, t: nat, f: nat, end: nat)
    requires LabelsOk(st) && Leaf(e)
    ensures Extends(st, Inner(st, top, reg, e, thenLabel, elseLabel, hasNext, t, f, end).st)
    decreases e, 2
  {
    SelfExtends(st, 0);
    ExprExtends(st, top, reg, e);
    var jump := if hasNext then thenLabel else elseLabel;
    if e.Local? && (elseLabel == end || (thenLabel == end && hasNext)) {
      TwoExtends(st, st, if reg == e.r then Test(reg, hasNext) else TestSet(reg, e.r, hasNext), Jmp(jump));
    } else {
      TwoExtends(st, CompileExpr(st, top, reg, e), if hasNext then TestSet(reg, reg, hasNext) else Test(reg, hasNext), Jmp(jump));
    }
  }

  /** The last operand ends in a jump, to the end unless it uses the loads of false
      and true, and may be cut before that jump. */
  ghost predicate EndsInJump(st: Store, y: Part, end: nat) {
    && Extends(st, y.st) && |y.st.code| > 1 && Last(y.st).Jmp? && Extends(st, Pop(y.st))
    && (!y.bools ==> Last(y.st) == Jmp(end))
  }

  lemma {:induction false} OuterExtends(st: Store, top: nat, reg: nat, e: Expr, t: nat, f: nat, end: nat)
    requires LabelsOk(st) && st.code != []
    ensures EndsInJump(st, Outer(st, top, reg, e, t, f, end), end)
    decreases e, 3
  {
    match e {
      case And(l, r) =>
        InnerExtends(NewLabels(st, 1), top, reg, l, st.next, end, false, t, f, end);
        OuterStep(st, Inner(NewLabels(st, 1), top, reg, l, st.next, end, false, t, f, end), top, reg, r, t, f, end);
      case Or(l, r) =>
        InnerExtends(NewLabels(st, 1), top, reg, l, end, st.next, true, t, f, end);
        OuterStep(st, Inner(NewLabels(st, 1), top, reg, l, end, st.next, true, t, f, end), top, reg, r, t, f, end);
      case Rel(_, _, _) => RelExtends(st, top, reg, e, true, t);
      case _ => OuterSimple(st, top, reg, e, t, f, end);
    }
  }

  lemma {:induction false} OuterSimple(st: Store, top: nat, reg: nat, e: Expr, t: nat, f: nat, end: nat)
    requires LabelsOk(st) && st.code != [] && !e.And? && !e.Or? && !e.Rel?
    ensures EndsInJump(st, Outer(st, top, reg, e, t, f, end), end)
    decreases e, 2
  {
    if e.TrueExpr? || e.FalseExpr? {
      SelfExtends(st, 0);
      OuterLeafExtends(st, st, reg, if e.TrueExpr? then t else f);
    } else {
      var st1, y := CompileExpr(st, top, reg, e), Outer(st, top, reg, e, t, f, end);
      ExprExtends(st, top, reg, e);
      OuterLeafExtends(st, st1, reg, end);
      OuterValue(st, top, reg, e, t, f, end, st1);
      OuterEnds(st, st1, y, reg, end);
    }
  }

  lemma {:induction false} OuterValue(st: Store, top: nat, reg: nat, e: Expr, t: nat, f: nat, end: nat, st1: Store)
    requires !e.And? && !e.Or? && !e.Rel? && !e.TrueExpr? && !e.FalseExpr? && st1 == CompileExpr(st, top, reg, e)
    ensures var y := Outer(st, top, reg, e, t, f, end); !y.bools && (y.st == Emit(st1, Jmp(end)) || y.st == Emit(Emit(st1, Move(reg, reg)), Jmp(end)))
  {
  }

  lemma {:induction false} OuterEnds(st: Store, st1: Store, y: Part, reg: nat, end: nat)
    requires LabelsOk(st) && st.code != [] && Extends(st, st1) && (y.st == Emit(st1, Jmp(end)) || y.st == Emit(Emit(st1, Move(reg, reg)), Jmp(end)))
    ensures EndsInJump(st, y, end)
  {
    OuterLeafExtends(st, st1, reg, end);
  }

  /** The two ways in which the last operand moves its value and goes to the end. */
  lemma {:induction false} OuterLeafExtends(st: Store, st1: Store, reg: nat, end: nat)
    requires Extends(st, st1)
    ensures var y := Emit(st1, Jmp(end)); Extends(st, y) && Last(y) == Jmp(end) && Extends(st, Pop(y))
    ensures var y := Emit(Emit(st1, Move(reg, reg)), Jmp(end)); Extends(st, y) && Last(y) == Jmp(end) && Extends(st, Pop(y))
  {
    EmitExtends(st, st1, Jmp(end));
    PopEmit(st1, Jmp(end));
    EmitExtends(st, st1, Move(reg, reg));
    TwoExtends(st, st1, Move(reg, reg), Jmp(end));
    PopEmit(Emit(st1, Move(reg, reg)), Jmp(end));
  }

  lemma {:induction false} OuterStep(st: Store, x: Part, top: nat, reg: nat, e: Expr, t: nat, f: nat, end: nat)
    requires LabelsOk(st) && st.code != [] && Extends(NewLabels(st, 1), x.st) && x.st.code != []
    ensures var y := Outer(SetLabel(x.st, st.next), top, reg, e, t, f, end);
            EndsInJump(st, y, end) && EndsInJump(st, Part(y.st, x.bools || y.bools), end)
    decreases e, 4
  {
    SelfExtends(st, 1);
    ExtendsTrans(st, NewLabels(st, 1), x.st);
    LabelExtends(st, x.st, st.next);
    var st1 := SetLabel(x.st, st.next);
    OuterExtends(st1, top, reg, e, t, f, end);
    var y := Outer(st1, top, reg, e, t, f, end);
    ExtendsTrans(st, st1, y.st);
    ExtendsTrans(st, st1, Pop(y.st));
  }

  lemma {:induction false} BranchExtends(st: Store, top: nat, reg: nat, e: Expr, thenLabel: nat, elseLabel: nat, hasNext: bool)
    requires LabelsOk(st)
    ensures Extends(st, Branch(st, top, reg, e, thenLabel, elseLabel, hasNext))
    decreases e, 3
  {
    SelfExtends(st, 0);
    var jump := if hasNext then thenLabel else elseLabel;
    if (e.FalseExpr? || e.NilExpr?) && !hasNext {
      EmitExtends(st, st, Jmp(elseLabel));
    } else if (e.TrueExpr? || e.Const?) && !hasNext {
    } else {
      match e {
        case Not(x) => BranchExtends(st, top, reg, x, elseLabel, thenLabel, !hasNext);
        case And(l, r) =>
          BranchExtends(NewLabels(st, 1), top, reg, l, st.next, elseLabel, false);
          BranchStep(st, Branch(NewLabels(st, 1), top, reg, l, st.next, elseLabel, false), top, reg, r, thenLabel, elseLabel, hasNext);
        case Or(l, r) =>
          BranchExtends(NewLabels(st, 1), top, reg, l, thenLabel, st.next, true);
          BranchStep(st, Branch(NewLabels(st, 1), top, reg, l, thenLabel, st.next, true), top, reg, r, thenLabel, elseLabel, hasNext);
        case Rel(_, _, _) => RelExtends(st, top, reg, e, hasNext, jump);
        case _ =>
          OperandExtends(st, top, reg, e);
          var o := PropagateMV(CompileExpr(st, top, reg, e), top, reg);
          TwoExtends(st, o.st, Test(o.rk.r, hasNext), Jmp(jump));
      }
    }
  }

  lemma {:induction false} BranchStep(st: Store, st1: Store, top: nat, reg: nat, e: Expr, thenLabel: nat, elseLabel: nat, hasNext: bool)
    requires LabelsOk(st) && Extends(NewLabels(st, 1), st1)
    ensures Extends(st, Branch(SetLabel(st1, st.next), top, reg, e, thenLabel, elseLabel, hasNext))
    decreases e, 4
  {
    SelfExtends(st, 1);
    ExtendsTrans(st, NewLabels(st, 1), st1);
    LabelExtends(st, st1, st.next);
    BranchExtends(SetLabel(st1, st.next), top, reg, e, thenLabel, elseLabel, hasNext);
    ExtendsTrans(st, SetLabel(st1, st.next), Branch(SetLabel(st1, st.next), top, reg, e, thenLabel, elseLabel, hasNext));
  }
}
