/**
 The code store of a function and the compilation of conditions into it, in place
 (compile.go). Every method does to the store what the functions of `Conditions`
 say.
 */
module ConditionCompiler {
  import opened Conditions

  class FuncContext {
    var codes: seq<Inst>
    var pc: nat
    var lastTarget: int
    var labelPc: map<nat, int>
    var labelId: nat
    const top: nat

    constructor (regTop: nat)
      ensures Valid() && View() == Store([], map[], 0, -1) && top == regTop
    {
      codes, pc, lastTarget, labelPc, labelId, top := [], 0, -1, map[], 0, regTop;
    }

    predicate Valid()
      reads this
    {
      pc <= |codes|
    }

    /** The instructions below `pc` count; popped ones may stay behind them. */
    function View(): Store
      reads this
      requires Valid()
    {
      Store(codes[..pc], labelPc, labelId, lastTarget)
    }

    method Add(i: Inst)
      requires Valid()
      modifies `codes, `pc
      ensures Valid() && View() == Emit(old(View()), i)
    {
      if pc == |codes| {
        codes := codes + [i];
      } else {
        codes := codes[pc := i];
      }
      pc := pc + 1;
    }

    method DropLast()
      requires Valid() && pc > 0
      modifies `pc
      ensures Valid() && View() == Pop(old(View()))
    {
      pc := pc - 1;
      assert codes[..pc] == old(codes[..pc])[..pc];
    }

    method NewLabel() returns (l: nat)
      requires Valid()
      modifies `labelId
      ensures l == old(View()).next && View() == NewLabels(old(View()), 1)
    {
      l := labelId;
      labelId := labelId + 1;
    }

    method SetLabelPc(l: nat)
      requires Valid()
      modifies `labelPc, `lastTarget
      ensures View() == SetLabel(old(View()), l)
    {
      labelPc := labelPc[l := pc - 1];
      if pc - 1 > lastTarget {
        lastTarget := pc - 1;
      }
    }

    method LoadNilAt(reg: nat)
      requires Valid()
      modifies `codes, `pc
      ensures Valid() && View() == AddLoadNil(old(View()), reg)
    {
      if pc > 0 && codes[pc - 1].LoadNil? && codes[pc - 1].b + 1 == reg && pc - 1 > lastTarget {
        codes := codes[pc - 1 := LoadNil(codes[pc - 1].a, reg)];
      } else {
        Add(LoadNil(reg, reg));
      }
    }

    method FoldMove(reg: nat) returns (save: nat, next: nat)
      requires Valid()
      modifies `pc
      ensures Valid() && Operand(View(), Reg(save), next) == PropagateMV(old(View()), top, reg)
    {
      if pc > 0 && codes[pc - 1].Move? && codes[pc - 1].a >= top && pc - 1 > lastTarget {
        save, next := codes[pc - 1].b, reg;
        DropLast();
      } else {
        save, next := reg, reg + 1;
      }
    }

    method FoldConstantOrMove(reg: nat) returns (save: RK, next: nat)
      requires Valid()
      modifies `pc
      ensures Valid() && Operand(View(), save, next) == PropagateKMV(old(View()), top, reg)
    {
      if pc > 0 && codes[pc - 1].LoadK? && codes[pc - 1].a >= top && pc - 1 > lastTarget && codes[pc - 1].bx <= MAX_RK {
        save, next := Kst(codes[pc - 1].bx), reg;
        DropLast();
      } else {
        var r;
        r, next := FoldMove(reg);
        save := Reg(r);
      }
    }

    method Comparison(reg: nat, e: Expr, flip: bool, target: nat)
      requires Valid() && e.Rel?
      modifies this
      ensures Valid() && View() == RelCode(old(View()), top, reg, e, flip, target) && labelId >= old(labelId)
      decreases e, 0
    {
      Value(reg, e.left);
      var b, reg1 := FoldConstantOrMove(reg);
      Value(reg1, e.right);
      var c, reg2 := FoldConstantOrMove(reg1);
      Add(RelInst(e.op, flip, b, c));
      Add(Jmp(target));
    }

    /** `compileExpr` for an expression whose value goes to `reg`. */
    method Value(reg: nat, e: Expr)
      requires Valid()
      modifies this
      ensures Valid() && View() == CompileExpr(old(View()), top, reg, e) && labelId >= old(labelId)
      decreases e, 2
    {
      match e {
        case NilExpr => LoadNilAt(reg);
        case TrueExpr => Add(LoadBool(reg, true, false));
        case FalseExpr => Add(LoadBool(reg, false, false));
        case Const(k) => Add(LoadK(reg, k));
        case Local(r) => Add(Move(reg, r));
        case Global(name) => Add(GetGlobal(reg, name));
        case Upvalue(u) => Add(GetUpval(reg, u));
        case Not(x) =>
          if x.TrueExpr? {
            Add(LoadBool(reg, false, false));
          } else if x.FalseExpr? || x.NilExpr? {
            Add(LoadBool(reg, true, false));
          } else {
            Value(reg, x);
            var b, _ := FoldMove(reg);
            Add(NotOp(reg, b));
          }
        case Rel(_, _, _) =>
          var over := NewLabel();
          Comparison(reg, e, true, over);
          Add(LoadBool(reg, false, true));
          SetLabelPc(over);
          Add(LoadBool(reg, true, false));
        case And(_, _) => LogicalValue(reg, e);
        case Or(_, _) => LogicalValue(reg, e);
      }
    }

    method LogicalValue(reg: nat, e: Expr)
      requires Valid() && (e.And? || e.Or?)
      modifies this
      ensures Valid() && View() == LogicalCode(old(View()), top, reg, e) && labelId >= old(labelId)
      decreases e, 1
    {
      ghost var st := View();
      var end, t, f, next := FourLabels();
      var bools := FirstOperand(reg, e, next, t, f, end);
      ghost var x := FirstPart(NewLabels(st, 4), top, reg, e, t, f, end, next);
      SetLabelPc(next);
      ghost var y := LastPart(View(), top, reg, e, t, f, end);
      bools := LastOperand(reg, e, t, f, end, bools);
      assert View() == y.st && bools == (x.bools || y.bools);
      Close(reg, bools, t, f, end);
      LogicalCodeIs(st, top, reg, e, x, y);
    }

    method LastOperand(reg: nat, e: Expr, t: nat, f: nat, end: nat, bools: bool) returns (r: bool)
      requires Valid() && (e.And? || e.Or?) && end < labelId
      modifies this
      ensures Valid() && labelId >= old(labelId)
      ensures var y := LastPart(old(View()), top, reg, e, t, f, end); View() == y.st && r == (bools || y.bools)
      decreases e, 0
    {
      r := Part(reg, e.right, end, end, false, t, f, end, bools);
    }

    method FourLabels() returns (end: nat, t: nat, f: nat, next: nat)
      requires Valid()
      modifies `labelId
      ensures end == old(labelId) && t == end + 1 && f == end + 2 && next == end + 3 && View() == NewLabels(old(View()), 4)
    {
      end := NewLabel();
      t := NewLabel();
      f := NewLabel();
      next := NewLabel();
    }

    method FirstOperand(reg: nat, e: Expr, next: nat, t: nat, f: nat, end: nat) returns (bools: bool)
      requires Valid() && (e.And? || e.Or?) && next != end && next < labelId && end < labelId
      modifies this
      ensures Valid() && labelId >= old(labelId)
      ensures var x := FirstPart(old(View()), top, reg, e, t, f, end, next); View() == x.st && bools == x.bools
      decreases e, 0
    {
      if e.And? {
        bools := Part(reg, e.left, next, end, false, t, f, end, false);
      } else {
        bools := Part(reg, e.left, end, next, true, t, f, end, false);
      }
    }

    method Close(reg: nat, bools: bool, t: nat, f: nat, end: nat)
      requires Valid()
      modifies this
      ensures Valid() && View() == Finish(old(View()), reg, bools, t, f, end) && labelId == old(labelId)
    {
      if bools {
        SetLabelPc(f);
        Add(LoadBool(reg, false, true));
        SetLabelPc(t);
        Add(LoadBool(reg, true, false));
      }
      if pc > 0 && codes[pc - 1] == Jmp(end) {
        DropLast();
      }
      SetLabelPc(end);
    }

    /** `compileLogicalOpExprAux`: an operand that comes last has the end for both of
        its labels. */
    method Part(reg: nat, e: Expr, thenLabel: nat, elseLabel: nat, hasNext: bool, t: nat, f: nat, end: nat, bools: bool) returns (r: bool)
      requires Valid() && (thenLabel == elseLabel ==> thenLabel == end && !hasNext) && thenLabel < labelId && elseLabel < labelId
      modifies this
      ensures Valid() && labelId >= old(labelId)
      ensures var x := if thenLabel == elseLabel then Outer(old(View()), top, reg, e, t, f, end)
                       else Inner(old(View()), top, reg, e, thenLabel, elseLabel, hasNext, t, f, end);
              View() == x.st && r == (bools || x.bools)
      decreases e, 4
    {
      r := bools;
      var jump := if hasNext then thenLabel else elseLabel;
      match e {
        case FalseExpr =>
          if elseLabel == end {
            Add(Jmp(f));
            r := true;
          } else {
            Add(Jmp(elseLabel));
          }
        case NilExpr =>
          if elseLabel == end {
            Value(reg, e);
            Add(Jmp(end));
          } else {
            Add(Jmp(elseLabel));
          }
        case TrueExpr =>
          if thenLabel == end {
            Add(Jmp(t));
            r := true;
          } else {
            Add(Jmp(thenLabel));
          }
        case Const(_) =>
          if thenLabel == end {
            Value(reg, e);
            Add(Jmp(end));
          } else {
            Add(Jmp(thenLabel));
          }
        case And(_, _) => r := PartLogical(reg, e, thenLabel, elseLabel, hasNext, t, f, end, r);
        case Or(_, _) => r := PartLogical(reg, e, thenLabel, elseLabel, hasNext, t, f, end, r);
        case Rel(_, _, _) =>
          var flip := hasNext;
          if thenLabel == elseLabel {
            flip, jump, r := !flip, t, true;
          } else if thenLabel == end {
            jump, r := t, true;
          } else if elseLabel == end {
            jump, r := f, true;
          }
          Comparison(reg, e, flip, jump);
        case _ => PartLeaf(reg, e, thenLabel, elseLabel, hasNext, end, jump);
      }
    }

    /** `and` and `or` inside a logical value. */
    method PartLogical(reg: nat, e: Expr, thenLabel: nat, elseLabel: nat, hasNext: bool, t: nat, f: nat, end: nat, bools: bool) returns (r: bool)
      requires Valid() && (e.And? || e.Or?) && (thenLabel == elseLabel ==> thenLabel == end && !hasNext) && thenLabel < labelId && elseLabel < labelId
      modifies this
      ensures Valid() && labelId >= old(labelId)
      ensures var x := if thenLabel == elseLabel then Outer(old(View()), top, reg, e, t, f, end)
                       else Inner(old(View()), top, reg, e, thenLabel, elseLabel, hasNext, t, f, end);
              View() == x.st && r == (bools || x.bools)
      decreases e, 3
    {
      var next := NewLabel();
      if e.And? {
        r := Part(reg, e.left, next, elseLabel, false, t, f, end, bools);
      } else {
        r := Part(reg, e.left, thenLabel, next, true, t, f, end, bools);
      }
      SetLabelPc(next);
      r := Part(reg, e.right, thenLabel, elseLabel, hasNext, t, f, end, r);
    }

    /** Operands that are tested, or that come last and are moved. */
    method PartLeaf(reg: nat, e: Expr, thenLabel: nat, elseLabel: nat, hasNext: bool, end: nat, jump: nat)
      requires Valid() && (e.Local? || e.Global? || e.Upvalue? || e.Not?) && jump == (if hasNext then thenLabel else elseLabel)
      requires thenLabel == elseLabel ==> thenLabel == end && !hasNext
      modifies this
      ensures Valid() && labelId >= old(labelId)
      ensures forall t, f :: View() == if thenLabel == elseLabel then Outer(old(View()), top, reg, e, t, f, end).st
                                       else Inner(old(View()), top, reg, e, thenLabel, elseLabel, hasNext, t, f, end).st
      decreases e, 3
    {
      var isLastAnd := elseLabel == end && thenLabel != elseLabel;
      var isLastOr := thenLabel == end && hasNext;
      if e.Local? && (isLastAnd || isLastOr) {
        Add(if reg == e.r then Test(reg, hasNext) else TestSet(reg, e.r, hasNext));
      } else if !hasNext && thenLabel == elseLabel {
        Value(reg, e);
        if !(pc > 0 && codes[pc - 1].Move? && codes[pc - 1].a == reg) {
          Add(Move(reg, reg));
        }
      } else {
        Value(reg, e);
        Add(if hasNext then TestSet(reg, reg, hasNext) else Test(reg, hasNext));
      }
      Add(Jmp(jump));
    }

    /** `compileBranchCondition`. */
    method BranchCondition(reg: nat, e: Expr, thenLabel: nat, elseLabel: nat, hasNext: bool)
      requires Valid()
      modifies this
      ensures Valid() && View() == Branch(old(View()), top, reg, e, thenLabel, elseLabel, hasNext)
      decreases e, 4
    {
      var jump := if hasNext then thenLabel else elseLabel;
      if (e.FalseExpr? || e.NilExpr?) && !hasNext {
        Add(Jmp(elseLabel));
      } else if (e.TrueExpr? || e.Const?) && !hasNext {
      } else {
        match e {
          case Not(x) => BranchCondition(reg, x, elseLabel, thenLabel, !hasNext);
          case And(l, r) =>
            var next := NewLabel();
            BranchCondition(reg, l, next, elseLabel, false);
            SetLabelPc(next);
            BranchCondition(reg, r, thenLabel, elseLabel, hasNext);
          case Or(l, r) =>
            var next := NewLabel();
            BranchCondition(reg, l, thenLabel, next, true);
            SetLabelPc(next);
            BranchCondition(reg, r, thenLabel, elseLabel, hasNext);
          case Rel(_, _, _) => Comparison(reg, e, hasNext, jump);
          case _ =>
            Value(reg, e);
            var a, _ := FoldMove(reg);
            Add(Test(a, hasNext));
            Add(Jmp(jump));
        }
      }
    }
  }
}
