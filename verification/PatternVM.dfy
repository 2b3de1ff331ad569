/** The backtracking machine's run loop (pm/pm.go). */
module PatternVM {
  import opened PatternSyntax
  import opened PatternSemantics
  import opened PatternMachine

  const MAX_BACKTRACKS: nat := 100000

  /** A backtrack point: where to go on, and with which captures. */
  datatype Thread = Thread(pc: nat, pos: nat, captures: Captures)

  // ----- what is still to be searched -----

  predicate ThreadOk(prog: Insts, src: Subject, t: Thread) {
    t.pc < |prog| && t.pos <= |src|
  }

  predicate StackOk(prog: Insts, src: Subject, stack: seq<Thread>) {
    forall i :: 0 <= i < |stack| ==> ThreadOk(prog, src, stack[i])
  }

  function Search(prog: Insts, src: Subject, t: Thread): Tree
    requires WellFormed(prog) && ThreadOk(prog, src, t)
  {
    Denote(prog, src, t.pc, State(t.pos, t.captures))
  }

  /** The current search followed by those on the stack, from the top down. */
  function Pending(prog: Insts, src: Subject, current: Tree, stack: seq<Thread>): (t: Tree)
    requires WellFormed(prog) && StackOk(prog, src, stack)
    decreases |stack|
  {
    if stack == [] then current
    else
      var top := stack[|stack| - 1];
      Choice(current, Pending(prog, src, Search(prog, src, top), stack[..|stack| - 1]))
  }

  function Size(t: Tree): nat {
    match t
    case Choice(a, b) => 1 + Size(a) + Size(b)
    case _ => 1
  }

  /** Two searches that end in the same way after the same number of failures. */
  ghost predicate SameSearch(a: Tree, b: Tree) {
    First(a) == First(b) && Deads(a) == Deads(b)
  }

  lemma {:induction false} PendingPush(prog: Insts, src: Subject, a: Tree, stack: seq<Thread>, t: Thread)
    requires WellFormed(prog) && StackOk(prog, src, stack) && ThreadOk(prog, src, t)
    ensures StackOk(prog, src, stack + [t])
    ensures var b := Search(prog, src, t);
            && SameSearch(Pending(prog, src, Choice(a, b), stack), Pending(prog, src, a, stack + [t]))
            && Size(Pending(prog, src, a, stack + [t])) <= Size(Pending(prog, src, Choice(a, b), stack))
  {
    assert (stack + [t])[..|stack|] == stack;
  }

  lemma {:induction false} PendingPop(prog: Insts, src: Subject, stack: seq<Thread>)
    requires WellFormed(prog) && StackOk(prog, src, stack) && stack != []
    ensures var top := stack[|stack| - 1];
            var rest := Pending(prog, src, Search(prog, src, top), stack[..|stack| - 1]);
            var all := Pending(prog, src, Dead, stack);
            && First(all) == First(rest) && Deads(all) == 1 + Deads(rest) && Size(rest) < Size(all)
  {
  }

  lemma {:induction false} PendingLive(prog: Insts, src: Subject, st: State, stack: seq<Thread>)
    requires WellFormed(prog) && StackOk(prog, src, stack)
    ensures var t := Pending(prog, src, Live(st), stack); First(t) == Some(st) && Deads(t) == 0
  {
  }

  // ----- the tests that loop over the subject -----

  method MatchBraceLoop(open: int, close: int, src: Subject, start: nat) returns (ok: bool, end: nat)
    requires start <= |src|
    ensures MatchBrace(open, close, src, start) == if ok then Some(end) else None
    ensures ok ==> end <= |src|
  {
    if start >= |src| || src[start] != open {
      return false, start;
    }
    var count := 1;
    end := start + 1;
    while end < |src|
      invariant start < end <= |src| && count >= 1
      invariant MatchBrace(open, close, src, start) == BraceEnd(open, close, src, end, count)
    {
      if src[end] == close {
        count := count - 1;
        if count == 0 {
          return true, end + 1;
        }
      } else if src[end] == open {
        count := count + 1;
      }
      end := end + 1;
    }
    return false, end;
  }

  // ----- the machine -----

  class Machine {
    const src: Subject
    const insts: Insts
    var captures: Captures
    var stack: seq<Thread>

    constructor (src: Subject, insts: Insts)
      ensures this.src == src && this.insts == insts && stack == []
    {
      this.src, this.insts, captures, stack := src, insts, [], [];
    }

    method MatchBackRefHere(index: nat, pos: nat) returns (ok: bool, end: nat)
      ensures MatchBackRef(index, src, State(pos, captures)) == if ok then Some(end) else None
      ensures ok ==> end <= |src|
    {
      var slot := index * 2;
      if slot + 1 >= |captures| {
        return false, pos;
      }
      var from, to := MarkPos(captures[slot]), MarkPos(captures[slot + 1]);
      if from > to || to > |src| || pos + (to - from) > |src| {
        return false, pos;
      }
      ok, end := src[from..to] == src[pos..pos + (to - from)], pos + (to - from);
    }

    /** Takes the latest backtrack point, unless there is none or the limit is
        exceeded. */
    method Backtrack(backtracks: nat) returns (ok: bool, pc: nat, pos: nat, backtracks': nat)
      modifies this
      ensures backtracks' == backtracks + 1
      ensures ok <==> backtracks' <= MAX_BACKTRACKS && old(stack) != []
      ensures ok ==> old(stack) == stack + [Thread(pc, pos, captures)]
      ensures !ok ==> stack == []
    {
      pc, pos, backtracks' := 0, 0, backtracks + 1;
      if backtracks' > MAX_BACKTRACKS || |stack| == 0 {
        stack := [];
        return false, pc, pos, backtracks';
      }
      var t := stack[|stack| - 1];
      stack := stack[..|stack| - 1];
      captures := t.captures;
      return true, t.pc, t.pos, backtracks';
    }

    /** Executes one instruction; `failed` asks for a backtrack. */
    method Execute(pc: nat, pos: nat) returns (failed: bool, accepted: bool, pc': nat, pos': nat)
      requires WellFormed(insts) && pc < |insts| && pos <= |src|
      modifies this
      ensures match Step(insts[pc], src, pc, State(pos, old(captures)))
              case Fail => failed && !accepted && captures == old(captures) && stack == old(stack)
              case Accept => !failed && accepted && pos' == pos && captures == old(captures) && stack == old(stack)
              case Goto(next, st) => !failed && !accepted && pc' == next && State(pos', captures) == st && stack == old(stack)
              case Fork(a, b) => !failed && !accepted && pc' == a && pos' == pos && captures == old(captures)
                                 && stack == old(stack) + [Thread(b, pos, captures)]
    {
      failed, accepted, pc', pos' := false, false, pc + 1, pos;
      match insts[pc]
      case OpChar(cls) =>
        if pos >= |src| || !Matches(cls, src[pos]) {
          failed := true;
        } else {
          pos' := pos + 1;
        }
      case OpMatch =>
        accepted := true;
      case OpTailMatch =>
        if pos >= |src| {
          accepted := true;
        } else {
          failed := true;
        }
      case OpJmp(t) =>
        pc' := t;
      case OpSplit(a, b) =>
        stack := stack + [Thread(b, pos, captures)];
        pc' := a;
      case OpSave(slot) =>
        captures := SetCapture(captures, slot, pos);
      case OpPSave(slot) =>
        captures := AddPosCapture(captures, slot, pos + 1);
      case OpBrace(open, close) =>
        var ok, end := MatchBraceLoop(open, close, src, pos);
        if ok {
          pos' := end;
        } else {
          failed := true;
        }
      case OpNumber(index) =>
        var ok, end := MatchBackRefHere(index, pos);
        if ok {
          pos' := end;
        } else {
          failed := true;
        }
    }

    /** Runs the program.  The machine accepts exactly the first outcome of the
        search, provided the limit allows the failures that come before it. */
    method Run(start: nat, from: nat) returns (ok: bool, end: nat)
      requires WellFormed(insts) && start < |insts| && from <= |src| && stack == []
      modifies this
      ensures stack == []
      ensures var t := Denote(insts, src, start, State(from, old(captures)));
              && (ok <==> First(t).Some? && Deads(t) <= MAX_BACKTRACKS)
              && (ok ==> First(t) == Some(State(end, captures)))
    {
      var pc: nat, pos: nat, backtracks: nat := start, from, 0;
      ghost var root := Denote(insts, src, start, State(from, captures));
      ghost var now := root;
      while true
        invariant pc < |insts| && pos <= |src| && StackOk(insts, src, stack) && backtracks <= MAX_BACKTRACKS
        invariant now == Pending(insts, src, Denote(insts, src, pc, State(pos, captures)), stack)
        invariant First(root) == First(now) && Deads(root) == backtracks + Deads(now)
        decreases Size(now), |src| - pos, Rank(insts, pc)
      {
        StepDecreases(insts, src, pc, State(pos, captures));
        ghost var before, st := stack, State(pos, captures);
        ghost var here := Denote(insts, src, pc, st);
        var failed, accepted, pc', pos' := Execute(pc, pos);
        if accepted {
          PendingLive(insts, src, st, before);
          stack := [];
          return true, pos';
        }
        if failed {
          assert here == Dead;
          ok, pc', pos', backtracks := Backtrack(backtracks);
          if !ok {
            return false, pos;
          }
          PendingPop(insts, src, before);
          assert before[|before| - 1] == Thread(pc', pos', captures);
          assert stack == before[..|before| - 1];
        } else if stack != before {
          PendingPush(insts, src, Denote(insts, src, pc', st), before, stack[|stack| - 1]);
        }
        pc, pos := pc', pos';
        now := Pending(insts, src, Denote(insts, src, pc, State(pos, captures)), stack);
      }
    }
  }
}
