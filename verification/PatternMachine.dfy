/**
 The backtracking machine (pm/pm.go) and its agreement with the ordered
 semantics of pattern trees.

 `Denote` gives a program counter and a state their search tree: all branches
 in the order in which the machine tries them.  It is defined for programs
 whose backward jumps all follow a consumed byte.
 */
module PatternMachine {
  import opened PatternSyntax
  import opened PatternSemantics
  import opened PatternCompiler

  type Insts = seq<Instruction>

  // ----- programs that always terminate -----

  /** The instruction jumps backward. */
  predicate Back(prog: Insts, pc: nat)
    requires pc < |prog|
  {
    match prog[pc]
    case OpJmp(t) => t <= pc
    case OpSplit(a, _) => a <= pc
    case _ => false
  }

  /** A place that can be entered without consuming a byte. */
  predicate Enterable(prog: Insts, pc: nat) {
    pc < |prog| && !Back(prog, pc)
  }

  /** Every successor exists, and a successor reached without consuming a byte
      is not itself a backward jump. */
  predicate StepOk(prog: Insts, pc: nat)
    requires pc < |prog|
  {
    match prog[pc]
    case OpChar(_) => pc + 1 < |prog|
    case OpMatch => true
    case OpTailMatch => true
    case OpJmp(t) => t <= pc && Enterable(prog, t)
    case OpSplit(a, b) => a != pc && pc < b && Enterable(prog, a) && Enterable(prog, b)
    case _ => Enterable(prog, pc + 1)
  }

  predicate WellFormed(prog: Insts) {
    forall pc :: 0 <= pc < |prog| ==> StepOk(prog, pc)
  }

  /** Decreases on every step that consumes nothing. */
  function Rank(prog: Insts, pc: nat): nat
    requires pc < |prog|
  {
    match prog[pc]
    case OpJmp(t) => if t <= pc then |prog| - t + 1 else |prog| - pc
    case OpSplit(a, _) => if a <= pc then |prog| - a + 1 else |prog| - pc
    case _ => |prog| - pc
  }

  // ----- what a program does -----

  /** The effect of one instruction. */
  datatype Effect = Fail | Accept | Goto(pc: nat, st: State) | Fork(first: nat, second: nat)

  function Step(inst: Instruction, src: Subject, pc: nat, st: State): (e: Effect)
    requires st.pos <= |src|
    ensures e.Goto? ==> st.pos <= e.st.pos <= |src|
  {
    match inst
    case OpChar(cls) => if CharAt(cls, src, st.pos) then Goto(pc + 1, st.(pos := st.pos + 1)) else Fail
    case OpMatch => Accept
    case OpTailMatch => if st.pos >= |src| then Accept else Fail
    case OpJmp(t) => Goto(t, st)
    case OpSplit(a, b) => Fork(a, b)
    case OpSave(slot) => Goto(pc + 1, st.(caps := SetCapture(st.caps, slot, st.pos)))
    case OpPSave(slot) => Goto(pc + 1, st.(caps := AddPosCapture(st.caps, slot, st.pos + 1)))
    case OpBrace(open, close) => GotoEnd(MatchBrace(open, close, src, st.pos), pc, st)
    case OpNumber(index) => GotoEnd(MatchBackRef(index, src, st), pc, st)
  }

  function GotoEnd(end: Option<nat>, pc: nat, st: State): Effect {
    if end.Some? then Goto(pc + 1, st.(pos := end.value)) else Fail
  }

  /** Each step stays in the program, and consumes a byte or lowers the rank. */
  lemma {:induction false} StepDecreases(prog: Insts, src: Subject, pc: nat, st: State)
    requires WellFormed(prog) && pc < |prog| && st.pos <= |src|
    ensures match Step(prog[pc], src, pc, st)
            case Goto(pc', st') => pc' < |prog| && (st'.pos == st.pos ==> Rank(prog, pc') < Rank(prog, pc))
            case Fork(a, b) => a < |prog| && b < |prog| && Rank(prog, a) < Rank(prog, pc) && Rank(prog, b) < Rank(prog, pc)
            case _ => true
  {
    assert StepOk(prog, pc);
  }

  function Denote(prog: Insts, src: Subject, pc: nat, st: State): (t: Tree)
    requires WellFormed(prog) && pc < |prog| && st.pos <= |src|
    decreases |src| - st.pos, Rank(prog, pc)
  {
    StepDecreases(prog, src, pc, st);
    match Step(prog[pc], src, pc, st)
    case Fail => Dead
    case Accept => Live(st)
    case Goto(pc', st') => Denote(prog, src, pc', st')
    case Fork(a, b) => Choice(Denote(prog, src, a, st), Denote(prog, src, b, st))
  }

  /** Continues every outcome of a search at `pc`. */
  function ThenDenote(t: Tree, prog: Insts, src: Subject, pc: nat): (r: Tree)
    requires WellFormed(prog) && pc < |prog| && InBounds(t, src)
  {
    match t
    case Dead => Dead
    case Live(st) => Denote(prog, src, pc, st)
    case Choice(a, b) => Choice(ThenDenote(a, prog, src, pc), ThenDenote(b, prog, src, pc))
  }

  // ----- compiled programs are well formed -----

  predicate CodeAt(prog: Insts, base: nat, code: Insts) {
    base + |code| < |prog| && prog[base..base + |code|] == code
  }

  lemma {:induction false} CodeAtSplit(prog: Insts, base: nat, a: Insts, b: Insts)
    requires CodeAt(prog, base, a + b)
    ensures CodeAt(prog, base, a) && CodeAt(prog, base + |a|, b)
  {
    var m := prog[base..base + |a + b|];
    assert m[..|a|] == a && m[|a|..] == b;
    assert prog[base..base + |a|] == m[..|a|];
    assert prog[base + |a|..base + |a| + |b|] == m[|a|..];
  }

  lemma {:induction false} CodeAtIndex(prog: Insts, base: nat, code: Insts, i: nat)
    requires CodeAt(prog, base, code) && i < |code|
    ensures prog[base + i] == code[i]
  {
    assert prog[base + i] == prog[base..base + |code|][i];
  }

  lemma {:induction false} CapLayout(inner: seq<Pattern>, prog: Insts, base: nat, slot: nat)
    requires CodeAt(prog, base, Code(Cap(inner), base, slot))
    ensures var body := Codes(inner, base + 1, slot + 2);
            && |Code(Cap(inner), base, slot)| == |body| + 2
            && CodeAt(prog, base + 1, body)
            && prog[base] == OpSave(slot) && prog[base + 1 + |body|] == OpSave(slot + 1)
  {
    var body := Codes(inner, base + 1, slot + 2);
    var code := Code(Cap(inner), base, slot);
    assert code == [OpSave(slot)] + (body + [OpSave(slot + 1)]);
    CodeAtIndex(prog, base, code, 0);
    CodeAtSplit(prog, base, [OpSave(slot)], body + [OpSave(slot + 1)]);
    CodeAtSplit(prog, base + 1, body, [OpSave(slot + 1)]);
    CodeAtIndex(prog, base + 1 + |body|, [OpSave(slot + 1)], 0);
  }

  lemma {:induction false} SeqLayout(ps: seq<Pattern>, prog: Insts, base: nat, slot: nat)
    requires ps != [] && CodeAt(prog, base, Codes(ps, base, slot))
    ensures var first := Code(ps[0], base, slot); var rest := Codes(ps[1..], base + |first|, slot + 2 * CapCount(ps[0]));
            && CodeAt(prog, base, first) && CodeAt(prog, base + |first|, rest)
            && |Codes(ps, base, slot)| == |first| + |rest|
  {
    var first := Code(ps[0], base, slot);
    CodeAtSplit(prog, base, first, Codes(ps[1..], base + |first|, slot + 2 * CapCount(ps[0])));
  }

  /** Every step inside the fragment is fine, and it can be entered. */
  predicate FragmentOk(prog: Insts, base: nat, len: nat)
    requires base + len < |prog|
  {
    (forall pc :: base <= pc < base + len ==> StepOk(prog, pc)) && Enterable(prog, base)
  }

  lemma {:induction false} RepeatFragmentOk(kind: Repeat, cls: CharClass, prog: Insts, base: nat)
    requires CodeAt(prog, base, RepeatCode(kind, cls, base))
    requires Enterable(prog, base + |RepeatCode(kind, cls, base)|)
    ensures FragmentOk(prog, base, |RepeatCode(kind, cls, base)|)
  {
    var code := RepeatCode(kind, cls, base);
    forall i | 0 <= i < |code| ensures prog[base + i] == code[i] {
      CodeAtIndex(prog, base, code, i);
    }
    assert prog[base + 0] == code[0] && prog[base + 1] == code[1];
    assert kind.Greedy? || kind.Lazy? ==> prog[base + 2] == code[2];
  }

  lemma {:induction false} CodeFragmentOk(p: Pattern, prog: Insts, base: nat, slot: nat)
    requires CodeAt(prog, base, Code(p, base, slot))
    requires Enterable(prog, base + |Code(p, base, slot)|)
    ensures FragmentOk(prog, base, |Code(p, base, slot)|)
    decreases p
  {
    match p
    case RepeatP(kind, cls) =>
      RepeatFragmentOk(kind, cls, prog, base);
    case Cap(inner) =>
      CapLayout(inner, prog, base, slot);
      CodesFragmentOk(inner, prog, base + 1, slot + 2);
      CodeAtIndex(prog, base, Code(p, base, slot), 0);
    case _ =>
      SimpleFragmentOk(p, prog, base, slot);
  }

  lemma {:induction false} SimpleFragmentOk(p: Pattern, prog: Insts, base: nat, slot: nat)
    requires !p.RepeatP? && !p.Cap? && CodeAt(prog, base, Code(p, base, slot))
    requires Enterable(prog, base + |Code(p, base, slot)|)
    ensures FragmentOk(prog, base, |Code(p, base, slot)|)
  {
    CodeAtIndex(prog, base, Code(p, base, slot), 0);
  }

  lemma {:induction false} CodesFragmentOk(ps: seq<Pattern>, prog: Insts, base: nat, slot: nat)
    requires CodeAt(prog, base, Codes(ps, base, slot))
    requires Enterable(prog, base + |Codes(ps, base, slot)|)
    ensures FragmentOk(prog, base, |Codes(ps, base, slot)|)
    decreases ps
  {
    if ps == [] {
    } else {
      var mid := base + |Code(ps[0], base, slot)|;
      SeqLayout(ps, prog, base, slot);
      CodesFragmentOk(ps[1..], prog, mid, slot + 2 * CapCount(ps[0]));
      CodeFragmentOk(ps[0], prog, base, slot);
    }
  }

  lemma {:induction false} ProgramLayout(pat: SeqPattern)
    ensures var prog := Program(pat); var body := Codes(pat.items, 1, 2);
            && CodeAt(prog, 1, body) && |prog| == |body| + 3
            && prog[0] == OpSave(0) && prog[1 + |body|] == OpSave(1)
            && prog[2 + |body|] == if pat.mustTail then OpTailMatch else OpMatch
  {
  }

  lemma {:induction false} ProgramWellFormed(pat: SeqPattern)
    ensures WellFormed(Program(pat))
  {
    var prog := Program(pat);
    ProgramLayout(pat);
    CodesFragmentOk(pat.items, prog, 1, 2);
  }

  // ----- compiled code denotes the search of the pattern -----

  /** Running from `base` is searching `t` and going on at `end`. */
  ghost predicate Implements(prog: Insts, src: Subject, base: nat, end: nat, st: State, t: Tree) {
    && WellFormed(prog) && base < |prog| && end < |prog| && st.pos <= |src| && InBounds(t, src)
    && Denote(prog, src, base, st) == ThenDenote(t, prog, src, end)
  }

  /** `*` and `-`: the loop of a split, a byte test and a jump back. */
  lemma {:induction false} LoopCorrect(lazy: bool, cls: CharClass, base: nat, prog: Insts, src: Subject, st: State)
    requires WellFormed(prog) && st.pos <= |src|
    requires CodeAt(prog, base, RepeatCode(if lazy then Lazy else Greedy, cls, base))
    ensures Implements(prog, src, base, base + 3, st, RepeatTree(lazy, cls, src, st))
    decreases |src| - st.pos
  {
    var code := RepeatCode(if lazy then Lazy else Greedy, cls, base);
    CodeAtIndex(prog, base, code, 0);
    CodeAtIndex(prog, base, code, 1);
    CodeAtIndex(prog, base, code, 2);
    if CharAt(cls, src, st.pos) {
      var next := st.(pos := st.pos + 1);
      LoopCorrect(lazy, cls, base, prog, src, next);
      assert Denote(prog, src, base + 2, next) == Denote(prog, src, base, next);
    }
  }

  /** `+`: a byte test and a split back to it. */
  lemma {:induction false} PlusCorrect(cls: CharClass, base: nat, prog: Insts, src: Subject, st: State)
    requires WellFormed(prog) && st.pos <= |src|
    requires CodeAt(prog, base, RepeatCode(GreedyPlus, cls, base))
    ensures Implements(prog, src, base, base + 2, st, RepeatItemTree(GreedyPlus, cls, src, st))
    decreases |src| - st.pos
  {
    var code := RepeatCode(GreedyPlus, cls, base);
    CodeAtIndex(prog, base, code, 0);
    CodeAtIndex(prog, base, code, 1);
    if CharAt(cls, src, st.pos) {
      var next := st.(pos := st.pos + 1);
      PlusCorrect(cls, base, prog, src, next);
      assert Denote(prog, src, base + 1, next)
          == Choice(Denote(prog, src, base, next), Denote(prog, src, base + 2, next));
    }
  }

  lemma {:induction false} OptionalCorrect(cls: CharClass, base: nat, prog: Insts, src: Subject, st: State)
    requires WellFormed(prog) && st.pos <= |src|
    requires CodeAt(prog, base, RepeatCode(Optional, cls, base))
    ensures Implements(prog, src, base, base + 2, st, RepeatItemTree(Optional, cls, src, st))
  {
    var code := RepeatCode(Optional, cls, base);
    CodeAtIndex(prog, base, code, 0);
    CodeAtIndex(prog, base, code, 1);
  }

  lemma {:induction false} RepeatCorrect(kind: Repeat, cls: CharClass, base: nat, prog: Insts, src: Subject, st: State)
    requires WellFormed(prog) && st.pos <= |src|
    requires CodeAt(prog, base, RepeatCode(kind, cls, base))
    ensures Implements(prog, src, base, base + |RepeatCode(kind, cls, base)|, st, RepeatItemTree(kind, cls, src, st))
  {
    match kind
    case Greedy => LoopCorrect(false, cls, base, prog, src, st);
    case Lazy => LoopCorrect(true, cls, base, prog, src, st);
    case GreedyPlus => PlusCorrect(cls, base, prog, src, st);
    case Optional => OptionalCorrect(cls, base, prog, src, st);
  }

  /** The save that closes a capture. */
  lemma {:induction false} CloseCorrect(t: Tree, slot: nat, prog: Insts, src: Subject, pc: nat)
    requires WellFormed(prog) && pc + 1 < |prog| && prog[pc] == OpSave(slot) && InBounds(t, src)
    ensures ThenDenote(t, prog, src, pc) == ThenDenote(CloseTree(t, slot, src), prog, src, pc + 1)
  {
    match t
    case Choice(a, b) =>
      CloseCorrect(a, slot, prog, src, pc);
      CloseCorrect(b, slot, prog, src, pc);
    case _ =>
  }

  lemma {:induction false} CapCorrect(base: nat, slot: nat, end: nat, prog: Insts, src: Subject, st: State, body: Tree)
    requires Implements(prog, src, base + 1, end, st.(caps := SetCapture(st.caps, slot, st.pos)), body)
    requires base < end && end + 1 < |prog|
    requires prog[base] == OpSave(slot) && prog[end] == OpSave(slot + 1)
    ensures Implements(prog, src, base, end + 1, st, CloseTree(body, slot + 1, src))
  {
    CloseCorrect(body, slot + 1, prog, src, end);
  }

  /** Items that compile to one instruction. */
  lemma {:induction false} SimpleCorrect(p: Pattern, base: nat, slot: nat, prog: Insts, src: Subject, st: State)
    requires WellFormed(prog) && st.pos <= |src| && !p.RepeatP? && !p.Cap?
    requires CodeAt(prog, base, Code(p, base, slot))
    ensures Implements(prog, src, base, base + 1, st, ItemTree(p, slot, src, st))
  {
    CodeAtIndex(prog, base, Code(p, base, slot), 0);
  }

  lemma {:induction false} CodeCorrect(p: Pattern, base: nat, slot: nat, prog: Insts, src: Subject, st: State)
    requires WellFormed(prog) && st.pos <= |src|
    requires CodeAt(prog, base, Code(p, base, slot))
    ensures Implements(prog, src, base, base + |Code(p, base, slot)|, st, ItemTree(p, slot, src, st))
    decreases p
  {
    match p
    case RepeatP(kind, cls) =>
      RepeatCorrect(kind, cls, base, prog, src, st);
    case Cap(inner) =>
      CapCodeCorrect(inner, base, slot, prog, src, st);
    case _ =>
      SimpleCorrect(p, base, slot, prog, src, st);
  }

  lemma {:induction false} CapCodeCorrect(inner: seq<Pattern>, base: nat, slot: nat, prog: Insts, src: Subject, st: State)
    requires WellFormed(prog) && st.pos <= |src|
    requires CodeAt(prog, base, Code(Cap(inner), base, slot))
    ensures Implements(prog, src, base, base + |Code(Cap(inner), base, slot)|, st, ItemTree(Cap(inner), slot, src, st))
    decreases inner, 2
  {
    CapLayout(inner, prog, base, slot);
    var st1 := st.(caps := SetCapture(st.caps, slot, st.pos));
    var end := base + 1 + |Codes(inner, base + 1, slot + 2)|;
    var body := SeqTree(inner, slot + 2, src, st1);
    CodesCorrect(inner, base + 1, slot + 2, prog, src, st1);
    CapCorrect(base, slot, end, prog, src, st, body);
    assert ItemTree(Cap(inner), slot, src, st) == CloseTree(body, slot + 1, src);
    assert base + |Code(Cap(inner), base, slot)| == end + 1;
  }

  lemma {:induction false} ConsCorrect(prog: Insts, src: Subject, base: nat, mid: nat, end: nat, st: State, t: Tree, t': Tree)
    requires Implements(prog, src, base, mid, st, t) && end < |prog| && InBounds(t', src)
    requires ThenDenote(t, prog, src, mid) == ThenDenote(t', prog, src, end)
    ensures Implements(prog, src, base, end, st, t')
  {
  }

  lemma {:induction false} CodesCorrect(ps: seq<Pattern>, base: nat, slot: nat, prog: Insts, src: Subject, st: State)
    requires WellFormed(prog) && st.pos <= |src|
    requires CodeAt(prog, base, Codes(ps, base, slot))
    ensures Implements(prog, src, base, base + |Codes(ps, base, slot)|, st, SeqTree(ps, slot, src, st))
    decreases ps, 0
  {
    if ps == [] {
    } else {
      SeqLayout(ps, prog, base, slot);
      var t, mid, slot' := ItemTree(ps[0], slot, src, st), base + |Code(ps[0], base, slot)|, slot + 2 * CapCount(ps[0]);
      var end := mid + |Codes(ps[1..], mid, slot')|;
      CodeCorrect(ps[0], base, slot, prog, src, st);
      ThenCodesCorrect(t, ps[1..], mid, slot', prog, src);
      ConsCorrect(prog, src, base, mid, end, st, t, ThenTree(t, ps[1..], slot', src));
      assert SeqTree(ps, slot, src, st) == ThenTree(t, ps[1..], slot', src) && base + |Codes(ps, base, slot)| == end;
    }
  }

  lemma {:induction false} ThenCodesCorrect(t: Tree, ps: seq<Pattern>, base: nat, slot: nat, prog: Insts, src: Subject)
    requires WellFormed(prog) && InBounds(t, src)
    requires CodeAt(prog, base, Codes(ps, base, slot))
    ensures ThenDenote(t, prog, src, base)
         == ThenDenote(ThenTree(t, ps, slot, src), prog, src, base + |Codes(ps, base, slot)|)
    decreases ps, 1, t
  {
    match t
    case Dead =>
    case Live(st) =>
      CodesCorrect(ps, base, slot, prog, src, st);
    case Choice(a, b) =>
      ThenCodesCorrect(a, ps, base, slot, prog, src);
      ThenCodesCorrect(b, ps, base, slot, prog, src);
  }

  /** The final match instruction. */
  lemma {:induction false} MatchCorrect(t: Tree, tail: bool, prog: Insts, src: Subject, pc: nat)
    requires WellFormed(prog) && pc < |prog| && InBounds(t, src)
    requires prog[pc] == if tail then OpTailMatch else OpMatch
    ensures ThenDenote(t, prog, src, pc) == if tail then KillBefore(t, |src|, src) else t
  {
    match t
    case Choice(a, b) =>
      MatchCorrect(a, tail, prog, src, pc);
      MatchCorrect(b, tail, prog, src, pc);
    case _ =>
  }

  /** The compiled program, run from the start, performs exactly the search of
      the pattern: the same attempts in the same order. */
  lemma {:induction false} ProgramCorrect(pat: SeqPattern, src: Subject, pos: nat)
    requires pos <= |src|
    ensures WellFormed(Program(pat))
    ensures Denote(Program(pat), src, 0, State(pos, [])) == PatternTree(pat, src, pos)
  {
    var prog := Program(pat);
    ProgramWellFormed(pat);
    ProgramLayout(pat);
    var end := 1 + |Codes(pat.items, 1, 2)|;
    var st := State(pos, SetCapture([], 0, pos));
    var body := SeqTree(pat.items, 2, src, st);
    assert Denote(prog, src, 0, State(pos, [])) == Denote(prog, src, 1, st);
    CodesCorrect(pat.items, 1, 2, prog, src, st);
    CloseCorrect(body, 1, prog, src, end);
    MatchCorrect(CloseTree(body, 1, src), pat.mustTail, prog, src, end + 1);
  }
}
