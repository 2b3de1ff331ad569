/** Compilation of pattern trees to split/jump/save code (pm/pm.go). */
module PatternCompiler {
  import opened PatternSyntax

  /** The code of one item placed at `base`, its first capture using `slot`. */
  function Code(p: Pattern, base: nat, slot: nat): (code: seq<Instruction>)
    ensures code != []
  {
    match p
    case SingleP(cls) => [OpChar(cls)]
    case RepeatP(kind, cls) => RepeatCode(kind, cls, base)
    case PosCap => [OpPSave(slot)]
    case Cap(inner) => [OpSave(slot)] + Codes(inner, base + 1, slot + 2) + [OpSave(slot + 1)]
    case BackRef(index) => [OpNumber(index)]
    case Brace(open, close) => [OpBrace(open, close)]
  }

  function RepeatCode(kind: Repeat, cls: CharClass, base: nat): (code: seq<Instruction>)
    ensures code != []
  {
    match kind
    case Greedy => [OpSplit(base + 1, base + 3), OpChar(cls), OpJmp(base)]
    case GreedyPlus => [OpChar(cls), OpSplit(base, base + 2)]
    case Lazy => [OpSplit(base + 3, base + 1), OpChar(cls), OpJmp(base)]
    case Optional => [OpSplit(base + 1, base + 2), OpChar(cls)]
  }

  function Codes(ps: seq<Pattern>, base: nat, slot: nat): (code: seq<Instruction>) {
    if ps == [] then []
    else
      var first := Code(ps[0], base, slot);
      first + Codes(ps[1..], base + |first|, slot + 2 * CapCount(ps[0]))
  }

  /** The code of a whole pattern. */
  function Program(pat: SeqPattern): (prog: seq<Instruction>)
    ensures |prog| >= 3
  {
    [OpSave(0)] + Codes(pat.items, 1, 2) + [OpSave(1), if pat.mustTail then OpTailMatch else OpMatch]
  }

  lemma {:induction false} CapCountsSnoc(ps: seq<Pattern>, p: Pattern)
    ensures CapCounts(ps + [p]) == CapCounts(ps) + CapCount(p)
  {
    if ps == [] {
      assert ps + [p] == [p] && [p][1..] == [];
    } else {
      assert (ps + [p])[0] == ps[0] && (ps + [p])[1..] == ps[1..] + [p];
      CapCountsSnoc(ps[1..], p);
    }
  }

  lemma {:induction false} Join(a: seq<Instruction>, b: seq<Instruction>, c: seq<Instruction>)
    ensures a + (b + c) == (a + b) + c
  {
  }

  predicate Seen(t: nat) {
    true
  }

  /** Code under a token, which keeps it folded. */
  ghost predicate IsCode(p: Pattern, base: nat, slot: nat, code: seq<Instruction>) {
    forall t {:trigger Seen(t)} :: Seen(t) ==> code == Code(p, base, slot)
  }

  ghost predicate IsCodes(ps: seq<Pattern>, base: nat, slot: nat, code: seq<Instruction>) {
    forall t {:trigger Seen(t)} :: Seen(t) ==> code == Codes(ps, base, slot)
  }

  lemma {:induction false} CodesCons(p: Pattern, ps: seq<Pattern>, base: nat, slot: nat, first: seq<Instruction>, rest: seq<Instruction>)
    requires IsCode(p, base, slot, first) && IsCodes(ps, base + |first|, slot + 2 * CapCount(p), rest)
    ensures IsCodes([p] + ps, base, slot, first + rest)
  {
    assert Seen(0);
    assert ([p] + ps)[1..] == ps;
  }

  lemma {:induction false} CodesParts(ps: seq<Pattern>, base: nat, slot: nat, code: seq<Instruction>) returns (first: seq<Instruction>, rest: seq<Instruction>)
    requires ps != [] && IsCodes(ps, base, slot, code)
    ensures IsCode(ps[0], base, slot, first) && IsCodes(ps[1..], base + |first|, slot + 2 * CapCount(ps[0]), rest) && code == first + rest
  {
    assert Seen(0);
    first := Code(ps[0], base, slot);
    rest := Codes(ps[1..], base + |first|, slot + 2 * CapCount(ps[0]));
  }

  lemma {:induction false} NoCodes(base: nat, slot: nat, code: seq<Instruction>)
    ensures IsCodes([], base, slot, code) <==> code == []
  {
    assert Seen(0);
  }

  lemma {:induction false} CodesSnocIs(ps: seq<Pattern>, p: Pattern, base: nat, slot: nat, front: seq<Instruction>, last: seq<Instruction>)
    requires IsCodes(ps, base, slot, front) && IsCode(p, base + |front|, slot + 2 * CapCounts(ps), last)
    ensures IsCodes(ps + [p], base, slot, front + last)
  {
    if ps == [] {
      NoCodes(base, slot, front);
      NoCodes(base + |last|, slot + 2 * CapCount(p), []);
      CodesCons(p, [], base, slot, last, []);
      assert ps + [p] == [p] + [] && front + last == last + [];
    } else {
      var first, rest := CodesParts(ps, base, slot, front);
      CodesSnocIs(ps[1..], p, base + |first|, slot + 2 * CapCount(ps[0]), rest, last);
      CodesCons(ps[0], ps[1..] + [p], base, slot, first, rest + last);
      assert ps + [p] == [ps[0]] + (ps[1..] + [p]);
      Join(first, rest, last);
    }
  }

  lemma {:induction false} CodesSnoc(ps: seq<Pattern>, p: Pattern, base: nat, slot: nat)
    ensures Codes(ps + [p], base, slot)
         == Codes(ps, base, slot) + Code(p, base + |Codes(ps, base, slot)|, slot + 2 * CapCounts(ps))
  {
    var front := Codes(ps, base, slot);
    CodesSnocIs(ps, p, base, slot, front, Code(p, base + |front|, slot + 2 * CapCounts(ps)));
    assert Seen(0);
  }

  lemma {:induction false} EmitStep(before: seq<Instruction>, ps: seq<Pattern>, k: nat, slot: nat)
    requires k < |ps|
    ensures CapCounts(ps[..k + 1]) == CapCounts(ps[..k]) + CapCount(ps[k])
    ensures var now := before + Codes(ps[..k], |before|, slot);
            now + Code(ps[k], |now|, slot + 2 * CapCounts(ps[..k])) == before + Codes(ps[..k + 1], |before|, slot)
  {
    assert ps[..k + 1] == ps[..k] + [ps[k]];
    CapCountsSnoc(ps[..k], ps[k]);
    CodesSnoc(ps[..k], ps[k], |before|, slot);
    var codes := Codes(ps[..k], |before|, slot);
    Join(before, codes, Code(ps[k], |before| + |codes|, slot + 2 * CapCounts(ps[..k])));
  }

  /** The instruction builder: code grows at the end, slots are handed out in
      the order in which captures open. */
  class InstructionBuilder {
    var instructions: seq<Instruction>
    var captureSlot: nat

    constructor ()
      ensures instructions == [OpSave(0)] && captureSlot == 2
    {
      instructions, captureSlot := [OpSave(0)], 2;
    }

    method CompileItem(p: Pattern)
      modifies this
      ensures instructions == old(instructions) + Code(p, |old(instructions)|, old(captureSlot))
      ensures captureSlot == old(captureSlot) + 2 * CapCount(p)
      decreases p, 1
    {
      match p
      case SingleP(cls) =>
        instructions := instructions + [OpChar(cls)];
      case RepeatP(kind, cls) =>
        CompileRepeat(kind, cls);
      case PosCap =>
        instructions := instructions + [OpPSave(captureSlot)];
        captureSlot := captureSlot + 2;
      case Cap(inner) =>
        CompileCapture(inner);
      case Brace(open, close) =>
        instructions := instructions + [OpBrace(open, close)];
      case BackRef(index) =>
        instructions := instructions + [OpNumber(index)];
    }

    method CompileCapture(inner: seq<Pattern>)
      modifies this
      ensures instructions == old(instructions) + Code(Cap(inner), |old(instructions)|, old(captureSlot))
      ensures captureSlot == old(captureSlot) + 2 * CapCount(Cap(inner))
      decreases inner, 3
    {
      var startSlot, endSlot := captureSlot, captureSlot + 1;
      captureSlot := captureSlot + 2;
      instructions := instructions + [OpSave(startSlot)];
      CompileItems(inner);
      instructions := instructions + [OpSave(endSlot)];
    }

    method CompileItems(ps: seq<Pattern>)
      modifies this
      ensures instructions == old(instructions) + Codes(ps, |old(instructions)|, old(captureSlot))
      ensures captureSlot == old(captureSlot) + 2 * CapCounts(ps)
      decreases ps, 2
    {
      ghost var before, slot := instructions, captureSlot;
      for k := 0 to |ps|
        invariant instructions == before + Codes(ps[..k], |before|, slot)
        invariant captureSlot == slot + 2 * CapCounts(ps[..k])
      {
        EmitStep(before, ps, k, slot);
        CompileItem(ps[k]);
      }
      assert ps[..|ps|] == ps;
    }

    method CompileRepeat(kind: Repeat, cls: CharClass)
      modifies this`instructions
      ensures instructions == old(instructions) + RepeatCode(kind, cls, |old(instructions)|)
    {
      var idx := |instructions|;
      match kind
      case Greedy =>
        instructions := instructions + [OpSplit(idx + 1, idx + 3), OpChar(cls), OpJmp(idx)];
      case GreedyPlus =>
        instructions := instructions + [OpChar(cls), OpSplit(idx, idx + 2)];
      case Lazy =>
        instructions := instructions + [OpSplit(idx + 3, idx + 1), OpChar(cls), OpJmp(idx)];
      case Optional =>
        instructions := instructions + [OpSplit(idx + 1, idx + 2), OpChar(cls)];
    }
  }

  method CompilePattern(pat: SeqPattern) returns (prog: seq<Instruction>)
    ensures prog == Program(pat)
  {
    var builder := new InstructionBuilder();
    builder.CompileItems(pat.items);
    prog := builder.instructions + [OpSave(1), if pat.mustTail then OpTailMatch else OpMatch];
  }
}
