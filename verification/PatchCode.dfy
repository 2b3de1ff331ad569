/**
 The last pass over the code of a function (`patchCode` in compile.go): labels
 become distances, chains of jumps are shortened, runs of MOVE become MOVEN. The
 patched code does, step for step or in fewer steps, what the code did (the
 instructions of vm.go).
 */
module PatchCode {

  /** Instructions. Before the pass the operand of a jump is a label, after it a
      distance. `words` counts the upvalue words behind a CLOSURE; the effect of
      other instructions is arbitrary. */
  datatype Inst =
    | Move(a: nat, b: nat)
    | MoveN(a: nat, b: nat, c: nat)
    | Jmp(sbx: int)
    | Nop
    | Closure(id: nat, words: nat)
    | Other(id: nat)

  type Value = int

  type Regs = map<nat, Value>

  datatype State = State(pc: int, rs: Regs)

  datatype Option<T> = Some(value: T) | None

  datatype Result<T> = Ok(value: T) | TooLongToJump

  const MAX_SBX: int := 131071

  const MAX_C: nat := 511

  const MAX_HOPS: nat := 5

  function Get(rs: Regs, i: nat): Value {
    if i in rs then rs[i] else 0
  }

  function LabelPc(labels: map<int, int>, l: int): int {
    if l in labels then labels[l] else 0
  }

  // ----- execution -----

  /** The moves at `pc` and the `n - 1` positions behind it, by their operands. */
  function Moves(code: seq<Inst>, pc: int, n: nat, rs: Regs): Regs
    decreases n
  {
    if n == 0 || pc < 0 || pc >= |code| then rs
    else if code[pc].Move? || code[pc].MoveN? then Moves(code, pc + 1, n - 1, rs[code[pc].a := Get(rs, code[pc].b)])
    else rs
  }

  /** A step of code whose jumps name labels. */
  function Step(code: seq<Inst>, labels: map<int, int>, exec: (nat, State) -> State, s: State): State {
    if s.pc < 0 || s.pc >= |code| then s else
    match code[s.pc]
    case Jmp(l) => State(LabelPc(labels, l) + 1, s.rs)
    case Move(_, _) => State(s.pc + 1, Moves(code, s.pc, 1, s.rs))
    case MoveN(_, _, c) => State(s.pc + 1 + c, Moves(code, s.pc, c + 1, s.rs))
    case Nop => State(s.pc + 1, s.rs)
    case Closure(id, _) => exec(id, s)
    case Other(id) => exec(id, s)
  }

  /** A step of patched code: a jump adds its distance to the next position. */
  function PatchedStep(code: seq<Inst>, exec: (nat, State) -> State, s: State): State {
    if 0 <= s.pc < |code| && code[s.pc].Jmp? then State(s.pc + 1 + code[s.pc].sbx, s.rs)
    else Step(code, map[], exec, s)
  }

  function Run(code: seq<Inst>, labels: map<int, int>, exec: (nat, State) -> State, s: State, n: nat): State
    decreases n
  {
    if n == 0 then s else Run(code, labels, exec, Step(code, labels, exec, s), n - 1)
  }

  function PatchedRun(code: seq<Inst>, exec: (nat, State) -> State, s: State, n: nat): State
    decreases n
  {
    if n == 0 then s else PatchedRun(code, exec, PatchedStep(code, exec, s), n - 1)
  }

  // ----- the pass -----

  /** Follow jumps from `pc`, reading the store that is being patched; `jmp` is the
      jump at hand and `count` the jumps followed so far. */
  function Thread(store: seq<Inst>, labels: map<int, int>, pc: int, jmp: Inst, distance: int, count: nat): Result<int>
    decreases MAX_HOPS - count
  {
    if !jmp.Jmp? || count >= MAX_HOPS then Ok(distance) else
    var d := LabelPc(labels, jmp.sbx) - pc;
    if d > MAX_SBX then (if distance == 0 then TooLongToJump else Ok(distance))
    else if 0 <= pc + d + 1 < |store| then Thread(store, labels, pc, store[pc + d + 1], d, count + 1)
    else Ok(d)
  }

  function PatchJump(store: seq<Inst>, pc: nat, distance: int): seq<Inst>
    requires pc < |store|
  {
    store[pc := if distance == 0 then Nop else Jmp(distance)]
  }

  /** Turn the `n` moves before `pc` into one MOVEN. */
  function Fuse(store: seq<Inst>, pc: nat, n: nat): seq<Inst>
    requires n <= pc <= |store|
  {
    if n > 1 && store[pc - n].Move? then store[pc - n := MoveN(store[pc - n].a, store[pc - n].b, if n - 1 < MAX_C then n - 1 else MAX_C)] else store
  }

  /** The pass from `pc` on: `code` is the copy that is read, `store` what is patched,
      `moven` the length of the run of moves before `pc`. */
  function Patch(code: seq<Inst>, labels: map<int, int>, pc: nat, moven: nat, store: seq<Inst>): Result<seq<Inst>>
    requires |store| == |code| && moven <= pc
    decreases |code| - pc
  {
    if pc >= |code| then Ok(store) else
    match code[pc]
    case Closure(_, words) => Patch(code, labels, pc + words + 1, 0, store)
    case Jmp(_) =>
      var r := Thread(store, labels, pc, code[pc], 0, 0);
      if r.TooLongToJump? then TooLongToJump
      else Patch(code, labels, pc + 1, 0, Fuse(PatchJump(store, pc, r.value), pc, moven))
    case Move(_, _) => Patch(code, labels, pc + 1, moven + 1, store)
    case _ => Patch(code, labels, pc + 1, 0, Fuse(store, pc, moven))
  }

  method ThreadJump(store: seq<Inst>, labels: map<int, int>, pc: nat, inst: Inst) returns (r: Result<int>)
    ensures r == Thread(store, labels, pc, inst, 0, 0)
  {
    var distance, count, jmp := 0, 0, inst;
    while jmp.Jmp? && count < MAX_HOPS
      invariant Thread(store, labels, pc, inst, 0, 0) == Thread(store, labels, pc, jmp, distance, count)
      decreases MAX_HOPS - count
    {
      var d := LabelPc(labels, jmp.sbx) - pc;
      if d > MAX_SBX {
        if distance == 0 {
          return TooLongToJump;
        }
        break;
      }
      distance, count := d, count + 1;
      if pc + d + 1 < 0 || pc + d + 1 >= |store| {
        break;
      }
      jmp := store[pc + distance + 1];
    }
    r := Ok(distance);
  }

  /** `patchCode`, on the code store of the function. */
  method PatchAll(store: array<Inst>, labels: map<int, int>) returns (ok: bool)
    modifies store
    ensures var r := Patch(old(store[..]), labels, 0, 0, old(store[..])); if ok then r == Ok(store[..]) else r.TooLongToJump?
  {
    ghost var goal := Patch(store[..], labels, 0, 0, store[..]);
    var code := store[..];
    var pc, moven := 0, 0;
    while pc < |code|
      invariant moven <= pc && store.Length == |code|
      invariant goal == Patch(code, labels, pc, moven, store[..])
      decreases |code| - pc
    {
      var inst := code[pc];
      if inst.Closure? {
        pc := pc + inst.words + 1;
        moven := 0;
        continue;
      }
      if inst.Jmp? {
        var r := ThreadJump(store[..], labels, pc, inst);
        if r.TooLongToJump? {
          return false;
        }
        store[pc] := if r.value == 0 then Nop else Jmp(r.value);
      }
      if inst.Move? {
        moven := moven + 1;
      } else {
        if moven > 1 && store[pc - moven].Move? {
          store[pc - moven] := MoveN(store[pc - moven].a, store[pc - moven].b, if moven - 1 < MAX_C then moven - 1 else MAX_C);
        }
        moven := 0;
      }
      pc := pc + 1;
    }
    ok := true;
  }

  // ----- chains of jumps -----

  predicate JumpAt(code: seq<Inst>, p: int) {
    0 <= p < |code| && code[p].Jmp?
  }

  /** Where `n` jumps lead from `p`, or as many as there are. */
  function Hop(code: seq<Inst>, labels: map<int, int>, p: int, n: nat): int
    decreases n
  {
    if n == 0 || !JumpAt(code, p) then p else Hop(code, labels, LabelPc(labels, code[p].sbx) + 1, n - 1)
  }

  lemma {:induction false} HopSnoc(code: seq<Inst>, labels: map<int, int>, p: int, n: nat)
    ensures Hop(code, labels, p, n + 1) == Hop(code, labels, Hop(code, labels, p, n), 1)
    decreases n
  {
    if n > 0 && JumpAt(code, p) {
      HopSnoc(code, labels, LabelPc(labels, code[p].sbx) + 1, n - 1);
    }
  }

  /** No hop of the chain from `pc` lands on an earlier jump, which the pass has
      already patched. */
  ghost predicate ChainForward(code: seq<Inst>, labels: map<int, int>, pc: int) {
    forall n {:trigger Hop(code, labels, pc, n)} :: 1 <= n < MAX_HOPS ==> Hop(code, labels, pc, n) >= pc || !JumpAt(code, Hop(code, labels, pc, n))
  }

  /** Some one to five jumps lead from `i` to `t`. */
  ghost predicate JumpsTo(code: seq<Inst>, labels: map<int, int>, i: int, t: int) {
    exists n :: 1 <= n <= MAX_HOPS && Hop(code, labels, i, n) == t
  }

  /** Below `pc` the store has jumps only where the code has. */
  ghost predicate SameJumps(code: seq<Inst>, store: seq<Inst>, pc: int) {
    && |store| == |code| && (forall i :: 0 <= i < |code| && i >= pc ==> store[i] == code[i])
    && (forall i :: 0 <= i < |code| && store[i].Jmp? ==> code[i].Jmp?)
  }

  /** Where the thread stands after `count` jumps. */
  ghost predicate Threading(store: seq<Inst>, code: seq<Inst>, labels: map<int, int>, pc: nat, jmp: Inst, distance: int, count: nat) {
    if count == 0 then pc < |code| && jmp == code[pc] && distance == 0
    else
      && Hop(code, labels, pc, count) == pc + distance + 1 && 0 <= pc + distance + 1 < |store| && jmp == store[pc + distance + 1]
  }

  /** One more hop: the jump at hand is that of the code. */
  lemma {:induction false} ThreadHop(store: seq<Inst>, code: seq<Inst>, labels: map<int, int>, pc: nat, jmp: Inst, distance: int, count: nat)
    requires SameJumps(code, store, pc) && ChainForward(code, labels, pc) && JumpAt(code, pc) && count < MAX_HOPS
    requires Threading(store, code, labels, pc, jmp, distance, count) && jmp.Jmp?
    ensures Hop(code, labels, pc, count + 1) == LabelPc(labels, jmp.sbx) + 1
  {
    var t := Hop(code, labels, pc, count);
    assert JumpAt(code, t) && code[t] == jmp;
    HopSnoc(code, labels, pc, count);
    assert Hop(code, labels, LabelPc(labels, jmp.sbx) + 1, 0) == LabelPc(labels, jmp.sbx) + 1;
  }

  predicate Shut(tok: nat) { true }

  /** What threading needs, folded. */
  ghost predicate Good(code: seq<Inst>, store: seq<Inst>, labels: map<int, int>, pc: nat) {
    forall tok {:trigger Shut(tok)} :: Shut(tok) ==> SameJumps(code, store, pc) && ChainForward(code, labels, pc) && JumpAt(code, pc)
  }

  /** The thread ends where some of the jumps lead. */
  lemma {:induction false} ThreadOk(store: seq<Inst>, code: seq<Inst>, labels: map<int, int>, pc: nat, jmp: Inst, distance: int, count: nat)
    requires Good(code, store, labels, pc) && count <= MAX_HOPS && (count == 0 ==> jmp.Jmp?)
    requires Threading(store, code, labels, pc, jmp, distance, count)
    ensures var r := Thread(store, labels, pc, jmp, distance, count); r.Ok? ==> JumpsTo(code, labels, pc, pc + 1 + r.value)
    decreases MAX_HOPS - count
  {
    if count > 0 {
      LeadsThere(code, labels, pc, count);
    }
    if jmp.Jmp? && count < MAX_HOPS {
      var d := LabelPc(labels, jmp.sbx) - pc;
      ThreadNext(store, code, labels, pc, jmp, distance, count);
      if d <= MAX_SBX && 0 <= pc + d + 1 < |store| {
        ThreadOk(store, code, labels, pc, store[pc + d + 1], d, count + 1);
      }
    }
  }

  /** The thread after one more jump, or where that jump leads. */
  lemma {:induction false} ThreadNext(store: seq<Inst>, code: seq<Inst>, labels: map<int, int>, pc: nat, jmp: Inst, distance: int, count: nat)
    requires Good(code, store, labels, pc) && count < MAX_HOPS
    requires Threading(store, code, labels, pc, jmp, distance, count) && jmp.Jmp?
    ensures var d := LabelPc(labels, jmp.sbx) - pc;
            && JumpsTo(code, labels, pc, pc + 1 + d)
            && (0 <= pc + d + 1 < |store| ==> Threading(store, code, labels, pc, store[pc + d + 1], d, count + 1))
  {
    assert Shut(0);
    ThreadHop(store, code, labels, pc, jmp, distance, count);
    LeadsThere(code, labels, pc, count + 1);
  }

  lemma {:induction false} LeadsThere(code: seq<Inst>, labels: map<int, int>, pc: int, n: nat)
    requires 1 <= n <= MAX_HOPS
    ensures JumpsTo(code, labels, pc, Hop(code, labels, pc, n))
  {
  }

  // ----- what the pass keeps -----

  /** Where the patched jump at `i` leads. */
  function Target(store: seq<Inst>, i: int): int {
    if 0 <= i < |store| && store[i].Jmp? then i + 1 + store[i].sbx else i + 1
  }

  /** The patched instruction at `i` stands for the code there. A jump does so if its
      chain never goes back. */
  ghost predicate Patched(code: seq<Inst>, labels: map<int, int>, store: seq<Inst>, i: nat)
    requires i < |code| == |store|
  {
    match code[i]
    case Jmp(_) => (store[i].Nop? || store[i].Jmp?) && (ChainForward(code, labels, i) ==> JumpsTo(code, labels, i, Target(store, i)))
    case Move(a, b) =>
      || store[i] == code[i]
      || (store[i].MoveN? && store[i].a == a && store[i].b == b && i + store[i].c < |code| && MovesFrom(code, i, i + store[i].c + 1))
    case _ => store[i] == code[i]
  }

  ghost predicate MovesFrom(code: seq<Inst>, i: nat, j: nat) {
    j <= |code| && forall k :: i <= k < j ==> code[k].Move?
  }

  ghost predicate Progress(code: seq<Inst>, labels: map<int, int>, store: seq<Inst>, pc: nat, moven: nat) {
    && |store| == |code| && moven <= pc
    && (forall i :: 0 <= i < |code| && i >= pc ==> store[i] == code[i])
    && (forall i :: 0 <= i < |code| && i < pc ==> Patched(code, labels, store, i))
    && (pc <= |code| ==> MovesFrom(code, pc - moven, pc) && forall i :: pc - moven <= i < pc ==> store[i] == code[i])
    && (pc > |code| ==> moven == 0)
  }

  lemma {:induction false} ProgressSameJumps(code: seq<Inst>, labels: map<int, int>, store: seq<Inst>, pc: nat, moven: nat)
    requires Progress(code, labels, store, pc, moven)
    ensures SameJumps(code, store, pc)
  {
    forall i | 0 <= i < |code| && store[i].Jmp? ensures code[i].Jmp? {
      if i < pc {
        assert Patched(code, labels, store, i);
      }
    }
  }

  /** One more instruction, patched or as it was, and no run of moves before it. */
  lemma {:induction false} ProgressOne(code: seq<Inst>, labels: map<int, int>, store: seq<Inst>, pc: nat, moven: nat, inst: Inst)
    requires Progress(code, labels, store, pc, moven) && pc < |code| && !code[pc].Move?
    requires Patched(code, labels, store[pc := inst], pc)
    ensures Progress(code, labels, store[pc := inst], pc + 1, 0) && MovesFrom(code, pc - moven, pc)
    ensures forall i :: pc - moven <= i < pc ==> store[pc := inst][i] == code[i]
  {
    var store' := store[pc := inst];
    forall i | 0 <= i < |code| && i < pc + 1 ensures Patched(code, labels, store', i) {
      if i < pc {
        assert Patched(code, labels, store, i);
      }
    }
  }

  lemma {:induction false} FuseProgress(code: seq<Inst>, labels: map<int, int>, store: seq<Inst>, pc: nat, n: nat)
    requires Progress(code, labels, store, pc + 1, 0) && pc < |code| && n <= pc && MovesFrom(code, pc - n, pc)
    requires forall i :: pc - n <= i < pc ==> store[i] == code[i]
    ensures Progress(code, labels, Fuse(store, pc, n), pc + 1, 0)
  {
    var store' := Fuse(store, pc, n);
    if n > 1 {
      assert store[pc - n] == code[pc - n];
      forall i | 0 <= i < |code| && i < pc + 1 ensures Patched(code, labels, store', i) {
        assert Patched(code, labels, store, i);
      }
    }
  }

  lemma {:induction false} ClosureProgress(code: seq<Inst>, labels: map<int, int>, store: seq<Inst>, pc: nat, moven: nat)
    requires Progress(code, labels, store, pc, moven) && pc < |code| && code[pc].Closure?
    requires forall k :: pc < k <= pc + code[pc].words && k < |code| ==> !code[k].Jmp?
    ensures Progress(code, labels, store, pc + code[pc].words + 1, 0)
  {
    var pc' := pc + code[pc].words + 1;
    forall i | 0 <= i < |code| && i < pc' ensures Patched(code, labels, store, i) {
      if i >= pc {
        assert store[i] == code[i];
      }
    }
  }

  /** Code as the compiler emits it: no MOVEN yet, no jump among upvalue words. */
  ghost predicate Emitted(code: seq<Inst>) {
    && (forall i :: 0 <= i < |code| ==> !code[i].MoveN?)
    && (forall i, k :: 0 <= i < |code| && code[i].Closure? && i < k <= i + code[i].words && k < |code| ==> !code[k].Jmp?)
  }

  /** A threaded jump. */
  lemma {:induction false} JumpProgress(code: seq<Inst>, labels: map<int, int>, store: seq<Inst>, pc: nat, moven: nat)
    requires Progress(code, labels, store, pc, moven) && JumpAt(code, pc)
    requires Thread(store, labels, pc, code[pc], 0, 0).Ok?
    ensures var d := Thread(store, labels, pc, code[pc], 0, 0).value;
            Progress(code, labels, Fuse(PatchJump(store, pc, d), pc, moven), pc + 1, 0)
  {
    ProgressSameJumps(code, labels, store, pc, moven);
    if ChainForward(code, labels, pc) {
      ThreadOk(store, code, labels, pc, code[pc], 0, 0);
    }
    var d := Thread(store, labels, pc, code[pc], 0, 0).value;
    ProgressOne(code, labels, store, pc, moven, if d == 0 then Nop else Jmp(d));
    FuseProgress(code, labels, PatchJump(store, pc, d), pc, moven);
  }

  /** The whole pass: every instruction of the result stands for the code there. */
  lemma {:induction false} PatchOk(code: seq<Inst>, labels: map<int, int>, pc: nat, moven: nat, store: seq<Inst>)
    requires Emitted(code) && Progress(code, labels, store, pc, moven)
    ensures var r := Patch(code, labels, pc, moven, store);
            r.Ok? ==> |r.value| == |code| && forall i :: 0 <= i < |code| ==> Patched(code, labels, r.value, i)
    decreases |code| - pc
  {
    if pc < |code| {
      if code[pc].Closure? {
        ClosureProgress(code, labels, store, pc, moven);
        PatchOk(code, labels, pc + code[pc].words + 1, 0, store);
      } else if code[pc].Jmp? {
        var r := Thread(store, labels, pc, code[pc], 0, 0);
        if r.Ok? {
          JumpProgress(code, labels, store, pc, moven);
          PatchOk(code, labels, pc + 1, 0, Fuse(PatchJump(store, pc, r.value), pc, moven));
        }
      } else if code[pc].Move? {
        assert Progress(code, labels, store, pc + 1, moven + 1);
        PatchOk(code, labels, pc + 1, moven + 1, store);
      } else {
        assert store[pc := code[pc]] == store;
        ProgressOne(code, labels, store, pc, moven, code[pc]);
        FuseProgress(code, labels, store, pc, moven);
        PatchOk(code, labels, pc + 1, 0, Fuse(store, pc, moven));
      }
    }
  }

  // ----- the patched code does what the code did -----

  /** Moves read only operands, which fusing leaves alone. */
  lemma {:induction false} MovesSame(code: seq<Inst>, labels: map<int, int>, store: seq<Inst>, pc: nat, n: nat, rs: Regs)
    requires |store| == |code| && MovesFrom(code, pc, pc + n) && forall i :: 0 <= i < |code| ==> Patched(code, labels, store, i)
    ensures Moves(store, pc, n, rs) == Moves(code, pc, n, rs)
    decreases n
  {
    if n > 0 {
      assert Patched(code, labels, store, pc);
      MovesSame(code, labels, store, pc + 1, n - 1, rs[code[pc].a := Get(rs, code[pc].b)]);
    }
  }

  lemma {:induction false} MovesRun(code: seq<Inst>, labels: map<int, int>, exec: (nat, State) -> State, pc: nat, n: nat, rs: Regs)
    requires MovesFrom(code, pc, pc + n)
    ensures Run(code, labels, exec, State(pc, rs), n) == State(pc + n, Moves(code, pc, n, rs))
    decreases n
  {
    if n > 0 {
      var rs' := rs[code[pc].a := Get(rs, code[pc].b)];
      assert Moves(code, pc + 1, 0, rs') == rs';
      assert Step(code, labels, exec, State(pc, rs)) == State(pc + 1, rs');
      MovesRun(code, labels, exec, pc + 1, n - 1, rs');
    }
  }

  /** Where `n` steps lead from `p` if all of them are jumps or do nothing. */
  function Walk(code: seq<Inst>, labels: map<int, int>, p: int, n: nat): Option<int>
    decreases n
  {
    if n == 0 || p < 0 || p >= |code| then Some(p) else
    match code[p]
    case Jmp(l) => Walk(code, labels, LabelPc(labels, l) + 1, n - 1)
    case Nop => Walk(code, labels, p + 1, n - 1)
    case _ => None
  }

  /** One or more such steps of the code lead to the target of the patched jump. */
  ghost predicate LandsAt(code: seq<Inst>, labels: map<int, int>, store: seq<Inst>, i: int) {
    exists n :: n >= 1 && Walk(code, labels, i, n) == Some(Target(store, i))
  }

  ghost predicate Lands(code: seq<Inst>, labels: map<int, int>, store: seq<Inst>) {
    forall i :: JumpAt(code, i) ==> LandsAt(code, labels, store, i)
  }

  lemma {:induction false} HopIsWalk(code: seq<Inst>, labels: map<int, int>, p: int, n: nat) returns (m: nat)
    ensures Walk(code, labels, p, m) == Some(Hop(code, labels, p, n)) && (n > 0 && JumpAt(code, p) ==> m > 0)
    decreases n
  {
    m := 0;
    if n > 0 && JumpAt(code, p) {
      var k := HopIsWalk(code, labels, LabelPc(labels, code[p].sbx) + 1, n - 1);
      m := k + 1;
    }
  }

  /** A jump whose chain never goes back leads where the code leads. */
  lemma {:induction false} ForwardLands(code: seq<Inst>, labels: map<int, int>, store: seq<Inst>, i: int)
    requires Emitted(code) && Patch(code, labels, 0, 0, code) == Ok(store) && JumpAt(code, i) && ChainForward(code, labels, i)
    ensures LandsAt(code, labels, store, i)
  {
    PatchOk(code, labels, 0, 0, code);
    assert Patched(code, labels, store, i);
    var n :| 1 <= n <= MAX_HOPS && Hop(code, labels, i, n) == Target(store, i);
    var m := HopIsWalk(code, labels, i, n);
  }

  lemma {:induction false} WalkRun(code: seq<Inst>, labels: map<int, int>, exec: (nat, State) -> State, p: int, n: nat, rs: Regs)
    requires Walk(code, labels, p, n).Some?
    ensures Run(code, labels, exec, State(p, rs), n) == State(Walk(code, labels, p, n).value, rs)
    decreases n
  {
    if n > 0 && 0 <= p < |code| {
      var q := if code[p].Jmp? then LabelPc(labels, code[p].sbx) + 1 else p + 1;
      WalkRun(code, labels, exec, q, n - 1, rs);
    } else if n > 0 {
      Outside(code, labels, exec, State(p, rs), n);
    }
  }

  lemma {:induction false} Outside(code: seq<Inst>, labels: map<int, int>, exec: (nat, State) -> State, s: State, n: nat)
    requires s.pc < 0 || s.pc >= |code|
    ensures Run(code, labels, exec, s, n) == s
    decreases n
  {
    if n > 0 {
      Outside(code, labels, exec, s, n - 1);
    }
  }

  /** One step of the patched code is one or more steps of the code, from any state:
      also in the middle of a run of moves. */
  lemma {:induction false} StepRefines(code: seq<Inst>, labels: map<int, int>, exec: (nat, State) -> State, store: seq<Inst>, s: State) returns (n: nat)
    requires Emitted(code) && |store| == |code| && (forall i :: 0 <= i < |code| ==> Patched(code, labels, store, i)) && Lands(code, labels, store)
    ensures n > 0 && Run(code, labels, exec, s, n) == PatchedStep(store, exec, s)
  {
    n := 1;
    assert Run(code, labels, exec, Step(code, labels, exec, s), 0) == Step(code, labels, exec, s);
    if 0 <= s.pc < |code| {
      assert Patched(code, labels, store, s.pc);
      if code[s.pc].Jmp? {
        var k :| k >= 1 && Walk(code, labels, s.pc, k) == Some(Target(store, s.pc));
        n := k;
        WalkRun(code, labels, exec, s.pc, k, s.rs);
      } else if code[s.pc].Move? {
        n := if store[s.pc].MoveN? then store[s.pc].c + 1 else 1;
        MovesSame(code, labels, store, s.pc, n, s.rs);
        MovesRun(code, labels, exec, s.pc, n, s.rs);
      }
    }
  }

  lemma {:induction false} RunAdd(code: seq<Inst>, labels: map<int, int>, exec: (nat, State) -> State, s: State, m: nat, n: nat)
    ensures Run(code, labels, exec, s, m + n) == Run(code, labels, exec, Run(code, labels, exec, s, m), n)
    decreases m
  {
    if m > 0 {
      RunAdd(code, labels, exec, Step(code, labels, exec, s), m - 1, n);
    }
  }

  /** Any run of the patched code is a run of the code, with at least as many steps:
      whatever other instructions do and wherever the run starts. */
  lemma {:induction false} RunRefines(code: seq<Inst>, labels: map<int, int>, exec: (nat, State) -> State, store: seq<Inst>, s: State, n: nat) returns (m: nat)
    requires Emitted(code) && Patch(code, labels, 0, 0, code) == Ok(store) && Lands(code, labels, store)
    ensures m >= n && Run(code, labels, exec, s, m) == PatchedRun(store, exec, s, n)
    decreases n
  {
    if n == 0 {
      m := 0;
    } else {
      assert Progress(code, labels, code, 0, 0);
      PatchOk(code, labels, 0, 0, code);
      var k := StepRefines(code, labels, exec, store, s);
      var j := RunRefines(code, labels, exec, store, PatchedStep(store, exec, s), n - 1);
      m := k + j;
      RunAdd(code, labels, exec, s, k, j);
    }
  }

  /** Instructions that leave a trace in the registers. */
  function Probe(id: nat, s: State): State {
    State(s.pc, map[0 := id])
  }

  /** From empty registers, either all steps were jumps or did nothing, or the
      registers are not empty any more. */
  lemma {:induction false} ProbeRun(code: seq<Inst>, labels: map<int, int>, s: State, n: nat)
    requires Emitted(code)
    ensures var r := Run(code, labels, Probe, s, n);
            r.rs == map[] ==> s.rs == map[] && Walk(code, labels, s.pc, n) == Some(r.pc)
    decreases n
  {
    if n > 0 {
      var s' := Step(code, labels, Probe, s);
      ProbeRun(code, labels, s', n - 1);
      if s.pc < 0 || s.pc >= |code| {
        Outside(code, labels, Probe, s, n);
      } else if code[s.pc].Move? {
        assert code[s.pc].a in s'.rs;
      } else if code[s.pc].Closure? || code[s.pc].Other? {
        assert 0 in s'.rs;
      }
    }
  }

  /** Some steps of the code, at least `n`, lead from `s` to `s'`. */
  ghost predicate RunsTo(code: seq<Inst>, labels: map<int, int>, exec: (nat, State) -> State, s: State, n: nat, s': State) {
    exists m :: m >= n && Run(code, labels, exec, s, m) == s'
  }

  /** Every run of the patched code is a run of the code, whatever other instructions do
      and wherever it starts. */
  ghost predicate Preserves(code: seq<Inst>, labels: map<int, int>, store: seq<Inst>) {
    forall exec: (nat, State) -> State, s: State, n: nat {:trigger PatchedRun(store, exec, s, n)} ::
      RunsTo(code, labels, exec, s, n, PatchedRun(store, exec, s, n))
  }

  /** A jump patched to a place where the code does not lead shows in one step. */
  lemma {:induction false} OnlyIfLands(code: seq<Inst>, labels: map<int, int>, store: seq<Inst>, i: int)
    requires Emitted(code) && Patch(code, labels, 0, 0, code) == Ok(store) && JumpAt(code, i)
    requires RunsTo(code, labels, Probe, State(i, map[]), 1, PatchedRun(store, Probe, State(i, map[]), 1))
    ensures LandsAt(code, labels, store, i)
  {
    PatchOk(code, labels, 0, 0, code);
    assert Patched(code, labels, store, i);
    var s := State(i, map[]);
    var s' := PatchedStep(store, Probe, s);
    assert PatchedRun(store, Probe, s', 0) == s' == State(Target(store, i), map[]);
    var m :| m >= 1 && Run(code, labels, Probe, s, m) == s';
    ProbeRun(code, labels, s, m);
  }

  /** The patched code does what the code did if and only if every patched jump lands
      where jumps of the code lead. */
  lemma {:induction false} PatchPreserves(code: seq<Inst>, labels: map<int, int>, store: seq<Inst>)
    requires Emitted(code) && Patch(code, labels, 0, 0, code) == Ok(store)
    ensures Preserves(code, labels, store) <==> Lands(code, labels, store)
  {
    if Lands(code, labels, store) {
      forall exec: (nat, State) -> State, s: State, n: nat ensures RunsTo(code, labels, exec, s, n, PatchedRun(store, exec, s, n)) {
        var m := RunRefines(code, labels, exec, store, s, n);
      }
    }
    if Preserves(code, labels, store) {
      forall i | JumpAt(code, i) ensures LandsAt(code, labels, store, i) {
        assert RunsTo(code, labels, Probe, State(i, map[]), 1, PatchedRun(store, Probe, State(i, map[]), 1));
        OnlyIfLands(code, labels, store, i);
      }
    }
  }

  /** A chain that goes back to a patched jump reads its distance as a label: here the
      jump at 2 leads to 0 and from there to 3, but is patched to lead to 4. */
  lemma {:induction false} BackChainGoesWrong()
    ensures var code := [Jmp(5), Other(0), Jmp(1), Other(1), Other(2)];
            var labels := map[5 := 2, 1 := -1, 2 := 3];
            var store := [Jmp(2), Other(0), Jmp(1), Other(1), Other(2)];
            && Emitted(code) && Walk(code, labels, 2, 2) == Some(3) && !LandsAt(code, labels, store, 2)
            && Patch(code, labels, 0, 0, code) == Ok(store) && Target(store, 2) == 4
  {
    var code := [Jmp(5), Other(0), Jmp(1), Other(1), Other(2)];
    var labels := map[5 := 2, 1 := -1, 2 := 3];
    var store := [Jmp(2), Other(0), Jmp(1), Other(1), Other(2)];
    assert Walk(code, labels, 2, 2) == Walk(code, labels, 0, 1) == Walk(code, labels, 3, 0);
    forall n: nat | n >= 1 ensures Walk(code, labels, 2, n) != Some(4) {
      assert Walk(code, labels, 2, n) == Walk(code, labels, 0, n - 1);
      assert n >= 2 ==> Walk(code, labels, 0, n - 1) == Walk(code, labels, 3, n - 2);
    }
    assert Thread(code, labels, 0, Jmp(5), 0, 0) == Thread(code, labels, 0, code[3], 2, 1) == Ok(2);
    assert PatchJump(code, 0, 2) == store;
    assert Thread(store, labels, 2, Jmp(1), 0, 0) == Thread(store, labels, 2, store[0], -3, 1) == Thread(store, labels, 2, store[4], 1, 2) == Ok(1);
    assert Patch(code, labels, 4, 0, store) == Patch(code, labels, 5, 0, store) == Ok(store);
    assert Patch(code, labels, 3, 0, store) == Ok(store);
    assert PatchJump(store, 2, 1) == store;
    assert Patch(code, labels, 2, 0, store) == Ok(store);
    assert Patch(code, labels, 1, 0, store) == Ok(store);
  }

  /** Such a chain can still come out right by accident, when the distance happens to
      name a label at the right place. */
  lemma {:induction false} BackChainMayGoRight()
    ensures var code := [Jmp(5), Other(0), Jmp(1), Other(1), Other(2)];
            var labels := map[5 := 2, 1 := -1, 2 := 2];
            var r := Patch(code, labels, 0, 0, code);
            && Emitted(code) && JumpAt(code, 2) && !ChainForward(code, labels, 2) && r.Ok? && Lands(code, labels, r.value)
  {
    var code := [Jmp(5), Other(0), Jmp(1), Other(1), Other(2)];
    var labels := map[5 := 2, 1 := -1, 2 := 2];
    var store := [Jmp(2), Other(0), Jmp(1), Other(1), Other(2)];
    var last := [Jmp(2), Other(0), Nop, Other(1), Other(2)];
    assert Hop(code, labels, 0, 1) == 3;
    assert Hop(code, labels, 2, 1) == Hop(code, labels, 0, 0) == 0;
    assert Hop(code, labels, 2, 2) == Hop(code, labels, 0, 1) == 3;
    assert JumpAt(code, 2) && !ChainForward(code, labels, 2);
    assert Thread(code, labels, 0, Jmp(5), 0, 0) == Thread(code, labels, 0, code[3], 2, 1) == Ok(2);
    assert PatchJump(code, 0, 2) == store;
    assert Thread(store, labels, 2, Jmp(1), 0, 0) == Thread(store, labels, 2, store[0], -3, 1) == Thread(store, labels, 2, store[3], 0, 2) == Ok(0);
    assert Patch(code, labels, 4, 0, last) == Patch(code, labels, 5, 0, last) == Ok(last);
    assert Patch(code, labels, 3, 0, last) == Ok(last);
    assert PatchJump(store, 2, 0) == last;
    assert Patch(code, labels, 2, 0, store) == Ok(last);
    assert Patch(code, labels, 1, 0, store) == Ok(last);
    assert Walk(code, labels, 0, 1) == Walk(code, labels, 3, 0) == Some(3);
    assert Walk(code, labels, 2, 2) == Walk(code, labels, 0, 1);
  }
}
