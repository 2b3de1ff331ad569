/**
 When the last pass over the code (`patchCode` in compile.go) succeeds, and what it
 leaves: distances that fit an instruction, jumps shortened by five hops, runs of moves
 fused as far as an operand reaches.
 */
module PatchLimits {
  import opened PatchCode

  /** From `pc` on, the pass comes to `i`: it steps over the words behind a CLOSURE. */
  predicate Visits(code: seq<Inst>, pc: nat, i: nat)
    decreases i - pc
  {
    if pc >= i || i >= |code| then pc == i < |code|
    else Visits(code, if code[pc].Closure? then pc + code[pc].words + 1 else pc + 1, i)
  }

  /** The distance from `pc` to the label of the jump at `q`. */
  function Distance(code: seq<Inst>, labels: map<int, int>, pc: int, q: int): int
    requires JumpAt(code, q)
  {
    LabelPc(labels, code[q].sbx) - pc
  }

  /** Where `n` jumps lead from the one at `pc`, as far as they are within reach of it. */
  function Path(code: seq<Inst>, labels: map<int, int>, pc: int, n: nat): int {
    if n == 0 then pc
    else
      var q := Path(code, labels, pc, n - 1);
      if JumpAt(code, q) && Distance(code, labels, pc, q) <= 131071 then pc + Distance(code, labels, pc, q) + 1 else q
  }

  /** After `n` jumps the next one is out of reach, and no distance is known but 0. */
  ghost predicate Fails(code: seq<Inst>, labels: map<int, int>, pc: int, n: nat) {
    var q := Path(code, labels, pc, n);
    JumpAt(code, q) && Distance(code, labels, pc, q) > 131071 && (n == 0 || q == pc + 1)
  }

  lemma {:induction false} PathStays(code: seq<Inst>, labels: map<int, int>, pc: int, n: nat, m: nat)
    requires n <= m && var q := Path(code, labels, pc, n); !(JumpAt(code, q) && Distance(code, labels, pc, q) <= 131071)
    ensures Path(code, labels, pc, m) == Path(code, labels, pc, n)
    decreases m
  {
    if n < m {
      PathStays(code, labels, pc, n, m - 1);
    }
  }

  /** The thread after `count` jumps. */
  lemma {:induction false} ThreadFrom(store: seq<Inst>, labels: map<int, int>, pc: nat, distance: int, count: nat)
    requires count <= 5 && var q := Path(store, labels, pc, count); 0 <= q < |store| && (if count == 0 then distance == 0 else q == pc + distance + 1)
    requires distance <= 131071
    ensures var r := Thread(store, labels, pc, store[Path(store, labels, pc, count)], distance, count);
            && (r.Ok? <==> forall n :: count <= n < 5 ==> !Fails(store, labels, pc, n))
            && (r.Ok? && (count > 0 || JumpAt(store, pc)) ==> pc + 1 + r.value == Path(store, labels, pc, 5) && r.value <= 131071)
    decreases 5 - count
  {
    var q := Path(store, labels, pc, count);
    if !store[q].Jmp? || count >= 5 {
      forall n | count <= n < 5 ensures !Fails(store, labels, pc, n) {
        PathStays(store, labels, pc, count, n);
      }
      PathStays5(store, labels, pc, count);
    } else if Distance(store, labels, pc, q) > 131071 {
      ThreadTooFar(store, labels, pc, distance, count);
    } else {
      var d := Distance(store, labels, pc, q);
      assert Path(store, labels, pc, count + 1) == pc + d + 1;
      if 0 <= pc + d + 1 < |store| {
        ThreadFrom(store, labels, pc, d, count + 1);
      } else {
        forall n | count <= n < 5 ensures !Fails(store, labels, pc, n) {
          if n > count {
            PathStays(store, labels, pc, count + 1, n);
          }
        }
        PathStays(store, labels, pc, count + 1, 5);
      }
      assert !Fails(store, labels, pc, count);
    }
  }

  lemma {:induction false} PathStays5(store: seq<Inst>, labels: map<int, int>, pc: nat, count: nat)
    requires count <= 5 && (count == 5 || !JumpAt(store, Path(store, labels, pc, count)))
    ensures Path(store, labels, pc, 5) == Path(store, labels, pc, count)
  {
    if count < 5 {
      PathStays(store, labels, pc, count, 5);
    }
  }

  lemma {:induction false} ThreadTooFar(store: seq<Inst>, labels: map<int, int>, pc: nat, distance: int, count: nat)
    requires count < 5 && var q := Path(store, labels, pc, count); JumpAt(store, q) && (if count == 0 then distance == 0 else q == pc + distance + 1)
    requires Distance(store, labels, pc, Path(store, labels, pc, count)) > 131071
    ensures Fails(store, labels, pc, count) <==> distance == 0
    ensures distance != 0 ==> (forall n :: count <= n < 5 ==> !Fails(store, labels, pc, n)) && Path(store, labels, pc, 5) == pc + 1 + distance
  {
    PathStays(store, labels, pc, count, 5);
    forall n | count <= n < 5 && distance != 0 ensures !Fails(store, labels, pc, n) {
      PathStays(store, labels, pc, count, n);
    }
  }

  /** Threading succeeds exactly if no hop fails, and then leads as far as the path. */
  lemma {:induction false} ThreadIs(store: seq<Inst>, labels: map<int, int>, pc: nat)
    requires JumpAt(store, pc)
    ensures var r := Thread(store, labels, pc, store[pc], 0, 0);
            && (r.Ok? <==> forall n :: 0 <= n < 5 ==> !Fails(store, labels, pc, n))
            && (r.Ok? ==> pc + 1 + r.value == Path(store, labels, pc, 5) && r.value <= 131071)
  {
    assert Path(store, labels, pc, 0) == pc;
    ThreadFrom(store, labels, pc, 0, 0);
  }

  // ----- paths in the store and in the code -----

  /** The jump at `pc` stands before one that is in reach of its own label, but not
      from `pc`. */
  ghost predicate BeforeFarJump(code: seq<Inst>, labels: map<int, int>, pc: int) {
    JumpAt(code, pc + 1) && Distance(code, labels, pc, pc + 1) > 131071
  }

  /** Paths are parts of chains of hops. */
  lemma {:induction false} PathIsHop(code: seq<Inst>, labels: map<int, int>, pc: int, n: nat) returns (m: nat)
    ensures m <= n && Path(code, labels, pc, n) == Hop(code, labels, pc, m) && (n >= 1 && m == 0 ==> Path(code, labels, pc, n) == pc)
  {
    m := 0;
    if n > 0 {
      m := PathIsHop(code, labels, pc, n - 1);
      var q := Path(code, labels, pc, n - 1);
      if JumpAt(code, q) && Distance(code, labels, pc, q) <= 131071 {
        HopSnoc(code, labels, pc, m);
        assert Hop(code, labels, LabelPc(labels, code[q].sbx) + 1, 0) == LabelPc(labels, code[q].sbx) + 1;
        m := m + 1;
      }
    }
  }

  /** A chain that never goes back to a patched jump reads the same in the store. */
  lemma {:induction false} SamePath(code: seq<Inst>, store: seq<Inst>, labels: map<int, int>, pc: nat, n: nat)
    requires SameJumps(code, store, pc) && ChainForward(code, labels, pc) && n <= 5
    ensures Path(store, labels, pc, n) == Path(code, labels, pc, n)
  {
    if n > 0 {
      SamePath(code, store, labels, pc, n - 1);
      var q := Path(code, labels, pc, n - 1);
      var m := PathIsHop(code, labels, pc, n - 1);
      if 0 <= q < |code| && q < pc {
        assert q == Hop(code, labels, pc, m) && m >= 1;
        assert !JumpAt(code, q) && !JumpAt(store, q);
      }
    }
  }

  lemma {:induction false} SameFails(code: seq<Inst>, store: seq<Inst>, labels: map<int, int>, pc: nat, n: nat)
    requires SameJumps(code, store, pc) && JumpAt(code, pc) && n < 5 && (BeforeFarJump(code, labels, pc) ==> ChainForward(code, labels, pc))
    ensures Fails(store, labels, pc, n) <==> Fails(code, labels, pc, n)
  {
    if BeforeFarJump(code, labels, pc) {
      SamePath(code, store, labels, pc, n);
    } else if n > 0 && JumpAt(store, pc + 1) {
      assert store[pc + 1] == code[pc + 1];
    }
  }

  // ----- when the pass succeeds -----

  /** The pass before `pc`: what is ahead is as in the code. */
  ghost predicate Passing(code: seq<Inst>, store: seq<Inst>, pc: nat, moven: nat) {
    moven <= pc && SameJumps(code, store, pc)
  }

  function NextPc(code: seq<Inst>, pc: nat): nat
    requires pc < |code|
  {
    if code[pc].Closure? then pc + code[pc].words + 1 else pc + 1
  }

  lemma {:induction false} VisitsNext(code: seq<Inst>, pc: nat, i: nat)
    requires pc < |code|
    ensures Visits(code, pc, i) <==> i == pc || Visits(code, NextPc(code, pc), i)
  {
  }

  /** The store after one instruction is patched. */
  function NextStore(code: seq<Inst>, labels: map<int, int>, store: seq<Inst>, pc: nat, moven: nat): seq<Inst>
    requires pc < |code| == |store| && moven <= pc
  {
    match code[pc]
    case Closure(_, _) => store
    case Move(_, _) => store
    case Jmp(_) =>
      var r := Thread(store, labels, pc, code[pc], 0, 0);
      if r.Ok? then Fuse(PatchJump(store, pc, r.value), pc, moven) else store
    case _ => Fuse(store, pc, moven)
  }

  /** One step of the pass. */
  lemma {:induction false} PatchStep(code: seq<Inst>, labels: map<int, int>, pc: nat, moven: nat, store: seq<Inst>)
    requires pc < |code| && Passing(code, store, pc, moven)
    ensures var store' := NextStore(code, labels, store, pc, moven); var moven' := if code[pc].Move? then moven + 1 else 0;
            && Passing(code, store', NextPc(code, pc), moven')
            && (code[pc].Jmp? ==> JumpAt(store, pc) && store[pc] == code[pc])
            && Patch(code, labels, pc, moven, store)
               == if code[pc].Jmp? && Thread(store, labels, pc, code[pc], 0, 0).TooLongToJump? then TooLongToJump
                  else Patch(code, labels, NextPc(code, pc), moven', store')
  {
  }

  /** The jump at `i` is within reach, and threading it does not run into the one behind
      it while that is out of reach. */
  ghost predicate InReach(code: seq<Inst>, labels: map<int, int>, i: int)
    requires JumpAt(code, i)
  {
    && LabelPc(labels, code[i].sbx) - i <= 131071
    && !exists n :: 1 <= n < 5 && Path(code, labels, i, n) == i + 1 && BeforeFarJump(code, labels, i)
  }

  lemma {:induction false} InReachIs(code: seq<Inst>, labels: map<int, int>, i: int)
    requires JumpAt(code, i)
    ensures InReach(code, labels, i) <==> forall n :: 0 <= n < 5 ==> !Fails(code, labels, i, n)
  {
    assert Path(code, labels, i, 0) == i;
    if InReach(code, labels, i) {
      forall n | 0 <= n < 5 ensures !Fails(code, labels, i, n) {
      }
    }
    if forall n :: 0 <= n < 5 ==> !Fails(code, labels, i, n) {
      assert !Fails(code, labels, i, 0);
      forall n | 1 <= n < 5 && Path(code, labels, i, n) == i + 1 ensures !BeforeFarJump(code, labels, i) {
        assert !Fails(code, labels, i, n);
      }
    }
  }

  lemma {:induction false} SucceedsFrom(code: seq<Inst>, labels: map<int, int>, pc: nat, moven: nat, store: seq<Inst>)
    requires Passing(code, store, pc, moven)
    requires forall i: nat :: Visits(code, pc, i) && JumpAt(code, i) && BeforeFarJump(code, labels, i) ==> ChainForward(code, labels, i)
    ensures Patch(code, labels, pc, moven, store).Ok? <==> forall i: nat :: Visits(code, pc, i) && JumpAt(code, i) ==> InReach(code, labels, i)
    decreases |code| - pc
  {
    if pc < |code| {
      PatchStep(code, labels, pc, moven, store);
      forall i: nat ensures Visits(code, pc, i) <==> i == pc || Visits(code, NextPc(code, pc), i) {
        VisitsNext(code, pc, i);
      }
      if code[pc].Jmp? {
        JumpSucceeds(code, labels, store, pc);
      }
      if !(code[pc].Jmp? && Thread(store, labels, pc, code[pc], 0, 0).TooLongToJump?) {
        SucceedsFrom(code, labels, NextPc(code, pc), if code[pc].Move? then moven + 1 else 0, NextStore(code, labels, store, pc, moven));
      }
    }
  }

  lemma {:induction false} JumpSucceeds(code: seq<Inst>, labels: map<int, int>, store: seq<Inst>, pc: nat)
    requires SameJumps(code, store, pc) && JumpAt(code, pc) && (BeforeFarJump(code, labels, pc) ==> ChainForward(code, labels, pc))
    ensures Thread(store, labels, pc, code[pc], 0, 0).Ok? <==> InReach(code, labels, pc)
  {
    ThreadIs(store, labels, pc);
    InReachIs(code, labels, pc);
    forall n | 0 <= n < 5 ensures Fails(store, labels, pc, n) <==> Fails(code, labels, pc, n) {
      SameFails(code, store, labels, pc, n);
    }
  }

  /** The pass succeeds exactly if every jump it visits is in reach, in code where no jump
      that goes back to a patched one stands before one out of its reach. */
  lemma {:induction false} PatchSucceeds(code: seq<Inst>, labels: map<int, int>)
    requires forall i: nat :: Visits(code, 0, i) && JumpAt(code, i) && BeforeFarJump(code, labels, i) ==> ChainForward(code, labels, i)
    ensures Patch(code, labels, 0, 0, code).Ok? <==> forall i: nat :: Visits(code, 0, i) && JumpAt(code, i) ==> InReach(code, labels, i)
  {
    SucceedsFrom(code, labels, 0, 0, code);
  }

  /** The store as the pass finds it at `i`. */
  function StoreAt(code: seq<Inst>, labels: map<int, int>, pc: nat, moven: nat, store: seq<Inst>, i: nat): seq<Inst>
    requires Passing(code, store, pc, moven)
    decreases |code| - pc
  {
    if pc >= i || pc >= |code| then store
    else
      PatchStep(code, labels, pc, moven, store);
      StoreAt(code, labels, NextPc(code, pc), if code[pc].Move? then moven + 1 else 0, NextStore(code, labels, store, pc, moven), i)
  }

  /** The same for any jump, along the path in the store that the pass finds. */
  ghost predicate InReachThen(code: seq<Inst>, labels: map<int, int>, store: seq<Inst>, i: int)
    requires JumpAt(code, i)
  {
    && LabelPc(labels, code[i].sbx) - i <= 131071
    && !exists n :: 1 <= n < 5 && Path(store, labels, i, n) == i + 1 && BeforeFarJump(code, labels, i)
  }

  lemma {:induction false} ThreadsInReach(code: seq<Inst>, labels: map<int, int>, store: seq<Inst>, pc: nat)
    requires SameJumps(code, store, pc) && JumpAt(code, pc)
    ensures Thread(store, labels, pc, code[pc], 0, 0).Ok? <==> InReachThen(code, labels, store, pc)
  {
    ThreadIs(store, labels, pc);
    InReachIs(store, labels, pc);
    if pc + 1 < |code| {
      assert store[pc + 1] == code[pc + 1];
    }
  }

  /** The jump at `i`, if the pass comes to it, is in reach then. */
  ghost predicate InReachAt(code: seq<Inst>, labels: map<int, int>, pc: nat, moven: nat, store: seq<Inst>, i: nat)
    requires Passing(code, store, pc, moven)
  {
    Visits(code, pc, i) && JumpAt(code, i) ==> InReachThen(code, labels, StoreAt(code, labels, pc, moven, store, i), i)
  }

  /** Behind the next instruction it is the same. */
  lemma {:induction false} InReachNext(code: seq<Inst>, labels: map<int, int>, pc: nat, moven: nat, store: seq<Inst>, i: nat)
    requires pc < |code| && Passing(code, store, pc, moven)
    ensures var pc', moven', store' := NextPc(code, pc), if code[pc].Move? then moven + 1 else 0, NextStore(code, labels, store, pc, moven);
            && Passing(code, store', pc', moven')
            && (i == pc ==> (InReachAt(code, labels, pc, moven, store, i) <==> JumpAt(code, pc) ==> InReachThen(code, labels, store, pc)))
            && (i != pc ==> (InReachAt(code, labels, pc, moven, store, i) <==> InReachAt(code, labels, pc', moven', store', i)))
            && (i == pc ==> InReachAt(code, labels, pc', moven', store', i))
  {
    PatchStep(code, labels, pc, moven, store);
    VisitsNext(code, pc, i);
    var pc' := NextPc(code, pc);
    if Visits(code, pc', i) {
      VisitsAhead(code, pc', i);
    }
  }

  lemma {:induction false} SucceedsExactlyFrom(code: seq<Inst>, labels: map<int, int>, pc: nat, moven: nat, store: seq<Inst>)
    requires Passing(code, store, pc, moven)
    ensures Patch(code, labels, pc, moven, store).Ok? <==> forall i: nat :: InReachAt(code, labels, pc, moven, store, i)
    decreases |code| - pc
  {
    if pc < |code| {
      PatchStep(code, labels, pc, moven, store);
      var pc', moven', store' := NextPc(code, pc), if code[pc].Move? then moven + 1 else 0, NextStore(code, labels, store, pc, moven);
      forall i: nat ensures InReachAt(code, labels, pc, moven, store, i) <==>
                              if i == pc then JumpAt(code, pc) ==> InReachThen(code, labels, store, pc) else InReachAt(code, labels, pc', moven', store', i)
      {
        InReachNext(code, labels, pc, moven, store, i);
      }
      InReachNext(code, labels, pc, moven, store, pc);
      if code[pc].Jmp? {
        ThreadsInReach(code, labels, store, pc);
      }
      if code[pc].Jmp? && Thread(store, labels, pc, code[pc], 0, 0).TooLongToJump? {
        assert !InReachAt(code, labels, pc, moven, store, pc);
      } else {
        SucceedsExactlyFrom(code, labels, pc', moven', store');
        assert InReachAt(code, labels, pc, moven, store, pc);
        if forall i: nat :: InReachAt(code, labels, pc, moven, store, i) {
          forall i: nat ensures InReachAt(code, labels, pc', moven', store', i) {
            assert i != pc ==> InReachAt(code, labels, pc, moven, store, i);
          }
        }
      }
    }
  }

  lemma {:induction false} VisitsAhead(code: seq<Inst>, pc: nat, i: nat)
    requires Visits(code, pc, i)
    ensures i >= pc
  {
  }

  /** For all code: the pass succeeds exactly if every jump it visits is in reach, along
      the path in the store as the pass finds it there. */
  lemma {:induction false} PatchSucceedsExactly(code: seq<Inst>, labels: map<int, int>)
    ensures Patch(code, labels, 0, 0, code).Ok? <==>
            forall i: nat :: Visits(code, 0, i) && JumpAt(code, i) ==> InReachThen(code, labels, StoreAt(code, labels, 0, 0, code, i), i)
  {
    SucceedsExactlyFrom(code, labels, 0, 0, code);
    if forall i: nat :: Visits(code, 0, i) && JumpAt(code, i) ==> InReachThen(code, labels, StoreAt(code, labels, 0, 0, code, i), i) {
      forall i: nat ensures InReachAt(code, labels, 0, 0, code, i) {
      }
    }
    if forall i: nat :: InReachAt(code, labels, 0, 0, code, i) {
      forall i: nat | Visits(code, 0, i) && JumpAt(code, i) ensures InReachThen(code, labels, StoreAt(code, labels, 0, 0, code, i), i) {
        assert InReachAt(code, labels, 0, 0, code, i);
      }
    }
  }

  /** So it succeeds wherever all jumps are within reach and none of them stands before
      one that is only just so; and it fails wherever one is not within reach. */
  lemma {:induction false} PatchSucceedsOrFails(code: seq<Inst>, labels: map<int, int>)
    ensures (forall i: nat :: Visits(code, 0, i) && JumpAt(code, i) ==> LabelPc(labels, code[i].sbx) - i <= 131071 && !BeforeFarJump(code, labels, i)) ==>
              Patch(code, labels, 0, 0, code).Ok?
    ensures forall i: nat :: Visits(code, 0, i) && JumpAt(code, i) && LabelPc(labels, code[i].sbx) - i > 131071 ==> Patch(code, labels, 0, 0, code).TooLongToJump?
  {
    if forall i: nat :: Visits(code, 0, i) && JumpAt(code, i) ==> LabelPc(labels, code[i].sbx) - i <= 131071 && !BeforeFarJump(code, labels, i) {
      PatchSucceeds(code, labels);
    }
    forall i: nat | Visits(code, 0, i) && JumpAt(code, i) && LabelPc(labels, code[i].sbx) - i > 131071 ensures Patch(code, labels, 0, 0, code).TooLongToJump? {
      if Patch(code, labels, 0, 0, code).Ok? {
        JumpsShortened(code, labels, Patch(code, labels, 0, 0, code).value, i);
      }
    }
  }

  /** Both jumps are within reach, but the first leads to the second, whose label is just
      out of reach from there: the pass fails. */
  lemma {:induction false} ZeroJumpFails()
    ensures var code, labels := [Jmp(0), Jmp(1)], map[0 := 0, 1 := 131072];
            && (forall i: nat :: Visits(code, 0, i) && JumpAt(code, i) ==> LabelPc(labels, code[i].sbx) - i <= 131071)
            && Patch(code, labels, 0, 0, code).TooLongToJump?
  {
    var code, labels := [Jmp(0), Jmp(1)], map[0 := 0, 1 := 131072];
    assert Path(code, labels, 0, 0) == 0;
    assert Path(code, labels, 0, 1) == 1 && JumpAt(code, 1);
    assert Fails(code, labels, 0, 1);
    ThreadIs(code, labels, 0);
  }

  // ----- what the pass leaves -----

  /** What is behind the pass stays. */
  lemma {:induction false} Settled(code: seq<Inst>, labels: map<int, int>, pc: nat, moven: nat, store: seq<Inst>)
    requires Passing(code, store, pc, moven) && Patch(code, labels, pc, moven, store).Ok?
    ensures var r := Patch(code, labels, pc, moven, store).value; |r| == |code| && forall i :: 0 <= i < pc - moven && i < |code| ==> r[i] == store[i]
    decreases |code| - pc
  {
    if pc < |code| {
      PatchStep(code, labels, pc, moven, store);
      Settled(code, labels, NextPc(code, pc), if code[pc].Move? then moven + 1 else 0, NextStore(code, labels, store, pc, moven));
    }
  }

  /** The patched jump at `i` is within reach of an instruction's operand, and leads five
      jumps along its path if that never goes back. */
  ghost predicate Shortened(code: seq<Inst>, labels: map<int, int>, r: seq<Inst>, i: int) {
    && |r| == |code| && JumpAt(code, i) && (r[i].Nop? || r[i].Jmp?) && Target(r, i) - (i + 1) <= 131071
    && LabelPc(labels, code[i].sbx) - i <= 131071 && (ChainForward(code, labels, i) ==> Target(r, i) == Path(code, labels, i, 5))
  }

  lemma {:induction false} ShortenedFrom(code: seq<Inst>, labels: map<int, int>, pc: nat, moven: nat, store: seq<Inst>, i: nat)
    requires Passing(code, store, pc, moven) && Patch(code, labels, pc, moven, store).Ok? && Visits(code, pc, i) && JumpAt(code, i)
    ensures Shortened(code, labels, Patch(code, labels, pc, moven, store).value, i)
    decreases |code| - pc
  {
    PatchStep(code, labels, pc, moven, store);
    var store', moven' := NextStore(code, labels, store, pc, moven), if code[pc].Move? then moven + 1 else 0;
    if i == pc {
      ThreadIs(store, labels, pc);
      assert !Fails(store, labels, pc, 0);
      Settled(code, labels, pc + 1, 0, store');
      if ChainForward(code, labels, pc) {
        SamePath(code, store, labels, pc, 5);
      }
    } else {
      VisitsNext(code, pc, i);
      ShortenedFrom(code, labels, NextPc(code, pc), moven', store', i);
    }
  }

  /** In whatever the pass leaves, every jump it visited was and is within reach; if its
      chain never goes back, it leads exactly five jumps further, or as many as there are
      within reach. */
  lemma {:induction false} JumpsShortened(code: seq<Inst>, labels: map<int, int>, r: seq<Inst>, i: nat)
    requires Patch(code, labels, 0, 0, code) == Ok(r) && Visits(code, 0, i) && JumpAt(code, i)
    ensures Shortened(code, labels, r, i)
  {
    ShortenedFrom(code, labels, 0, 0, code, i);
  }

  // ----- runs of moves -----

  /** A run of `n` moves that begins at `i` and ends before another instruction that is
      not a CLOSURE. */
  ghost predicate IsRun(code: seq<Inst>, i: nat, n: nat) {
    && n >= 1 && i + n < |code| && (forall k :: i <= k < i + n ==> code[k].Move?) && !code[i + n].Move? && !code[i + n].Closure?
  }

  function Fused(inst: Inst, n: nat): Inst
    requires inst.Move? && n >= 1
  {
    if n == 1 then inst else MoveN(inst.a, inst.b, if n <= 512 then n - 1 else 511)
  }

  /** In a run, `k` moves in. */
  lemma {:induction false} InRun(code: seq<Inst>, labels: map<int, int>, i: nat, n: nat, k: nat, store: seq<Inst>)
    requires IsRun(code, i, n) && k <= n && Passing(code, store, i + k, k) && store[i] == code[i]
    requires Patch(code, labels, i + k, k, store).Ok?
    ensures var r := Patch(code, labels, i + k, k, store).value; |r| == |code| && r[i] == Fused(code[i], n)
    decreases n - k
  {
    PatchStep(code, labels, i + k, k, store);
    if k < n {
      InRun(code, labels, i, n, k + 1, store);
    } else {
      Settled(code, labels, i + n + 1, 0, NextStore(code, labels, store, i + n, n));
    }
  }

  lemma {:induction false} FusedFrom(code: seq<Inst>, labels: map<int, int>, pc: nat, moven: nat, store: seq<Inst>, i: nat, n: nat)
    requires Passing(code, store, pc, moven) && Patch(code, labels, pc, moven, store).Ok? && Visits(code, pc, i) && IsRun(code, i, n)
    requires if pc == i then moven == 0 else !code[i - 1].Move? || !Visits(code, pc, i - 1)
    ensures var r := Patch(code, labels, pc, moven, store).value; |r| == |code| && r[i] == Fused(code[i], n)
    decreases |code| - pc
  {
    if pc == i {
      InRun(code, labels, i, n, 0, store);
    } else {
      PatchStep(code, labels, pc, moven, store);
      VisitsNext(code, pc, i);
      if i > 0 {
        VisitsNext(code, pc, i - 1);
      }
      FusedFrom(code, labels, NextPc(code, pc), if code[pc].Move? then moven + 1 else 0, NextStore(code, labels, store, pc, moven), i, n);
    }
  }

  /** The first move of every run stands for the whole run, or for 512 moves of it. */
  lemma {:induction false} RunsFused(code: seq<Inst>, labels: map<int, int>, r: seq<Inst>, i: nat, n: nat)
    requires Patch(code, labels, 0, 0, code) == Ok(r) && Visits(code, 0, i) && IsRun(code, i, n)
    requires i > 0 ==> !code[i - 1].Move? || !Visits(code, 0, i - 1)
    ensures |r| == |code| && r[i] == Fused(code[i], n)
  {
    FusedFrom(code, labels, 0, 0, code, i, n);
  }
}
