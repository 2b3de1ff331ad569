/**
 Loading what was saved gives the function back, and any shorter text is rejected.
 Both follow from one fact about every part of the format: a reader at the start of
 a part, in a text that may end early, gets past the part with its value, or fails.
 */
module BytecodeProof {
  import opened PackBytes
  import opened Bytecode

  ghost predicate Holds(full: Bytes, p: nat, b: Bytes) {
    p + |b| <= |full| && full[p..p + |b|] == b
  }

  lemma {:induction false} HoldsParts(full: Bytes, p: nat, a: Bytes, b: Bytes)
    requires Holds(full, p, a + b)
    ensures Holds(full, p, a) && Holds(full, p + |a|, b)
  {
    var c := full[p..p + |a| + |b|];
    assert c[..|a|] == full[p..p + |a|] && c[|a|..] == full[p + |a|..p + |a| + |b|];
  }

  /** The input at `p` of a text that ends at `k`; past the end the reader has failed. */
  function Tail(full: Bytes, p: nat, k: nat): Input {
    if p <= k <= |full| then Some(full[p..k]) else None
  }

  /** A reader gets past `b` with the value `x`, or fails if the text ends before. */
  ghost predicate Passes<T(!new)>(dec: Input -> Out<T>, b: Bytes, x: T, full: Bytes, p: nat, k: nat) {
    Holds(full, p, b) && k <= |full| ==>
      dec(Tail(full, p, k)).rest == Tail(full, p + |b|, k) && (p + |b| <= k ==> dec(Tail(full, p, k)).value == x)
  }

  ghost predicate Good<T(!new)>(dec: Input -> Out<T>, b: Bytes, x: T) {
    forall full: Bytes, p: nat, k: nat {:trigger Passes(dec, b, x, full, p, k)} :: Passes(dec, b, x, full, p, k)
  }

  // ----- numbers and strings -----

  lemma {:induction false} SliceParts(full: Bytes, p: nat, n: nat, k: nat)
    requires p + n <= k <= |full|
    ensures full[p..k][..n] == full[p..p + n] && full[p..k][n..] == full[p + n..k]
  {
    var t := full[p..k];
    assert |t[n..]| == |full[p + n..k]| && forall i :: 0 <= i < k - p - n ==> t[n..][i] == full[p + n..k][i];
    assert forall i :: 0 <= i < n ==> t[..n][i] == full[p..p + n][i];
  }

  lemma {:induction false} UintPasses(u: nat, n: nat, full: Bytes, p: nat, k: nat)
    requires u < Pow256(n) && Holds(full, p, LowBytes(u, n)) && k <= |full|
    ensures var r := ReadUint(Tail(full, p, k), n); r.rest == Tail(full, p + n, k) && (p + n <= k ==> r.value == u)
  {
    if p + n <= k {
      SliceParts(full, p, n, k);
      LowBytesNumber(u, n);
      ModUnique(u, Pow256(n), 0, u);
    }
  }

  lemma {:induction false} U32Good(u: nat)
    requires u < TWO32
    ensures Good(ReadU32, U32(u), u) && |U32(u)| == 4
  {
    assert Pow256(4) == TWO32 by {
      assert Pow256(1) == 256 && Pow256(2) == 0x1_0000 && Pow256(3) == 0x100_0000;
    }
    forall full: Bytes, p: nat, k: nat ensures Passes(ReadU32, U32(u), u, full, p, k) {
      if Holds(full, p, U32(u)) && k <= |full| {
        UintPasses(u, 4, full, p, k);
      }
    }
  }

  predicate IsInt64(v: int) {
    -TWO63 <= v < TWO63
  }

  lemma {:induction false} U64Good(u: nat)
    requires u < TWO64
    ensures Good(ReadU64, LowBytes(u, 8), u)
  {
    Pow8();
    forall full: Bytes, p: nat, k: nat ensures Passes(ReadU64, LowBytes(u, 8), u, full, p, k) {
      if Holds(full, p, LowBytes(u, 8)) && k <= |full| {
        UintPasses(u, 8, full, p, k);
      }
    }
  }

  lemma {:induction false} Int64Back(v: int)
    requires IsInt64(v)
    ensures ToUint64(v) < TWO64 && ToInt64(ToUint64(v)) == v
  {
    if v >= 0 {
      ModUnique(v, TWO64, 0, v);
    } else {
      ModUnique(v, TWO64, -1, v + TWO64);
      ModUnique(v + TWO64, TWO64, 0, v + TWO64);
    }
  }

  lemma {:induction false} IntGood(v: int)
    requires IsInt64(v)
    ensures Good(ReadInt, U64(v), v) && |U64(v)| == 8
  {
    Int64Back(v);
    U64Good(ToUint64(v));
    forall full: Bytes, p: nat, k: nat ensures Passes(ReadInt, U64(v), v, full, p, k) {
      assert Passes(ReadU64, LowBytes(ToUint64(v), 8), ToUint64(v), full, p, k);
    }
  }

  lemma {:induction false} ByteGood(b: Byte)
    ensures Good(ReadByte, [b], b)
  {
    forall full: Bytes, p: nat, k: nat ensures Passes(ReadByte, [b], b, full, p, k) {
      if Holds(full, p, [b]) && p + 1 <= k <= |full| {
        assert full[p..p + 1][0] == full[p] && full[p..k][0] == full[p] && full[p..k][1..] == full[p + 1..k];
      }
    }
  }

  lemma {:induction false} StringGood(s: Bytes)
    requires |s| < TWO32
    ensures Good(ReadString, EncString(s), s)
  {
    U32Good(|s|);
    forall full: Bytes, p: nat, k: nat ensures Passes(ReadString, EncString(s), s, full, p, k) {
      if Holds(full, p, EncString(s)) && k <= |full| {
        HoldsParts(full, p, U32(|s|), s);
        assert Passes(ReadU32, U32(|s|), |s|, full, p, k);
        if p + 4 + |s| <= k {
          assert full[p + 4..k][..|s|] == full[p + 4..p + 4 + |s|] && full[p + 4..k][|s|..] == full[p + 4 + |s|..k];
        }
      }
    }
  }

  // ----- one reader after another -----

  /** Reading on behind a part. */
  lemma {:induction false} Step<T(!new)>(dec: Input -> Out<T>, b: Bytes, x: T, full: Bytes, p: nat, k: nat)
    requires Good(dec, b, x) && Holds(full, p, b) && k <= |full|
    ensures dec(Tail(full, p, k)).rest == Tail(full, p + |b|, k) && (p + |b| <= k ==> dec(Tail(full, p, k)).value == x)
  {
    assert Passes(dec, b, x, full, p, k);
  }

  /** Two and three readers in a row, whatever they read. */
  lemma {:induction false} Two<A(!new), B(!new)>(d1: Input -> Out<A>, d2: Input -> Out<B>, b1: Bytes, b2: Bytes, x1: A, x2: B, full: Bytes, p: nat, k: nat)
    requires Good(d1, b1, x1) && Good(d2, b2, x2) && Holds(full, p, b1 + b2) && k <= |full|
    ensures var n := |b1| + |b2|; var o1 := d1(Tail(full, p, k)); var o2 := d2(o1.rest);
            o2.rest == Tail(full, p + n, k) && (p + n <= k ==> o1.value == x1 && o2.value == x2)
  {
    HoldsParts(full, p, b1, b2);
    Step(d1, b1, x1, full, p, k);
    Step(d2, b2, x2, full, p + |b1|, k);
  }

  lemma {:induction false} Three<A(!new), B(!new), C(!new)>(
    d1: Input -> Out<A>, d2: Input -> Out<B>, d3: Input -> Out<C>, b1: Bytes, b2: Bytes, b3: Bytes, x1: A, x2: B, x3: C, full: Bytes, p: nat, k: nat)
    requires Good(d1, b1, x1) && Good(d2, b2, x2) && Good(d3, b3, x3) && Holds(full, p, b1 + (b2 + b3)) && k <= |full|
    ensures var n := |b1| + |b2| + |b3|; var o1 := d1(Tail(full, p, k)); var o2 := d2(o1.rest); var o3 := d3(o2.rest);
            o3.rest == Tail(full, p + n, k) && (p + n <= k ==> o1.value == x1 && o2.value == x2 && o3.value == x3)
  {
    HoldsParts(full, p, b1, b2 + b3);
    Step(d1, b1, x1, full, p, k);
    Two(d2, d3, b2, b3, x2, x3, full, p + |b1|, k);
  }

  /** Five readers in a row. */
  lemma {:induction false} Five<A(!new), B(!new), C(!new), D(!new), E(!new)>(
    d1: Input -> Out<A>, d2: Input -> Out<B>, d3: Input -> Out<C>, d4: Input -> Out<D>, d5: Input -> Out<E>,
    b1: Bytes, b2: Bytes, b3: Bytes, b4: Bytes, b5: Bytes, x1: A, x2: B, x3: C, x4: D, x5: E, full: Bytes, p: nat, k: nat)
    requires Good(d1, b1, x1) && Good(d2, b2, x2) && Good(d3, b3, x3) && Good(d4, b4, x4) && Good(d5, b5, x5)
    requires Holds(full, p, b1 + (b2 + (b3 + (b4 + b5)))) && k <= |full|
    ensures var n := |b1| + |b2| + |b3| + |b4| + |b5|;
            var o1 := d1(Tail(full, p, k)); var o2 := d2(o1.rest); var o3 := d3(o2.rest); var o4 := d4(o3.rest); var o5 := d5(o4.rest);
            && o5.rest == Tail(full, p + n, k)
            && (p + n <= k ==> o1.value == x1 && o2.value == x2 && o3.value == x3 && o4.value == x4 && o5.value == x5)
  {
    HoldsParts(full, p, b1, b2 + (b3 + (b4 + b5)));
    HoldsParts(full, p + |b1|, b2, b3 + (b4 + b5));
    HoldsParts(full, p + |b1| + |b2|, b3, b4 + b5);
    HoldsParts(full, p + |b1| + |b2| + |b3|, b4, b5);
    Step(d1, b1, x1, full, p, k);
    Step(d2, b2, x2, full, p + |b1|, k);
    Step(d3, b3, x3, full, p + |b1| + |b2|, k);
    Step(d4, b4, x4, full, p + |b1| + |b2| + |b3|, k);
    Step(d5, b5, x5, full, p + |b1| + |b2| + |b3| + |b4|, k);
  }

  lemma {:induction false} ManyPasses<T(!new), U(!new)>(enc: U -> Bytes, dec: Input -> Out<T>, us: seq<U>, xs: seq<T>, full: Bytes, p: nat, k: nat)
    requires Shrinks(dec) && |us| == |xs| && (forall i :: 0 <= i < |us| ==> Good(dec, enc(us[i]), xs[i]))
    requires Holds(full, p, EncMany(enc, us)) && k <= |full|
    ensures var r := ReadMany(dec, |us|, Tail(full, p, k)); r.rest == Tail(full, p + |EncMany(enc, us)|, k) && (p + |EncMany(enc, us)| <= k ==> r.value == xs)
    decreases |us|
  {
    if us != [] {
      HoldsParts(full, p, enc(us[0]), EncMany(enc, us[1..]));
      Step(dec, enc(us[0]), xs[0], full, p, k);
      ManyPasses(enc, dec, us[1..], xs[1..], full, p + |enc(us[0])|, k);
    }
  }

  /** Lists of parts. */
  lemma {:induction false} ListPasses<T(!new), U(!new)>(enc: U -> Bytes, dec: Input -> Out<T>, us: seq<U>, xs: seq<T>, full: Bytes, p: nat, k: nat)
    requires Shrinks(dec) && |us| == |xs| < TWO32 && (forall i :: 0 <= i < |us| ==> Good(dec, enc(us[i]), xs[i]))
    requires Holds(full, p, EncList(enc, us)) && k <= |full|
    ensures var r := ReadList(dec, Tail(full, p, k)); r.rest == Tail(full, p + |EncList(enc, us)|, k) && (p + |EncList(enc, us)| <= k ==> r.value == xs)
  {
    HoldsParts(full, p, U32(|us|), EncMany(enc, us));
    U32Good(|us|);
    Step(ReadU32, U32(|us|), |us|, full, p, k);
    if p + 4 <= k {
      ManyPasses(enc, dec, us, xs, full, p + 4, k);
    } else {
      FailedMany(dec, ReadU32(Tail(full, p, k)).value);
    }
  }

  /** A reader of lists of such parts. */
  lemma {:induction false} ListGood<T(!new), U(!new)>(enc: U -> Bytes, dec: Input -> Out<T>, list: Input -> Out<seq<T>>, us: seq<U>, xs: seq<T>)
    requires Shrinks(dec) && |us| == |xs| < TWO32 && (forall i :: 0 <= i < |us| ==> Good(dec, enc(us[i]), xs[i]))
    requires forall s {:trigger list(s)} :: list(s) == ReadList(dec, s)
    ensures Good(list, EncList(enc, us), xs)
  {
    forall full: Bytes, p: nat, k: nat ensures Passes(list, EncList(enc, us), xs, full, p, k) {
      if Holds(full, p, EncList(enc, us)) && k <= |full| {
        ListPasses(enc, dec, us, xs, full, p, k);
      }
    }
  }

  /** A failed reader stays failed. */
  lemma {:induction false} FailedMany<T(!new)>(dec: Input -> Out<T>, n: nat)
    requires Shrinks(dec)
    ensures ReadMany(dec, n, None).rest == None
  {
    assert Size(ReadMany(dec, n, None).rest) <= Size(None);
  }

  // ----- constants and debug records -----

  /** What a constant comes back as: values without a form become nil. */
  function PlainConst(c: Const): Const {
    if c.OtherConst? then NilConst else c
  }

  ghost predicate ConstOk(c: Const) {
    match c
    case NumConst(bits) => bits < TWO64
    case IntConst(i) => IsInt64(i)
    case StringConst(s) => |s| < TWO32
    case _ => true
  }

  lemma {:induction false} ConstPasses(c: Const, full: Bytes, p: nat, k: nat)
    requires ConstOk(c) && Holds(full, p, EncConst(c)) && k <= |full|
    ensures var r := ReadConst(Tail(full, p, k)); r.rest == Tail(full, p + |EncConst(c)|, k) && (p + |EncConst(c)| <= k ==> r.value == PlainConst(c))
  {
    var b := EncConst(c);
    assert b == [b[0]] + b[1..];
    HoldsParts(full, p, [b[0]], b[1..]);
    ByteGood(b[0]);
    Step(ReadByte, [b[0]], b[0], full, p, k);
    match c {
      case BoolConst(x) =>
        ByteGood(b[1]);
        assert b[1..] == [b[1]];
        Step(ReadByte, [b[1]], b[1], full, p + 1, k);
      case NumConst(bits) =>
        NumBits(bits);
        U64Good(bits);
        assert b[1..] == LowBytes(bits, 8);
        Step(ReadU64, LowBytes(bits, 8), bits, full, p + 1, k);
      case IntConst(i) =>
        IntGood(i);
        assert b[1..] == U64(i);
        Step(ReadInt, U64(i), i, full, p + 1, k);
      case StringConst(s) =>
        StringGood(s);
        assert b[1..] == EncString(s);
        Step(ReadString, EncString(s), s, full, p + 1, k);
      case _ =>
    }
  }

  lemma {:induction false} NumBits(bits: nat)
    requires bits < TWO64
    ensures ToUint64(bits) == bits
  {
    ModUnique(bits, TWO64, 0, bits);
  }

  lemma {:induction false} ConstGood(c: Const)
    requires ConstOk(c)
    ensures Good(ReadConst, EncConst(c), PlainConst(c))
  {
    forall full: Bytes, p: nat, k: nat ensures Passes(ReadConst, EncConst(c), PlainConst(c), full, p, k) {
      if Holds(full, p, EncConst(c)) && k <= |full| {
        ConstPasses(c, full, p, k);
      }
    }
  }

  ghost predicate LocalOk(l: Local) {
    |l.name| < TWO32 && IsInt64(l.startPc) && IsInt64(l.endPc)
  }

  lemma {:induction false} LocalGood(l: Local)
    requires LocalOk(l)
    ensures Good(ReadLocal, EncLocal(l), l)
  {
    StringGood(l.name);
    IntGood(l.startPc);
    IntGood(l.endPc);
    forall full: Bytes, p: nat, k: nat ensures Passes(ReadLocal, EncLocal(l), l, full, p, k) {
      if Holds(full, p, EncLocal(l)) && k <= |full| {
        Three(ReadString, ReadInt, ReadInt, EncString(l.name), U64(l.startPc), U64(l.endPc), l.name, l.startPc, l.endPc, full, p, k);
      }
    }
  }

  ghost predicate CallOk(c: Call) {
    |c.name| < TWO32 && IsInt64(c.pc)
  }

  lemma {:induction false} CallGood(c: Call)
    requires CallOk(c)
    ensures Good(ReadCall, EncCall(c), c)
  {
    StringGood(c.name);
    IntGood(c.pc);
    forall full: Bytes, p: nat, k: nat ensures Passes(ReadCall, EncCall(c), c, full, p, k) {
      if Holds(full, p, EncCall(c)) && k <= |full| {
        Two(ReadString, ReadInt, EncString(c.name), U64(c.pc), c.name, c.pc, full, p, k);
      }
    }
  }

  ghost predicate HeadOk(h: Head) {
    |h.source| < TWO32 && IsInt64(h.line) && IsInt64(h.lastLine)
  }

  lemma {:induction false} FourBytes(a: Byte, b: Byte, c: Byte, d: Byte, full: Bytes, p: nat, k: nat)
    requires Holds(full, p, [a, b, c, d]) && k <= |full|
    ensures var r1 := ReadByte(Tail(full, p, k)); var r2 := ReadByte(r1.rest); var r3 := ReadByte(r2.rest); var r4 := ReadByte(r3.rest);
            r4.rest == Tail(full, p + 4, k) && (p + 4 <= k ==> r1.value == a && r2.value == b && r3.value == c && r4.value == d)
  {
    assert [a, b, c, d] == [a] + ([b] + ([c] + [d]));
    HoldsParts(full, p, [a], [b] + ([c] + [d]));
    HoldsParts(full, p + 1, [b], [c] + [d]);
    HoldsParts(full, p + 2, [c], [d]);
    ByteGood(a);
    ByteGood(b);
    ByteGood(c);
    ByteGood(d);
    Step(ReadByte, [a], a, full, p, k);
    Step(ReadByte, [b], b, full, p + 1, k);
    Step(ReadByte, [c], c, full, p + 2, k);
    Step(ReadByte, [d], d, full, p + 3, k);
  }

  lemma {:induction false} HeadPasses(h: Head, full: Bytes, p: nat, k: nat)
    requires HeadOk(h) && Holds(full, p, EncHead(h)) && k <= |full|
    ensures var r := ReadHead(Tail(full, p, k)); r.rest == Tail(full, p + |EncHead(h)|, k) && (p + |EncHead(h)| <= k ==> r.value == h)
  {
    var a, b, c, d := EncString(h.source), U64(h.line), U64(h.lastLine), [h.numUpvalues, h.numParameters, h.isVarArg, h.numUsedRegisters];
    HoldsParts(full, p, a, b + (c + d));
    HoldsParts(full, p + |a|, b, c + d);
    HoldsParts(full, p + |a| + |b|, c, d);
    StringGood(h.source);
    IntGood(h.line);
    IntGood(h.lastLine);
    Step(ReadString, a, h.source, full, p, k);
    Step(ReadInt, b, h.line, full, p + |a|, k);
    Step(ReadInt, c, h.lastLine, full, p + |a| + |b|, k);
    FourBytes(h.numUpvalues, h.numParameters, h.isVarArg, h.numUsedRegisters, full, p + |a| + |b| + |c|, k);
  }

  ghost predicate DebugOk(d: Debug) {
    && |d.positions| < TWO32 && |d.locals| < TWO32 && |d.calls| < TWO32 && |d.upvalues| < TWO32 && |d.typeInfo| < TWO32
    && (forall i :: 0 <= i < |d.positions| ==> IsInt64(d.positions[i])) && (forall i :: 0 <= i < |d.locals| ==> LocalOk(d.locals[i]))
    && (forall i :: 0 <= i < |d.calls| ==> CallOk(d.calls[i])) && (forall i :: 0 <= i < |d.upvalues| ==> |d.upvalues[i]| < TWO32)
  }

  lemma {:induction false} DebugPartsGood(d: Debug)
    requires DebugOk(d)
    ensures forall i :: 0 <= i < |d.positions| ==> Good(ReadInt, U64(d.positions[i]), d.positions[i])
    ensures forall i :: 0 <= i < |d.locals| ==> Good(ReadLocal, EncLocal(d.locals[i]), d.locals[i])
    ensures forall i :: 0 <= i < |d.calls| ==> Good(ReadCall, EncCall(d.calls[i]), d.calls[i])
    ensures forall i :: 0 <= i < |d.upvalues| ==> Good(ReadString, EncString(d.upvalues[i]), d.upvalues[i])
  {
    forall i | 0 <= i < |d.positions| ensures Good(ReadInt, U64(d.positions[i]), d.positions[i]) {
      IntGood(d.positions[i]);
    }
    forall i | 0 <= i < |d.locals| ensures Good(ReadLocal, EncLocal(d.locals[i]), d.locals[i]) {
      LocalGood(d.locals[i]);
    }
    forall i | 0 <= i < |d.calls| ensures Good(ReadCall, EncCall(d.calls[i]), d.calls[i]) {
      CallGood(d.calls[i]);
    }
    forall i | 0 <= i < |d.upvalues| ensures Good(ReadString, EncString(d.upvalues[i]), d.upvalues[i]) {
      StringGood(d.upvalues[i]);
    }
  }

  lemma {:induction false} ListsGood(d: Debug)
    requires DebugOk(d)
    ensures Good(ReadPositions, EncList(U64, d.positions), d.positions) && Good(ReadLocals, EncList(EncLocal, d.locals), d.locals)
    ensures Good(ReadCalls, EncList(EncCall, d.calls), d.calls) && Good(ReadStrings, EncList(EncString, d.upvalues), d.upvalues)
  {
    DebugPartsGood(d);
    ListGood(U64, ReadInt, ReadPositions, d.positions, d.positions);
    ListGood(EncLocal, ReadLocal, ReadLocals, d.locals, d.locals);
    ListGood(EncCall, ReadCall, ReadCalls, d.calls, d.calls);
    ListGood(EncString, ReadString, ReadStrings, d.upvalues, d.upvalues);
  }

  /** The debug information as five parts. */
  lemma {:induction false} JoinDebug(d: Debug, a: Bytes, b: Bytes, c: Bytes, e: Bytes, f: Bytes)
    requires Good(ReadPositions, a, d.positions) && Good(ReadLocals, b, d.locals) && Good(ReadCalls, c, d.calls) && Good(ReadStrings, e, d.upvalues)
    requires Good(ReadString, f, d.typeInfo)
    ensures Good(ReadDebug, a + (b + (c + (e + f))), d)
  {
    forall full: Bytes, p: nat, k: nat ensures Passes(ReadDebug, a + (b + (c + (e + f))), d, full, p, k) {
      DebugPasses(d, a, b, c, e, f, full, p, k);
    }
  }

  lemma {:induction false} DebugPasses(d: Debug, a: Bytes, b: Bytes, c: Bytes, e: Bytes, f: Bytes, full: Bytes, p: nat, k: nat)
    requires Good(ReadPositions, a, d.positions) && Good(ReadLocals, b, d.locals) && Good(ReadCalls, c, d.calls) && Good(ReadStrings, e, d.upvalues)
    requires Good(ReadString, f, d.typeInfo)
    ensures Passes(ReadDebug, a + (b + (c + (e + f))), d, full, p, k)
  {
    if Holds(full, p, a + (b + (c + (e + f)))) && k <= |full| {
      Five(ReadPositions, ReadLocals, ReadCalls, ReadStrings, ReadString, a, b, c, e, f, d.positions, d.locals, d.calls, d.upvalues, d.typeInfo, full, p, k);
    }
  }

  lemma {:induction false} DebugGood(d: Debug)
    requires DebugOk(d)
    ensures Good(ReadDebug, EncDebug(d), d)
  {
    ListsGood(d);
    StringGood(d.typeInfo);
    JoinDebug(d, EncList(U64, d.positions), EncList(EncLocal, d.locals), EncList(EncCall, d.calls), EncList(EncString, d.upvalues), EncString(d.typeInfo));
  }

  // ----- prototypes -----

  /** Everything fits the format: lengths and code words below 2^32, integers of 64
      bits, in this function and all nested in it. */
  ghost predicate Writable(q: Proto) {
    && HeadOk(q.head) && DebugOk(q.debug) && |q.code| < TWO32 && |q.constants| < TWO32 && |q.protos| < TWO32
    && (forall i :: 0 <= i < |q.code| ==> q.code[i] < TWO32) && (forall i :: 0 <= i < |q.constants| ==> ConstOk(q.constants[i]))
    && (forall i :: 0 <= i < |q.protos| ==> Writable(q.protos[i]))
  }

  function PlainConsts(cs: seq<Const>): seq<Const> {
    seq(|cs|, i requires 0 <= i < |cs| => PlainConst(cs[i]))
  }

  /** What is written of a prototype: not the cache, and nil for constants without a
      form. */
  function Plain(q: Proto): Proto {
    Proto(q.head, q.code, PlainConsts(q.constants), PlainAll(q.protos), q.debug, [])
  }

  function PlainAll(qs: seq<Proto>): (r: seq<Proto>)
    ensures |r| == |qs|
  {
    if qs == [] then [] else [Plain(qs[0])] + PlainAll(qs[1..])
  }

  lemma {:induction false} CodeAndConstantsGood(q: Proto)
    requires Writable(q)
    ensures forall i :: 0 <= i < |q.code| ==> Good(ReadU32, U32(q.code[i]), q.code[i])
    ensures forall i :: 0 <= i < |q.constants| ==> Good(ReadConst, EncConst(q.constants[i]), PlainConsts(q.constants)[i])
  {
    forall i | 0 <= i < |q.code| ensures Good(ReadU32, U32(q.code[i]), q.code[i]) {
      U32Good(q.code[i]);
    }
    forall i | 0 <= i < |q.constants| ensures Good(ReadConst, EncConst(q.constants[i]), PlainConsts(q.constants)[i]) {
      ConstGood(q.constants[i]);
    }
  }

  lemma {:induction false} HeadGood(h: Head)
    requires HeadOk(h)
    ensures Good(ReadHead, EncHead(h), h)
  {
    forall full: Bytes, p: nat, k: nat ensures Passes(ReadHead, EncHead(h), h, full, p, k) {
      if Holds(full, p, EncHead(h)) && k <= |full| {
        HeadPasses(h, full, p, k);
      }
    }
  }

  lemma {:induction false} CodeGood(q: Proto)
    requires Writable(q)
    ensures Good(ReadCode, EncList(U32, q.code), q.code) && Good(ReadConsts, EncList(EncConst, q.constants), PlainConsts(q.constants))
  {
    CodeAndConstantsGood(q);
    ListGood(U32, ReadU32, ReadCode, q.code, q.code);
    ListGood(EncConst, ReadConst, ReadConsts, q.constants, PlainConsts(q.constants));
  }

  /** A prototype as five parts, whatever reads them. */
  lemma {:induction false} JoinProto(
    d1: Input -> Out<Head>, d2: Input -> Out<seq<nat>>, d3: Input -> Out<seq<Const>>, d4: Input -> Out<seq<Proto>>, d5: Input -> Out<Debug>,
    whole: Input -> Out<Proto>, q: Proto, a: Bytes, b: Bytes, c: Bytes, e: Bytes, f: Bytes)
    requires Good(d1, a, q.head) && Good(d2, b, q.code) && Good(d3, c, q.constants) && Good(d4, e, q.protos) && Good(d5, f, q.debug) && q.strings == []
    requires forall s {:trigger whole(s)} :: whole(s) ==
               var o1 := d1(s); var o2 := d2(o1.rest); var o3 := d3(o2.rest); var o4 := d4(o3.rest); var o5 := d5(o4.rest);
               Out(Proto(o1.value, o2.value, o3.value, o4.value, o5.value, []), o5.rest)
    ensures Good(whole, a + (b + (c + (e + f))), q)
  {
    forall full: Bytes, p: nat, k: nat ensures Passes(whole, a + (b + (c + (e + f))), q, full, p, k) {
      if Holds(full, p, a + (b + (c + (e + f)))) && k <= |full| {
        Five(d1, d2, d3, d4, d5, a, b, c, e, f, q.head, q.code, q.constants, q.protos, q.debug, full, p, k);
      }
    }
  }

  lemma {:induction false} ReadProtoIs(s: Input)
    ensures ReadProto(s) ==
              var o1 := ReadHead(s); var o2 := ReadCode(o1.rest); var o3 := ReadConsts(o2.rest); var o4 := ReadNested(o3.rest); var o5 := ReadDebug(o4.rest);
              Out(Proto(o1.value, o2.value, o3.value, o4.value, o5.value, []), o5.rest)
  {
  }

  lemma {:induction false} ProtoGood(q: Proto)
    requires Writable(q)
    ensures Good(ReadProto, EncProto(q), Plain(q))
    decreases q, 2
  {
    HeadGood(q.head);
    CodeGood(q);
    NestedGood(q.protos);
    DebugGood(q.debug);
    forall s ensures ReadProto(s) ==
                       var o1 := ReadHead(s); var o2 := ReadCode(o1.rest); var o3 := ReadConsts(o2.rest); var o4 := ReadNested(o3.rest); var o5 := ReadDebug(o4.rest);
                       Out(Proto(o1.value, o2.value, o3.value, o4.value, o5.value, []), o5.rest)
    {
      ReadProtoIs(s);
    }
    JoinProto(ReadHead, ReadCode, ReadConsts, ReadNested, ReadDebug, ReadProto, Plain(q), EncHead(q.head), EncList(U32, q.code), EncList(EncConst, q.constants), EncNested(q.protos), EncDebug(q.debug));
  }

  function Concat(bs: seq<Bytes>): Bytes {
    if bs == [] then [] else bs[0] + Concat(bs[1..])
  }

  /** `many` reads up to `n` values with `one` and stops at the first failure. */
  ghost predicate Stops<T(!new)>(one: Input -> Out<T>, many: (nat, Input) -> Out<seq<T>>) {
    forall n: nat, s {:trigger StopsAt(one, many, n, s)} :: StopsAt(one, many, n, s)
  }

  ghost predicate StopsAt<T(!new)>(one: Input -> Out<T>, many: (nat, Input) -> Out<seq<T>>, n: nat, s: Input) {
    many(n, s) ==
      if n == 0 || s.None? then Out([], s)
      else if one(s).rest.None? then Out([], None)
      else Out([one(s).value] + many(n - 1, one(s).rest).value, many(n - 1, one(s).rest).rest)
  }

  lemma {:induction false} StopsPasses<T(!new)>(one: Input -> Out<T>, many: (nat, Input) -> Out<seq<T>>, bs: seq<Bytes>, xs: seq<T>, full: Bytes, p: nat, k: nat)
    requires Stops(one, many) && |bs| == |xs| && (forall i :: 0 <= i < |bs| ==> Good(one, bs[i], xs[i]))
    requires Holds(full, p, Concat(bs)) && p <= k <= |full|
    ensures var r := many(|bs|, Tail(full, p, k)); r.rest == Tail(full, p + |Concat(bs)|, k) && (p + |Concat(bs)| <= k ==> r.value == xs)
    decreases |bs|
  {
    assert StopsAt(one, many, |bs|, Tail(full, p, k));
    if bs != [] {
      HoldsParts(full, p, bs[0], Concat(bs[1..]));
      Step(one, bs[0], xs[0], full, p, k);
      if p + |bs[0]| <= k {
        StopsPasses(one, many, bs[1..], xs[1..], full, p + |bs[0]|, k);
      }
    }
  }

  function EncodedAll(qs: seq<Proto>): (r: seq<Bytes>)
    ensures |r| == |qs|
  {
    if qs == [] then [] else [EncProto(qs[0])] + EncodedAll(qs[1..])
  }

  lemma {:induction false} EncodedConcat(qs: seq<Proto>)
    ensures Concat(EncodedAll(qs)) == EncProtos(qs)
  {
    if qs != [] {
      EncodedConcat(qs[1..]);
      assert EncodedAll(qs)[1..] == EncodedAll(qs[1..]);
    }
  }

  lemma {:induction false} EncodedAt(qs: seq<Proto>, i: nat)
    requires i < |qs|
    ensures EncodedAll(qs)[i] == EncProto(qs[i]) && PlainAll(qs)[i] == Plain(qs[i])
  {
    if i > 0 {
      EncodedAt(qs[1..], i - 1);
    }
  }

  lemma {:induction false} ReadProtosStops()
    ensures Stops(ReadProto, ReadProtos)
  {
  }

  lemma {:induction false} NestedGood(qs: seq<Proto>)
    requires |qs| < TWO32 && forall i :: 0 <= i < |qs| ==> Writable(qs[i])
    ensures Good(ReadNested, EncNested(qs), PlainAll(qs))
    decreases qs, 1
  {
    var bs, xs := EncodedAll(qs), PlainAll(qs);
    forall i | 0 <= i < |qs| ensures Good(ReadProto, bs[i], xs[i]) {
      ProtoGood(qs[i]);
      EncodedAt(qs, i);
    }
    EncodedConcat(qs);
    U32Good(|qs|);
    ReadProtosStops();
    JoinNested(ReadProto, ReadProtos, ReadNested, bs, xs);
  }

  /** A count and that many values. */
  lemma {:induction false} JoinNested<T(!new)>(one: Input -> Out<T>, many: (nat, Input) -> Out<seq<T>>, nested: Input -> Out<seq<T>>, bs: seq<Bytes>, xs: seq<T>)
    requires Stops(one, many) && |bs| == |xs| < TWO32 && (forall i :: 0 <= i < |bs| ==> Good(one, bs[i], xs[i]))
    requires forall s {:trigger nested(s)} :: nested(s) == if s.None? then Out([], None) else many(ReadU32(s).value, ReadU32(s).rest)
    ensures Good(nested, U32(|bs|) + Concat(bs), xs)
  {
    U32Good(|bs|);
    forall full: Bytes, p: nat, k: nat ensures Passes(nested, U32(|bs|) + Concat(bs), xs, full, p, k) {
      if Holds(full, p, U32(|bs|) + Concat(bs)) && k <= |full| {
        HoldsParts(full, p, U32(|bs|), Concat(bs));
        Step(ReadU32, U32(|bs|), |bs|, full, p, k);
        if p + 4 <= k {
          StopsPasses(one, many, bs, xs, full, p + 4, k);
        } else {
          assert StopsAt(one, many, ReadU32(Tail(full, p, k)).value, None);
        }
      }
    }
  }

  // ----- whole files -----

  lemma {:induction false} MagicGood()
    ensures Good(ReadU32, U32(MAGIC), MAGIC) && |U32(MAGIC)| == 4 && Good(ReadByte, [VERSION], VERSION)
  {
    U32Good(MAGIC);
    ByteGood(VERSION);
  }

  /** Header and contents, whatever the contents are. */
  lemma {:induction false} HeaderPasses<T(!new)>(dec: Input -> Out<T>, c: Bytes, x: T, full: Bytes, k: nat)
    requires Good(dec, c, x) && Holds(full, 0, U32(MAGIC) + ([VERSION] + c)) && k <= |full|
    ensures var m := ReadU32(Some(full[..k])); var v := ReadByte(m.rest); var o := dec(v.rest);
            if k < 5 + |c| then m.value != MAGIC || v.value != VERSION || o.rest.None?
            else m.value == MAGIC && v.value == VERSION && o.rest.Some? && o.value == x
  {
    HoldsParts(full, 0, U32(MAGIC), [VERSION] + c);
    HoldsParts(full, 4, [VERSION], c);
    MagicGood();
    assert Some(full[..k]) == Tail(full, 0, k) by {
      assert full[..k] == full[0..k];
    }
    Step(ReadU32, U32(MAGIC), MAGIC, full, 0, k);
    Step(ReadByte, [VERSION], VERSION, full, 4, k);
    Step(dec, c, x, full, 5, k);
  }

  /** Reading a text that starts like a saved function and ends at `k`. */
  lemma {:induction false} UndumpPrefix(q: Proto, full: Bytes, k: nat)
    requires Writable(q) && Holds(full, 0, Dump(q)) && k <= |full|
    ensures var r := Undump(full[..k]); if k < |Dump(q)| then !r.Ok? else r == Ok(Loaded(Plain(q)))
  {
    ProtoGood(q);
    HeaderPasses(ReadProto, EncProto(q), Plain(q), full, k);
    U32Good(MAGIC);
  }

  /** Loading what was saved gives the function back, with the caches of strings
      rebuilt everywhere and the type information of the root given to all. */
  lemma {:induction false} UndumpDump(q: Proto, more: Bytes)
    requires Writable(q)
    ensures Undump(Dump(q) + more) == Ok(Loaded(Plain(q)))
  {
    var full := Dump(q) + more;
    assert full[0..0 + |Dump(q)|] == Dump(q) && full[..|full|] == full;
    UndumpPrefix(q, full, |full|);
  }

  /** Every strict prefix of a saved function is rejected. */
  lemma {:induction false} PrefixRejected(q: Proto, k: nat)
    requires Writable(q) && k < |Dump(q)|
    ensures !Undump(Dump(q)[..k]).Ok?
  {
    assert Dump(q)[0..0 + |Dump(q)|] == Dump(q);
    UndumpPrefix(q, Dump(q), k);
  }

  // ----- functions as the compiler leaves them -----

  /** Constants all have a form, the caches of strings are there, and nested functions
      have the type information of the root, if it has any. */
  ghost predicate AsCompiled(q: Proto, info: Bytes) {
    && (forall i :: 0 <= i < |q.constants| ==> !q.constants[i].OtherConst?) && q.strings == StringsOf(q.constants)
    && (info != [] ==> q.debug.typeInfo == info)
    && (forall i :: 0 <= i < |q.protos| ==> AsCompiled(q.protos[i], info))
  }

  lemma {:induction false} RebuildPlain(q: Proto, info: Bytes)
    requires AsCompiled(q, info)
    ensures Rebuild(Plain(q)) == q
  {
    assert PlainConsts(q.constants) == q.constants;
    forall i | 0 <= i < |q.protos| ensures Rebuild(Plain(q).protos[i]) == q.protos[i] {
      EncodedAt(q.protos, i);
      RebuildPlain(q.protos[i], info);
    }
    assert Rebuild(Plain(q)).protos == q.protos;
  }

  lemma {:induction false} InfoStays(q: Proto, info: Bytes)
    requires AsCompiled(q, info) && info != []
    ensures SetTypeInfo(q, info) == q
  {
    forall i | 0 <= i < |q.protos| ensures SetTypeInfo(q.protos[i], info) == q.protos[i] {
      InfoStays(q.protos[i], info);
    }
    assert SetTypeInfo(q, info).protos == q.protos;
  }

  /** Such a function comes back as it was. */
  lemma {:induction false} RoundTrip(q: Proto)
    requires Writable(q) && AsCompiled(q, q.debug.typeInfo)
    ensures Undump(Dump(q)) == Ok(q)
  {
    UndumpDump(q, []);
    assert Dump(q) + [] == Dump(q);
    RebuildPlain(q, q.debug.typeInfo);
    if q.debug.typeInfo != [] {
      InfoStays(q, q.debug.typeInfo);
    }
  }
}
