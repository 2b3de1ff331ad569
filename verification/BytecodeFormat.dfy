/**
 The bytes of saved functions (compiler/bytecode/bytecode.go), the header that loading
 asks for, and what it adds to the function it read.
 */
module BytecodeFormat {
  import opened PackBytes
  import opened Bytecode

  // ----- numbers and strings -----

  /** Four bytes, lowest first. */
  lemma {:induction false} NumberBytes(n: nat)
    ensures U32(n) == [n % 256, n / 256 % 256, n / 0x1_0000 % 256, n / 0x100_0000 % 256]
  {
    var a, b, c := n / 256, n / 0x1_0000, n / 0x100_0000;
    assert a / 256 == b && b / 256 == c;
    assert LowBytes(c / 256, 0) == [];
    assert LowBytes(c, 1) == [c % 256];
    assert LowBytes(b, 2) == [b % 256, c % 256];
    assert LowBytes(a, 3) == [a % 256, b % 256, c % 256];
  }

  lemma {:induction false} NumberUnique(a: Bytes, b: Bytes)
    requires |a| == |b| && Number(a) == Number(b)
    ensures a == b
  {
    if a != [] {
      assert a[0] == Number(a) % 256 && b[0] == Number(b) % 256;
      NumberUnique(a[1..], b[1..]);
      assert a == [a[0]] + a[1..] && b == [b[0]] + b[1..];
    }
  }

  lemma {:induction false} NumberOfMagic()
    ensures Number([0x43, 0x41, 0x55, 0x4C]) == 0x4C55_4143
  {
    var s: Bytes := [0x43, 0x41, 0x55, 0x4C];
    assert s[1..] == [0x41, 0x55, 0x4C] && s[1..][1..] == [0x55, 0x4C] && s[1..][1..][1..] == [0x4C] && s[1..][1..][1..][1..] == [];
    assert Number([]) == 0;
    assert Number([0x4C]) == 0x4C;
    assert Number([0x55, 0x4C]) == 0x4C55;
    assert Number([0x41, 0x55, 0x4C]) == 0x4C_5541;
  }

  // ----- the header -----

  /** Data that does not begin with the magic bytes is no saved function, and with any
      version but 2 it is not one of this version. */
  lemma {:induction false} HeaderChecked(data: Bytes)
    ensures Undump(data) == InvalidHeader <==> |data| < 4 || data[..4] != [0x43, 0x41, 0x55, 0x4C]
    ensures |data| >= 4 && data[..4] == [0x43, 0x41, 0x55, 0x4C] ==> (Undump(data) == VersionMismatch <==> |data| == 4 || data[4] != 2)
  {
    NumberOfMagic();
    if |data| >= 4 && Number(data[..4]) == 0x4C55_4143 {
      NumberUnique(data[..4], [0x43, 0x41, 0x55, 0x4C]);
    }
  }

  // ----- the parts of a saved function -----

  function IntBytes(v: int): Bytes {
    LowBytes(v % 0x1_0000_0000_0000_0000, 8)
  }

  function StringBytes(s: Bytes): Bytes {
    LowBytes(|s|, 4) + s
  }

  function ConstBytes(c: Const): Bytes {
    match c
    case NilConst => [0]
    case BoolConst(b) => if b then [1, 1] else [1, 0]
    case NumConst(bits) => [2] + IntBytes(bits)
    case IntConst(i) => [3] + IntBytes(i)
    case StringConst(s) => [4] + StringBytes(s)
    case OtherConst => [0]
  }

  function LocalBytes(l: Local): Bytes {
    StringBytes(l.name) + (IntBytes(l.startPc) + IntBytes(l.endPc))
  }

  function CallBytes(c: Call): Bytes {
    StringBytes(c.name) + IntBytes(c.pc)
  }

  function Concat(parts: seq<Bytes>): Bytes {
    if parts == [] then [] else Concat(parts[..|parts| - 1]) + parts[|parts| - 1]
  }

  function Forms<T(!new)>(form: T -> Bytes, xs: seq<T>): (r: seq<Bytes>)
    ensures |r| == |xs| && forall i :: 0 <= i < |xs| ==> r[i] == form(xs[i])
  {
    seq(|xs|, i requires 0 <= i < |xs| => form(xs[i]))
  }

  /** A count and the forms of the items, in order. */
  ghost predicate Listed<T(!new)>(b: Bytes, form: T -> Bytes, xs: seq<T>) {
    b == LowBytes(|xs|, 4) + Concat(Forms(form, xs))
  }

  lemma {:induction false} ManyIs<T(!new)>(enc: T -> Bytes, form: T -> Bytes, xs: seq<T>, done: seq<T>)
    requires forall x :: enc(x) == form(x)
    ensures Concat(Forms(form, done)) + EncMany(enc, xs) == Concat(Forms(form, done + xs))
    decreases |xs|
  {
    if xs == [] {
      assert done + xs == done;
    } else {
      var next := done + [xs[0]];
      assert next + xs[1..] == done + xs;
      ManyIs(enc, form, xs[1..], next);
      var parts := Forms(form, next);
      assert parts[..|parts| - 1] == Forms(form, done);
      assert parts[|parts| - 1] == enc(xs[0]);
      var p := Concat(Forms(form, done));
      assert p + (enc(xs[0]) + EncMany(enc, xs[1..])) == p + enc(xs[0]) + EncMany(enc, xs[1..]);
    }
  }

  lemma {:induction false} ManyForms<T(!new)>(enc: T -> Bytes, form: T -> Bytes, xs: seq<T>)
    requires forall x :: enc(x) == form(x)
    ensures EncMany(enc, xs) == Concat(Forms(form, xs))
  {
    ManyIs(enc, form, xs, []);
    assert [] + xs == xs && Concat(Forms(form, [])) == [];
    assert [] + EncMany(enc, xs) == EncMany(enc, xs);
  }

  lemma {:induction false} ListedIs<T(!new)>(enc: T -> Bytes, form: T -> Bytes, xs: seq<T>)
    requires forall x :: enc(x) == form(x)
    ensures Listed(EncList(enc, xs), form, xs)
  {
    ManyForms(enc, form, xs);
  }

  /** `b` is the saved form of `p`: its parts in this order, and in the middle its nested
      functions in the same form. */
  ghost predicate IsForm(b: Bytes, p: Proto)
    decreases p
  {
    exists code, constants, nested: seq<Bytes>, positions, locals, calls, upvalues ::
      && b == StringBytes(p.head.source) + IntBytes(p.head.line) + IntBytes(p.head.lastLine)
              + [p.head.numUpvalues, p.head.numParameters, p.head.isVarArg, p.head.numUsedRegisters]
              + code + constants + (LowBytes(|p.protos|, 4) + Concat(nested))
              + positions + locals + calls + upvalues + StringBytes(p.debug.typeInfo)
      && Listed(code, (n: nat) => LowBytes(n, 4), p.code) && Listed(constants, ConstBytes, p.constants)
      && |nested| == |p.protos| && (forall i :: 0 <= i < |nested| ==> IsForm(nested[i], p.protos[i]))
      && Listed(positions, IntBytes, p.debug.positions) && Listed(locals, LocalBytes, p.debug.locals)
      && Listed(calls, CallBytes, p.debug.calls) && Listed(upvalues, StringBytes, p.debug.upvalues)
  }

  lemma {:induction false} ListsListed(p: Proto)
    ensures Listed(EncList(U32, p.code), (n: nat) => LowBytes(n, 4), p.code) && Listed(EncList(EncConst, p.constants), ConstBytes, p.constants)
    ensures Listed(EncList(U64, p.debug.positions), IntBytes, p.debug.positions) && Listed(EncList(EncLocal, p.debug.locals), LocalBytes, p.debug.locals)
    ensures Listed(EncList(EncCall, p.debug.calls), CallBytes, p.debug.calls) && Listed(EncList(EncString, p.debug.upvalues), StringBytes, p.debug.upvalues)
  {
    ListedIs(U32, (n: nat) => LowBytes(n, 4), p.code);
    ListedIs(EncConst, ConstBytes, p.constants);
    ListedIs(U64, IntBytes, p.debug.positions);
    ListedIs(EncLocal, LocalBytes, p.debug.locals);
    ListedIs(EncCall, CallBytes, p.debug.calls);
    ListedIs(EncString, StringBytes, p.debug.upvalues);
  }

  /** The parts of a function one behind the other. */
  lemma {:induction false} Regrouped(a: Bytes, b: Bytes, c: Bytes, d: Bytes, code: Bytes, consts: Bytes, n: Bytes, nested: Bytes, e: Bytes, f: Bytes, g: Bytes, h: Bytes, i: Bytes)
    ensures (a + (b + (c + d))) + (code + (consts + ((n + nested) + (e + (f + (g + (h + i)))))))
            == a + b + c + d + code + consts + (n + nested) + e + f + g + h + i
  {
    var tail := e + (f + (g + (h + i)));
    assert tail == e + f + g + h + i;
    assert a + (b + (c + d)) == a + b + c + d;
    var m := n + nested;
    Chain(a + b + c + d, code, consts, m, tail);
    var x := a + b + c + d + code + consts + m;
    assert x + (e + f + g + h + i) == x + e + f + g + h + i;
  }

  lemma {:induction false} Chain(a: Bytes, b: Bytes, c: Bytes, d: Bytes, e: Bytes)
    ensures a + (b + (c + (d + e))) == a + b + c + d + e
  {
  }

  lemma {:induction false} NestedMany(ps: seq<Proto>)
    ensures EncProtos(ps) == EncMany(EncProto, ps)
  {
    if ps != [] {
      NestedMany(ps[1..]);
    }
  }

  lemma {:induction false} IsFormOf(b: Bytes, p: Proto, code: Bytes, constants: Bytes, nested: seq<Bytes>, positions: Bytes, locals: Bytes, calls: Bytes, upvalues: Bytes)
    requires b == StringBytes(p.head.source) + IntBytes(p.head.line) + IntBytes(p.head.lastLine)
                  + [p.head.numUpvalues, p.head.numParameters, p.head.isVarArg, p.head.numUsedRegisters]
                  + code + constants + (LowBytes(|p.protos|, 4) + Concat(nested))
                  + positions + locals + calls + upvalues + StringBytes(p.debug.typeInfo)
    requires Listed(code, (n: nat) => LowBytes(n, 4), p.code) && Listed(constants, ConstBytes, p.constants)
    requires |nested| == |p.protos| && forall i :: 0 <= i < |nested| ==> IsForm(nested[i], p.protos[i])
    requires Listed(positions, IntBytes, p.debug.positions) && Listed(locals, LocalBytes, p.debug.locals)
    requires Listed(calls, CallBytes, p.debug.calls) && Listed(upvalues, StringBytes, p.debug.upvalues)
    ensures IsForm(b, p)
  {
  }

  /** A function is saved as its parts one behind the other. */
  lemma {:induction false} ProtoLayout(p: Proto)
    ensures IsForm(EncProto(p), p)
    decreases p
  {
    var nested := Forms(EncProto, p.protos);
    forall i | 0 <= i < |nested| ensures IsForm(nested[i], p.protos[i]) {
      ProtoLayout(p.protos[i]);
    }
    BodyIsForm(p, nested);
  }

  lemma {:induction false} BodyIsForm(p: Proto, nested: seq<Bytes>)
    requires nested == Forms(EncProto, p.protos) && forall i :: 0 <= i < |nested| ==> IsForm(nested[i], p.protos[i])
    ensures IsForm(EncProto(p), p)
  {
    NestedMany(p.protos);
    ManyForms(EncProto, EncProto, p.protos);
    ListsListed(p);
    BodyLayout(p, nested);
    var d := p.debug;
    IsFormOf(EncProto(p), p, EncList(U32, p.code), EncList(EncConst, p.constants), nested,
      EncList(U64, d.positions), EncList(EncLocal, d.locals), EncList(EncCall, d.calls), EncList(EncString, d.upvalues));
  }

  lemma {:induction false} BodyLayout(p: Proto, nested: seq<Bytes>)
    requires Concat(nested) == EncProtos(p.protos)
    ensures EncProto(p) == StringBytes(p.head.source) + IntBytes(p.head.line) + IntBytes(p.head.lastLine)
                           + [p.head.numUpvalues, p.head.numParameters, p.head.isVarArg, p.head.numUsedRegisters]
                           + EncList(U32, p.code) + EncList(EncConst, p.constants) + (LowBytes(|p.protos|, 4) + Concat(nested))
                           + EncList(U64, p.debug.positions) + EncList(EncLocal, p.debug.locals) + EncList(EncCall, p.debug.calls)
                           + EncList(EncString, p.debug.upvalues) + StringBytes(p.debug.typeInfo)
  {
    Regrouped(StringBytes(p.head.source), IntBytes(p.head.line), IntBytes(p.head.lastLine),
      [p.head.numUpvalues, p.head.numParameters, p.head.isVarArg, p.head.numUsedRegisters],
      EncList(U32, p.code), EncList(EncConst, p.constants), LowBytes(|p.protos|, 4), Concat(nested),
      EncList(U64, p.debug.positions), EncList(EncLocal, p.debug.locals), EncList(EncCall, p.debug.calls), EncList(EncString, p.debug.upvalues), StringBytes(p.debug.typeInfo));
  }

  /** A file is the magic bytes, the version and the form of the function. */
  lemma {:induction false} FileLayout(p: Proto)
    ensures |Dump(p)| >= 5 && Dump(p)[..5] == [0x43, 0x41, 0x55, 0x4C, 2] && IsForm(Dump(p)[5..], p)
  {
    MagicBytes();
    ProtoLayout(p);
    FileParts(U32(MAGIC), EncProto(p));
  }

  lemma {:induction false} MagicBytes()
    ensures U32(MAGIC) == [0x43, 0x41, 0x55, 0x4C]
  {
    NumberBytes(0x4C55_4143);
  }

  lemma {:induction false} FileParts(m: Bytes, b: Bytes)
    requires m == [0x43, 0x41, 0x55, 0x4C]
    ensures (m + ([2] + b))[..5] == [0x43, 0x41, 0x55, 0x4C, 2] && (m + ([2] + b))[5..] == b
  {
  }

  // ----- what loading adds -----

  /** `q` is `p` with the text of every string constant in its cache, and nothing for
      other constants, everywhere; with `info`, if there is any, as its type information. */
  ghost predicate WithCaches(p: Proto, q: Proto, info: Bytes)
    decreases p
  {
    && q.head == p.head && q.code == p.code && q.constants == p.constants
    && q.debug == (if info == [] then p.debug else p.debug.(typeInfo := info))
    && |q.strings| == |p.constants|
    && (forall i :: 0 <= i < |p.constants| ==> q.strings[i] == if p.constants[i].StringConst? then p.constants[i].s else [])
    && |q.protos| == |p.protos| && forall i :: 0 <= i < |p.protos| ==> WithCaches(p.protos[i], q.protos[i], info)
  }

  lemma {:induction false} RebuildAdds(p: Proto, info: Bytes)
    ensures WithCaches(p, if info == [] then Rebuild(p) else SetTypeInfo(Rebuild(p), info), info)
    decreases p
  {
    forall i | 0 <= i < |p.protos|
      ensures WithCaches(p.protos[i], if info == [] then Rebuild(p.protos[i]) else SetTypeInfo(Rebuild(p.protos[i]), info), info)
    {
      RebuildAdds(p.protos[i], info);
    }
  }

  /** Loading rebuilds the caches, and gives the type information of the root, if there is
      any, to all nested functions. */
  lemma {:induction false} LoadingAdds(p: Proto)
    ensures WithCaches(p, Loaded(p), p.debug.typeInfo)
  {
    RebuildAdds(p, p.debug.typeInfo);
  }
}
