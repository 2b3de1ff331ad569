/**
 Saving and loading compiled functions (compiler/bytecode/bytecode.go): the byte
 format, a reader whose first error sticks, and what comes back.
 */
module Bytecode {
  import opened PackBytes

  datatype Option<T> = None | Some(value: T)

  type Bytes = seq<Byte>

  /** Constants; `Other` is any value the format has no form for. */
  datatype Const = NilConst | BoolConst(b: bool) | NumConst(bits: nat) | IntConst(i: int) | StringConst(s: Bytes) | OtherConst

  datatype Local = Local(name: Bytes, startPc: int, endPc: int)

  datatype Call = Call(name: Bytes, pc: int)

  datatype Head = Head(source: Bytes, line: int, lastLine: int, numUpvalues: Byte, numParameters: Byte, isVarArg: Byte, numUsedRegisters: Byte)

  datatype Debug = Debug(positions: seq<int>, locals: seq<Local>, calls: seq<Call>, upvalues: seq<Bytes>, typeInfo: Bytes)

  /** A function prototype; `strings` is the cache of its string constants. */
  datatype Proto = Proto(head: Head, code: seq<nat>, constants: seq<Const>, protos: seq<Proto>, debug: Debug, strings: seq<Bytes>)

  const MAGIC: nat := 0x4C554143
  const VERSION: Byte := 2
  const TWO32: int := 0x1_0000_0000

  // ----- writing -----

  function U32(n: nat): Bytes {
    LowBytes(n, 4)
  }

  function U64(v: int): Bytes {
    LowBytes(ToUint64(v), 8)
  }

  function EncString(s: Bytes): Bytes {
    U32(|s|) + s
  }

  function EncMany<T>(enc: T -> Bytes, xs: seq<T>): Bytes {
    if xs == [] then [] else enc(xs[0]) + EncMany(enc, xs[1..])
  }

  function EncList<T>(enc: T -> Bytes, xs: seq<T>): Bytes {
    U32(|xs|) + EncMany(enc, xs)
  }

  function EncConst(c: Const): Bytes {
    match c
    case NilConst => [0]
    case BoolConst(b) => [1, if b then 1 else 0]
    case NumConst(bits) => [2] + U64(bits)
    case IntConst(i) => [3] + U64(i)
    case StringConst(s) => [4] + EncString(s)
    case OtherConst => [0]
  }

  function EncLocal(l: Local): Bytes {
    EncString(l.name) + (U64(l.startPc) + U64(l.endPc))
  }

  function EncCall(c: Call): Bytes {
    EncString(c.name) + U64(c.pc)
  }

  function EncHead(h: Head): Bytes {
    EncString(h.source) + (U64(h.line) + (U64(h.lastLine) + [h.numUpvalues, h.numParameters, h.isVarArg, h.numUsedRegisters]))
  }

  function EncDebug(d: Debug): Bytes {
    EncList(U64, d.positions) + (EncList(EncLocal, d.locals) + (EncList(EncCall, d.calls) + (EncList(EncString, d.upvalues) + EncString(d.typeInfo))))
  }

  function EncProto(p: Proto): Bytes
    decreases p, 2
  {
    EncHead(p.head) + (EncList(U32, p.code) + (EncList(EncConst, p.constants) + (EncNested(p.protos) + EncDebug(p.debug))))
  }

  function EncNested(ps: seq<Proto>): Bytes
    decreases ps, 1
  {
    U32(|ps|) + EncProtos(ps)
  }

  function EncProtos(ps: seq<Proto>): Bytes
    decreases ps, 0
  {
    if ps == [] then [] else EncProto(ps[0]) + EncProtos(ps[1..])
  }

  function Dump(p: Proto): Bytes {
    U32(MAGIC) + ([VERSION] + EncProto(p))
  }

  // ----- reading -----

  /** What is left to read; nothing once a read has failed. */
  type Input = Option<Bytes>

  datatype Out<T> = Out(value: T, rest: Input)

  function Size(s: Input): nat {
    if s.None? then 0 else |s.value| + 1
  }

  function ReadByte(s: Input): (r: Out<Byte>)
    ensures Size(r.rest) <= Size(s)
  {
    if s.None? || s.value == [] then Out(0, None) else Out(s.value[0], Some(s.value[1..]))
  }

  /** A number of `n` bytes, lowest first. */
  function ReadUint(s: Input, n: nat): (r: Out<nat>)
    ensures Size(r.rest) <= Size(s) && (s.Some? && n > 0 ==> Size(r.rest) < Size(s))
  {
    if s.None? || |s.value| < n then Out(0, None) else Out(Number(s.value[..n]), Some(s.value[n..]))
  }

  function ReadU32(s: Input): (r: Out<nat>)
    ensures Size(r.rest) <= Size(s) && (s.Some? ==> Size(r.rest) < Size(s))
  {
    ReadUint(s, 4)
  }

  function ReadU64(s: Input): (r: Out<nat>)
    ensures Size(r.rest) <= Size(s)
  {
    ReadUint(s, 8)
  }

  function ReadInt(s: Input): (r: Out<int>)
    ensures Size(r.rest) <= Size(s)
  {
    var u := ReadU64(s); Out(ToInt64(u.value), u.rest)
  }

  function ReadString(s: Input): (r: Out<Bytes>)
    ensures Size(r.rest) <= Size(s) && (s.Some? ==> Size(r.rest) < Size(s))
  {
    var n := ReadU32(s);
    if n.value == 0 || n.rest.None? then Out([], n.rest)
    else if |n.rest.value| < n.value then Out([], None)
    else Out(n.rest.value[..n.value], Some(n.rest.value[n.value..]))
  }

  ghost predicate Shrinks<T(!new)>(dec: Input -> Out<T>) {
    forall s {:trigger dec(s)} :: Size(dec(s).rest) <= Size(s)
  }

  function ReadMany<T(!new)>(dec: Input -> Out<T>, n: nat, s: Input): (r: Out<seq<T>>)
    requires Shrinks(dec)
    ensures Size(r.rest) <= Size(s)
    decreases n
  {
    if n == 0 then Out([], s) else
    var x := dec(s);
    var xs := ReadMany(dec, n - 1, x.rest);
    Out([x.value] + xs.value, xs.rest)
  }

  function ReadList<T(!new)>(dec: Input -> Out<T>, s: Input): (r: Out<seq<T>>)
    requires Shrinks(dec)
    ensures Size(r.rest) <= Size(s)
  {
    var n := ReadU32(s);
    ReadMany(dec, n.value, n.rest)
  }

  function ReadConst(s: Input): (r: Out<Const>)
    ensures Size(r.rest) <= Size(s)
  {
    var t := ReadByte(s);
    if t.rest.None? then Out(NilConst, None)
    else if t.value == 1 then var b := ReadByte(t.rest); Out(BoolConst(b.value == 1), b.rest)
    else if t.value == 2 then var u := ReadU64(t.rest); Out(NumConst(u.value), u.rest)
    else if t.value == 3 then var i := ReadInt(t.rest); Out(IntConst(i.value), i.rest)
    else if t.value == 4 then var x := ReadString(t.rest); Out(StringConst(x.value), x.rest)
    else Out(NilConst, t.rest)
  }

  function ReadLocal(s: Input): (r: Out<Local>)
    ensures Size(r.rest) <= Size(s)
  {
    var n := ReadString(s);
    var a := ReadInt(n.rest);
    var b := ReadInt(a.rest);
    Out(Local(n.value, a.value, b.value), b.rest)
  }

  function ReadCall(s: Input): (r: Out<Call>)
    ensures Size(r.rest) <= Size(s)
  {
    var n := ReadString(s);
    var a := ReadInt(n.rest);
    Out(Call(n.value, a.value), a.rest)
  }

  function ReadHead(s: Input): (r: Out<Head>)
    ensures Size(r.rest) <= Size(s) && (s.Some? ==> Size(r.rest) < Size(s))
  {
    var source := ReadString(s);
    var line := ReadInt(source.rest);
    var last := ReadInt(line.rest);
    var a := ReadByte(last.rest);
    var b := ReadByte(a.rest);
    var c := ReadByte(b.rest);
    var d := ReadByte(c.rest);
    Out(Head(source.value, line.value, last.value, a.value, b.value, c.value, d.value), d.rest)
  }

  function ReadPositions(s: Input): (r: Out<seq<int>>)
    ensures Size(r.rest) <= Size(s)
  {
    ReadList(ReadInt, s)
  }

  function ReadLocals(s: Input): (r: Out<seq<Local>>)
    ensures Size(r.rest) <= Size(s)
  {
    ReadList(ReadLocal, s)
  }

  function ReadCalls(s: Input): (r: Out<seq<Call>>)
    ensures Size(r.rest) <= Size(s)
  {
    ReadList(ReadCall, s)
  }

  function ReadStrings(s: Input): (r: Out<seq<Bytes>>)
    ensures Size(r.rest) <= Size(s)
  {
    ReadList(ReadString, s)
  }

  function ReadCode(s: Input): (r: Out<seq<nat>>)
    ensures Size(r.rest) <= Size(s)
  {
    ReadList(ReadU32, s)
  }

  function ReadConsts(s: Input): (r: Out<seq<Const>>)
    ensures Size(r.rest) <= Size(s)
  {
    ReadList(ReadConst, s)
  }

  function ReadDebug(s: Input): (r: Out<Debug>)
    ensures Size(r.rest) <= Size(s)
  {
    var positions := ReadPositions(s);
    var locals := ReadLocals(positions.rest);
    var calls := ReadCalls(locals.rest);
    var upvalues := ReadStrings(calls.rest);
    var info := ReadString(upvalues.rest);
    Out(Debug(positions.value, locals.value, calls.value, upvalues.value, info.value), info.rest)
  }

  function ReadProto(s: Input): (r: Out<Proto>)
    ensures Size(r.rest) <= Size(s)
    decreases Size(s), 2, 0
  {
    var h := ReadHead(s);
    var code := ReadCode(h.rest);
    var consts := ReadConsts(code.rest);
    var ps := if s.None? then Out([], None) else ReadNested(consts.rest);
    var d := ReadDebug(ps.rest);
    Out(Proto(h.value, code.value, consts.value, ps.value, d.value, []), d.rest)
  }

  function ReadNested(s: Input): (r: Out<seq<Proto>>)
    ensures Size(r.rest) <= Size(s)
    decreases Size(s), 1, 0
  {
    if s.None? then Out([], None) else
    var n := ReadU32(s);
    ReadProtos(n.value, n.rest)
  }

  /** Nested functions; the first error ends them. */
  function ReadProtos(n: nat, s: Input): (r: Out<seq<Proto>>)
    ensures Size(r.rest) <= Size(s)
    decreases Size(s), 3, n
  {
    if n == 0 || s.None? then Out([], s) else
    var p := ReadProto(s);
    if p.rest.None? then Out([], None) else
    var ps := ReadProtos(n - 1, p.rest);
    Out([p.value] + ps.value, ps.rest)
  }

  datatype Result = Ok(proto: Proto) | InvalidHeader | VersionMismatch | Corrupted

  function StringsOf(cs: seq<Const>): seq<Bytes> {
    seq(|cs|, i requires 0 <= i < |cs| => if cs[i].StringConst? then cs[i].s else [])
  }

  /** The caches of string constants, everywhere. */
  function Rebuild(p: Proto): Proto {
    p.(strings := StringsOf(p.constants), protos := seq(|p.protos|, i requires 0 <= i < |p.protos| => Rebuild(p.protos[i])))
  }

  /** Type information given to a function and all nested in it. */
  function SetTypeInfo(p: Proto, info: Bytes): Proto {
    p.(debug := p.debug.(typeInfo := info), protos := seq(|p.protos|, i requires 0 <= i < |p.protos| => SetTypeInfo(p.protos[i], info)))
  }

  function Loaded(p: Proto): Proto {
    if p.debug.typeInfo == [] then Rebuild(p) else SetTypeInfo(Rebuild(p), p.debug.typeInfo)
  }

  function Undump(data: Bytes): Result {
    var m := ReadU32(Some(data));
    if m.value != MAGIC then InvalidHeader else
    var v := ReadByte(m.rest);
    if v.value != VERSION then VersionMismatch else
    var p := ReadProto(v.rest);
    if p.rest.None? then Corrupted else Ok(Loaded(p.value))
  }
}
