/**
 The writer and the reader of saved functions as they work: a buffer that grows, an
 input that shrinks and is lost with the first error (compiler/bytecode/bytecode.go).
 */
module BytecodeFiles {
  import opened PackBytes
  import opened Bytecode

  lemma {:induction false} ProtosStep(buf: Bytes, ps: seq<Proto>, i: nat)
    requires i < |ps|
    ensures buf + EncProtos(ps[i..]) == buf + EncProto(ps[i]) + EncProtos(ps[i + 1..])
  {
    assert ps[i..][1..] == ps[i + 1..];
    Regroup(buf, EncProto(ps[i]), EncProtos(ps[i + 1..]));
  }

  lemma {:induction false} Regroup(a: Bytes, b: Bytes, c: Bytes)
    ensures a + (b + c) == a + b + c
  {
  }

  lemma {:induction false} RegroupFive(base: Bytes, a: Bytes, b: Bytes, c: Bytes, d: Bytes, e: Bytes)
    ensures base + a + b + c + d + e == base + (a + (b + (c + (d + e))))
  {
    Regroup(base + a + b + c, d, e);
    Regroup(base + a + b, c, d + e);
    Regroup(base + a, b, c + (d + e));
    Regroup(base, a, b + (c + (d + e)));
  }

  predicate Seen(t: nat) {
    true
  }

  predicate SeenAll(t: nat) {
    true
  }

  /** What is read of prototypes, under a token that keeps the readers folded. */
  ghost predicate IsProto(s: Input, o: Out<Proto>) {
    forall t {:trigger Seen(t)} :: Seen(t) ==> o == ReadProto(s)
  }

  ghost predicate IsProtos(n: nat, s: Input, o: Out<seq<Proto>>) {
    forall t {:trigger SeenAll(t)} :: SeenAll(t) ==> o == ReadProtos(n, s)
  }

  lemma {:induction false} ProtosFirst(n: nat, s: Input, p: Out<Proto>, ps: Out<seq<Proto>>)
    requires n > 0 && s.Some? && p.rest.Some?
    ensures IsProto(s, p) && IsProtos(n - 1, p.rest, ps) ==> IsProtos(n, s, Out([p.value] + ps.value, ps.rest))
  {
    assert Seen(0) && SeenAll(0);
  }

  lemma {:induction false} ProtosFailed(n: nat, s: Input, p: Out<Proto>)
    requires n > 0 && s.Some? && IsProto(s, p) && p.rest.None?
    ensures IsProtos(n, s, Out([], None))
  {
    assert Seen(0);
  }

  lemma {:induction false} NoProtos(n: nat, s: Input)
    requires n == 0 || s.None?
    ensures IsProtos(n, s, Out([], s))
  {
  }

  class Writer {
    var buf: Bytes

    constructor ()
      ensures buf == []
    {
      buf := [];
    }

    method Write(b: Bytes)
      modifies this
      ensures buf == old(buf) + b
    {
      buf := buf + b;
    }

    method WriteString(s: Bytes)
      modifies this
      ensures buf == old(buf) + EncString(s)
    {
      Write(U32(|s|));
      if |s| > 0 {
        Write(s);
      }
    }

    /** A count and the items, each by its form. */
    method WriteList<T>(enc: T -> Bytes, xs: seq<T>)
      modifies this
      ensures buf == old(buf) + EncList(enc, xs)
    {
      ghost var base := buf + U32(|xs|);
      Write(U32(|xs|));
      for i := 0 to |xs|
        invariant buf + EncMany(enc, xs[i..]) == base + EncMany(enc, xs)
      {
        ghost var before := buf;
        Write(enc(xs[i]));
        assert xs[i..][1..] == xs[i + 1..];
        assert before + (enc(xs[i]) + EncMany(enc, xs[i + 1..])) == buf + EncMany(enc, xs[i + 1..]);
      }
      assert buf + [] == buf;
    }

    method WriteHead(h: Head)
      modifies this
      ensures buf == old(buf) + EncHead(h)
    {
      WriteString(h.source);
      Write(U64(h.line));
      Write(U64(h.lastLine));
      Write([h.numUpvalues]);
      Write([h.numParameters]);
      Write([h.isVarArg]);
      Write([h.numUsedRegisters]);
    }

    method WriteDebug(d: Debug)
      modifies this
      ensures buf == old(buf) + EncDebug(d)
    {
      WriteList(U64, d.positions);
      WriteList(EncLocal, d.locals);
      WriteList(EncCall, d.calls);
      WriteList(EncString, d.upvalues);
      WriteString(d.typeInfo);
      RegroupFive(old(buf), EncList(U64, d.positions), EncList(EncLocal, d.locals), EncList(EncCall, d.calls), EncList(EncString, d.upvalues), EncString(d.typeInfo));
    }

    method WriteProto(p: Proto)
      modifies this
      ensures buf == old(buf) + EncProto(p)
      decreases p, 1
    {
      WriteHead(p.head);
      WriteList(U32, p.code);
      WriteList(EncConst, p.constants);
      WriteNested(p.protos);
      WriteDebug(p.debug);
      RegroupFive(old(buf), EncHead(p.head), EncList(U32, p.code), EncList(EncConst, p.constants), EncNested(p.protos), EncDebug(p.debug));
    }

    method WriteNested(ps: seq<Proto>)
      modifies this
      ensures buf == old(buf) + EncNested(ps)
      decreases ps, 0
    {
      ghost var base := buf + U32(|ps|);
      Write(U32(|ps|));
      for i := 0 to |ps|
        invariant buf + EncProtos(ps[i..]) == base + EncProtos(ps)
      {
        ProtosStep(buf, ps, i);
        WriteProto(ps[i]);
      }
      assert buf + [] == buf;
      Regroup(old(buf), U32(|ps|), EncProtos(ps));
    }
  }

  method DumpBytes(p: Proto) returns (data: Bytes)
    ensures data == Dump(p)
  {
    var w := new Writer();
    w.Write(U32(MAGIC));
    w.Write([VERSION]);
    w.WriteProto(p);
    data := w.buf;
  }

  class Reader {
    var input: Input

    constructor (data: Bytes)
      ensures input == Some(data)
    {
      input := Some(data);
    }

    method NextByte() returns (b: Byte)
      modifies this
      ensures Out(b, input) == ReadByte(old(input))
    {
      if input.None? || input.value == [] {
        input := None;
        return 0;
      }
      b := input.value[0];
      input := Some(input.value[1..]);
    }

    method NextU32() returns (n: nat)
      modifies this
      ensures Out(n, input) == ReadU32(old(input))
    {
      if input.None? || |input.value| < 4 {
        input := None;
        return 0;
      }
      n := Number(input.value[..4]);
      input := Some(input.value[4..]);
    }

    /** A count, then that many items; reading goes on, in vain, after an error. */
    method NextList<T(!new)>(dec: Input -> Out<T>) returns (xs: seq<T>)
      requires Shrinks(dec)
      modifies this
      ensures Out(xs, input) == ReadList(dec, old(input))
    {
      var n := NextU32();
      xs := [];
      ghost var goal := ReadMany(dec, n, input);
      assert [] + goal.value == goal.value;
      for i := 0 to n
        invariant goal == Out(xs + ReadMany(dec, n - i, input).value, ReadMany(dec, n - i, input).rest)
      {
        var o := dec(input);
        ghost var rest := ReadMany(dec, n - i - 1, o.rest).value;
        assert xs + ([o.value] + rest) == xs + [o.value] + rest;
        xs, input := xs + [o.value], o.rest;
      }
      assert xs + [] == xs;
    }

    method NextProto() returns (p: Proto)
      modifies this
      ensures IsProto(old(input), Out(p, input)) && Size(input) <= Size(old(input))
      decreases Size(input), 1, 0
    {
      ghost var s := input;
      var h := ReadHead(input);
      input := h.rest;
      var code := NextList(ReadU32);
      var constants := NextList(ReadConst);
      var ps: seq<Proto> := [];
      if input.Some? {
        var n := NextU32();
        ghost var o;
        ps, o := NextProtos(n);
        assert SeenAll(0);
      }
      var d := ReadDebug(input);
      input := d.rest;
      p := Proto(h.value, code, constants, ps, d.value, []);
    }

    method NextProtos(n: nat) returns (ps: seq<Proto>, ghost o: Out<seq<Proto>>)
      modifies this
      ensures IsProtos(n, old(input), o) && o == Out(ps, input) && Size(input) <= Size(old(input))
      decreases Size(input), 2, n
    {
      if n == 0 || input.None? {
        NoProtos(n, input);
        return [], Out([], input);
      }
      var p := NextProto();
      ghost var first := Out(p, input);
      if input.None? {
        ProtosFailed(n, old(input), first);
        return [], Out([], None);
      }
      var rest, others := NextProtos(n - 1);
      ProtosFirst(n, old(input), first, others);
      ps := [p] + rest;
      o := Out([first.value] + others.value, others.rest);
    }
  }

  method UndumpBytes(data: Bytes) returns (r: Result)
    ensures r == Undump(data)
  {
    var rd := new Reader(data);
    var magic := rd.NextU32();
    if magic != MAGIC {
      return InvalidHeader;
    }
    var version := rd.NextByte();
    if version != VERSION {
      return VersionMismatch;
    }
    var p := rd.NextProto();
    assert Seen(0);
    if rd.input.None? {
      return Corrupted;
    }
    r := Ok(Loaded(p));
  }
}
