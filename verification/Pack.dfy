/**
 string.pack, string.unpack and string.packsize (stringlib.go) over the integer,
 string, padding and byte order options (section 6.4.2 of the Lua 5.3 manual).
 */
module Pack {
  import opened PackBytes

  /** Integers, strings, and values that no option takes. */
  datatype Value = Int(i: int) | Bytes(s: seq<Byte>) | Other(id: int)

  datatype Result<T> = Ok(value: T) | Err(error: Error)

  /** Raised errors, and `OutOfRange` where the source indexes out of range and
      panics. */
  datatype Error = BadOption | BadArgument | TooShort | Unfinished | VariableLength | OutOfRange

  // ----- format options -----

  /** `Ints` is an integer of a size; `FixedString` has its size, `ZString` ends in a
      zero, `LString` starts with its length in an integer of a size. */
  datatype Opt =
    | SetOrder(order: Order)
    | SetAlign
    | Ints(size: nat, signed: bool)
    | FixedString(size: nat)
    | ZString
    | LString(size: nat)
    | Padding
    | Alignment
    | Unknown

  datatype Parsed = End | Item(opt: Opt, next: nat)

  const SPACE: char := ' '

  function SkipSpaces(fmt: string, pos: nat): (r: nat)
    requires pos <= |fmt|
    ensures pos <= r <= |fmt| && (r < |fmt| ==> fmt[r] != SPACE)
    decreases |fmt| - pos
  {
    if pos < |fmt| && fmt[pos] == SPACE then SkipSpaces(fmt, pos + 1) else pos
  }

  predicate IsDigit(c: char) {
    '0' <= c <= '9'
  }

  function ReadNumber(fmt: string, pos: nat, n: nat): (r: (nat, nat))
    requires pos <= |fmt|
    ensures pos <= r.1 <= |fmt|
    decreases |fmt| - pos
  {
    if pos < |fmt| && IsDigit(fmt[pos]) then ReadNumber(fmt, pos + 1, n * 10 + (fmt[pos] as int - '0' as int)) else (n, pos)
  }

  function GetNum(fmt: string, pos: nat, default: nat): (r: (nat, nat))
    requires pos <= |fmt|
    ensures pos <= r.1 <= |fmt|
  {
    if pos < |fmt| && IsDigit(fmt[pos]) then ReadNumber(fmt, pos, 0) else (default, pos)
  }

  /** The option at `pos`. */
  function NextOpt(fmt: string, pos: nat): (r: Parsed)
    requires pos <= |fmt|
    ensures r.Item? ==> pos < r.next <= |fmt|
  {
    var p := SkipSpaces(fmt, pos);
    if p == |fmt| then End else
    var c, q := fmt[p], p + 1;
    if c == '<' then Item(SetOrder(Little), q)
    else if c == '>' then Item(SetOrder(Big), q)
    else if c == '=' then Item(SetOrder(Little), q)
    else if c == '!' then Item(SetAlign, GetNum(fmt, q, 8).1)
    else if c == 'b' then Item(Ints(1, true), q)
    else if c == 'B' then Item(Ints(1, false), q)
    else if c == 'h' then Item(Ints(2, true), q)
    else if c == 'H' then Item(Ints(2, false), q)
    else if c == 'l' || c == 'j' then Item(Ints(8, true), q)
    else if c == 'L' || c == 'J' || c == 'T' then Item(Ints(8, false), q)
    else if c == 'i' then Item(Ints(GetNum(fmt, q, 4).0, true), GetNum(fmt, q, 4).1)
    else if c == 'I' then Item(Ints(GetNum(fmt, q, 4).0, false), GetNum(fmt, q, 4).1)
    else if c == 'c' then Item(FixedString(GetNum(fmt, q, 0).0), GetNum(fmt, q, 0).1)
    else if c == 'z' then Item(ZString, q)
    else if c == 's' then Item(LString(GetNum(fmt, q, 8).0), GetNum(fmt, q, 8).1)
    else if c == 'x' then Item(Padding, q)
    else if c == 'X' then Item(Alignment, q)
    else Item(Unknown, q)
  }

  /** Options that take an argument. */
  predicate Takes(o: Opt) {
    o.Ints? || o.FixedString? || o.ZString? || o.LString?
  }

  /** Integers go through eight bytes. */
  predicate SizeOk(o: Opt) {
    (o.Ints? || o.LString?) ==> o.size <= 8
  }

  function NewOrder(o: Opt, order: Order): Order {
    if o.SetOrder? then o.order else order
  }

  // ----- integers -----

  /** How integers of a size are written and read, kept apart from the formats. */
  datatype Codec = Codec(
    append: (int, nat, Order) -> seq<Byte>,
    readUint: (seq<Byte>, nat, nat, Order) -> nat,
    readInt: (seq<Byte>, nat, nat, Order) -> int)

  /** An integer of size `n` comes back, read where it was written: signed if it is in
      range, unsigned if it is below 256 to the `n`, and at size 8 any pattern. */
  ghost predicate Codes(c: Codec) {
    forall t {:trigger Shut(t)} :: Shut(t) ==> RoundTrips(c)
  }

  /** A token: what stands under it is unfolded only where a proof asks for it. */
  predicate Shut(t: nat) {
    true
  }

  ghost predicate RoundTrips(c: Codec) {
    && (forall v, n, order :: n <= 8 ==> |c.append(v, n, order)| == n)
    && (forall v, n, order, data, at :: 1 <= n <= 8 && InRange(v, n) && Holds(data, at, c.append(v, n, order)) ==> c.readInt(data, at, n, order) == v)
    && (forall v: int, n, order, data, at :: n <= 8 && 0 <= v < Pow256(n) && Holds(data, at, c.append(v, n, order)) ==> c.readUint(data, at, n, order) == v)
    && (forall v, order, data, at :: InRange(v, 8) && Holds(data, at, c.append(v, 8, order)) ==> ToInt64(c.readUint(data, at, 8, order)) == v)
    && (forall n, order, data, at :: n <= 8 ==> c.readUint(data, at, n, order) < Pow256(n))
    && (forall n, order, data, at :: 1 <= n <= 8 ==> InRange(c.readInt(data, at, n, order), n))
  }

  predicate InRange(v: int, n: nat) {
    0 - Pow256(n) <= 2 * v < Pow256(n)
  }

  /** `data` holds `b` at `at`. */
  predicate Holds(data: seq<Byte>, at: nat, b: seq<Byte>) {
    at + |b| <= |data| && data[at..] == b + data[at + |b|..]
  }

  function ReadUintAt(data: seq<Byte>, at: nat, n: nat, order: Order): nat {
    if n <= 8 && at + n <= |data| then ReadUintN(data[at..], n, order) else 0
  }

  function ReadIntAt(data: seq<Byte>, at: nat, n: nat, order: Order): int {
    if 1 <= n <= 8 && at + n <= |data| then ReadIntN(data[at..], n, order) else 0
  }

  function AppendInt(v: int, n: nat, order: Order): seq<Byte> {
    if n <= 8 then AppendN(ToUint64(v), n, order) else []
  }

  /** The integers of the source. */
  function Integers(): Codec {
    Codec(AppendInt, ReadUintAt, ReadIntAt)
  }

  lemma {:induction false} SignedBack(v: int, n: nat, order: Order, data: seq<Byte>, at: nat)
    requires 1 <= n <= 8 && InRange(v, n) && Holds(data, at, AppendInt(v, n, order))
    ensures ReadIntAt(data, at, n, order) == v
  {
    SignedRoundTrip(v, n, order, data[at + n..]);
  }

  lemma {:induction false} UnsignedBack(v: int, n: nat, order: Order, data: seq<Byte>, at: nat)
    requires n <= 8 && Holds(data, at, AppendInt(v, n, order))
    ensures ReadUintAt(data, at, n, order) == ToUint64(v) % Pow256(n)
  {
    UnsignedRoundTrip(ToUint64(v), n, order, data[at + n..]);
  }

  lemma {:induction false} SmallValue(v: int, n: nat)
    requires n <= 8 && 0 <= v < Pow256(n)
    ensures ToUint64(v) % Pow256(n) == v
  {
    Pow8();
    PowAdd(n, 8 - n);
    Multiple(Pow256(n), Pow256(8 - n));
    ModUnique(v, TWO64, 0, v);
    ModUnique(v, Pow256(n), 0, v);
  }

  lemma {:induction false} WholeValue(v: int)
    requires InRange(v, 8)
    ensures ToInt64(ToUint64(v) % Pow256(8)) == v
  {
    Pow8();
    if v >= 0 {
      ModUnique(v, TWO64, 0, v);
    } else {
      ModUnique(v, TWO64, -1, v + TWO64);
      ModUnique(v + TWO64, TWO64, 0, v + TWO64);
    }
  }

  lemma {:induction false} UintRange(data: seq<Byte>, at: nat, n: nat, order: Order)
    requires n <= 8
    ensures ReadUintAt(data, at, n, order) < Pow256(n)
  {
    if at + n <= |data| {
      UnsignedRead(data[at..], n, order);
    }
  }

  lemma {:induction false} IntRange(data: seq<Byte>, at: nat, n: nat, order: Order)
    requires 1 <= n <= 8
    ensures InRange(ReadIntAt(data, at, n, order), n)
  {
    if at + n <= |data| {
      var b := data[at..];
      SignedRead(b, n, order);
      NumberBound(if order.Big? then Reverse(b[..n]) else b[..n]);
    }
  }

  /** The integers of the source come back, and what is read has its size. */
  lemma {:induction false} IntegersCode()
    ensures Codes(Integers())
  {
    var c := Integers();
    forall v, n, order, data, at | 1 <= n <= 8 && InRange(v, n) && Holds(data, at, c.append(v, n, order)) ensures c.readInt(data, at, n, order) == v {
      SignedBack(v, n, order, data, at);
    }
    forall v: int, n, order, data, at | n <= 8 && 0 <= v < Pow256(n) && Holds(data, at, c.append(v, n, order)) ensures c.readUint(data, at, n, order) == v {
      UnsignedBack(v, n, order, data, at);
      SmallValue(v, n);
    }
    forall v, order, data, at | InRange(v, 8) && Holds(data, at, c.append(v, 8, order)) ensures ToInt64(c.readUint(data, at, 8, order)) == v {
      UnsignedBack(v, 8, order, data, at);
      WholeValue(v);
    }
    forall n, order, data, at | n <= 8 ensures c.readUint(data, at, n, order) < Pow256(n) {
      UintRange(data, at, n, order);
    }
    forall n, order, data, at | 1 <= n <= 8 ensures InRange(c.readInt(data, at, n, order), n) {
      IntRange(data, at, n, order);
    }
  }

  // ----- one option -----

  function Digits(n: nat): seq<Byte> {
    if n < 10 then [48 + n] else Digits(n / 10) + [48 + n % 10]
  }

  /** What a string option makes of its argument: an integer is written in decimal. */
  function TextOf(v: Value): Result<seq<Byte>> {
    match v
    case Int(i) => Ok(if i < 0 then [45] + Digits(0 - i) else Digits(i))
    case Bytes(s) => Ok(s)
    case Other(_) => Err(BadArgument)
  }

  /** The bytes of a string for a string option. */
  function PackText(c: Codec, o: Opt, order: Order, s: seq<Byte>): Result<seq<Byte>>
    requires o.FixedString? || o.ZString? || o.LString?
  {
    match o
    case FixedString(n) => Ok(if |s| < n then s + Repeat(0, n - |s|) else s[..n])
    case ZString => Ok(s + [0])
    case LString(n) => if n > 8 then Err(OutOfRange) else Ok(c.append(|s|, n, order) + s)
  }

  /** The bytes for one argument; other options ignore it. */
  function PackOne(c: Codec, o: Opt, order: Order, v: Value): Result<seq<Byte>> {
    match o
    case Ints(n, _) => if !v.Int? then Err(BadArgument) else if n > 8 then Err(OutOfRange) else Ok(c.append(v.i, n, order))
    case FixedString(_) => if TextOf(v).Err? then Err(BadArgument) else PackText(c, o, order, TextOf(v).value)
    case ZString => if TextOf(v).Err? then Err(BadArgument) else PackText(c, o, order, TextOf(v).value)
    case LString(_) => if TextOf(v).Err? then Err(BadArgument) else PackText(c, o, order, TextOf(v).value)
    case Padding => Ok([0])
    case Unknown => Err(BadOption)
    case _ => Ok([])
  }

  datatype Read = Read(values: seq<Value>, pos: int)

  function FindZero(data: seq<Byte>, pos: nat): nat
    decreases |data| - pos
  {
    if pos < |data| && data[pos] != 0 then FindZero(data, pos + 1) else pos
  }

  /** What an integer option reads at `pos`: a signed one looks at its highest byte,
      which at size 0 is the byte behind it or none. */
  function UnpackInt(c: Codec, n: nat, signed: bool, order: Order, data: seq<Byte>, pos: nat): Result<Read>
    requires n <= 8 && pos + n <= |data|
  {
    if signed && n == 0 then
      if order.Little? || pos == |data| then Err(OutOfRange)
      else Ok(Read([Int(if data[pos] >= 128 then -1 else 0)], pos))
    else if signed then Ok(Read([Int(c.readInt(data, pos, n, order))], pos + n))
    else
      var u := c.readUint(data, pos, n, order);
      Ok(Read([Int(if n == 8 then ToInt64(u) else u)], pos + n))
  }

  /** What one option reads at `pos`, which a caller may start anywhere. A length is
      taken for a signed integer. */
  function UnpackOne(c: Codec, o: Opt, order: Order, data: seq<Byte>, pos: int): Result<Read> {
    match o
    case Ints(n, signed) =>
      if pos + n > |data| then Err(TooShort)
      else if pos < 0 || n > 8 then Err(OutOfRange)
      else UnpackInt(c, n, signed, order, data, pos)
    case FixedString(n) =>
      if pos + n > |data| then Err(TooShort)
      else if pos < 0 then Err(OutOfRange)
      else Ok(Read([Bytes(data[pos..pos + n])], pos + n))
    case ZString =>
      if pos < 0 then Err(OutOfRange) else
      var end := FindZero(data, pos);
      if end >= |data| || end < pos then Err(Unfinished) else Ok(Read([Bytes(data[pos..end])], end + 1))
    case LString(n) =>
      if pos + n > |data| then Err(TooShort)
      else if pos < 0 || n > 8 then Err(OutOfRange)
      else
        var len := ToInt64(c.readUint(data, pos, n, order));
        if pos + n + len > |data| then Err(TooShort)
        else if len < 0 then Err(OutOfRange)
        else Ok(Read([Bytes(data[pos + n..pos + n + len])], pos + n + len))
    case Padding => Ok(Read([], pos + 1))
    case Unknown => Err(BadOption)
    case _ => Ok(Read([], pos))
  }

  // ----- whole formats -----

  /** The options of a format. */
  function Options(fmt: string, pos: nat): seq<Opt>
    requires pos <= |fmt|
    decreases |fmt| - pos
  {
    var p := NextOpt(fmt, pos);
    if p.End? then [] else [p.opt] + Options(fmt, p.next)
  }

  datatype Packed = Packed(bytes: seq<Byte>, used: nat)

  function PackAll(c: Codec, os: seq<Opt>, order: Order, args: seq<Value>): Result<Packed> {
    if os == [] then Ok(Packed([], 0))
    else if Takes(os[0]) && args == [] then Err(BadArgument)
    else
      var one := PackOne(c, os[0], order, if Takes(os[0]) then args[0] else Int(0));
      if one.Err? then Err(one.error) else
      var rest := PackAll(c, os[1..], NewOrder(os[0], order), if Takes(os[0]) then args[1..] else args);
      if rest.Err? then rest else Ok(Packed(one.value + rest.value.bytes, rest.value.used + (if Takes(os[0]) then 1 else 0)))
  }

  function UnpackAll(c: Codec, os: seq<Opt>, order: Order, data: seq<Byte>, at: int): Result<Read> {
    if os == [] then Ok(Read([], at)) else
    var one := UnpackOne(c, os[0], order, data, at);
    if one.Err? then one else
    var rest := UnpackAll(c, os[1..], NewOrder(os[0], order), data, one.value.pos);
    if rest.Err? then rest else Ok(Read(one.value.values + rest.value.values, rest.value.pos))
  }

  function SizeOf(o: Opt): nat {
    if o.Ints? || o.FixedString? then o.size else if o.Padding? then 1 else 0
  }

  function SizeAll(os: seq<Opt>): Result<nat> {
    if os == [] then Ok(0)
    else if os[0].Unknown? then Err(BadOption)
    else if os[0].ZString? || os[0].LString? then Err(VariableLength)
    else
      var rest := SizeAll(os[1..]);
      if rest.Err? then rest else Ok(SizeOf(os[0]) + rest.value)
  }

  // ----- in place -----

  /** The whole result, when `buf` and `used` arguments come before the rest. */
  function AfterPart(buf: seq<Byte>, used: nat, rest: Result<Packed>): Result<Packed> {
    if rest.Err? then rest else Ok(Packed(buf + rest.value.bytes, used + rest.value.used))
  }

  function AfterRead(values: seq<Value>, rest: Result<Read>): Result<Read> {
    if rest.Err? then rest else Ok(Read(values + rest.value.values, rest.value.pos))
  }

  lemma {:induction false} PackStep(c: Codec, os: seq<Opt>, order: Order, args: seq<Value>, arg: nat, buf: seq<Byte>)
    requires os != [] && arg <= |args| && (Takes(os[0]) ==> arg < |args|) && PackOne(c, os[0], order, if Takes(os[0]) then args[arg] else Int(0)).Ok?
    ensures var one, n := PackOne(c, os[0], order, if Takes(os[0]) then args[arg] else Int(0)).value, if Takes(os[0]) then arg + 1 else arg;
            AfterPart(buf, arg, PackAll(c, os, order, args[arg..])) == AfterPart(buf + one, n, PackAll(c, os[1..], NewOrder(os[0], order), args[n..]))
  {
    var one, n := PackOne(c, os[0], order, if Takes(os[0]) then args[arg] else Int(0)).value, if Takes(os[0]) then arg + 1 else arg;
    assert Takes(os[0]) ==> args[arg..][1..] == args[n..];
    var rest := PackAll(c, os[1..], NewOrder(os[0], order), args[n..]);
    assert rest.Ok? ==> buf + (one + rest.value.bytes) == buf + one + rest.value.bytes;
  }

  method StrPack(fmt: string, args: seq<Value>) returns (r: Result<seq<Byte>>)
    ensures var p := PackAll(Integers(), Options(fmt, 0), Little, args); r == if p.Ok? then Ok(p.value.bytes) else Err(p.error)
  {
    var pos, arg, order, buf := 0, 0, Little, [];
    ghost var goal := PackAll(Integers(), Options(fmt, 0), Little, args);
    assert args[0..] == args && (goal.Ok? ==> [] + goal.value.bytes == goal.value.bytes);
    while true
      invariant pos <= |fmt| && arg <= |args|
      invariant goal == AfterPart(buf, arg, PackAll(Integers(), Options(fmt, pos), order, args[arg..]))
      decreases |fmt| - pos
    {
      var p := NextOpt(fmt, pos);
      ghost var os := Options(fmt, pos);
      if p.End? {
        assert buf + [] == buf;
        return Ok(buf);
      }
      assert os[0] == p.opt && os[1..] == Options(fmt, p.next);
      if Takes(p.opt) && arg == |args| {
        return Err(BadArgument);
      }
      var one := PackOne(Integers(), p.opt, order, if Takes(p.opt) then args[arg] else Int(0));
      if one.Err? {
        return Err(one.error);
      }
      PackStep(Integers(), os, order, args, arg, buf);
      if Takes(p.opt) {
        arg := arg + 1;
      }
      buf, order, pos := buf + one.value, NewOrder(p.opt, order), p.next;
    }
  }

  lemma {:induction false} UnpackStep(c: Codec, os: seq<Opt>, order: Order, data: seq<Byte>, at: int, values: seq<Value>)
    requires os != [] && UnpackOne(c, os[0], order, data, at).Ok?
    ensures var one := UnpackOne(c, os[0], order, data, at).value;
            AfterRead(values, UnpackAll(c, os, order, data, at)) == AfterRead(values + one.values, UnpackAll(c, os[1..], NewOrder(os[0], order), data, one.pos))
  {
    var one := UnpackOne(c, os[0], order, data, at).value;
    var rest := UnpackAll(c, os[1..], NewOrder(os[0], order), data, one.pos);
    assert rest.Ok? ==> values + (one.values + rest.value.values) == values + one.values + rest.value.values;
  }

  /** `string.unpack`; positions count from 0 here. */
  method StrUnpack(fmt: string, data: seq<Byte>, start: int) returns (r: Result<Read>)
    ensures r == UnpackAll(Integers(), Options(fmt, 0), Little, data, start)
  {
    var pos, order, at, values := 0, Little, start, [];
    ghost var goal := UnpackAll(Integers(), Options(fmt, 0), Little, data, start);
    assert goal.Ok? ==> [] + goal.value.values == goal.value.values;
    while true
      invariant pos <= |fmt|
      invariant goal == AfterRead(values, UnpackAll(Integers(), Options(fmt, pos), order, data, at))
      decreases |fmt| - pos
    {
      var p := NextOpt(fmt, pos);
      ghost var os := Options(fmt, pos);
      if p.End? {
        assert values + [] == values;
        return Ok(Read(values, at));
      }
      assert os[0] == p.opt && os[1..] == Options(fmt, p.next);
      var one := UnpackOne(Integers(), p.opt, order, data, at);
      if one.Err? {
        return one;
      }
      UnpackStep(Integers(), os, order, data, at, values);
      values, at, order, pos := values + one.value.values, one.value.pos, NewOrder(p.opt, order), p.next;
    }
  }

  method SizeOne(o: Opt) returns (r: Result<nat>)
    ensures r == if o.Unknown? then Err(BadOption) else if o.ZString? || o.LString? then Err(VariableLength) else Ok(SizeOf(o))
  {
    match o {
      case Unknown => r := Err(BadOption);
      case ZString => r := Err(VariableLength);
      case LString(_) => r := Err(VariableLength);
      case Ints(n, _) => r := Ok(n);
      case FixedString(n) => r := Ok(n);
      case Padding => r := Ok(1);
      case _ => r := Ok(0);
    }
  }

  method StrPacksize(fmt: string) returns (r: Result<nat>)
    ensures r == SizeAll(Options(fmt, 0))
  {
    var pos, size := 0, 0;
    ghost var goal := SizeAll(Options(fmt, 0));
    while true
      invariant pos <= |fmt| && size >= 0
      invariant var rest := SizeAll(Options(fmt, pos)); goal == if rest.Err? then rest else Ok(size + rest.value)
      decreases |fmt| - pos
    {
      var p := NextOpt(fmt, pos);
      if p.End? {
        return Ok(size);
      }
      assert Options(fmt, pos)[0] == p.opt && Options(fmt, pos)[1..] == Options(fmt, p.next);
      var one := SizeOne(p.opt);
      if one.Err? {
        return one;
      }
      size, pos := size + one.value, p.next;
    }
  }

  // ----- the round trip -----

  /** Arguments that survive their option, when `behind` are the bytes of the options
      behind it: integers that fit the size, or any 64-bit integer where the size is 8;
      a signed integer of size 0 if the next byte has its sign; strings of the fixed
      size, without zeros, or of a length that fits. */
  ghost predicate Fits(o: Opt, v: Value, order: Order, behind: seq<Byte>) {
    match o
    case Ints(n, signed) =>
      v.Int? && if signed then (if n == 0 then SignBehind(v.i, order, behind) else InRange(v.i, n))
                else if n == 8 then InRange(v.i, 8) else 0 <= v.i < Pow256(n)
    case FixedString(n) => v.Bytes? && |v.s| == n
    case ZString => v.Bytes? && forall i :: 0 <= i < |v.s| ==> v.s[i] != 0
    case LString(n) => v.Bytes? && |v.s| < Pow256(n) && |v.s| < TWO63
    case _ => true
  }

  /** What a signed integer of size 0 reads in the byte behind it, in big endian order. */
  predicate SignBehind(i: int, order: Order, behind: seq<Byte>) {
    order.Big? && behind != [] && i == if behind[0] >= 128 then -1 else 0
  }

  /** All arguments of the options fit. */
  ghost predicate AllFit(c: Codec, os: seq<Opt>, order: Order, args: seq<Value>) {
    os != [] && (Takes(os[0]) ==> args != []) ==>
      var args' := if Takes(os[0]) then args[1..] else args;
      var rest := PackAll(c, os[1..], NewOrder(os[0], order), args');
      && (Takes(os[0]) && rest.Ok? ==> Fits(os[0], args[0], order, rest.value.bytes))
      && AllFit(c, os[1..], NewOrder(os[0], order), args')
  }

  lemma {:induction false} HoldsParts(data: seq<Byte>, at: nat, a: seq<Byte>, b: seq<Byte>)
    requires Holds(data, at, a + b)
    ensures Holds(data, at, a) && Holds(data, at + |a|, b)
  {
    var rest := data[at + |a| + |b|..];
    assert data[at..] == a + (b + rest);
    assert data[at + |a|..] == data[at..][|a|..] == b + rest;
  }

  lemma {:induction false} FindZeroIs(data: seq<Byte>, at: nat, s: seq<Byte>)
    requires Holds(data, at, s + [0]) && forall i :: 0 <= i < |s| ==> s[i] != 0
    ensures FindZero(data, at) == at + |s|
    decreases |s|
  {
    assert data[at] == data[at..][0] == (s + [0])[0];
    if s != [] {
      assert s + [0] == [s[0]] + (s[1..] + [0]);
      HoldsParts(data, at, [s[0]], s[1..] + [0]);
      FindZeroIs(data, at + 1, s[1..]);
    }
  }

  lemma {:induction false} SliceHeld(data: seq<Byte>, at: nat, b: seq<Byte>)
    requires Holds(data, at, b)
    ensures data[at..at + |b|] == b
  {
    assert data[at..at + |b|] == data[at..][..|b|];
  }

  lemma {:induction false} LengthBack(c: Codec, n: nat, order: Order, s: seq<Byte>, data: seq<Byte>, at: nat)
    requires Codes(c) && n <= 8 && |s| < Pow256(n) && |s| < TWO63 && Holds(data, at, c.append(|s|, n, order) + s)
    ensures UnpackOne(c, LString(n), order, data, at) == Ok(Read([Bytes(s)], at + n + |s|))
  {
    assert Shut(0);
    HoldsParts(data, at, c.append(|s|, n, order), s);
    SliceHeld(data, at + n, s);
  }

  /** `data` ends in `b`, from `at` on. */
  predicate Ends(data: seq<Byte>, at: nat, b: seq<Byte>) {
    at <= |data| && data[at..] == b
  }

  lemma {:induction false} EndsHolds(data: seq<Byte>, at: nat, a: seq<Byte>, b: seq<Byte>)
    requires Ends(data, at, a + b)
    ensures Holds(data, at, a) && Ends(data, at + |a|, b)
  {
    assert data[at + |a|..] == data[at..][|a|..] == b;
  }

  /** One option reads back what it wrote. */
  lemma {:induction false} OneBack(c: Codec, o: Opt, order: Order, v: Value, b: seq<Byte>, behind: seq<Byte>, data: seq<Byte>, at: nat)
    requires Codes(c) && PackOne(c, o, order, v) == Ok(b) && (Takes(o) ==> Fits(o, v, order, behind)) && Ends(data, at, b + behind)
    ensures UnpackOne(c, o, order, data, at) == Ok(Read(if Takes(o) then [v] else [], at + |b|))
  {
    EndsHolds(data, at, b, behind);
    match o {
      case FixedString(n) => StringBack(c, o, order, v, b, data, at);
      case ZString => StringBack(c, o, order, v, b, data, at);
      case LString(n) => LStringBack(c, n, order, v, b, data, at);
      case Ints(n, signed) => IntBack(c, n, signed, order, v, b, behind, data, at);
      case _ =>
    }
  }

  lemma {:induction false} StringBack(c: Codec, o: Opt, order: Order, v: Value, b: seq<Byte>, data: seq<Byte>, at: nat)
    requires (o.FixedString? || o.ZString?) && PackOne(c, o, order, v) == Ok(b) && Fits(o, v, order, []) && Holds(data, at, b)
    ensures UnpackOne(c, o, order, data, at) == Ok(Read([v], at + |b|))
  {
    if o.FixedString? {
      assert v.s[..o.size] == v.s;
    } else {
      FindZeroIs(data, at, v.s);
      HoldsParts(data, at, v.s, [0]);
    }
    SliceHeld(data, at, v.s);
  }

  lemma {:induction false} LStringBack(c: Codec, n: nat, order: Order, v: Value, b: seq<Byte>, data: seq<Byte>, at: nat)
    requires Codes(c) && PackOne(c, LString(n), order, v) == Ok(b) && Fits(LString(n), v, order, []) && Holds(data, at, b)
    ensures UnpackOne(c, LString(n), order, data, at) == Ok(Read([v], at + |b|))
  {
    LengthBack(c, n, order, v.s, data, at);
    assert |c.append(|v.s|, n, order)| == n by {
      assert Shut(0);
    }
  }

  lemma {:induction false} IntBack(c: Codec, n: nat, signed: bool, order: Order, v: Value, b: seq<Byte>, behind: seq<Byte>, data: seq<Byte>, at: nat)
    requires Codes(c) && PackOne(c, Ints(n, signed), order, v) == Ok(b) && Fits(Ints(n, signed), v, order, behind)
    requires Ends(data, at, b + behind) && Holds(data, at, b)
    ensures UnpackOne(c, Ints(n, signed), order, data, at) == Ok(Read([v], at + |b|))
  {
    assert Shut(0);
    if signed && n == 0 {
      assert b == [] && b + behind == behind && data[at] == data[at..][0];
    }
  }

  lemma {:induction false} NoZeroBefore(data: seq<Byte>, pos: nat)
    ensures pos <= |data| ==> pos <= FindZero(data, pos) <= |data| && forall i :: pos <= i < FindZero(data, pos) ==> data[i] != 0
    decreases |data| - pos
  {
    if pos < |data| && data[pos] != 0 {
      NoZeroBefore(data, pos + 1);
    }
  }

  /** ... and only what fits comes back. */
  lemma {:induction false} OnlyFitting(c: Codec, o: Opt, order: Order, v: Value, b: seq<Byte>, behind: seq<Byte>, data: seq<Byte>, at: nat, x: Read)
    requires Codes(c) && Takes(o) && PackOne(c, o, order, v) == Ok(b) && Ends(data, at, b + behind)
    requires UnpackOne(c, o, order, data, at) == Ok(x) && x.values == [v]
    ensures Fits(o, v, order, behind)
  {
    match o {
      case Ints(n, signed) => OnlyFittingInt(c, n, signed, order, v, b, behind, data, at, x);
      case ZString => NoZeroBefore(data, at);
      case LString(n) => OnlyFittingLength(c, n, order, v, data, at, x);
      case _ =>
    }
  }

  lemma {:induction false} OnlyFittingInt(c: Codec, n: nat, signed: bool, order: Order, v: Value, b: seq<Byte>, behind: seq<Byte>, data: seq<Byte>, at: nat, x: Read)
    requires Codes(c) && PackOne(c, Ints(n, signed), order, v) == Ok(b) && Ends(data, at, b + behind)
    requires UnpackOne(c, Ints(n, signed), order, data, at) == Ok(x) && x.values == [v]
    ensures Fits(Ints(n, signed), v, order, behind)
  {
    assert Shut(0);
    Pow8();
    if signed && n == 0 {
      assert b == [] && b + behind == behind && data[at] == data[at..][0];
    }
  }

  lemma {:induction false} OnlyFittingLength(c: Codec, n: nat, order: Order, v: Value, data: seq<Byte>, at: nat, x: Read)
    requires Codes(c) && UnpackOne(c, LString(n), order, data, at) == Ok(x) && x.values == [v]
    ensures v.Bytes? && |v.s| < Pow256(n) && |v.s| < TWO63
  {
    assert Shut(0);
    var u := c.readUint(data, at, n, order);
    assert u < Pow256(n) && |v.s| == ToInt64(u);
  }

  /** Results of packing and unpacking, under a token. */
  ghost predicate IsPackedOne(c: Codec, o: Opt, order: Order, v: Value, b: seq<Byte>) {
    forall t {:trigger Hid(t)} :: Hid(t) ==> PackOne(c, o, order, v) == Ok(b)
  }

  ghost predicate IsPacked(c: Codec, os: seq<Opt>, order: Order, args: seq<Value>, p: Packed) {
    forall t {:trigger Hid(t)} :: Hid(t) ==> PackAll(c, os, order, args) == Ok(p)
  }

  ghost predicate IsReadOne(c: Codec, o: Opt, order: Order, data: seq<Byte>, at: int, x: Read) {
    forall t {:trigger Hid(t)} :: Hid(t) ==> UnpackOne(c, o, order, data, at) == Ok(x)
  }

  ghost predicate IsRead(c: Codec, os: seq<Opt>, order: Order, data: seq<Byte>, at: int, x: Read) {
    forall t {:trigger Hid(t)} :: Hid(t) ==> UnpackAll(c, os, order, data, at) == Ok(x)
  }

  predicate Hid(t: nat) {
    true
  }

  lemma {:induction false} UnpackCons(c: Codec, os: seq<Opt>, order: Order, data: seq<Byte>, at: nat, x: Read, y: Read)
    requires os != [] && IsReadOne(c, os[0], order, data, at, x) && IsRead(c, os[1..], NewOrder(os[0], order), data, x.pos, y)
    ensures IsRead(c, os, order, data, at, Read(x.values + y.values, y.pos))
  {
    assert Hid(0);
  }

  lemma {:induction false} FirstOf(args: seq<Value>, k: nat)
    ensures k <= |args| ==> [] + args[..k] == args[..k]
    ensures args != [] && k <= |args| - 1 ==> [args[0]] + args[1..][..k] == args[..k + 1]
  {
  }

  /** The parts of a packed format: the bytes of its first option and the rest. */
  lemma {:induction false} PackParts(c: Codec, os: seq<Opt>, order: Order, args: seq<Value>, p: Packed) returns (one: seq<Byte>, rest: Packed)
    requires os != [] && IsPacked(c, os, order, args, p)
    ensures Takes(os[0]) ==> args != []
    ensures IsPackedOne(c, os[0], order, if Takes(os[0]) then args[0] else Int(0), one)
    ensures IsPacked(c, os[1..], NewOrder(os[0], order), if Takes(os[0]) then args[1..] else args, rest)
    ensures p == Packed(one + rest.bytes, rest.used + (if Takes(os[0]) then 1 else 0))
  {
    assert Hid(0);
    one := PackOne(c, os[0], order, if Takes(os[0]) then args[0] else Int(0)).value;
    rest := PackAll(c, os[1..], NewOrder(os[0], order), if Takes(os[0]) then args[1..] else args).value;
  }

  /** The whole format reads back what it wrote, if the arguments fit. */
  lemma {:induction false} AllBack(c: Codec, os: seq<Opt>, order: Order, args: seq<Value>, p: Packed, data: seq<Byte>, at: nat)
    requires Codes(c) && AllFit(c, os, order, args) && IsPacked(c, os, order, args, p) && Ends(data, at, p.bytes)
    ensures p.used <= |args| && IsRead(c, os, order, data, at, Read(args[..p.used], at + |p.bytes|))
    decreases |os|
  {
    if os == [] {
      NothingPacked(c, os, order, args, p, data, at);
    } else {
      var o := os[0];
      var one, rest := PackParts(c, os, order, args, p);
      var v, args' := if Takes(o) then args[0] else Int(0), if Takes(o) then args[1..] else args;
      FitParts(c, os, order, args, rest);
      FirstBack(c, o, order, v, one, rest.bytes, data, at);
      AllBack(c, os[1..], NewOrder(o, order), args', rest, data, at + |one|);
      Reassembled(c, os, order, args, p, one, rest, data, at);
    }
  }

  lemma {:induction false} FitParts(c: Codec, os: seq<Opt>, order: Order, args: seq<Value>, rest: Packed)
    requires os != [] && (Takes(os[0]) ==> args != [])
    requires IsPacked(c, os[1..], NewOrder(os[0], order), if Takes(os[0]) then args[1..] else args, rest)
    ensures AllFit(c, os, order, args) <==>
              && (Takes(os[0]) ==> Fits(os[0], args[0], order, rest.bytes))
              && AllFit(c, os[1..], NewOrder(os[0], order), if Takes(os[0]) then args[1..] else args)
  {
    assert Hid(0);
  }

  /** What the first option and the others read back is what they were given. */
  lemma {:induction false} Reassembled(c: Codec, os: seq<Opt>, order: Order, args: seq<Value>, p: Packed, one: seq<Byte>, rest: Packed, data: seq<Byte>, at: nat)
    requires os != [] && (Takes(os[0]) ==> args != []) && p == Packed(one + rest.bytes, rest.used + (if Takes(os[0]) then 1 else 0))
    requires rest.used <= |if Takes(os[0]) then args[1..] else args|
    requires IsReadOne(c, os[0], order, data, at, Read(if Takes(os[0]) then [args[0]] else [], at + |one|))
    requires IsRead(c, os[1..], NewOrder(os[0], order), data, at + |one|, Read((if Takes(os[0]) then args[1..] else args)[..rest.used], at + |one| + |rest.bytes|))
    ensures p.used <= |args| && IsRead(c, os, order, data, at, Read(args[..p.used], at + |p.bytes|))
  {
    var args' := if Takes(os[0]) then args[1..] else args;
    UnpackCons(c, os, order, data, at, Read(if Takes(os[0]) then [args[0]] else [], at + |one|), Read(args'[..rest.used], at + |one| + |rest.bytes|));
    FirstOf(args, rest.used);
  }

  lemma {:induction false} NothingPacked(c: Codec, os: seq<Opt>, order: Order, args: seq<Value>, p: Packed, data: seq<Byte>, at: nat)
    requires os == [] && IsPacked(c, os, order, args, p)
    ensures p == Packed([], 0) && IsRead(c, os, order, data, at, Read(args[..0], at))
  {
    assert Hid(0);
  }

  lemma {:induction false} FirstBack(c: Codec, o: Opt, order: Order, v: Value, one: seq<Byte>, rest: seq<Byte>, data: seq<Byte>, at: nat)
    requires Codes(c) && IsPackedOne(c, o, order, v, one) && (Takes(o) ==> Fits(o, v, order, rest)) && Ends(data, at, one + rest)
    ensures IsReadOne(c, o, order, data, at, Read(if Takes(o) then [v] else [], at + |one|)) && Ends(data, at + |one|, rest)
  {
    assert Hid(0);
    EndsHolds(data, at, one, rest);
    OneBack(c, o, order, v, one, rest, data, at);
  }

  /** The parts of what a format reads: one value for an option that takes an argument,
      none for any other, and the rest. */
  lemma {:induction false} UnpackParts(c: Codec, os: seq<Opt>, order: Order, data: seq<Byte>, at: int, z: Read) returns (x: Read, y: Read)
    requires os != [] && IsRead(c, os, order, data, at, z)
    ensures IsReadOne(c, os[0], order, data, at, x) && IsRead(c, os[1..], NewOrder(os[0], order), data, x.pos, y) && z == Read(x.values + y.values, y.pos)
    ensures |x.values| == if Takes(os[0]) then 1 else 0
  {
    assert Hid(0);
    x := UnpackOne(c, os[0], order, data, at).value;
    y := UnpackAll(c, os[1..], NewOrder(os[0], order), data, x.pos).value;
  }

  lemma {:induction false} FirstFits(c: Codec, o: Opt, order: Order, v: Value, one: seq<Byte>, rest: seq<Byte>, data: seq<Byte>, at: nat, x: Read)
    requires Codes(c) && Takes(o) && IsPackedOne(c, o, order, v, one) && Ends(data, at, one + rest) && IsReadOne(c, o, order, data, at, x) && x.values == [v]
    ensures Fits(o, v, order, rest)
  {
    assert Hid(0);
    OnlyFitting(c, o, order, v, one, rest, data, at, x);
  }

  lemma {:induction false} ReadUnique(c: Codec, o: Opt, order: Order, data: seq<Byte>, at: int, x: Read, y: Read)
    requires IsReadOne(c, o, order, data, at, x) && IsReadOne(c, o, order, data, at, y)
    ensures x == y
  {
    assert Hid(0);
  }

  /** If a format reads its arguments back, they fit. */
  lemma {:induction false} OnlyIfFit(c: Codec, os: seq<Opt>, order: Order, args: seq<Value>, p: Packed, data: seq<Byte>, at: nat, z: Read)
    requires Codes(c) && IsPacked(c, os, order, args, p) && Ends(data, at, p.bytes) && p.used <= |args|
    requires IsRead(c, os, order, data, at, z) && z.values == args[..p.used]
    ensures AllFit(c, os, order, args)
    decreases |os|
  {
    if os != [] {
      var o := os[0];
      var one, rest := PackParts(c, os, order, args, p);
      var x, y := UnpackParts(c, os, order, data, at, z);
      var v, args' := if Takes(o) then args[0] else Int(0), if Takes(o) then args[1..] else args;
      assert x.values == (x.values + y.values)[..|x.values|] && y.values == (x.values + y.values)[|x.values|..];
      assert y.values == args'[..rest.used];
      if Takes(o) {
        assert x.values == [v];
        FirstFits(c, o, order, v, one, rest.bytes, data, at, x);
      }
      FirstBack(c, o, order, v, one, rest.bytes, data, at);
      ReadUnique(c, o, order, data, at, x, Read(if Takes(o) then [v] else [], at + |one|));
      OnlyIfFit(c, os[1..], NewOrder(o, order), args', rest, data, at + |one|, y);
      FitParts(c, os, order, args, rest);
    }
  }

  lemma {:induction false} UsedBound(c: Codec, os: seq<Opt>, order: Order, args: seq<Value>)
    requires PackAll(c, os, order, args).Ok?
    ensures PackAll(c, os, order, args).value.used <= |args|
  {
    if os != [] {
      UsedBound(c, os[1..], NewOrder(os[0], order), if Takes(os[0]) then args[1..] else args);
    }
  }

  /** For every format and all arguments that can be packed: unpacking returns the
      arguments exactly if they fit, and then the position behind the data. */
  lemma {:induction false} PackRoundTrip(fmt: string, args: seq<Value>)
    requires PackAll(Integers(), Options(fmt, 0), Little, args).Ok?
    ensures var p := PackAll(Integers(), Options(fmt, 0), Little, args).value;
            var z := UnpackAll(Integers(), Options(fmt, 0), Little, p.bytes, 0);
            && p.used <= |args| && (z.Ok? && z.value.values == args[..p.used] <==> AllFit(Integers(), Options(fmt, 0), Little, args))
            && (AllFit(Integers(), Options(fmt, 0), Little, args) ==> z == Ok(Read(args[..p.used], |p.bytes|)))
  {
    RoundTripOf(Integers(), Options(fmt, 0), Little, args);
  }

  lemma {:induction false} RoundTripOf(c: Codec, os: seq<Opt>, order: Order, args: seq<Value>)
    requires c == Integers() && PackAll(c, os, order, args).Ok?
    ensures var p := PackAll(c, os, order, args).value; var z := UnpackAll(c, os, order, p.bytes, 0);
            && p.used <= |args| && (z.Ok? && z.value.values == args[..p.used] <==> AllFit(c, os, order, args))
            && (AllFit(c, os, order, args) ==> z == Ok(Read(args[..p.used], |p.bytes|)))
  {
    var p := PackAll(c, os, order, args).value;
    var z := UnpackAll(c, os, order, p.bytes, 0);
    UsedBound(c, os, order, args);
    IntegersCode();
    assert p.bytes[0..] == p.bytes;
    if AllFit(c, os, order, args) {
      AllBack(c, os, order, args, p, p.bytes, 0);
      assert Hid(0);
    } else if z.Ok? && z.value.values == args[..p.used] {
      OnlyIfFit(c, os, order, args, p, p.bytes, 0, z.value);
    }
  }

  lemma {:induction false} PackSingle(c: Codec, o: Opt, order: Order, v: Value, b: seq<Byte>)
    requires Takes(o) && PackOne(c, o, order, v) == Ok(b)
    ensures PackAll(c, [o], order, [v]) == Ok(Packed(b, 1))
    ensures AllFit(c, [o], order, [v]) <==> Fits(o, v, order, [])
  {
    assert [o][1..] == [] && [v][1..] == [];
    assert PackAll(c, [o][1..], NewOrder(o, order), [v][1..]) == Ok(Packed([], 0));
    assert AllFit(c, [o][1..], NewOrder(o, order), [v][1..]);
    assert b + [] == b;
  }

  lemma {:induction false} PackPair(c: Codec, o: Opt, o': Opt, order: Order, v: Value, v': Value, b: seq<Byte>, b': seq<Byte>)
    requires Takes(o) && Takes(o') && PackOne(c, o, order, v) == Ok(b) && PackOne(c, o', order, v') == Ok(b')
    ensures PackAll(c, [o, o'], order, [v, v']) == Ok(Packed(b + b', 2))
    ensures AllFit(c, [o, o'], order, [v, v']) <==> Fits(o, v, order, b') && Fits(o', v', order, [])
  {
    PackSingle(c, o', order, v', b');
    assert [o, o'][1..] == [o'] && [v, v'][1..] == [v'];
  }

  lemma {:induction false} OneByte(u: Byte, order: Order)
    ensures AppendInt(u, 1, order) == [u] && Pow256(1) == 256
  {
    AppendIs(u, 1, order);
    assert ToUint64(u) == u by {
      ModUnique(u, TWO64, 0, u);
    }
    LowByte(u);
    assert Reverse([u]) == [u];
  }

  lemma {:induction false} LowByte(u: Byte)
    ensures LowBytes(u, 1) == [u]
  {
    assert LowBytes(u / 256, 0) == [];
  }

  /** A signed integer of size 0 is packed to nothing. In little endian order, as for the
      format `<i0`, it cannot be read back; in big endian order, as for `>i0B`, it comes
      back if the next byte has its sign. */
  lemma {:induction false} SignedZero(c: Codec, u: Byte)
    requires c == Integers()
    ensures PackAll(c, [Ints(0, true)], Little, [Int(0)]) == Ok(Packed([], 1)) && UnpackAll(c, [Ints(0, true)], Little, [], 0) == Err(OutOfRange)
    ensures var os, args := [Ints(0, true), Ints(1, false)], [Int(0), Int(u)];
            && PackAll(c, os, Big, args) == Ok(Packed([u], 2))
            && (u < 128 ==> UnpackAll(c, os, Big, [u], 0) == Ok(Read(args, 1)))
            && (u >= 128 ==> UnpackAll(c, os, Big, [u], 0) == Ok(Read([Int(-1), Int(u)], 1)))
  {
    var o, o' := Ints(0, true), Ints(1, false);
    PackSingle(c, o, Little, Int(0), []);
    OneByte(u, Big);
    PackPair(c, o, o', Big, Int(0), Int(u), [], [u]);
    PackPair(c, o, o', Big, Int(-1), Int(u), [], [u]);
    assert [] + [u] == [u] && [Int(0), Int(u)][..2] == [Int(0), Int(u)] && [Int(-1), Int(u)][..2] == [Int(-1), Int(u)];
    RoundTripOf(c, [o, o'], Big, [Int(0), Int(u)]);
    RoundTripOf(c, [o, o'], Big, [Int(-1), Int(u)]);
  }

  /** Every option is known, has a size it can have, and finds an argument of its
      kind: an integer, or for a string option also a string. */
  ghost predicate Packable(os: seq<Opt>, args: seq<Value>) {
    os != [] ==>
      && !os[0].Unknown? && SizeOk(os[0])
      && if Takes(os[0]) then args != [] && (args[0].Int? || (args[0].Bytes? && !os[0].Ints?)) && Packable(os[1..], args[1..]) else Packable(os[1..], args)
  }

  /** Packing succeeds exactly then. */
  lemma {:induction false} PacksExactlyIf(c: Codec, os: seq<Opt>, order: Order, args: seq<Value>)
    ensures PackAll(c, os, order, args).Ok? <==> Packable(os, args)
  {
    if os != [] && (Takes(os[0]) ==> args != []) {
      PacksExactlyIf(c, os[1..], NewOrder(os[0], order), if Takes(os[0]) then args[1..] else args);
    }
  }

  /** `packsize` is the length of whatever the format packs, and rejects just the
      formats with strings of variable length. */
  lemma {:induction false} PacksizeIsLength(c: Codec, os: seq<Opt>, order: Order, args: seq<Value>)
    requires Codes(c) && PackAll(c, os, order, args).Ok?
    ensures SizeAll(os).Ok? <==> forall i :: 0 <= i < |os| ==> !os[i].ZString? && !os[i].LString?
    ensures SizeAll(os).Ok? ==> SizeAll(os).value == |PackAll(c, os, order, args).value.bytes|
    ensures SizeAll(os).Err? ==> SizeAll(os).error == VariableLength
  {
    assert Shut(0);
    if os != [] {
      PacksizeIsLength(c, os[1..], NewOrder(os[0], order), if Takes(os[0]) then args[1..] else args);
      assert os == [os[0]] + os[1..];
      assert forall i :: 0 < i < |os| ==> os[i] == os[1..][i - 1];
    }
  }
}
