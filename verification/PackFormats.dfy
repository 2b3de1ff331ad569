/**
 What the letters of a format stand for, and the bytes of each option (stringlib.go,
 section 6.4.2 of the Lua 5.3 manual), one by one.
 */
module PackFormats {
  import opened PackBytes
  import opened Pack

  // ----- letters -----

  /** The number that a string of decimal digits writes. */
  function ValueOf(d: string): nat {
    if d == "" then 0 else 10 * ValueOf(d[..|d| - 1]) + if IsDigit(d[|d| - 1]) then d[|d| - 1] as int - '0' as int else 0
  }

  predicate AllDigits(d: string) {
    forall i :: 0 <= i < |d| ==> '0' <= d[i] <= '9'
  }

  /** The digits `d` stand at `pos`, and no digit behind them. */
  predicate DigitsAt(fmt: string, pos: nat, d: string) {
    && AllDigits(d) && pos + |d| <= |fmt| && fmt[pos..pos + |d|] == d
    && (pos + |d| < |fmt| ==> !('0' <= fmt[pos + |d|] <= '9'))
  }

  lemma {:induction false} ReadsNumber(fmt: string, pos: nat, d: string, k: nat)
    requires DigitsAt(fmt, pos, d) && k <= |d|
    ensures ReadNumber(fmt, pos + k, ValueOf(d[..k])) == (ValueOf(d), pos + |d|)
    decreases |d| - k
  {
    if k < |d| {
      assert fmt[pos..pos + |d|][k] == d[k];
      assert d[..k + 1][..k] == d[..k];
      ReadsNumber(fmt, pos, d, k + 1);
    } else {
      assert d[..k] == d;
    }
  }

  /** Where a size may follow, its digits are read, or the default stands for them. */
  lemma {:induction false} GetsNumber(fmt: string, pos: nat, d: string, default: nat)
    requires DigitsAt(fmt, pos, d)
    ensures GetNum(fmt, pos, default) == (if d == "" then default else ValueOf(d), pos + |d|)
  {
    ReadsNumber(fmt, pos, d, 0);
    if d != "" {
      assert fmt[pos..pos + |d|][0] == d[0];
    }
  }

  /** `b`, `h`, `l` and `j` are signed integers of 1, 2, 8 and 8 bytes; `B`, `H`, `L`, `J`
      and `T` unsigned ones. */
  lemma {:induction false} IntegerLetters(fmt: string, pos: nat)
    requires pos < |fmt|
    ensures fmt[pos] == 'b' ==> NextOpt(fmt, pos) == Item(Ints(1, true), pos + 1)
    ensures fmt[pos] == 'B' ==> NextOpt(fmt, pos) == Item(Ints(1, false), pos + 1)
    ensures fmt[pos] == 'h' ==> NextOpt(fmt, pos) == Item(Ints(2, true), pos + 1)
    ensures fmt[pos] == 'H' ==> NextOpt(fmt, pos) == Item(Ints(2, false), pos + 1)
    ensures fmt[pos] in ['l', 'j'] ==> NextOpt(fmt, pos) == Item(Ints(8, true), pos + 1)
    ensures fmt[pos] in ['L', 'J', 'T'] ==> NextOpt(fmt, pos) == Item(Ints(8, false), pos + 1)
  {
  }

  /** `<`, `>` and `=` set the byte order; `z` is a string with a zero behind it, `x` a
      byte of padding; spaces count for nothing, and anything else but the letters of
      floating-point numbers, which are not modelled, is an error. */
  lemma {:induction false} OtherLetters(fmt: string, pos: nat)
    requires pos < |fmt|
    ensures fmt[pos] in ['<', '='] ==> NextOpt(fmt, pos) == Item(SetOrder(Little), pos + 1)
    ensures fmt[pos] == '>' ==> NextOpt(fmt, pos) == Item(SetOrder(Big), pos + 1)
    ensures fmt[pos] == 'z' ==> NextOpt(fmt, pos) == Item(ZString, pos + 1)
    ensures fmt[pos] == 'x' ==> NextOpt(fmt, pos) == Item(Padding, pos + 1)
    ensures fmt[pos] == 'X' ==> NextOpt(fmt, pos) == Item(Alignment, pos + 1)
    ensures fmt[pos] == ' ' ==> NextOpt(fmt, pos) == NextOpt(fmt, pos + 1)
    ensures fmt[pos] !in [' ', '<', '>', '=', '!', 'b', 'B', 'h', 'H', 'l', 'L', 'j', 'J', 'T', 'i', 'I', 'c', 'z', 's', 'x', 'X', 'f', 'd', 'n'] ==>
              NextOpt(fmt, pos) == Item(Unknown, pos + 1)
    ensures NextOpt(fmt, |fmt|) == End
  {
  }

  /** `i` and `I` with a size, 4 if there is none; `c` with one, 0 if there is none; `s`
      with that of its length, 8 if there is none; `!` with one that is not used. */
  lemma {:induction false} SizedLetters(fmt: string, pos: nat, d: string)
    requires pos < |fmt| && DigitsAt(fmt, pos + 1, d)
    ensures fmt[pos] == 'i' ==> NextOpt(fmt, pos) == Item(Ints(if d == "" then 4 else ValueOf(d), true), pos + 1 + |d|)
    ensures fmt[pos] == 'I' ==> NextOpt(fmt, pos) == Item(Ints(if d == "" then 4 else ValueOf(d), false), pos + 1 + |d|)
    ensures fmt[pos] == 'c' ==> NextOpt(fmt, pos) == Item(FixedString(if d == "" then 0 else ValueOf(d)), pos + 1 + |d|)
    ensures fmt[pos] == 's' ==> NextOpt(fmt, pos) == Item(LString(if d == "" then 8 else ValueOf(d)), pos + 1 + |d|)
    ensures fmt[pos] == '!' ==> NextOpt(fmt, pos) == Item(SetAlign, pos + 1 + |d|)
  {
    GetsNumber(fmt, pos + 1, d, 4);
    GetsNumber(fmt, pos + 1, d, 0);
    GetsNumber(fmt, pos + 1, d, 8);
  }

  // ----- the bytes of an argument -----

  lemma {:induction false} LowByteAt(u: nat, n: nat, k: nat)
    requires k < n
    ensures LowBytes(u, n)[k] == u / Pow256(k) % 256
  {
    if k > 0 {
      LowByteAt(u / 256, n - 1, k - 1);
      DivTwice(u, Pow256(k - 1));
    }
  }

  lemma {:induction false} DivTwice(u: nat, p: nat)
    requires p > 0
    ensures u / 256 / p == u / (256 * p)
  {
    var q := u / 256 / p;
    var r := u / 256 - q * p;
    assert u == 256 * (q * p + r) + u % 256;
    assert 256 * (q * p + r) == (256 * p) * q + 256 * r;
    ModUnique(u, 256 * p, q, 256 * r + u % 256);
  }

  /** In little endian order byte `k` is digit `k` of the number to the base 256; in big
      endian order it is the other way round. */
  lemma {:induction false} IntegerBytes(v: int, n: nat, k: nat)
    requires 0 <= v < TWO64 && k < n <= 8
    ensures AppendInt(v, n, Little)[k] == v / Pow256(k) % 256
    ensures AppendInt(v, n, Big)[n - 1 - k] == v / Pow256(k) % 256
  {
    ModUnique(v, TWO64, 0, v);
    AppendIs(v, n, Little);
    AppendIs(v, n, Big);
    LowByteAt(v, n, k);
  }

  /** The decimal numeral of an integer. */
  ghost predicate Writes(s: seq<Byte>, i: int) {
    if i < 0 then s != [] && s[0] == '-' as int && WritesNat(s[1..], 0 - i) else WritesNat(s, i)
  }

  /** Digits without leading zeros, the last one last. */
  ghost predicate WritesNat(s: seq<Byte>, n: nat) {
    && s != [] && '0' as int <= s[|s| - 1] <= '9' as int && s[|s| - 1] - '0' as int == n % 10
    && (if n < 10 then |s| == 1 else WritesNat(s[..|s| - 1], n / 10))
  }

  lemma {:induction false} DigitsWrite(n: nat)
    ensures WritesNat(Digits(n), n)
  {
    if n >= 10 {
      DigitsWrite(n / 10);
      var s := Digits(n);
      assert s[..|s| - 1] == Digits(n / 10);
    }
  }

  lemma {:induction false} TextWrites(v: Value)
    ensures v.Bytes? ==> TextOf(v) == Ok(v.s)
    ensures v.Int? ==> TextOf(v).Ok? && Writes(TextOf(v).value, v.i)
    ensures v.Other? ==> TextOf(v) == Err(BadArgument)
  {
    if v.Int? {
      if v.i < 0 {
        DigitsWrite(0 - v.i);
        var s := TextOf(v).value;
        assert s[1..] == Digits(0 - v.i);
      } else {
        DigitsWrite(v.i);
      }
    }
  }

  /** The bytes of a string option: the text cut off or filled with zeros to the size,
      the text with a zero behind it, or its length and then the text. Padding is a zero. */
  lemma {:induction false} StringBytes(o: Opt, order: Order, v: Value)
    requires TextOf(v).Ok?
    ensures var s, r := TextOf(v).value, PackOne(Integers(), o, order, v);
            match o
            case FixedString(n) => r.Ok? && |r.value| == n && forall i :: 0 <= i < n ==> r.value[i] == if i < |s| then s[i] else 0
            case ZString => r == Ok(s + [0])
            case LString(n) => if n > 8 then r == Err(OutOfRange) else r == Ok(AppendInt(|s|, n, order) + s)
            case Padding => r == Ok([0])
            case Unknown => r == Err(BadOption)
            case Ints(n, _) => v.Int? ==> if n > 8 then r == Err(OutOfRange) else r == Ok(AppendInt(v.i, n, order))
            case _ => r == Ok([])
  {
  }

  // ----- what is read from any data -----

  /** The bytes of an integer, lowest first. */
  function Ordered(b: seq<Byte>, order: Order): seq<Byte> {
    if order == Big then Reverse(b) else b
  }

  /** An integer option reads the number its bytes make: an unsigned one as it is, a
      signed one and any of eight bytes in two's complement. */
  lemma {:induction false} ReadsInteger(n: nat, signed: bool, order: Order, data: seq<Byte>, pos: nat)
    requires 1 <= n <= 8 && pos + n <= |data|
    ensures var x := Number(Ordered(data[pos..pos + n], order));
            UnpackOne(Integers(), Ints(n, signed), order, data, pos)
            == Ok(Read([Int(if (signed || n == 8) && 2 * x >= Pow256(n) then x - Pow256(n) else x)], pos + n))
  {
    NumberRead(n, order, data, pos);
    if n == 8 {
      Pow8();
      NumberBound(Ordered(data[pos..pos + n], order));
      InTwosComplement(Number(Ordered(data[pos..pos + n], order)));
    }
  }

  lemma {:induction false} InTwosComplement(x: nat)
    requires x < TWO64
    ensures ToInt64(x) == if 2 * x >= TWO64 then x - TWO64 else x
  {
  }

  lemma {:induction false} NumberRead(n: nat, order: Order, data: seq<Byte>, pos: nat)
    requires 1 <= n <= 8 && pos + n <= |data|
    ensures var x := Number(Ordered(data[pos..pos + n], order));
            ReadUintAt(data, pos, n, order) == x && ReadIntAt(data, pos, n, order) == if 2 * x >= Pow256(n) then x - Pow256(n) else x
  {
    var b := data[pos..];
    assert b[..n] == data[pos..pos + n];
    UnsignedRead(b, n, order);
    SignedRead(b, n, order);
  }

  /** A string up to the next zero, with the position behind it, or the error if there is
      none. */
  lemma {:induction false} ReadsZString(order: Order, data: seq<Byte>, pos: nat, e: nat)
    ensures pos <= e < |data| && data[e] == 0 && (forall i :: pos <= i < e ==> data[i] != 0) ==>
              UnpackOne(Integers(), ZString, order, data, pos) == Ok(Read([Bytes(data[pos..e])], e + 1))
    ensures (forall i :: pos <= i < |data| ==> data[i] != 0) ==> UnpackOne(Integers(), ZString, order, data, pos) == Err(Unfinished)
  {
    FirstZero(data, pos);
  }

  lemma {:induction false} FirstZero(data: seq<Byte>, pos: nat)
    ensures var e := FindZero(data, pos); e >= pos && (forall i :: pos <= i < e && i < |data| ==> data[i] != 0) && (e < |data| ==> data[e] == 0)
    decreases |data| - pos
  {
    if pos < |data| && data[pos] != 0 {
      FirstZero(data, pos + 1);
    }
  }

  /** A string of a fixed size; padding is stepped over. */
  lemma {:induction false} ReadsString(n: nat, order: Order, data: seq<Byte>, pos: nat)
    ensures UnpackOne(Integers(), FixedString(n), order, data, pos) == if pos + n <= |data| then Ok(Read([Bytes(data[pos..pos + n])], pos + n)) else Err(TooShort)
    ensures UnpackOne(Integers(), Padding, order, data, pos) == Ok(Read([], pos + 1))
  {
  }

  /** A string with its length before it. */
  lemma {:induction false} ReadsLString(n: nat, order: Order, data: seq<Byte>, pos: nat)
    requires 1 <= n < 8 && pos + n <= |data|
    ensures var len := Number(Ordered(data[pos..pos + n], order));
            UnpackOne(Integers(), LString(n), order, data, pos)
            == if pos + n + len <= |data| then Ok(Read([Bytes(data[pos + n..pos + n + len])], pos + n + len)) else Err(TooShort)
  {
    ReadsLength(n, order, data, pos);
    LStringIs(Integers(), n, order, data, pos, Number(Ordered(data[pos..pos + n], order)));
  }

  lemma {:induction false} LStringIs(c: Codec, n: nat, order: Order, data: seq<Byte>, pos: nat, len: nat)
    requires n <= 8 && pos + n <= |data| && ToInt64(c.readUint(data, pos, n, order)) == len
    ensures UnpackOne(c, LString(n), order, data, pos)
            == if pos + n + len <= |data| then Ok(Read([Bytes(data[pos + n..pos + n + len])], pos + n + len)) else Err(TooShort)
  {
  }

  lemma {:induction false} ReadsLength(n: nat, order: Order, data: seq<Byte>, pos: nat)
    requires 1 <= n < 8 && pos + n <= |data|
    ensures ToInt64(ReadUintAt(data, pos, n, order)) == Number(Ordered(data[pos..pos + n], order))
  {
    NumberRead(n, order, data, pos);
    NumberBound(Ordered(data[pos..pos + n], order));
    BelowHalf(n);
    InTwosComplement(Number(Ordered(data[pos..pos + n], order)));
  }

  lemma {:induction false} BelowHalf(n: nat)
    requires n < 8
    ensures Pow256(n) <= TWO63
  {
    Pow8();
    PowAdd(n, 8 - n);
    assert Pow256(8 - n) == 256 * Pow256(7 - n);
    var p, q := Pow256(n), Pow256(7 - n);
    assert TWO64 == p * (256 * q);
    Associates(p, 256, q);
    assert p * 256 * q >= p * 256 by {
      assert p * 256 * (q - 1) >= 0;
    }
  }
}
