/**
 Integers as bytes for string.pack and string.unpack (stringlib.go): an integer is
 written to eight bytes in the byte order and cut to its size, and read back through
 eight bytes with its sign extended.
 */
module PackBytes {

  type Byte = b: int | 0 <= b < 256 witness 0

  datatype Order = Little | Big

  function Pow256(n: nat): (r: nat)
    ensures r > 0
  {
    if n == 0 then 1 else 256 * Pow256(n - 1)
  }

  const TWO64: int := 0x1_0000_0000_0000_0000
  const TWO63: int := 0x8000_0000_0000_0000

  function Repeat(b: Byte, n: nat): seq<Byte> {
    seq(n, _ => b)
  }

  function Reverse(s: seq<Byte>): seq<Byte> {
    seq(|s|, i requires 0 <= i < |s| => s[|s| - 1 - i])
  }

  /** The low `n` bytes of `u`, lowest first. */
  function LowBytes(u: nat, n: nat): (r: seq<Byte>)
    ensures |r| == n
  {
    if n == 0 then [] else [u % 256] + LowBytes(u / 256, n - 1)
  }

  /** The number whose bytes these are, lowest first. */
  function Number(b: seq<Byte>): nat {
    if b == [] then 0 else b[0] + 256 * Number(b[1..])
  }

  // ----- as in the source -----

  function PutUint64(order: Order, u: nat): (r: seq<Byte>)
    ensures |r| == 8
  {
    if order.Big? then Reverse(LowBytes(u, 8)) else LowBytes(u, 8)
  }

  function Uint64(order: Order, b: seq<Byte>): nat {
    Number(if order.Big? then Reverse(b) else b)
  }

  /** The 64-bit pattern of an integer, and the integer of a pattern. */
  function ToUint64(v: int): nat {
    v % TWO64
  }

  function ToInt64(u: int): int {
    if u % TWO64 >= TWO63 then u % TWO64 - TWO64 else u % TWO64
  }

  function AppendN(u: nat, n: nat, order: Order): (r: seq<Byte>)
    requires n <= 8
    ensures |r| == n
  {
    var b := PutUint64(order, u);
    if order.Big? then b[8 - n..] else b[..n]
  }

  function ReadUintN(b: seq<Byte>, n: nat, order: Order): nat
    requires n <= 8 && n <= |b|
  {
    Uint64(order, if order.Big? then Repeat(0, 8 - n) + b[..n] else b[..n] + Repeat(0, 8 - n))
  }

  function ReadIntN(b: seq<Byte>, n: nat, order: Order): int
    requires 1 <= n <= 8 && n <= |b|
  {
    var fill: Byte := if (if order.Big? then b[0] else b[n - 1]) >= 128 then 255 else 0;
    ToInt64(Uint64(order, if order.Big? then Repeat(fill, 8 - n) + b[..n] else b[..n] + Repeat(fill, 8 - n)))
  }

  // ----- bytes and numbers -----

  lemma {:induction false} Associates(a: int, b: int, c: int)
    ensures a * (b * c) == (a * b) * c
  {
  }

  lemma {:induction false} PowAdd(m: nat, n: nat)
    ensures Pow256(m + n) == Pow256(m) * Pow256(n)
  {
    if m > 0 {
      PowAdd(m - 1, n);
      assert m + n - 1 == m - 1 + n;
      Associates(256, Pow256(m - 1), Pow256(n));
    }
  }

  lemma {:induction false} Pow8()
    ensures Pow256(8) == TWO64
  {
    assert Pow256(1) == 256 && Pow256(2) == 0x1_0000;
    assert Pow256(3) == 0x100_0000 && Pow256(4) == 0x1_0000_0000;
    assert Pow256(5) == 0x100_0000_0000 && Pow256(6) == 0x1_0000_0000_0000;
    assert Pow256(7) == 0x100_0000_0000_0000;
  }

  lemma {:induction false} DivMod(u: nat, p: nat)
    requires p > 0
    ensures u % (256 * p) == u % 256 + 256 * (u / 256 % p)
  {
    var q, r := u / 256 / p, u / 256 % p;
    assert u / 256 == q * p + r;
    assert u == 256 * (u / 256) + u % 256;
    assert u == (256 * p) * q + (256 * r + u % 256) by {
      assert 256 * (q * p + r) == (256 * p) * q + 256 * r;
    }
    assert 0 <= 256 * r + u % 256 < 256 * p by {
      assert r <= p - 1;
    }
    ModUnique(u, 256 * p, q, 256 * r + u % 256);
  }

  lemma {:induction false} ModUnique(u: int, m: int, q: int, r: int)
    requires m > 0 && u == m * q + r && 0 <= r < m
    ensures u % m == r && u / m == q
  {
    var q', r' := u / m, u % m;
    assert u == m * q' + r';
    assert m * (q - q') == r' - r;
    Multiple(m, q - q');
  }

  lemma {:induction false} Multiple(m: int, d: int)
    requires m > 0
    ensures (d >= 1 ==> m * d >= m) && (d <= -1 ==> m * d <= -m)
  {
    if d >= 1 {
      assert m * d == m + m * (d - 1);
    } else if d <= -1 {
      assert m * d == -m + m * (d + 1);
    }
  }

  /** Cutting to `n` bytes keeps a number modulo 256 to the `n`. */
  lemma {:induction false} LowBytesNumber(u: nat, n: nat)
    ensures Number(LowBytes(u, n)) == u % Pow256(n)
  {
    if n > 0 {
      LowBytesNumber(u / 256, n - 1);
        assert LowBytes(u, n)[1..] == LowBytes(u / 256, n - 1);
      DivMod(u, Pow256(n - 1));
    }
  }

  lemma {:induction false} LowBytesPrefix(u: nat, n: nat, k: nat)
    requires n <= k
    ensures LowBytes(u, k)[..n] == LowBytes(u, n)
  {
    if n > 0 {
      LowBytesPrefix(u / 256, n - 1, k - 1);
      assert LowBytes(u, k)[..n] == [u % 256] + LowBytes(u / 256, k - 1)[..n - 1];
    }
  }

  lemma {:induction false} NumberAppend(a: seq<Byte>, b: seq<Byte>)
    ensures Number(a + b) == Number(a) + Pow256(|a|) * Number(b)
  {
    if a == [] {
      assert a + b == b;
    } else {
      NumberAppend(a[1..], b);
      assert (a + b)[1..] == a[1..] + b;
      assert 256 * (Pow256(|a| - 1) * Number(b)) == (256 * Pow256(|a| - 1)) * Number(b);
    }
  }

  lemma {:induction false} NumberZeros(n: nat)
    ensures Number(Repeat(0, n)) == 0
  {
    if n > 0 {
      NumberZeros(n - 1);
      assert Repeat(0, n)[1..] == Repeat(0, n - 1);
    }
  }

  lemma {:induction false} NumberOnes(n: nat)
    ensures Number(Repeat(255, n)) == Pow256(n) - 1
  {
    if n > 0 {
      NumberOnes(n - 1);
      assert Repeat(255, n)[1..] == Repeat(255, n - 1);
    }
  }

  lemma {:induction false} NumberBound(b: seq<Byte>)
    ensures Number(b) < Pow256(|b|)
  {
    if b != [] {
      NumberBound(b[1..]);
    }
  }

  /** The highest byte tells whether the number is in the upper half. */
  lemma {:induction false} TopByte(b: seq<Byte>)
    requires b != []
    ensures b[|b| - 1] >= 128 <==> 2 * Number(b) >= Pow256(|b|)
  {
    var n := |b| - 1;
    var init, top := b[..n], b[n];
    assert b == init + [top];
    NumberAppend(init, [top]);
    assert [top][1..] == [];
    NumberBound(init);
    PowAdd(n, 1);
    assert Pow256(1) == 256;
    UpperHalf(Pow256(n), Number(init), top);
  }

  lemma {:induction false} UpperHalf(p: nat, x: nat, top: Byte)
    requires x < p
    ensures top >= 128 <==> 2 * (x + p * top) >= p * 256
  {
    if top >= 128 {
      Grows(p, 128, top);
    } else {
      Grows(p, top, 127);
    }
  }

  lemma {:induction false} Grows(p: nat, a: int, b: int)
    requires a <= b
    ensures p * a <= p * b
    decreases b - a
  {
    if a < b {
      Grows(p, a, b - 1);
      assert p * b == p * (b - 1) + p;
    }
  }

  lemma {:induction false} ReverseTwice(s: seq<Byte>)
    ensures Reverse(Reverse(s)) == s
  {
  }

  lemma {:induction false} ReverseAppend(a: seq<Byte>, b: seq<Byte>)
    ensures Reverse(a + b) == Reverse(b) + Reverse(a)
  {
  }

  lemma {:induction false} ReverseRepeat(b: Byte, n: nat)
    ensures Reverse(Repeat(b, n)) == Repeat(b, n)
  {
  }

  // ----- what is written and read -----

  /** The bytes of an integer of size `n`, in either order. */
  lemma {:induction false} AppendIs(u: nat, n: nat, order: Order)
    requires n <= 8
    ensures AppendN(u, n, order) == if order.Big? then Reverse(LowBytes(u, n)) else LowBytes(u, n)
  {
    LowBytesPrefix(u, n, 8);
    if order.Big? {
      var b := LowBytes(u, 8);
      assert Reverse(b)[8 - n..] == Reverse(b[..n]);
    }
  }

  lemma {:induction false} FilledIs(b: seq<Byte>, n: nat, order: Order, fill: Byte)
    requires n <= 8 && n <= |b|
    ensures var c := if order.Big? then Reverse(b[..n]) else b[..n];
            Uint64(order, if order.Big? then Repeat(fill, 8 - n) + b[..n] else b[..n] + Repeat(fill, 8 - n)) == Number(c) + Pow256(n) * Number(Repeat(fill, 8 - n))
  {
    var c := if order.Big? then Reverse(b[..n]) else b[..n];
    if order.Big? {
      ReverseAppend(Repeat(fill, 8 - n), b[..n]);
      ReverseRepeat(fill, 8 - n);
    }
    NumberAppend(c, Repeat(fill, 8 - n));
  }

  /** Reading what was written gives the number back, modulo its size. */
  lemma {:induction false} UnsignedRoundTrip(u: nat, n: nat, order: Order, rest: seq<Byte>)
    requires n <= 8
    ensures ReadUintN(AppendN(u, n, order) + rest, n, order) == u % Pow256(n)
  {
    var b := AppendN(u, n, order) + rest;
    WrittenNumber(u, n, order, rest);
    FilledIs(b, n, order, 0);
    FillNumber(0, n);
  }

  /** The number in the bytes that were written. */
  lemma {:induction false} WrittenNumber(u: nat, n: nat, order: Order, rest: seq<Byte>)
    requires n <= 8
    ensures var b := AppendN(u, n, order) + rest; Number(if order.Big? then Reverse(b[..n]) else b[..n]) == u % Pow256(n)
  {
    var w := AppendN(u, n, order);
    assert (w + rest)[..n] == w;
    AppendIs(u, n, order);
    ReverseTwice(LowBytes(u, n));
    LowBytesNumber(u, n);
  }

  /** What is read is the number in the bytes. */
  lemma {:induction false} UnsignedRead(b: seq<Byte>, n: nat, order: Order)
    requires n <= 8 && n <= |b|
    ensures ReadUintN(b, n, order) == Number(if order.Big? then Reverse(b[..n]) else b[..n]) < Pow256(n)
  {
    FilledIs(b, n, order, 0);
    FillNumber(0, n);
    NumberBound(if order.Big? then Reverse(b[..n]) else b[..n]);
  }

  /** The sign byte decides how the eight bytes are filled up, and so the sign. */
  lemma {:induction false} SignedRead(b: seq<Byte>, n: nat, order: Order)
    requires 1 <= n <= 8 && n <= |b|
    ensures var x := Number(if order.Big? then Reverse(b[..n]) else b[..n]);
            ReadIntN(b, n, order) == if 2 * x >= Pow256(n) then x - Pow256(n) else x
  {
    var c := if order.Big? then Reverse(b[..n]) else b[..n];
    var fill: Byte := if c[n - 1] >= 128 then 255 else 0;
    FilledIs(b, n, order, fill);
    FilledValue(c, fill);
  }

  /** The value of bytes that are filled up by their sign. */
  lemma {:induction false} FilledValue(c: seq<Byte>, fill: Byte)
    requires 1 <= |c| <= 8 && fill == if c[|c| - 1] >= 128 then 255 else 0
    ensures var x, n := Number(c), |c|;
            ToInt64(x + Pow256(n) * Number(Repeat(fill, 8 - n))) == if 2 * x >= Pow256(n) then x - Pow256(n) else x
  {
    TopByte(c);
    NumberBound(c);
    FillNumber(fill, |c|);
    SignedValue(Number(c), |c|);
  }

  lemma {:induction false} FillNumber(fill: Byte, n: nat)
    requires n <= 8 && (fill == 0 || fill == 255)
    ensures Pow256(n) * Number(Repeat(fill, 8 - n)) == if fill == 0 then 0 else TWO64 - Pow256(n)
  {
    Pow8();
    PowAdd(n, 8 - n);
    if fill == 0 {
      NumberZeros(8 - n);
    } else {
      NumberOnes(8 - n);
      assert Pow256(n) * (Pow256(8 - n) - 1) == Pow256(n) * Pow256(8 - n) - Pow256(n);
    }
  }

  lemma {:induction false} SignedValue(x: nat, n: nat)
    requires n <= 8 && x < Pow256(n)
    ensures ToInt64(if 2 * x >= Pow256(n) then x + (TWO64 - Pow256(n)) else x) == if 2 * x >= Pow256(n) then x - Pow256(n) else x
  {
    Pow8();
    PowAdd(n, 8 - n);
    HalfStep(x, Pow256(n), Pow256(8 - n));
  }

  /** Halves scale: below half of `p` is below half of `p * q`. */
  lemma {:induction false} HalfStep(x: nat, p: nat, q: nat)
    requires p > 0 && q > 0 && x < p
    ensures 2 * x < p ==> 2 * x < p * q
    ensures 2 * x >= p ==> 2 * (x + (p * q - p)) >= p * q && x + (p * q - p) < p * q
  {
    assert p * q >= p by {
      assert p * (q - 1) >= 0;
    }
  }

  /** Signed integers that fit their size come back. */
  lemma {:induction false} SignedRoundTrip(v: int, n: nat, order: Order, rest: seq<Byte>)
    requires 1 <= n <= 8 && 0 - Pow256(n) <= 2 * v < Pow256(n)
    ensures ReadIntN(AppendN(ToUint64(v), n, order) + rest, n, order) == v
  {
    WrittenNumber(ToUint64(v), n, order, rest);
    SignedRead(AppendN(ToUint64(v), n, order) + rest, n, order);
    WrapMod(v, n);
  }

  /** Two's complement: the pattern of `v`, cut to `n` bytes. */
  lemma {:induction false} WrapMod(v: int, n: nat)
    requires 1 <= n <= 8 && 0 - Pow256(n) <= 2 * v < Pow256(n)
    ensures ToUint64(v) % Pow256(n) == if v >= 0 then v else v + Pow256(n)
  {
    Pow8();
    PowAdd(n, 8 - n);
    var p, q := Pow256(n), Pow256(8 - n);
    assert p * q >= p by {
      assert p * (q - 1) >= 0;
    }
    if v >= 0 {
      ModUnique(v, TWO64, 0, v);
      ModUnique(v, p, 0, v);
    } else {
      ModUnique(v, TWO64, -1, v + TWO64);
      assert v + TWO64 == p * (q - 1) + (v + p);
      ModUnique(v + TWO64, p, q - 1, v + p);
    }
  }
}
