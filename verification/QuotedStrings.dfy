/**
 The `%q` form of a string (stringlib_format.go) and the string scanner of the
 lexer (compiler/parse/lexer.go): scanning the quoted text gives the string back.
 */
module QuotedStrings {

  type Byte = b: int | 0 <= b < 256 witness 0

  /** A character read: a byte, or -1 at the end of the text. */
  type Char = int

  const EOF: Char := -1

  const LF: Byte := 10
  const CR: Byte := 13
  const QUOTE: Byte := 34
  const BACKSLASH: Byte := 92
  const DELETE: Byte := 127
  const ZERO: Byte := 48

  predicate IsDecimal(c: Char) {
    ZERO <= c <= ZERO + 9
  }

  predicate IsControl(b: Byte) {
    b < 32 || b == DELETE
  }

  // ----- quoting -----

  /** Decimal digits, with leading zeros up to three if `wide`. */
  function Decimal(b: Byte, wide: bool): seq<Byte> {
    if wide || b >= 100 then [ZERO + b / 100, ZERO + b / 10 % 10, ZERO + b % 10]
    else if b >= 10 then [ZERO + b / 10, ZERO + b % 10]
    else [ZERO + b]
  }

  function QuoteByte(s: seq<Byte>, i: nat): seq<Byte>
    requires i < |s|
  {
    var b := s[i];
    if b == QUOTE || b == BACKSLASH || b == LF then [BACKSLASH, b]
    else if IsControl(b) then [BACKSLASH] + Decimal(b, i + 1 < |s| && IsDecimal(s[i + 1]))
    else [b]
  }

  /** The quoted text of `s` from position `i`, with the closing quote. */
  function QuoteFrom(s: seq<Byte>, i: nat): seq<Byte>
    requires i <= |s|
    decreases |s| - i
  {
    if i == |s| then [QUOTE] else QuoteByte(s, i) + QuoteFrom(s, i + 1)
  }

  function Quote(s: seq<Byte>): seq<Byte> {
    [QUOTE] + QuoteFrom(s, 0)
  }

  lemma {:induction false} QuoteSnoc(s: seq<Byte>, i: nat, buf: seq<Byte>)
    requires i < |s|
    ensures buf + QuoteFrom(s, i) == buf + QuoteByte(s, i) + QuoteFrom(s, i + 1)
  {
  }

  method WriteQuoted(s: seq<Byte>) returns (buf: seq<Byte>)
    ensures buf == Quote(s)
  {
    buf := [QUOTE];
    for i := 0 to |s|
      invariant buf + QuoteFrom(s, i) == Quote(s)
    {
      QuoteSnoc(s, i, buf);
      var c := s[i];
      if c == QUOTE || c == BACKSLASH || c == LF {
        buf := buf + [BACKSLASH, c];
      } else if c < 32 || c == DELETE {
        if i + 1 < |s| && ZERO <= s[i + 1] <= ZERO + 9 {
          buf := buf + ([BACKSLASH] + Decimal(c, true));
        } else {
          buf := buf + ([BACKSLASH] + Decimal(c, false));
        }
      } else {
        buf := buf + [c];
      }
    }
    buf := buf + [QUOTE];
  }

  // ----- scanning -----

  datatype Result = Ok(bytes: seq<Byte>, pos: nat) | Unterminated | EscapeTooLarge

  function PeekAt(text: seq<Byte>, pos: nat): Char {
    if pos < |text| then text[pos] else EOF
  }

  /** The character at `pos`: every line break reads as a line feed. */
  function CharAt(text: seq<Byte>, pos: nat): Char {
    if PeekAt(text, pos) == CR then LF else PeekAt(text, pos)
  }

  /** The position behind it: a pair of different line breaks is one. */
  function After(text: seq<Byte>, pos: nat): (next: nat)
    ensures pos < |text| ==> pos < next <= |text|
  {
    if pos >= |text| then pos
    else if (text[pos] == LF && PeekAt(text, pos + 1) == CR) || (text[pos] == CR && PeekAt(text, pos + 1) == LF) then pos + 2
    else pos + 1
  }

  function Simple(c: Char): Char {
    if c == 97 then 7 else if c == 98 then 8 else if c == 102 then 12 else if c == 110 then LF
    else if c == 114 then CR else if c == 116 then 9 else if c == 118 then 11 else c
  }

  /** The low byte, as a character is written. */
  function ToByte(c: Char): Byte {
    c % 256
  }

  /** Up to `n` more digits of the number `value`. */
  function Digits(text: seq<Byte>, pos: nat, value: nat, n: nat): (r: (nat, nat))
    ensures pos <= |text| ==> pos <= r.1 <= |text|
    decreases n
  {
    if n == 0 || !IsDecimal(PeekAt(text, pos)) then (value, pos)
    else Digits(text, pos + 1, value * 10 + (text[pos] - ZERO), n - 1)
  }

  /** What follows a backslash. */
  function Escape(text: seq<Byte>, pos: nat): (r: Result)
    ensures pos <= |text| && r.Ok? ==> pos <= r.pos <= |text|
  {
    var c, next := CharAt(text, pos), After(text, pos);
    if IsDecimal(c) then
      var (v, p) := Digits(text, next, c - ZERO, 2);
      if v > 255 then EscapeTooLarge else Ok([v], p)
    else Ok([ToByte(Simple(c))], next)
  }

  /** The string from `pos`, behind the opening quote, to behind the closing one. */
  function Scan(text: seq<Byte>, pos: nat, buf: seq<Byte>): Result
    decreases |text| - pos
  {
    var c, next := CharAt(text, pos), After(text, pos);
    if c == QUOTE then Ok(buf, next)
    else if c == LF || c < 0 then Unterminated
    else if c != BACKSLASH then Scan(text, next, buf + [c])
    else
      var e := Escape(text, next);
      if e.Ok? then Scan(text, e.pos, buf + e.bytes) else e
  }

  class Scanner {
    const text: seq<Byte>
    var pos: nat

    constructor (text: seq<Byte>)
      ensures this.text == text && pos == 0
    {
      this.text, pos := text, 0;
    }

    method Peek() returns (c: Char)
      ensures c == PeekAt(text, pos)
    {
      c := if pos < |text| then text[pos] else EOF;
    }

    method Newline(c: Char)
      modifies `pos
      ensures pos == if (c == LF && PeekAt(text, old(pos)) == CR) || (c == CR && PeekAt(text, old(pos)) == LF) then old(pos) + 1 else old(pos)
    {
      var next := Peek();
      if (c == LF && next == CR) || (c == CR && next == LF) {
        pos := pos + 1;
      }
    }

    method Next() returns (c: Char)
      modifies `pos
      ensures c == CharAt(text, old(pos)) && pos == After(text, old(pos))
    {
      if pos >= |text| {
        return EOF;
      }
      c := text[pos];
      pos := pos + 1;
      if c == LF || c == CR {
        Newline(c);
        c := LF;
      }
    }

    method ScanEscape() returns (r: Result)
      modifies `pos
      ensures r == Escape(text, old(pos)) && (r.Ok? ==> r.pos == pos)
    {
      var c := Next();
      if IsDecimal(c) {
        var value := c - ZERO;
        var i := 0;
        ghost var start := pos;
        var d := Peek();
        while i < 2 && IsDecimal(d)
          invariant i <= 2 && value >= 0 && d == PeekAt(text, pos)
          invariant Digits(text, start, c - ZERO, 2) == Digits(text, pos, value, 2 - i)
        {
          d := Next();
          value := value * 10 + (d - ZERO);
          i := i + 1;
          d := Peek();
        }
        r := if value > 255 then EscapeTooLarge else Ok([value], pos);
      } else {
        r := Ok([ToByte(Simple(c))], pos);
      }
    }

    /** `scanString`, behind the opening quote. */
    method ScanString() returns (r: Result)
      requires pos <= |text|
      modifies `pos
      ensures r == Scan(text, old(pos), []) && (r.Ok? ==> r.pos == pos)
    {
      var buf: seq<Byte> := [];
      ghost var goal := Scan(text, pos, []);
      while true
        invariant pos <= |text| && goal == Scan(text, pos, buf)
        decreases |text| - pos
      {
        var c := Next();
        if c == QUOTE {
          return Ok(buf, pos);
        }
        if c == LF || c < 0 {
          return Unterminated;
        }
        if c == BACKSLASH {
          var e := ScanEscape();
          if !e.Ok? {
            return e;
          }
          buf := buf + e.bytes;
        } else {
          buf := buf + [c];
        }
      }
    }
  }

  // ----- the round trip -----

  /** The text from `pos` starts with `q`. */
  ghost predicate Reads(text: seq<Byte>, pos: nat, q: seq<Byte>) {
    pos + |q| <= |text| && forall i {:trigger q[i]} :: 0 <= i < |q| ==> text[pos + i] == q[i]
  }

  lemma {:induction false} ReadsParts(text: seq<Byte>, pos: nat, a: seq<Byte>, b: seq<Byte>)
    requires Reads(text, pos, a + b)
    ensures Reads(text, pos, a) && Reads(text, pos + |a|, b)
  {
    var q := a + b;
    forall i | 0 <= i < |a| ensures text[pos + i] == a[i] {
      assert q[i] == a[i];
    }
    forall i | 0 <= i < |b| ensures text[pos + |a| + i] == b[i] {
      assert q[|a| + i] == b[i];
    }
  }

  /** The quoted text never goes on with a digit or a line break where a scanner could
      take it for more of the escape before. */
  lemma {:induction false} NextIsSafe(s: seq<Byte>, i: nat)
    requires i <= |s|
    ensures var q := QuoteFrom(s, i); q != [] && q[0] != CR && q[0] != LF && (IsDecimal(q[0]) ==> i < |s| && IsDecimal(s[i]))
  {
  }

  lemma {:induction false} DigitsOf(b: Byte)
    ensures b / 10 == b / 100 * 10 + b / 10 % 10 && b == b / 10 * 10 + b % 10 && b / 100 <= 9
  {
  }

  lemma {:induction false} OneDigit(text: seq<Byte>, pos: nat, d: nat)
    requires d <= 9 && pos < |text| && text[pos] == ZERO + d && !IsDecimal(PeekAt(text, pos + 1))
    ensures Escape(text, pos) == Ok([d], pos + 1)
  {
    assert Digits(text, pos + 1, d, 2) == (d, pos + 1);
  }

  lemma {:induction false} TwoDigits(text: seq<Byte>, pos: nat, d: nat, e: nat)
    requires d <= 9 && e <= 9 && pos + 1 < |text| && text[pos] == ZERO + d && text[pos + 1] == ZERO + e && !IsDecimal(PeekAt(text, pos + 2))
    ensures Escape(text, pos) == Ok([d * 10 + e], pos + 2)
  {
    assert Digits(text, pos + 2, d * 10 + e, 1) == (d * 10 + e, pos + 2);
    assert Digits(text, pos + 1, d, 2) == Digits(text, pos + 2, d * 10 + e, 1);
  }

  lemma {:induction false} ThreeDigits(text: seq<Byte>, pos: nat, d: nat, e: nat, f: nat)
    requires d <= 9 && e <= 9 && f <= 9 && pos + 2 < |text| && text[pos] == ZERO + d && text[pos + 1] == ZERO + e && text[pos + 2] == ZERO + f
    requires (d * 10 + e) * 10 + f < 256
    ensures Escape(text, pos) == Ok([(d * 10 + e) * 10 + f], pos + 3)
  {
    assert Digits(text, pos + 3, (d * 10 + e) * 10 + f, 0) == ((d * 10 + e) * 10 + f, pos + 3);
    assert Digits(text, pos + 2, d * 10 + e, 1) == Digits(text, pos + 3, (d * 10 + e) * 10 + f, 0);
    assert Digits(text, pos + 1, d, 2) == Digits(text, pos + 2, d * 10 + e, 1);
  }

  lemma {:induction false} DecimalBack(text: seq<Byte>, pos: nat, b: Byte, wide: bool)
    requires Reads(text, pos, Decimal(b, wide)) && (!wide ==> !IsDecimal(PeekAt(text, pos + |Decimal(b, wide)|)))
    ensures Escape(text, pos) == Ok([b], pos + |Decimal(b, wide)|)
  {
    var q := Decimal(b, wide);
    DigitsOf(b);
    assert text[pos] == q[0];
    if |q| == 1 {
      OneDigit(text, pos, b);
    } else if |q| == 2 {
      assert text[pos + 1] == q[1];
      TwoDigits(text, pos, b / 10, b % 10);
    } else {
      assert text[pos + 1] == q[1] && text[pos + 2] == q[2];
      ThreeDigits(text, pos, b / 100, b / 10 % 10, b % 10);
    }
  }

  /** A plain character, or an escape, and the scan behind it. */
  lemma {:induction false} ScanPlain(text: seq<Byte>, pos: nat, buf: seq<Byte>)
    requires pos < |text| && text[pos] != LF && text[pos] != CR && text[pos] != QUOTE && text[pos] != BACKSLASH
    ensures Scan(text, pos, buf) == Scan(text, pos + 1, buf + [text[pos]])
  {
  }

  lemma {:induction false} ScanEscaped(text: seq<Byte>, pos: nat, buf: seq<Byte>, b: Byte, next: nat)
    requires pos < |text| && text[pos] == BACKSLASH && Escape(text, pos + 1) == Ok([b], next) && pos < next <= |text|
    ensures Scan(text, pos, buf) == Scan(text, next, buf + [b])
  {
  }

  /** The quoted byte at `pos`, and a safe character behind it. */
  ghost predicate ReadsByte(text: seq<Byte>, pos: nat, s: seq<Byte>, i: nat)
    requires i < |s|
  {
    && Reads(text, pos, QuoteByte(s, i)) && pos + |QuoteByte(s, i)| < |text|
    && var c := text[pos + |QuoteByte(s, i)|]; c != CR && c != LF && (IsDecimal(c) ==> i + 1 < |s| && IsDecimal(s[i + 1]))
  }

  lemma {:induction false} EscapeSpecial(text: seq<Byte>, pos: nat, s: seq<Byte>, i: nat)
    requires i < |s| && ReadsByte(text, pos, s, i) && (s[i] == QUOTE || s[i] == BACKSLASH || s[i] == LF)
    ensures |QuoteByte(s, i)| == 2 && text[pos] == BACKSLASH && Escape(text, pos + 1) == Ok([s[i]], pos + 2)
  {
    var q := QuoteByte(s, i);
    assert text[pos + 0] == q[0] && text[pos + 1] == q[1];
  }

  lemma {:induction false} EscapeControl(text: seq<Byte>, pos: nat, s: seq<Byte>, i: nat)
    requires i < |s| && ReadsByte(text, pos, s, i) && s[i] != QUOTE && s[i] != BACKSLASH && s[i] != LF && IsControl(s[i])
    ensures text[pos] == BACKSLASH && Escape(text, pos + 1) == Ok([s[i]], pos + |QuoteByte(s, i)|)
  {
    var q, wide := QuoteByte(s, i), i + 1 < |s| && IsDecimal(s[i + 1]);
    assert text[pos + 0] == q[0];
    ReadsParts(text, pos, [BACKSLASH], Decimal(s[i], wide));
    DecimalBack(text, pos + 1, s[i], wide);
  }

  /** One byte of the string is read back from its quoted form. */
  lemma {:induction false} ScanByte(text: seq<Byte>, pos: nat, s: seq<Byte>, i: nat, buf: seq<Byte>)
    requires i < |s| && ReadsByte(text, pos, s, i)
    ensures Scan(text, pos, buf) == Scan(text, pos + |QuoteByte(s, i)|, buf + [s[i]])
  {
    if s[i] == QUOTE || s[i] == BACKSLASH || s[i] == LF {
      EscapeSpecial(text, pos, s, i);
      ScanEscaped(text, pos, buf, s[i], pos + 2);
    } else if IsControl(s[i]) {
      EscapeControl(text, pos, s, i);
      ScanEscaped(text, pos, buf, s[i], pos + |QuoteByte(s, i)|);
    } else {
      assert text[pos + 0] == QuoteByte(s, i)[0];
      ScanPlain(text, pos, buf);
    }
  }

  predicate Shut(t: nat) {
    true
  }

  /** The quoted text of `s` from byte `i` lies between `pos` and `end`. Stated under a
      token, so that only the steps that need the text unfold it. */
  ghost predicate QuotedUpTo(text: seq<Byte>, pos: nat, s: seq<Byte>, i: nat, end: nat)
    requires i <= |s|
  {
    forall t {:trigger Shut(t)} :: Shut(t) ==> Reads(text, pos, QuoteFrom(s, i)) && end == pos + |QuoteFrom(s, i)|
  }

  lemma {:induction false} QuotedParts(text: seq<Byte>, pos: nat, s: seq<Byte>, i: nat)
    requires i < |s| && Reads(text, pos, QuoteFrom(s, i))
    ensures ReadsByte(text, pos, s, i) && Reads(text, pos + |QuoteByte(s, i)|, QuoteFrom(s, i + 1))
    ensures |QuoteFrom(s, i)| == |QuoteByte(s, i)| + |QuoteFrom(s, i + 1)|
  {
    ReadsParts(text, pos, QuoteByte(s, i), QuoteFrom(s, i + 1));
    NextIsSafe(s, i + 1);
    assert text[pos + |QuoteByte(s, i)| + 0] == QuoteFrom(s, i + 1)[0];
  }

  /** One byte, and the text behind it. */
  lemma {:induction false} QuotedStep(text: seq<Byte>, pos: nat, s: seq<Byte>, i: nat, end: nat, buf: seq<Byte>) returns (next: nat)
    requires i < |s| && QuotedUpTo(text, pos, s, i, end)
    ensures QuotedUpTo(text, next, s, i + 1, end) && Scan(text, pos, buf) == Scan(text, next, buf + [s[i]])
  {
    QuotedNext(text, pos, s, i, end);
    ScanByte(text, pos, s, i, buf);
    next := pos + |QuoteByte(s, i)|;
  }

  lemma {:induction false} QuotedNext(text: seq<Byte>, pos: nat, s: seq<Byte>, i: nat, end: nat)
    requires i < |s| && QuotedUpTo(text, pos, s, i, end)
    ensures ReadsByte(text, pos, s, i) && QuotedUpTo(text, pos + |QuoteByte(s, i)|, s, i + 1, end)
  {
    assert Shut(0);
    QuotedParts(text, pos, s, i);
  }

  lemma {:induction false} OneMore(buf: seq<Byte>, s: seq<Byte>, i: nat)
    requires i < |s|
    ensures buf + [s[i]] + s[i + 1..] == buf + s[i..]
  {
  }

  lemma {:induction false} ScanEnd(text: seq<Byte>, pos: nat, s: seq<Byte>, end: nat, buf: seq<Byte>)
    requires QuotedUpTo(text, pos, s, |s|, end)
    ensures Scan(text, pos, buf) == Ok(buf + s[|s|..], end)
  {
    assert Shut(0);
    assert text[pos + 0] == QuoteFrom(s, |s|)[0];
    assert buf + s[|s|..] == buf;
  }

  lemma {:induction false} ScanQuoted(text: seq<Byte>, pos: nat, s: seq<Byte>, i: nat, end: nat, buf: seq<Byte>)
    requires i <= |s| && QuotedUpTo(text, pos, s, i, end)
    ensures Scan(text, pos, buf) == Ok(buf + s[i..], end)
    decreases |s| - i
  {
    if i == |s| {
      ScanEnd(text, pos, s, end, buf);
    } else {
      var next := QuotedStep(text, pos, s, i, end, buf);
      ScanQuoted(text, next, s, i + 1, end, buf + [s[i]]);
      OneMore(buf, s, i);
    }
  }

  /** For every byte string and whatever stands around it: scanning its quoted form
      consumes exactly that form and returns the bytes. */
  lemma {:induction false} QuoteRoundTrip(before: seq<Byte>, s: seq<Byte>, after: seq<Byte>)
    ensures Scan(before + Quote(s) + after, |before| + 1, []) == Ok(s, |before| + |Quote(s)|)
  {
    var text, q := before + Quote(s) + after, QuoteFrom(s, 0);
    forall i | 0 <= i < |q| ensures text[|before| + 1 + i] == q[i] {
      assert Quote(s)[1 + i] == q[i];
    }
    ScanQuoted(text, |before| + 1, s, 0, |before| + |Quote(s)|, []);
    assert [] + s[0..] == s;
  }
}
