/**
 The parts of a string literal, one by one (compiler/parse/lexer.go, section 2.1 of the
 Lua 5.1 manual), and the parts of a quoted string (stringlib_format.go).
 */
module StringEscapes {
  import opened QuotedStrings

  predicate Is(text: seq<Byte>, pos: nat, c: char) {
    pos < |text| && text[pos] == c as int
  }

  /** A letter that stands for something else. */
  predicate LetterAt(text: seq<Byte>, pos: nat) {
    Is(text, pos, 'a') || Is(text, pos, 'b') || Is(text, pos, 't') || Is(text, pos, 'n') || Is(text, pos, 'v') || Is(text, pos, 'f') || Is(text, pos, 'r')
  }

  predicate DigitAt(text: seq<Byte>, pos: nat) {
    pos < |text| && '0' as int <= text[pos] <= '9' as int
  }

  function Digit(text: seq<Byte>, pos: nat): int
    requires pos < |text|
  {
    text[pos] - '0' as int
  }

  // ----- escapes -----

  /** The letters that stand for control characters. */
  lemma {:induction false} EscapeLetters(text: seq<Byte>, pos: nat)
    ensures Is(text, pos, 'a') ==> Escape(text, pos) == Ok([7], pos + 1)
    ensures Is(text, pos, 'b') ==> Escape(text, pos) == Ok([8], pos + 1)
    ensures Is(text, pos, 't') ==> Escape(text, pos) == Ok([9], pos + 1)
    ensures Is(text, pos, 'n') ==> Escape(text, pos) == Ok([10], pos + 1)
    ensures Is(text, pos, 'v') ==> Escape(text, pos) == Ok([11], pos + 1)
    ensures Is(text, pos, 'f') ==> Escape(text, pos) == Ok([12], pos + 1)
    ensures Is(text, pos, 'r') ==> Escape(text, pos) == Ok([13], pos + 1)
  {
  }

  /** Any other byte stands for itself, and a line break, one byte or two different ones,
      for a line feed. */
  lemma {:induction false} EscapeOthers(text: seq<Byte>, pos: nat)
    requires pos < |text|
    ensures !LetterAt(text, pos) && !DigitAt(text, pos) && !Is(text, pos, '\n') && !Is(text, pos, '\r') ==> Escape(text, pos) == Ok([text[pos]], pos + 1)
    ensures Is(text, pos, '\n') ==> Escape(text, pos) == Ok([10], if Is(text, pos + 1, '\r') then pos + 2 else pos + 1)
    ensures Is(text, pos, '\r') ==> Escape(text, pos) == Ok([10], if Is(text, pos + 1, '\n') then pos + 2 else pos + 1)
  {
  }

  /** One to three digits stand for the byte with that number, if it is one. */
  lemma {:induction false} EscapeNumbers(text: seq<Byte>, pos: nat)
    requires DigitAt(text, pos)
    ensures !DigitAt(text, pos + 1) ==> Escape(text, pos) == Ok([Digit(text, pos)], pos + 1)
    ensures DigitAt(text, pos + 1) && !DigitAt(text, pos + 2) ==> Escape(text, pos) == Ok([10 * Digit(text, pos) + Digit(text, pos + 1)], pos + 2)
    ensures DigitAt(text, pos + 1) && DigitAt(text, pos + 2) ==>
              var n := 100 * Digit(text, pos) + 10 * Digit(text, pos + 1) + Digit(text, pos + 2);
              Escape(text, pos) == if n <= 255 then Ok([n], pos + 3) else EscapeTooLarge
  {
    var d := Digit(text, pos);
    if !DigitAt(text, pos + 1) {
      assert Digits(text, pos + 1, d, 2) == (d, pos + 1);
    } else {
      var e := d * 10 + Digit(text, pos + 1);
      assert Digits(text, pos + 1, d, 2) == Digits(text, pos + 2, e, 1);
      if !DigitAt(text, pos + 2) {
        assert Digits(text, pos + 2, e, 1) == (e, pos + 2);
      } else {
        var f := e * 10 + Digit(text, pos + 2);
        assert Digits(text, pos + 2, e, 1) == Digits(text, pos + 3, f, 0) == (f, pos + 3);
      }
    }
  }

  /** What the scanner does at each position of a string: it ends at the quote, fails at a
      line break or the end of the text, reads an escape, or takes the byte as it is. */
  lemma {:induction false} ScanStep(text: seq<Byte>, pos: nat, buf: seq<Byte>)
    ensures Is(text, pos, '"') ==> Scan(text, pos, buf) == Ok(buf, pos + 1)
    ensures pos >= |text| || Is(text, pos, '\n') || Is(text, pos, '\r') ==> Scan(text, pos, buf) == Unterminated
    ensures Is(text, pos, '\\') ==>
              var e := Escape(text, pos + 1); Scan(text, pos, buf) == if e.Ok? then Scan(text, e.pos, buf + e.bytes) else e
    ensures pos < |text| && !Is(text, pos, '"') && !Is(text, pos, '\n') && !Is(text, pos, '\r') && !Is(text, pos, '\\') ==>
              Scan(text, pos, buf) == Scan(text, pos + 1, buf + [text[pos]])
  {
  }

  // ----- the quoted form -----

  /** The decimal number of a byte, as short as it can be or with three digits. */
  ghost predicate Writes(d: seq<Byte>, b: Byte, short: bool) {
    && 1 <= |d| <= 3 && (forall i :: 0 <= i < |d| ==> '0' as int <= d[i] <= '9' as int)
    && (if short then |d| > 1 ==> d[0] != '0' as int else |d| == 3)
    && b == (if |d| == 3 then 100 * Digit(d, 0) else 0) + (if |d| >= 2 then 10 * Digit(d, |d| - 2) else 0) + Digit(d, |d| - 1)
  }

  /** Quotes, backslashes and line feeds have a backslash before them; control characters
      are escaped by their number, with three digits if a digit follows; all other bytes
      are as they were. */
  lemma {:induction false} QuotedByte(s: seq<Byte>, i: nat)
    requires i < |s|
    ensures s[i] in ['"' as int, '\\' as int, '\n' as int] ==> QuoteByte(s, i) == ['\\' as int, s[i]]
    ensures s[i] >= ' ' as int && s[i] != 127 && s[i] !in ['"' as int, '\\' as int] ==> QuoteByte(s, i) == [s[i]]
    ensures (s[i] < ' ' as int || s[i] == 127) && s[i] != '\n' as int ==>
              var q := QuoteByte(s, i); q != [] && q[0] == '\\' as int && Writes(q[1..], s[i], !DigitAt(s, i + 1))
  {
    var b := s[i];
    if (b < 32 || b == 127) && b != 10 {
      var d := Decimal(b, DigitAt(s, i + 1));
      assert ([BACKSLASH] + d)[1..] == d;
    }
  }

  function Joined(parts: seq<seq<Byte>>): seq<Byte> {
    if parts == [] then [] else Joined(parts[..|parts| - 1]) + parts[|parts| - 1]
  }

  function Parts(s: seq<Byte>, n: nat): (r: seq<seq<Byte>>)
    requires n <= |s|
    ensures |r| == n && forall i :: 0 <= i < n ==> r[i] == QuoteByte(s, i)
  {
    seq(n, i requires 0 <= i < n => QuoteByte(s, i))
  }

  /** A quoted string is its bytes, each quoted, between two quotes. */
  lemma {:induction false} QuotedText(s: seq<Byte>)
    ensures Quote(s) == ['"' as int] + Joined(Parts(s, |s|)) + ['"' as int]
  {
    QuotedRest(s, 0);
    assert Joined(Parts(s, 0)) == [] && [] + QuoteFrom(s, 0) == QuoteFrom(s, 0);
    assert Quote(s) == [QUOTE] + (Joined(Parts(s, |s|)) + [QUOTE]);
  }

  lemma {:induction false} QuotedRest(s: seq<Byte>, i: nat)
    requires i <= |s|
    ensures Joined(Parts(s, i)) + QuoteFrom(s, i) == Joined(Parts(s, |s|)) + [QUOTE]
    decreases |s| - i
  {
    if i < |s| {
      QuotedRest(s, i + 1);
      QuoteSnoc(s, i, Joined(Parts(s, i)));
      JoinedNext(s, i);
    }
  }

  lemma {:induction false} JoinedNext(s: seq<Byte>, i: nat)
    requires i < |s|
    ensures Joined(Parts(s, i + 1)) == Joined(Parts(s, i)) + QuoteByte(s, i)
  {
    assert Parts(s, i + 1)[..i] == Parts(s, i);
  }
}
