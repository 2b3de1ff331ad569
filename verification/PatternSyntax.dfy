/** Pattern trees and machine code of the Lua pattern matcher (pm/pm.go). */
module PatternSyntax {

  type byte = x: int | 0 <= x < 256

  /** A character class.  Characters and class codes are integers because the
      scanner's end-of-input mark (-1) can end up in a class or a brace. */
  datatype CharClass =
    | Dot
    | Literal(ch: int)
    | Single(code: int)
    | Set(negated: bool, classes: seq<CharClass>)
    | Range(begin: int, end: int)

  /** The test of a `%x` class letter; an upper-case letter is the complement. */
  predicate MatchesLetter(code: int, ch: int) {
    var c := if 'A' as int <= code <= 'Z' as int then code + 32 else code;
    var positive :=
      if c == 'a' as int then IsUpper(ch) || IsLower(ch)
      else if c == 'c' as int then 0 <= ch <= 0x1F || ch == 0x7F
      else if c == 'd' as int then IsDigit(ch)
      else if c == 'l' as int then IsLower(ch)
      else if c == 'p' as int then
        0x21 <= ch <= 0x2f || 0x3a <= ch <= 0x40 || 0x5b <= ch <= 0x60 || 0x7b <= ch <= 0x7e
      else if c == 's' as int then ch == 32 || 9 <= ch <= 13
      else if c == 'u' as int then IsUpper(ch)
      else if c == 'w' as int then IsDigit(ch) || IsUpper(ch) || IsLower(ch)
      else if c == 'x' as int then IsDigit(ch) || 97 <= ch <= 102 || 65 <= ch <= 70
      else ch == 0;
    if !IsClassLetter(c) then ch == code
    else if 'A' as int <= code <= 'Z' as int then !positive
    else positive
  }

  predicate IsUpper(ch: int) { 65 <= ch <= 90 }

  predicate IsLower(ch: int) { 97 <= ch <= 122 }

  predicate IsDigit(ch: int) { 48 <= ch <= 57 }

  predicate IsClassLetter(c: int) {
    c in ['a' as int, 'c' as int, 'd' as int, 'l' as int, 'p' as int,
          's' as int, 'u' as int, 'w' as int, 'x' as int, 'z' as int]
  }

  predicate Matches(c: CharClass, ch: int)
    decreases c
  {
    match c
    case Dot => true
    case Literal(x) => x == ch
    case Single(code) => MatchesLetter(code, ch)
    case Set(negated, classes) => (exists i :: 0 <= i < |classes| && Matches(classes[i], ch)) != negated
    case Range(begin, end) => begin <= ch <= end
  }

  /** `*`, `+`, `-` and `?`. */
  datatype Repeat = Greedy | GreedyPlus | Lazy | Optional

  datatype Pattern =
    | SingleP(cls: CharClass)
    | RepeatP(kind: Repeat, cls: CharClass)
    | PosCap
    | Cap(inner: seq<Pattern>)
    | BackRef(index: nat)
    | Brace(open: int, close: int)

  /** A whole pattern: `^`, `$` and the items between them. */
  datatype SeqPattern = SeqPattern(mustHead: bool, mustTail: bool, items: seq<Pattern>)

  /** The number of captures an item opens, its own and the nested ones. */
  function CapCount(p: Pattern): nat {
    match p
    case PosCap => 1
    case Cap(inner) => 1 + CapCounts(inner)
    case _ => 0
  }

  function CapCounts(ps: seq<Pattern>): nat {
    if ps == [] then 0 else CapCount(ps[0]) + CapCounts(ps[1..])
  }

  datatype Instruction =
    | OpChar(cls: CharClass)
    | OpMatch
    | OpTailMatch
    | OpJmp(target: nat)
    | OpSplit(first: nat, second: nat)
    | OpSave(slot: nat)
    | OpPSave(slot: nat)
    | OpBrace(open: int, close: int)
    | OpNumber(index: nat)
}
