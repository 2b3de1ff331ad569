/**
 What a pattern matches, said without a search (section 5.4.1 of the Lua 5.1 Reference
 Manual): which stretches of the subject, with which captures. The outcomes of the
 search are exactly those.
 */
module PatternLanguage {
  import opened PatternSyntax
  import opened PatternSemantics
  import opened PatternVM
  import opened PatternFind

  // ----- classes -----

  predicate Between(lo: char, ch: int, hi: char) {
    lo as int <= ch <= hi as int
  }

  /** The bytes of each class letter. */
  lemma {:induction false} LetterClasses(ch: int)
    requires 0 <= ch < 256
    ensures MatchesLetter('d' as int, ch) <==> Between('0', ch, '9')
    ensures MatchesLetter('l' as int, ch) <==> Between('a', ch, 'z')
    ensures MatchesLetter('u' as int, ch) <==> Between('A', ch, 'Z')
    ensures MatchesLetter('a' as int, ch) <==> MatchesLetter('l' as int, ch) || MatchesLetter('u' as int, ch)
    ensures MatchesLetter('w' as int, ch) <==> MatchesLetter('a' as int, ch) || MatchesLetter('d' as int, ch)
    ensures MatchesLetter('x' as int, ch) <==> MatchesLetter('d' as int, ch) || Between('a', ch, 'f') || Between('A', ch, 'F')
    ensures MatchesLetter('s' as int, ch) <==> ch == ' ' as int || Between('\t', ch, '\r')
    ensures MatchesLetter('c' as int, ch) <==> ch < ' ' as int || ch == 127
    ensures MatchesLetter('p' as int, ch) <==> Between('!', ch, '~') && !MatchesLetter('w' as int, ch)
    ensures MatchesLetter('z' as int, ch) <==> ch == 0
  {
  }

  /** A capital is the complement of its letter. */
  lemma {:induction false} CapitalClasses(code: int, ch: int)
    requires code in ['a' as int, 'c' as int, 'd' as int, 'l' as int, 'p' as int, 's' as int, 'u' as int, 'w' as int, 'x' as int, 'z' as int]
    ensures MatchesLetter(code - 32, ch) <==> !MatchesLetter(code, ch)
  {
  }

  /** Anything else stands for itself. */
  lemma {:induction false} OtherCharacters(code: int, ch: int)
    requires code !in ['a' as int, 'c' as int, 'd' as int, 'l' as int, 'p' as int, 's' as int, 'u' as int, 'w' as int, 'x' as int, 'z' as int]
    requires code !in ['A' as int, 'C' as int, 'D' as int, 'L' as int, 'P' as int, 'S' as int, 'U' as int, 'W' as int, 'X' as int, 'Z' as int]
    ensures MatchesLetter(code, ch) <==> ch == code
  {
  }

  /** Sets are unions of their classes, `^` is the complement, and a range is the set of
      its bytes. */
  lemma {:induction false} SetClasses(a: seq<CharClass>, b: seq<CharClass>, c: CharClass, lo: int, hi: int, ch: int)
    ensures Matches(Dot, ch) && (Matches(Literal(lo), ch) <==> ch == lo) && (Matches(Single(lo), ch) <==> MatchesLetter(lo, ch))
    ensures !Matches(Set(false, []), ch) && (Matches(Set(false, [c]), ch) <==> Matches(c, ch))
    ensures Matches(Set(false, a + b), ch) <==> Matches(Set(false, a), ch) || Matches(Set(false, b), ch)
    ensures Matches(Set(true, a), ch) <==> !Matches(Set(false, a), ch)
    ensures hi < lo ==> !Matches(Range(lo, hi), ch)
    ensures lo <= hi ==> (Matches(Range(lo, hi), ch) <==> Matches(Range(lo, hi - 1), ch) || ch == hi)
  {
    assert [c][0] == c;
    if i :| 0 <= i < |a| && Matches(a[i], ch) {
      assert (a + b)[i] == a[i];
    }
    if i :| 0 <= i < |b| && Matches(b[i], ch) {
      assert (a + b)[|a| + i] == b[i];
    }
  }

  // ----- balanced text -----

  /** How often a byte occurs from `i` up to `j`. */
  function Count(src: Subject, ch: int, i: nat, j: nat): nat
    requires j <= |src|
    decreases j - i
  {
    if i >= j then 0 else (if src[i] == ch then 1 else 0) + Count(src, ch, i + 1, j)
  }

  /** As many closers as openers, counting `depth` more openers before. */
  ghost predicate Even(open: int, close: int, src: Subject, i: nat, j: nat, depth: nat)
    requires j <= |src|
  {
    Count(src, close, i, j) == Count(src, open, i, j) + depth
  }

  /** `j` is the first position behind `i` at which closers and openers are even; if
      they are the same byte, it is behind the next one. */
  ghost predicate Balances(open: int, close: int, src: Subject, i: nat, j: nat, depth: nat) {
    && i < j <= |src|
    && if open == close then src[j - 1] == close && forall k :: i <= k < j - 1 ==> src[k] != close
       else Even(open, close, src, i, j, depth) && forall k :: i < k < j ==> !Even(open, close, src, i, k, depth)
  }

  /** One byte later. */
  lemma {:induction false} EvenStep(open: int, close: int, src: Subject, i: nat, j: nat, depth: nat)
    requires open != close && i < j <= |src|
    ensures Even(open, close, src, i, j, depth) <==>
            if src[i] == close && depth == 0 then Count(src, close, i + 1, j) + 1 == Count(src, open, i + 1, j)
            else Even(open, close, src, i + 1, j, if src[i] == close then depth - 1 else if src[i] == open then depth + 1 else depth)
  {
  }

  lemma {:induction false} EvenHere(open: int, close: int, src: Subject, i: nat, depth: nat)
    requires i <= |src|
    ensures Even(open, close, src, i, i, depth) <==> depth == 0
  {
  }

  lemma {:induction false} BraceEndBalances(open: int, close: int, src: Subject, pos: nat, depth: nat, e: nat)
    requires pos <= |src| && depth >= 1 && (open == close ==> depth == 1)
    ensures BraceEnd(open, close, src, pos, depth) == Some(e) <==> Balances(open, close, src, pos, e, depth)
    decreases |src| - pos
  {
    if pos < e <= |src| {
      if src[pos] == close && depth == 1 {
        ClosesHere(open, close, src, pos, e);
      } else {
        var d := if src[pos] == close then depth - 1 else if src[pos] == open then depth + 1 else depth;
        BraceEndBalances(open, close, src, pos + 1, d, e);
        GoesOn(open, close, src, pos, e, depth, d);
      }
    } else if pos < |src| && !(src[pos] == close && depth == 1) {
      BraceEndBalances(open, close, src, pos + 1, if src[pos] == close then depth - 1 else if src[pos] == open then depth + 1 else depth, e);
    }
  }

  lemma {:induction false} ClosesHere(open: int, close: int, src: Subject, pos: nat, e: nat)
    requires pos < e <= |src| && src[pos] == close
    ensures Balances(open, close, src, pos, e, 1) <==> e == pos + 1
  {
    if open != close {
      EvenStep(open, close, src, pos, pos + 1, 1);
      EvenHere(open, close, src, pos + 1, 0);
    }
  }

  lemma {:induction false} GoesOn(open: int, close: int, src: Subject, pos: nat, e: nat, depth: nat, d: nat)
    requires pos < e <= |src| && depth >= 1 && d >= 1 && (open == close ==> src[pos] != close && depth == 1)
    requires d == if src[pos] == close then depth - 1 else if src[pos] == open then depth + 1 else depth
    ensures Balances(open, close, src, pos, e, depth) <==> Balances(open, close, src, pos + 1, e, d)
  {
    if open != close {
      EvenLater(open, close, src, pos, e, depth, d);
      EvenHere(open, close, src, pos + 1, d);
      if Balances(open, close, src, pos + 1, e, d) {
        forall k | pos < k < e ensures !Even(open, close, src, pos, k, depth) {
          assert Even(open, close, src, pos, k, depth) <==> Even(open, close, src, pos + 1, k, d);
        }
      }
      if Balances(open, close, src, pos, e, depth) {
        assert e != pos + 1;
        var next := pos + 1;
        forall k | next < k < e ensures !Even(open, close, src, next, k, d) {
          assert Even(open, close, src, pos, k, depth) <==> Even(open, close, src, pos + 1, k, d);
        }
      }
    }
  }

  lemma {:induction false} EvenLater(open: int, close: int, src: Subject, pos: nat, e: nat, depth: nat, d: nat)
    requires open != close && pos < e <= |src| && (src[pos] == close ==> depth >= 1)
    requires d == if src[pos] == close then depth - 1 else if src[pos] == open then depth + 1 else depth
    ensures forall k :: pos < k <= e ==> (Even(open, close, src, pos, k, depth) <==> Even(open, close, src, pos + 1, k, d))
  {
    forall k | pos < k <= e ensures Even(open, close, src, pos, k, depth) <==> Even(open, close, src, pos + 1, k, d) {
      EvenStep(open, close, src, pos, k, depth);
    }
  }

  /** The opener itself is one of those to be closed. */
  lemma {:induction false} FromOpener(open: int, close: int, src: Subject, pos: nat, e: nat)
    requires open != close && pos < e <= |src| && src[pos] == open
    ensures Balances(open, close, src, pos + 1, e, 1) <==>
            Even(open, close, src, pos, e, 0) && forall k :: pos < k < e ==> !Even(open, close, src, pos, k, 0)
  {
    EvenLater(open, close, src, pos, e, 0, 1);
    EvenHere(open, close, src, pos + 1, 1);
    if Balances(open, close, src, pos + 1, e, 1) {
      forall k | pos < k < e ensures !Even(open, close, src, pos, k, 0) {
        assert Even(open, close, src, pos, k, 0) <==> Even(open, close, src, pos + 1, k, 1);
      }
    }
    if Even(open, close, src, pos, e, 0) && forall k :: pos < k < e ==> !Even(open, close, src, pos, k, 0) {
      var next := pos + 1;
      forall k | next < k < e ensures !Even(open, close, src, next, k, 1) {
        assert Even(open, close, src, pos, k, 0) <==> Even(open, close, src, pos + 1, k, 1);
      }
    }
  }

  /** `%bxy` matches from an `x` to the first place where there are as many `y` as `x`;
      `%bxx` to the next `x`. */
  lemma {:induction false} BraceBalances(open: int, close: int, src: Subject, pos: nat, e: nat)
    requires pos <= |src|
    ensures MatchBrace(open, close, src, pos) == Some(e) <==>
            pos < |src| && src[pos] == open && Balances(open, close, src, pos + 1, e, 1)
    ensures open != close ==>
              (MatchBrace(open, close, src, pos) == Some(e) <==>
                 && pos < e <= |src| && src[pos] == open && Even(open, close, src, pos, e, 0)
                 && forall k :: pos < k < e ==> !Even(open, close, src, pos, k, 0))
  {
    if pos < |src| && src[pos] == open {
      BraceEndBalances(open, close, src, pos + 1, 1, e);
      if open != close && pos < e <= |src| {
        FromOpener(open, close, src, pos, e);
      }
    }
  }

  // ----- the language of a pattern -----

  /** The text from `i` to `j` is in the language of the item, with the captures `caps`.
      The item's first capture has the slots `slot` and `slot + 1`; `open` are the slots
      of the groups around it. A reference to a finished capture stands for a copy of its
      text; one to a group around it stands for nothing, where a later capture has begun
      and the group begins at position 0, as its slot says. */
  ghost predicate Denotes(p: Pattern, slot: nat, open: set<nat>, src: Subject, i: nat, j: nat, caps: Captures)
    decreases p, 0
  {
    match p
    case SingleP(cls) => j == i + 1 <= |src| && Matches(cls, src[i])
    case RepeatP(kind, cls) =>
      && i <= j <= |src| && (forall k :: i <= k < j ==> Matches(cls, src[k]))
      && (kind.GreedyPlus? ==> i < j) && (kind.Optional? ==> j <= i + 1)
    case PosCap => i == j && Holds(caps, slot, 2 * (i + 1) % 0x1_0000_0000 + 1) && Holds(caps, slot + 1, 2 * (i + 1) % 0x1_0000_0000 + 1)
    case Cap(inner) =>
      && Holds(caps, slot, 2 * i % 0x1_0000_0000) && Holds(caps, slot + 1, 2 * j % 0x1_0000_0000)
      && DenoteAll(inner, slot + 2, open + {slot}, src, i, j, caps)
    case BackRef(index) =>
      if 2 * index in open then slot > 2 * index + 2 && 2 * index < |caps| && caps[2 * index] / 2 == 0 && i == j
      else
        && 2 * index + 2 <= slot && 2 * index + 1 < |caps| && i <= j <= |src|
        && var a, b := caps[2 * index] / 2, caps[2 * index + 1] / 2; a <= b <= |src| && src[a..b] == src[i..j]
    case Brace(x, y) => i < |src| && src[i] == x && Balances(x, y, src, i + 1, j, 1)
  }

  /** The items stand one behind the other. */
  ghost predicate DenoteAll(ps: seq<Pattern>, slot: nat, open: set<nat>, src: Subject, i: nat, j: nat, caps: Captures)
    decreases ps, 0
  {
    if ps == [] then i == j
    else exists k ::
      && Denotes(ps[0], slot, open, src, i, k, caps)
      && DenoteAll(ps[1..], slot + 2 * CapCount(ps[0]), open, src, k, j, caps)
  }

  predicate Holds(caps: Captures, slot: nat, x: int) {
    slot < |caps| && caps[slot] == x
  }

  /** The pattern matches from `i` to `j` with these captures. */
  ghost predicate InLanguage(pat: SeqPattern, src: Subject, i: nat, j: nat, caps: Captures) {
    && i <= j <= |src| && |caps| == 2 + 2 * CapCounts(pat.items) && (pat.mustTail ==> j == |src|)
    && caps[0] == 2 * i % 0x1_0000_0000 && caps[1] == 2 * j % 0x1_0000_0000
    && DenoteAll(pat.items, 2, {0}, src, i, j, caps)
  }

  // ----- the search finds nothing else -----

  predicate EndOf(open: set<nat>, k: nat) {
    k >= 1 && k - 1 in open
  }

  /** A state before an item with its first capture at `slot`: the ends of the groups
      around it are not known yet and read as 0. */
  ghost predicate Ready(caps: Captures, slot: nat, open: set<nat>) {
    forall t {:trigger Shut(t)} :: Shut(t) ==> ReadyNow(caps, slot, open)
  }

  predicate Shut(t: nat) {
    true
  }

  ghost predicate ReadyNow(caps: Captures, slot: nat, open: set<nat>) {
    && slot % 2 == 0 && slot - 1 <= |caps| <= slot && (|caps| < slot <==> slot - 2 in open)
    && (forall q :: q in open ==> q % 2 == 0 && q + 2 <= slot)
    && (forall k :: 0 <= k < |caps| && EndOf(open, k) ==> caps[k] == 0)
  }

  /** `caps'` has what `caps` has, but for the ends of the groups that are open. */
  ghost predicate Agree(caps: Captures, caps': Captures, open: set<nat>) {
    |caps| <= |caps'| && forall k :: 0 <= k < |caps| && !EndOf(open, k) ==> caps'[k] == caps[k]
  }

  lemma {:induction false} AgreeTrans(a: Captures, b: Captures, c: Captures, open: set<nat>)
    requires Agree(a, b, open) && Agree(b, c, open)
    ensures Agree(a, c, open)
  {
  }

  /** The same text is in the language of the item with captures that agree. */
  lemma {:induction false} DenotesAgree(p: Pattern, slot: nat, open: set<nat>, src: Subject, i: nat, j: nat, caps: Captures, caps': Captures)
    requires Denotes(p, slot, open, src, i, j, caps) && Agree(caps, caps', open) && OpenBelow(open, slot)
    ensures Denotes(p, slot, open, src, i, j, caps')
    decreases p, 0
  {
    if p.Cap? {
      assert Agree(caps, caps', open + {slot});
      DenoteAllAgree(p.inner, slot + 2, open + {slot}, src, i, j, caps, caps');
    }
  }

  ghost predicate OpenBelow(open: set<nat>, slot: nat) {
    slot % 2 == 0 && forall q :: q in open ==> q % 2 == 0 && q + 2 <= slot
  }

  lemma {:induction false} DenoteAllAgree(ps: seq<Pattern>, slot: nat, open: set<nat>, src: Subject, i: nat, j: nat, caps: Captures, caps': Captures)
    requires DenoteAll(ps, slot, open, src, i, j, caps) && Agree(caps, caps', open) && OpenBelow(open, slot)
    ensures DenoteAll(ps, slot, open, src, i, j, caps')
    decreases ps, 0
  {
    if ps != [] {
      var k :| Denotes(ps[0], slot, open, src, i, k, caps) && DenoteAll(ps[1..], slot + 2 * CapCount(ps[0]), open, src, k, j, caps);
      DenotesAgree(ps[0], slot, open, src, i, k, caps, caps');
      DenoteAllAgree(ps[1..], slot + 2 * CapCount(ps[0]), open, src, k, j, caps, caps');
    }
  }

  /** After the items with `n` captures. */
  lemma {:induction false} ReadyAfter(st: State, slot: nat, n: nat, open: set<nat>, st': State, src: Subject)
    requires Ready(st.caps, slot, open) && Grown(st, slot, n, st', src)
    ensures Ready(st'.caps, slot + 2 * n, open) && Agree(st.caps, st'.caps, open)
  {
    assert Shut(0);
  }

  /** Inside a group that begins here. */
  lemma {:induction false} ReadyInside(caps: Captures, slot: nat, open: set<nat>, pos: nat)
    requires Ready(caps, slot, open)
    ensures var caps' := SetCapture(caps, slot, pos);
            Ready(caps', slot + 2, open + {slot}) && Agree(caps, caps', open) && Holds(caps', slot, 2 * pos % 0x1_0000_0000) && |caps'| == slot + 1 && OpenBelow(open, slot)
  {
    assert Shut(0);
    var caps' := SetCapture(caps, slot, pos);
    assert caps'[slot] == Mark(pos);
    forall k | 0 <= k < |caps'| && EndOf(open + {slot}, k) ensures caps'[k] == 0 {
      assert EndOf(open, k);
    }
  }

  lemma {:induction false} LeafOf(t: Tree, ps: seq<Pattern>, slot: nat, src: Subject, st': State) returns (st: State)
    requires InBounds(t, src) && st' in Lives(ThenTree(t, ps, slot, src))
    ensures st in Lives(t) && st.pos <= |src| && st' in Lives(SeqTree(ps, slot, src, st))
  {
    match t
    case Live(st1) => st := st1;
    case Choice(a, b) =>
      if st' in Lives(ThenTree(a, ps, slot, src)) {
        st := LeafOf(a, ps, slot, src, st');
      } else {
        st := LeafOf(b, ps, slot, src, st');
      }
  }

  lemma {:induction false} LeafThen(t: Tree, ps: seq<Pattern>, slot: nat, src: Subject, st: State, st': State)
    requires InBounds(t, src) && st in Lives(t) && st.pos <= |src| && st' in Lives(SeqTree(ps, slot, src, st))
    ensures st' in Lives(ThenTree(t, ps, slot, src))
  {
    match t
    case Live(_) =>
    case Choice(a, b) =>
      if st in Lives(a) {
        LeafThen(a, ps, slot, src, st, st');
      } else {
        LeafThen(b, ps, slot, src, st, st');
      }
  }

  lemma {:induction false} SeqLeafOf(ps: seq<Pattern>, slot: nat, src: Subject, st: State, st': State) returns (st1: State)
    requires ps != [] && st.pos <= |src| && st' in Lives(SeqTree(ps, slot, src, st))
    ensures st1 in Lives(ItemTree(ps[0], slot, src, st)) && st1.pos <= |src| && st' in Lives(SeqTree(ps[1..], slot + 2 * CapCount(ps[0]), src, st1))
  {
    st1 := LeafOf(ItemTree(ps[0], slot, src, st), ps[1..], slot + 2 * CapCount(ps[0]), src, st');
  }

  lemma {:induction false} SeqLeaf(ps: seq<Pattern>, slot: nat, src: Subject, st: State, st1: State, st': State)
    requires ps != [] && st.pos <= |src| && st1 in Lives(ItemTree(ps[0], slot, src, st)) && st1.pos <= |src|
    requires st' in Lives(SeqTree(ps[1..], slot + 2 * CapCount(ps[0]), src, st1))
    ensures st' in Lives(SeqTree(ps, slot, src, st))
  {
    LeafThen(ItemTree(ps[0], slot, src, st), ps[1..], slot + 2 * CapCount(ps[0]), src, st1, st');
  }

  lemma {:induction false} ClosedLeaf(t: Tree, slot: nat, src: Subject, st': State) returns (st: State)
    requires InBounds(t, src) && st' in Lives(CloseTree(t, slot, src))
    ensures st in Lives(t) && st' == st.(caps := SetCapture(st.caps, slot, st.pos))
  {
    CloseTreeOutcomes(t, slot, src);
    var i :| 0 <= i < |Lives(t)| && CloseAll(Lives(t), slot)[i] == st';
    st := Lives(t)[i];
  }

  lemma {:induction false} CloseLeaf(t: Tree, slot: nat, src: Subject, st: State)
    requires InBounds(t, src) && st in Lives(t)
    ensures st.(caps := SetCapture(st.caps, slot, st.pos)) in Lives(CloseTree(t, slot, src))
  {
    CloseTreeOutcomes(t, slot, src);
    var i :| 0 <= i < |Lives(t)| && Lives(t)[i] == st;
    assert CloseAll(Lives(t), slot)[i] == st.(caps := SetCapture(st.caps, slot, st.pos));
  }

  /** A run of bytes of the class, and only that. */
  lemma {:induction false} RunLeaf(lazy: bool, cls: CharClass, src: Subject, st: State, st': State)
    requires st.pos <= |src|
    ensures st' in Lives(RepeatTree(lazy, cls, src, st)) <==>
            st' == st.(pos := st'.pos) && st.pos <= st'.pos <= |src| && forall k :: st.pos <= k < st'.pos ==> Matches(cls, src[k])
    decreases |src| - st.pos
  {
    if CharAt(cls, src, st.pos) {
      RunLeaf(lazy, cls, src, st.(pos := st.pos + 1), st');
    }
  }

  lemma {:induction false} RepeatLeaf(kind: Repeat, cls: CharClass, slot: nat, open: set<nat>, src: Subject, st: State, st': State)
    requires st.pos <= |src|
    ensures st' in Lives(RepeatItemTree(kind, cls, src, st)) <==>
            st'.caps == st.caps && Denotes(RepeatP(kind, cls), slot, open, src, st.pos, st'.pos, st.caps)
  {
    RunLeaf(kind.Lazy?, cls, src, st, st');
    if CharAt(cls, src, st.pos) {
      RunLeaf(false, cls, src, st.(pos := st.pos + 1), st');
    }
  }

  /** What a back reference finds, in terms of the final captures. */
  lemma {:induction false} ReferenceLeaf(index: nat, slot: nat, open: set<nat>, src: Subject, st: State, caps: Captures, j: nat)
    requires st.pos <= |src| && Ready(st.caps, slot, open) && Agree(st.caps, caps, open)
    ensures MatchBackRef(index, src, st) == Some(j) <==> Denotes(BackRef(index), slot, open, src, st.pos, j, caps)
  {
    assert Shut(0);
    assert !EndOf(open, 2 * index);
    if 2 * index in open {
      if slot > 2 * index + 2 {
        assert slot >= 2 * index + 4;
        assert EndOf(open, 2 * index + 1) && st.caps[2 * index + 1] == 0 && st.caps[2 * index] == caps[2 * index];
        assert src[0..0] == src[st.pos..st.pos];
      } else {
        assert 2 * index + 1 >= |st.caps|;
      }
    } else if 2 * index + 2 <= slot {
      assert 2 * index + 1 < |st.caps|;
      assert !EndOf(open, 2 * index + 1);
      assert st.caps[2 * index] == caps[2 * index] && st.caps[2 * index + 1] == caps[2 * index + 1];
      if Denotes(BackRef(index), slot, open, src, st.pos, j, caps) {
        assert |src[caps[2 * index] / 2..caps[2 * index + 1] / 2]| == |src[st.pos..j]|;
      }
    }
  }

  /** Any other item that is not a group matches exactly in its language. */
  lemma {:induction false} AttemptLeaf(p: Pattern, slot: nat, open: set<nat>, src: Subject, st: State, st': State, caps: Captures)
    requires !p.RepeatP? && !p.Cap? && st.pos <= |src| && Ready(st.caps, slot, open) && Agree(st.caps, caps, open)
    requires Attempt(p, slot, src, st) == Some(st') && Agree(st'.caps, caps, open)
    ensures Denotes(p, slot, open, src, st.pos, st'.pos, caps)
  {
    match p
    case PosCap =>
      var x := PosMark(st.pos + 1);
      assert Shut(0);
      assert Holds(st'.caps, slot, x) && Holds(st'.caps, slot + 1, x) && !EndOf(open, slot) && !EndOf(open, slot + 1);
    case BackRef(index) => ReferenceLeaf(index, slot, open, src, st, caps, st'.pos);
    case Brace(x, y) => BraceBalances(x, y, src, st.pos, st'.pos);
    case _ =>
  }

  lemma {:induction false} AttemptFound(p: Pattern, slot: nat, open: set<nat>, src: Subject, st: State, j: nat, caps: Captures)
    requires !p.RepeatP? && !p.Cap? && st.pos <= |src| && Ready(st.caps, slot, open) && Agree(st.caps, caps, open)
    requires Denotes(p, slot, open, src, st.pos, j, caps)
    ensures var a := Attempt(p, slot, src, st); a.Some? && a.value.pos == j && Agree(a.value.caps, caps, open)
  {
    match p
    case PosCap => PosCapFound(slot, open, st, caps);
    case BackRef(index) => ReferenceLeaf(index, slot, open, src, st, caps, j);
    case Brace(x, y) => BraceBalances(x, y, src, st.pos, j);
    case _ =>
  }

  lemma {:induction false} PosCapFound(slot: nat, open: set<nat>, st: State, caps: Captures)
    requires Ready(st.caps, slot, open) && Agree(st.caps, caps, open)
    requires Holds(caps, slot, PosMark(st.pos + 1)) && Holds(caps, slot + 1, PosMark(st.pos + 1))
    ensures Agree(AddPosCapture(st.caps, slot, st.pos + 1), caps, open)
  {
    assert Shut(0);
    var caps1 := AddPosCapture(st.caps, slot, st.pos + 1);
    forall k | 0 <= k < |caps1| && !EndOf(open, k) ensures caps[k] == caps1[k] {
      assert k >= |st.caps| ==> k == slot || k == slot + 1;
    }
  }

  // ----- every outcome is in the language, and every text of it is found -----

  lemma {:induction false} ItemSound(p: Pattern, slot: nat, open: set<nat>, src: Subject, st: State, st': State)
    requires st.pos <= |src| && Ready(st.caps, slot, open) && st' in Lives(ItemTree(p, slot, src, st))
    ensures Denotes(p, slot, open, src, st.pos, st'.pos, st'.caps)
    decreases p, 0
  {
    match p
    case RepeatP(kind, cls) => RepeatLeaf(kind, cls, slot, open, src, st, st');
    case Cap(inner) =>
      var st1 := st.(caps := SetCapture(st.caps, slot, st.pos));
      ReadyInside(st.caps, slot, open, st.pos);
      var body := ClosedLeaf(SeqTree(inner, slot + 2, src, st1), slot + 1, src, st');
      SeqSound(inner, slot + 2, open + {slot}, src, st1, body);
      GroupDenotes(inner, slot, open, src, st1, body, st');
    case _ =>
      ItemLeafReady(p, slot, open, src, st, st');
      AttemptLeaf(p, slot, open, src, st, st', st'.caps);
  }

  lemma {:induction false} ItemLeafReady(p: Pattern, slot: nat, open: set<nat>, src: Subject, st: State, st': State)
    requires st.pos <= |src| && Ready(st.caps, slot, open) && st' in Lives(ItemTree(p, slot, src, st))
    ensures Ready(st'.caps, slot + 2 * CapCount(p), open) && Agree(st.caps, st'.caps, open) && st'.pos <= |src|
  {
    assert Shut(0);
    ItemGrown(p, slot, src, st);
    LeafGrown(ItemTree(p, slot, src, st), st, slot, CapCount(p), src, st');
    ReadyAfter(st, slot, CapCount(p), open, st', src);
  }

  /** Between an item and those behind it. */
  lemma {:induction false} NextReady(ps: seq<Pattern>, slot: nat, open: set<nat>, src: Subject, st: State, st1: State, st': State)
    requires ps != [] && st.pos <= |src| && Ready(st.caps, slot, open) && st1 in Lives(ItemTree(ps[0], slot, src, st))
    requires st1.pos <= |src| && st' in Lives(SeqTree(ps[1..], slot + 2 * CapCount(ps[0]), src, st1))
    ensures Ready(st1.caps, slot + 2 * CapCount(ps[0]), open) && Agree(st1.caps, st'.caps, open) && OpenBelow(open, slot)
  {
    var slot' := slot + 2 * CapCount(ps[0]);
    ItemLeafReady(ps[0], slot, open, src, st, st1);
    SeqLeafGrown(ps[1..], slot', open, src, st1, st');
    ReadyAfter(st1, slot', CapCounts(ps[1..]), open, st', src);
    assert Shut(0);
  }

  /** A group around what its items match. */
  lemma {:induction false} GroupDenotes(inner: seq<Pattern>, slot: nat, open: set<nat>, src: Subject, st1: State, body: State, st': State)
    requires Ready(st1.caps, slot + 2, open + {slot}) && OpenBelow(open, slot) && |st1.caps| == slot + 1 && Holds(st1.caps, slot, 2 * st1.pos % 0x1_0000_0000)
    requires st1.pos <= |src| && body in Lives(SeqTree(inner, slot + 2, src, st1)) && st' == body.(caps := SetCapture(body.caps, slot + 1, body.pos))
    requires DenoteAll(inner, slot + 2, open + {slot}, src, st1.pos, body.pos, body.caps)
    ensures Denotes(Cap(inner), slot, open, src, st1.pos, st'.pos, st'.caps)
  {
    SeqLeafGrown(inner, slot + 2, open + {slot}, src, st1, body);
    GroupSound(slot, open, src, st1, CapCounts(inner), body, st');
    DenoteAllAgree(inner, slot + 2, open + {slot}, src, st1.pos, body.pos, body.caps, st'.caps);
  }

  /** The end of the group changes nothing else. */
  lemma {:induction false} GroupSound(slot: nat, open: set<nat>, src: Subject, st1: State, n: nat, body: State, st': State)
    requires OpenBelow(open, slot) && |st1.caps| == slot + 1 && Holds(st1.caps, slot, 2 * st1.pos % 0x1_0000_0000)
    requires Grown(st1, slot + 2, n, body, src) && st' == body.(caps := SetCapture(body.caps, slot + 1, body.pos))
    ensures Agree(body.caps, st'.caps, open + {slot})
    ensures Holds(st'.caps, slot, 2 * st1.pos % 0x1_0000_0000) && Holds(st'.caps, slot + 1, 2 * body.pos % 0x1_0000_0000)
  {
    assert EndOf(open + {slot}, slot + 1);
    assert st'.caps[slot + 1] == Mark(body.pos);
  }

  lemma {:induction false} SeqLeafGrown(ps: seq<Pattern>, slot: nat, open: set<nat>, src: Subject, st: State, st': State)
    requires st.pos <= |src| && Ready(st.caps, slot, open) && st' in Lives(SeqTree(ps, slot, src, st))
    ensures Grown(st, slot, CapCounts(ps), st', src)
  {
    assert Shut(0);
    SeqGrown(ps, slot, src, st);
    LeafGrown(SeqTree(ps, slot, src, st), st, slot, CapCounts(ps), src, st');
  }

  lemma {:induction false} SeqSound(ps: seq<Pattern>, slot: nat, open: set<nat>, src: Subject, st: State, st': State)
    requires st.pos <= |src| && Ready(st.caps, slot, open) && st' in Lives(SeqTree(ps, slot, src, st))
    ensures DenoteAll(ps, slot, open, src, st.pos, st'.pos, st'.caps)
    decreases ps, 0
  {
    if ps != [] {
      var n := CapCount(ps[0]);
      var st1 := SeqLeafOf(ps, slot, src, st, st');
      ItemSound(ps[0], slot, open, src, st, st1);
      NextReady(ps, slot, open, src, st, st1, st');
      SeqSound(ps[1..], slot + 2 * n, open, src, st1, st');
      DenotesAgree(ps[0], slot, open, src, st.pos, st1.pos, st1.caps, st'.caps);
    }
  }

  lemma {:induction false} ItemFound(p: Pattern, slot: nat, open: set<nat>, src: Subject, st: State, j: nat, caps: Captures) returns (st': State)
    requires st.pos <= |src| && Ready(st.caps, slot, open) && Agree(st.caps, caps, open)
    requires Denotes(p, slot, open, src, st.pos, j, caps)
    ensures st' in Lives(ItemTree(p, slot, src, st)) && st'.pos == j && Agree(st'.caps, caps, open)
    decreases p, 0
  {
    match p
    case RepeatP(kind, cls) =>
      st' := st.(pos := j);
      RepeatLeaf(kind, cls, slot, open, src, st, st');
    case Cap(inner) =>
      var st1 := st.(caps := SetCapture(st.caps, slot, st.pos));
      ReadyInside(st.caps, slot, open, st.pos);
      InsideAgrees(st.caps, slot, open, st.pos, caps);
      var body := SeqFound(inner, slot + 2, open + {slot}, src, st1, j, caps);
      st' := body.(caps := SetCapture(body.caps, slot + 1, j));
      GroupFound(inner, slot, open, src, st, st1, body, caps);
    case _ =>
      AttemptFound(p, slot, open, src, st, j, caps);
      st' := Attempt(p, slot, src, st).value;
  }

  lemma {:induction false} GroupFound(inner: seq<Pattern>, slot: nat, open: set<nat>, src: Subject, st: State, st1: State, body: State, caps: Captures)
    requires st.pos <= |src| && st1 == st.(caps := SetCapture(st.caps, slot, st.pos)) && OpenBelow(open, slot)
    requires Ready(st1.caps, slot + 2, open + {slot}) && |st1.caps| == slot + 1 && body in Lives(SeqTree(inner, slot + 2, src, st1))
    requires Agree(body.caps, caps, open + {slot}) && Holds(caps, slot + 1, 2 * body.pos % 0x1_0000_0000)
    ensures var st' := body.(caps := SetCapture(body.caps, slot + 1, body.pos));
            st' in Lives(ItemTree(Cap(inner), slot, src, st)) && Agree(st'.caps, caps, open)
  {
    CloseLeaf(SeqTree(inner, slot + 2, src, st1), slot + 1, src, body);
    SeqLeafGrown(inner, slot + 2, open + {slot}, src, st1, body);
    GroupAgrees(slot, open, body.caps, body.pos, caps);
  }

  lemma {:induction false} InsideAgrees(caps0: Captures, slot: nat, open: set<nat>, pos: nat, caps: Captures)
    requires Ready(caps0, slot, open) && Agree(caps0, caps, open) && Holds(caps, slot, 2 * pos % 0x1_0000_0000)
    ensures Agree(SetCapture(caps0, slot, pos), caps, open + {slot})
  {
    assert Shut(0);
    var caps1 := SetCapture(caps0, slot, pos);
    assert caps1[slot] == Mark(pos);
    forall k | 0 <= k < |caps1| && !EndOf(open + {slot}, k) ensures caps[k] == caps1[k] {
      assert !EndOf(open, k);
      assert |caps0| == slot - 1 ==> EndOf(open, slot - 1);
    }
  }

  lemma {:induction false} GroupAgrees(slot: nat, open: set<nat>, body: Captures, j: nat, caps: Captures)
    requires OpenBelow(open, slot) && |body| >= slot + 1 && Agree(body, caps, open + {slot}) && Holds(caps, slot + 1, 2 * j % 0x1_0000_0000)
    ensures Agree(SetCapture(body, slot + 1, j), caps, open)
  {
    var caps1 := SetCapture(body, slot + 1, j);
    assert caps1[slot + 1] == Mark(j);
    forall k | 0 <= k < |caps1| && !EndOf(open, k) ensures caps[k] == caps1[k] {
      if k != slot + 1 {
        assert !EndOf(open + {slot}, k) && k < |body| && caps1[k] == body[k];
      }
    }
  }

  lemma {:induction false} FirstPart(ps: seq<Pattern>, slot: nat, open: set<nat>, src: Subject, i: nat, j: nat, caps: Captures) returns (k: nat)
    requires ps != [] && DenoteAll(ps, slot, open, src, i, j, caps)
    ensures Denotes(ps[0], slot, open, src, i, k, caps) && DenoteAll(ps[1..], slot + 2 * CapCount(ps[0]), open, src, k, j, caps)
  {
    k :| Denotes(ps[0], slot, open, src, i, k, caps) && DenoteAll(ps[1..], slot + 2 * CapCount(ps[0]), open, src, k, j, caps);
  }

  lemma {:induction false} SeqFound(ps: seq<Pattern>, slot: nat, open: set<nat>, src: Subject, st: State, j: nat, caps: Captures) returns (st': State)
    requires st.pos <= |src| && Ready(st.caps, slot, open) && Agree(st.caps, caps, open)
    requires DenoteAll(ps, slot, open, src, st.pos, j, caps)
    ensures st' in Lives(SeqTree(ps, slot, src, st)) && st'.pos == j && Agree(st'.caps, caps, open)
    decreases ps, 0
  {
    st' := st;
    if ps != [] {
      var n := CapCount(ps[0]);
      var k := FirstPart(ps, slot, open, src, st.pos, j, caps);
      var st1 := ItemFound(ps[0], slot, open, src, st, k, caps);
      ItemLeafReady(ps[0], slot, open, src, st, st1);
      st' := SeqFound(ps[1..], slot + 2 * n, open, src, st1, j, caps);
      SeqLeaf(ps, slot, src, st, st1, st');
    }
  }

  // ----- whole patterns -----

  lemma {:induction false} EndLeaf(t: Tree, src: Subject, st: State)
    requires InBounds(t, src)
    ensures st in Lives(KillBefore(t, |src|, src)) <==> st in Lives(t) && st.pos == |src|
  {
    match t
    case Choice(a, b) =>
      EndLeaf(a, src, st);
      EndLeaf(b, src, st);
    case _ =>
  }

  lemma {:induction false} WholeSound(pat: SeqPattern, src: Subject, pos: nat, st: State)
    requires pos <= |src| && st in Lives(PatternTree(pat, src, pos))
    ensures InLanguage(pat, src, pos, st.pos, st.caps)
  {
    var st0 := State(pos, SetCapture([], 0, pos));
    var t := SeqTree(pat.items, 2, src, st0);
    EndLeaf(CloseTree(t, 1, src), src, st);
    var body := ClosedLeaf(t, 1, src, st);
    ReadyInside([], 0, {}, pos);
    assert {} + {0} == {0};
    SeqSound(pat.items, 2, {0}, src, st0, body);
    SeqLeafGrown(pat.items, 2, {0}, src, st0, body);
    GroupSound(0, {}, src, st0, CapCounts(pat.items), body, st);
    DenoteAllAgree(pat.items, 2, {0}, src, pos, body.pos, body.caps, st.caps);
  }

  lemma {:induction false} WholeFound(pat: SeqPattern, src: Subject, pos: nat, st: State)
    requires InLanguage(pat, src, pos, st.pos, st.caps)
    ensures st in Lives(PatternTree(pat, src, pos))
  {
    var st0 := State(pos, SetCapture([], 0, pos));
    var t := SeqTree(pat.items, 2, src, st0);
    ReadyInside([], 0, {}, pos);
    InsideAgrees([], 0, {}, pos, st.caps);
    assert {} + {0} == {0};
    var body := SeqFound(pat.items, 2, {0}, src, st0, st.pos, st.caps);
    SeqLeafGrown(pat.items, 2, {0}, src, st0, body);
    var caps := SetCapture(body.caps, 1, body.pos);
    GroupAgrees(0, {}, body.caps, body.pos, st.caps);
    assert caps == st.caps;
    CloseLeaf(t, 1, src, body);
    EndLeaf(CloseTree(t, 1, src), src, st);
  }

  /** The outcomes of a pattern are exactly the matches in its language, each with its
      captures. */
  lemma {:induction false} OutcomesAreLanguage(pat: SeqPattern, src: Subject, pos: nat, st: State)
    requires pos <= |src|
    ensures st in PatternOutcomes(pat, src, pos) <==> InLanguage(pat, src, pos, st.pos, st.caps)
  {
    PatternTreeOutcomes(pat, src, pos);
    if st in Lives(PatternTree(pat, src, pos)) {
      WholeSound(pat, src, pos, st);
    }
    if InLanguage(pat, src, pos, st.pos, st.caps) {
      WholeFound(pat, src, pos, st);
    }
  }

  /** A match attempt returns a match in the language; if there is one and the search
      fails at most 100000 times before the first it finds, it returns one. */
  lemma {:induction false} MatchInLanguage(pat: SeqPattern, src: Subject, pos: nat)
    requires pos <= |src|
    ensures var r := MatchAt(pat, src, pos); r.Some? ==> InLanguage(pat, src, pos, r.value.pos, r.value.caps)
    ensures Deads(PatternTree(pat, src, pos)) <= 100000 ==>
              (MatchAt(pat, src, pos).Some? <==> exists j, caps :: InLanguage(pat, src, pos, j, caps))
    ensures Deads(PatternTree(pat, src, pos)) > 100000 ==> MatchAt(pat, src, pos).None?
  {
    MatchAtIsFirstOutcome(pat, src, pos);
    var all := PatternOutcomes(pat, src, pos);
    if all != [] {
      OutcomesAreLanguage(pat, src, pos, all[0]);
    } else {
      forall j, caps ensures !InLanguage(pat, src, pos, j, caps) {
        OutcomesAreLanguage(pat, src, pos, State(j, caps));
      }
    }
  }
}
