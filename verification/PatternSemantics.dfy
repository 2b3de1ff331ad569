/**
 The meaning of a pattern tree: the ordered list of ways in which it matches,
 most preferred first (section 5.4.1 of the Lua 5.1 Reference Manual).

 `Outcomes` is the reference: a greedy repetition offers its longest run first,
 a lazy one its shortest.  `Tree` is the same search with its failed attempts
 left in, which is what the limit on backtracking counts.
 */
module PatternSemantics {
  import opened PatternSyntax

  // ----- captures -----

  const TWO32: int := 0x1_0000_0000

  /** A capture slot: a 32-bit word, bit 0 marking a position capture. */
  type Slot = x: int | 0 <= x < TWO32

  type Captures = seq<Slot>

  function Mark(pos: nat): Slot { pos * 2 % TWO32 }

  function PosMark(pos: nat): (s: Slot) {
    assert pos * 2 % TWO32 % 2 == 0;
    pos * 2 % TWO32 + 1
  }

  function MarkPos(s: Slot): nat { s / 2 }

  function EnsureSlot(caps: Captures, slot: nat): (r: Captures)
    ensures slot < |r| && |caps| <= |r|
  {
    if slot < |caps| then caps else caps + seq(slot + 1 - |caps|, _ => 0)
  }

  function SetCapture(caps: Captures, slot: nat, pos: nat): (r: Captures) {
    EnsureSlot(caps, slot)[slot := Mark(pos)]
  }

  function AddPosCapture(caps: Captures, slot: nat, pos: nat): (r: Captures) {
    EnsureSlot(caps, slot + 1)[slot := PosMark(pos)][slot + 1 := PosMark(pos)]
  }

  // ----- positions reached by one attempt -----

  datatype State = State(pos: nat, caps: Captures)

  datatype Option<T> = None | Some(value: T)

  type Subject = seq<byte>

  predicate CharAt(cls: CharClass, src: Subject, pos: nat) {
    pos < |src| && Matches(cls, src[pos])
  }

  /** The first position after `pos` at which `depth` open braces are all closed.
      A byte that is both open and close counts as close. */
  function BraceEnd(open: int, close: int, src: Subject, pos: nat, depth: nat): (r: Option<nat>)
    requires pos <= |src|
    ensures r.Some? ==> pos < r.value <= |src|
    decreases |src| - pos
  {
    if pos == |src| then None
    else if src[pos] == close then
      if depth <= 1 then Some(pos + 1) else BraceEnd(open, close, src, pos + 1, depth - 1)
    else if src[pos] == open then BraceEnd(open, close, src, pos + 1, depth + 1)
    else BraceEnd(open, close, src, pos + 1, depth)
  }

  function MatchBrace(open: int, close: int, src: Subject, pos: nat): (r: Option<nat>)
    requires pos <= |src|
    ensures r.Some? ==> pos < r.value <= |src|
  {
    if pos == |src| || src[pos] != open then None else BraceEnd(open, close, src, pos + 1, 1)
  }

  /** A back reference matches a copy of what lies between the two slots of its
      capture. */
  function MatchBackRef(index: nat, src: Subject, st: State): (r: Option<nat>)
    ensures r.Some? ==> st.pos <= r.value <= |src|
  {
    var slot := 2 * index;
    if slot + 1 >= |st.caps| then None
    else
      var start, end := MarkPos(st.caps[slot]), MarkPos(st.caps[slot + 1]);
      if start > end || end > |src| || st.pos + (end - start) > |src| then None
      else if src[start..end] != src[st.pos..st.pos + (end - start)] then None
      else Some(st.pos + (end - start))
  }

  // ----- the reference: ordered outcomes -----

  /** The length of the longest run of `cls` bytes from `pos`. */
  function RunLength(cls: CharClass, src: Subject, pos: nat): (n: nat)
    ensures pos <= |src| ==> pos + n <= |src|
    ensures forall i :: pos <= i < pos + n ==> CharAt(cls, src, i)
    ensures !CharAt(cls, src, pos + n)
    decreases |src| - pos
  {
    if CharAt(cls, src, pos) then 1 + RunLength(cls, src, pos + 1) else 0
  }

  /** The states after `lo` to `hi` more bytes, longest first. */
  function Longest(st: State, lo: nat, hi: nat): (r: seq<State>)
    requires lo <= hi + 1
  {
    seq(hi + 1 - lo, i requires 0 <= i < hi + 1 - lo => st.(pos := st.pos + hi - i))
  }

  function Shortest(st: State, hi: nat): (r: seq<State>) {
    seq(hi + 1, i requires 0 <= i < hi + 1 => st.(pos := st.pos + i))
  }

  function RepeatOutcomes(kind: Repeat, cls: CharClass, src: Subject, st: State): (r: seq<State>) {
    var n := RunLength(cls, src, st.pos);
    match kind
    case Greedy => Longest(st, 0, n)
    case GreedyPlus => Longest(st, 1, n)
    case Lazy => Shortest(st, n)
    case Optional => Longest(st, 0, if n == 0 then 0 else 1)
  }

  /** An item that is not a repetition or a group matches in at most one way. */
  function Attempt(p: Pattern, slot: nat, src: Subject, st: State): (r: Option<State>)
    requires st.pos <= |src|
    ensures r.Some? ==> st.pos <= r.value.pos <= |src|
  {
    match p
    case SingleP(cls) => if CharAt(cls, src, st.pos) then Some(st.(pos := st.pos + 1)) else None
    case PosCap => Some(st.(caps := AddPosCapture(st.caps, slot, st.pos + 1)))
    case BackRef(index) => MoveTo(MatchBackRef(index, src, st), st)
    case Brace(open, close) => MoveTo(MatchBrace(open, close, src, st.pos), st)
    case _ => None
  }

  function MoveTo(end: Option<nat>, st: State): Option<State> {
    if end.Some? then Some(st.(pos := end.value)) else None
  }

  /** All ways in which an item whose first capture goes to `slot` can match. */
  function Outcomes(p: Pattern, slot: nat, src: Subject, st: State): (r: seq<State>)
    requires st.pos <= |src|
    ensures forall i :: 0 <= i < |r| ==> st.pos <= r[i].pos <= |src|
    decreases p, 0, 0
  {
    match p
    case RepeatP(kind, cls) => RepeatOutcomes(kind, cls, src, st)
    case Cap(inner) =>
      CloseAll(SeqOutcomes(inner, slot + 2, src, st.(caps := SetCapture(st.caps, slot, st.pos))), slot + 1)
    case _ => var a := Attempt(p, slot, src, st); if a.Some? then [a.value] else []
  }

  /** Writes each state's position into `slot`. */
  function CloseAll(sts: seq<State>, slot: nat): (r: seq<State>)
    ensures |r| == |sts|
    ensures forall i :: 0 <= i < |r| ==> r[i].pos == sts[i].pos && r[i].caps == SetCapture(sts[i].caps, slot, sts[i].pos)
  {
    seq(|sts|, i requires 0 <= i < |sts| => sts[i].(caps := SetCapture(sts[i].caps, slot, sts[i].pos)))
  }

  /** A sequence matches when its items match one after the other; earlier items
      have precedence over later ones. */
  function SeqOutcomes(ps: seq<Pattern>, slot: nat, src: Subject, st: State): (r: seq<State>)
    requires st.pos <= |src|
    ensures forall i :: 0 <= i < |r| ==> st.pos <= r[i].pos <= |src|
    decreases ps, 0, 0
  {
    if ps == [] then [st]
    else FromEach(Outcomes(ps[0], slot, src, st), ps[1..], slot + 2 * CapCount(ps[0]), src, st.pos)
  }

  function FromEach(sts: seq<State>, ps: seq<Pattern>, slot: nat, src: Subject, lo: nat): (r: seq<State>)
    requires forall i :: 0 <= i < |sts| ==> lo <= sts[i].pos <= |src|
    ensures forall i :: 0 <= i < |r| ==> lo <= r[i].pos <= |src|
    decreases ps, 1, |sts|
  {
    if sts == [] then [] else SeqOutcomes(ps, slot, src, sts[0]) + FromEach(sts[1..], ps, slot, src, lo)
  }

  /** The outcomes of a whole pattern started at `pos`: slots 0 and 1 hold the
      bounds of the match, and `$` keeps the outcomes that reach the end. */
  function PatternOutcomes(pat: SeqPattern, src: Subject, pos: nat): (r: seq<State>)
    requires pos <= |src|
  {
    var all := CloseAll(SeqOutcomes(pat.items, 2, src, State(pos, SetCapture([], 0, pos))), 1);
    if pat.mustTail then AtEnd(all, |src|) else all
  }

  function AtEnd(sts: seq<State>, end: nat): (r: seq<State>) {
    if sts == [] then []
    else (if sts[0].pos >= end then [sts[0]] else []) + AtEnd(sts[1..], end)
  }

  // ----- the search tree: outcomes and dead ends in order -----

  /** A search: a failed attempt, an outcome, or one search tried before another. */
  datatype Tree = Dead | Live(st: State) | Choice(first: Tree, second: Tree)

  function Lives(t: Tree): (r: seq<State>) {
    match t
    case Dead => []
    case Live(st) => [st]
    case Choice(a, b) => Lives(a) + Lives(b)
  }

  predicate InBounds(t: Tree, src: Subject) {
    match t
    case Dead => true
    case Live(st) => st.pos <= |src|
    case Choice(a, b) => InBounds(a, src) && InBounds(b, src)
  }

  /** The first outcome of a search. */
  function First(t: Tree): Option<State> {
    match t
    case Dead => None
    case Live(st) => Some(st)
    case Choice(a, b) => if First(a).Some? then First(a) else First(b)
  }

  /** The number of failed attempts before the first outcome. */
  function Deads(t: Tree): nat {
    match t
    case Dead => 1
    case Live(_) => 0
    case Choice(a, b) => if First(a).Some? then Deads(a) else Deads(a) + Deads(b)
  }

  /** Each further repetition is an attempt of its own; the last one fails. */
  function RepeatTree(lazy: bool, cls: CharClass, src: Subject, st: State): (t: Tree)
    requires st.pos <= |src|
    ensures InBounds(t, src)
    decreases |src| - st.pos
  {
    var more := if CharAt(cls, src, st.pos) then RepeatTree(lazy, cls, src, st.(pos := st.pos + 1)) else Dead;
    if lazy then Choice(Live(st), more) else Choice(more, Live(st))
  }

  function RepeatItemTree(kind: Repeat, cls: CharClass, src: Subject, st: State): (t: Tree)
    requires st.pos <= |src|
    ensures InBounds(t, src)
  {
    var next := st.(pos := st.pos + 1);
    match kind
    case Greedy => RepeatTree(false, cls, src, st)
    case Lazy => RepeatTree(true, cls, src, st)
    case GreedyPlus => if CharAt(cls, src, st.pos) then RepeatTree(false, cls, src, next) else Dead
    case Optional => Choice(if CharAt(cls, src, st.pos) then Live(next) else Dead, Live(st))
  }

  function ItemTree(p: Pattern, slot: nat, src: Subject, st: State): (t: Tree)
    requires st.pos <= |src|
    ensures InBounds(t, src)
    decreases p, 0
  {
    match p
    case RepeatP(kind, cls) => RepeatItemTree(kind, cls, src, st)
    case Cap(inner) =>
      CloseTree(SeqTree(inner, slot + 2, src, st.(caps := SetCapture(st.caps, slot, st.pos))), slot + 1, src)
    case _ => var a := Attempt(p, slot, src, st); if a.Some? then Live(a.value) else Dead
  }

  function CloseTree(t: Tree, slot: nat, src: Subject): (r: Tree)
    requires InBounds(t, src)
    ensures InBounds(r, src)
  {
    match t
    case Dead => Dead
    case Live(st) => Live(st.(caps := SetCapture(st.caps, slot, st.pos)))
    case Choice(a, b) => Choice(CloseTree(a, slot, src), CloseTree(b, slot, src))
  }

  function SeqTree(ps: seq<Pattern>, slot: nat, src: Subject, st: State): (t: Tree)
    requires st.pos <= |src|
    ensures InBounds(t, src)
    decreases ps, 0
  {
    if ps == [] then Live(st)
    else ThenTree(ItemTree(ps[0], slot, src, st), ps[1..], slot + 2 * CapCount(ps[0]), src)
  }

  /** Goes on with `ps` from every outcome of a search. */
  function ThenTree(t: Tree, ps: seq<Pattern>, slot: nat, src: Subject): (r: Tree)
    requires InBounds(t, src)
    ensures InBounds(r, src)
    decreases ps, 1, t
  {
    match t
    case Dead => Dead
    case Live(st) => SeqTree(ps, slot, src, st)
    case Choice(a, b) => Choice(ThenTree(a, ps, slot, src), ThenTree(b, ps, slot, src))
  }

  function PatternTree(pat: SeqPattern, src: Subject, pos: nat): (t: Tree)
    requires pos <= |src|
    ensures InBounds(t, src)
  {
    var all := CloseTree(SeqTree(pat.items, 2, src, State(pos, SetCapture([], 0, pos))), 1, src);
    if pat.mustTail then KillBefore(all, |src|, src) else all
  }

  function KillBefore(t: Tree, end: nat, src: Subject): (r: Tree)
    requires InBounds(t, src)
    ensures InBounds(r, src)
  {
    match t
    case Dead => Dead
    case Live(st) => if st.pos < end then Dead else t
    case Choice(a, b) => Choice(KillBefore(a, end, src), KillBefore(b, end, src))
  }

  // ----- the outcomes of the search are the reference outcomes -----

  lemma {:induction false} LongestStep(st: State, n: nat)
    ensures Longest(st, 0, n + 1) == Longest(st.(pos := st.pos + 1), 0, n) + [st]
    ensures Longest(st, 0, 0) == [st]
    ensures Longest(st.(pos := st.pos + 1), 0, n) == Longest(st, 1, n + 1)
  {
  }

  lemma {:induction false} ShortestStep(st: State, n: nat)
    ensures Shortest(st, n + 1) == [st] + Shortest(st.(pos := st.pos + 1), n)
    ensures Shortest(st, 0) == [st]
  {
  }

  lemma {:induction false} GreedyOutcomes(cls: CharClass, src: Subject, st: State)
    requires st.pos <= |src|
    ensures Lives(RepeatTree(false, cls, src, st)) == Longest(st, 0, RunLength(cls, src, st.pos))
    decreases |src| - st.pos
  {
    if CharAt(cls, src, st.pos) {
      var next := st.(pos := st.pos + 1);
      GreedyOutcomes(cls, src, next);
      LongestStep(st, RunLength(cls, src, next.pos));
    } else {
      LongestStep(st, 0);
    }
  }

  lemma {:induction false} LazyOutcomes(cls: CharClass, src: Subject, st: State)
    requires st.pos <= |src|
    ensures Lives(RepeatTree(true, cls, src, st)) == Shortest(st, RunLength(cls, src, st.pos))
    decreases |src| - st.pos
  {
    if CharAt(cls, src, st.pos) {
      var next := st.(pos := st.pos + 1);
      LazyOutcomes(cls, src, next);
      ShortestStep(st, RunLength(cls, src, next.pos));
    } else {
      ShortestStep(st, 0);
    }
  }

  lemma {:induction false} RepeatItemOutcomes(kind: Repeat, cls: CharClass, src: Subject, st: State)
    requires st.pos <= |src|
    ensures Lives(RepeatItemTree(kind, cls, src, st)) == RepeatOutcomes(kind, cls, src, st)
  {
    match kind
    case Greedy => GreedyOutcomes(cls, src, st);
    case Lazy => LazyOutcomes(cls, src, st);
    case GreedyPlus => PlusOutcomes(cls, src, st);
    case Optional => OptionalOutcomes(cls, src, st);
  }

  lemma {:induction false} PlusOutcomes(cls: CharClass, src: Subject, st: State)
    requires st.pos <= |src|
    ensures Lives(RepeatItemTree(GreedyPlus, cls, src, st)) == Longest(st, 1, RunLength(cls, src, st.pos))
  {
    if CharAt(cls, src, st.pos) {
      var next := st.(pos := st.pos + 1);
      GreedyOutcomes(cls, src, next);
      LongestStep(st, RunLength(cls, src, next.pos));
    }
  }

  lemma {:induction false} OptionalOutcomes(cls: CharClass, src: Subject, st: State)
    requires st.pos <= |src|
    ensures Lives(RepeatItemTree(Optional, cls, src, st)) == RepeatOutcomes(Optional, cls, src, st)
  {
    LongestStep(st, 0);
    LongestStep(st.(pos := st.pos + 1), 0);
  }

  lemma {:induction false} CloseTreeOutcomes(t: Tree, slot: nat, src: Subject)
    requires InBounds(t, src)
    ensures Lives(CloseTree(t, slot, src)) == CloseAll(Lives(t), slot)
  {
    match t
    case Choice(a, b) =>
      CloseTreeOutcomes(a, slot, src);
      CloseTreeOutcomes(b, slot, src);
    case _ =>
  }

  lemma {:induction false} ItemTreeOutcomes(p: Pattern, slot: nat, src: Subject, st: State)
    requires st.pos <= |src|
    ensures Lives(ItemTree(p, slot, src, st)) == Outcomes(p, slot, src, st)
    decreases p, 0
  {
    match p
    case RepeatP(kind, cls) =>
      RepeatItemOutcomes(kind, cls, src, st);
    case Cap(inner) =>
      var st1 := st.(caps := SetCapture(st.caps, slot, st.pos));
      SeqTreeOutcomes(inner, slot + 2, src, st1);
      CloseTreeOutcomes(SeqTree(inner, slot + 2, src, st1), slot + 1, src);
    case _ =>
  }

  lemma {:induction false} SeqTreeOutcomes(ps: seq<Pattern>, slot: nat, src: Subject, st: State)
    requires st.pos <= |src|
    ensures Lives(SeqTree(ps, slot, src, st)) == SeqOutcomes(ps, slot, src, st)
    decreases ps, 0
  {
    if ps == [] {
    } else {
      ItemTreeOutcomes(ps[0], slot, src, st);
      ThenTreeOutcomes(ItemTree(ps[0], slot, src, st), ps[1..], slot + 2 * CapCount(ps[0]), src, st.pos);
    }
  }

  lemma {:induction false} FromEachConcat(a: seq<State>, b: seq<State>, ps: seq<Pattern>, slot: nat, src: Subject, lo: nat)
    requires forall i :: 0 <= i < |a + b| ==> lo <= (a + b)[i].pos <= |src|
    ensures forall i :: 0 <= i < |a| ==> lo <= a[i].pos <= |src|
    ensures forall i :: 0 <= i < |b| ==> lo <= b[i].pos <= |src|
    ensures FromEach(a + b, ps, slot, src, lo) == FromEach(a, ps, slot, src, lo) + FromEach(b, ps, slot, src, lo)
  {
    BoundsConcat(a, b, src, lo);
    if a == [] {
      assert a + b == b;
    } else {
      assert (a + b)[0] == a[0] && (a + b)[1..] == a[1..] + b;
      FromEachConcat(a[1..], b, ps, slot, src, lo);
      var one, more, rest := SeqOutcomes(ps, slot, src, a[0]), FromEach(a[1..], ps, slot, src, lo), FromEach(b, ps, slot, src, lo);
      assert one + (more + rest) == (one + more) + rest;
    }
  }

  lemma {:induction false} BoundsConcat(a: seq<State>, b: seq<State>, src: Subject, lo: nat)
    requires forall i :: 0 <= i < |a + b| ==> lo <= (a + b)[i].pos <= |src|
    ensures forall i :: 0 <= i < |a| ==> lo <= a[i].pos <= |src|
    ensures forall i :: 0 <= i < |b| ==> lo <= b[i].pos <= |src|
    ensures a != [] ==> forall i :: 0 <= i < |a[1..] + b| ==> lo <= (a[1..] + b)[i].pos <= |src|
  {
    forall i | 0 <= i < |a| ensures lo <= a[i].pos <= |src| {
      assert (a + b)[i] == a[i];
    }
    forall i | 0 <= i < |b| ensures lo <= b[i].pos <= |src| {
      assert (a + b)[|a| + i] == b[i];
    }
    if a != [] {
      forall i | 0 <= i < |a[1..] + b| ensures lo <= (a[1..] + b)[i].pos <= |src| {
        assert (a + b)[i + 1] == (a[1..] + b)[i];
      }
    }
  }

  lemma {:induction false} ThenTreeOutcomes(t: Tree, ps: seq<Pattern>, slot: nat, src: Subject, lo: nat)
    requires InBounds(t, src)
    requires forall i :: 0 <= i < |Lives(t)| ==> lo <= Lives(t)[i].pos <= |src|
    ensures Lives(ThenTree(t, ps, slot, src)) == FromEach(Lives(t), ps, slot, src, lo)
    decreases ps, 1, t
  {
    match t
    case Dead =>
    case Live(st) =>
      SeqTreeOutcomes(ps, slot, src, st);
    case Choice(a, b) =>
      assert Lives(t) == Lives(a) + Lives(b);
      FromEachConcat(Lives(a), Lives(b), ps, slot, src, lo);
      ThenTreeOutcomes(a, ps, slot, src, lo);
      ThenTreeOutcomes(b, ps, slot, src, lo);
  }

  lemma {:induction false} AtEndConcat(a: seq<State>, b: seq<State>, end: nat)
    ensures AtEnd(a + b, end) == AtEnd(a, end) + AtEnd(b, end)
  {
    if a == [] {
      assert a + b == b;
    } else {
      assert (a + b)[1..] == a[1..] + b;
      AtEndConcat(a[1..], b, end);
    }
  }

  lemma {:induction false} KillBeforeOutcomes(t: Tree, end: nat, src: Subject)
    requires InBounds(t, src)
    ensures Lives(KillBefore(t, end, src)) == AtEnd(Lives(t), end)
  {
    match t
    case Choice(a, b) =>
      KillBeforeOutcomes(a, end, src);
      KillBeforeOutcomes(b, end, src);
      AtEndConcat(Lives(a), Lives(b), end);
    case _ =>
  }

  /** The search for a whole pattern yields exactly its outcomes, in order. */
  lemma {:induction false} PatternTreeOutcomes(pat: SeqPattern, src: Subject, pos: nat)
    requires pos <= |src|
    ensures Lives(PatternTree(pat, src, pos)) == PatternOutcomes(pat, src, pos)
  {
    var st := State(pos, SetCapture([], 0, pos));
    var body := SeqTree(pat.items, 2, src, st);
    SeqTreeOutcomes(pat.items, 2, src, st);
    CloseTreeOutcomes(body, 1, src);
    KillBeforeOutcomes(CloseTree(body, 1, src), |src|, src);
  }

  /** The first outcome of a search is the head of its outcome list. */
  lemma {:induction false} FirstIsHead(t: Tree)
    ensures First(t) == if Lives(t) == [] then None else Some(Lives(t)[0])
  {
    match t
    case Choice(a, b) =>
      FirstIsHead(a);
      FirstIsHead(b);
    case _ =>
  }
}
