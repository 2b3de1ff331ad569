/** Searching a subject for all matches of a pattern (pm/pm.go, Find). */
module PatternFind {
  import opened PatternSyntax
  import opened PatternSemantics
  import opened PatternCompiler
  import opened PatternMachine
  import opened PatternVM

  // ----- captures of an outcome -----

  /** A 32-bit slot gives a position back exactly below 2^31. */
  lemma {:induction false} MarkRoundTrip(pos: nat)
    ensures MarkPos(Mark(pos)) == pos <==> pos < 0x8000_0000
    ensures MarkPos(PosMark(pos)) == pos <==> pos < 0x8000_0000
    ensures Mark(pos) % 2 == 0 && PosMark(pos) % 2 == 1
  {
    var k := pos * 2 / TWO32;
    assert pos * 2 == k * TWO32 + Mark(pos);
  }

  /** A finished capture: a position capture, or bounds within the subject. */
  predicate Closed(caps: Captures, slot: nat, src: Subject) {
    && slot + 1 < |caps|
    && (|| (caps[slot] % 2 == 1 && caps[slot + 1] == caps[slot])
        || (caps[slot] % 2 == 0 && caps[slot + 1] % 2 == 0
            && MarkPos(caps[slot]) <= MarkPos(caps[slot + 1]) <= |src|))
  }

  /** What the items that own the `n` captures from `slot` on may do to a state. */
  ghost predicate Grown(st: State, slot: nat, n: nat, st': State, src: Subject) {
    && st.pos <= st'.pos <= |src|
    && |st'.caps| == (if n == 0 then |st.caps| else slot + 2 * n)
    && (forall i :: 0 <= i < |st.caps| && i < |st'.caps| ==> st'.caps[i] == st.caps[i])
    && (forall i :: |st.caps| <= i < |st'.caps| && i < slot ==> st'.caps[i] == 0)
    && (|src| < 0x8000_0000 ==> forall k :: 0 <= k < n ==> Closed(st'.caps, slot + 2 * k, src))
  }

  ghost predicate AllGrown(t: Tree, st: State, slot: nat, n: nat, src: Subject) {
    match t
    case Dead => true
    case Live(st') => Grown(st, slot, n, st', src)
    case Choice(a, b) => AllGrown(a, st, slot, n, src) && AllGrown(b, st, slot, n, src)
  }

  lemma {:induction false} GrownTrans(st: State, slot: nat, n: nat, st1: State, m: nat, st2: State, src: Subject)
    requires |st.caps| <= slot
    requires Grown(st, slot, n, st1, src) && Grown(st1, slot + 2 * n, m, st2, src)
    ensures Grown(st, slot, n + m, st2, src)
  {
    if |src| < 0x8000_0000 {
      forall k | 0 <= k < n + m ensures Closed(st2.caps, slot + 2 * k, src) {
        if k < n {
          assert Closed(st1.caps, slot + 2 * k, src);
        } else {
          assert Closed(st2.caps, (slot + 2 * n) + 2 * (k - n), src);
        }
      }
    }
  }

  lemma {:induction false} RepeatGrown(lazy: bool, cls: CharClass, src: Subject, st: State, st0: State, slot: nat)
    requires st.pos <= |src| && st0.pos <= st.pos && st.caps == st0.caps
    ensures AllGrown(RepeatTree(lazy, cls, src, st), st0, slot, 0, src)
    decreases |src| - st.pos
  {
    if CharAt(cls, src, st.pos) {
      RepeatGrown(lazy, cls, src, st.(pos := st.pos + 1), st0, slot);
    }
  }

  lemma {:induction false} RepeatItemGrown(kind: Repeat, cls: CharClass, src: Subject, st: State, slot: nat)
    requires st.pos <= |src|
    ensures AllGrown(RepeatItemTree(kind, cls, src, st), st, slot, 0, src)
  {
    RepeatGrown(kind.Lazy?, cls, src, st, st, slot);
    if CharAt(cls, src, st.pos) {
      RepeatGrown(false, cls, src, st.(pos := st.pos + 1), st, slot);
    }
  }

  lemma {:induction false} AttemptGrown(p: Pattern, slot: nat, src: Subject, st: State)
    requires st.pos <= |src| && |st.caps| <= slot && !p.RepeatP? && !p.Cap?
    ensures AllGrown(ItemTree(p, slot, src, st), st, slot, CapCount(p), src)
  {
    if p.PosCap? {
      MarkRoundTrip(st.pos + 1);
      var caps := AddPosCapture(st.caps, slot, st.pos + 1);
      assert Closed(caps, slot + 2 * 0, src);
      assert Grown(st, slot, 1, State(st.pos, caps), src);
    }
  }

  lemma {:induction false} CloseGrown(t: Tree, st: State, slot: nat, n: nat, src: Subject)
    requires st.pos <= |src| && |st.caps| <= slot && InBounds(t, src)
    requires AllGrown(t, st.(caps := SetCapture(st.caps, slot, st.pos)), slot + 2, n, src)
    ensures AllGrown(CloseTree(t, slot + 1, src), st, slot, 1 + n, src)
  {
    match t
    case Dead =>
    case Choice(a, b) =>
      CloseGrown(a, st, slot, n, src);
      CloseGrown(b, st, slot, n, src);
    case Live(st') =>
      MarkRoundTrip(st.pos);
      MarkRoundTrip(st'.pos);
      CloseOneGrown(st, slot, n, st', src);
  }

  lemma {:induction false} CloseOneGrown(st: State, slot: nat, n: nat, st': State, src: Subject)
    requires st.pos <= |src| && |st.caps| <= slot
    requires Grown(st.(caps := SetCapture(st.caps, slot, st.pos)), slot + 2, n, st', src)
    ensures Grown(st, slot, 1 + n, st'.(caps := SetCapture(st'.caps, slot + 1, st'.pos)), src)
  {
    var caps := SetCapture(st'.caps, slot + 1, st'.pos);
    assert caps[slot] == Mark(st.pos) && caps[slot + 1] == Mark(st'.pos);
    if |src| < 0x8000_0000 {
      MarkRoundTrip(st.pos);
      MarkRoundTrip(st'.pos);
      forall k | 0 <= k < 1 + n ensures Closed(caps, slot + 2 * k, src) {
        if k > 0 {
          assert Closed(st'.caps, (slot + 2) + 2 * (k - 1), src);
        }
      }
    }
  }

  lemma {:induction false} ItemGrown(p: Pattern, slot: nat, src: Subject, st: State)
    requires st.pos <= |src| && |st.caps| <= slot
    ensures AllGrown(ItemTree(p, slot, src, st), st, slot, CapCount(p), src)
    decreases p, 0
  {
    match p
    case RepeatP(kind, cls) =>
      RepeatItemGrown(kind, cls, src, st, slot);
    case Cap(inner) =>
      var st1 := st.(caps := SetCapture(st.caps, slot, st.pos));
      SeqGrown(inner, slot + 2, src, st1);
      CloseGrown(SeqTree(inner, slot + 2, src, st1), st, slot, CapCounts(inner), src);
    case _ =>
      AttemptGrown(p, slot, src, st);
  }

  lemma {:induction false} SeqGrown(ps: seq<Pattern>, slot: nat, src: Subject, st: State)
    requires st.pos <= |src| && |st.caps| <= slot
    ensures AllGrown(SeqTree(ps, slot, src, st), st, slot, CapCounts(ps), src)
    decreases ps, 0
  {
    if ps == [] {
    } else {
      ItemGrown(ps[0], slot, src, st);
      ThenGrown(ItemTree(ps[0], slot, src, st), st, slot, CapCount(ps[0]), ps[1..], src);
    }
  }

  lemma {:induction false} ThenGrown(t: Tree, st: State, slot: nat, n: nat, ps: seq<Pattern>, src: Subject)
    requires InBounds(t, src) && |st.caps| <= slot && AllGrown(t, st, slot, n, src)
    ensures AllGrown(ThenTree(t, ps, slot + 2 * n, src), st, slot, n + CapCounts(ps), src)
    decreases ps, 1, t
  {
    match t
    case Dead =>
    case Choice(a, b) =>
      ThenGrown(a, st, slot, n, ps, src);
      ThenGrown(b, st, slot, n, ps, src);
    case Live(st1) =>
      SeqGrown(ps, slot + 2 * n, src, st1);
      GrownFrom(SeqTree(ps, slot + 2 * n, src, st1), st, slot, n, st1, CapCounts(ps), src);
  }

  lemma {:induction false} GrownFrom(t: Tree, st: State, slot: nat, n: nat, st1: State, m: nat, src: Subject)
    requires |st.caps| <= slot && Grown(st, slot, n, st1, src) && AllGrown(t, st1, slot + 2 * n, m, src)
    ensures AllGrown(t, st, slot, n + m, src)
  {
    match t
    case Dead =>
    case Live(st2) => GrownTrans(st, slot, n, st1, m, st2, src);
    case Choice(a, b) =>
      GrownFrom(a, st, slot, n, st1, m, src);
      GrownFrom(b, st, slot, n, st1, m, src);
  }

  lemma {:induction false} FirstClosed(t: Tree, st: State, n: nat, src: Subject)
    requires InBounds(t, src) && AllGrown(t, st, 2, n, src)
    ensures var r := First(CloseTree(t, 1, src));
            r.Some? ==> exists body: State :: Grown(st, 2, n, body, src)
                           && r.value == body.(caps := SetCapture(body.caps, 1, body.pos))
  {
    match t
    case Choice(a, b) =>
      FirstClosed(a, st, n, src);
      FirstClosed(b, st, n, src);
    case _ =>
  }

  lemma {:induction false} FirstKilled(t: Tree, st: State, n: nat, src: Subject)
    requires InBounds(t, src) && AllGrown(t, st, 2, n, src)
    ensures var r := First(KillBefore(CloseTree(t, 1, src), |src|, src));
            r.Some? ==> exists body: State :: Grown(st, 2, n, body, src)
                           && r.value == body.(caps := SetCapture(body.caps, 1, body.pos))
  {
    match t
    case Choice(a, b) =>
      FirstKilled(a, st, n, src);
      FirstKilled(b, st, n, src);
    case _ =>
  }

  // ----- back references -----

  lemma {:induction false} LeafGrown(t: Tree, st: State, slot: nat, n: nat, src: Subject, st': State)
    requires AllGrown(t, st, slot, n, src) && st' in Lives(t)
    ensures Grown(st, slot, n, st', src)
  {
    match t
    case Dead =>
    case Live(_) =>
    case Choice(a, b) =>
      if st' in Lives(a) {
        LeafGrown(a, st, slot, n, src, st');
      } else {
        LeafGrown(b, st, slot, n, src, st');
      }
  }

  /** A reference to a capture with the bounds `a` and `b` matches a copy of the text
      between them. */
  lemma {:induction false} ReferenceCopies(index: nat, src: Subject, st: State, a: nat, b: nat)
    requires a <= b <= |src| < 0x8000_0000 && 2 * index + 1 < |st.caps| && st.caps[2 * index] == Mark(a) && st.caps[2 * index + 1] == Mark(b)
    ensures var end := st.pos + (b - a);
            MatchBackRef(index, src, st) == if end <= |src| && src[st.pos..end] == src[a..b] then Some(end) else None
  {
    MarkRoundTrip(a);
    MarkRoundTrip(b);
  }

  /** A reference to a capture that is still open, behind any items in it: the end slot
      is missing or reads as 0. So it matches exactly if the capture was opened at
      position 0, as a slot gives it back, and one of the items has a capture, and then
      it matches nothing. */
  lemma {:induction false} OpenReference(index: nat, items: seq<Pattern>, src: Subject, st: State, st': State)
    requires st.pos <= |src| && |st.caps| <= 2 * index
    requires st' in Lives(SeqTree(items, 2 * index + 2, src, st.(caps := SetCapture(st.caps, 2 * index, st.pos))))
    ensures MatchBackRef(index, src, st') == if st.pos % 0x8000_0000 == 0 && CapCounts(items) > 0 then Some(st'.pos) else None
  {
    var slot, st1 := 2 * index, st.(caps := SetCapture(st.caps, 2 * index, st.pos));
    SeqGrown(items, slot + 2, src, st1);
    LeafGrown(SeqTree(items, slot + 2, src, st1), st1, slot + 2, CapCounts(items), src, st');
    assert |st1.caps| == slot + 1 && st'.caps[slot] == Mark(st.pos);
    WrappedPos(st.pos);
    if CapCounts(items) > 0 {
      assert st'.caps[slot + 1] == 0;
      assert src[0..0] == src[st'.pos..st'.pos];
    }
  }

  lemma {:induction false} WrappedPos(pos: nat)
    ensures MarkPos(Mark(pos)) == pos % 0x8000_0000
  {
    var q, r := pos / 0x8000_0000, pos % 0x8000_0000;
    assert pos * 2 == 0x1_0000_0000 * q + r * 2;
  }

  /** The pattern `((a)%1)`, whose reference is to its own open capture. */
  const SELF_REFERENCE: SeqPattern := SeqPattern(false, false, [Cap([Cap([SingleP(Literal(97))]), BackRef(1)])])

  lemma {:induction false} SingleItem(p: Pattern, slot: nat, src: Subject, st: State)
    requires st.pos <= |src| && !p.RepeatP? && !p.Cap?
    ensures var a := Attempt(p, slot, src, st); SeqTree([p], slot, src, st) == if a.Some? then Live(a.value) else Dead
  {
    OneThen(p, slot, src, st);
  }

  /** A single item: what it leads to, and nothing behind it. */
  lemma {:induction false} OneThen(p: Pattern, slot: nat, src: Subject, st: State)
    requires st.pos <= |src|
    ensures var t := ItemTree(p, slot, src, st); t.Live? || t.Dead? ==> SeqTree([p], slot, src, st) == t
  {
    var t, n := ItemTree(p, slot, src, st), slot + 2 * CapCount(p);
    assert [p][0] == p && [p][1..] == [];
    assert SeqTree([p], slot, src, st) == ThenTree(t, [], n, src);
    if t.Live? {
      assert ThenTree(t, [], n, src) == SeqTree([], n, src, t.st) == t;
    }
  }

  /** A group of one item that matches in at most one way, and what comes behind it. */
  lemma {:induction false} GroupThen(p: Pattern, ps: seq<Pattern>, slot: nat, src: Subject, st: State)
    requires st.pos <= |src| && !p.RepeatP? && !p.Cap?
    ensures var st1 := st.(caps := SetCapture(st.caps, slot, st.pos)); var a := Attempt(p, slot + 2, src, st1);
            SeqTree([Cap([p])] + ps, slot, src, st)
            == if a.None? then Dead
               else SeqTree(ps, slot + 2 * CapCount(Cap([p])), src, a.value.(caps := SetCapture(a.value.caps, slot + 1, a.value.pos)))
  {
    SingleItem(p, slot + 2, src, st.(caps := SetCapture(st.caps, slot, st.pos)));
    assert ([Cap([p])] + ps)[1..] == ps;
  }

  /** An open group that holds a group of one byte and a reference to itself. */
  lemma {:induction false} OpenGroup(p: Pattern, index: nat, src: Subject, st: State, st1: State)
    requires p.SingleP? && st.pos <= |src| && |st.caps| <= 2 * index && st1 == st.(caps := SetCapture(st.caps, 2 * index, st.pos))
    ensures var t := SeqTree([Cap([p])] + [BackRef(index)], 2 * index + 2, src, st1);
            (t.Live? || t.Dead?) && (t.Live? <==> CharAt(p.cls, src, st.pos) && st.pos % 0x8000_0000 == 0)
  {
    var slot, ref := 2 * index + 2, BackRef(index);
    GroupThen(p, [], slot, src, st1);
    GroupThen(p, [ref], slot, src, st1);
    OneCapture(p);
    if CharAt(p.cls, src, st.pos) {
      var body := SeqTree([Cap([p])] + [], slot, src, st1);
      assert [Cap([p])] + [] == [Cap([p])] && body.Live?;
      OpenReference(index, [Cap([p])], src, st, body.st);
      SingleItem(ref, slot + 2, src, body.st);
    }
  }

  /** It matches `a` at the start of a subject and nowhere else. */
  lemma {:induction false} SelfReference(pat: SeqPattern, src: Subject, pos: nat)
    requires pat == SELF_REFERENCE && pos <= |src| < 0x8000_0000
    ensures MatchAt(pat, src, pos).Some? <==> pos == 0 && src != [] && src[0] == 97
  {
    var lit := SingleP(Literal(97));
    var st0 := State(pos, SetCapture([], 0, pos));
    var st1 := st0.(caps := SetCapture(st0.caps, 2, pos));
    OpenGroup(lit, 1, src, st0, st1);
    assert pat.items[0].inner == [Cap([lit])] + [BackRef(1)];
    SelfReferenceTree(pat, src, pos, st0, SeqTree([Cap([lit])] + [BackRef(1)], 4, src, st1));
  }

  lemma {:induction false} OneCapture(p: Pattern)
    requires CapCount(p) == 0
    ensures CapCount(Cap([p])) == 1 && CapCounts([Cap([p])]) == 1
  {
    assert [p][1..] == [] && [Cap([p])][1..] == [];
    assert CapCounts([p]) == 0;
  }

  /** The search for the whole pattern from that for its group. */
  lemma {:induction false} SelfReferenceTree(pat: SeqPattern, src: Subject, pos: nat, st: State, body: Tree)
    requires pat == SELF_REFERENCE && pos <= |src| && st == State(pos, SetCapture([], 0, pos))
    requires body == SeqTree(pat.items[0].inner, 4, src, st.(caps := SetCapture(st.caps, 2, pos))) && (body.Live? || body.Dead?)
    ensures MatchAt(pat, src, pos).Some? <==> body.Live?
  {
    var p := pat.items[0];
    OneThen(p, 2, src, st);
    assert pat.items == [p];
    var t := ItemTree(p, 2, src, st);
    assert t == CloseTree(body, 3, src);
    assert PatternTree(pat, src, pos) == CloseTree(t, 1, src);
  }

  // ----- the captures of a match -----

  /** The capture layout of every match: slots 0 and 1 are its bounds, and every
      capture of the pattern is finished and lies within the subject. */
  ghost predicate GoodMatch(pat: SeqPattern, src: Subject, start: nat, st: State) {
    && start <= st.pos <= |src|
    && |st.caps| == 2 + 2 * CapCounts(pat.items)
    && st.caps[0] == Mark(start) && st.caps[1] == Mark(st.pos)
    && (|src| < 0x8000_0000 ==> forall k :: 0 <= k < |st.caps| / 2 ==> Closed(st.caps, 2 * k, src))
  }

  lemma {:induction false} BodyGood(pat: SeqPattern, src: Subject, pos: nat, body: State)
    requires pos <= |src| && Grown(State(pos, SetCapture([], 0, pos)), 2, CapCounts(pat.items), body, src)
    ensures GoodMatch(pat, src, pos, body.(caps := SetCapture(body.caps, 1, body.pos)))
  {
    var caps := SetCapture(body.caps, 1, body.pos);
    var start := SetCapture([], 0, pos);
    assert start[0] == Mark(pos) && |start| == 1;
    assert caps[0] == body.caps[0] && caps[1] == Mark(body.pos);
    MarkRoundTrip(pos);
    MarkRoundTrip(body.pos);
    if |src| < 0x8000_0000 {
      forall k | 0 <= k < |caps| / 2 ensures Closed(caps, 2 * k, src) {
        if k > 0 {
          assert Closed(body.caps, 2 + 2 * (k - 1), src);
        }
      }
    }
  }

  lemma {:induction false} PatternMatchGood(pat: SeqPattern, src: Subject, pos: nat)
    requires pos <= |src|
    ensures var r := First(PatternTree(pat, src, pos)); r.Some? ==> GoodMatch(pat, src, pos, r.value)
  {
    var st := State(pos, SetCapture([], 0, pos));
    var n := CapCounts(pat.items);
    var t := SeqTree(pat.items, 2, src, st);
    SeqGrown(pat.items, 2, src, st);
    FirstClosed(t, st, n, src);
    FirstKilled(t, st, n, src);
    var r := First(PatternTree(pat, src, pos));
    if r.Some? {
      var body: State :| Grown(st, 2, n, body, src) && r.value == body.(caps := SetCapture(body.caps, 1, body.pos));
      BodyGood(pat, src, pos, body);
    }
  }

  // ----- one attempt -----

  /** The match at a position: the preferred outcome, if the search reaches it
      within the limit on failures. */
  function MatchAt(pat: SeqPattern, src: Subject, pos: nat): (r: Option<State>)
    requires pos <= |src|
  {
    var t := PatternTree(pat, src, pos);
    if Deads(t) <= MAX_BACKTRACKS then First(t) else None
  }

  /** A match is the first outcome of the pattern's ordered semantics; a missing
      match means that there is none or that too many attempts fail before it. */
  lemma {:induction false} MatchAtIsFirstOutcome(pat: SeqPattern, src: Subject, pos: nat)
    requires pos <= |src|
    ensures var all := PatternOutcomes(pat, src, pos);
            MatchAt(pat, src, pos)
            == if all != [] && Deads(PatternTree(pat, src, pos)) <= MAX_BACKTRACKS then Some(all[0]) else None
  {
    PatternTreeOutcomes(pat, src, pos);
    FirstIsHead(PatternTree(pat, src, pos));
  }

  // ----- all matches -----

  datatype Match = Match(start: nat, st: State)

  /** What an attempt at each position gives. */
  type Attempts = nat -> Option<State>

  function AttemptsOf(pat: SeqPattern, src: Subject): Attempts {
    (pos: nat) => if pos <= |src| then MatchAt(pat, src, pos) else None
  }

  function Next(m: Match): nat {
    if m.start + 1 < m.st.pos then m.st.pos else m.start + 1
  }

  /** The matches from `pos` to `len`.  `limit` is what is left of the limit;
      since it is tested for zero only after a match was added, a limit of 0 or
      less is none. */
  function Scan(at: Attempts, len: nat, anchored: bool, pos: nat, limit: int): (r: seq<Match>)
    decreases len + 1 - pos
  {
    if pos > len then []
    else if at(pos).None? then
      if anchored then [] else Scan(at, len, anchored, pos + 1, limit)
    else
      var m := Match(pos, at(pos).value);
      [m] + if limit == 1 || anchored then [] else Scan(at, len, anchored, Next(m), limit - 1)
  }

  function FindFrom(pat: SeqPattern, src: Subject, pos: nat, limit: int): (r: seq<Match>) {
    Scan(AttemptsOf(pat, src), |src|, pat.mustHead, pos, limit)
  }

  function AllCaptures(ms: seq<Match>): (r: seq<Captures>)
    ensures |r| == |ms|
  {
    if ms == [] then [] else [ms[0].st.caps] + AllCaptures(ms[1..])
  }

  lemma {:induction false} AllCapturesSnoc(ms: seq<Match>, m: Match)
    ensures AllCaptures(ms + [m]) == AllCaptures(ms) + [m.st.caps]
  {
    if ms == [] {
      assert ms + [m] == [m] && [m][1..] == [];
    } else {
      assert (ms + [m])[1..] == ms[1..] + [m];
      AllCapturesSnoc(ms[1..], m);
    }
  }

  /** `found` and what a scan from `pos` still finds make up the whole result. */
  ghost predicate Found(at: Attempts, len: nat, anchored: bool, from: nat, limit: int, found: seq<Match>, pos: nat) {
    Scan(at, len, anchored, from, limit) == found + Scan(at, len, anchored, pos, limit - |found|)
  }

  lemma {:induction false} FoundHit(at: Attempts, len: nat, anchored: bool, from: nat, limit: int, found: seq<Match>, m: Match)
    requires m.start <= len && at(m.start) == Some(m.st) && Found(at, len, anchored, from, limit, found, m.start)
    ensures limit - |found| == 1 || anchored ==> Scan(at, len, anchored, from, limit) == found + [m]
    ensures limit - |found| != 1 && !anchored ==> Found(at, len, anchored, from, limit, found + [m], Next(m))
  {
    var rest := Scan(at, len, anchored, Next(m), limit - |found| - 1);
    assert found + ([m] + rest) == (found + [m]) + rest;
    assert [m] + [] == [m];
  }

  lemma {:induction false} FoundMiss(at: Attempts, len: nat, anchored: bool, from: nat, limit: int, found: seq<Match>, pos: nat)
    requires Found(at, len, anchored, from, limit, found, pos) && (pos > len || at(pos) == None)
    ensures pos > len || anchored ==> Scan(at, len, anchored, from, limit) == found
    ensures pos <= len && !anchored ==> Found(at, len, anchored, from, limit, found, pos + 1)
  {
    assert found + [] == found;
  }

  /** One match more, and its captures with those before. */
  lemma {:induction false} HitOrEnd(at: Attempts, len: nat, anchored: bool, from: nat, limit: int, found: seq<Match>, m: Match)
    requires m.start <= len && at(m.start) == Some(m.st) && Found(at, len, anchored, from, limit, found, m.start)
    ensures AllCaptures(found + [m]) == AllCaptures(found) + [m.st.caps] && |AllCaptures(found + [m])| == |found| + 1
    ensures |found| + 1 == limit || anchored ==> Scan(at, len, anchored, from, limit) == found + [m]
    ensures |found| + 1 != limit && !anchored ==> Found(at, len, anchored, from, limit, found + [m], Next(m))
  {
    AllCapturesSnoc(found, m);
    FoundHit(at, len, anchored, from, limit, found, m);
  }

  /** The scan has ended with `found`, or goes on from `pos`. */
  ghost predicate Gone(at: Attempts, len: nat, anchored: bool, from: nat, limit: int, stop: bool, found: seq<Match>, pos: nat) {
    if stop then Scan(at, len, anchored, from, limit) == found else Found(at, len, anchored, from, limit, found, pos)
  }

  lemma {:induction false} HitGone(at: Attempts, len: nat, anchored: bool, from: nat, limit: int, found: seq<Match>, m: Match)
    requires m.start <= len && at(m.start) == Some(m.st) && Found(at, len, anchored, from, limit, found, m.start)
    ensures AllCaptures(found + [m]) == AllCaptures(found) + [m.st.caps] && |AllCaptures(found + [m])| == |found| + 1
    ensures Gone(at, len, anchored, from, limit, |found| + 1 == limit || anchored, found + [m], Next(m))
  {
    HitOrEnd(at, len, anchored, from, limit, found, m);
  }

  lemma {:induction false} MissGone(at: Attempts, len: nat, anchored: bool, from: nat, limit: int, found: seq<Match>, pos: nat)
    requires pos <= len && at(pos) == None && Found(at, len, anchored, from, limit, found, pos)
    ensures Gone(at, len, anchored, from, limit, anchored, found, pos + 1)
  {
    FoundMiss(at, len, anchored, from, limit, found, pos);
  }

  method Find(pat: SeqPattern, src: Subject, offset: nat, limit: int) returns (matches: seq<Captures>)
    ensures matches == AllCaptures(FindFrom(pat, src, offset, limit))
  {
    var insts := CompilePattern(pat);
    matches := [];
    var v := new Machine(src, insts);
    var sourcePos := offset;
    ghost var at, found := AttemptsOf(pat, src), [];
    while sourcePos <= |src|
      invariant v.stack == [] && v.src == src && v.insts == insts && matches == AllCaptures(found)
      invariant Found(at, |src|, pat.mustHead, offset, limit, found, sourcePos)
      decreases |src| + 1 - sourcePos
    {
      var stop;
      matches, sourcePos, stop, found := FindStep(v, pat, at, offset, limit, matches, sourcePos, found);
      if stop {
        return;
      }
    }
    FoundMiss(at, |src|, pat.mustHead, offset, limit, found, sourcePos);
  }

  /** One start position; `stop` when the limit is reached or the pattern begins with
      `^`. */
  method FindStep(v: Machine, pat: SeqPattern, ghost at: Attempts, ghost offset: nat, limit: int, matches: seq<Captures>, pos: nat, ghost found: seq<Match>)
    returns (more: seq<Captures>, next: nat, stop: bool, ghost all: seq<Match>)
    requires v.insts == Program(pat) && v.stack == [] && pos <= |v.src| && at == AttemptsOf(pat, v.src)
    requires matches == AllCaptures(found) && Found(at, |v.src|, pat.mustHead, offset, limit, found, pos)
    modifies v
    ensures v.stack == [] && more == AllCaptures(all) && next > pos
    ensures Gone(at, |v.src|, pat.mustHead, offset, limit, stop, all, next)
  {
    var ok, newPos := TryAt(v, pat, at, pos);
    next, more, all := pos + 1, matches, found;
    if !ok {
      MissGone(at, |v.src|, pat.mustHead, offset, limit, found, pos);
      stop := pat.mustHead;
      return;
    }
    if next < newPos {
      next := newPos;
    }
    ghost var m := Match(pos, State(newPos, v.captures));
    HitGone(at, |v.src|, pat.mustHead, offset, limit, found, m);
    more, all := matches + [v.captures], found + [m];
    stop := |more| == limit || pat.mustHead;
  }

  /** Runs the machine with empty captures from one start position. */
  method TryAt(v: Machine, pat: SeqPattern, ghost at: Attempts, pos: nat) returns (ok: bool, end: nat)
    requires v.insts == Program(pat) && v.stack == [] && pos <= |v.src| && at == AttemptsOf(pat, v.src)
    modifies v
    ensures v.stack == []
    ensures at(pos) == if ok then Some(State(end, v.captures)) else None
  {
    v.captures := [];
    ProgramCorrect(pat, v.src, pos);
    ok, end := v.Run(0, pos);
  }

  // ----- what the list of matches is -----

  /** Starts increase, matches do not overlap, and each is the match at its start. */
  ghost predicate Ordered(at: Attempts, from: nat, len: nat, ms: seq<Match>) {
    && (forall i :: 0 <= i < |ms| ==> from <= ms[i].start <= len && at(ms[i].start) == Some(ms[i].st))
    && (forall i, j :: 0 <= i < j < |ms| ==> ms[i].start < ms[j].start && ms[i].st.pos <= ms[j].start)
  }

  lemma {:induction false} ScanOrdered(at: Attempts, len: nat, anchored: bool, from: nat, limit: int)
    ensures Ordered(at, from, len, Scan(at, len, anchored, from, limit))
    decreases len + 1 - from
  {
    if from > len {
    } else if at(from).None? {
      ScanOrdered(at, len, anchored, from + 1, limit);
    } else {
      var m := Match(from, at(from).value);
      ScanOrdered(at, len, anchored, Next(m), limit - 1);
      var rest := Scan(at, len, anchored, from, limit)[1..];
      OrderedCons(at, len, m, rest);
    }
  }

  lemma {:induction false} OrderedCons(at: Attempts, len: nat, m: Match, ms: seq<Match>)
    requires m.start <= len && at(m.start) == Some(m.st) && Ordered(at, Next(m), len, ms)
    ensures Ordered(at, m.start, len, [m] + ms)
  {
    var all := [m] + ms;
    assert forall i :: 1 <= i < |all| ==> all[i] == ms[i - 1];
  }

  /** A position covered by a match: its start, or strictly inside it. */
  ghost predicate Covered(ms: seq<Match>, q: nat) {
    exists i :: 0 <= i < |ms| && (ms[i].start == q || ms[i].start < q < ms[i].st.pos)
  }

  lemma {:induction false} ScanComplete(at: Attempts, len: nat, from: nat, limit: int, q: nat)
    requires limit < 1 && from <= q <= len && at(q).Some?
    ensures Covered(Scan(at, len, false, from, limit), q)
    decreases len + 1 - from
  {
    var ms := Scan(at, len, false, from, limit);
    if at(from).None? {
      ScanComplete(at, len, from + 1, limit, q);
    } else {
      var m := Match(from, at(from).value);
      assert ms[0] == m;
      if q >= Next(m) {
        ScanComplete(at, len, Next(m), limit - 1, q);
        var rest := Scan(at, len, false, Next(m), limit - 1);
        var i :| 0 <= i < |rest| && (rest[i].start == q || rest[i].start < q < rest[i].st.pos);
        assert ms[i + 1] == rest[i];
      }
    }
  }

  lemma {:induction false} ScanLimit(at: Attempts, len: nat, anchored: bool, from: nat, limit: int, none: int)
    requires none < 1
    ensures var all := Scan(at, len, anchored, from, none);
            Scan(at, len, anchored, from, limit) == if 1 <= limit <= |all| then all[..limit] else all
    decreases len + 1 - from
  {
    if from > len {
    } else if at(from).None? {
      ScanLimit(at, len, anchored, from + 1, limit, none);
    } else {
      var m := Match(from, at(from).value);
      ScanLimit(at, len, anchored, Next(m), limit - 1, none - 1);
    }
  }

  /** The matches are in increasing order, do not overlap, and each carries its
      bounds and finished captures. */
  lemma {:induction false} FindOrdered(pat: SeqPattern, src: Subject, from: nat, limit: int)
    ensures var ms := FindFrom(pat, src, from, limit);
            && Ordered(AttemptsOf(pat, src), from, |src|, ms)
            && forall i :: 0 <= i < |ms| ==> GoodMatch(pat, src, ms[i].start, ms[i].st)
  {
    var ms := FindFrom(pat, src, from, limit);
    var at := AttemptsOf(pat, src);
    ScanOrdered(at, |src|, pat.mustHead, from, limit);
    forall i | 0 <= i < |ms| ensures GoodMatch(pat, src, ms[i].start, ms[i].st) {
      var pos := ms[i].start;
      assert at(pos) == Some(ms[i].st);
      PatternMatchGood(pat, src, pos);
    }
  }

  /** Nothing is missed: without `^` and without a limit, every position at
      which the pattern matches is covered. */
  lemma {:induction false} FindComplete(pat: SeqPattern, src: Subject, from: nat, limit: int, q: nat)
    requires !pat.mustHead && limit < 1
    requires from <= q <= |src| && MatchAt(pat, src, q).Some?
    ensures Covered(FindFrom(pat, src, from, limit), q)
  {
    ScanComplete(AttemptsOf(pat, src), |src|, from, limit, q);
  }

  /** A pattern that begins with `^` is tried at the first position only. */
  lemma {:induction false} FindAnchored(pat: SeqPattern, src: Subject, from: nat, limit: int)
    requires pat.mustHead
    ensures var ms := FindFrom(pat, src, from, limit);
            ms == if from <= |src| && MatchAt(pat, src, from).Some? then [Match(from, MatchAt(pat, src, from).value)] else []
  {
    assert AttemptsOf(pat, src)(from) == if from <= |src| then MatchAt(pat, src, from) else None;
  }

  /** A positive limit cuts the list of all matches; any other limit is none. */
  lemma {:induction false} FindLimit(pat: SeqPattern, src: Subject, from: nat, limit: int)
    ensures var all := FindFrom(pat, src, from, -1); var ms := FindFrom(pat, src, from, limit);
            ms == if 1 <= limit <= |all| then all[..limit] else all
  {
    ScanLimit(AttemptsOf(pat, src), |src|, pat.mustHead, from, limit, -1);
  }

  /** No attempt succeeds: at any start, or at the first one alone if the pattern
      begins with `^`. */
  ghost predicate NoAttemptSucceeds(pat: SeqPattern, src: Subject, from: nat) {
    forall q :: from <= q <= |src| && (pat.mustHead ==> q == from) ==> MatchAt(pat, src, q).None?
  }

  /** "Up to limit matches" holds exactly for positive limits and where no attempt
      succeeds; a limit of 0 lets all matches through. */
  lemma {:induction false} LimitRespected(pat: SeqPattern, src: Subject, from: nat, limit: nat)
    ensures |FindFrom(pat, src, from, limit)| <= limit <==> limit >= 1 || NoAttemptSucceeds(pat, src, from)
  {
    var at := AttemptsOf(pat, src);
    FindLimit(pat, src, from, limit);
    ScanEmpty(at, |src|, pat.mustHead, from, limit);
    forall q: nat ensures q <= |src| ==> at(q) == MatchAt(pat, src, q) {
    }
  }

  lemma {:induction false} ScanEmpty(at: Attempts, len: nat, anchored: bool, from: nat, limit: int)
    ensures Scan(at, len, anchored, from, limit) == [] <==> forall q :: from <= q <= len && (anchored ==> q == from) ==> at(q).None?
    decreases len + 1 - from
  {
    if from <= len && at(from).None? && !anchored {
      ScanEmpty(at, len, anchored, from + 1, limit);
    }
  }

  lemma {:induction false} LimitZeroIgnored()
    ensures var pat := SeqPattern(false, false, []); |FindFrom(pat, [], 0, 0)| == 1
  {
    var pat := SeqPattern(false, false, []);
    var t := PatternTree(pat, [], 0);
    assert t == Live(State(0, SetCapture(SetCapture([], 0, 0), 1, 0)));
    assert MatchAt(pat, [], 0) == Some(t.st);
    var at := AttemptsOf(pat, []);
    assert at(0) == Some(t.st) && Next(Match(0, t.st)) == 1;
    assert Scan(at, 0, false, 1, -1) == [];
  }
}
