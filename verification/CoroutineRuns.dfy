/**
 Whole runs of coroutines. As long as every resumption, also that by which a thread
 goes on with the thread it waited for, is of a suspended thread, the running thread
 and its resumers form one simple chain that ends at the main thread, and dead threads
 never run; the first resumption of any other thread breaks the chain. In every run
 dead threads stay dead and a thread that yielded can be resumed into a frame.
 */
module CoroutineRuns {
  import opened Coroutines

  /** What the running thread, or its host, does next. `Continue` is what a thread does
      when it is resumed in a frame that will resume another thread again. */
  datatype Action =
    | Create(t: Tid, first: Frame)
    | Local(regs: seq<Value>, frames: seq<Frame>)
    | Resume(th: Tid, n: nat)
    | CancelledResume(th: Tid)
    | Continue
    | DoYield(user: bool, tail: bool)
    | PassYield(th: Tid, top: nat, tail: bool)
    | Return(n: nat)
    | Fail(error: Value)

  /** A thread that may be resumed: alive, not main, not waiting for another thread. */
  predicate IsSuspended(w: World, th: Tid) {
    th in w.threads && !Th(w, th).dead && th != w.main && th != w.current && Th(w, th).parent.None?
  }

  predicate Plain(f: Frame) {
    f.kind.Lua? || f.kind.Native?
  }

  /** The running thread was resumed in a frame that resumes another thread at once. */
  predicate MustContinue(w: World) {
    Last(Th(w, w.current)).kind.Again?
  }

  /** When the action can happen. Before a resumption the source checks that its target
      is not current and not dead, and before the one by a continuation nothing. A
      thread with a resumer leaves its last frame by `Return`. A wrapped thread that fails
      raises its error in its resumer, which is not modelled. */
  predicate Allowed(w: World, a: Action) {
    var c := Th(w, w.current);
    && !c.dead && (a.Continue? <==> MustContinue(w))
    && match a
       case Create(t, first) => t !in w.threads && Plain(first)
       case Local(_, frames) => frames != [] && forall i :: 0 <= i < |frames| ==> Plain(frames[i]) || frames[i] in c.frames
       case Resume(th, _) => th in w.threads && th != w.current && !Th(w, th).dead
       case CancelledResume(th) => th in w.threads && th != w.current && !Th(w, th).dead
       case Continue => true
       case DoYield(_, tail) => c.parent.Some? && FrameOk(c) && (tail ==> |c.frames| >= 2)
       case PassYield(th, _, tail) =>
         c.parent.Some? && FrameOk(c) && Last(c).kind == Resuming(th) && Th(w, th).yielded.SystemYield? && (tail ==> |c.frames| >= 2)
       case Return(_) => c.parent.Some? && |c.frames| == 1
       case Fail(_) => c.parent.Some? && FrameOk(c) && !c.wrapped
  }

  /** The thread that the action resumes. */
  function Target(w: World, a: Action): Option<Tid> {
    match a
    case Resume(th, _) => Some(th)
    case CancelledResume(th) => Some(th)
    case Continue => if MustContinue(w) then Some(Last(Th(w, w.current)).kind.inner) else None
    case _ => None
  }

  /** What a run must keep to: whatever is resumed is suspended. */
  predicate Careful(w: World, a: Action) {
    Target(w, a).Some? ==> IsSuspended(w, Target(w, a).value)
  }

  function Do(w: World, a: Action): World {
    var c := Th(w, w.current);
    match a
    case Create(t, first) => Put(w, t, Thread([Nil], [first], false, false, NotYielded, None))
    case Local(regs, frames) => Put(w, w.current, c.(regs := regs, frames := frames))
    case Resume(th, n) => Enter(w, w.current, th, n)
    case CancelledResume(th) => Put(w, th, Kill(Th(w, th)).(parent := None))
    case Continue => if MustContinue(w) then Enter(w, w.current, Last(c).kind.inner, |Stack(c)|) else w
    case DoYield(user, tail) => YieldHere(w, w.current, user, tail)
    case PassYield(th, top, tail) => Propagate(w, w.current, th, top, tail)
    case Return(n) => SwitchToParent(w, w.current, n, false, true)
    case Fail(error) => SwitchToParent(Put(w, w.current, c.(regs := Upto(c.regs, Last(c).localBase) + [error])), w.current, 1, true, true)
  }

  // ----- the invariant -----

  /** `ch` leads from the running thread over its resumers to the main thread. */
  ghost predicate IsChain(w: World, ch: seq<Tid>) {
    && ch != [] && ch[0] == w.current && ch[|ch| - 1] == w.main && Th(w, w.main).parent.None?
    && (forall i, j :: 0 <= i < j < |ch| ==> ch[i] != ch[j])
    && (forall i :: 0 <= i < |ch| ==> OnChain(w, ch, i))
  }

  ghost predicate OnChain(w: World, ch: seq<Tid>, i: nat)
    requires i < |ch|
  {
    ch[i] in w.threads && !Th(w, ch[i]).dead && Th(w, ch[i]).yielded.NotYielded? && (i + 1 < |ch| ==> Th(w, ch[i]).parent == Some(ch[i + 1]))
  }

  /** Off the chain no thread has a resumer, and threads that can still run have a
      frame to run. */
  ghost predicate Rest(w: World, ch: seq<Tid>, t: Tid) {
    && (t !in ch ==> Th(w, t).parent.None?)
    && (t != w.main && !Th(w, t).dead ==> Th(w, t).frames != [])
  }

  ghost predicate Inv(w: World, ch: seq<Tid>) {
    IsChain(w, ch) && forall t :: t in w.threads ==> Rest(w, ch, t)
  }

  /** The running thread has a resumer exactly when it is not main. */
  lemma {:induction false} HasResumer(w: World, ch: seq<Tid>)
    requires Inv(w, ch) && Th(w, w.current).parent.Some?
    ensures |ch| >= 2 && ParentOf(Th(w, w.current)) == ch[1] && ch[1] != w.current && w.current != w.main && ch[1] in w.threads
  {
    assert OnChain(w, ch, 0);
    if |ch| >= 2 {
      assert OnChain(w, ch, 1);
    }
  }

  /** Threads on the chain are alive, and all but main have a resumer. */
  lemma {:induction false} ChainMember(w: World, ch: seq<Tid>, t: Tid)
    requires IsChain(w, ch)
    ensures t in ch ==> t in w.threads && !Th(w, t).dead && (t != w.main ==> Th(w, t).parent.Some?)
  {
    if t in ch {
      var i :| 0 <= i < |ch| && ch[i] == t;
      assert OnChain(w, ch, i);
    }
  }

  // ----- each kind of step -----

  /** The resumer is current again, with more values; `l` is off the chain. */
  lemma {:induction false} BackToResumer(w: World, w': World, ch: seq<Tid>, l: Tid, p: Tid)
    requires Inv(w, ch) && |ch| >= 2 && l == ch[0] && p == ch[1] && w'.main == w.main && w'.current == p
    requires forall x :: x in w'.threads <==> x in w.threads
    requires forall x :: x != l && x != p ==> Th(w', x) == Th(w, x)
    requires exists vs :: Th(w', p) == Receive(Th(w, p), vs)
    requires Th(w', l).parent.None? && (!Th(w', l).dead ==> Th(w', l).frames != [])
    ensures Inv(w', ch[1..])
  {
    var ch' := ch[1..];
    assert OnChain(w, ch, 0) && OnChain(w, ch, 1);
    forall i | 0 <= i < |ch'| ensures OnChain(w', ch', i) {
      assert OnChain(w, ch, i + 1);
      assert ch'[i] == ch[i + 1] && ch[i + 1] != ch[0] && (i > 0 ==> ch[i + 1] != ch[1]);
    }
    forall t | t in w'.threads ensures Rest(w', ch', t) {
      assert Rest(w, ch, t);
      if t !in ch' && t != l {
        assert t !in ch;
      }
    }
    assert OnChain(w', ch', |ch'| - 1);
    assert Th(w', w.main).parent == Th(w, w.main).parent;
  }

  lemma {:induction false} ResumeKeeps(w: World, ch: seq<Tid>, th: Tid, n: nat)
    requires Inv(w, ch) && IsSuspended(w, th)
    ensures Inv(Enter(w, w.current, th, n), [th] + ch)
  {
    var w', ch' := Enter(w, w.current, th, n), [th] + ch;
    assert OnChain(w, ch, 0);
    ChainMember(w, ch, th);
    forall i | 0 <= i < |ch'| ensures OnChain(w', ch', i) {
      if i > 0 {
        assert OnChain(w, ch, i - 1);
        assert ch'[i] == ch[i - 1] && ch[i - 1] != th;
      }
    }
    forall t | t in w'.threads ensures Rest(w', ch', t) {
      assert Rest(w, ch, t);
    }
    forall i, j | 0 <= i < j < |ch'| ensures ch'[i] != ch'[j] {
    }
    assert w.main in ch by {
      assert ch[|ch| - 1] == w.main;
    }
  }

  lemma {:induction false} SameChain(w: World, w': World, ch: seq<Tid>, x: Tid)
    requires Inv(w, ch) && w'.main == w.main && w'.current == w.current
    requires forall t :: t in w.threads ==> t in w'.threads
    requires forall t :: t in w'.threads ==> t in w.threads || t == x
    requires forall t :: t != x ==> Th(w', t) == Th(w, t)
    requires x in ch ==> !Th(w', x).dead && Th(w', x).yielded.NotYielded? && Th(w', x).parent == Th(w, x).parent
    requires x !in ch ==> Th(w', x).parent.None?
    requires x != w.main && !Th(w', x).dead ==> Th(w', x).frames != []
    ensures Inv(w', ch)
  {
    forall i | 0 <= i < |ch| ensures OnChain(w', ch, i) {
      assert OnChain(w, ch, i);
    }
    forall t | t in w'.threads ensures Rest(w', ch, t) {
      if t != x {
        assert Rest(w, ch, t);
      }
    }
    assert w.main in ch by {
      assert ch[|ch| - 1] == w.main;
    }
  }

  /** What a yield of `l` leaves: its resumer `p` runs with more values, `l` has no
      resumer but a frame, and no other thread changes. */
  ghost predicate LeftBy(w: World, w': World, l: Tid, p: Tid) {
    && w'.main == w.main && w'.current == p && Th(w', l).parent.None? && Th(w', l).frames != []
    && (forall x :: x in w'.threads <==> x in w.threads) && (forall x :: x != l && x != p ==> Th(w', x) == Th(w, x))
    && exists vs :: Th(w', p) == Receive(Th(w, p), vs)
  }

  lemma {:induction false} PlainYieldShape(w: World, l: Tid)
    requires l in w.threads && FrameOk(Th(w, l)) && Th(w, l).parent.Some? && ParentOf(Th(w, l)) != l && ParentOf(Th(w, l)) in w.threads
    ensures LeftBy(w, YieldHere(w, l, false, false), l, ParentOf(Th(w, l)))
  {
    var t, p, w' := Th(w, l), ParentOf(Th(w, l)), YieldHere(w, l, false, false);
    assert Th(w', p) == Receive(Th(w, p), Flag(t, true) + Moved(t, |Stack(t)|));
  }

  lemma {:induction false} YieldShape(w: World, l: Tid, user: bool, tail: bool)
    requires l in w.threads && FrameOk(Th(w, l)) && (tail ==> |Th(w, l).frames| >= 2) && Th(w, l).parent.Some? && ParentOf(Th(w, l)) != l
    requires ParentOf(Th(w, l)) in w.threads
    ensures LeftBy(w, YieldHere(w, l, user, tail), l, ParentOf(Th(w, l)))
  {
    var w1 := if tail then Put(w, l, Collapse(Th(w, l))) else w;
    var w2, p := YieldHere(w1, l, false, false), ParentOf(Th(w, l));
    YieldParts(w, l, user, tail);
    if tail {
      CollapseKeeps(Th(w, l));
    }
    PlainYieldShape(w1, l);
    OtherStart(w, w1, w2, l, p);
    if user {
      Marked(w, w2, l, p);
    }
  }

  /** A yield is a tail call's collapse, a plain yield, and a mark. */
  lemma {:induction false} YieldParts(w: World, l: Tid, user: bool, tail: bool)
    ensures var w2 := YieldHere(if tail then Put(w, l, Collapse(Th(w, l))) else w, l, false, false);
            YieldHere(w, l, user, tail) == if user then Put(w2, l, Th(w2, l).(yielded := UserYield)) else w2
  {
  }

  lemma {:induction false} CollapseKeeps(t: Thread)
    requires FrameOk(t) && |t.frames| >= 2
    ensures FrameOk(Collapse(t)) && Collapse(t).parent == t.parent
  {
  }

  lemma {:induction false} OtherStart(w: World, w1: World, w2: World, l: Tid, p: Tid)
    requires LeftBy(w1, w2, l, p) && p != l && w1.main == w.main && (forall x :: x in w1.threads <==> x in w.threads)
    requires forall x :: x != l ==> Th(w1, x) == Th(w, x)
    ensures LeftBy(w, w2, l, p)
  {
    var vs :| Th(w2, p) == Receive(Th(w1, p), vs);
    assert Th(w2, p) == Receive(Th(w, p), vs);
  }

  lemma {:induction false} Marked(w: World, w2: World, l: Tid, p: Tid)
    requires LeftBy(w, w2, l, p) && p != l && l in w2.threads
    ensures LeftBy(w, Put(w2, l, Th(w2, l).(yielded := UserYield)), l, p)
  {
    var w' := Put(w2, l, Th(w2, l).(yielded := UserYield));
    var vs :| Th(w2, p) == Receive(Th(w, p), vs);
    assert Th(w', p) == Receive(Th(w, p), vs);
  }

  lemma {:induction false} YieldKeeps(w: World, ch: seq<Tid>, user: bool, tail: bool)
    requires Inv(w, ch) && Allowed(w, DoYield(user, tail))
    ensures Inv(YieldHere(w, w.current, user, tail), ch[1..])
  {
    HasResumer(w, ch);
    var l, p, w' := w.current, ch[1], YieldHere(w, w.current, user, tail);
    assert OnChain(w, ch, 0) && OnChain(w, ch, 1);
    YieldShape(w, l, user, tail);
    BackToResumer(w, w', ch, l, p);
  }

  lemma {:induction false} PassKeeps(w: World, ch: seq<Tid>, th: Tid, top: nat, tail: bool)
    requires Inv(w, ch) && Allowed(w, PassYield(th, top, tail))
    ensures Inv(Propagate(w, w.current, th, top, tail), ch[1..])
  {
    HasResumer(w, ch);
    var l, p, w' := w.current, ch[1], Propagate(w, w.current, th, top, tail);
    assert OnChain(w, ch, 0) && OnChain(w, ch, 1);
    var vs := From(Stack(Th(w, l)), top + |Flag(Th(w, th), true)|);
    assert Th(w', p) == Receive(Th(w, p), Flag(Th(w, l), true) + vs);
    BackToResumer(w, w', ch, l, p);
  }

  lemma {:induction false} DeathKeeps(w: World, ch: seq<Tid>, n: nat, failed: bool)
    requires Inv(w, ch) && Th(w, w.current).parent.Some?
    ensures Inv(SwitchToParent(w, w.current, n, failed, true), ch[1..])
  {
    HasResumer(w, ch);
    var l, p, w' := w.current, ch[1], SwitchToParent(w, w.current, n, failed, true);
    assert OnChain(w, ch, 0) && OnChain(w, ch, 1);
    assert Th(w', p) == Receive(Th(w, p), Flag(Th(w, l), !failed) + Moved(Th(w, l), n));
    BackToResumer(w, w', ch, l, p);
  }

  /** A step that resumes nothing but suspended threads keeps the invariant, with the
      chain one longer, one shorter or the same. */
  lemma {:induction false} StepKeeps(w: World, ch: seq<Tid>, a: Action) returns (ch': seq<Tid>)
    requires Inv(w, ch) && Allowed(w, a) && Careful(w, a)
    ensures Inv(Do(w, a), ch')
  {
    var c := Th(w, w.current);
    assert OnChain(w, ch, 0);
    ch' := ch;
    match a {
      case Create(t, first) =>
        ChainMember(w, ch, t);
        SameChain(w, Do(w, a), ch, t);
      case Local(regs, frames) =>
        SameChain(w, Do(w, a), ch, w.current);
      case Resume(th, n) =>
        ResumeKeeps(w, ch, th, n);
        ch' := [th] + ch;
      case CancelledResume(th) =>
        ChainMember(w, ch, th);
        SameChain(w, Do(w, a), ch, th);
      case Continue =>
        ResumeKeeps(w, ch, Last(c).kind.inner, |Stack(c)|);
        ch' := [Last(c).kind.inner] + ch;
      case DoYield(user, tail) =>
        YieldKeeps(w, ch, user, tail);
        ch' := ch[1..];
      case PassYield(th, top, tail) =>
        PassKeeps(w, ch, th, top, tail);
        ch' := ch[1..];
      case Return(n) =>
        DeathKeeps(w, ch, n, false);
        ch' := ch[1..];
      case Fail(error) =>
        var w1 := Put(w, w.current, c.(regs := Upto(c.regs, Last(c).localBase) + [error]));
        SameChain(w, w1, ch, w.current);
        DeathKeeps(w1, ch, 1, true);
        ch' := ch[1..];
    }
  }

  // ----- and no other step -----

  /** `d` follows resumers from the running thread. */
  ghost predicate Follows(w: World, d: seq<Tid>) {
    d != [] && d[0] == w.current && forall i :: 0 <= i < |d| - 1 ==> Th(w, d[i]).parent == Some(d[i + 1])
  }

  /** Any chain runs along the resumers. */
  lemma {:induction false} ChainFollows(w: World, ch: seq<Tid>, d: seq<Tid>, i: nat)
    requires IsChain(w, ch) && Follows(w, d) && i < |ch| && i < |d|
    ensures ch[i] == d[i]
  {
    if i > 0 {
      ChainFollows(w, ch, d, i - 1);
      assert OnChain(w, ch, i - 1);
      assert Th(w, d[i - 1]).parent == Some(d[i - 1 + 1]);
    }
  }

  /** The last thread of `d` occurs before. */
  ghost predicate Meets(d: seq<Tid>, i: int) {
    0 <= i < |d| - 1 && d[i] == d[|d| - 1]
  }

  /** Resumers that come back to a thread, or stop before the main thread, are no
      chain. */
  lemma {:induction false} NoChain(w: World, ch: seq<Tid>, d: seq<Tid>)
    requires Follows(w, d) && forall i :: 0 <= i < |d| ==> d[i] != w.main
    requires (exists i :: Meets(d, i)) || Th(w, d[|d| - 1]).dead
    ensures !IsChain(w, ch)
  {
    if IsChain(w, ch) {
      var n := |d| - 1;
      if |ch| <= n {
        ChainFollows(w, ch, d, |ch| - 1);
      } else {
        ChainFollows(w, ch, d, n);
        assert OnChain(w, ch, n);
        if !Th(w, d[n]).dead {
          var i :| Meets(d, i);
          ChainFollows(w, ch, d, i);
        }
      }
    }
  }

  ghost predicate Waits(w: World, ch: seq<Tid>, i: nat) {
    i + 1 < |ch| && ch[i] != w.main && Th(w, ch[i]).parent == Some(ch[i + 1])
  }

  /** A thread that is not suspended but in use: the main thread, or on the chain. */
  lemma {:induction false} InUse(w: World, ch: seq<Tid>, th: Tid) returns (k: nat)
    requires Inv(w, ch) && th in w.threads && !Th(w, th).dead && !IsSuspended(w, th) && th != w.main
    ensures k < |ch| - 1 && ch[k] == th && forall i :: 0 <= i <= k ==> Waits(w, ch, i)
  {
    assert Rest(w, ch, th);
    assert OnChain(w, ch, 0);
    assert th in ch;
    k :| 0 <= k < |ch| && ch[k] == th;
    forall i | 0 <= i <= k ensures Waits(w, ch, i) {
      assert OnChain(w, ch, i);
      assert i < |ch| - 1 ==> ch[i] != ch[|ch| - 1];
    }
  }

  /** Resuming a thread that is not suspended leaves no chain: a dead or unknown one
      runs, or the resumers form a circle. */
  lemma {:induction false} ResumeBreaks(w: World, ch: seq<Tid>, th: Tid, n: nat, ch': seq<Tid>)
    requires Inv(w, ch) && !IsSuspended(w, th)
    ensures !IsChain(Enter(w, w.current, th, n), ch')
  {
    var w' := Enter(w, w.current, th, n);
    if IsChain(w', ch') {
      assert OnChain(w', ch', 0);
      if th in w.threads && !Th(w, th).dead && th != w.main {
        var k := InUse(w, ch, th);
        var d := [th] + ch[..k + 1];
        assert Meets(d, 0);
        forall i | 0 <= i < |d| - 1 ensures Th(w', d[i]).parent == Some(d[i + 1]) {
          if i > 0 {
            assert Waits(w, ch, i - 1);
            assert d[i] == ch[i - 1] && d[i + 1] == ch[i] && ch[i - 1] != ch[k];
          } else {
            assert d[1] == ch[0] == w.current;
          }
        }
        forall i | 0 <= i < |d| ensures d[i] != w'.main {
          assert i > 0 ==> Waits(w, ch, i - 1);
        }
        NoChain(w', ch', d);
      }
    }
  }

  lemma {:induction false} CancelBreaks(w: World, ch: seq<Tid>, th: Tid, ch': seq<Tid>)
    requires Inv(w, ch) && th in w.threads && th != w.current && !Th(w, th).dead && !IsSuspended(w, th)
    ensures !IsChain(Do(w, CancelledResume(th)), ch')
  {
    var w' := Do(w, CancelledResume(th));
    if IsChain(w', ch') {
      assert OnChain(w', ch', |ch'| - 1);
      assert th != w.main;
      var k := InUse(w, ch, th);
      var d := ch[..k + 1];
      forall i | 0 <= i < |d| - 1 ensures Th(w', d[i]).parent == Some(d[i + 1]) {
        assert Waits(w, ch, i) && ch[i] != ch[k];
      }
      forall i | 0 <= i < |d| ensures d[i] != w'.main {
        assert Waits(w, ch, i);
      }
      NoChain(w', ch', d);
    }
  }

  ghost predicate HasChain(w: World) {
    exists ch :: IsChain(w, ch)
  }

  /** A step leaves a chain of resumers exactly if whatever it resumes is suspended. */
  lemma {:induction false} StepKeepsExactly(w: World, ch: seq<Tid>, a: Action)
    requires Inv(w, ch) && Allowed(w, a)
    ensures HasChain(Do(w, a)) <==> Careful(w, a)
  {
    if Careful(w, a) {
      var ch' := StepKeeps(w, ch, a);
    } else if HasChain(Do(w, a)) {
      var ch' :| IsChain(Do(w, a), ch');
      match a {
        case Resume(th, n) => ResumeBreaks(w, ch, th, n, ch');
        case CancelledResume(th) => CancelBreaks(w, ch, th, ch');
        case Continue => ResumeBreaks(w, ch, Last(Th(w, w.current)).kind.inner, |Stack(Th(w, w.current))|, ch');
        case _ =>
      }
    }
  }

  /** A dead thread is made to run exactly by a continuation that resumes one. */
  lemma {:induction false} DeadRunsExactly(w: World, ch: seq<Tid>, a: Action)
    requires Inv(w, ch) && Allowed(w, a)
    ensures var w' := Do(w, a);
            Th(w', w'.current).dead <==> a.Continue? && Th(w, Last(Th(w, w.current)).kind.inner).dead
  {
    if Careful(w, a) {
      var ch' := StepKeeps(w, ch, a);
      assert OnChain(Do(w, a), ch', 0);
    }
  }

  // ----- runs -----

  function Start(main: Tid, t: Thread): World {
    World(map[main := t.(dead := false, yielded := NotYielded, parent := None)], main, main)
  }

  /** `ws` is a run of the actions `acts` from the main thread alone. */
  ghost predicate IsRun(ws: seq<World>, acts: seq<Action>) {
    && |ws| == |acts| + 1 && (exists m, t :: ws[0] == Start(m, t))
    && (forall i :: 0 <= i < |acts| ==> Allowed(ws[i], acts[i]) && ws[i + 1] == Do(ws[i], acts[i]))
  }

  /** The first `n` actions resume suspended threads only. */
  ghost predicate CarefulUpTo(ws: seq<World>, acts: seq<Action>, n: nat)
    requires n <= |acts| < |ws|
  {
    forall i :: 0 <= i < n ==> Careful(ws[i], acts[i])
  }

  lemma {:induction false} RunInv(ws: seq<World>, acts: seq<Action>, i: nat) returns (ch: seq<Tid>)
    requires IsRun(ws, acts) && i < |ws| && CarefulUpTo(ws, acts, i)
    ensures Inv(ws[i], ch)
  {
    if i == 0 {
      ch := [ws[0].main];
    } else {
      var c := RunInv(ws, acts, i - 1);
      assert Careful(ws[i - 1], acts[i - 1]);
      ch := StepKeeps(ws[i - 1], c, acts[i - 1]);
    }
  }

  /** In every run: the resumers form a chain in all states exactly if every
      resumption, those of continuations included, is of a suspended thread. */
  lemma {:induction false} RunKeepsExactly(ws: seq<World>, acts: seq<Action>)
    requires IsRun(ws, acts)
    ensures (forall i :: 0 <= i < |ws| ==> HasChain(ws[i])) <==> CarefulUpTo(ws, acts, |acts|)
  {
    if CarefulUpTo(ws, acts, |acts|) {
      forall i | 0 <= i < |ws| ensures HasChain(ws[i]) {
        var ch := RunInv(ws, acts, i);
      }
    } else if forall i :: 0 <= i < |ws| ==> HasChain(ws[i]) {
      ChainsCareful(ws, acts, |acts|);
    }
  }

  lemma {:induction false} ChainsCareful(ws: seq<World>, acts: seq<Action>, n: nat)
    requires IsRun(ws, acts) && n <= |acts| && forall i :: 0 <= i < |ws| ==> HasChain(ws[i])
    ensures CarefulUpTo(ws, acts, n)
  {
    if n > 0 {
      ChainsCareful(ws, acts, n - 1);
      var ch := RunInv(ws, acts, n - 1);
      StepKeepsExactly(ws[n - 1], ch, acts[n - 1]);
      assert HasChain(ws[n - 1 + 1]);
    }
  }

  /** In every run, a thread that has died is dead from then on. */
  lemma {:induction false} DeadStaysDead(ws: seq<World>, acts: seq<Action>, i: nat, j: nat, t: Tid)
    requires IsRun(ws, acts) && i <= j < |ws| && t in ws[i].threads && Th(ws[i], t).dead
    ensures t in ws[j].threads && Th(ws[j], t).dead
    decreases j
  {
    if i < j {
      DeadStaysDead(ws, acts, i, j - 1, t);
      StepKeepsDead(ws[j - 1], acts[j - 1], t);
    }
  }

  /** Only `l` changes in its frames, its death and its yields. */
  ghost predicate OnlyChanges(w: World, w': World, l: Tid) {
    && w'.main == w.main && (forall x :: x in w.threads ==> x in w'.threads)
    && forall x :: x != l ==> Th(w', x).frames == Th(w, x).frames && Th(w', x).dead == Th(w, x).dead && Th(w', x).yielded == Th(w, x).yielded
  }

  lemma {:induction false} PlainYieldFrames(w: World, l: Tid)
    requires FrameOk(Th(w, l))
    ensures FramesLeft(w, YieldHere(w, l, false, false), l)
  {
    if |Th(w, l).frames| == 1 {
      SoleYieldFrames(w, l);
    } else {
      CallYieldFrames(w, l);
    }
  }

  /** `l` keeps a frame and lives if it did. */
  ghost predicate FramesLeft(w: World, w': World, l: Tid) {
    OnlyChanges(w, w', l) && Th(w', l).frames != [] && Th(w', l).dead == Th(w, l).dead
  }

  lemma {:induction false} SoleYieldFrames(w: World, l: Tid)
    requires |Th(w, l).frames| == 1
    ensures FramesLeft(w, PreserveSole(w, l), l)
  {
  }

  lemma {:induction false} CallYieldFrames(w: World, l: Tid)
    requires |Th(w, l).frames| >= 2
    ensures FramesLeft(w, SwitchToParent(w, l, |Stack(Th(w, l))|, false, false), l)
  {
  }

  /** Before and after, only `l` is written. */
  lemma {:induction false} FramesAround(w: World, x: Thread, w2: World, l: Tid, y: Thread)
    requires FramesLeft(Put(w, l, x), w2, l) && x.dead == Th(w, l).dead && y.dead == Th(w2, l).dead && y.frames != []
    ensures FramesLeft(w, Put(w2, l, y), l)
  {
    var w1, w' := Put(w, l, x), Put(w2, l, y);
    forall z | z != l ensures Th(w', z).frames == Th(w, z).frames && Th(w', z).dead == Th(w, z).dead && Th(w', z).yielded == Th(w, z).yielded {
      assert Th(w1, z) == Th(w, z) && Th(w', z) == Th(w2, z);
    }
  }

  lemma {:induction false} YieldFrames(w: World, l: Tid, user: bool, tail: bool)
    requires FrameOk(Th(w, l)) && (tail ==> |Th(w, l).frames| >= 2)
    ensures FramesLeft(w, YieldHere(w, l, user, tail), l)
  {
    var x := if tail then Collapse(Th(w, l)) else Th(w, l);
    var w1 := Put(w, l, x);
    if tail {
      CollapseKeeps(Th(w, l));
    }
    SamePut(w, l);
    YieldParts(w, l, user, tail);
    PlainYieldFrames(w1, l);
    var w2 := YieldHere(w1, l, false, false);
    var y := if user then Th(w2, l).(yielded := UserYield) else Th(w2, l);
    FramesAround(w, x, w2, l, y);
    SamePut(w2, l);
  }

  lemma {:induction false} SamePut(w: World, t: Tid)
    requires t in w.threads
    ensures Put(w, t, Th(w, t)) == w
  {
  }

  lemma {:induction false} PassFrames(w: World, l: Tid, th: Tid, top: nat, tail: bool)
    requires FrameOk(Th(w, l)) && (tail ==> |Th(w, l).frames| >= 2)
    ensures FramesLeft(w, Propagate(w, l, th, top, tail), l)
  {
  }

  lemma {:induction false} DeathFrames(w: World, l: Tid, n: nat, failed: bool)
    ensures var w' := SwitchToParent(w, l, n, failed, true); OnlyChanges(w, w', l) && Th(w', l).dead
  {
  }

  /** Dead threads stay dead. */
  lemma {:induction false} StepKeepsDead(w: World, a: Action, t: Tid)
    requires Allowed(w, a) && t in w.threads && Th(w, t).dead
    ensures t in Do(w, a).threads && Th(Do(w, a), t).dead
  {
    match a {
      case DoYield(user, tail) => YieldFrames(w, w.current, user, tail);
      case _ =>
    }
  }

  /** As long as only suspended threads are resumed, a thread that has died is never the
      running thread. */
  lemma {:induction false} DeadNeverRuns(ws: seq<World>, acts: seq<Action>, i: nat, j: nat, t: Tid)
    requires IsRun(ws, acts) && i <= j < |ws| && CarefulUpTo(ws, acts, j) && t in ws[i].threads && Th(ws[i], t).dead
    ensures t in ws[j].threads && Th(ws[j], t).dead && ws[j].current != t
  {
    var ch := RunInv(ws, acts, j);
    assert OnChain(ws[j], ch, 0);
    DeadStaysDead(ws, acts, i, j, t);
  }

  /** Threads that can still run have a frame to run, and so has the main thread if it
      yielded. */
  ghost predicate FramesOk(w: World) {
    forall t :: t in w.threads && !Th(w, t).dead && (t == w.main ==> !Th(w, t).yielded.NotYielded?) ==> Th(w, t).frames != []
  }

  lemma {:induction false} StepKeepsFrames(w: World, a: Action)
    requires FramesOk(w) && Allowed(w, a)
    ensures FramesOk(Do(w, a))
  {
    match a {
      case DoYield(user, tail) => YieldFrames(w, w.current, user, tail);
      case PassYield(th, top, tail) => PassFrames(w, w.current, th, top, tail);
      case Return(n) => DeathFrames(w, w.current, n, false);
      case Fail(error) =>
        var c := Th(w, w.current);
        DeathFrames(Put(w, w.current, c.(regs := Upto(c.regs, Last(c).localBase) + [error])), w.current, 1, true);
      case _ =>
    }
  }

  /** In every run, a thread that yielded and is not dead has a frame to resume, so a
      resumption never finds it without one. */
  lemma {:induction false} YieldedHasFrame(ws: seq<World>, acts: seq<Action>, i: nat, t: Tid)
    requires IsRun(ws, acts) && i < |ws| && t in ws[i].threads && !Th(ws[i], t).dead && !Th(ws[i], t).yielded.NotYielded?
    ensures Th(ws[i], t).frames != []
  {
    RunFrames(ws, acts, i);
  }

  lemma {:induction false} RunFrames(ws: seq<World>, acts: seq<Action>, i: nat)
    requires IsRun(ws, acts) && i < |ws|
    ensures FramesOk(ws[i])
  {
    if i > 0 {
      RunFrames(ws, acts, i - 1);
      StepKeepsFrames(ws[i - 1], acts[i - 1]);
    }
  }

  /** As long as only suspended threads are resumed, following resumers from the running
      thread never repeats a thread and ends at the main thread, which alone of them
      has no resumer; and no other thread has one. */
  lemma {:induction false} ResumersFormChain(ws: seq<World>, acts: seq<Action>, i: nat) returns (ch: seq<Tid>)
    requires IsRun(ws, acts) && i < |ws| && CarefulUpTo(ws, acts, i)
    ensures IsChain(ws[i], ch) && forall t :: t in ws[i].threads ==> (Th(ws[i], t).parent.Some? <==> t in ch && t != ws[i].main)
  {
    ch := RunInv(ws, acts, i);
    forall t | t in ws[i].threads ensures Th(ws[i], t).parent.Some? <==> t in ch && t != ws[i].main {
      assert Rest(ws[i], ch, t);
      if t in ch {
        var k :| 0 <= k < |ch| && ch[k] == t;
        assert OnChain(ws[i], ch, k);
      }
    }
  }

  // ----- what a resumer receives -----

  /** No thread waits for itself. */
  ghost predicate NoSelf(w: World) {
    forall t :: t in w.threads ==> NotSelf(t, Th(w, t))
  }

  ghost predicate NotSelf(t: Tid, x: Thread) {
    x.parent != Some(t) && forall i :: 0 <= i < |x.frames| ==> x.frames[i].kind != Resuming(t) && x.frames[i].kind != Again(t)
  }

  ghost predicate StartsPlain(ws: seq<World>) {
    ws != [] && forall i :: 0 <= i < |Th(ws[0], ws[0].main).frames| ==> Plain(Th(ws[0], ws[0].main).frames[i])
  }

  lemma {:induction false} NoSelfEnter(w: World, th: Tid, n: nat)
    requires NoSelf(w) && w.current in w.threads && th != w.current
    ensures NoSelf(Enter(w, w.current, th, n))
  {
  }

  lemma {:induction false} NoSelfSwitch(w: World, n: nat, failed: bool, kill: bool)
    requires NoSelf(w) && w.current in w.threads
    ensures NoSelf(SwitchToParent(w, w.current, n, failed, kill))
  {
  }

  lemma {:induction false} NoSelfPlainYield(w: World)
    requires NoSelf(w) && w.current in w.threads
    ensures NoSelf(YieldHere(w, w.current, false, false)) && w.current in YieldHere(w, w.current, false, false).threads
  {
    if |Th(w, w.current).frames| != 1 {
      NoSelfSwitch(w, |Stack(Th(w, w.current))|, false, false);
    }
  }

  lemma {:induction false} NoSelfYield(w: World, user: bool, tail: bool)
    requires NoSelf(w) && w.current in w.threads && (tail ==> |Th(w, w.current).frames| >= 2)
    ensures NoSelf(YieldHere(w, w.current, user, tail))
  {
    var l := w.current;
    var w1 := if tail then Put(w, l, Collapse(Th(w, l))) else w;
    assert NotSelf(l, Th(w, l));
    assert NoSelf(w1);
    NoSelfPlainYield(w1);
    YieldParts(w, l, user, tail);
    var w2 := YieldHere(w1, l, false, false);
    assert NotSelf(l, Th(w2, l));
  }

  lemma {:induction false} NoSelfPass(w: World, th: Tid, top: nat, tail: bool)
    requires NoSelf(w) && w.current in w.threads && Last(Th(w, w.current)).kind == Resuming(th) && Th(w, w.current).frames != []
    ensures NoSelf(Propagate(w, w.current, th, top, tail))
  {
  }

  /** A step keeps it, and some thread runs. */
  lemma {:induction false} StepKeepsNoSelf(w: World, a: Action)
    requires NoSelf(w) && w.current in w.threads && Allowed(w, a)
    ensures NoSelf(Do(w, a)) && Do(w, a).current in Do(w, a).threads
  {
    match a {
      case Resume(th, n) => NoSelfEnter(w, th, n);
      case Continue =>
        var c := Th(w, w.current);
        assert c.frames != [] && NotSelf(w.current, c);
        NoSelfEnter(w, Last(c).kind.inner, |Stack(c)|);
      case DoYield(user, tail) => NoSelfYield(w, user, tail);
      case PassYield(th, top, tail) => NoSelfPass(w, th, top, tail);
      case Return(n) => NoSelfSwitch(w, n, false, true);
      case Fail(error) =>
        var c := Th(w, w.current);
        var w1 := Put(w, w.current, c.(regs := Upto(c.regs, Last(c).localBase) + [error]));
        assert NotSelf(w.current, c);
        assert NoSelf(w1);
        NoSelfSwitch(w1, 1, true, true);
      case _ =>
    }
  }

  lemma {:induction false} RunNoSelf(ws: seq<World>, acts: seq<Action>, i: nat)
    requires IsRun(ws, acts) && StartsPlain(ws) && i < |ws|
    ensures NoSelf(ws[i]) && ws[i].current in ws[i].threads
  {
    if i > 0 {
      RunNoSelf(ws, acts, i - 1);
      StepKeepsNoSelf(ws[i - 1], acts[i - 1]);
    }
  }

  /** The running thread of `w` hands `vs` to its resumer, behind what that one had, and
      has none any more; the resumer runs on, and no other thread changes. */
  ghost predicate HandsOver(w: World, w': World, vs: seq<Value>) {
    var l, p := w.current, Th(w, w.current).parent;
    && p.Some? && w'.current == p.value && Th(w', p.value) == Th(w, p.value).(regs := Th(w, p.value).regs + vs)
    && Th(w', l).parent.None? && forall x :: x != l && x != p.value ==> Th(w', x) == Th(w, x)
  }

  lemma {:induction false} ReturnHandsOver(w: World, n: nat)
    requires Allowed(w, Return(n)) && n <= |Th(w, w.current).regs| && Th(w, w.current).parent != Some(w.current)
    ensures var c, w' := Th(w, w.current), Do(w, Return(n));
            && HandsOver(w, w', (if c.wrapped then [] else [True]) + c.regs[|c.regs| - n..])
            && Th(w', w.current).dead && Th(w', w.current).frames == []
  {
  }

  lemma {:induction false} FailHandsOver(w: World, error: Value)
    requires Allowed(w, Fail(error)) && Th(w, w.current).parent != Some(w.current)
    ensures var w' := Do(w, Fail(error)); HandsOver(w, w', [False, error]) && Th(w', w.current).dead
  {
    var c := Th(w, w.current);
    var c1 := c.(regs := Upto(c.regs, Last(c).localBase) + [error]);
    assert Moved(c1, 1) == [error];
  }

  lemma {:induction false} YieldHandsOver(w: World, user: bool)
    requires Allowed(w, DoYield(user, false)) && Th(w, w.current).parent != Some(w.current)
    ensures var c, w' := Th(w, w.current), Do(w, DoYield(user, false));
            && HandsOver(w, w', (if c.wrapped then [] else [True]) + c.regs[c.frames[|c.frames| - 1].localBase..])
            && !Th(w', w.current).dead && Th(w', w.current).frames != []
            && (user ==> Th(w', w.current).yielded == UserYield)
            && (!user && c.yielded.NotYielded? ==> Th(w', w.current).yielded == SystemYield)
  {
    var c := Th(w, w.current);
    assert Moved(c, |Stack(c)|) == Stack(c) == c.regs[Last(c).localBase..];
  }

  /** `th` goes on with `vs` behind what it had, for the thread that was running. */
  ghost predicate GoesOn(w: World, w': World, th: Tid, vs: seq<Value>) {
    && w'.current == th && Th(w', th).regs == Th(w, th).regs + vs && Th(w', th).parent == Some(w.current)
    && Th(w', th).yielded.NotYielded? && Th(w', th).frames == Th(w, th).frames
    && |Th(w', w.current).regs| == |Th(w, w.current).regs| - |vs| && Th(w', w.current).regs <= Th(w, w.current).regs
  }

  lemma {:induction false} ResumeGoesOn(w: World, th: Tid, n: nat)
    requires th != w.current && n <= |Th(w, w.current).regs|
    ensures GoesOn(w, Enter(w, w.current, th, n), th, Th(w, w.current).regs[|Th(w, w.current).regs| - n..])
  {
  }

  lemma {:induction false} ContinueGoesOn(w: World)
    requires Allowed(w, Continue) && Last(Th(w, w.current)).kind.inner != w.current && Last(Th(w, w.current)).localBase <= |Th(w, w.current).regs|
    ensures var c := Th(w, w.current); c.frames != [] && var f := c.frames[|c.frames| - 1];
            f.kind.Again? && GoesOn(w, Do(w, Continue), f.kind.inner, c.regs[f.localBase..])
  {
    var c := Th(w, w.current);
    assert Stack(c) == c.regs[Last(c).localBase..];
    ResumeGoesOn(w, Last(c).kind.inner, |Stack(c)|);
  }

  /** In every run: a thread that is resumed goes on with the last values of its resumer,
      or all from the base of the last frame on if it is resumed by a continuation. */
  lemma {:induction false} RunGoesOn(ws: seq<World>, acts: seq<Action>, i: nat)
    requires IsRun(ws, acts) && StartsPlain(ws) && i < |acts|
    ensures var c, l, w' := Th(ws[i], ws[i].current), ws[i].current, ws[i + 1];
            match acts[i]
            case Resume(th, n) => n <= |c.regs| ==> GoesOn(ws[i], w', th, c.regs[|c.regs| - n..])
            case Continue =>
              && c.frames != [] && var f := c.frames[|c.frames| - 1];
              f.kind.Again? && (f.localBase <= |c.regs| ==> GoesOn(ws[i], w', f.kind.inner, c.regs[f.localBase..]))
            case _ => true
  {
    RunNoSelf(ws, acts, i);
    var c := Th(ws[i], ws[i].current);
    assert NotSelf(ws[i].current, c);
    match acts[i] {
      case Resume(th, n) =>
        if n <= |c.regs| {
          ResumeGoesOn(ws[i], th, n);
        }
      case Continue =>
        assert c.frames != [];
        if Last(c).localBase <= |c.regs| {
          ContinueGoesOn(ws[i]);
        }
      case _ =>
    }
  }

  /** In every run: a thread that returns hands `true` and what it returns to its
      resumer, one that fails `false` and the error, one that yields `true` and what it
      yields; wrapped threads hand over the values alone. Who returns or fails is dead,
      who yields is not. */
  lemma {:induction false} RunHandsOver(ws: seq<World>, acts: seq<Action>, i: nat)
    requires IsRun(ws, acts) && StartsPlain(ws) && i < |acts|
    ensures var c, l, w' := Th(ws[i], ws[i].current), ws[i].current, ws[i + 1];
            match acts[i]
            case Return(n) => n <= |c.regs| ==>
              HandsOver(ws[i], w', (if c.wrapped then [] else [True]) + c.regs[|c.regs| - n..]) && Th(w', l).dead && Th(w', l).frames == []
            case Fail(error) => HandsOver(ws[i], w', [False, error]) && Th(w', l).dead
            case DoYield(user, false) =>
              && c.frames != [] && c.frames[|c.frames| - 1].localBase <= |c.regs|
              && HandsOver(ws[i], w', (if c.wrapped then [] else [True]) + c.regs[c.frames[|c.frames| - 1].localBase..]) && !Th(w', l).dead
            case _ => true
  {
    RunNoSelf(ws, acts, i);
    assert NotSelf(ws[i].current, Th(ws[i], ws[i].current));
    match acts[i] {
      case Return(n) =>
        if n <= |Th(ws[i], ws[i].current).regs| {
          ReturnHandsOver(ws[i], n);
        }
      case Fail(error) => FailHandsOver(ws[i], error);
      case DoYield(user, tail) =>
        if !tail {
          YieldHandsOver(ws[i], user);
        }
      case _ =>
    }
  }

  // ----- what continuations do -----

  /** Every call to resume is of a suspended thread; continuations are not calls. */
  ghost predicate CallsCareful(ws: seq<World>, acts: seq<Action>) {
    |acts| < |ws| && forall i :: 0 <= i < |acts| && acts[i].Resume? ==> IsSuspended(ws[i], acts[i].th)
  }

  /** A thread whose only frame is a native function without arguments. */
  function Sole(kind: Kind, yielded: Yield, parent: Option<Tid>): Thread {
    Thread([Nil], [Frame(kind, 1, 0)], false, false, yielded, parent)
  }

  function MainThread(kind: Kind, regs: seq<Value>): Thread {
    Thread(regs, [Frame(kind, 1, 0)], false, false, NotYielded, None)
  }

  /** A thread with one frame resumes `th` without arguments. */
  lemma {:induction false} ResumeSole(w: World, th: Tid)
    requires |Th(w, w.current).frames| == 1
    ensures var c := Th(w, w.current);
            Do(w, Resume(th, 0)) == World(w.threads[w.current := c.(frames := [c.frames[0].(kind := Resuming(th))])]
                                                   [th := Th(w, th).(parent := Some(w.current), yielded := NotYielded)], th, w.main)
  {
    var c := Th(w, w.current);
    assert Moved(c, 0) == [] && Th(w, th).regs + [] == Th(w, th).regs;
    assert SetKind(Without(c, 0), Resuming(th)) == c.(frames := [c.frames[0].(kind := Resuming(th))]);
  }

  /** A thread with one frame returns nothing. */
  lemma {:induction false} ReturnSole(w: World)
    requires var c := Th(w, w.current); |c.frames| == 1 && !c.wrapped && c.parent.Some? && c.parent.value != w.current
    ensures var c, p := Th(w, w.current), ParentOf(Th(w, w.current));
            Do(w, Return(0)) == World(w.threads[p := Receive(Th(w, p), [True])]
                                               [w.current := PopFrame(c).(dead := true, yielded := NotYielded, parent := None)], p, w.main)
  {
    var c := Th(w, w.current);
    assert Moved(c, 0) == [] && Without(c, 0) == c && Flag(c, true) + [] == [True];
  }

  /** A thread with one frame and no arguments yields. */
  lemma {:induction false} YieldSole(w: World)
    requires var c := Th(w, w.current); |c.frames| == 1 && Stack(c) == [] && !c.wrapped && c.parent.Some? && c.parent.value != w.current
    ensures var c, p := Th(w, w.current), ParentOf(Th(w, w.current));
            Do(w, DoYield(false, false)) == World(w.threads[p := Receive(Th(w, p), [True])]
                                                           [w.current := c.(frames := [c.frames[0].(kind := Results)], parent := None, yielded := SystemYield)], p, w.main)
  {
    var c := Th(w, w.current);
    assert Moved(c, 0) == [] && Without(c, 0) == c && Flag(c, true) + [] == [True];
    assert SetKind(c, Results) == c.(frames := [c.frames[0].(kind := Results)]);
  }

  /** A thread with one frame passes a yield without values on. */
  lemma {:induction false} PassSole(w: World, th: Tid, regs: seq<Value>)
    requires var c := Th(w, w.current); |c.frames| == 1 && !c.wrapped && c.parent.Some? && c.parent.value != w.current && c.regs == regs + [True] && Stack(c) == [True]
    requires !Th(w, th).wrapped
    ensures var c, p := Th(w, w.current), ParentOf(Th(w, w.current));
            Do(w, PassYield(th, 0, false)) == World(w.threads[p := Receive(Th(w, p), [True])]
                                                             [w.current := c.(regs := regs, frames := [c.frames[0].(kind := Again(th))], parent := None, yielded := SystemYield)], p, w.main)
  {
    var c := Th(w, w.current);
    assert Without(c, 1) == c.(regs := regs) && Flag(c, true) + [] == [True];
    assert SetKind(c.(regs := regs), Again(th)) == c.(regs := regs, frames := [c.frames[0].(kind := Again(th))]);
  }

  const FRAME: Frame := Frame(Native, 1, 0)

  /** Main resumes 1 and 1 resumes 2. */
  lemma {:induction false} Nested() returns (ws: seq<World>, acts: seq<Action>)
    ensures IsRun(ws, acts) && CallsCareful(ws, acts) && CarefulUpTo(ws, acts, |acts|)
    ensures ws[|acts|] == World(map[0 := MainThread(Resuming(1), [Nil]), 1 := Sole(Resuming(2), NotYielded, Some(0)), 2 := Sole(Native, NotYielded, Some(1))], 2, 0)
  {
    var w0 := World(map[0 := MainThread(Native, [Nil])], 0, 0);
    assert w0 == Start(0, MainThread(Native, [Nil]));
    ws, acts := [w0], [];
    var w1 := World(map[0 := MainThread(Native, [Nil]), 1 := Sole(Native, NotYielded, None)], 0, 0);
    ws, acts := OneMore(ws, acts, w0, Create(1, FRAME), w1);
    var w2 := World(map[0 := MainThread(Native, [Nil]), 1 := Sole(Native, NotYielded, None), 2 := Sole(Native, NotYielded, None)], 0, 0);
    ws, acts := OneMore(ws, acts, w1, Create(2, FRAME), w2);
    var w3 := World(map[0 := MainThread(Resuming(1), [Nil]), 1 := Sole(Native, NotYielded, Some(0)), 2 := Sole(Native, NotYielded, None)], 1, 0);
    ResumeSole(w2, 1);
    assert Do(w2, Resume(1, 0)) == w3;
    ws, acts := OneMore(ws, acts, w2, Resume(1, 0), w3);
    var w4 := World(map[0 := MainThread(Resuming(1), [Nil]), 1 := Sole(Resuming(2), NotYielded, Some(0)), 2 := Sole(Native, NotYielded, Some(1))], 2, 0);
    ResumeSole(w3, 2);
    assert Do(w3, Resume(2, 0)) == w4;
    ws, acts := OneMore(ws, acts, w3, Resume(2, 0), w4);
  }

  /** Then 2 yields to the host and 1 passes that on. */
  lemma {:induction false} Passed() returns (ws: seq<World>, acts: seq<Action>)
    ensures IsRun(ws, acts) && CallsCareful(ws, acts) && CarefulUpTo(ws, acts, |acts|)
    ensures ws[|acts|] == World(map[0 := MainThread(Resuming(1), [Nil, True]), 1 := Sole(Again(2), SystemYield, None), 2 := Sole(Results, SystemYield, None)], 0, 0)
  {
    ws, acts := Nested();
    var w4 := ws[|acts|];
    var w5 := World(map[0 := MainThread(Resuming(1), [Nil]), 1 := Sole(Resuming(2), NotYielded, Some(0)).(regs := [Nil, True]), 2 := Sole(Results, SystemYield, None)], 1, 0);
    YieldSole(w4);
    assert [Nil] + [True] == [Nil, True];
    assert Do(w4, DoYield(false, false)) == w5;
    ws, acts := OneMore(ws, acts, w4, DoYield(false, false), w5);
    var w6 := World(map[0 := MainThread(Resuming(1), [Nil, True]), 1 := Sole(Again(2), SystemYield, None), 2 := Sole(Results, SystemYield, None)], 0, 0);
    PassSole(w5, 2, [Nil]);
    assert Do(w5, PassYield(2, 0, false)) == w6;
    ws, acts := OneMore(ws, acts, w5, PassYield(2, 0, false), w6);
  }

  /** And main resumes 2 itself. */
  lemma {:induction false} Passing() returns (ws: seq<World>, acts: seq<Action>)
    ensures IsRun(ws, acts) && CallsCareful(ws, acts) && CarefulUpTo(ws, acts, |acts|)
    ensures ws[|acts|] == World(map[0 := MainThread(Resuming(2), [Nil, True]), 1 := Sole(Again(2), SystemYield, None), 2 := Sole(Results, NotYielded, Some(0))], 2, 0)
  {
    ws, acts := Passed();
    var w6 := ws[|acts|];
    var w7 := World(map[0 := MainThread(Resuming(2), [Nil, True]), 1 := Sole(Again(2), SystemYield, None), 2 := Sole(Results, NotYielded, Some(0))], 2, 0);
    ResumeSole(w6, 2);
    assert Do(w6, Resume(2, 0)) == w7;
    ws, acts := OneMore(ws, acts, w6, Resume(2, 0), w7);
  }

  /** A run of one action more. */
  lemma {:induction false} OneMore(ws: seq<World>, acts: seq<Action>, w: World, a: Action, w': World) returns (ws': seq<World>, acts': seq<Action>)
    requires IsRun(ws, acts) && CallsCareful(ws, acts) && ws[|acts|] == w && Allowed(w, a) && w' == Do(w, a) && (a.Resume? ==> IsSuspended(w, a.th))
    ensures IsRun(ws', acts') && CallsCareful(ws', acts') && |acts'| == |acts| + 1 && ws'[|acts'|] == w'
    ensures CarefulUpTo(ws, acts, |acts|) ==> CarefulUpTo(ws', acts', |acts|) && (Careful(w, a) ==> CarefulUpTo(ws', acts', |acts'|))
  {
    ws', acts' := ws + [w'], acts + [a];
    assert forall i :: 0 <= i < |acts| ==> acts'[i] == acts[i] && ws'[i] == ws[i];
    RunMore(ws, acts, a, w');
  }

  lemma {:induction false} RunMore(ws: seq<World>, acts: seq<Action>, a: Action, w': World)
    requires IsRun(ws, acts) && Allowed(ws[|acts|], a) && w' == Do(ws[|acts|], a)
    ensures IsRun(ws + [w'], acts + [a])
  {
    var ws', acts' := ws + [w'], acts + [a];
    assert ws'[0] == ws[0];
    forall i | 0 <= i < |acts'| ensures Allowed(ws'[i], acts'[i]) && ws'[i + 1] == Do(ws'[i], acts'[i]) {
      assert ws'[i] == ws[i];
      if i < |acts| {
        assert acts'[i] == acts[i] && ws'[i + 1] == ws[i + 1];
      }
    }
  }

  /** 2 returns and is dead. */
  lemma {:induction false} Returned() returns (ws: seq<World>, acts: seq<Action>)
    ensures IsRun(ws, acts) && CallsCareful(ws, acts)
    ensures ws[|acts|] == World(map[0 := MainThread(Resuming(2), [Nil, True, True]), 1 := Sole(Again(2), SystemYield, None), 2 := Thread([], [], true, false, NotYielded, None)], 0, 0)
  {
    ws, acts := Passing();
    var w7, gone := ws[|acts|], Thread([], [], true, false, NotYielded, None);
    var w8 := World(map[0 := MainThread(Resuming(2), [Nil, True, True]), 1 := Sole(Again(2), SystemYield, None), 2 := gone], 0, 0);
    ReturnSole(w7);
    assert [Nil, True] + [True] == [Nil, True, True];
    assert PopFrame(Sole(Results, NotYielded, Some(0))).(dead := true, yielded := NotYielded, parent := None) == gone;
    assert Do(w7, Return(0)) == w8;
    ws, acts := OneMore(ws, acts, w7, Return(0), w8);
  }

  /** Then main resumes 1, whose continuation runs 2. */
  lemma {:induction false} DeadThreadRuns() returns (ws: seq<World>, acts: seq<Action>)
    ensures IsRun(ws, acts) && CallsCareful(ws, acts) && var w := ws[|acts|]; Th(w, w.current).dead
  {
    ws, acts := Returned();
    var w8, gone := ws[|acts|], Thread([], [], true, false, NotYielded, None);
    var w9 := World(map[0 := MainThread(Resuming(1), [Nil, True, True]), 1 := Sole(Again(2), NotYielded, Some(0)), 2 := gone], 1, 0);
    ResumeSole(w8, 1);
    assert Do(w8, Resume(1, 0)) == w9;
    ws, acts := OneMore(ws, acts, w8, Resume(1, 0), w9);
    ws, acts := OneMore(ws, acts, w9, Continue, Do(w9, Continue));
  }

  /** 2 resumes 1, whose continuation resumes 2 in turn: a circle of resumers. */
  lemma {:induction false} ResumersFormCircle() returns (ws: seq<World>, acts: seq<Action>)
    ensures IsRun(ws, acts) && CallsCareful(ws, acts)
    ensures var w := ws[|acts|]; Th(w, 1).parent == Some(2) && Th(w, 2).parent == Some(1) && !HasChain(w)
  {
    ws, acts := Passing();
    var w7 := ws[|acts|];
    var w8 := World(map[0 := MainThread(Resuming(2), [Nil, True]), 1 := Sole(Again(2), NotYielded, Some(2)), 2 := Sole(Resuming(1), NotYielded, Some(0))], 1, 0);
    ResumeSole(w7, 1);
    assert Do(w7, Resume(1, 0)) == w8;
    ws, acts := OneMore(ws, acts, w7, Resume(1, 0), w8);
    var ch := RunInv(ws, acts, |acts|);
    StepKeepsExactly(w8, ch, Continue);
    ws, acts := OneMore(ws, acts, w8, Continue, Do(w8, Continue));
  }
}
