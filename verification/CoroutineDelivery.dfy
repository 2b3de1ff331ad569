/**
 A system yield in the innermost of any number of nested coroutines: its values
 reach the outermost resumer, and what that one resumes with reaches the call that
 yielded.
 */
module CoroutineDelivery {
  import opened Coroutines

  /** `m` waits for `ts[0]`, which waits for `ts[1]`, and so on; the last one runs. */
  ghost predicate Nest(w: World, m: Tid, ts: seq<Tid>)
    decreases |ts|
  {
    && ts != [] && m !in ts && FrameOk(Th(w, ts[0])) && Th(w, ts[0]).yielded.NotYielded? && Th(w, ts[0]).parent == Some(m)
    && (|ts| == 1 ==> w.current == ts[0])
    && (|ts| > 1 ==> Last(Th(w, ts[0])).kind == Resuming(ts[1]) && Nest(w, ts[0], ts[1..]))
  }

  function Innermost(ts: seq<Tid>): Tid
    requires ts != []
  {
    ts[|ts| - 1]
  }

  lemma {:induction false} InnermostTail(ts: seq<Tid>)
    requires |ts| > 1
    ensures Innermost(ts[1..]) == Innermost(ts) && (forall x :: x in ts <==> x == ts[0] || x in ts[1..])
  {
    assert ts == [ts[0]] + ts[1..];
  }

  // ----- the way up -----

  /** The calls on top of some of the threads were tail calls, for which there is a
      caller. */
  ghost predicate TailsOk(w: World, ts: seq<Tid>, tails: seq<bool>) {
    |tails| == |ts| && forall i :: 0 <= i < |ts| && tails[i] ==> |Th(w, ts[i]).frames| >= 2
  }

  /** The yield of the innermost thread, passed on at each boundary. */
  function YieldUp(w: World, ts: seq<Tid>, tails: seq<bool>): World
    requires ts != [] && |tails| == |ts|
  {
    if |ts| == 1 then YieldHere(w, ts[0], false, tails[0])
    else Propagate(YieldUp(w, ts[1..], tails[1..]), ts[0], ts[1], |Stack(Th(w, ts[0]))|, tails[0])
  }

  /** The thread that yielded: its registers end where the results of the call go, or,
      if the yielding function is the whole thread, where its arguments go. */
  function Yielded(t: Thread, tail: bool): Thread {
    var f, n := Last(t), |t.frames| - (if tail then 1 else 0);
    if n == 1 then Thread(Upto(t.regs, f.localBase), [f.(kind := Results)], t.dead, t.wrapped, SystemYield, None)
    else Thread(Upto(t.regs, f.returnBase), if 0 <= n - 1 <= |t.frames| then t.frames[..n - 1] else [], t.dead, t.wrapped, SystemYield, None)
  }

  /** A thread that gave up its stack and will resume `inner` again, in the place of
      its caller if it was tail called. */
  function Passed(t: Thread, inner: Tid, tail: bool): Thread {
    var t1 := SetKind(t.(regs := Upto(t.regs, Last(t).localBase)), Again(inner)).(parent := None, yielded := SystemYield);
    if tail then Collapse(t1) else t1
  }

  /** Such a thread is ready for what it will be resumed with. */
  lemma {:induction false} PassedReady(t: Thread, inner: Tid, tail: bool)
    requires FrameOk(t) && (tail ==> |t.frames| >= 2)
    ensures var p := Passed(t, inner, tail);
            && FrameOk(p) && Last(p).kind == Again(inner) && Stack(p) == [] && p.wrapped == t.wrapped && p.dead == t.dead
            && |p.frames| == |t.frames| - (if tail then 1 else 0)
  {
    GiveUpStack(t);
  }

  /** All threads as the yield leaves them, for `w` before and `w'` after. */
  ghost predicate Suspended(w: World, w': World, ts: seq<Tid>, tails: seq<bool>)
    requires |tails| == |ts|
  {
    ts != [] ==>
      if |ts| == 1 then Th(w', ts[0]) == Yielded(Th(w, ts[0]), tails[0])
      else Th(w', ts[0]) == Passed(Th(w, ts[0]), ts[1], tails[0]) && Suspended(w, w', ts[1..], tails[1..])
  }

  lemma {:induction false} SuspendedFrame(w: World, w': World, w2: World, ts: seq<Tid>, tails: seq<bool>)
    requires |tails| == |ts| && Suspended(w, w', ts, tails) && forall x :: x in ts ==> Th(w2, x) == Th(w', x)
    ensures Suspended(w, w2, ts, tails)
    decreases |ts|
  {
    if |ts| > 1 {
      SuspendedFrame(w, w', w2, ts[1..], tails[1..]);
    }
  }

  /** A callee that took its caller's place yields as the caller's frame would. */
  lemma {:induction false} CollapsedOk(t: Thread)
    requires FrameOk(t) && |t.frames| >= 2
    ensures var c := Collapse(t);
            && FrameOk(c) && |c.frames| == |t.frames| - 1 && Stack(c) == Stack(t) && c.parent == t.parent && c.yielded == t.yielded && c.wrapped == t.wrapped
            && Yielded(c, false) == Yielded(t, true)
  {
    var c := Collapse(t);
    assert Last(c) == Last(t);
    assert c.frames[..|c.frames| - 1] == t.frames[..|t.frames| - 2];
  }

  /** What is left of a thread that moves its whole stack. */
  lemma {:induction false} GiveUpStack(t: Thread)
    requires FrameOk(t)
    ensures Moved(t, |Stack(t)|) == Stack(t) && Without(t, |Stack(t)|).regs == Upto(t.regs, Last(t).localBase)
    ensures |Upto(t.regs, Last(t).localBase)| == Last(t).localBase
  {
  }

  lemma {:induction false} SoleYield(w: World, l: Tid)
    requires FrameOk(Th(w, l)) && |Th(w, l).frames| == 1 && Th(w, l).parent.Some? && ParentOf(Th(w, l)) != l
    ensures var t, p, w' := Th(w, l), ParentOf(Th(w, l)), PreserveSole(w, l);
            && Th(w', l) == Yielded(t, false) && Th(w', p) == Receive(Th(w, p), Flag(t, true) + Stack(t)) && w'.current == p
            && forall x :: x != l && x != p ==> Th(w', x) == Th(w, x)
  {
    GiveUpStack(Th(w, l));
  }

  lemma {:induction false} CallYield(w: World, l: Tid)
    requires FrameOk(Th(w, l)) && |Th(w, l).frames| > 1 && Th(w, l).parent.Some? && ParentOf(Th(w, l)) != l && Th(w, l).yielded.NotYielded?
    ensures var t, p, w' := Th(w, l), ParentOf(Th(w, l)), SwitchToParent(w, l, |Stack(Th(w, l))|, false, false);
            && Th(w', l) == Yielded(t, false) && Th(w', p) == Receive(Th(w, p), Flag(t, true) + Stack(t)) && w'.current == p
            && forall x :: x != l && x != p ==> Th(w', x) == Th(w, x)
  {
    var t := Th(w, l);
    GiveUpStack(t);
    assert PopFrame(Without(t, |Stack(t)|)).regs == Upto(t.regs, Last(t).returnBase);
  }

  lemma {:induction false} PlainYield(w: World, l: Tid)
    requires FrameOk(Th(w, l)) && Th(w, l).yielded.NotYielded? && Th(w, l).parent.Some? && ParentOf(Th(w, l)) != l
    ensures var t, p, w' := Th(w, l), ParentOf(Th(w, l)), YieldHere(w, l, false, false);
            && Th(w', l) == Yielded(t, false) && Th(w', p) == Receive(Th(w, p), Flag(t, true) + Stack(t)) && w'.current == p
            && forall x :: x != l && x != p ==> Th(w', x) == Th(w, x)
  {
    if |Th(w, l).frames| == 1 {
      SoleYield(w, l);
    } else {
      CallYield(w, l);
    }
  }

  lemma {:induction false} YieldOk(w: World, l: Tid, tail: bool)
    requires FrameOk(Th(w, l)) && (tail ==> |Th(w, l).frames| >= 2) && Th(w, l).yielded.NotYielded?
    requires Th(w, l).parent.Some? && ParentOf(Th(w, l)) != l
    ensures var t, p, w' := Th(w, l), ParentOf(Th(w, l)), YieldHere(w, l, false, tail);
            && Th(w', l) == Yielded(t, tail) && Th(w', p) == Receive(Th(w, p), Flag(t, true) + Stack(t)) && w'.current == p
            && forall x :: x != l && x != p ==> Th(w', x) == Th(w, x)
  {
    if tail {
      CollapsedOk(Th(w, l));
      var w1 := Put(w, l, Collapse(Th(w, l)));
      PlainYield(w1, l);
      assert YieldHere(w1, l, false, false) == YieldHere(w, l, false, true);
    } else {
      PlainYield(w, l);
    }
  }

  /** A thread that received values behind its stack passes just these on. */
  lemma {:induction false} PassOn(t: Thread, flag: seq<Value>, vs: seq<Value>, th: Tid)
    requires FrameOk(t)
    ensures var t' := Receive(t, flag + vs);
            && From(Stack(t'), |Stack(t)| + |flag|) == vs && t'.parent == t.parent && t'.wrapped == t.wrapped
            && SetKind(Without(t', |Stack(t')|), Again(th)).(parent := None, yielded := SystemYield) == Passed(t, th, false)
  {
    StackReceives(t, flag + vs);
    FromBehind(Stack(t), flag, vs);
  }

  lemma {:induction false} StackReceives(t: Thread, vs: seq<Value>)
    requires FrameOk(t)
    ensures var t' := Receive(t, vs);
            Stack(t') == Stack(t) + vs && Without(t', |Stack(t')|) == t.(regs := Upto(t.regs, Last(t).localBase))
  {
    var t' := Receive(t, vs);
    assert t'.regs[Last(t).localBase..] == t.regs[Last(t).localBase..] + vs;
    GiveUpStack(t');
    assert Upto(t'.regs, Last(t).localBase) == Upto(t.regs, Last(t).localBase);
  }

  lemma {:induction false} FromBehind(s: seq<Value>, flag: seq<Value>, vs: seq<Value>)
    ensures From(s + (flag + vs), |s| + |flag|) == vs
  {
    assert (s + (flag + vs))[|s| + |flag|..] == vs;
  }

  lemma {:induction false} PropagateOk(w: World, l: Tid, th: Tid, t: Thread, vs: seq<Value>, tail: bool)
    requires FrameOk(t) && (tail ==> |t.frames| >= 2) && t.parent.Some? && ParentOf(t) != l && Th(w, l) == Receive(t, Flag(Th(w, th), true) + vs)
    ensures var p, w' := ParentOf(t), Propagate(w, l, th, |Stack(t)|, tail);
            && Th(w', l) == Passed(t, th, tail) && Th(w', p) == Receive(Th(w, p), Flag(t, true) + vs) && w'.current == p
            && forall x :: x != l && x != p ==> Th(w', x) == Th(w, x)
  {
    PassOn(t, Flag(Th(w, th), true), vs, th);
  }

  /** However deep the nesting, and whichever calls were tail calls: the outermost
      resumer receives exactly the yielded values, in order, behind its flag, and runs
      again; every thread in between gave up its stack and will resume the next. */
  lemma {:induction false} YieldReachesResumer(w: World, m: Tid, ts: seq<Tid>, tails: seq<bool>)
    requires Nest(w, m, ts) && TailsOk(w, ts, tails)
    ensures var w' := YieldUp(w, ts, tails);
            && w'.current == m && Th(w', m) == Receive(Th(w, m), Flag(Th(w, ts[0]), true) + Stack(Th(w, Innermost(ts))))
            && Suspended(w, w', ts, tails) && forall x :: x != m && x !in ts ==> Th(w', x) == Th(w, x)
    decreases |ts|
  {
    assert tails[0] ==> |Th(w, ts[0]).frames| >= 2;
    if |ts| == 1 {
      YieldOk(w, ts[0], tails[0]);
    } else {
      InnermostTail(ts);
      TailsBelow(w, ts, tails);
      YieldReachesResumer(w, ts[0], ts[1..], tails[1..]);
      var w1 := YieldUp(w, ts[1..], tails[1..]);
      WrappedStays(w, w1, ts[1..], tails[1..]);
      PropagateOk(w1, ts[0], ts[1], Th(w, ts[0]), Stack(Th(w, Innermost(ts))), tails[0]);
      SuspendedFrame(w, w1, YieldUp(w, ts, tails), ts[1..], tails[1..]);
    }
  }

  lemma {:induction false} TailsBelow(w: World, ts: seq<Tid>, tails: seq<bool>)
    requires ts != [] && TailsOk(w, ts, tails)
    ensures TailsOk(w, ts[1..], tails[1..])
  {
    forall i | 0 <= i < |ts[1..]| && tails[1..][i] ensures |Th(w, ts[1..][i]).frames| >= 2 {
      assert tails[i + 1];
    }
  }

  lemma {:induction false} WrappedStays(w: World, w': World, ts: seq<Tid>, tails: seq<bool>)
    requires ts != [] && |tails| == |ts| && Suspended(w, w', ts, tails)
    ensures Th(w', ts[0]).wrapped == Th(w, ts[0]).wrapped
  {
  }

  // ----- the way down -----

  /** `m` resumes `ts[0]` with its last `n` values, which passes all it receives on. */
  function ResumeDown(w: World, m: Tid, ts: seq<Tid>, n: nat): World
    requires ts != []
    decreases |ts|
  {
    var w1 := Enter(w, m, ts[0], n);
    if |ts| == 1 then w1 else ResumeDown(w1, ts[0], ts[1..], |Stack(Th(w1, ts[0]))|)
  }

  /** Suspended threads, each to resume the next. */
  ghost predicate Chained(w: World, m: Tid, ts: seq<Tid>)
    decreases |ts|
  {
    && ts != [] && m !in ts
    && (|ts| > 1 ==> FrameOk(Th(w, ts[0])) && Last(Th(w, ts[0])).kind == Again(ts[1]) && Stack(Th(w, ts[0])) == [] && Chained(w, ts[0], ts[1..]))
  }

  lemma {:induction false} ChainedFrame(w: World, w': World, m: Tid, ts: seq<Tid>)
    requires Chained(w, m, ts) && forall x :: x in ts ==> Th(w', x) == Th(w, x)
    ensures Chained(w', m, ts)
    decreases |ts|
  {
    if |ts| > 1 {
      ChainedFrame(w, w', ts[0], ts[1..]);
    }
  }

  lemma {:induction false} SuspendedChained(w: World, w': World, m: Tid, ts: seq<Tid>, tails: seq<bool>)
    requires Nest(w, m, ts) && TailsOk(w, ts, tails) && Suspended(w, w', ts, tails)
    ensures Chained(w', m, ts)
    decreases |ts|
  {
    if |ts| > 1 {
      assert tails[0] ==> |Th(w, ts[0]).frames| >= 2;
      PassedReady(Th(w, ts[0]), ts[1], tails[0]);
      TailsBelow(w, ts, tails);
      SuspendedChained(w, w', ts[0], ts[1..], tails[1..]);
    }
  }

  /** The threads as a resumption with `args` leaves them: they wait for one another,
      and the last one has the arguments behind what it had. */
  ghost predicate Resumed(w: World, w': World, m: Tid, ts: seq<Tid>, args: seq<Value>)
    decreases |ts|
  {
    ts != [] ==>
      if |ts| == 1 then Th(w', ts[0]) == Receive(Th(w, ts[0]), args).(parent := Some(m), yielded := NotYielded)
      else
        && Th(w', ts[0]) == SetKind(Th(w, ts[0]), Resuming(ts[1])).(parent := Some(m), yielded := NotYielded)
        && Resumed(w, w', ts[0], ts[1..], args)
  }

  /** Only the threads below matter to what a resumption leaves there. */
  lemma {:induction false} ResumedFrame(w: World, w1: World, w': World, m: Tid, ts: seq<Tid>, args: seq<Value>)
    requires Resumed(w1, w', m, ts, args) && forall x :: x in ts ==> Th(w1, x) == Th(w, x)
    ensures Resumed(w, w', m, ts, args)
    decreases |ts|
  {
    if |ts| > 1 {
      ResumedFrame(w, w1, w', ts[0], ts[1..], args);
    }
  }

  lemma {:induction false} EnterOk(w: World, l: Tid, th: Tid, args: seq<Value>)
    requires l != th && |args| <= |Th(w, l).regs| && Moved(Th(w, l), |args|) == args
    ensures var w' := Enter(w, l, th, |args|);
            && Th(w', th) == Receive(Th(w, th), args).(parent := Some(l), yielded := NotYielded) && w'.current == th
            && Th(w', l) == SetKind(Without(Th(w, l), |args|), Resuming(th)) && forall x :: x != l && x != th ==> Th(w', x) == Th(w, x)
  {
  }

  lemma {:induction false} ReceivedArgs(t: Thread, args: seq<Value>, m: Tid)
    requires FrameOk(t) && Stack(t) == []
    ensures var t' := Receive(t, args).(parent := Some(m), yielded := NotYielded);
            Stack(t') == args && Moved(t', |args|) == args && Without(t', |args|) == t.(parent := Some(m), yielded := NotYielded)
  {
    var t' := Receive(t, args).(parent := Some(m), yielded := NotYielded);
    assert |t.regs| == Last(t).localBase;
    assert Upto(t'.regs, |t.regs|) == t.regs;
  }

  /** What the outermost thread is resumed with reaches the innermost, in order. */
  lemma {:induction false} ArgumentsReachInnermost(w: World, m: Tid, ts: seq<Tid>, args: seq<Value>)
    requires Chained(w, m, ts) && |args| <= |Th(w, m).regs| && Moved(Th(w, m), |args|) == args
    ensures var w' := ResumeDown(w, m, ts, |args|);
            && w'.current == Innermost(ts) && Resumed(w, w', m, ts, args)
            && Th(w', m) == SetKind(Without(Th(w, m), |args|), Resuming(ts[0]))
            && forall x :: x != m && x !in ts ==> Th(w', x) == Th(w, x)
    decreases |ts|
  {
    EnterOk(w, m, ts[0], args);
    if |ts| > 1 {
      InnermostTail(ts);
      var w1 := Enter(w, m, ts[0], |args|);
      ReceivedArgs(Th(w, ts[0]), args, m);
      ChainedFrame(w, w1, ts[0], ts[1..]);
      ArgumentsReachInnermost(w1, ts[0], ts[1..], args);
      ResumedFrame(w, w1, ResumeDown(w, m, ts, |args|), ts[0], ts[1..], args);
    }
  }

  lemma {:induction false} InnermostResumed(w: World, w1: World, w': World, m: Tid, ts: seq<Tid>, tails: seq<bool>, args: seq<Value>)
    requires ts != [] && |tails| == |ts| && Suspended(w, w1, ts, tails) && Resumed(w1, w', m, ts, args)
    ensures var l, t := Innermost(ts), Yielded(Th(w, Innermost(ts)), tails[|ts| - 1]); Th(w', l).regs == t.regs + args && Th(w', l).frames == t.frames
    decreases |ts|
  {
    if |ts| > 1 {
      InnermostTail(ts);
      InnermostResumed(w, w1, w', ts[0], ts[1..], tails[1..], args);
    }
  }

  /** Down and up again: after a system yield from any depth, and whatever the resumer
      does meanwhile without touching the suspended threads, the arguments of its
      next resumption lie in the thread that yielded from the base where the
      yielding call returns its results, with that call's frame gone. */
  lemma {:induction false} RoundTrip(w: World, w1: World, m: Tid, ts: seq<Tid>, tails: seq<bool>, args: seq<Value>)
    requires Nest(w, m, ts) && TailsOk(w, ts, tails)
    requires forall x :: x in ts ==> Th(w1, x) == Th(YieldUp(w, ts, tails), x)
    requires |args| <= |Th(w1, m).regs| && Moved(Th(w1, m), |args|) == args
    ensures var l, w', t := Innermost(ts), ResumeDown(w1, m, ts, |args|), Yielded(Th(w, Innermost(ts)), tails[|ts| - 1]);
            && w'.current == l && Th(w', l).regs == t.regs + args && Th(w', l).frames == t.frames && Resumed(w1, w', m, ts, args)
  {
    YieldReachesResumer(w, m, ts, tails);
    SuspendedFrame(w, YieldUp(w, ts, tails), w1, ts, tails);
    SuspendedChained(w, w1, m, ts, tails);
    ArgumentsReachInnermost(w1, m, ts, args);
    InnermostResumed(w, w1, ResumeDown(w1, m, ts, |args|), m, ts, tails, args);
  }

  // ----- the same in terms of registers -----

  lemma {:induction false} InnermostFrame(w: World, m: Tid, ts: seq<Tid>)
    requires Nest(w, m, ts)
    ensures FrameOk(Th(w, ts[|ts| - 1]))
    decreases |ts|
  {
    if |ts| > 1 {
      InnermostFrame(w, ts[0], ts[1..]);
    }
  }

  /** Behind what it had, the resumer of a yield at any depth finds `true`, unless the
      thread it resumed is wrapped, and then what the innermost thread had from the base
      of its last frame on. */
  lemma {:induction false} YieldValues(w: World, m: Tid, ts: seq<Tid>, tails: seq<bool>)
    requires Nest(w, m, ts) && TailsOk(w, ts, tails)
    ensures var w', t := YieldUp(w, ts, tails), Th(w, ts[|ts| - 1]);
            && w'.current == m && t.frames != [] && t.frames[|t.frames| - 1].localBase <= |t.regs|
            && Th(w', m).regs == Th(w, m).regs + (if Th(w, ts[0]).wrapped then [] else [True]) + t.regs[t.frames[|t.frames| - 1].localBase..]
            && Th(w', m).frames == Th(w, m).frames
  {
    InnermostFrame(w, m, ts);
    var t := Th(w, ts[|ts| - 1]);
    StackIs(t);
    assert YieldUp(w, ts, tails).current == m && Th(YieldUp(w, ts, tails), m) == Receive(Th(w, m), Flag(Th(w, ts[0]), true) + Stack(t)) by {
      YieldReachesResumer(w, m, ts, tails);
    }
    Behind(Th(w, m), Flag(Th(w, ts[0]), true), Stack(t));
  }

  lemma {:induction false} StackIs(t: Thread)
    requires FrameOk(t)
    ensures t.frames != [] && t.frames[|t.frames| - 1].returnBase <= t.frames[|t.frames| - 1].localBase <= |t.regs|
    ensures Stack(t) == t.regs[t.frames[|t.frames| - 1].localBase..]
  {
  }

  lemma {:induction false} Behind(t: Thread, a: seq<Value>, b: seq<Value>)
    ensures Receive(t, a + b).regs == t.regs + a + b && Receive(t, a + b).frames == t.frames
  {
    assert t.regs + (a + b) == t.regs + a + b;
  }

  /** A thread that yielded, in terms of its registers and frames before. */
  lemma {:induction false} YieldedIs(t: Thread, tail: bool)
    requires FrameOk(t) && (tail ==> |t.frames| >= 2)
    ensures var f, n, y := t.frames[|t.frames| - 1], if tail then |t.frames| - 2 else |t.frames| - 1, Yielded(t, tail);
            && y.regs == (if n == 0 then t.regs[..f.localBase] else t.regs[..f.returnBase])
            && y.frames == if n == 0 then [f.(kind := Results)] else t.frames[..n]
  {
  }

  /** After the next resumption the innermost thread has the arguments where the call
      that yielded returns its results, or, if that was its whole stack of frames, where
      that one had its own. */
  lemma {:induction false} ResumeValues(w: World, w1: World, m: Tid, ts: seq<Tid>, tails: seq<bool>, args: seq<Value>)
    requires Nest(w, m, ts) && TailsOk(w, ts, tails)
    requires forall x :: x in ts ==> Th(w1, x) == Th(YieldUp(w, ts, tails), x)
    requires |args| <= |Th(w1, m).regs| && Th(w1, m).regs[|Th(w1, m).regs| - |args|..] == args
    ensures var w', t := ResumeDown(w1, m, ts, |args|), Th(w, ts[|ts| - 1]);
            && t.frames != [] && var f := t.frames[|t.frames| - 1];
            && var n := if tails[|ts| - 1] then |t.frames| - 2 else |t.frames| - 1;
            && 0 <= n && f.returnBase <= f.localBase <= |t.regs| && w'.current == ts[|ts| - 1]
            && Th(w', w'.current).regs == (if n == 0 then t.regs[..f.localBase] else t.regs[..f.returnBase]) + args
            && Th(w', w'.current).frames == if n == 0 then [f.(kind := Results)] else t.frames[..n]
  {
    InnermostFrame(w, m, ts);
    var t, tail := Th(w, ts[|ts| - 1]), tails[|ts| - 1];
    StackIs(t);
    assert tail ==> |t.frames| >= 2;
    YieldedIs(t, tail);
    assert Moved(Th(w1, m), |args|) == args;
    var w' := ResumeDown(w1, m, ts, |args|);
    assert w'.current == Innermost(ts) && Th(w', Innermost(ts)).regs == Yielded(t, tail).regs + args && Th(w', Innermost(ts)).frames == Yielded(t, tail).frames by {
      RoundTrip(w, w1, m, ts, tails, args);
    }
  }
}
