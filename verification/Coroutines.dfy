/**
 Coroutines as a step system (coroutinelib.go, vm.go, state.go): threads with their
 frames and registers, and the operations that move values and control between
 them.
 */
module Coroutines {

  type Tid = nat

  datatype Option<T> = None | Some(value: T)

  datatype Value = Nil | True | False | ThreadRef(t: Tid) | Datum(id: nat)

  /** A frame runs Lua code or a native function. Native frames worth telling apart:
      `Resuming` waits in coroutine.resume for a thread; `Again` will resume that
      thread once more when its own thread is resumed; `Results` will return what it
      is resumed with. */
  datatype Kind = Lua | Native | Resuming(inner: Tid) | Again(inner: Tid) | Results

  /** Values of a frame lie from `localBase` on, its results go to `returnBase`. */
  datatype Frame = Frame(kind: Kind, localBase: nat, returnBase: nat)

  datatype Yield = NotYielded | UserYield | SystemYield

  /** `regs` are the registers below the top. */
  datatype Thread = Thread(
    regs: seq<Value>,
    frames: seq<Frame>,
    dead: bool,
    wrapped: bool,
    yielded: Yield,
    parent: Option<Tid>)

  datatype World = World(threads: map<Tid, Thread>, current: Tid, main: Tid)

  /** The thread `t`; one that does not exist has no frames. */
  function Th(w: World, t: Tid): Thread {
    if t in w.threads then w.threads[t] else Thread([], [], true, false, NotYielded, None)
  }

  function Put(w: World, t: Tid, x: Thread): World {
    w.(threads := w.threads[t := x])
  }

  function Last(t: Thread): Frame {
    if t.frames == [] then Frame(Native, 0, 0) else t.frames[|t.frames| - 1]
  }

  predicate FrameOk(t: Thread) {
    t.frames != [] && Last(t).returnBase <= Last(t).localBase <= |t.regs|
  }

  function Upto(s: seq<Value>, n: int): seq<Value> {
    if n <= 0 then [] else if n >= |s| then s else s[..n]
  }

  function From(s: seq<Value>, n: int): seq<Value> {
    if n <= 0 then s else if n >= |s| then [] else s[n..]
  }

  /** What the function on top sees as its stack. */
  function Stack(t: Thread): seq<Value> {
    From(t.regs, Last(t).localBase)
  }

  function SetKind(t: Thread, k: Kind): Thread {
    if t.frames == [] then t else t.(frames := t.frames[..|t.frames| - 1] + [Last(t).(kind := k)])
  }

  /** What the resumer of a thread finds before the values: a wrapped thread shows
      its values alone. */
  function Flag(t: Thread, ok: bool): seq<Value> {
    if t.wrapped then [] else [if ok then True else False]
  }

  /** The last `n` registers, which move to another thread, and what is left. */
  function Moved(t: Thread, n: nat): seq<Value> {
    From(t.regs, |t.regs| - n)
  }

  function Without(t: Thread, n: nat): Thread {
    t.(regs := Upto(t.regs, |t.regs| - n))
  }

  function Receive(t: Thread, vs: seq<Value>): Thread {
    t.(regs := t.regs + vs)
  }

  /** The resumer of a thread. */
  function ParentOf(t: Thread): Tid {
    if t.parent.Some? then t.parent.value else 0
  }

  // ----- back to the resumer -----

  /** The frame on top goes, and with it its part of the registers. */
  function PopFrame(t: Thread): Thread {
    if t.frames == [] then t else
    t.(frames := t.frames[..|t.frames| - 1], regs := Upto(t.regs, |t.regs| - (Last(t).localBase - Last(t).returnBase)))
  }

  function Kill(t: Thread): Thread {
    t.(dead := true, yielded := NotYielded)
  }

  /** `switchToParentThread` from thread `l` with `n` values; `l` has a parent. */
  function SwitchToParent(w: World, l: Tid, n: nat, failed: bool, kill: bool): World {
    var t, p := Th(w, l), ParentOf(Th(w, l));
    var t1 := PopFrame(Without(t, n)).(parent := None);
    var t2 := if kill then Kill(t1) else if !failed && t.yielded.NotYielded? then t1.(yielded := SystemYield) else t1;
    Put(Put(w, p, Receive(Th(w, p), Flag(t, !failed) + Moved(t, n))), l, t2).(current := p)
  }

  /** `preserveSoleGoYield`: the only frame stays and will return what it is resumed
      with. */
  function PreserveSole(w: World, l: Tid): World {
    var t, p := Th(w, l), ParentOf(Th(w, l));
    var n := |Stack(t)|;
    var t1 := SetKind(Without(t, n), Results).(parent := None, yielded := SystemYield);
    Put(Put(w, p, Receive(Th(w, p), Flag(t, true) + Moved(t, n))), l, t1).(current := p)
  }

  /** `removeCallerFrame`: the callee of a tail call takes the place of its caller. */
  function Collapse(t: Thread): Thread {
    if |t.frames| < 2 then t else t.(frames := t.frames[..|t.frames| - 2] + [Last(t)])
  }

  /** A native function on top of thread `l` yields its stack; `tail` if it was tail
      called. */
  function YieldHere(w: World, l: Tid, user: bool, tail: bool): World {
    var w1 := if tail then Put(w, l, Collapse(Th(w, l))) else w;
    var w2 := if |Th(w1, l).frames| == 1 then PreserveSole(w1, l) else SwitchToParent(w1, l, |Stack(Th(w1, l))|, false, false);
    if user then Put(w2, l, Th(w2, l).(yielded := UserYield)) else w2
  }

  /** `coResumePropagate` in thread `l`, whose frame on top waited for `th` with `top`
      values on its stack: what `th` yielded goes on to the parent of `l`; `tail` if
      the call that waited was a tail call. */
  function Propagate(w: World, l: Tid, th: Tid, top: nat, tail: bool): World {
    var t, p := Th(w, l), ParentOf(Th(w, l));
    var vs := From(Stack(t), top + |Flag(Th(w, th), true)|);
    var t1 := SetKind(Without(t, |Stack(t)|), Again(th)).(parent := None, yielded := SystemYield);
    Put(Put(w, p, Receive(Th(w, p), Flag(t, true) + vs)), l, if tail then Collapse(t1) else t1).(current := p)
  }

  // ----- on to the resumed thread -----

  /** Thread `l` resumes `th` with its last `n` values: `coResume`, and with all its
      stack `coResumeContinuation`. */
  function Enter(w: World, l: Tid, th: Tid, n: nat): World {
    var t := Th(w, l);
    Put(Put(w, l, SetKind(Without(t, n), Resuming(th))), th, Receive(Th(w, th), Moved(t, n)).(parent := Some(l), yielded := NotYielded)).(current := th)
  }
}
