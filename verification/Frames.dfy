/**
 Register windows of calls (state.go, vm.go, registry.go): how a call, a tail call
 and the vararg instruction place arguments in the register array.
 */
module Frames {

  datatype Value = Nil | Datum(id: nat)

  /** The shape of a callee. The compiler counts at least one register more than
      there are parameters. */
  datatype Proto = Proto(numParameters: nat, isVarArg: bool, numUsedRegisters: nat)

  ghost predicate Compiled(p: Proto) {
    p.numUsedRegisters > p.numParameters
  }

  datatype Frame = Frame(base: nat, localBase: nat, nargs: nat)

  function Max(a: nat, b: nat): nat {
    if a < b then b else a
  }

  /** The argument a parameter receives: missing ones are nil. */
  function Arg(args: seq<Value>, i: nat): Value {
    if i < |args| then args[i] else Nil
  }

  /** The register `i`, if it lies below `bound`. */
  function Below(s: seq<Value>, i: int, bound: int): Value {
    if 0 <= i < bound && i < |s| then s[i] else Nil
  }

  /** The register `j` after an upward loop has copied the registers from `start` to
      those from `to`: it reads what the loop has already written. */
  function Copied(s: seq<Value>, to: nat, start: int, bound: int, j: nat): Value
    requires to <= j
    decreases j
  {
    var k := start + (j - to);
    if k >= bound then Nil
    else if to <= k < j then Copied(s, to, start, bound, k)
    else Below(s, k, bound)
  }

  /** The target does not begin inside the part of the range that is still read. */
  predicate MovesPlainly(to: nat, start: int, bound: int, n: nat) {
    to <= start || start + n <= to || bound <= to
  }

  /** Exactly then the copy is a move, whatever the registers hold. */
  lemma {:induction false} MovesExactlyIf(to: nat, start: int, bound: nat, n: nat)
    ensures MovesPlainly(to, start, bound, n) <==> forall s {:trigger Moves(s, to, start, bound, n)} :: |s| >= bound ==> Moves(s, to, start, bound, n)
  {
    if !MovesPlainly(to, start, bound, n) {
      var s, j := seq(bound, i requires 0 <= i < bound => Datum(i)), to + (to - start);
      assert Copied(s, to, start, bound, to) == Below(s, start, bound);
      assert Copied(s, to, start, bound, j) == Below(s, start, bound) != s[to] == Below(s, start + (j - to), bound);
      assert !Moves(s, to, start, bound, n);
    }
  }

  lemma {:induction false} PlainCopy(s: seq<Value>, to: nat, start: int, bound: int, n: nat)
    ensures MovesPlainly(to, start, bound, n) ==> Moves(s, to, start, bound, n)
  {
  }

  ghost predicate Moves(s: seq<Value>, to: nat, start: int, bound: int, n: nat) {
    forall j :: to <= j < to + n ==> Copied(s, to, start, bound, j) == Below(s, start + (j - to), bound)
  }

  /** Otherwise the registers between `start` and `to` are repeated. */
  lemma {:induction false} CopyRepeats(s: seq<Value>, to: nat, start: int, bound: int, j: nat)
    requires start < to <= j && to <= bound
    ensures Copied(s, to, start, bound, j)
            == if start + (j - to) >= bound then Nil
               else var k := start + (j - to) % (to - start); if 0 <= k < |s| then s[k] else Nil
    decreases j
  {
    var k := start + (j - to);
    if to <= k < bound {
      CopyRepeats(s, to, start, bound, k);
      Period(j - to, to - start);
      assert k - to == (j - to) - (to - start);
    } else if k < to {
      SmallMod(j - to, to - start);
    }
  }

  lemma {:induction false} SmallMod(a: nat, m: int)
    requires a < m
    ensures a % m == a
  {
  }

  lemma {:induction false} Period(a: int, m: int)
    requires m > 0
    ensures (a - m) % m == a % m
  {
    var q, q' := a / m, (a - m) / m;
    assert a == m * q + a % m && a - m == m * q' + (a - m) % m;
    var d := q - 1 - q';
    assert m * d == m * q - m - m * q';
    Multiple(m, d);
  }

  lemma {:induction false} Multiple(m: int, d: int)
    requires m > 0
    ensures (d >= 1 ==> m * d >= m) && (d <= -1 ==> m * d <= 0 - m)
  {
    if d >= 1 {
      assert m * (d - 1) >= 0;
    } else if d <= -1 {
      assert m * (-1 - d) >= 0;
    }
  }

  /** The arguments beyond the parameters. */
  function Extra(p: Proto, args: seq<Value>): seq<Value> {
    if |args| <= p.numParameters then [] else args[p.numParameters..]
  }

  /** A frame entered with `args`: parameters are the first registers of its window,
      and a vararg function keeps the extra arguments right below. */
  ghost predicate Entered(slots: seq<Value>, top: nat, f: Frame, p: Proto, args: seq<Value>) {
    HasParameters(slots, top, f, p, args) && HasExtra(slots, top, f, p, args)
  }

  /** The parameters hold the arguments, as they do until the function assigns them. */
  ghost predicate HasParameters(slots: seq<Value>, top: nat, f: Frame, p: Proto, args: seq<Value>) {
    && f.localBase + p.numParameters <= |slots| && f.localBase + p.numParameters <= top
    && (forall i :: f.localBase <= i < f.localBase + p.numParameters ==> slots[i] == Arg(args, i - f.localBase))
  }

  /** The extra arguments lie below the window, out of reach of the function. */
  ghost predicate HasExtra(slots: seq<Value>, top: nat, f: Frame, p: Proto, args: seq<Value>) {
    && f.nargs == |args| && f.localBase == f.base + 1 + (if p.isVarArg then Max(|args|, p.numParameters) else 0)
    && f.localBase <= |slots| && f.localBase <= top
    && (p.isVarArg ==> forall i :: f.base + 1 + p.numParameters <= i < f.localBase ==> slots[i] == Arg(args, i - f.base - 1))
  }

  /** What an entered frame holds, register by register. */
  lemma {:induction false} EnteredIs(slots: seq<Value>, top: nat, f: Frame, p: Proto, args: seq<Value>, i: nat)
    requires Entered(slots, top, f, p, args)
    ensures i < p.numParameters ==> f.localBase + i < |slots| && slots[f.localBase + i] == if i < |args| then args[i] else Nil
    ensures !p.isVarArg ==> f.localBase == f.base + 1
    ensures p.isVarArg ==> f.localBase == f.base + 1 + (if |args| >= p.numParameters then |args| else p.numParameters)
    ensures p.isVarArg && p.numParameters <= i < |args| ==> f.base + 1 + i < |slots| && slots[f.base + 1 + i] == args[i]
  {
    if i < p.numParameters {
      assert slots[f.localBase + i] == Arg(args, i);
    }
    if p.isVarArg && p.numParameters <= i < |args| {
      assert slots[f.base + 1 + i] == Arg(args, i);
    }
  }

  /** The extra arguments are those from the number of parameters on, and nil beyond. */
  lemma {:induction false} ExtraIs(p: Proto, args: seq<Value>, i: nat)
    ensures |Extra(p, args)| == if |args| >= p.numParameters then |args| - p.numParameters else 0
    ensures Arg(Extra(p, args), i) == if p.numParameters + i < |args| then args[p.numParameters + i] else Nil
  {
  }

  /** Whatever happens to the registers of the window, the extra arguments stay. */
  lemma {:induction false} ExtraStays(slots: seq<Value>, top: nat, f: Frame, p: Proto, args: seq<Value>, slots': seq<Value>, top': nat)
    requires HasExtra(slots, top, f, p, args) && f.localBase <= |slots'| && f.localBase <= top'
    requires forall i :: 0 <= i < f.localBase ==> slots'[i] == slots[i]
    ensures HasExtra(slots', top', f, p, args)
  {
  }

  class Registry {
    var slots: seq<Value>
    var top: nat

    ghost predicate Valid()
      reads this
    {
      top <= |slots|
    }

    constructor (size: nat)
      ensures Valid() && top == 0 && |slots| == size
    {
      slots, top := seq(size, _ => Nil), 0;
    }

    /** Room for `n` registers; growing keeps only what is below the top. */
    method CheckSize(n: nat)
      requires Valid()
      modifies `slots
      ensures Valid() && |slots| == Max(n, |old(slots)|)
      ensures forall i :: 0 <= i < top ==> slots[i] == old(slots)[i]
      ensures n <= |old(slots)| ==> slots == old(slots)
    {
      if n > |slots| {
        slots := slots[..top] + seq(n - top, _ => Nil);
      }
    }

    method Clear(from: nat, to: nat)
      requires from <= to <= |slots|
      modifies `slots
      ensures |slots| == |old(slots)|
      ensures forall i :: 0 <= i < |slots| ==> slots[i] == if from <= i < to then Nil else old(slots)[i]
    {
      for i := from to to
        invariant |slots| == |old(slots)|
        invariant forall j :: 0 <= j < |slots| ==> slots[j] == if from <= j < i then Nil else old(slots)[j]
      {
        slots := slots[i := Nil];
      }
    }

    /** New registers are nil, and so are those given up. */
    method SetTop(n: nat)
      requires Valid()
      modifies this
      ensures Valid() && top == n && |slots| == Max(n, |old(slots)|)
      ensures forall i :: 0 <= i < n ==> slots[i] == if i < old(top) then old(slots)[i] else Nil
    {
      CheckSize(n);
      var was := top;
      top := n;
      if was < n {
        Clear(was, n);
      } else {
        Clear(n, was);
      }
    }

    /** Move `n` registers from `start` down or up to `to`; what lies at or beyond
        `limit`, or the top if that is -1, counts as nil; the top ends behind the copy. */
    method CopyRange(to: nat, start: int, limit: int, n: nat)
      requires Valid()
      modifies this
      ensures Valid() && top == to + n && |slots| == Max(to + n, |old(slots)|)
      ensures forall i :: 0 <= i < to && i < old(top) ==> slots[i] == old(slots)[i]
      ensures var bound := if limit == -1 || limit > old(top) then old(top) else limit;
              && (forall j :: to <= j < to + n ==> slots[j] == Copied(old(slots), to, start, bound, j))
              && (MovesPlainly(to, start, bound, n) ==> forall j :: to <= j < to + n ==> slots[j] == Below(old(slots), start + (j - to), bound))
    {
      CheckSize(to + n);
      var bound := if limit == -1 || limit > top then top else limit;
      CopyUp(to, start, bound, n, old(slots));
      PlainCopy(old(slots), to, start, bound, n);
      var was := top;
      top := to + n;
      if top < was {
        Clear(top, was);
      }
    }

    /** The loop of a range copy; `s` are the registers before. */
    method CopyUp(to: nat, start: int, bound: int, n: nat, ghost s: seq<Value>)
      requires Valid() && to + n <= |slots| && bound <= top <= |s| && forall i :: 0 <= i < top ==> slots[i] == s[i]
      modifies `slots
      ensures |slots| == |old(slots)| && forall j :: to <= j < to + n ==> slots[j] == Copied(s, to, start, bound, j)
      ensures forall j :: 0 <= j < top && !(to <= j < to + n) ==> slots[j] == s[j]
    {
      for i := 0 to n
        invariant |slots| == |old(slots)|
        invariant forall j :: 0 <= j < top && !(to <= j < to + i) ==> slots[j] == s[j]
        invariant forall j :: to <= j < to + i ==> slots[j] == Copied(s, to, start, bound, j)
      {
        slots := slots[to + i := if start + i >= bound || start + i < 0 then Nil else slots[start + i]];
      }
    }

    /** Registers from `from` on are nil, `n` of them, and then the top. */
    method FillNil(from: nat, n: nat)
      requires Valid()
      modifies this
      ensures Valid() && top == from + n && |slots| == Max(from + n, |old(slots)|)
      ensures forall i :: from <= i < top ==> slots[i] == Nil
      ensures forall i :: 0 <= i < from && i < old(top) ==> slots[i] == old(slots)[i]
    {
      CheckSize(from + n);
      Clear(from, from + n);
      var was := top;
      top := from + n;
      if top < was {
        Clear(top, was);
      }
    }

    /** The window of a Lua function whose arguments lie from the local base on. */
    method InitCallFrame(f: Frame, p: Proto, ghost args: seq<Value>) returns (g: Frame)
      requires Valid() && Compiled(p) && f.localBase == f.base + 1 && f.nargs == |args| && f.localBase + |args| <= top
      requires forall i :: f.localBase <= i < f.localBase + |args| ==> slots[i] == args[i - f.localBase]
      modifies this
      ensures Valid() && g.base == f.base && Entered(slots, top, g, p, args) && top == g.localBase + p.numUsedRegisters
      ensures forall i :: 0 <= i <= f.base ==> slots[i] == old(slots)[i]
    {
      var nargs, np := f.nargs, p.numParameters;
      if nargs < np {
        PadArguments(f, np);
        nargs := np;
      }
      if !p.isVarArg {
        g := f;
        FixWindow(f.localBase, nargs, p);
      } else {
        g := f.(localBase := f.localBase + nargs);
        SwapWindow(f.localBase, nargs, p);
      }
    }

    /** With varargs, the window starts above all arguments. */
    method SwapWindow(localBase: nat, nargs: nat, p: Proto)
      requires Valid() && localBase + nargs <= top && p.numParameters <= nargs && Compiled(p)
      modifies this
      ensures Valid() && top == localBase + nargs + p.numUsedRegisters
      ensures forall i :: 0 <= i < localBase || localBase + p.numParameters <= i < localBase + nargs ==> slots[i] == old(slots)[i]
      ensures forall i :: localBase + nargs <= i < localBase + nargs + p.numParameters ==> slots[i] == old(slots)[i - nargs]
    {
      SetTop(localBase + nargs + p.numParameters);
      MoveParameters(localBase, nargs, p.numParameters);
      SetTop(localBase + nargs + p.numUsedRegisters);
    }

    method PadArguments(f: Frame, np: nat)
      requires Valid() && f.nargs < np && f.localBase + f.nargs <= top
      modifies this
      ensures Valid() && top == f.localBase + np
      ensures forall i :: 0 <= i < f.localBase + f.nargs ==> slots[i] == old(slots)[i]
      ensures forall i :: f.localBase + f.nargs <= i < f.localBase + np ==> slots[i] == Nil
    {
      CheckSize(f.localBase + np);
      Clear(f.localBase + f.nargs, f.localBase + np);
      top := f.localBase + np;
    }

    /** Without varargs, arguments beyond the parameters become nil. */
    method FixWindow(localBase: nat, nargs: nat, p: Proto)
      requires Valid() && localBase + nargs <= top && p.numParameters <= nargs && Compiled(p)
      modifies this
      ensures Valid() && top == localBase + p.numUsedRegisters
      ensures forall i :: 0 <= i < localBase + p.numParameters ==> slots[i] == old(slots)[i]
      ensures forall i :: localBase + p.numParameters <= i < top ==> slots[i] == Nil
    {
      var n := Max(nargs, p.numUsedRegisters);
      CheckSize(localBase + n);
      Clear(localBase + p.numParameters, localBase + n);
      top := localBase + p.numUsedRegisters;
    }

    /** Parameters move above the other arguments and leave nils behind. */
    method MoveParameters(localBase: nat, nargs: nat, np: nat)
      requires Valid() && np <= nargs && localBase + nargs + np <= top
      modifies `slots
      ensures Valid() && |slots| == |old(slots)|
      ensures forall i :: 0 <= i < localBase || localBase + np <= i < localBase + nargs ==> slots[i] == old(slots)[i]
      ensures forall i :: localBase + nargs <= i < localBase + nargs + np ==> slots[i] == old(slots)[i - nargs]
    {
      for i := 0 to np
        invariant |slots| == |old(slots)|
        invariant forall j :: 0 <= j < localBase || localBase + i <= j < localBase + nargs ==> slots[j] == old(slots)[j]
        invariant forall j :: localBase + nargs <= j < localBase + nargs + i ==> slots[j] == old(slots)[j - nargs]
      {
        slots := slots[localBase + nargs + i := slots[localBase + i]];
        slots := slots[localBase + i := Nil];
      }
    }

    method Set(i: nat, v: Value)
      requires Valid()
      modifies this
      ensures Valid() && top == Max(i + 1, old(top)) && slots[i] == v
      ensures forall j :: 0 <= j < old(top) && j != i ==> slots[j] == old(slots)[j]
    {
      CheckSize(i + 1);
      slots := slots[i := v];
      if i >= top {
        top := i + 1;
      }
    }

    /** A new register at `at`; those from there on move up. */
    method Insert(v: Value, at: nat)
      requires Valid()
      modifies this
      ensures Valid() && top == Max(at, old(top)) + 1 && slots[at] == v
      ensures forall j :: 0 <= j < at && j < old(top) ==> slots[j] == old(slots)[j]
      ensures forall j :: at < j < top ==> slots[j] == old(slots)[j - 1]
    {
      if at >= top {
        Set(at, v);
        return;
      }
      var t := top - 1;
      while t >= at
        invariant Valid() && at - 1 <= t < old(top) && top == (if t == old(top) - 1 then old(top) else old(top) + 1)
        invariant forall j :: 0 <= j <= t ==> slots[j] == old(slots)[j]
        invariant forall j :: t + 1 < j < top ==> slots[j] == old(slots)[j - 1]
      {
        Set(t + 1, slots[t]);
        t := t - 1;
      }
      Set(at, v);
    }

    /** What the callee is called with: a callable that is not a function comes first. */
    ghost function ArgsOf(ra: nat, nargs: nat, meta: bool): seq<Value>
      reads this
      requires ra + 1 + nargs <= |slots|
    {
      if meta then slots[ra..ra + 1 + nargs] else slots[ra + 1..ra + 1 + nargs]
    }

    /** The window of the callee at `ra`, above the registers of the caller. */
    method Enter(ra: nat, nargs: nat, meta: bool, p: Proto) returns (g: Frame)
      requires Valid() && Compiled(p) && ra + 1 + nargs <= top
      modifies this
      ensures Valid() && g.base == ra && Entered(slots, top, g, p, old(ArgsOf(ra, nargs, meta))) && top == g.localBase + p.numUsedRegisters
      ensures forall i :: 0 <= i <= ra ==> slots[i] == old(slots)[i]
    {
      ghost var args := ArgsOf(ra, nargs, meta);
      if meta {
        Insert(slots[ra], ra + 1);
      }
      g := InitCallFrame(Frame(ra, ra + 1, if meta then nargs + 1 else nargs), p, args);
    }

    /** CALL: the callee is at `ra`, its arguments above it. */
    method Call(ra: nat, nargs: nat, meta: bool, p: Proto) returns (g: Frame)
      requires Valid() && Compiled(p) && ra + 1 + nargs <= top
      modifies this
      ensures Valid() && g.base == ra && Entered(slots, top, g, p, old(ArgsOf(ra, nargs, meta)))
      ensures forall i :: 0 <= i <= ra ==> slots[i] == old(slots)[i]
    {
      g := Enter(ra, nargs, meta, p);
    }

    /** TAILCALL of a Lua function: the window is made above the caller's and then
        moved down over it. */
    method TailCall(base: nat, ra: nat, nargs: nat, meta: bool, p: Proto) returns (g: Frame)
      requires Valid() && Compiled(p) && base < ra && ra + 1 + nargs <= top
      modifies this
      ensures Valid() && g.base == base && Entered(slots, top, g, p, old(ArgsOf(ra, nargs, meta)))
      ensures slots[base] == old(slots)[ra] && forall i :: 0 <= i < base ==> slots[i] == old(slots)[i]
    {
      ghost var args := ArgsOf(ra, nargs, meta);
      g := Enter(ra, nargs, meta, p);
      g := MoveDown(base, g, p, args);
    }

    method MoveDown(base: nat, f: Frame, p: Proto, ghost args: seq<Value>) returns (g: Frame)
      requires Valid() && Compiled(p) && base < f.base && Entered(slots, top, f, p, args) && top == f.localBase + p.numUsedRegisters
      modifies this
      ensures Valid() && g.base == base && Entered(slots, top, g, p, args)
      ensures slots[base] == old(slots)[f.base] && forall i :: 0 <= i < base ==> slots[i] == old(slots)[i]
    {
      CopyRange(base, f.base, top, top - f.base - 1);
      ShiftDown(old(slots), slots, f, p, args, base, old(top), top);
      g := Frame(base, base + (f.localBase - (f.base + 1)) + 1, f.nargs);
    }

    /** A function assigns one of its registers, a parameter for instance. */
    method Assign(f: Frame, ghost p: Proto, r: nat, v: Value, ghost args: seq<Value>)
      requires Valid() && HasExtra(slots, top, f, p, args)
      modifies this
      ensures Valid() && HasExtra(slots, top, f, p, args) && top == Max(f.localBase + r + 1, old(top)) && slots[f.localBase + r] == v
      ensures forall i :: 0 <= i < old(top) && i != f.localBase + r ==> slots[i] == old(slots)[i]
    {
      Set(f.localBase + r, v);
      ExtraStays(old(slots), old(top), f, p, args, slots, top);
    }

    /** VARARG: the extra arguments, or as many as wanted, to the registers from `ra`,
        at any time while the frame runs and as often as it likes. */
    method VarArg(f: Frame, p: Proto, ra: nat, want: nat, all: bool, ghost args: seq<Value>)
      requires Valid() && p.isVarArg && HasExtra(slots, top, f, p, args) && f.localBase <= ra
      modifies this
      ensures HasExtra(slots, top, f, p, args)
      ensures Valid() && var x := Extra(p, args); var n := if all then |x| else want;
              && top == ra + n && (forall j :: ra <= j < ra + n ==> slots[j] == Arg(x, j - ra))
      ensures forall i :: 0 <= i < ra && i < old(top) ==> slots[i] == old(slots)[i]
    {
      var nvarargs := if f.nargs < p.numParameters then 0 else f.nargs - p.numParameters;
      var n := if all then nvarargs else want;
      CopyRange(ra, f.base + p.numParameters + 1, f.localBase, n);
    }
  }

  /** A window copied as a whole means the same further down. */
  lemma {:induction false} ShiftDown(made: seq<Value>, slots: seq<Value>, f: Frame, p: Proto, args: seq<Value>, base: nat, was: nat, top: nat)
    requires Entered(made, was, f, p, args) && Compiled(p) && was == f.localBase + p.numUsedRegisters && was <= |made|
    requires base < f.base && top == base + (was - f.base - 1) && top <= |slots|
    requires forall j :: base <= j < top ==> slots[j] == Below(made, f.base + (j - base), was)
    ensures Entered(slots, top, Frame(base, base + (f.localBase - (f.base + 1)) + 1, f.nargs), p, args)
  {
    var g := Frame(base, base + (f.localBase - (f.base + 1)) + 1, f.nargs);
    forall i | base < i < g.localBase + p.numParameters ensures slots[i] == made[f.base + (i - base)] {
    }
  }
}
