/**
 The linked cells of `Upvalues` under whole programs. Every program that captures,
 writes and closes leaves the cells as the machine of `UpvalueRuns` says, so its
 closures see the variables they captured.
 */
module UpvalueCells {
  import opened Upvalues
  import opened UpvalueRuns

  lemma {:induction false} Inserted(s: seq<Upvalue>, k: nat, uv: Upvalue)
    requires k <= |s|
    ensures forall u :: u in s[..k] + [uv] + s[k..] <==> u == uv || u in s
  {
    assert s == s[..k] + s[k..];
  }

  lemma {:induction false} DistinctMore(s: seq<Upvalue>, uv: Upvalue)
    requires Distinct(s) && uv !in s
    ensures Distinct(s + [uv])
  {
    forall i, j | 0 <= i < j < |s + [uv]| ensures Differ(s + [uv], i, j) {
      assert j < |s| ==> Differ(s, i, j);
    }
  }

  /** A thread, its registers, and the cells that closures hold. */
  class Program {
    const thread: Thread
    const reg: Registers
    var captured: seq<Upvalue>
    ghost var cells: seq<Upvalue>
    ghost var m: Machine

    ghost predicate Valid()
      reads this, reg, thread, set i | 0 <= i < |cells| :: cells[i], set i | 0 <= i < |thread.open| :: thread.open[i]
    {
      && thread.Valid() && thread.reg == reg && m.slots == reg.slots && |cells| == |m.cells| && Distinct(cells)
      && (forall i :: 0 <= i < |thread.open| ==> thread.open[i] in cells)
      && (forall c :: 0 <= c < |cells| ==> CellOk(c, thread.open))
      && IndexOk() && CapturedOk(|captured|)
    }

    ghost predicate IndexOk()
      requires |cells| == |m.cells|
      reads this
    {
      forall i :: i in m.open ==> m.open[i] < |cells| && m.cells[m.open[i]] == Open(i)
    }

    ghost predicate CapturedOk(n: nat)
      reads this
    {
      n == |m.captured| <= |captured| && (forall k :: 0 <= k < n ==> m.captured[k] < |cells| && captured[k] == cells[m.captured[k]])
    }

    /** The cell object `c` is as the machine's cell. */
    ghost predicate CellOk(c: nat, open: seq<Upvalue>)
      requires c < |cells| == |m.cells|
      reads this, cells[c]
    {
      match m.cells[c]
      case Open(i) => cells[c] in open && cells[c].index == i && i < |m.slots| && i in m.open && m.open[i] == c
      case Closed(v) => cells[c] !in open && cells[c].closed && cells[c].value == v
    }

    constructor (n: nat)
      ensures Valid() && fresh(reg) && fresh(thread) && m == RunMachine(n, []) && cells == []
    {
      var r := new Registers(n);
      reg := r;
      thread := new Thread(r);
      captured, cells, m := [], [], Machine(r.slots, map[], [], []);
    }

    /** A register that the machine has an open cell for has one on the list. */
    lemma {:induction false} OpenRegister(i: nat)
      requires Valid()
      ensures i in m.open ==> exists j :: 0 <= j < |thread.open| && thread.open[j].index == i
    {
      if i in m.open {
        assert CellOk(m.open[i], thread.open);
      }
    }

    lemma {:induction false} Shown(k: nat)
      requires Valid() && k < |captured|
      ensures captured[k].Current() == CellValue(m, m.captured[k])
    {
      assert CellOk(m.captured[k], thread.open);
      if m.cells[m.captured[k]].Open? {
        thread.OnList(captured[k]);
      }
    }

    method Capture(i: nat)
      requires Valid()
      modifies this, thread, cells
      ensures Valid() && m == MachineStep(old(m), Op.Capture(i))
      ensures old(cells) <= cells && forall c :: |old(cells)| <= c < |cells| ==> fresh(cells[c])
    {
      if i >= |reg.slots| {
        return;
      }
      OpenRegister(i);
      var uv := thread.FindUpvalue(i);
      captured := captured + [uv];
      forall d | 0 <= d < |cells| ensures CellOk(d, old(thread.open)) {
        assert old(CellOk(d, thread.open));
      }
      Record(i, uv, old(thread.open));
    }

    /** What a capture did to the list `was`, recorded in the machine. */
    ghost method Record(i: nat, uv: Upvalue, was: seq<Upvalue>)
      requires thread.Valid() && thread.reg == reg && m.slots == reg.slots && |cells| == |m.cells| && Distinct(cells) && IndexOk()
      requires captured != [] && captured[|captured| - 1] == uv && CapturedOk(|captured| - 1)
      requires i < |m.slots| && uv in thread.open && uv.index == i && forall u :: u in was ==> u in cells
      requires forall d :: 0 <= d < |cells| ==> CellOk(d, was)
      requires uv in was ==> thread.open == was
      requires uv !in was ==> i !in m.open && uv !in cells && exists k :: 0 <= k <= |was| && thread.open == was[..k] + [uv] + was[k..]
      modifies `cells, `m
      ensures Valid() && m == MachineStep(old(m), Op.Capture(i)) && cells == if uv in was then old(cells) else old(cells) + [uv]
    {
      if uv in was {
        Recapture(i, uv);
      } else {
        var k :| 0 <= k <= |was| && thread.open == was[..k] + [uv] + was[k..];
        Inserted(was, k, uv);
        AddCell(i, uv, was);
      }
    }

    /** A register captured again: its cell is on the list. */
    ghost method Recapture(i: nat, uv: Upvalue)
      requires thread.Valid() && thread.reg == reg && m.slots == reg.slots && |cells| == |m.cells| && Distinct(cells) && IndexOk()
      requires captured != [] && captured[|captured| - 1] == uv && CapturedOk(|captured| - 1)
      requires i < |m.slots| && uv in thread.open && uv.index == i && forall j :: 0 <= j < |thread.open| ==> thread.open[j] in cells
      requires forall d :: 0 <= d < |cells| ==> CellOk(d, thread.open)
      modifies `m
      ensures Valid() && m == MachineStep(old(m), Op.Capture(i))
    {
      var c :| 0 <= c < |cells| && cells[c] == uv;
      assert CellOk(c, thread.open);
      m := MachineStep(m, Op.Capture(i));
      forall d | 0 <= d < |cells| ensures CellOk(d, thread.open) {
        assert old(CellOk(d, thread.open));
      }
    }

    /** The cell of a register captured for the first time, already on the list. */
    ghost method AddCell(i: nat, uv: Upvalue, was: seq<Upvalue>)
      requires thread.Valid() && thread.reg == reg && m.slots == reg.slots && |cells| == |m.cells| && Distinct(cells) && IndexOk()
      requires captured != [] && captured[|captured| - 1] == uv && CapturedOk(|captured| - 1)
      requires i < |m.slots| && i !in m.open && uv !in cells && uv.index == i
      requires (forall u :: u in thread.open <==> u == uv || u in was) && (forall u :: u in was ==> u in cells)
      requires forall c :: 0 <= c < |cells| ==> CellOk(c, was)
      modifies `cells, `m
      ensures Valid() && m == MachineStep(old(m), Op.Capture(i)) && cells == old(cells) + [uv]
    {
      DistinctMore(cells, uv);
      m := MachineStep(m, Op.Capture(i));
      cells := cells + [uv];
      forall d | 0 <= d < |cells| ensures CellOk(d, thread.open) {
        if d < |old(cells)| {
          assert old(CellOk(d, was));
        }
      }
    }

    method SetRegister(i: nat, v: Value)
      requires Valid()
      modifies this, reg
      ensures Valid() && m == MachineStep(old(m), Op.SetRegister(i, v)) && cells == old(cells)
    {
      if i < |reg.slots| {
        reg.Set(i, v);
      }
      m := MachineStep(m, Op.SetRegister(i, v));
      forall c | 0 <= c < |cells| ensures CellOk(c, thread.open) {
        assert old(CellOk(c, thread.open));
      }
    }

    method SetCaptured(k: nat, v: Value)
      requires Valid()
      modifies this, reg, cells
      ensures Valid() && m == MachineStep(old(m), Op.SetCaptured(k, v)) && cells == old(cells)
    {
      if k < |captured| {
        ghost var c := m.captured[k];
        assert CellOk(c, thread.open);
        if m.cells[c].Open? {
          thread.OnList(captured[k]);
        }
        captured[k].SetValue(v);
      }
      m := MachineStep(m, Op.SetCaptured(k, v));
      forall i | 0 <= i < |thread.open| ensures Link(thread.open, i, -1, null, reg) {
        assert old(Link(thread.open, i, -1, null, reg));
      }
      forall d | 0 <= d < |cells| ensures CellOk(d, thread.open) {
        assert old(CellOk(d, thread.open));
        if k < |captured| {
          OnlyAt(cells, m.captured[k]);
        }
      }
    }

    method Close(i: nat)
      requires Valid()
      modifies this, thread, cells
      ensures Valid() && m == MachineStep(old(m), Op.Close(i)) && cells == old(cells)
    {
      forall u | u in thread.open ensures !u.closed && u.reg == reg {
        thread.OnList(u);
      }
      thread.CloseUpvalues(i);
      m := MachineStep(m, Op.Close(i));
      forall d | 0 <= d < |cells| ensures CellOk(d, thread.open) {
        assert old(CellOk(d, thread.open));
        if old(m).cells[d].Open? {
          ghost var j :| 0 <= j < |old(thread.open)| && old(thread.open)[j] == cells[d];
        }
      }
    }
  }

  method Step(p: Program, op: Op)
    requires p.Valid()
    modifies p, p.reg, p.thread, p.cells
    ensures p.Valid() && p.m == MachineStep(old(p.m), op)
    ensures old(p.cells) <= p.cells && forall c :: |old(p.cells)| <= c < |p.cells| ==> fresh(p.cells[c])
  {
    match op
    case Capture(i) => p.Capture(i);
    case SetRegister(i, v) => p.SetRegister(i, v);
    case SetCaptured(k, v) => p.SetCaptured(k, v);
    case Close(i) => p.Close(i);
  }

  method RunAll(n: nat, ops: seq<Op>) returns (p: Program)
    ensures p.Valid() && p.m == RunMachine(n, ops)
  {
    p := new Program(n);
    for i := 0 to |ops|
      invariant p.Valid() && p.m == RunMachine(n, ops[..i])
      invariant fresh(p) && fresh(p.reg) && fresh(p.thread) && forall c :: 0 <= c < |p.cells| ==> fresh(p.cells[c])
    {
      Step(p, ops[i]);
      assert ops[..i + 1][..i] == ops[..i];
    }
    assert ops[..|ops|] == ops;
  }

  /** After any program, registers and captured cells hold what the variables in their
      own boxes hold, and two captures share a cell exactly if they share a variable. */
  method RunProgram(n: nat, ops: seq<Op>) returns (p: Program)
    ensures p.Valid()
    ensures var r := RunReference(n, ops);
            && |p.reg.slots| == |r.boxes| && (forall i :: 0 <= i < |r.boxes| ==> p.reg.slots[i] == BoxValue(r, r.boxes[i]))
            && |p.captured| == |r.captured|
            && (forall k :: 0 <= k < |r.captured| ==> p.captured[k].Current() == BoxValue(r, r.captured[k]))
            && (forall k, l :: 0 <= k < |r.captured| && 0 <= l < |r.captured| ==> (p.captured[k] == p.captured[l] <==> r.captured[k] == r.captured[l]))
  {
    p := RunAll(n, ops);
    RunsAgree(n, ops);
    forall k | 0 <= k < |p.captured| ensures p.captured[k].Current() == CellValue(p.m, p.m.captured[k]) {
      p.Shown(k);
    }
    forall k, l | 0 <= k < |p.captured| && 0 <= l < |p.captured| ensures p.captured[k] == p.captured[l] <==> p.m.captured[k] == p.m.captured[l] {
      OnlyAt(p.cells, p.m.captured[k]);
    }
  }
}
