/**
 Captured variables over whole runs. The machine keeps open cells over registers and
 closes them (as `Upvalues` does); the reference gives every variable a box of its
 own from the start. No run can tell the two apart.
 */
module UpvalueRuns {
  import opened Upvalues

  /** What a program does: a closure captures register `i`, a register or a captured
      variable is written, all registers from `i` on go out of scope. Captured
      variables are named by the order of their captures. */
  datatype Op = Capture(i: nat) | SetRegister(i: nat, v: Value) | SetCaptured(k: nat, v: Value) | Close(i: nat)

  // ----- the machine -----

  datatype Cell = Open(index: nat) | Closed(value: Value)

  datatype Machine = Machine(slots: seq<Value>, open: map<nat, nat>, cells: seq<Cell>, captured: seq<nat>)

  function CellValue(m: Machine, c: nat): Value
    requires c < |m.cells|
  {
    match m.cells[c]
    case Open(i) => if i < |m.slots| then m.slots[i] else Nil
    case Closed(v) => v
  }

  function CloseCells(m: Machine, from: nat): seq<Cell> {
    seq(|m.cells|, c requires 0 <= c < |m.cells| =>
      if m.cells[c].Open? && m.cells[c].index >= from then Closed(CellValue(m, c)) else m.cells[c])
  }

  function MachineStep(m: Machine, op: Op): Machine {
    match op
    case Capture(i) =>
      if i >= |m.slots| then m
      else if i in m.open then m.(captured := m.captured + [m.open[i]])
      else m.(open := m.open[i := |m.cells|], cells := m.cells + [Open(i)], captured := m.captured + [|m.cells|])
    case SetRegister(i, v) => if i < |m.slots| then m.(slots := m.slots[i := v]) else m
    case SetCaptured(k, v) =>
      if k >= |m.captured| || m.captured[k] >= |m.cells| then m else
      var c := m.captured[k];
      if m.cells[c].Closed? then m.(cells := m.cells[c := Closed(v)])
      else if m.cells[c].index < |m.slots| then m.(slots := m.slots[m.cells[c].index := v]) else m
    case Close(i) => m.(cells := CloseCells(m, i), open := map j | j in m.open && j < i :: m.open[j])
  }

  // ----- the reference -----

  /** `boxes[i]` is the variable now living in register `i`. */
  datatype Reference = Reference(boxes: seq<nat>, store: seq<Value>, captured: seq<nat>)

  function BoxValue(r: Reference, x: nat): Value {
    if x < |r.store| then r.store[x] else Nil
  }

  function SetBox(r: Reference, x: nat, v: Value): Reference {
    if x < |r.store| then r.(store := r.store[x := v]) else r
  }

  /** Registers that go out of scope hold new variables from then on. */
  function NewBoxes(r: Reference, from: nat): Reference {
    r.(boxes := seq(|r.boxes|, j requires 0 <= j < |r.boxes| => if j >= from then |r.store| + j else r.boxes[j]),
       store := r.store + seq(|r.boxes|, j requires 0 <= j < |r.boxes| => BoxValue(r, r.boxes[j])))
  }

  function ReferenceStep(r: Reference, op: Op): Reference {
    match op
    case Capture(i) => if i < |r.boxes| then r.(captured := r.captured + [r.boxes[i]]) else r
    case SetRegister(i, v) => if i < |r.boxes| then SetBox(r, r.boxes[i], v) else r
    case SetCaptured(k, v) => if k < |r.captured| then SetBox(r, r.captured[k], v) else r
    case Close(i) => NewBoxes(r, i)
  }

  // ----- the relation -----

  /** `box[c]` is the variable that cell `c` stands for. */
  ghost predicate Related(m: Machine, r: Reference, box: seq<nat>) {
    && |m.slots| == |r.boxes| && |box| == |m.cells| && |m.captured| == |r.captured|
    && (forall i :: 0 <= i < |r.boxes| ==> Register(m, r, i))
    && (forall i, j :: 0 <= i < j < |r.boxes| ==> r.boxes[i] != r.boxes[j])
    && (forall c :: 0 <= c < |m.cells| ==> CellOk(m, r, box, c))
    && (forall c, d :: 0 <= c < d < |box| ==> box[c] != box[d])
    && (forall i :: i in m.open ==> i < |m.slots| && m.open[i] < |m.cells| && m.cells[m.open[i]] == Open(i))
    && (forall k :: 0 <= k < |m.captured| ==> Captured(m, r, box, k))
  }

  ghost predicate Register(m: Machine, r: Reference, i: nat)
    requires i < |m.slots| && i < |r.boxes|
  {
    r.boxes[i] < |r.store| && m.slots[i] == r.store[r.boxes[i]]
  }

  ghost predicate CellOk(m: Machine, r: Reference, box: seq<nat>, c: nat)
    requires c < |m.cells| && c < |box| && |m.slots| == |r.boxes|
  {
    && box[c] < |r.store|
    && match m.cells[c]
       case Open(i) => i < |r.boxes| && i in m.open && m.open[i] == c && box[c] == r.boxes[i]
       case Closed(v) => r.store[box[c]] == v && box[c] !in r.boxes
  }

  ghost predicate Captured(m: Machine, r: Reference, box: seq<nat>, k: nat)
    requires k < |m.captured| && k < |r.captured|
  {
    m.captured[k] < |box| && r.captured[k] == box[m.captured[k]]
  }

  lemma {:induction false} CaptureStep(m: Machine, r: Reference, box: seq<nat>, i: nat) returns (box': seq<nat>)
    requires Related(m, r, box)
    ensures Related(MachineStep(m, Capture(i)), ReferenceStep(r, Capture(i)), box')
  {
    var m', r' := MachineStep(m, Capture(i)), ReferenceStep(r, Capture(i));
    box' := box;
    if i < |m.slots| {
      if i in m.open {
        assert CellOk(m, r, box, m.open[i]);
      } else {
        box' := box + [r.boxes[i]];
        assert Register(m, r, i);
        forall c | 0 <= c < |m.cells| ensures box[c] != r.boxes[i] {
          assert CellOk(m, r, box, c);
        }
      }
      forall c | 0 <= c < |m'.cells| ensures CellOk(m', r', box', c) {
        if c < |m.cells| {
          assert CellOk(m, r, box, c);
        }
      }
      forall j | 0 <= j < |r.boxes| ensures Register(m', r', j) {
        assert Register(m, r, j);
      }
      forall k | 0 <= k < |m'.captured| ensures Captured(m', r', box', k) {
        if k < |m.captured| {
          assert Captured(m, r, box, k);
        }
      }
    }
  }

  /** Writing the variable that lives in register `i`. */
  lemma {:induction false} WriteLiving(m: Machine, r: Reference, box: seq<nat>, i: nat, v: Value)
    requires Related(m, r, box) && i < |m.slots|
    ensures Related(m.(slots := m.slots[i := v]), SetBox(r, r.boxes[i], v), box)
  {
    var m', r' := m.(slots := m.slots[i := v]), SetBox(r, r.boxes[i], v);
    assert Register(m, r, i);
    forall j | 0 <= j < |r.boxes| ensures Register(m', r', j) {
      assert Register(m, r, j);
    }
    forall c | 0 <= c < |m.cells| ensures CellOk(m', r', box, c) {
      assert CellOk(m, r, box, c);
    }
    forall k | 0 <= k < |m.captured| ensures Captured(m', r', box, k) {
      assert Captured(m, r, box, k);
    }
  }

  /** Writing a variable that has left its register. */
  lemma {:induction false} WriteClosed(m: Machine, r: Reference, box: seq<nat>, c: nat, v: Value)
    requires Related(m, r, box) && c < |m.cells| && m.cells[c].Closed?
    ensures Related(m.(cells := m.cells[c := Closed(v)]), SetBox(r, box[c], v), box)
  {
    var m', r' := m.(cells := m.cells[c := Closed(v)]), SetBox(r, box[c], v);
    assert CellOk(m, r, box, c);
    forall j | 0 <= j < |r.boxes| ensures Register(m', r', j) {
      assert Register(m, r, j);
    }
    forall d | 0 <= d < |m.cells| ensures CellOk(m', r', box, d) {
      assert CellOk(m, r, box, d);
    }
    forall k | 0 <= k < |m.captured| ensures Captured(m', r', box, k) {
      assert Captured(m, r, box, k);
    }
  }

  lemma {:induction false} CloseStep(m: Machine, r: Reference, box: seq<nat>, i: nat)
    requires Related(m, r, box)
    ensures Related(MachineStep(m, Close(i)), ReferenceStep(r, Close(i)), box)
  {
    var m', r' := MachineStep(m, Close(i)), ReferenceStep(r, Close(i));
    forall j | 0 <= j < |r.boxes| ensures r.boxes[j] < |r.store| {
      assert Register(m, r, j);
    }
    forall j | 0 <= j < |r.boxes| ensures Register(m', r', j) {
      assert Register(m, r, j);
    }
    forall c | 0 <= c < |m.cells| ensures CellOk(m', r', box, c) {
      CloseCell(m, r, box, i, c);
    }
    forall j | j in m'.open ensures j < |m'.slots| && m'.open[j] < |m'.cells| && m'.cells[m'.open[j]] == Open(j) {
      assert m.cells[m.open[j]] == Open(j);
    }
    forall k | 0 <= k < |m.captured| ensures Captured(m', r', box, k) {
      assert Captured(m, r, box, k);
    }
  }

  lemma {:induction false} CloseCell(m: Machine, r: Reference, box: seq<nat>, i: nat, c: nat)
    requires Related(m, r, box) && c < |m.cells|
    ensures CellOk(MachineStep(m, Close(i)), ReferenceStep(r, Close(i)), box, c)
  {
    var m', r' := MachineStep(m, Close(i)), ReferenceStep(r, Close(i));
    assert CellOk(m, r, box, c);
    forall j | 0 <= j < |r.boxes| ensures r.boxes[j] < |r.store| {
      assert Register(m, r, j);
    }
    if m.cells[c].Open? {
      var j := m.cells[c].index;
      assert Register(m, r, j);
      if j >= i {
        forall l | 0 <= l < |r'.boxes| ensures r'.boxes[l] != box[c] {
        }
      }
    } else {
      forall l | 0 <= l < |r'.boxes| ensures r'.boxes[l] != box[c] {
      }
    }
  }

  lemma {:induction false} StepRelated(m: Machine, r: Reference, box: seq<nat>, op: Op) returns (box': seq<nat>)
    requires Related(m, r, box)
    ensures Related(MachineStep(m, op), ReferenceStep(r, op), box')
  {
    box' := box;
    match op {
      case Capture(i) => box' := CaptureStep(m, r, box, i);
      case SetRegister(i, v) =>
        if i < |m.slots| {
          WriteLiving(m, r, box, i, v);
        }
      case SetCaptured(k, v) =>
        if k < |m.captured| {
          assert Captured(m, r, box, k);
          var c := m.captured[k];
          assert CellOk(m, r, box, c);
          if m.cells[c].Closed? {
            WriteClosed(m, r, box, c, v);
          } else {
            WriteLiving(m, r, box, m.cells[c].index, v);
          }
        }
      case Close(i) => CloseStep(m, r, box, i);
    }
  }

  // ----- runs -----

  function RunMachine(n: nat, ops: seq<Op>): Machine {
    if ops == [] then Machine(seq(n, _ => Nil), map[], [], [])
    else MachineStep(RunMachine(n, ops[..|ops| - 1]), ops[|ops| - 1])
  }

  function RunReference(n: nat, ops: seq<Op>): Reference {
    if ops == [] then Reference(seq(n, i => i), seq(n, _ => Nil), [])
    else ReferenceStep(RunReference(n, ops[..|ops| - 1]), ops[|ops| - 1])
  }

  lemma {:induction false} RunsRelated(n: nat, ops: seq<Op>) returns (box: seq<nat>)
    ensures Related(RunMachine(n, ops), RunReference(n, ops), box)
    decreases |ops|
  {
    if ops == [] {
      box := [];
    } else {
      var b := RunsRelated(n, ops[..|ops| - 1]);
      box := StepRelated(RunMachine(n, ops[..|ops| - 1]), RunReference(n, ops[..|ops| - 1]), b, ops[|ops| - 1]);
    }
  }

  /** After any run, every register and every captured variable has the value it has
      in the reference, and two captures share a cell exactly when they captured the
      same variable. */
  lemma {:induction false} RunsAgree(n: nat, ops: seq<Op>)
    ensures var m, r := RunMachine(n, ops), RunReference(n, ops);
            && |m.slots| == |r.boxes| && |m.captured| == |r.captured|
            && (forall i :: 0 <= i < |m.slots| ==> m.slots[i] == BoxValue(r, r.boxes[i]))
            && (forall k :: 0 <= k < |m.captured| ==> m.captured[k] < |m.cells| && CellValue(m, m.captured[k]) == BoxValue(r, r.captured[k]))
            && (forall k, l :: 0 <= k < |m.captured| && 0 <= l < |m.captured| ==> (m.captured[k] == m.captured[l] <==> r.captured[k] == r.captured[l]))
  {
    var m, r := RunMachine(n, ops), RunReference(n, ops);
    var box := RunsRelated(n, ops);
    forall i | 0 <= i < |m.slots| ensures m.slots[i] == BoxValue(r, r.boxes[i]) {
      assert Register(m, r, i);
    }
    forall k | 0 <= k < |m.captured| ensures m.captured[k] < |m.cells| && CellValue(m, m.captured[k]) == BoxValue(r, r.captured[k]) {
      assert Captured(m, r, box, k);
      assert CellOk(m, r, box, m.captured[k]);
      if m.cells[m.captured[k]].Open? {
        assert Register(m, r, m.cells[m.captured[k]].index);
      }
    }
    forall k, l | 0 <= k < |m.captured| && 0 <= l < |m.captured| ensures m.captured[k] == m.captured[l] <==> r.captured[k] == r.captured[l] {
      assert Captured(m, r, box, k) && Captured(m, r, box, l);
    }
  }
}
