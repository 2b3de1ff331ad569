/**
 Captured variables (state.go, function.go, vm.go). While a variable lives in a
 register its cell is open and on a list of cells in the order of their registers;
 closing moves the value into the cell.
 */
module Upvalues {

  datatype Value = Nil | Datum(id: nat)

  class Registers {
    var slots: seq<Value>

    constructor (n: nat)
      ensures slots == seq(n, _ => Nil)
    {
      slots := seq(n, _ => Nil);
    }

    method Set(i: nat, v: Value)
      requires i < |slots|
      modifies this
      ensures slots == old(slots)[i := v]
    {
      slots := slots[i := v];
    }
  }

  class Upvalue {
    var next: Upvalue?
    var reg: Registers?
    const index: nat
    var value: Value
    var closed: bool

    constructor (reg: Registers, index: nat, next: Upvalue?)
      ensures this.reg == reg && this.index == index && !closed && this.next == next
    {
      this.reg, this.index, this.next, closed, value := reg, index, next, false, Nil;
    }

    predicate IsClosed()
      reads this
    {
      closed || reg == null
    }

    /** The current value of the variable. */
    function Current(): Value
      reads this, reg
    {
      if closed || reg == null then value
      else if index < |reg.slots| then reg.slots[index] else Nil
    }

    method SetValue(v: Value)
      requires !IsClosed() ==> index < |reg.slots|
      modifies `value, if IsClosed() then {} else {reg}
      ensures Current() == v
      ensures reg != null ==> reg.slots == if old(IsClosed()) then old(reg.slots) else old(reg.slots)[index := v]
      ensures !old(IsClosed()) ==> value == old(value)
    {
      if IsClosed() {
        value := v;
      } else {
        reg.Set(index, v);
      }
    }

    method Close()
      modifies `closed, `value, `reg
      ensures closed && value == old(Current())
    {
      var v := Current();
      closed := true;
      value := v;
      reg := null;
    }
  }

  function At(cells: seq<Upvalue>, i: nat): Upvalue? {
    if i < |cells| then cells[i] else null
  }

  /** The list from `head` is `cells`: open cells over `reg`, in the order of their
      registers. */
  ghost predicate OpenList(head: Upvalue?, cells: seq<Upvalue>, reg: Registers)
    reads set i | 0 <= i < |cells| :: cells[i]
  {
    && head == At(cells, 0) && Increasing(cells)
    && (forall i {:trigger Link(cells, i, -1, null, reg)} :: 0 <= i < |cells| ==> Link(cells, i, -1, null, reg))
  }

  /** Cell `i` is open and linked to the next one, or to `other` if the next is at
      `cut`. */
  ghost predicate Link(cells: seq<Upvalue>, i: nat, cut: int, other: Upvalue?, reg: Registers)
    reads if i < |cells| then {cells[i]} else {}
  {
    i < |cells| ==> OpenCell(cells[i], if i + 1 == cut then other else At(cells, i + 1), reg)
  }

  ghost predicate OpenCell(c: Upvalue, next: Upvalue?, reg: Registers)
    reads c
  {
    c.next == next && !c.closed && c.reg == reg
  }

  ghost predicate Distinct(cells: seq<Upvalue>) {
    forall i, j {:trigger Differ(cells, i, j)} :: 0 <= i < j < |cells| ==> Differ(cells, i, j)
  }

  ghost predicate Differ(cells: seq<Upvalue>, i: nat, j: nat) {
    i < |cells| && j < |cells| ==> cells[i] != cells[j]
  }

  /** No other position holds the cell at `k`. */
  lemma {:induction false} OnlyAt(cells: seq<Upvalue>, k: nat)
    requires Distinct(cells) && k < |cells|
    ensures forall i :: 0 <= i < |cells| && i != k ==> cells[i] != cells[k]
  {
    forall i | 0 <= i < |cells| && i != k ensures cells[i] != cells[k] {
      assert if i < k then Differ(cells, i, k) else Differ(cells, k, i);
    }
  }

  lemma {:induction false} IncreasingDistinct(cells: seq<Upvalue>)
    requires Increasing(cells)
    ensures Distinct(cells)
  {
    forall i, j | 0 <= i < j < |cells| ensures Differ(cells, i, j) {
      assert Before(cells, i, j);
    }
  }

  ghost predicate Increasing(cells: seq<Upvalue>) {
    forall i, j {:trigger Before(cells, i, j)} :: 0 <= i < j < |cells| ==> Before(cells, i, j)
  }

  ghost predicate Before(cells: seq<Upvalue>, i: nat, j: nat) {
    i < |cells| && j < |cells| ==> cells[i].index < cells[j].index
  }

  /** Where a register belongs among the cells: below `k` are lower registers, from
      `k` on this and higher ones. */
  ghost predicate Splits(cells: seq<Upvalue>, k: nat, idx: nat) {
    k <= |cells| && (forall i :: 0 <= i < k ==> cells[i].index < idx) && (forall i :: k <= i < |cells| ==> cells[i].index >= idx)
  }

  lemma {:induction false} SplitExists(cells: seq<Upvalue>, idx: nat) returns (k: nat)
    requires Increasing(cells)
    ensures Splits(cells, k, idx)
  {
    k := 0;
    while k < |cells| && cells[k].index < idx
      invariant k <= |cells| && forall i :: 0 <= i < k ==> cells[i].index < idx
    {
      k := k + 1;
    }
    if k < |cells| {
      forall i | k < i < |cells| ensures cells[i].index >= idx {
        assert Before(cells, k, i);
      }
    }
  }

  /** A new cell linked in at its place. */
  lemma {:induction false} InsertOk(cells: seq<Upvalue>, k: nat, uv: Upvalue, reg: Registers)
    requires Increasing(cells) && Splits(cells, k, uv.index) && (k < |cells| ==> cells[k].index != uv.index)
    requires OpenCell(uv, At(cells, k), reg)
    requires forall i {:trigger Link(cells, i, k, uv, reg)} :: 0 <= i < |cells| ==> Link(cells, i, k, uv, reg)
    ensures OpenList(if k == 0 then uv else cells[0], cells[..k] + [uv] + cells[k..], reg)
  {
    var r := cells[..k] + [uv] + cells[k..];
    assert forall i :: 0 <= i < |r| ==> r[i] == if i < k then cells[i] else if i == k then uv else cells[i - 1];
    forall i | 0 <= i < |r| ensures Link(r, i, -1, null, reg) {
      if i < k {
        assert Link(cells, i, k, uv, reg);
      } else if i > k {
        assert Link(cells, i - 1, k, uv, reg);
      }
    }
    forall i, j | 0 <= i < j < |r| ensures Before(r, i, j) {
      var i', j' := if i < k then i else i - 1, if j < k then j else j - 1;
      if i != k && j != k {
        assert Before(cells, i', j');
      } else if i == k && j > k + 1 {
        assert Before(cells, k, j - 1);
      }
    }
  }

  class Thread {
    const reg: Registers
    var uvcache: Upvalue?
    ghost var open: seq<Upvalue>

    ghost predicate Valid()
      reads this, set i | 0 <= i < |open| :: open[i]
    {
      OpenList(uvcache, open, reg)
    }

    constructor (reg: Registers)
      ensures Valid() && open == [] && this.reg == reg
    {
      this.reg, uvcache, open := reg, null, [];
    }

    lemma {:induction false} OnList(u: Upvalue)
      requires Valid() && u in open
      ensures !u.closed && u.reg == reg
    {
      var i :| 0 <= i < |open| && open[i] == u;
      assert Link(open, i, -1, null, reg);
    }

    /** The place of a register on the list: its cell, or the cells around it. */
    method Locate(idx: nat) returns (found: Upvalue?, prev: Upvalue?, next: Upvalue?, ghost k: nat)
      requires Valid()
      ensures Splits(open, k, idx) && prev == (if k == 0 then null else open[k - 1])
      ensures if found != null then k < |open| && found == open[k] && found.index == idx
              else next == At(open, k) && forall i :: 0 <= i < |open| ==> open[i].index != idx
    {
      found, prev, next, k := null, null, null, 0;
      var cur := uvcache;
      while cur != null
        invariant k <= |open| && cur == At(open, k) && found == null && next == null
        invariant prev == (if k == 0 then null else open[k - 1])
        invariant forall i :: 0 <= i < k ==> open[i].index < idx
        decreases |open| - k
      {
        assert Link(open, k, -1, null, reg);
        if cur.index >= idx {
          forall i | k < i < |open| ensures open[i].index > idx {
            assert Before(open, k, i);
          }
        }
        if cur.index == idx {
          found := cur;
          return;
        }
        if cur.index > idx {
          next := cur;
          return;
        }
        prev := cur;
        cur := cur.next;
        k := k + 1;
      }
    }

    /** The one cell of a captured register, made on first capture. */
    method FindUpvalue(idx: nat) returns (uv: Upvalue)
      requires Valid()
      modifies this, set i | 0 <= i < |open| :: open[i]
      ensures Valid() && uv in open && uv.index == idx && !uv.closed && uv.reg == reg
      ensures uv in old(open) ==> open == old(open)
      ensures uv !in old(open) ==> fresh(uv) && exists k :: 0 <= k <= |old(open)| && open == old(open)[..k] + [uv] + old(open)[k..]
      ensures uv !in old(open) ==> forall i :: 0 <= i < |old(open)| ==> old(open)[i].index != idx
      ensures forall i :: 0 <= i < |old(open)| ==>
                && old(open)[i].closed == old(open[i].closed)
                && old(open)[i].value == old(open[i].value) && old(open)[i].reg == old(open[i].reg)
    {
      var found, prev, next, k := Locate(idx);
      if found != null {
        assert Link(open, k, -1, null, reg);
        uv := found;
      } else {
        uv := InsertCell(idx, prev, next, k);
      }
    }

    method InsertCell(idx: nat, prev: Upvalue?, next: Upvalue?, ghost k: nat) returns (uv: Upvalue)
      requires Valid() && Splits(open, k, idx) && prev == (if k == 0 then null else open[k - 1]) && next == At(open, k)
      requires forall i :: 0 <= i < |open| ==> open[i].index != idx
      modifies this, (if prev == null then {} else {prev})`next
      ensures Valid() && fresh(uv) && open == old(open)[..k] + [uv] + old(open)[k..] && uv.index == idx && !uv.closed && uv.reg == reg
    {
      IncreasingDistinct(open);
      if k > 0 {
        OnlyAt(open, k - 1);
      }
      uv := new Upvalue(reg, idx, next);
      if prev != null {
        prev.next := uv;
      } else {
        uvcache := uv;
      }
      forall i | 0 <= i < |open| ensures Link(open, i, k, uv, reg) {
        assert old(Link(open, i, -1, null, reg));
      }
      InsertOk(open, k, uv, reg);
      open := open[..k] + [uv] + open[k..];
    }

    method Detach(prev: Upvalue?, cur: Upvalue)
      requires prev != cur
      modifies `uvcache, (if prev == null then {} else {prev})`next, cur`closed, cur`value, cur`reg
      ensures cur.closed && cur.value == old(cur.Current())
      ensures if prev != null then prev.next == null && uvcache == old(uvcache) else uvcache == null
    {
      if prev != null {
        prev.next := null;
      } else {
        uvcache := null;
      }
      cur.Close();
    }

    /** Closing from `idx` detaches exactly the cells at or above it, and no variable
        changes its value. */
    method CloseUpvalues(idx: nat)
      requires Valid()
      modifies this, set i | 0 <= i < |open| :: open[i]
      ensures Valid() && |open| <= |old(open)| && open == old(open)[..|open|]
      ensures forall i :: 0 <= i < |old(open)| ==> (i < |open| <==> old(open)[i].index < idx)
      ensures forall i :: |open| <= i < |old(open)| ==> old(open)[i].closed
      ensures forall i :: 0 <= i < |old(open)| ==> old(open)[i].Current() == old(open[i].Current())
    {
      ghost var n := SplitExists(open, idx);
      IncreasingDistinct(open);
      forall i | 0 <= i < |open| ensures !open[i].closed && open[i].reg == reg {
        assert Link(open, i, -1, null, reg);
      }
      CloseFrom(idx, n);
      forall i | 0 <= i < n ensures Link(open[..n], i, -1, null, reg) {
        assert old(Link(open, i, -1, null, reg));
      }
      forall i, j | 0 <= i < j < n ensures Before(open[..n], i, j) {
        assert Before(open, i, j);
      }
      open := open[..n];
    }

    /** The walk over the list: the cells from position `n` on are closed and the one
        before them is the last. */
    method CloseFrom(idx: nat, ghost n: nat)
      requires Distinct(open) && Splits(open, n, idx) && uvcache == At(open, 0)
      requires forall i :: 0 <= i < |open| ==> !open[i].closed && open[i].reg == reg
      requires forall i {:trigger Link(open, i, -1, null, reg)} :: 0 <= i < |open| ==> Link(open, i, -1, null, reg)
      modifies `uvcache, set i | 0 <= i < |open| :: open[i]
      ensures uvcache == (if n == 0 then null else At(open, 0))
      ensures forall i :: 0 <= i < n ==> !open[i].closed && open[i].reg == reg && open[i].next == if i + 1 == n then null else old(open[i].next)
      ensures forall i :: n <= i < |open| ==> open[i].closed && open[i].value == old(open[i].Current())
    {
      var prev, cur: Upvalue? := null, uvcache;
      ghost var k := 0;
      while cur != null
        invariant k <= |open| && cur == At(open, k) && prev == (if k == 0 then null else open[k - 1])
        invariant uvcache == (if k > n == 0 then null else At(open, 0))
        invariant forall i :: 0 <= i < |open| && (i < n || i >= k) ==> !open[i].closed && open[i].reg == reg
        invariant forall i :: 0 <= i < |open| && (i < n || i >= k) ==> open[i].next == if i + 1 == n < k then null else old(open[i].next)
        invariant forall i :: n <= i < k ==> open[i].closed && open[i].value == old(open[i].Current())
        decreases |open| - k
      {
        assert old(Link(open, k, -1, null, reg));
        OnlyAt(open, k);
        if k > 0 {
          OnlyAt(open, k - 1);
        }
        if cur.index >= idx {
          Detach(prev, cur);
        }
        prev := cur;
        cur := cur.next;
        k := k + 1;
      }
      if |open| > 0 {
        assert old(Link(open, |open| - 1, -1, null, reg));
      }
    }
  }
}
