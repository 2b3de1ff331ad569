/**
 Traversing a table with `next` while its fields are overwritten or cleared
 (section 5.1 of the Lua 5.1 manual), over whole runs.
 */
module Traversal {
  import opened TableOrder
  import opened Table
  import opened LuaTable

  /** One call of `next` with the key it returned, or one write. */
  datatype Event = Step(key: Option<Key>) | Write(target: Key, value: Value)

  /** The key that the latest step returned. */
  function Latest(es: seq<Event>): Option<Key> {
    if es == [] then None
    else if es[|es| - 1].Step? then es[|es| - 1].key
    else Latest(es[..|es| - 1])
  }

  /** What one event may do: a step goes on from the key returned before, or ends if
      that key is unknown, and changes nothing; a write clears a field or overwrites an existing one. */
  ghost predicate EventOk(t: T, last: Option<Key>, e: Event, t': T) {
    match e
    case Step(r) =>
      t' == t && var c := Cursor(t, last); if c.None? then r.None? else IsNext(t, c.value, r)
    case Write(k, v) =>
      Norm(k) == k && (v == Nil || Lookup(t, k) != Nil) && Written(t, t', k, v)
  }

  /** A traversal from the start: `ts` are the states around the events `es`, and
      no step follows the one that found the end. */
  ghost predicate IsTrace(ts: seq<T>, es: seq<Event>) {
    && |ts| == |es| + 1 && ts[0].order.tracked
    && (forall i :: 0 <= i <= |es| ==> Ok(ts[i], 1))
    && (forall i :: 0 <= i < |es| ==> EventOk(ts[i], Latest(es[..i]), es[i], ts[i + 1]))
    && (forall i, j :: 0 <= i < j < |es| && es[i] == Step(None) ==> es[j].Write?)
  }

  // ----- positions are stable -----

  lemma {:induction false} EventKeepsTraversal(t: T, last: Option<Key>, e: Event, t': T)
    requires EventOk(t, last, e, t')
    ensures KeepsTraversal(t, t')
  {
  }

  /** A cursor means the same position after any event. */
  lemma {:induction false} CursorStable(ts: seq<T>, es: seq<Event>, i: nat, k: Option<Key>)
    requires IsTrace(ts, es) && i <= |es|
    ensures Cursor(ts[i], k) == Cursor(ts[0], k) && |ts[i].arr| == |ts[0].arr| && |ts[i].order.keys| == |ts[0].order.keys|
  {
    if i > 0 {
      CursorStable(ts, es, i - 1, k);
      EventKeepsTraversal(ts[i - 1], Latest(es[..i - 1]), es[i - 1], ts[i]);
    }
  }

  /** The item at a position is the key whose cursor is that position. */
  lemma {:induction false} ItemCursor(t: T, p: int, k: Key)
    requires Ok(t, 1) && Item(t, p) == Some(k)
    ensures Cursor(t, Some(k)) == Some(p) && Lookup(t, k) != Nil && Norm(k) == k
  {
    ArrayShort(t);
    if p <= |t.arr| {
      NoArrayCursor(t, p);
    } else {
      LiveSlot(t, p - |t.arr| - 1);
      SlotCursor(t, p - |t.arr| - 1);
    }
  }

  lemma {:induction false} SlotCursor(t: T, i: nat)
    requires Ok(t, 1) && i < |t.order.keys| && t.order.keys[i].Some?
    ensures var k := t.order.keys[i].value; Norm(k) == k && k in t.order.k2i && t.order.k2i[k] == i
  {
    assert Open(0);
    SlotFound(t.order, Live(t), |t.arr|, i);
  }

  /** Every key with a value is an item of the traversal. */
  lemma {:induction false} PresentIsItem(t: T, k: Key) returns (p: int)
    requires Ok(t, 1) && t.order.tracked && Norm(k) == k && Lookup(t, k) != Nil
    ensures p > 0 && Item(t, p) == Some(k)
  {
    assert Open(0);
    if k.Number? && k.f.Whole? && IsArrayIndex(k.f.i) && k.f.i <= |t.arr| {
      p := k.f.i;
    } else {
      assert k in Live(t) by {
        if k.Str? {
          assert k == Str(k.s);
        }
      }
      LiveFound(t.order, Live(t), |t.arr|, k);
      p := |t.arr| + 1 + t.order.k2i[k];
    }
  }

  // ----- the walk moves forward -----

  /** The position reached after the first `j` events. */
  ghost function Reached(ts: seq<T>, es: seq<Event>, j: nat): int
    requires IsTrace(ts, es) && j <= |es|
  {
    var c := Cursor(ts[0], Latest(es[..j])); if c.Some? then c.value else 0
  }

  lemma {:induction false} LatestStep(es: seq<Event>, j: nat)
    requires j < |es|
    ensures Latest(es[..j + 1]) == if es[j].Step? then es[j].key else Latest(es[..j])
  {
    assert es[..j + 1][..j] == es[..j];
  }

  lemma {:induction false} ReachedStart(ts: seq<T>, es: seq<Event>)
    requires IsTrace(ts, es)
    ensures Reached(ts, es, 0) == 0
  {
    assert es[..0] == [];
  }

  /** The key returned last is never lost, whatever was cleared since: `next` always
      finds its place again. */
  lemma {:induction false} CursorKnown(ts: seq<T>, es: seq<Event>, i: nat)
    requires IsTrace(ts, es) && i <= |es|
    ensures Cursor(ts[i], Latest(es[..i])).Some?
    decreases i
  {
    if i == 0 {
      assert es[..0] == [];
    } else {
      CursorKnown(ts, es, i - 1);
      LatestStep(es, i - 1);
      assert EventOk(ts[i - 1], Latest(es[..i - 1]), es[i - 1], ts[i]);
      CursorStable(ts, es, i - 1, Latest(es[..i]));
      CursorStable(ts, es, i, Latest(es[..i]));
      if es[i - 1].Step? && es[i - 1].key.Some? {
        var c := Cursor(ts[i - 1], Latest(es[..i - 1])).value;
        var p :| ItemAfter(ts[i - 1], c, p) && Item(ts[i - 1], p) == es[i - 1].key;
        ItemCursor(ts[i - 1], p, es[i - 1].key.value);
      }
    }
  }

  /** A write leaves the position; a step that returns a key moves to the first
      item after it. */
  lemma {:induction false} ReachedStep(ts: seq<T>, es: seq<Event>, j: nat)
    requires IsTrace(ts, es) && j < |es|
    ensures es[j].Write? ==> Reached(ts, es, j + 1) == Reached(ts, es, j)
    ensures es[j].Step? && es[j].key.Some? ==>
              && ItemAfter(ts[j], Reached(ts, es, j), Reached(ts, es, j + 1))
              && Item(ts[j], Reached(ts, es, j + 1)) == es[j].key
    ensures es[j] == Step(None) ==> forall p :: p > Reached(ts, es, j) ==> Item(ts[j], p).None?
  {
    LatestStep(es, j);
    CursorKnown(ts, es, j);
    assert EventOk(ts[j], Latest(es[..j]), es[j], ts[j + 1]);
    CursorStable(ts, es, j, Latest(es[..j]));
    if es[j].Step? && es[j].key.Some? {
      var c := Reached(ts, es, j);
      var p :| ItemAfter(ts[j], c, p) && Item(ts[j], p) == es[j].key;
      ItemCursor(ts[j], p, es[j].key.value);
      CursorStable(ts, es, j, es[j].key);
    }
  }

  /** Without an end in between, positions never go back. */
  lemma {:induction false} ReachedGrows(ts: seq<T>, es: seq<Event>, i: nat, j: nat)
    requires IsTrace(ts, es) && i <= j <= |es|
    requires forall m :: i <= m < j ==> es[m] != Step(None)
    ensures Reached(ts, es, i) <= Reached(ts, es, j)
    decreases j
  {
    if i < j {
      ReachedGrows(ts, es, i, j - 1);
      ReachedStep(ts, es, j - 1);
    }
  }

  /** No key is returned twice. */
  lemma {:induction false} NoKeyTwice(ts: seq<T>, es: seq<Event>, i: nat, j: nat)
    requires IsTrace(ts, es) && i < j < |es|
    requires es[i].Step? && es[i].key.Some? && es[j].Step? && es[j].key.Some?
    ensures es[i].key != es[j].key
  {
    ReachedStep(ts, es, i);
    ReachedStep(ts, es, j);
    forall m | i + 1 <= m < j ensures es[m] != Step(None) {
    }
    ReachedGrows(ts, es, i + 1, j);
    LatestStep(es, i);
    LatestStep(es, j);
  }

  /** A key that keeps a value from the start to the end of the walk is returned,
      and by `NoKeyTwice` exactly once. */
  lemma {:induction false} StayingKeyReturned(ts: seq<T>, es: seq<Event>, m: nat, k: Key) returns (i: nat)
    requires IsTrace(ts, es) && m < |es| && es[m] == Step(None) && Norm(k) == k
    requires forall i :: 0 <= i <= m ==> Lookup(ts[i], k) != Nil
    ensures i < m && es[i] == Step(Some(k))
  {
    var p := PresentIsItem(ts[0], k);
    ReachedStart(ts, es);
    ReachedStep(ts, es, m);
    TrackedThroughout(ts, es, m);
    ItemStays(ts, es, m, k, p);
    i := Crossing(ts, es, m, k, p);
  }

  lemma {:induction false} TrackedThroughout(ts: seq<T>, es: seq<Event>, i: nat)
    requires IsTrace(ts, es) && i <= |es|
    ensures ts[i].order.tracked
  {
    if i > 0 {
      TrackedThroughout(ts, es, i - 1);
      EventKeepsTraversal(ts[i - 1], Latest(es[..i - 1]), es[i - 1], ts[i]);
    }
  }

  /** A key with a value is the item at its fixed position. */
  lemma {:induction false} ItemStays(ts: seq<T>, es: seq<Event>, i: nat, k: Key, p: int)
    requires IsTrace(ts, es) && i <= |es| && Norm(k) == k && Lookup(ts[i], k) != Nil && Item(ts[0], p) == Some(k)
    ensures Item(ts[i], p) == Some(k)
  {
    TrackedThroughout(ts, es, i);
    var q := PresentIsItem(ts[i], k);
    ItemCursor(ts[i], q, k);
    ItemCursor(ts[0], p, k);
    CursorStable(ts, es, i, Some(k));
  }

  /** The step that passes position `p` returns the item there. */
  lemma {:induction false} Crossing(ts: seq<T>, es: seq<Event>, m: nat, k: Key, p: int) returns (i: nat)
    requires IsTrace(ts, es) && m <= |es| && Norm(k) == k && Item(ts[0], p) == Some(k) && p > 0
    requires forall i :: 0 <= i <= m ==> Lookup(ts[i], k) != Nil
    requires p <= Reached(ts, es, m) && forall i :: 0 <= i < m ==> es[i] != Step(None)
    ensures i < m && es[i] == Step(Some(k))
    decreases m
  {
    ReachedStart(ts, es);
    assert m > 0;
    ReachedStep(ts, es, m - 1);
    ItemStays(ts, es, m - 1, k, p);
    if p <= Reached(ts, es, m - 1) {
      i := Crossing(ts, es, m - 1, k, p);
    } else {
      i := m - 1;
    }
  }

  // ----- the walk ends -----

  function Returned(es: seq<Event>): nat {
    if es == [] then 0
    else Returned(es[..|es| - 1]) + (if es[|es| - 1].Step? && es[|es| - 1].key.Some? then 1 else 0)
  }

  /** At most as many keys are returned as there are positions. */
  lemma {:induction false} WalkEnds(ts: seq<T>, es: seq<Event>, j: nat)
    requires IsTrace(ts, es) && j <= |es| && forall i :: 0 <= i < j ==> es[i] != Step(None)
    ensures Returned(es[..j]) <= Reached(ts, es, j) <= |ts[0].arr| + |ts[0].order.keys|
    decreases j
  {
    if j == 0 {
      ReachedStart(ts, es);
      assert es[..0] == [];
    } else {
      WalkEnds(ts, es, j - 1);
      ReachedStep(ts, es, j - 1);
      CursorStable(ts, es, j - 1, None);
      assert es[..j][..j - 1] == es[..j - 1];
    }
  }
}
