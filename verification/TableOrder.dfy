/**
 The slot list behind `next` (table.go): a list of hash keys with holes where
 keys were deleted, and a map from keys, live or deleted, to their slots.
 */
module TableOrder {

  datatype Option<+T> = None | Some(value: T)

  /** A float key: a whole number, or any other float, kept opaque. */
  datatype Float = Whole(i: int) | Fractional(bits: int)

  datatype Key = Number(f: Float) | Integer(i: int) | Str(s: string) | Ref(id: int)

  const MAX_ARRAY_INDEX: int := 67108864

  predicate IsArrayIndex(i: int) { 0 < i < MAX_ARRAY_INDEX }

  /** The stored form of a key: array-range integers as floats, other whole
      floats as integers. */
  function Norm(key: Key): (r: Key) {
    match key
    case Integer(i) => if IsArrayIndex(i) then Number(Whole(i)) else key
    case Number(Whole(i)) => if IsArrayIndex(i) then key else Integer(i)
    case _ => key
  }

  predicate IsWhole(key: Key) { key.Integer? || (key.Number? && key.f.Whole?) }

  function WholeValue(key: Key): int
    requires IsWhole(key)
  {
    if key.Integer? then key.i else key.f.i
  }

  /** Integers and whole floats of the same value are one key, and no other two
      keys are. */
  lemma {:induction false} NormIdentifiesWhole(a: Key, b: Key)
    ensures Norm(a) == Norm(b) <==> a == b || (IsWhole(a) && IsWhole(b) && WholeValue(a) == WholeValue(b))
    ensures Norm(Norm(a)) == Norm(a)
  {
  }

  /** Whole numbers from 1 to 67108863 are stored as floats, all others as integers. */
  lemma {:induction false} NormRange(i: int)
    ensures Norm(Integer(i)) == Norm(Number(Whole(i))) == if 1 <= i <= 67108863 then Number(Whole(i)) else Integer(i)
    ensures IsArrayIndex(i) <==> 1 <= i <= 67108863
  {
  }

  function ArrayKey(i: int): Key { Number(Whole(i)) }

  // ----- the slot list -----

  type Slots = seq<Option<Key>>

  /** `tracked` is false until the first traversal. */
  datatype Order = Order(tracked: bool, keys: Slots, k2i: map<Key, nat>)

  ghost predicate Holds(keys: Slots, i: nat, k: Key) {
    i < |keys| && keys[i] == Some(k)
  }

  /** A cursor's slot holds its key or is empty. */
  ghost predicate CursorOk(slot: Option<Key>, k: Key) {
    slot == None || slot == Some(k)
  }

  /** The live keys are exactly the filled slots, each found at its slot; and no
      cursor, live or deleted, is left for a position of the array part. */
  ghost predicate Inv(o: Order, live: set<Key>, arrayLen: nat) {
    && (!o.tracked ==> o.keys == [] && o.k2i == map[])
    && (forall k :: k in o.k2i ==> o.k2i[k] < |o.keys| && Norm(k) == k && CursorOk(o.keys[o.k2i[k]], k))
    && (forall i :: 0 <= i < |o.keys| && o.keys[i].Some? ==>
          o.keys[i].value in live && o.keys[i].value in o.k2i && o.k2i[o.keys[i].value] == i)
    && (o.tracked ==> forall k :: k in live ==> k in o.k2i && o.keys[o.k2i[k]] == Some(k))
    && (forall i :: 0 < i <= arrayLen ==> ArrayKey(i) !in o.k2i)
  }

  /** The filled slots in order. */
  function Filled(keys: Slots): (r: seq<Key>) {
    if keys == [] then []
    else
      var before := Filled(keys[..|keys| - 1]);
      var last := keys[|keys| - 1];
      if last.Some? then before + [last.value] else before
  }

  function FilledSlots(ks: seq<Key>): Slots {
    seq(|ks|, i requires 0 <= i < |ks| => Some(ks[i]))
  }

  function Positions(ks: seq<Key>): (m: map<Key, nat>)
    ensures forall k :: k in m ==> m[k] < |ks| && ks[m[k]] == k
    ensures forall k :: k in ks <==> k in m
  {
    if ks == [] then map[]
    else
      var m := Positions(ks[..|ks| - 1]);
      assert ks == ks[..|ks| - 1] + [ks[|ks| - 1]];
      m[ks[|ks| - 1] := |ks| - 1]
  }

  lemma {:induction false} FilledMembers(keys: Slots, k: Key)
    ensures k in Filled(keys) <==> exists i :: Holds(keys, i, k)
  {
    if keys == [] {
    } else {
      var n := |keys| - 1;
      FilledMembers(keys[..n], k);
      if k in Filled(keys[..n]) {
        var i :| Holds(keys[..n], i, k);
        assert Holds(keys, i, k);
      }
      if keys[n] == Some(k) {
        assert Holds(keys, n, k);
      }
      if i: nat :| Holds(keys, i, k) {
        if i < n {
          assert Holds(keys[..n], i, k);
        }
      }
    }
  }

  ghost predicate Distinct<T>(s: seq<T>) {
    forall i, j :: 0 <= i < j < |s| ==> s[i] != s[j]
  }

  /** A filled slot list without repeated keys gives a list without repeats. */
  lemma {:induction false} FilledDistinct(keys: Slots)
    requires forall i, j, k :: Holds(keys, i, k) && Holds(keys, j, k) ==> i == j
    ensures Distinct(Filled(keys))
  {
    if keys == [] {
    } else {
      var n := |keys| - 1;
      forall i, j, k | Holds(keys[..n], i, k) && Holds(keys[..n], j, k) ensures i == j {
        assert Holds(keys, i, k) && Holds(keys, j, k);
      }
      FilledDistinct(keys[..n]);
      if keys[n].Some? {
        var k := keys[n].value;
        FilledMembers(keys[..n], k);
        if k in Filled(keys[..n]) {
          var i :| Holds(keys[..n], i, k);
          assert Holds(keys, i, k) && Holds(keys, n, k);
        }
      }
    }
  }

  /** A list without repeats is as long as its set is large. */
  lemma {:induction false} DistinctSize<T>(s: seq<T>, all: set<T>)
    requires Distinct(s) && forall x :: x in s <==> x in all
    ensures |s| == |all|
  {
    if s == [] {
      assert all == {};
    } else {
      var n := |s| - 1;
      assert s == s[..n] + [s[n]];
      DistinctSize(s[..n], all - {s[n]});
    }
  }

  lemma {:induction false} PositionsExact(ks: seq<Key>, i: nat)
    requires Distinct(ks) && i < |ks|
    ensures ks[i] in Positions(ks) && Positions(ks)[ks[i]] == i
  {
    assert ks[i] in ks;
  }

  lemma {:induction false} SlotUnique(o: Order, live: set<Key>, n: nat)
    requires Inv(o, live, n)
    ensures forall i, j, k :: Holds(o.keys, i, k) && Holds(o.keys, j, k) ==> i == j
  {
  }

  lemma {:induction false} FilledIsLive(o: Order, live: set<Key>, n: nat)
    requires Inv(o, live, n) && o.tracked
    ensures Distinct(Filled(o.keys)) && (forall k :: k in Filled(o.keys) <==> k in live)
    ensures |Filled(o.keys)| == |live|
  {
    SlotUnique(o, live, n);
    FilledDistinct(o.keys);
    forall k ensures k in Filled(o.keys) <==> k in live {
      FilledMembers(o.keys, k);
      if k in live {
        assert Holds(o.keys, o.k2i[k], k);
      }
    }
    DistinctSize(Filled(o.keys), live);
  }

  // ----- deleting, retiring and adding keys -----

  /** Deletion empties the slot and keeps the cursor. */
  function Delete(o: Order, k: Key): Order {
    if k in o.k2i && o.k2i[k] < |o.keys| then o.(keys := o.keys[o.k2i[k] := None]) else o
  }

  lemma {:induction false} DeleteKeepsInv(o: Order, live: set<Key>, n: nat, k: Key)
    requires Inv(o, live, n)
    ensures Inv(Delete(o, k), live - {k}, n)
  {
  }

  /** Forgets a cursor altogether. */
  function Retire(o: Order, k: Key): Order {
    o.(k2i := o.k2i - {k})
  }

  lemma {:induction false} RetireKeepsInv(o: Order, live: set<Key>, n: nat, k: Key)
    requires Inv(o, live, n) && k !in live
    ensures Inv(Retire(o, k), live, n)
  {
  }

  /** Forgets the cursor of a deleted key; a live key keeps its cursor. */
  function ForgetDeleted(o: Order, k: Key): Order {
    if k in o.k2i && o.k2i[k] < |o.keys| && o.keys[o.k2i[k]].None? then Retire(o, k) else o
  }

  lemma {:induction false} ForgetKeepsInv(o: Order, live: set<Key>, n: nat, k: Key)
    requires Inv(o, live, n)
    ensures Inv(ForgetDeleted(o, k), live, n)
    ensures k !in live ==> k !in ForgetDeleted(o, k).k2i
  {
  }

  /** Drops the empty slots and the cursors of deleted keys. */
  function Compact(o: Order): Order {
    var ks := Filled(o.keys);
    Order(o.tracked, FilledSlots(ks), Positions(ks))
  }

  lemma {:induction false} CompactKeepsInv(o: Order, live: set<Key>, n: nat)
    requires Inv(o, live, n) && o.tracked && (forall k :: k in live ==> Norm(k) == k)
    requires forall i :: 0 < i <= n ==> ArrayKey(i) !in live
    ensures Inv(Compact(o), live, n) && |Compact(o).keys| == |live|
  {
    FilledIsLive(o, live, n);
    var ks := Filled(o.keys);
    var c := Compact(o);
    forall i | 0 <= i < |ks| ensures ks[i] in live && ks[i] in c.k2i && c.k2i[ks[i]] == i {
      PositionsExact(ks, i);
    }
    forall k | k in live ensures k in c.k2i && c.keys[c.k2i[k]] == Some(k) {
      assert k in ks;
    }
  }

  /** Appends a slot for a key that is about to be stored.  The list is compacted
      first when at least half of it is empty; `live` counts the stored keys. */
  function Add(o: Order, live: nat, k: Key): Order {
    if !o.tracked || (k in o.k2i && o.k2i[k] < |o.keys| && o.keys[o.k2i[k]].Some?) then o
    else
      var c := if |o.keys| > live && |o.keys| - live >= live then Compact(o) else o;
      c.(keys := c.keys + [Some(k)], k2i := c.k2i[k := |c.keys|])
  }

  lemma {:induction false} AppendKeepsInv(o: Order, live: set<Key>, n: nat, k: Key)
    requires Inv(o, live, n) && o.tracked && k !in live && Norm(k) == k
    requires forall i :: 0 < i <= n ==> k != ArrayKey(i)
    ensures Inv(o.(keys := o.keys + [Some(k)], k2i := o.k2i[k := |o.keys|]), live + {k}, n)
  {
  }

  /** Adding a key keeps the invariant; a key that is already stored changes
      nothing, and otherwise at most half of the slots are empty afterwards. */
  lemma {:induction false} AddKeepsInv(o: Order, live: set<Key>, n: nat, k: Key)
    requires Inv(o, live, n) && Norm(k) == k && (forall x :: x in live ==> Norm(x) == x)
    requires forall i :: 0 < i <= n ==> k != ArrayKey(i) && ArrayKey(i) !in live
    ensures var o' := Add(o, |live|, k);
            && Inv(o', live + {k}, n) && (k in live ==> o' == o)
            && (o.tracked && k !in live ==> |o'.keys| <= 2 * |live + {k}|)
  {
    if k in live {
      assert live + {k} == live;
    } else if o.tracked {
      CompactKeepsInv(o, live, n);
      var c := if |o.keys| > |live| && |o.keys| - |live| >= |live| then Compact(o) else o;
      AppendKeepsInv(c, live, n, k);
      assert |live + {k}| == |live| + 1;
    }
  }

  /** The list built when a traversal starts: all stored keys, in any order. */
  lemma {:induction false} StartKeepsInv(ks: seq<Key>, live: set<Key>, n: nat)
    requires Distinct(ks) && (forall k :: k in ks <==> k in live) && (forall x :: x in live ==> Norm(x) == x)
    requires forall i :: 0 < i <= n ==> ArrayKey(i) !in live
    ensures Inv(Order(true, FilledSlots(ks), Positions(ks)), live, n)
  {
    var c := Order(true, FilledSlots(ks), Positions(ks));
    forall i | 0 <= i < |ks| ensures ks[i] in live && ks[i] in c.k2i && c.k2i[ks[i]] == i {
      PositionsExact(ks, i);
    }
  }

  // ----- the same facts, folded -----

  // The table operations pass the invariant along without looking into it; it is
  // stated under a token so that its quantifiers stay out of their proofs.

  predicate Token(t: nat) { true }

  ghost predicate OrderOk(o: Order, live: set<Key>, n: nat) {
    forall t {:trigger Token(t)} :: Token(t) ==> Inv(o, live, n)
  }

  /** The slot list still has every cursor in its place; slots may only have been
      emptied. */
  ghost predicate SameSlots(o: Order, o': Order) {
    && o'.tracked == o.tracked && o'.k2i == o.k2i && |o'.keys| == |o.keys|
    && (forall i :: 0 <= i < |o.keys| && o'.keys[i].Some? ==> o'.keys[i] == o.keys[i])
  }

  /** Keys that may be stored outside an array part of length `n`. */
  ghost predicate Storable(live: set<Key>, n: nat) {
    forall k :: k in live ==> Norm(k) == k && (forall i :: 0 < i <= n ==> k != ArrayKey(i))
  }

  lemma {:induction false} DeleteOk(o: Order, live: set<Key>, n: nat, k: Key)
    requires OrderOk(o, live, n)
    ensures OrderOk(Delete(o, k), live - {k}, n) && SameSlots(o, Delete(o, k))
  {
    assert Token(0);
    DeleteKeepsInv(o, live, n, k);
  }

  lemma {:induction false} AddOk(o: Order, live: set<Key>, n: nat, k: Key)
    requires OrderOk(o, live, n) && Storable(live + {k}, n)
    ensures var o' := Add(o, |live|, k);
            && OrderOk(o', live + {k}, n) && (k in live ==> o' == o)
            && (o.tracked && k !in live ==> |o'.keys| <= 2 * |live + {k}|)
  {
    assert Token(0);
    assert k in live + {k};
    AddKeepsInv(o, live, n, k);
  }

  lemma {:induction false} RetireOk(o: Order, live: set<Key>, n: nat, k: Key)
    requires OrderOk(o, live, n) && k !in live
    ensures OrderOk(Retire(o, k), live, n)
  {
    assert Token(0);
    RetireKeepsInv(o, live, n, k);
  }

  lemma {:induction false} ForgetOk(o: Order, live: set<Key>, n: nat, k: Key)
    requires OrderOk(o, live, n)
    ensures OrderOk(ForgetDeleted(o, k), live, n)
    ensures k !in live ==> k !in ForgetDeleted(o, k).k2i
    ensures k !in o.k2i ==> ForgetDeleted(o, k) == o
  {
    assert Token(0);
    ForgetKeepsInv(o, live, n, k);
  }

  /** The array part may take in a position that has no cursor, and may shrink. */
  lemma {:induction false} ResizeOk(o: Order, live: set<Key>, n: nat, m: nat)
    requires OrderOk(o, live, n) && (m <= n || (m == n + 1 && ArrayKey(m) !in o.k2i))
    ensures OrderOk(o, live, m)
  {
    assert Token(0);
  }

  /** Positions of the array part have no cursor. */
  lemma {:induction false} ArrayHasNoCursor(o: Order, live: set<Key>, n: nat, i: int)
    requires OrderOk(o, live, n) && 0 < i <= n
    ensures ArrayKey(i) !in o.k2i
  {
    assert Token(0);
  }

  lemma {:induction false} CursorsNormal(o: Order, live: set<Key>, n: nat, k: Key)
    requires OrderOk(o, live, n) && Norm(k) != k
    ensures k !in o.k2i
  {
    assert Token(0);
  }

  lemma {:induction false} CursorBound(o: Order, live: set<Key>, n: nat, k: Key)
    requires OrderOk(o, live, n)
    ensures k in o.k2i ==> o.k2i[k] < |o.keys|
  {
    assert Token(0);
  }

  lemma {:induction false} SlotIsLive(o: Order, live: set<Key>, n: nat, i: nat)
    requires OrderOk(o, live, n) && i < |o.keys| && o.keys[i].Some?
    ensures o.keys[i].value in live
  {
    assert Token(0);
  }

  lemma {:induction false} StartOrderOk(ks: seq<Key>, live: set<Key>, n: nat)
    requires Distinct(ks) && (forall k :: k in ks <==> k in live) && Storable(live, n)
    ensures OrderOk(Order(true, FilledSlots(ks), Positions(ks)), live, n)
  {
    StartKeepsInv(ks, live, n);
  }

  lemma {:induction false} SlotFound(o: Order, live: set<Key>, n: nat, i: nat)
    requires OrderOk(o, live, n) && i < |o.keys| && o.keys[i].Some?
    ensures var k := o.keys[i].value; Norm(k) == k && k in o.k2i && o.k2i[k] == i
  {
    assert Token(0);
  }

  lemma {:induction false} LiveFound(o: Order, live: set<Key>, n: nat, k: Key)
    requires OrderOk(o, live, n) && o.tracked && k in live
    ensures k in o.k2i && o.k2i[k] < |o.keys| && o.keys[o.k2i[k]] == Some(k)
  {
    assert Token(0);
  }
}
