/** The table's operations (table.go), each proved against the map it stands for. */
module LuaTable {
  import opened TableOrder
  import opened Table

  predicate Open(tok: nat) { true }

  /** The table invariant, folded: the methods pass it along to lemmas. */
  ghost predicate Ok(t: T, slack: nat) {
    forall tok {:trigger Open(tok)} :: Open(tok) ==> ValidT(t, slack)
  }

  /** `t` stands for the same map as `t0`, with at least as long an array part. */
  ghost predicate Moved(t0: T, t: T, slack: nat) {
    forall tok {:trigger Open(tok)} :: Open(tok) ==> ValidT(t, slack) && Same(t0, t) && |t.arr| >= |t0.arr|
  }

  /** An array part that has grown to the limit, beyond which the dictionary has no
      positions that could move over; `t` stands for the same map as `t0`. */
  ghost predicate Overfull(t0: T, t: T) {
    && Bounded(t) && Same(t0, t) && |t0.arr| == |t.arr| == MAX_ARRAY_INDEX && ArrayKey(MAX_ARRAY_INDEX + 1) !in t.dict
  }

  /** While positions move over from the dictionary, for array parts within the limit
      and at it. */
  ghost predicate Pulling(t0: T, t: T, slack: nat) {
    if |t0.arr| < MAX_ARRAY_INDEX then Moved(t0, t, slack) else Overfull(t0, t)
  }

  /** Every known key has a slot. */
  ghost predicate Bounded(t: T) {
    forall tok {:trigger Open(tok)} :: Open(tok) ==> forall k :: k in t.order.k2i ==> t.order.k2i[k] < |t.order.keys|
  }

  /** What taking the next position out of the dictionary needs. */
  ghost predicate Takeable(t: T) {
    Bounded(t) && (ArrayKey(|t.arr| + 1) in t.dict ==> Ok(t, 0))
  }

  lemma {:induction false} MovedSelf(t: T)
    requires Ok(t, 0)
    ensures Moved(t, t, 0)
  {
    assert Open(0);
  }

  lemma {:induction false} Weaken(t: T)
    requires Ok(t, 1)
    ensures Ok(t, 0)
  {
    assert Open(0);
    RepWeaken(t);
  }

  lemma {:induction false} RepWeaken(t: T)
    requires Rep(t, 1)
    ensures Rep(t, 0)
  {
  }

  // ----- what `next` walks over -----

  /** Positions of a traversal: the array part, then the slots. */
  function Item(t: T, p: int): Option<Key> {
    if 0 < p <= |t.arr| then (if t.arr[p - 1] != Nil then Some(ArrayKey(p)) else None)
    else if |t.arr| < p <= |t.arr| + |t.order.keys| then t.order.keys[p - |t.arr| - 1]
    else None
  }

  /** The position of a key given to `next`; unknown keys have none. */
  function Cursor(t: T, key: Option<Key>): Option<int> {
    if key.None? then Some(0)
    else
      var k := Norm(key.value);
      if k in t.order.k2i then Some(|t.arr| + 1 + t.order.k2i[k])
      else if k.Number? && k.f.Whole? && IsArrayIndex(k.f.i) then Some(if k.f.i <= |t.arr| then k.f.i else |t.arr|)
      else None
  }

  /** `k` is the first item after position `c`, if there is one. */
  ghost predicate IsNext(t: T, c: int, k: Option<Key>) {
    if k.None? then forall p :: p > c ==> Item(t, p).None?
    else exists p :: ItemAfter(t, c, p) && Item(t, p) == k
  }

  ghost predicate ItemAfter(t: T, c: int, p: int) {
    p > c && Item(t, p).Some? && forall q :: c < q < p ==> Item(t, q).None?
  }

  /** Nothing that a traversal depends on has changed: the cursors keep their
      places, and an item may only have disappeared. */
  ghost predicate KeepsTraversal(t: T, t': T) {
    |t'.arr| == |t.arr| && SameSlots(t.order, t'.order)
  }

  /** The effect of a write on the map, on a running traversal and on the size of
      the slot list. */
  ghost predicate Written(t: T, t': T, k: Key, v: Value) {
    && Ok(t', 1) && Put(t, t', k, v)
    && (v == Nil || Lookup(t, k) != Nil ==> KeepsTraversal(t, t'))
    && (t.order.tracked && k in Live(t') && k !in Live(t) ==> SlotsBounded(t'))
  }

  /** Moves the filled slots down over the empty ones and numbers them. */
  method Squeeze(all: seq<Option<Key>>) returns (keys: seq<Option<Key>>, k2i: map<Key, nat>)
    ensures keys == FilledSlots(Filled(all)) && k2i == Positions(Filled(all))
  {
    keys, k2i := all, map[];
    var n := 0;
    var i := 0;
    while i < |keys|
      invariant n <= i <= |keys| == |all| && keys[i..] == all[i..]
      invariant |Filled(all[..i])| == n && keys[..n] == FilledSlots(Filled(all[..i]))
      invariant k2i == Positions(Filled(all[..i]))
    {
      assert all[..i + 1][..i] == all[..i];
      assert keys[i] == all[i] by {
        assert keys[i..][0] == all[i..][0];
      }
      if keys[i].Some? {
        ghost var ks := Filled(all[..i]);
        assert (ks + [keys[i].value])[..n] == ks;
        k2i := k2i[keys[i].value := n];
        keys := keys[n := keys[i]];
        n := n + 1;
      }
      i := i + 1;
    }
    assert all[..i] == all;
    keys := keys[..n];
  }

  class LTable {
    var arr: seq<Value>
    var hasArray: bool
    var dict: map<Key, Value>
    var hasDict: bool
    var sparse: bool
    var strdict: map<string, Value>
    var tracked: bool
    var keys: seq<Option<Key>>
    var k2i: map<Key, nat>
    var immutable: bool

    constructor (acap: nat)
      ensures Ok(View(), 1) && !immutable && forall k :: Lookup(View(), k) == Nil
    {
      arr, hasArray := [], acap != 0;
      dict, hasDict, sparse, strdict := map[], false, false, map[];
      tracked, keys, k2i, immutable := false, [], map[], false;
    }

    ghost function View(): T
      reads this
    {
      T(arr, hasArray, dict, hasDict, sparse, strdict, Order(tracked, keys, k2i))
    }

    // ----- the slot list -----

    method DeleteIterationKey(key: Key)
      requires key in k2i ==> k2i[key] < |keys|
      modifies `keys
      ensures View() == old(View()).(order := Delete(old(View()).order, key))
    {
      if key in k2i {
        keys := keys[k2i[key] := None];
      }
    }

    method CompactKeys()
      modifies `keys, `k2i
      ensures View() == old(View()).(order := Compact(old(View()).order))
    {
      keys, k2i := Squeeze(keys);
    }

    method AddIterationKey(key: Key)
      requires key in k2i ==> k2i[key] < |keys|
      modifies `keys, `k2i
      ensures View() == old(View()).(order := Add(old(View()).order, |dict| + |strdict|, key))
    {
      if !tracked {
        return;
      }
      if key in k2i && keys[k2i[key]] != None {
        return;
      }
      var live := |strdict| + |dict|;
      if |keys| > live && |keys| - live >= live {
        CompactKeys();
      }
      k2i := k2i[key := |keys|];
      keys := keys + [Some(key)];
    }

    method ForgetDeletedArrayKey(key: int)
      requires ArrayKey(key) in k2i ==> k2i[ArrayKey(key)] < |keys|
      requires Integer(key) in k2i ==> k2i[Integer(key)] < |keys|
      modifies `k2i
      ensures View() == Forget(old(View()), key)
    {
      if |k2i| == 0 {
        return;
      }
      if ArrayKey(key) in k2i && keys[k2i[ArrayKey(key)]] == None {
        k2i := k2i - {ArrayKey(key)};
      }
      if Integer(key) in k2i && keys[k2i[Integer(key)]] == None {
        k2i := k2i - {Integer(key)};
      }
    }

    // ----- the dictionaries -----

    method ReleaseEmptySparseHash()
      modifies `hasDict, `sparse
      ensures View() == Release(old(View()))
    {
      if sparse && |dict| == 0 {
        hasDict, sparse := false, false;
      }
    }

    /** Writes a key in stored form that is not a string. */
    method RawSetHash(key: Key, value: Value)
      requires Ok(View(), 0)
      modifies this
      ensures View() == SetDict(old(View()), key, value) && immutable == old(immutable)
    {
      BoundedCursor(View(), key);
      if value == Nil {
        DeleteHash(key);
      } else {
        StoreHash(key, value);
      }
    }

    method DeleteHash(key: Key)
      requires key in k2i ==> k2i[key] < |keys|
      modifies this
      ensures View() == SetDict(old(View()), key, Nil) && immutable == old(immutable)
    {
      if hasDict {
        dict := dict - {key};
      }
      DeleteIterationKey(key);
      ReleaseEmptySparseHash();
    }

    method StoreHash(key: Key, value: Value)
      requires (key in k2i ==> k2i[key] < |keys|) && value != Nil
      modifies this
      ensures View() == SetDict(old(View()), key, value) && immutable == old(immutable)
    {
      sparse := false;
      hasDict := true;
      AddIterationKey(key);
      dict := dict[key := value];
    }

    method RawSetString(key: string, value: Value) returns (ok: bool)
      requires Ok(View(), 1)
      modifies this
      ensures immutable == old(immutable) && ok == !immutable
      ensures immutable ==> View() == old(View())
      ensures !immutable ==> Written(old(View()), View(), Str(key), value)
    {
      if immutable {
        return false;
      }
      ghost var t := View();
      Weaken(t);
      BoundedCursor(t, Str(key));
      StoreString(key, value);
      StrWritten(t, key, value);
      return true;
    }

    method StoreString(key: string, value: Value)
      requires Str(key) in k2i ==> k2i[Str(key)] < |keys|
      modifies this
      ensures View() == SetStr(old(View()), key, value) && immutable == old(immutable)
    {
      if value == Nil {
        strdict := strdict - {key};
        DeleteIterationKey(Str(key));
      } else {
        AddIterationKey(Str(key));
        strdict := strdict[key := value];
      }
    }

    // ----- positions -----

    method TakeHashed(key: int) returns (v: Value)
      requires Takeable(View()) && key == |arr| + 1
      modifies this
      ensures Takes(old(View()), View(), v) && immutable == old(immutable)
    {
      KeyBounded(View(), ArrayKey(key));
      KeyBounded(View(), Integer(key));
      ghost var t := View();
      ForgetDeletedArrayKey(key);
      if |dict| == 0 || ArrayKey(key) !in dict {
        return Nil;
      }
      v := dict[ArrayKey(key)];
      ForgetKeepsOk(t, key);
      RawSetHash(ArrayKey(key), Nil);
      k2i := k2i - {ArrayKey(key)};
    }

    /** Moves positions over as long as the next one is in the dictionary. */
    method PullHashed(ghost t0: T)
      requires Pulling(t0, View(), 0)
      modifies this
      ensures Pulling(t0, View(), 1) && immutable == old(immutable)
    {
      while |dict| > 0
        invariant Pulling(t0, View(), 0) && immutable == old(immutable)
        decreases |dict|
      {
        var more := PullNext(t0);
        if !more {
          return;
        }
      }
      PullEnd(t0, View());
    }

    method GrowArray(v: Value)
      modifies `arr, `hasArray
      ensures View() == Grow(old(View()), v)
    {
      arr, hasArray := arr + [v], true;
    }

    /** Moves the next position over, if the dictionary has it. */
    method PullNext(ghost t0: T) returns (more: bool)
      requires Pulling(t0, View(), 0)
      modifies this
      ensures Pulling(t0, View(), if more then 0 else 1) && (more ==> |dict| < |old(dict)|) && immutable == old(immutable)
    {
      ghost var t := View();
      PullReady(t0, t);
      var v := TakeHashed(|arr| + 1);
      ghost var t1 := View();
      PullStep(t0, t, t1, v);
      if v == Nil {
        return false;
      }
      GrowArray(v);
      return true;
    }

    method SetSparseIntKey(key: int, value: Value)
      requires Ok(View(), 1) && IsArrayIndex(key) && key > |arr|
      modifies this
      ensures Written(old(View()), View(), ArrayKey(key), value) && immutable == old(immutable)
      ensures if value == Nil || key - 1 - |old(arr)| > 32 || ArrayKey(key) in old(dict) then arr == old(arr) else |arr| >= key
    {
      ghost var t := View();
      var index, alen := key - 1, |arr|;
      var gap := index - alen;
      var alreadyHashed := ArrayKey(key) in dict;
      if value == Nil || gap > MAX_ARRAY_GAP || alreadyHashed {
        SetOverflow(key, value);
        return;
      }
      ExtendTo(key, value);
    }

    /** Extends the array part up to and including `key`. */
    method ExtendTo(key: int, value: Value)
      requires Ok(View(), 1) && IsArrayIndex(key) && key > |arr| && value != Nil && ArrayKey(key) !in dict
      modifies this
      ensures Written(old(View()), View(), ArrayKey(key), value) && immutable == old(immutable) && |arr| >= key
    {
      ghost var t := View();
      Weaken(t);
      hasArray := true;
      HasArrayMoved(t);
      FillUpTo(t, key);
      ghost var t1 := View();
      MovedOk(t, t1);
      OkTakeable(t1);
      var v := TakeHashed(key);
      GrowAfterTake(t, t1, View(), v, value);
      arr := arr + [value];
      ghost var t2 := View();
      BeginPull(t2);
      PullHashed(t2);
      PutThenMoved(t, t2, View(), key, value);
      MovedLonger(t2, View());
    }

    /** Keeps a position in the dictionary. */
    method SetOverflow(key: int, value: Value)
      requires Ok(View(), 1) && IsArrayIndex(key) && key > |arr|
      requires value != Nil ==> key > |arr| + 1 || ArrayKey(key) in dict
      modifies this
      ensures Written(old(View()), View(), ArrayKey(key), value) && immutable == old(immutable) && arr == old(arr)
    {
      ghost var t := View();
      Weaken(t);
      var sparseOrigin := !hasDict || sparse;
      RawSetHash(ArrayKey(key), value);
      HashWritten(t, ArrayKey(key), value);
      if sparseOrigin {
        SparseMark(t, View(), ArrayKey(key), value);
        sparse := true;
        ReleaseEmptySparseHash();
      }
    }

    /** Moves the positions before `key` into the array part, with or without a
        value. */
    method FillUpTo(ghost t0: T, key: int)
      requires Moved(t0, View(), 0) && |arr| < key && IsArrayIndex(key) && ArrayKey(key) !in dict && hasArray
      modifies this
      ensures Moved(t0, View(), 0) && |arr| == key - 1 && ArrayKey(key) !in dict && hasArray
      ensures immutable == old(immutable)
    {
      var position := |arr| + 1;
      while position < key
        invariant |arr| + 1 == position <= key && Moved(t0, View(), 0) && ArrayKey(key) !in dict && hasArray
        invariant immutable == old(immutable)
      {
        ghost var t := View();
        MovedOk(t0, t);
        OkTakeable(t);
        var v := TakeHashed(position);
        PromoteMoved(t0, t, View(), v);
        arr := arr + [v];
        position := position + 1;
      }
    }

    /** Writes a position of the array range. */
    method SetIndex(key: int, value: Value)
      requires Ok(View(), 1) && IsArrayIndex(key)
      modifies this
      ensures Written(old(View()), View(), ArrayKey(key), value) && immutable == old(immutable)
    {
      if key - 1 < |arr| {
        SetInArray(key, value);
      } else if key - 1 == |arr| && hasArray && value != Nil && |dict| == 0 {
        assert dict == map[];
        AppendToArray(value);
      } else {
        SetSparseIntKey(key, value);
      }
    }

    method SetInArray(key: int, value: Value)
      requires Ok(View(), 1) && 0 < key <= |arr|
      modifies `arr, `k2i
      ensures Written(old(View()), View(), ArrayKey(key), value)
    {
      ghost var t := View();
      NoArrayCursor(t, key);
      arr := arr[key - 1 := value];
      ForgetDeletedArrayKey(key);
      ArrayWritten(t, key, value);
      assert View() == WriteArray(t, key, value);
    }

    method AppendToArray(value: Value)
      requires Ok(View(), 1) && |arr| + 1 < MAX_ARRAY_INDEX && hasArray && value != Nil && dict == map[]
      modifies `arr, `k2i
      ensures Written(old(View()), View(), ArrayKey(|old(arr)| + 1), value)
    {
      ghost var t := View();
      Weaken(t);
      BoundedCursor(t, ArrayKey(|arr| + 1));
      BoundedCursor(t, Integer(|arr| + 1));
      arr := arr + [value];
      ForgetDeletedArrayKey(|arr|);
      assert View() == Grow(Forget(t, |t.arr| + 1), value);
      AppendWritten(t, value);
    }

    // ----- reading and writing by key -----

    method RawSet(key: Key, value: Value) returns (ok: bool)
      requires Ok(View(), 1)
      modifies this
      ensures immutable == old(immutable) && ok == !immutable
      ensures immutable ==> View() == old(View())
      ensures !immutable ==> Written(old(View()), View(), Norm(key), value)
    {
      if immutable {
        return false;
      }
      match key {
        case Number(Whole(i)) =>
          if IsArrayIndex(i) {
            SetIndex(i, value);
            return true;
          }
        case Integer(i) =>
          if IsArrayIndex(i) {
            SetIndex(i, value);
            return true;
          }
        case Str(s) =>
          ok := RawSetString(s, value);
          return;
        case _ =>
      }
      ghost var t := View();
      Weaken(t);
      RawSetHash(Norm(key), value);
      HashWritten(t, Norm(key), value);
      return true;
    }

    method RawSetInt(key: int, value: Value) returns (ok: bool)
      requires Ok(View(), 1)
      modifies this
      ensures immutable == old(immutable) && ok == !immutable
      ensures immutable ==> View() == old(View())
      ensures !immutable ==> Written(old(View()), View(), Norm(Integer(key)), value)
    {
      if immutable {
        return false;
      }
      if key < 1 || key >= MAX_ARRAY_INDEX {
        ghost var t := View();
        Weaken(t);
        RawSetHash(Norm(Integer(key)), value);
        HashWritten(t, Integer(key), value);
        return true;
      }
      SetIndex(key, value);
      return true;
    }

    method RawGet(key: Key) returns (v: Value)
      ensures v == Lookup(View(), Norm(key))
    {
      match key {
        case Number(Whole(i)) =>
          if IsArrayIndex(i) {
            v := GetIntKey(i);
            return;
          }
        case Integer(i) =>
          if IsArrayIndex(i) {
            v := GetIntKey(i);
            return;
          }
        case Str(s) =>
          return if s in strdict then strdict[s] else Nil;
        case _ =>
      }
      return if Norm(key) in dict then dict[Norm(key)] else Nil;
    }

    method GetIntKey(key: int) returns (v: Value)
      requires IsArrayIndex(key)
      ensures v == Lookup(View(), ArrayKey(key))
    {
      if key - 1 < |arr| {
        return arr[key - 1];
      }
      return if ArrayKey(key) in dict then dict[ArrayKey(key)] else Nil;
    }

    // ----- sequence operations -----

    method Len() returns (n: nat)
      ensures n == LastFilled(arr)
    {
      if !hasArray && |arr| == 0 {
        return 0;
      }
      var i := |arr| - 1;
      assert arr[..|arr|] == arr;
      while i >= 0
        invariant -1 <= i < |arr| && LastFilled(arr) == LastFilled(arr[..i + 1])
        decreases i
      {
        assert arr[..i + 1][..i] == arr[..i];
        if arr[i] != Nil {
          return i + 1;
        }
        i := i - 1;
      }
      return 0;
    }

    method Append(value: Value) returns (ok: bool)
      requires Ok(View(), 1)
      modifies this
      ensures immutable == old(immutable) && ok == !immutable
      ensures immutable || value == Nil ==> View() == old(View())
      ensures !immutable && value != Nil ==> Appended(old(View()), View(), value)
      ensures !immutable && value != Nil ==>
                var n := LastFilled(old(arr));
                (Put(old(View()), View(), Norm(Integer(n + 1)), value) <==> n + 1 < MAX_ARRAY_INDEX || Lookup(old(View()), Integer(MAX_ARRAY_INDEX)) == value)
    {
      ghost var t := View();
      if immutable {
        return false;
      }
      if value == Nil {
        return true;
      }
      if |arr| == 0 || arr[|arr| - 1] != Nil {
        AppendAtEnd(value);
      } else {
        var i := |arr| - 2;
        while i >= 0 && arr[i] == Nil
          invariant -1 <= i < |arr| - 1 && LastFilled(arr) == LastFilled(arr[..i + 1])
          decreases i
        {
          assert arr[..i + 1][..i] == arr[..i];
          i := i - 1;
        }
        LastFilledIs(arr, i + 1);
        SetInArray(i + 2, value);
        HoleFilled(t, View(), value);
      }
      AppendVisible(t, View(), value);
      return true;
    }

    method AppendSlot(value: Value)
      requires ArrayKey(|arr| + 1) in k2i ==> k2i[ArrayKey(|arr| + 1)] < |keys|
      requires Integer(|arr| + 1) in k2i ==> k2i[Integer(|arr| + 1)] < |keys|
      modifies this
      ensures IsGrown(old(View()), View(), value) && |dict| == |old(dict)| && immutable == old(immutable)
    {
      arr, hasArray := arr + [value], true;
      ForgetDeletedArrayKey(|arr|);
    }

    method AppendAtEnd(value: Value)
      requires Ok(View(), 1) && value != Nil && LastFilled(arr) == |arr|
      modifies this
      ensures immutable == old(immutable) && Appended(old(View()), View(), value)
    {
      ghost var t := View();
      Weaken(t);
      BoundedCursor(t, ArrayKey(|arr| + 1));
      BoundedCursor(t, Integer(|arr| + 1));
      AppendSlot(value);
      ghost var t2 := View();
      AppendPulling(t, t2, value);
      if |dict| > 0 {
        PullHashed(t2);
      } else {
        PullEnd(t2, t2);
      }
      AppendPulled(t, t2, View(), value);
    }

    method Insert(pos: int, value: Value) returns (ok: bool)
      requires Ok(View(), 1)
      modifies this
      ensures immutable == old(immutable) && ok == !immutable
      ensures immutable ==> View() == old(View())
      ensures !immutable && !(0 < pos <= LastFilled(old(arr))) ==> Ok(View(), 1) && Put(old(View()), View(), Norm(Integer(pos)), value)
      ensures !immutable && 0 < pos <= LastFilled(old(arr)) ==> ShiftedIn(old(View()), View(), pos, value)
      ensures !immutable && 0 < pos <= LastFilled(old(arr)) ==>
                (Inserted(old(View()), View(), pos, value) <==>
                   || LastFilled(old(arr)) + 1 < MAX_ARRAY_INDEX
                   || Lookup(old(View()), Integer(MAX_ARRAY_INDEX)) == Lookup(old(View()), ArrayKey(MAX_ARRAY_INDEX - 1)))
    {
      if immutable {
        return false;
      }
      var length := Len();
      if pos > length {
        ok := RawSetInt(pos, value);
        return;
      }
      if pos <= 0 {
        ok := RawSet(Number(Whole(pos)), value);
        return;
      }
      ghost var t := View();
      InsertShifting(pos, length, value);
      InsertVisible(t, View(), pos, value);
      return true;
    }

    method InsertShifting(pos: int, length: nat, value: Value)
      requires Ok(View(), 1) && length == LastFilled(arr) && 0 < pos <= length
      modifies this
      ensures ShiftedIn(old(View()), View(), pos, value) && immutable == old(immutable)
    {
      ghost var t := View();
      Weaken(t);
      ShiftUp(pos, length, value);
      ghost var t2 := View();
      InsertPulling(t, pos, value);
      PullHashed(t2);
      InsertPulled(t, View(), pos, value);
    }

    method ShiftUp(pos: int, length: nat, value: Value)
      requires Ok(View(), 0) && 0 < pos <= length <= |arr|
      modifies `arr, `k2i
      ensures View() == InsertedAt(old(View()), pos, length, value)
    {
      ghost var t := View();
      BoundedCursor(t, ArrayKey(length + 1));
      BoundedCursor(t, Integer(length + 1));
      ForgetDeletedArrayKey(length + 1);
      arr := Spread(if length == |arr| then arr + [Nil] else arr, pos, length, value);
    }

    method Remove(pos: int) returns (v: Value, ok: bool)
      requires Ok(View(), 1)
      modifies this
      ensures immutable == old(immutable) && ok == !immutable && (immutable ==> View() == old(View()) && v == Nil)
      ensures !immutable ==>
                && Ok(View(), 1)
                && var n := LastFilled(old(arr)); var p := if pos <= 0 then n else pos;
                if n == 0 || p > n then View() == old(View()) && v == Nil
                else v == old(arr)[p - 1] && Removed(old(View()), View(), p)
    {
      if immutable {
        return Nil, false;
      }
      if !hasArray && |arr| == 0 {
        return Nil, true;
      }
      var larray := Len();
      if larray == 0 || pos - 1 >= larray {
        return Nil, true;
      }
      ghost var t := View();
      LastFilledBound(arr);
      var p := if pos - 1 == larray - 1 || pos - 1 < 0 then larray else pos;
      NoArrayCursor(t, larray);
      v := arr[p - 1];
      arr := arr[..p - 1] + arr[p..larray];
      ForgetDeletedArrayKey(larray);
      assert View() == RemovedAt(t, p, larray);
      RemoveCorrect(t, p);
      return v, true;
    }

    // ----- traversal -----

    /** Builds the slot list on the first traversal, in any order. */
    method EnsureIterationOrder()
      requires Ok(View(), 1)
      modifies this
      ensures Ok(View(), 1) && tracked && Same(old(View()), View()) && immutable == old(immutable)
      ensures arr == old(arr) && (old(tracked) ==> View() == old(View()))
    {
      if tracked {
        return;
      }
      ghost var t := View();
      var ks := HashKeys();
      keys, k2i, tracked := FilledSlots(ks), Positions(ks), true;
      StartOk(t, ks);
    }

    /** All keys of the two dictionaries, strings first. */
    method HashKeys() returns (ks: seq<Key>)
      requires Ok(View(), 1)
      ensures Distinct(ks) && forall k :: k in ks <==> (k.Str? && k.s in strdict) || k in dict
    {
      ks := [];
      var strs := strdict.Keys;
      while strs != {}
        invariant strs <= strdict.Keys && Distinct(ks)
        invariant forall k :: k in ks <==> k.Str? && k.s in strdict && k.s !in strs
        decreases strs
      {
        var s :| s in strs;
        ks, strs := ks + [Str(s)], strs - {s};
      }
      var others := dict.Keys;
      DictHasNoStr(View());
      while others != {}
        invariant others <= dict.Keys && Distinct(ks)
        invariant forall k :: k in ks <==> (k.Str? && k.s in strdict) || (k in dict && k !in others)
        decreases others
      {
        var k :| k in others;
        ks, others := ks + [k], others - {k};
      }
    }

    method Next(key: Option<Key>) returns (k: Option<Key>, v: Value)
      requires Ok(View(), 1)
      modifies this
      ensures Ok(View(), 1) && tracked && Same(old(View()), View()) && immutable == old(immutable)
      ensures arr == old(arr) && (old(tracked) ==> View() == old(View()))
      ensures var c := Cursor(View(), key); if c.None? then k.None? else IsNext(View(), c.value, k)
      ensures k.Some? ==> v == Lookup(View(), k.value) && v != Nil
    {
      EnsureIterationOrder();
      ghost var t := View();
      var hashIndex, arrayIndex := 0, 0;
      if key.Some? {
        var nk := Norm(key.value);
        if nk in k2i {
          hashIndex, arrayIndex := k2i[nk] + 1, |arr|;
        } else if nk.Number? && nk.f.Whole? && IsArrayIndex(nk.f.i) {
          arrayIndex := nk.f.i;
        } else {
          return None, Nil;
        }
      }
      ghost var c := Cursor(t, key).value;
      while arrayIndex < |arr|
        invariant arrayIndex >= 0 && View() == t
        invariant hashIndex == 0 || arrayIndex >= |arr|
        invariant hashIndex == 0 ==> c <= arrayIndex && (arrayIndex <= |arr| ==> forall q :: c < q <= arrayIndex ==> Item(t, q).None?)
        invariant hashIndex > 0 ==> c == |arr| + hashIndex
        invariant arrayIndex > |arr| ==> c == |arr| && hashIndex == 0
        decreases |arr| - arrayIndex
      {
        if arr[arrayIndex] != Nil {
          assert ItemAfter(t, c, arrayIndex + 1);
          ArrayShort(t);
          return Some(ArrayKey(arrayIndex + 1)), arr[arrayIndex];
        }
        arrayIndex := arrayIndex + 1;
      }
      var i := hashIndex;
      while i < |keys|
        invariant hashIndex <= i && View() == t
        invariant forall q :: c < q <= |arr| + i ==> Item(t, q).None?
      {
        assert Item(t, |arr| + i + 1) == keys[i];
        if keys[i].Some? {
          LiveSlot(t, i);
          var kk := keys[i].value;
          v := if kk.Str? then strdict[kk.s] else dict[kk];
          assert ItemAfter(t, c, |arr| + i + 1);
          return Some(kk), v;
        }
        i := i + 1;
      }
      return None, Nil;
    }
  }

  lemma {:induction false} BoundedCursor(t: T, k: Key)
    requires Ok(t, 0)
    ensures k in t.order.k2i ==> t.order.k2i[k] < |t.order.keys|
  {
    assert Open(0);
    CursorBound(t.order, Live(t), |t.arr|, k);
  }

  lemma {:induction false} KeyBounded(t: T, k: Key)
    requires Bounded(t)
    ensures k in t.order.k2i ==> t.order.k2i[k] < |t.order.keys|
  {
    assert Open(0);
  }

  lemma {:induction false} OkTakeable(t: T)
    requires Ok(t, 0)
    ensures Takeable(t)
  {
    forall k ensures k in t.order.k2i ==> t.order.k2i[k] < |t.order.keys| {
      BoundedCursor(t, k);
    }
  }

  lemma {:induction false} BeginPull(t: T)
    requires Ok(t, 0)
    ensures |t.arr| < MAX_ARRAY_INDEX && Pulling(t, t, 0)
  {
    MovedSelf(t);
    ArrayWithinLimit(t);
  }

  lemma {:induction false} ArrayWithinLimit(t: T)
    requires Ok(t, 0)
    ensures |t.arr| < MAX_ARRAY_INDEX
  {
    assert Open(0);
  }

  lemma {:induction false} StrWritten(t: T, s: string, v: Value)
    requires Ok(t, 1)
    ensures Written(t, SetStr(t, s, v), Str(s), v)
  {
    assert Open(0);
    StrPut(t, s, v);
    if v == Nil {
      StrDeleted(t, s);
    } else {
      StrStored(t, s, v);
    }
  }

  lemma {:induction false} ForgetKeepsOk(t: T, i: int)
    requires Ok(t, 0)
    ensures Ok(Forget(t, i), 0)
  {
    assert Open(0);
    ForgetCorrect(t, i, 0);
  }

  lemma {:induction false} SameTrans(a: T, b: T, c: T)
    requires Same(a, b) && Same(b, c)
    ensures Same(a, c)
  {
    forall x | Norm(x) == x ensures Lookup(c, x) == Lookup(a, x) {
      assert Lookup(b, x) == Lookup(a, x);
    }
  }

  lemma {:induction false} MovedOk(t0: T, t: T)
    requires Moved(t0, t, 0)
    ensures Ok(t, 0)
  {
    assert Open(0);
  }

  lemma {:induction false} MovedLonger(a: T, b: T)
    requires Moved(a, b, 1)
    ensures |b.arr| >= |a.arr|
  {
    assert Open(0);
  }

  lemma {:induction false} PutThenMoved(a: T, b: T, c: T, i: int, v: Value)
    requires Put(a, b, ArrayKey(i), v) && Moved(b, c, 1)
    requires v != Nil && Lookup(a, ArrayKey(i)) == Nil && i <= |b.arr|
    ensures Written(a, c, ArrayKey(i), v)
  {
    assert Open(0);
    var k := ArrayKey(i);
    forall x | Norm(x) == x ensures Lookup(c, x) == if x == k then v else Lookup(a, x) {
      assert Lookup(b, x) == if x == k then v else Lookup(a, x);
    }
  }

  lemma {:induction false} PromoteMoved(t0: T, t: T, t1: T, v: Value)
    requires Moved(t0, t, 0) && |t.arr| + 1 < MAX_ARRAY_INDEX && Takes(t, t1, v)
    ensures Moved(t0, Grow(t1, v), 0)
    ensures t1.arr == t.arr && t1.dict == t.dict - {ArrayKey(|t.arr| + 1)} && t1.hasArray == t.hasArray
  {
    assert Open(0);
    PromoteCorrect(t, t1, v);
    SameTrans(t0, t, Grow(t1, v));
  }

  lemma {:induction false} NextAbsent(t: T, t1: T)
    requires Rep(t, 0) && ArrayKey(|t.arr| + 1) !in t.dict && Rep(t1, 0)
    requires t1.arr == t.arr && t1.dict == t.dict && t1.strdict == t.strdict
    ensures Rep(t1, 1) && Same(t, t1)
  {
    forall k | k in t1.dict ensures DictKeyOk(k, |t1.arr|, 1) {
      assert k != ArrayKey(|t.arr| + 1);
    }
  }

  lemma {:induction false} PullNone(t0: T, t: T, t1: T, v: Value)
    requires Moved(t0, t, 0) && ArrayKey(|t.arr| + 1) !in t.dict && Takes(t, t1, v)
    ensures v == Nil && Moved(t0, t1, 1)
  {
    assert Open(0);
    TakeCorrect(t, t1, v);
    assert TakeToken(0);
    assert t.dict - {ArrayKey(|t.arr| + 1)} == t.dict;
    NextAbsent(t, t1);
    SameTrans(t0, t, t1);
  }

  lemma {:induction false} PullSome(t0: T, t: T, t1: T, v: Value)
    requires Moved(t0, t, 0) && ArrayKey(|t.arr| + 1) in t.dict && Takes(t, t1, v)
    ensures v != Nil && Moved(t0, Grow(t1, v), 0) && |t1.dict| < |t.dict|
  {
    NextInRange(t0, t, t1, v);
    PromoteMoved(t0, t, t1, v);
    RemoveSmaller(t.dict, ArrayKey(|t.arr| + 1));
  }

  lemma {:induction false} NextInRange(t0: T, t: T, t1: T, v: Value)
    requires Moved(t0, t, 0) && ArrayKey(|t.arr| + 1) in t.dict && Takes(t, t1, v)
    ensures |t.arr| + 1 < MAX_ARRAY_INDEX && v != Nil
  {
    assert Open(0);
    TakeCorrect(t, t1, v);
  }

  lemma {:induction false} PullReady(t0: T, t: T)
    requires Pulling(t0, t, 0)
    ensures Takeable(t)
  {
    if |t0.arr| < MAX_ARRAY_INDEX {
      MovedOk(t0, t);
      OkTakeable(t);
    }
  }

  /** One round of pulling: the position after the array part moves over, or it
      has no value and the array part is maximal. */
  lemma {:induction false} PullStep(t0: T, t: T, t1: T, v: Value)
    requires Pulling(t0, t, 0) && Takes(t, t1, v)
    ensures v == Nil ==> Pulling(t0, t1, 1)
    ensures v != Nil ==> Pulling(t0, Grow(t1, v), 0) && |t1.dict| < |t.dict|
  {
    if |t0.arr| >= MAX_ARRAY_INDEX {
      PullBeyond(t0, t, t1, v);
    } else if ArrayKey(|t.arr| + 1) in t.dict {
      PullSome(t0, t, t1, v);
    } else {
      PullNone(t0, t, t1, v);
    }
  }

  /** Beyond the limit no position moves over. */
  lemma {:induction false} PullBeyond(t0: T, t: T, t1: T, v: Value)
    requires Overfull(t0, t) && Takes(t, t1, v)
    ensures v == Nil && Overfull(t0, t1)
  {
    ForgetBounded(t, |t.arr| + 1);
    ForgetSame(t, |t.arr| + 1);
    SameTrans(t0, t, Forget(t, |t.arr| + 1));
    assert TakeSeen(0);
  }

  lemma {:induction false} ForgetBounded(t: T, i: int)
    requires Bounded(t)
    ensures Bounded(Forget(t, i))
  {
    forall k ensures k in Forget(t, i).order.k2i ==> Forget(t, i).order.k2i[k] < |t.order.keys| {
      KeyBounded(t, k);
    }
  }

  lemma {:induction false} ForgetSame(t: T, i: int)
    ensures Same(t, Forget(t, i))
  {
  }

  lemma {:induction false} PullEnd(t0: T, t: T)
    requires Pulling(t0, t, 0) && t.dict == map[]
    ensures Pulling(t0, t, 1)
  {
    assert Open(0);
    if |t0.arr| < MAX_ARRAY_INDEX {
      assert Rep(t, 1);
    }
  }

  /** A write to the general dictionary. */
  lemma {:induction false} HashWritten(t: T, k: Key, v: Value)
    requires Ok(t, 1) && Norm(k) == k && !k.Str?
    requires k.Number? && k.f.Whole? ==> k.f.i > |t.arr| && (v != Nil ==> k.f.i > |t.arr| + 1 || k in t.dict)
    ensures Written(t, SetDict(t, k, v), k, v)
  {
    assert Open(0);
    RepWeaken(t);
    DictAfter(t, k, v);
    DictPut(t, k, v, 0);
    if v == Nil {
      DictDeleted(t, k, 1);
    } else {
      DictStored(t, k, v, 1);
    }
  }

  lemma {:induction false} MarkKeepsOk(t: T)
    requires Ok(t, 1)
    ensures Ok(Release(t.(sparse := true)), 1)
  {
    assert Open(0);
    Released(t.(sparse := true));
    MarkedOk(t, Release(t.(sparse := true)));
  }

  lemma {:induction false} MarkedOk(t: T, t': T)
    requires ValidT(t, 1) && t'.arr == t.arr && t'.hasArray == t.hasArray && t'.dict == t.dict && t'.strdict == t.strdict && t'.order == t.order
    requires !t'.hasDict ==> t'.dict == map[]
    ensures ValidT(t', 1)
  {
    assert Live(t') == Live(t);
  }

  lemma {:induction false} MarkKeepsMap(t: T, t1: T, k: Key, v: Value)
    requires Put(t, t1, k, v)
    ensures Put(t, Release(t1.(sparse := true)), k, v)
  {
    var t2 := Release(t1.(sparse := true));
    forall x | Norm(x) == x ensures Lookup(t2, x) == if x == k then v else Lookup(t, x) {
      assert Lookup(t1, x) == if x == k then v else Lookup(t, x);
    }
  }

  lemma {:induction false} SparseMark(t: T, t1: T, k: Key, v: Value)
    requires Written(t, t1, k, v)
    ensures Written(t, Release(t1.(sparse := true)), k, v)
  {
    MarkKeepsOk(t1);
    MarkKeepsMap(t, t1, k, v);
  }

  lemma {:induction false} HasArrayMoved(t: T)
    requires Ok(t, 0)
    ensures Moved(t, t.(hasArray := true), 0)
  {
    assert Open(0);
    assert Live(t.(hasArray := true)) == Live(t);
  }

  lemma {:induction false} GrowAfterTake(t: T, t1: T, t1': T, v': Value, v: Value)
    requires Moved(t, t1, 0) && |t1.arr| + 1 < MAX_ARRAY_INDEX && Takes(t1, t1', v')
    requires ArrayKey(|t1.arr| + 1) !in t1.dict
    ensures var t2 := Grow(t1', v);
            && t1'.arr == t1.arr && t1'.hasArray == t1.hasArray
            && Ok(t2, 0) && Put(t, t2, ArrayKey(|t1.arr| + 1), v)
  {
    assert Open(0);
    var k := ArrayKey(|t1.arr| + 1);
    TakeCorrect(t1, t1', v');
    assert TakeToken(0);
    GrowCorrect(t1', v);
    var t2 := Grow(t1', v);
    assert t1.dict - {k} == t1.dict;
    forall x | Norm(x) == x ensures Lookup(t2, x) == if x == k then v else Lookup(t, x) {
      assert Lookup(t1, x) == Lookup(t, x);
      assert Lookup(t1', x) == Lookup(t1, x);
    }
  }

  lemma {:induction false} ArrayWritten(t: T, i: int, v: Value)
    requires Ok(t, 1) && 0 < i <= |t.arr|
    ensures Written(t, WriteArray(t, i, v), ArrayKey(i), v)
  {
    assert Open(0);
    WriteArrayCorrect(t, i, v, 1);
  }

  lemma {:induction false} NoArrayCursor(t: T, i: int)
    requires Ok(t, 1) && 0 < i <= |t.arr|
    ensures ArrayKey(i) !in t.order.k2i && Integer(i) !in t.order.k2i
  {
    assert Open(0);
    ArrayHasNoCursor(t.order, Live(t), |t.arr|, i);
    CursorsNormal(t.order, Live(t), |t.arr|, Integer(i));
  }

  lemma {:induction false} RemoveSmaller(d: map<Key, Value>, k: Key)
    requires k in d
    ensures |d - {k}| < |d|
  {
    assert d.Keys == (d - {k}).Keys + {k};
  }

  lemma {:induction false} AppendWritten(t: T, v: Value)
    requires Ok(t, 1) && t.dict == map[] && v != Nil && |t.arr| + 1 < MAX_ARRAY_INDEX
    ensures Written(t, Grow(Forget(t, |t.arr| + 1), v), ArrayKey(|t.arr| + 1), v)
  {
    AppendGrows(t, v);
    var i := |t.arr| + 1;
    var t1, t2 := Forget(t, i), Grow(Forget(t, i), v);
    forall x | Norm(x) == x ensures Lookup(t2, x) == if x == ArrayKey(i) then v else Lookup(t, x) {
      assert Lookup(t1, x) == Lookup(t, x);
    }
  }

  lemma {:induction false} AppendGrows(t: T, v: Value)
    requires Ok(t, 1) && t.dict == map[] && |t.arr| + 1 < MAX_ARRAY_INDEX
    ensures var t1 := Forget(t, |t.arr| + 1); Ok(Grow(t1, v), 1) && Put(t1, Grow(t1, v), ArrayKey(|t.arr| + 1), v)
  {
    var t1 := Forget(t, |t.arr| + 1);
    Weaken(t);
    ForgetGrows(t, v);
    EmptyDictOk(Grow(t1, v));
  }

  lemma {:induction false} ForgetGrows(t: T, v: Value)
    requires Ok(t, 0) && ArrayKey(|t.arr| + 1) !in t.dict && |t.arr| + 1 < MAX_ARRAY_INDEX
    ensures var t1 := Forget(t, |t.arr| + 1); Ok(Grow(t1, v), 0) && Put(t1, Grow(t1, v), ArrayKey(|t.arr| + 1), v)
  {
    assert Open(0);
    ForgetCorrect(t, |t.arr| + 1, 0);
    GrowCorrect(Forget(t, |t.arr| + 1), v);
  }

  lemma {:induction false} EmptyDictOk(t: T)
    requires Ok(t, 0) && t.dict == map[]
    ensures Ok(t, 1)
  {
    assert Open(0);
    assert Rep(t, 1);
  }

  // ----- the length -----

  /** The last position of the array part that has a value. */
  function LastFilled(a: seq<Value>): (n: nat)
    ensures n <= |a|
  {
    if a == [] then 0 else if a[|a| - 1] != Nil then |a| else LastFilled(a[..|a| - 1])
  }

  lemma {:induction false} LastFilledBound(a: seq<Value>)
    ensures LastFilled(a) <= |a| && (LastFilled(a) > 0 ==> a[LastFilled(a) - 1] != Nil)
    ensures forall i :: LastFilled(a) <= i < |a| ==> a[i] == Nil
  {
    if a == [] || a[|a| - 1] != Nil {
    } else {
      LastFilledBound(a[..|a| - 1]);
    }
  }

  lemma {:induction false} LastFilledIs(a: seq<Value>, n: nat)
    requires n <= |a| && LastFilled(a) == LastFilled(a[..n]) && (n > 0 ==> a[n - 1] != Nil)
    ensures LastFilled(a) == n
  {
    if n > 0 {
      assert a[..n][|a[..n]| - 1] == a[n - 1];
    }
  }

  /** The length is a border (section 2.5.5 of the Lua 5.1 manual): the last position
      before it has a value, and the next one has none unless it is the first outside
      the array range and the dictionary has it. */
  lemma {:induction false} LenIsBorder(t: T)
    requires Ok(t, 1)
    ensures var n := LastFilled(t.arr);
            && (n > 0 ==> Lookup(t, Norm(Integer(n))) != Nil)
            && (Lookup(t, Norm(Integer(n + 1))) == Nil <==> n + 1 < 67108864 || Integer(67108864) !in t.dict)
  {
    assert Open(0);
    LastFilledBound(t.arr);
    var n := LastFilled(t.arr);
    if n + 1 < MAX_ARRAY_INDEX {
      assert Norm(Integer(n + 1)) == ArrayKey(n + 1);
    } else {
      assert Norm(Integer(n + 1)) == Integer(MAX_ARRAY_INDEX);
    }
  }

  /** All positions of the array range are filled, and the first one outside. */
  function FullTable(): T {
    T(seq(MAX_ARRAY_INDEX - 1, _ => Data(0)), true, map[Integer(MAX_ARRAY_INDEX) := Data(1)], true, false, map[], Order(false, [], map[]))
  }

  /** There the length is not a border. */
  lemma {:induction false} FullTableHasNoBorder()
    ensures var t := FullTable();
            && Ok(t, 1) && LastFilled(t.arr) == 67108863
            && Lookup(t, Norm(Integer(LastFilled(t.arr) + 1))) == Data(1)
  {
    var t := FullTable();
    assert Rep(t, 1);
  }

  // ----- growing at the end -----

  lemma {:induction false} EndIsFree(t: T)
    requires Ok(t, 1)
    ensures ArrayKey(|t.arr| + 1) !in t.dict
  {
    assert Open(0);
  }

  lemma {:induction false} GrowPut(t: T, v: Value)
    requires Ok(t, 0) && ArrayKey(|t.arr| + 1) !in t.dict && |t.arr| + 1 < MAX_ARRAY_INDEX
    ensures var t2 := Grow(Forget(t, |t.arr| + 1), v); Ok(t2, 0) && Put(t, t2, ArrayKey(|t.arr| + 1), v)
  {
    ForgetGrows(t, v);
    var t1 := Forget(t, |t.arr| + 1);
    var t2 := Grow(t1, v);
    forall x | Norm(x) == x ensures Lookup(t2, x) == if x == ArrayKey(|t.arr| + 1) then v else Lookup(t, x) {
      assert Lookup(t1, x) == Lookup(t, x);
    }
  }

  lemma {:induction false} PutMoved(a: T, b: T, c: T, k: Key, v: Value)
    requires Put(a, b, k, v) && Moved(b, c, 1)
    ensures Ok(c, 1) && Put(a, c, k, v)
  {
    assert Open(0);
    forall x | Norm(x) == x ensures Lookup(c, x) == if x == k then v else Lookup(a, x) {
      assert Lookup(b, x) == if x == k then v else Lookup(a, x);
    }
  }

  /** Appending stores the value behind the border. At the limit of the array range it
      goes to a position of the array part that no key names. */
  ghost predicate Appended(t: T, t': T, v: Value) {
    var n := LastFilled(t.arr);
    if n + 1 < MAX_ARRAY_INDEX then Ok(t', 1) && Put(t, t', Norm(Integer(n + 1)), v)
    else |t'.arr| == MAX_ARRAY_INDEX && Same(t, t')
  }

  /** The value can be read back behind the border exactly below that limit, or if it
      was there before. */
  lemma {:induction false} AppendVisible(t: T, t': T, v: Value)
    requires Ok(t, 1) && Appended(t, t', v)
    ensures var n := LastFilled(t.arr);
            Put(t, t', Norm(Integer(n + 1)), v) <==> n + 1 < MAX_ARRAY_INDEX || Lookup(t, Integer(MAX_ARRAY_INDEX)) == v
  {
    ArrayShort(t);
    if LastFilled(t.arr) + 1 >= MAX_ARRAY_INDEX {
      assert Norm(Integer(MAX_ARRAY_INDEX)) == Integer(MAX_ARRAY_INDEX);
      assert Lookup(t', Integer(MAX_ARRAY_INDEX)) == Lookup(t, Integer(MAX_ARRAY_INDEX));
    }
  }

  /** All positions of the array range are filled, and nothing else. */
  function FilledRange(): T {
    T(seq(MAX_ARRAY_INDEX - 1, _ => Data(0)), true, map[], false, false, map[], Order(false, [], map[]))
  }

  /** What is appended there is lost. */
  lemma {:induction false} AppendToFilledRange(t': T, v: Value)
    requires Appended(FilledRange(), t', v)
    ensures Ok(FilledRange(), 1) && Lookup(t', Norm(Integer(MAX_ARRAY_INDEX))) == Nil
  {
    var t := FilledRange();
    assert Rep(t, 1);
    assert LastFilled(t.arr) == MAX_ARRAY_INDEX - 1;
    assert Lookup(t', Integer(MAX_ARRAY_INDEX)) == Lookup(t, Integer(MAX_ARRAY_INDEX));
  }

  lemma {:induction false} HoleFilled(t: T, t': T, v: Value)
    requires Ok(t, 1) && LastFilled(t.arr) < |t.arr| && Written(t, t', ArrayKey(LastFilled(t.arr) + 1), v)
    ensures Appended(t, t', v)
  {
    ArrayShort(t);
    assert Norm(Integer(LastFilled(t.arr) + 1)) == ArrayKey(LastFilled(t.arr) + 1);
  }

  lemma {:induction false} NothingPastLimit(t: T)
    requires Ok(t, 0)
    ensures ArrayKey(MAX_ARRAY_INDEX + 1) !in t.dict
  {
    assert Open(0);
    assert Norm(ArrayKey(MAX_ARRAY_INDEX + 1)) != ArrayKey(MAX_ARRAY_INDEX + 1);
  }

  /** The array part has grown to the limit. */
  lemma {:induction false} GrownToLimit(t: T, v: Value)
    requires Ok(t, 0) && |t.arr| + 1 == MAX_ARRAY_INDEX
    ensures var t2 := Grow(Forget(t, |t.arr| + 1), v); Overfull(t2, t2) && Same(t, t2)
  {
    NothingPastLimit(t);
    OkTakeable(t);
    ForgetBounded(t, |t.arr| + 1);
    var t1 := Forget(t, |t.arr| + 1);
    var t2 := Grow(t1, v);
    assert Bounded(t2) by {
      forall k ensures k in t2.order.k2i ==> t2.order.k2i[k] < |t2.order.keys| {
        KeyBounded(t1, k);
      }
    }
    forall x | Norm(x) == x ensures Lookup(t2, x) == Lookup(t, x) {
    }
  }

  /** `t2` is `t` with one position more, under a token. */
  ghost predicate IsGrown(t: T, t2: T, v: Value) {
    forall tok {:trigger Open(tok)} :: Open(tok) ==> t2 == Grow(Forget(t, |t.arr| + 1), v)
  }

  lemma {:induction false} AppendPulling(t: T, t2: T, v: Value)
    requires Ok(t, 1) && IsGrown(t, t2, v)
    ensures Pulling(t2, t2, 0)
  {
    assert t2 == Grow(Forget(t, |t.arr| + 1), v) by {
      assert Open(0);
    }
    Weaken(t);
    ArrayWithinLimit(t);
    if |t.arr| + 1 < MAX_ARRAY_INDEX {
      EndIsFree(t);
      ForgetGrows(t, v);
      BeginPull(Grow(Forget(t, |t.arr| + 1), v));
    } else {
      GrownToLimit(t, v);
    }
  }

  lemma {:induction false} AppendPulled(t: T, t2: T, t': T, v: Value)
    requires Ok(t, 1) && LastFilled(t.arr) == |t.arr| && IsGrown(t, t2, v) && Pulling(t2, t', 1)
    ensures Appended(t, t', v)
  {
    assert t2 == Grow(Forget(t, |t.arr| + 1), v) by {
      assert Open(0);
    }
    Weaken(t);
    ArrayWithinLimit(t);
    if |t.arr| + 1 < MAX_ARRAY_INDEX {
      EndIsFree(t);
      GrowPut(t, v);
      PutMoved(t, t2, t', ArrayKey(|t.arr| + 1), v);
    } else {
      GrownToLimit(t, v);
      SameTrans(t, t2, t');
    }
  }

  // ----- inserting and removing -----

  /** The value of a key after an insertion: positions `pos` to the length have
      moved up by one. */
  function AfterInsert(t: T, pos: int, v: Value, x: Key): Value {
    if IsWhole(x) && pos == WholeValue(x) then v
    else if IsWhole(x) && pos < WholeValue(x) <= LastFilled(t.arr) + 1 then Lookup(t, ArrayKey(WholeValue(x) - 1))
    else Lookup(t, x)
  }

  ghost predicate Inserted(t: T, t': T, pos: int, v: Value) {
    forall x {:trigger Lookup(t', x)} :: Norm(x) == x ==> Lookup(t', x) == AfterInsert(t, pos, v, x)
  }

  /** Copies positions `pos` to `length` one place up and writes `pos`. */
  function Spread(a: seq<Value>, pos: int, length: nat, v: Value): (r: seq<Value>)
    requires 0 < pos <= length < |a|
    ensures |r| == |a|
  {
    a[..pos - 1] + [v] + a[pos - 1..length] + a[length + 1..]
  }

  function InsertedAt(t: T, pos: int, length: nat, v: Value): T
    requires 0 < pos <= length <= |t.arr|
  {
    var a := if length == |t.arr| then t.arr + [Nil] else t.arr;
    Forget(t, length + 1).(arr := Spread(a, pos, length, v))
  }

  lemma {:induction false} SameLengthOk(t: T, a: seq<Value>)
    requires Ok(t, 0) && |a| == |t.arr| && (!t.hasArray ==> a == [])
    ensures Ok(t.(arr := a), 0)
  {
    assert Open(0);
    assert Live(t.(arr := a)) == Live(t);
  }

  lemma {:induction false} InsertKeepsOk(t: T, pos: int, v: Value)
    requires Ok(t, 1) && LastFilled(t.arr) + 1 < MAX_ARRAY_INDEX && 0 < pos <= LastFilled(t.arr) <= |t.arr|
    ensures Ok(InsertedAt(t, pos, LastFilled(t.arr), v), 0)
  {
    var length := LastFilled(t.arr);
    var t2 := InsertedAt(t, pos, length, v);
    Weaken(t);
    EndIsFree(t);
    HasArrayWhenFilled(t);
    if length == |t.arr| {
      ForgetGrows(t, Nil);
      InsertArr(t, pos, v, 1);
      SameLengthOk(Grow(Forget(t, length + 1), Nil), t2.arr);
    } else {
      NoArrayCursor(t, length + 1);
      NothingForgotten(t, length + 1);
      InsertArr(t, pos, v, 1);
      SameLengthOk(t, t2.arr);
    }
  }

  lemma {:induction false} NothingForgotten(t: T, i: int)
    requires ArrayKey(i) !in t.order.k2i && Integer(i) !in t.order.k2i
    ensures Forget(t, i) == t
  {
  }

  lemma {:induction false} HasArrayWhenFilled(t: T)
    requires Ok(t, 1) && t.arr != []
    ensures t.hasArray
  {
    assert Open(0);
  }

  /** The array part after an insertion, position by position. */
  lemma {:induction false} InsertArr(t: T, pos: int, v: Value, j: int)
    requires 0 < pos <= LastFilled(t.arr) && 0 < j
    ensures var n := LastFilled(t.arr); var a := InsertedAt(t, pos, n, v).arr;
            && |a| == (if n == |t.arr| then n + 1 else |t.arr|)
            && (j <= |a| ==> a[j - 1] == if j < pos then t.arr[j - 1] else if j == pos then v
                                         else if j <= n + 1 then t.arr[j - 2] else t.arr[j - 1])
  {
  }

  lemma {:induction false} InsertLookup(t: T, pos: int, v: Value, x: Key)
    requires LastFilled(t.arr) + 1 < MAX_ARRAY_INDEX && 0 < pos <= LastFilled(t.arr) && Norm(x) == x && |t.arr| < MAX_ARRAY_INDEX
    requires ArrayKey(|t.arr| + 1) !in t.dict
    ensures Lookup(InsertedAt(t, pos, LastFilled(t.arr), v), x) == AfterInsert(t, pos, v, x)
  {
    InsertArr(t, pos, v, 1);
    if x.Number? && x.f.Whole? {
      assert x == ArrayKey(x.f.i);
      InsertAtPosition(t, pos, v, x.f.i);
    }
  }

  lemma {:induction false} InsertAtPosition(t: T, pos: int, v: Value, j: int)
    requires LastFilled(t.arr) + 1 < MAX_ARRAY_INDEX && 0 < pos <= LastFilled(t.arr) && ArrayKey(|t.arr| + 1) !in t.dict && |t.arr| < MAX_ARRAY_INDEX
    ensures Lookup(InsertedAt(t, pos, LastFilled(t.arr), v), ArrayKey(j)) == AfterInsert(t, pos, v, ArrayKey(j))
  {
    if 0 < j {
      InsertArr(t, pos, v, j);
    } else {
      InsertArr(t, pos, v, 1);
    }
  }

  lemma {:induction false} InsertCorrect(t: T, pos: int, v: Value)
    requires Ok(t, 1) && LastFilled(t.arr) + 1 < MAX_ARRAY_INDEX && 0 < pos <= LastFilled(t.arr) <= |t.arr|
    ensures var t2 := InsertedAt(t, pos, LastFilled(t.arr), v); Ok(t2, 0) && Inserted(t, t2, pos, v)
    ensures t.hasArray
  {
    HasArrayWhenFilled(t);
    InsertKeepsOk(t, pos, v);
    EndIsFree(t);
    ArrayShort(t);
    forall x | Norm(x) == x ensures Lookup(InsertedAt(t, pos, LastFilled(t.arr), v), x) == AfterInsert(t, pos, v, x) {
      InsertLookup(t, pos, v, x);
    }
  }

  lemma {:induction false} InsertMoved(a: T, b: T, c: T, pos: int, v: Value)
    requires Inserted(a, b, pos, v) && Moved(b, c, 1)
    ensures Ok(c, 1) && Inserted(a, c, pos, v)
  {
    assert Open(0);
    forall x | Norm(x) == x ensures Lookup(c, x) == Lookup(b, x) {
    }
  }

  /** An insertion moves positions up. At the limit of the array range the last value
      moves to a position that no key names. */
  ghost predicate ShiftedIn(t: T, t': T, pos: int, v: Value) {
    if LastFilled(t.arr) + 1 < MAX_ARRAY_INDEX then Ok(t', 1) && Inserted(t, t', pos, v)
    else |t'.arr| == MAX_ARRAY_INDEX && LastCut(t, t', pos, v)
  }

  ghost predicate LastCut(t: T, t': T, pos: int, v: Value) {
    forall x {:trigger Lookup(t', x)} :: Norm(x) == x ==>
      Lookup(t', x) == if x == Integer(MAX_ARRAY_INDEX) then Lookup(t, x) else AfterInsert(t, pos, v, x)
  }

  /** All values can be read back exactly below that limit, or if the one that is cut
      off was there before. */
  lemma {:induction false} InsertVisible(t: T, t': T, pos: int, v: Value)
    requires Ok(t, 1) && 0 < pos <= LastFilled(t.arr) && ShiftedIn(t, t', pos, v)
    ensures Inserted(t, t', pos, v) <==>
              LastFilled(t.arr) + 1 < MAX_ARRAY_INDEX || Lookup(t, Integer(MAX_ARRAY_INDEX)) == Lookup(t, ArrayKey(MAX_ARRAY_INDEX - 1))
  {
    ArrayShort(t);
    if LastFilled(t.arr) + 1 >= MAX_ARRAY_INDEX {
      var k := Integer(MAX_ARRAY_INDEX);
      assert Norm(k) == k && Lookup(t', k) == Lookup(t, k);
      assert AfterInsert(t, pos, v, k) == Lookup(t, ArrayKey(MAX_ARRAY_INDEX - 1));
    }
  }

  /** A shift that makes the array part reach the limit. */
  lemma {:induction false} ShiftedToLimit(t: T, pos: int, v: Value)
    requires Ok(t, 1) && 0 < pos <= LastFilled(t.arr) && LastFilled(t.arr) + 1 == MAX_ARRAY_INDEX
    ensures var t2 := InsertedAt(t, pos, LastFilled(t.arr), v); Overfull(t2, t2) && LastCut(t, t2, pos, v)
  {
    Weaken(t);
    ArrayShort(t);
    GrownToLimit(t, Nil);
    var g, t2 := Grow(Forget(t, |t.arr| + 1), Nil), InsertedAt(t, pos, LastFilled(t.arr), v);
    assert t2.order == g.order && t2.dict == g.dict;
    assert Bounded(t2) by {
      forall k ensures k in t2.order.k2i ==> t2.order.k2i[k] < |t2.order.keys| {
        KeyBounded(g, k);
      }
    }
    InsertArr(t, pos, v, 1);
    forall x | Norm(x) == x ensures Lookup(t2, x) == if x == Integer(MAX_ARRAY_INDEX) then Lookup(t, x) else AfterInsert(t, pos, v, x) {
      if x.Number? && x.f.Whole? {
        InsertArr(t, pos, v, x.f.i);
      }
    }
  }

  lemma {:induction false} InsertPulling(t: T, pos: int, v: Value)
    requires Ok(t, 1) && 0 < pos <= LastFilled(t.arr)
    ensures var t2 := InsertedAt(t, pos, LastFilled(t.arr), v); Pulling(t2, t2, 0)
  {
    ArrayShort(t);
    if LastFilled(t.arr) + 1 < MAX_ARRAY_INDEX {
      InsertKeepsOk(t, pos, v);
      BeginPull(InsertedAt(t, pos, LastFilled(t.arr), v));
    } else {
      ShiftedToLimit(t, pos, v);
    }
  }

  lemma {:induction false} InsertPulled(t: T, t': T, pos: int, v: Value)
    requires Ok(t, 1) && 0 < pos <= LastFilled(t.arr) && Pulling(InsertedAt(t, pos, LastFilled(t.arr), v), t', 1)
    ensures ShiftedIn(t, t', pos, v)
  {
    var t2 := InsertedAt(t, pos, LastFilled(t.arr), v);
    ArrayShort(t);
    InsertArr(t, pos, v, 1);
    if LastFilled(t.arr) + 1 < MAX_ARRAY_INDEX {
      InsertCorrect(t, pos, v);
      InsertMoved(t, t2, t', pos, v);
    } else {
      ShiftedToLimit(t, pos, v);
      forall x | Norm(x) == x ensures Lookup(t', x) == Lookup(t2, x) {
      }
    }
  }

  /** The value of a key after a removal: the positions after `pos` have moved
      down by one. */
  function AfterRemove(t: T, pos: int, x: Key): Value {
    if IsWhole(x) && WholeValue(x) == LastFilled(t.arr) then Nil
    else if IsWhole(x) && pos <= WholeValue(x) < LastFilled(t.arr) then Lookup(t, ArrayKey(WholeValue(x) + 1))
    else Lookup(t, x)
  }

  ghost predicate Removed(t: T, t': T, pos: int) {
    forall x {:trigger Lookup(t', x)} :: Norm(x) == x ==> Lookup(t', x) == AfterRemove(t, pos, x)
  }

  function RemovedAt(t: T, pos: int, length: nat): T
    requires 0 < pos <= length <= |t.arr|
  {
    t.(arr := t.arr[..pos - 1] + t.arr[pos..length])
  }

  lemma {:induction false} RemoveKeepsOk(t: T, a: seq<Value>)
    requires Ok(t, 1) && |a| <= |t.arr| && (!t.hasArray ==> a == [])
    ensures Ok(t.(arr := a), 1)
  {
    assert Open(0);
    assert Live(t.(arr := a)) == Live(t);
    ResizeOk(t.order, Live(t), |t.arr|, |a|);
    assert Rep(t.(arr := a), 1) by {
      forall k | k in t.dict ensures DictKeyOk(k, |a|, 1) {
        assert DictKeyOk(k, |t.arr|, 1);
      }
    }
  }

  lemma {:induction false} RemoveCorrect(t: T, pos: int)
    requires Ok(t, 1) && 0 < pos <= LastFilled(t.arr) <= |t.arr|
    ensures var t' := RemovedAt(t, pos, LastFilled(t.arr)); Ok(t', 1) && Removed(t, t', pos)
  {
    var n := LastFilled(t.arr);
    HasArrayWhenFilled(t);
    RemoveKeepsOk(t, RemovedAt(t, pos, n).arr);
    NothingBeyond(t);
    LastFilledBound(t.arr);
    forall x | Norm(x) == x ensures Lookup(RemovedAt(t, pos, n), x) == AfterRemove(t, pos, x) {
      RemoveLookup(t, pos, x);
    }
  }

  lemma {:induction false} NothingBeyond(t: T)
    requires Ok(t, 1)
    ensures forall i :: i <= |t.arr| + 1 ==> ArrayKey(i) !in t.dict
    ensures |t.arr| < MAX_ARRAY_INDEX
  {
    assert Open(0);
  }

  lemma {:induction false} RemoveArr(t: T, pos: int, j: int)
    requires 0 < pos <= LastFilled(t.arr) && 0 < j
    ensures var n := LastFilled(t.arr); var a := RemovedAt(t, pos, n).arr;
            |a| == n - 1 && (j <= |a| ==> a[j - 1] == if j < pos then t.arr[j - 1] else t.arr[j])
  {
  }

  lemma {:induction false} RemoveLookup(t: T, pos: int, x: Key)
    requires 0 < pos <= LastFilled(t.arr) && |t.arr| < MAX_ARRAY_INDEX && Norm(x) == x
    requires forall i :: LastFilled(t.arr) <= i < |t.arr| ==> t.arr[i] == Nil
    requires forall i :: i <= |t.arr| + 1 ==> ArrayKey(i) !in t.dict
    ensures Lookup(RemovedAt(t, pos, LastFilled(t.arr)), x) == AfterRemove(t, pos, x)
  {
    RemoveArr(t, pos, 1);
    if x.Number? && x.f.Whole? {
      assert x == ArrayKey(x.f.i);
      RemoveAtPosition(t, pos, x.f.i);
    }
  }

  lemma {:induction false} RemoveAtPosition(t: T, pos: int, j: int)
    requires 0 < pos <= LastFilled(t.arr) && |t.arr| < MAX_ARRAY_INDEX
    requires forall i :: LastFilled(t.arr) <= i < |t.arr| ==> t.arr[i] == Nil
    requires forall i :: i <= |t.arr| + 1 ==> ArrayKey(i) !in t.dict
    ensures Lookup(RemovedAt(t, pos, LastFilled(t.arr)), ArrayKey(j)) == AfterRemove(t, pos, ArrayKey(j))
  {
    if 0 < j {
      RemoveArr(t, pos, j);
    } else {
      RemoveArr(t, pos, 1);
    }
  }

  // ----- traversal -----

  lemma {:induction false} DictHasNoStr(t: T)
    requires Ok(t, 1)
    ensures forall k :: k in t.dict ==> !k.Str?
  {
    assert Open(0);
  }

  lemma {:induction false} StartOk(t: T, ks: seq<Key>)
    requires Ok(t, 1) && Distinct(ks)
    requires forall k :: k in ks <==> (k.Str? && k.s in t.strdict) || k in t.dict
    ensures var t' := t.(order := Order(true, FilledSlots(ks), Positions(ks))); Ok(t', 1) && Same(t, t')
  {
    assert Open(0);
    LiveFacts(t, 1);
    LiveMembers(t, ks);
    StartOrderOk(ks, Live(t), |t.arr|);
    OrderReplaced(t, Order(true, FilledSlots(ks), Positions(ks)));
  }

  lemma {:induction false} OrderReplaced(t: T, o: Order)
    ensures Live(t.(order := o)) == Live(t) && Same(t, t.(order := o))
    ensures Rep(t, 1) ==> Rep(t.(order := o), 1)
  {
  }

  lemma {:induction false} LiveMembers(t: T, ks: seq<Key>)
    requires forall k :: k in ks <==> (k.Str? && k.s in t.strdict) || k in t.dict
    ensures forall k :: k in ks <==> k in Live(t)
  {
    forall k ensures k in ks <==> k in Live(t) {
      if k.Str? && k.s in t.strdict {
        assert k == Str(k.s);
      }
    }
  }

  lemma {:induction false} LiveSlot(t: T, i: nat)
    requires Ok(t, 1) && i < |t.order.keys| && t.order.keys[i].Some?
    ensures var k := t.order.keys[i].value;
            && (if k.Str? then k.s in t.strdict else k in t.dict)
            && Lookup(t, k) == (if k.Str? then t.strdict[k.s] else t.dict[k]) && Lookup(t, k) != Nil
  {
    assert Open(0);
    SlotIsLive(t.order, Live(t), |t.arr|, i);
    var k := t.order.keys[i].value;
    if k !in t.dict {
      var s :| s in t.strdict && k == Str(s);
    } else {
      assert DictKeyOk(k, |t.arr|, 1);
    }
  }

  lemma {:induction false} ArrayShort(t: T)
    requires Ok(t, 1)
    ensures |t.arr| < MAX_ARRAY_INDEX
  {
    assert Open(0);
  }
}
