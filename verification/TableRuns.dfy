/**
 Whole sequences of operations on one table (table.go), against a finite map and the
 loops by which a plain table would insert and remove.
 */
module TableRuns {
  import opened TableOrder
  import opened Table
  import opened LuaTable

  /** The contents of a table: keys in stored form, without nil values. */
  type Contents = map<Key, Value>

  function At(m: Contents, k: Key): Value {
    if k in m then m[k] else Nil
  }

  function Update(m: Contents, k: Key, v: Value): Contents {
    if v == Nil then m - {k} else m[k := v]
  }

  function Position(i: int): Key {
    Norm(Integer(i))
  }

  ghost predicate Normal(m: Contents) {
    forall k :: k in m ==> Norm(k) == k && m[k] != Nil
  }

  ghost predicate Shows(t: T, m: Contents) {
    Normal(m) && forall x {:trigger Lookup(t, x)} :: Norm(x) == x ==> Lookup(t, x) == At(m, x)
  }

  datatype Op =
    | Set(key: Key, value: Value)
    | SetInt(i: int, value: Value)
    | SetString(s: string, value: Value)
    | Append(value: Value)
    | Insert(pos: int, value: Value)
    | Remove(pos: int)
    | Get(key: Key)
    | Next(after: Option<Key>)

  // ----- the reference -----

  /** From the last position down to `pos`, each value goes one position up. */
  function MoveUp(m: Contents, pos: int, last: int): Contents
    decreases last - pos
  {
    if last < pos then m else MoveUp(Update(m, Position(last + 1), At(m, Position(last))), pos, last - 1)
  }

  /** From `pos` up, each position takes the value of the next one, and the last is cleared. */
  function MoveDown(m: Contents, pos: int, last: int): Contents
    decreases last - pos
  {
    if last <= pos then Update(m, Position(last), Nil)
    else MoveDown(Update(m, Position(pos), At(m, Position(pos + 1))), pos + 1, last)
  }

  /** The position that a removal means. */
  function Removing(pos: int, n: nat): int {
    if pos <= 0 then n else pos
  }

  /** The contents after an operation on a table whose length is `n`. */
  function Apply(m: Contents, op: Op, n: nat): Contents {
    match op
    case Set(key, v) => Update(m, Norm(key), v)
    case SetInt(i, v) => Update(m, Position(i), v)
    case SetString(s, v) => Update(m, Str(s), v)
    case Append(v) => if v == Nil then m else Update(m, Position(n + 1), v)
    case Insert(pos, v) => Update(if 0 < pos <= n then MoveUp(m, pos, n) else m, Position(pos), v)
    case Remove(pos) => if 0 < Removing(pos, n) <= n then MoveDown(m, Removing(pos, n), n) else m
    case Get(_) => m
    case Next(_) => m
  }

  /** What it returns, if it returns a value of the table. */
  function Answer(m: Contents, op: Op, n: nat): Value {
    match op
    case Get(key) => At(m, Norm(key))
    case Remove(pos) => if 0 < Removing(pos, n) <= n then At(m, Position(Removing(pos, n))) else Nil
    case _ => Nil
  }

  /** The contents after `k` operations on an empty table with these lengths. */
  function After(ops: seq<Op>, lens: seq<nat>, k: nat): Contents
    requires k <= |ops| && k <= |lens|
  {
    if k == 0 then map[] else Apply(After(ops, lens, k - 1), ops[k - 1], lens[k - 1])
  }

  /** A length that the contents allow. */
  ghost predicate Border(m: Contents, n: nat) {
    && n < MAX_ARRAY_INDEX && (n > 0 ==> At(m, Position(n)) != Nil)
    && (n + 1 < MAX_ARRAY_INDEX ==> At(m, Position(n + 1)) == Nil)
  }

  /** The operation writes behind the last position of the array range. */
  predicate AtLimit(op: Op, n: nat) {
    n + 1 >= MAX_ARRAY_INDEX && ((op.Append? && op.value != Nil) || (op.Insert? && 0 < op.pos <= n))
  }

  // ----- the reference, position by position -----

  lemma {:induction false} PositionIs(x: Key, i: int)
    requires Norm(x) == x
    ensures x == Position(i) <==> IsWhole(x) && WholeValue(x) == i
  {
    NormIdentifiesWhole(x, Integer(i));
  }

  lemma {:induction false} MoveUpAt(m: Contents, pos: int, last: int, x: Key)
    requires Norm(x) == x
    ensures At(MoveUp(m, pos, last), x) ==
            if IsWhole(x) && pos < WholeValue(x) <= last + 1 then At(m, Position(WholeValue(x) - 1)) else At(m, x)
    decreases last - pos
  {
    if last >= pos {
      var m' := Update(m, Position(last + 1), At(m, Position(last)));
      MoveUpAt(m', pos, last - 1, x);
      PositionIs(x, last + 1);
      if IsWhole(x) {
        NormIdentifiesWhole(Integer(WholeValue(x) - 1), Integer(last + 1));
      }
    }
  }

  lemma {:induction false} MoveDownAt(m: Contents, pos: int, last: int, x: Key)
    requires Norm(x) == x && pos <= last
    ensures At(MoveDown(m, pos, last), x) ==
            if IsWhole(x) && WholeValue(x) == last then Nil
            else if IsWhole(x) && pos <= WholeValue(x) < last then At(m, Position(WholeValue(x) + 1)) else At(m, x)
    decreases last - pos
  {
    PositionIs(x, last);
    if last > pos {
      var m' := Update(m, Position(pos), At(m, Position(pos + 1)));
      MoveDownAt(m', pos + 1, last, x);
      PositionIs(x, pos);
      if IsWhole(x) {
        NormIdentifiesWhole(Integer(WholeValue(x) + 1), Integer(pos));
      }
    }
  }

  lemma {:induction false} PositionNormal(i: int)
    ensures Norm(Position(i)) == Position(i)
  {
    NormIdentifiesWhole(Integer(i), Integer(i));
  }

  lemma {:induction false} MoveUpNormal(m: Contents, pos: int, last: int)
    requires Normal(m)
    ensures Normal(MoveUp(m, pos, last))
    decreases last - pos
  {
    if last >= pos {
      PositionNormal(last + 1);
      MoveUpNormal(Update(m, Position(last + 1), At(m, Position(last))), pos, last - 1);
    }
  }

  lemma {:induction false} MoveDownNormal(m: Contents, pos: int, last: int)
    requires Normal(m)
    ensures Normal(MoveDown(m, pos, last))
    decreases last - pos
  {
    if last > pos {
      PositionNormal(pos);
      MoveDownNormal(Update(m, Position(pos), At(m, Position(pos + 1))), pos + 1, last);
    }
  }

  /** A table shows one map only. */
  lemma {:induction false} ShowsOne(t: T, m: Contents, m': Contents)
    requires Shows(t, m) && Shows(t, m')
    ensures m == m'
  {
    forall k ensures k in m <==> k in m' {
      assert Norm(k) == k ==> Lookup(t, k) == At(m, k) == At(m', k);
    }
    forall k | k in m ensures m[k] == m'[k] {
      assert Lookup(t, k) == At(m, k) == At(m', k);
    }
  }

  // ----- one operation -----

  lemma {:induction false} PutShows(t: T, t': T, k: Key, v: Value, m: Contents)
    requires Shows(t, m) && Put(t, t', k, v) && Norm(k) == k
    ensures Shows(t', Update(m, k, v))
  {
    forall x | Norm(x) == x ensures Lookup(t', x) == At(Update(m, k, v), x) {
      assert Lookup(t, x) == At(m, x);
    }
  }

  lemma {:induction false} SameShows(t: T, t': T, m: Contents)
    requires Shows(t, m) && Same(t, t')
    ensures Shows(t', m)
  {
    forall x | Norm(x) == x ensures Lookup(t', x) == At(m, x) {
      assert Lookup(t, x) == At(m, x);
    }
  }

  /** The shift of the array part is the loop on the map. */
  lemma {:induction false} InsertShows(t: T, t': T, pos: int, v: Value, m: Contents)
    requires Shows(t, m) && Inserted(t, t', pos, v) && 0 < pos <= LastFilled(t.arr) < MAX_ARRAY_INDEX
    ensures Shows(t', Update(MoveUp(m, pos, LastFilled(t.arr)), Position(pos), v))
  {
    var n := LastFilled(t.arr);
    MoveUpNormal(m, pos, n);
    PositionNormal(pos);
    forall x | Norm(x) == x ensures Lookup(t', x) == At(Update(MoveUp(m, pos, n), Position(pos), v), x) {
      MoveUpAt(m, pos, n, x);
      PositionIs(x, pos);
      assert Lookup(t', x) == AfterInsert(t, pos, v, x);
    }
  }

  lemma {:induction false} RemoveShows(t: T, t': T, pos: int, m: Contents)
    requires Shows(t, m) && Removed(t, t', pos) && 0 < pos <= LastFilled(t.arr) < MAX_ARRAY_INDEX
    ensures Shows(t', MoveDown(m, pos, LastFilled(t.arr)))
  {
    var n := LastFilled(t.arr);
    MoveDownNormal(m, pos, n);
    forall x | Norm(x) == x ensures Lookup(t', x) == At(MoveDown(m, pos, n), x) {
      MoveDownAt(m, pos, n, x);
      assert Lookup(t', x) == AfterRemove(t, pos, x);
    }
  }

  lemma {:induction false} LengthIsBorder(t: T, m: Contents)
    requires Ok(t, 1) && Shows(t, m)
    ensures Border(m, LastFilled(t.arr))
  {
    var n := LastFilled(t.arr);
    ArrayShort(t);
    LenIsBorder(t);
    PositionNormal(n);
    PositionNormal(n + 1);
  }

  /** One operation of a mutable table. */
  method Perform(t: LTable, op: Op, ghost m: Contents) returns (v: Value)
    requires Ok(t.View(), 1) && !t.immutable && Shows(t.View(), m) && !AtLimit(op, LastFilled(t.arr))
    modifies t
    ensures Ok(t.View(), 1) && !t.immutable
    ensures Shows(t.View(), Apply(m, op, LastFilled(old(t.arr)))) && v == Answer(m, op, LastFilled(old(t.arr)))
  {
    v := Nil;
    ghost var t0 := t.View();
    ArrayShort(t0);
    match op
    case Set(key, value) =>
      var _ := t.RawSet(key, value);
      NormIdentifiesWhole(key, key);
      PutShows(t0, t.View(), Norm(key), value, m);
    case SetInt(i, value) =>
      var _ := t.RawSetInt(i, value);
      PositionNormal(i);
      PutShows(t0, t.View(), Position(i), value, m);
    case SetString(s, value) =>
      var _ := t.RawSetString(s, value);
      PutShows(t0, t.View(), Str(s), value, m);
    case Append(value) =>
      PerformAppend(t, value, m);
    case Insert(pos, value) =>
      PerformInsert(t, pos, value, m);
    case Remove(pos) =>
      v := PerformRemove(t, pos, m);
    case Get(key) =>
      v := t.RawGet(key);
      NormIdentifiesWhole(key, key);
    case Next(after) =>
      var _, _ := t.Next(after);
      SameShows(t0, t.View(), m);
  }

  method PerformAppend(t: LTable, value: Value, ghost m: Contents)
    requires Ok(t.View(), 1) && !t.immutable && Shows(t.View(), m) && !AtLimit(Append(value), LastFilled(t.arr))
    modifies t
    ensures Ok(t.View(), 1) && !t.immutable && Shows(t.View(), Apply(m, Append(value), LastFilled(old(t.arr))))
  {
    ghost var t0 := t.View();
    var _ := t.Append(value);
    if value != Nil {
      PositionNormal(LastFilled(t0.arr) + 1);
      PutShows(t0, t.View(), Position(LastFilled(t0.arr) + 1), value, m);
    }
  }

  method PerformInsert(t: LTable, pos: int, value: Value, ghost m: Contents)
    requires Ok(t.View(), 1) && !t.immutable && Shows(t.View(), m) && !AtLimit(Insert(pos, value), LastFilled(t.arr))
    modifies t
    ensures Ok(t.View(), 1) && !t.immutable && Shows(t.View(), Apply(m, Insert(pos, value), LastFilled(old(t.arr))))
  {
    ghost var t0 := t.View();
    ArrayShort(t0);
    var _ := t.Insert(pos, value);
    if 0 < pos <= LastFilled(t0.arr) {
      InsertShows(t0, t.View(), pos, value, m);
    } else {
      PositionNormal(pos);
      PutShows(t0, t.View(), Position(pos), value, m);
    }
  }

  method PerformRemove(t: LTable, pos: int, ghost m: Contents) returns (v: Value)
    requires Ok(t.View(), 1) && !t.immutable && Shows(t.View(), m)
    modifies t
    ensures Ok(t.View(), 1) && !t.immutable
    ensures Shows(t.View(), Apply(m, Remove(pos), LastFilled(old(t.arr)))) && v == Answer(m, Remove(pos), LastFilled(old(t.arr)))
  {
    ghost var t0 := t.View();
    ArrayShort(t0);
    var ok;
    v, ok := t.Remove(pos);
    ghost var n, p := LastFilled(t0.arr), Removing(pos, LastFilled(t0.arr));
    if 0 < p <= n {
      RemoveShows(t0, t.View(), p, m);
      PositionNormal(p);
      assert Lookup(t0, Position(p)) == t0.arr[p - 1];
    }
  }

  // ----- all of them -----

  /** Each operation met a length that the contents before it allow and gave the answer
      of the reference. */
  ghost predicate Agrees(ops: seq<Op>, lens: seq<nat>, answers: seq<Value>) {
    && |lens| == |answers| <= |ops|
    && forall i {:trigger answers[i]} :: 0 <= i < |answers| ==>
         var m := After(ops, lens, i); Border(m, lens[i]) && answers[i] == Answer(m, ops[i], lens[i])
  }

  lemma {:induction false} AfterPrefix(ops: seq<Op>, lens: seq<nat>, n: nat, k: nat)
    requires k <= |lens| && k <= |ops|
    ensures After(ops, lens + [n], k) == After(ops, lens, k)
  {
    if k > 0 {
      AfterPrefix(ops, lens, n, k - 1);
    }
  }

  lemma {:induction false} AgreesNext(ops: seq<Op>, lens: seq<nat>, answers: seq<Value>, n: nat, v: Value)
    requires Agrees(ops, lens, answers) && |answers| < |ops|
    requires var m := After(ops, lens, |lens|); Border(m, n) && v == Answer(m, ops[|lens|], n)
    ensures Agrees(ops, lens + [n], answers + [v])
    ensures After(ops, lens + [n], |lens| + 1) == Apply(After(ops, lens, |lens|), ops[|lens|], n)
  {
    forall i | 0 <= i < |answers| + 1
      ensures var m := After(ops, lens + [n], i); Border(m, (lens + [n])[i]) && (answers + [v])[i] == Answer(m, ops[i], (lens + [n])[i])
    {
      AfterPrefix(ops, lens, n, i);
      assert i < |answers| ==> answers[i] == Answer(After(ops, lens, i), ops[i], lens[i]);
    }
    AfterPrefix(ops, lens, n, |lens|);
  }

  /** Any operations, in any order, on a new table: until one of them writes behind the
      array range, the table shows the contents of the reference and answers like it. */
  method Run(acap: nat, ops: seq<Op>) returns (t: LTable, lens: seq<nat>, answers: seq<Value>)
    ensures fresh(t) && Ok(t.View(), 1) && Agrees(ops, lens, answers) && Shows(t.View(), After(ops, lens, |lens|))
    ensures |answers| < |ops| ==> AtLimit(ops[|answers|], LastFilled(t.arr))
  {
    t := new LTable(acap);
    lens, answers := [], [];
    while |answers| < |ops|
      invariant fresh(t) && Ok(t.View(), 1) && !t.immutable && Agrees(ops, lens, answers)
      invariant Shows(t.View(), After(ops, lens, |lens|))
    {
      var n := t.Len();
      var op := ops[|answers|];
      if AtLimit(op, n) {
        return;
      }
      ghost var m := After(ops, lens, |lens|);
      LengthIsBorder(t.View(), m);
      var v := Perform(t, op, m);
      AgreesNext(ops, lens, answers, n, v);
      lens, answers := lens + [n], answers + [v];
    }
  }
}
