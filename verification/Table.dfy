/**
 The hybrid Lua table (table.go): an array part, a dictionary for strings, a
 dictionary for all other keys and the slot list behind `next`, which together
 stand for one map from keys to values.
 */
module Table {
  import opened TableOrder

  datatype Value = Nil | Data(id: int)

  const MAX_ARRAY_GAP: int := 32

  /** A snapshot of a table.  `hasArray` and `hasDict` tell a missing part from an
      empty one; `sparse` marks a dictionary that only holds overflowing array
      positions. */
  datatype T = T(
    arr: seq<Value>, hasArray: bool,
    dict: map<Key, Value>, hasDict: bool, sparse: bool,
    strdict: map<string, Value>,
    order: Order)

  function StrKeys(m: map<string, Value>): set<Key> {
    set s | s in m :: Str(s)
  }

  /** The keys stored outside the array part. */
  function Live(t: T): set<Key> {
    t.dict.Keys + StrKeys(t.strdict)
  }

  /** The value of a key in stored form. */
  function Lookup(t: T, k: Key): Value {
    if k.Number? && k.f.Whole? && IsArrayIndex(k.f.i) && k.f.i <= |t.arr| then t.arr[k.f.i - 1]
    else if k.Str? then (if k.s in t.strdict then t.strdict[k.s] else Nil)
    else if k in t.dict then t.dict[k] else Nil
  }

  // ----- the representation invariant -----

  /** What may be in the dictionary: normal keys that are not strings, with a
      value, and array positions only beyond the array part. */
  ghost predicate DictKeyOk(k: Key, arrayLen: nat, slack: nat) {
    Norm(k) == k && !k.Str? && (k.Number? && k.f.Whole? ==> k.f.i > arrayLen + slack)
  }

  ghost predicate Rep(t: T, slack: nat) {
    && |t.arr| < MAX_ARRAY_INDEX
    && (!t.hasArray ==> t.arr == []) && (!t.hasDict ==> t.dict == map[])
    && (forall k :: k in t.dict ==> DictKeyOk(k, |t.arr|, slack) && t.dict[k] != Nil)
    && (forall s :: s in t.strdict ==> t.strdict[s] != Nil)
  }

  /** `slack` is 1 between operations: the position after the array part is not
      in the dictionary.  While positions move over it is 0. */
  ghost predicate ValidT(t: T, slack: nat) {
    Rep(t, slack) && OrderOk(t.order, Live(t), |t.arr|)
  }

  ghost predicate Same(t: T, t': T) {
    forall x {:trigger Lookup(t', x)} :: Norm(x) == x ==> Lookup(t', x) == Lookup(t, x)
  }

  ghost predicate Put(t: T, t': T, k: Key, v: Value) {
    forall x {:trigger Lookup(t', x)} :: Norm(x) == x ==> Lookup(t', x) == if x == k then v else Lookup(t, x)
  }

  lemma {:induction false} LiveCount(t: T)
    requires forall k :: k in t.dict ==> !k.Str?
    ensures |Live(t)| == |t.dict| + |t.strdict|
  {
    StrKeysCount(t.strdict);
    assert t.dict.Keys !! StrKeys(t.strdict);
  }

  lemma {:induction false} StrKeysCount(m: map<string, Value>)
    ensures |StrKeys(m)| == |m|
    decreases |m|
  {
    if m == map[] {
      assert StrKeys(m) == {};
    } else {
      var s :| s in m;
      var rest := m - {s};
      StrKeysCount(rest);
      assert StrKeys(m) == StrKeys(rest) + {Str(s)};
      assert m.Keys == rest.Keys + {s};
    }
  }

  lemma {:induction false} LiveFacts(t: T, slack: nat)
    requires Rep(t, slack)
    ensures Storable(Live(t), |t.arr|)
  {
  }

  // ----- writing to the dictionaries -----

  function Release(t: T): T {
    if t.sparse && |t.dict| == 0 then t.(hasDict := false, sparse := false) else t
  }

  /** Stores or deletes a key of the general dictionary. */
  function SetDict(t: T, k: Key, v: Value): T {
    if v == Nil then
      Release(t.(dict := if t.hasDict then t.dict - {k} else t.dict, order := Delete(t.order, k)))
    else
      t.(sparse := false, hasDict := true, dict := t.dict[k := v], order := Add(t.order, |t.dict| + |t.strdict|, k))
  }

  function SetStr(t: T, s: string, v: Value): T {
    if v == Nil then t.(strdict := t.strdict - {s}, order := Delete(t.order, Str(s)))
    else t.(strdict := t.strdict[s := v], order := Add(t.order, |t.dict| + |t.strdict|, Str(s)))
  }

  /** After a hash insertion at most half of the slots are empty. */
  ghost predicate SlotsBounded(t: T) {
    |t.order.keys| <= 2 * (|t.dict| + |t.strdict|)
  }

  lemma {:induction false} LiveDict(d: map<Key, Value>, m: map<string, Value>, k: Key, v: Value)
    requires !k.Str?
    ensures (d - {k}).Keys + StrKeys(m) == d.Keys + StrKeys(m) - {k}
    ensures d[k := v].Keys + StrKeys(m) == d.Keys + StrKeys(m) + {k}
  {
  }

  lemma {:induction false} LiveStr(d: map<Key, Value>, m: map<string, Value>, s: string, v: Value)
    requires Str(s) !in d
    ensures d.Keys + StrKeys(m - {s}) == d.Keys + StrKeys(m) - {Str(s)}
    ensures d.Keys + StrKeys(m[s := v]) == d.Keys + StrKeys(m) + {Str(s)}
  {
    assert StrKeys(m - {s}) == StrKeys(m) - {Str(s)};
    assert StrKeys(m[s := v]) == StrKeys(m) + {Str(s)};
  }

  lemma {:induction false} DictAfter(t: T, k: Key, v: Value)
    requires !t.hasDict ==> t.dict == map[]
    ensures SetDict(t, k, v).dict == if v == Nil then t.dict - {k} else t.dict[k := v]
    ensures SetDict(t, k, v).strdict == t.strdict && SetDict(t, k, v).arr == t.arr && SetDict(t, k, v).hasArray == t.hasArray
    ensures !SetDict(t, k, v).hasDict ==> SetDict(t, k, v).dict == map[]
  {
    if v == Nil {
      if !t.hasDict {
        assert t.dict - {k} == map[];
      }
      Released(t.(dict := if t.hasDict then t.dict - {k} else t.dict, order := Delete(t.order, k)));
    }
  }

  lemma {:induction false} Released(t: T)
    requires !t.hasDict ==> t.dict == map[]
    ensures Release(t).dict == t.dict && Release(t).strdict == t.strdict && Release(t).arr == t.arr && Release(t).hasArray == t.hasArray
    ensures !Release(t).hasDict ==> t.dict == map[]
  {
  }

  lemma {:induction false} LiveAfterDict(t: T, k: Key, v: Value)
    requires !k.Str? && (!t.hasDict ==> t.dict == map[])
    ensures Live(SetDict(t, k, v)) == if v == Nil then Live(t) - {k} else Live(t) + {k}
  {
    DictAfter(t, k, v);
    LiveDict(t.dict, t.strdict, k, v);
  }

  lemma {:induction false} LiveAfterStr(t: T, s: string, v: Value)
    requires Str(s) !in t.dict
    ensures Live(SetStr(t, s, v)) == if v == Nil then Live(t) - {Str(s)} else Live(t) + {Str(s)}
  {
    LiveStr(t.dict, t.strdict, s, v);
  }

  lemma {:induction false} RepAfterDict(t: T, k: Key, v: Value, slack: nat)
    requires Rep(t, slack) && !k.Str? && (v != Nil ==> DictKeyOk(k, |t.arr|, slack))
    ensures Rep(SetDict(t, k, v), slack)
  {
    DictAfter(t, k, v);
    RepWithDict(t, SetDict(t, k, v), k, v, slack);
  }

  lemma {:induction false} RepWithDict(t: T, t': T, k: Key, v: Value, slack: nat)
    requires Rep(t, slack) && (v != Nil ==> DictKeyOk(k, |t.arr|, slack))
    requires t'.arr == t.arr && t'.hasArray == t.hasArray && t'.strdict == t.strdict && (!t'.hasDict ==> t'.dict == map[])
    requires t'.dict == if v == Nil then t.dict - {k} else t.dict[k := v]
    ensures Rep(t', slack)
  {
  }

  lemma {:induction false} RepAfterStr(t: T, s: string, v: Value)
    requires Rep(t, 1)
    ensures Rep(SetStr(t, s, v), 1)
  {
  }

  lemma {:induction false} DictDeleted(t: T, k: Key, slack: nat)
    requires ValidT(t, slack) && !k.Str?
    ensures var t' := SetDict(t, k, Nil); ValidT(t', slack) && SameSlots(t.order, t'.order)
  {
    RepAfterDict(t, k, Nil, slack);
    LiveAfterDict(t, k, Nil);
    DeleteOk(t.order, Live(t), |t.arr|, k);
  }

  lemma {:induction false} DictStored(t: T, k: Key, v: Value, slack: nat)
    requires ValidT(t, slack) && v != Nil && DictKeyOk(k, |t.arr|, slack)
    ensures var t' := SetDict(t, k, v);
            && ValidT(t', slack) && (k in t.dict ==> t'.order == t.order)
            && (t.order.tracked && k !in t.dict ==> SlotsBounded(t'))
  {
    RepAfterDict(t, k, v, slack);
    LiveAfterDict(t, k, v);
    var t' := SetDict(t, k, v);
    LiveCount(t);
    LiveCount(t');
    LiveFacts(t', slack);
    AddOk(t.order, Live(t), |t.arr|, k);
    assert t'.order == Add(t.order, |Live(t)|, k);
  }

  lemma {:induction false} StrDeleted(t: T, s: string)
    requires ValidT(t, 1)
    ensures var t' := SetStr(t, s, Nil); ValidT(t', 1) && SameSlots(t.order, t'.order)
  {
    LiveAfterStr(t, s, Nil);
    RepAfterStr(t, s, Nil);
    DeleteOk(t.order, Live(t), |t.arr|, Str(s));
  }

  lemma {:induction false} StrStored(t: T, s: string, v: Value)
    requires ValidT(t, 1) && v != Nil
    ensures var t' := SetStr(t, s, v);
            && ValidT(t', 1) && (s in t.strdict ==> t'.order == t.order)
            && (t.order.tracked && s !in t.strdict ==> SlotsBounded(t'))
  {
    RepAfterStr(t, s, v);
    LiveAfterStr(t, s, v);
    var t' := SetStr(t, s, v);
    LiveCount(t);
    LiveCount(t');
    LiveFacts(t', 1);
    AddOk(t.order, Live(t), |t.arr|, Str(s));
    assert t'.order == Add(t.order, |Live(t)|, Str(s));
  }

  lemma {:induction false} DictPut(t: T, k: Key, v: Value, slack: nat)
    requires Rep(t, slack) && DictKeyOk(k, |t.arr|, slack)
    ensures Put(t, SetDict(t, k, v), k, v)
  {
    DictAfter(t, k, v);
    PutInDict(t, SetDict(t, k, v), k, v, slack);
  }

  lemma {:induction false} PutInDict(t: T, t': T, k: Key, v: Value, slack: nat)
    requires t'.arr == t.arr && t'.strdict == t.strdict && t'.dict == if v == Nil then t.dict - {k} else t.dict[k := v]
    requires DictKeyOk(k, |t.arr|, slack)
    ensures Put(t, t', k, v)
  {
  }

  lemma {:induction false} StrPut(t: T, s: string, v: Value)
    ensures Put(t, SetStr(t, s, v), Str(s), v)
  {
  }

  // ----- positions of the array part -----

  /** Drops the cursors of a deleted sparse position, in both number forms. */
  function Forget(t: T, i: int): T {
    t.(order := ForgetDeleted(ForgetDeleted(t.order, ArrayKey(i)), Integer(i)))
  }

  lemma {:induction false} ForgetCorrect(t: T, i: int, slack: nat)
    requires ValidT(t, slack)
    ensures ValidT(Forget(t, i), slack)
    ensures ArrayKey(i) !in t.dict ==> ArrayKey(i) !in Forget(t, i).order.k2i
    ensures 0 < i <= |t.arr| ==> Forget(t, i) == t
  {
    var o1 := ForgetDeleted(t.order, ArrayKey(i));
    ForgetOk(t.order, Live(t), |t.arr|, ArrayKey(i));
    ForgetOk(o1, Live(t), |t.arr|, Integer(i));
    if 0 < i <= |t.arr| {
      ArrayHasNoCursor(t.order, Live(t), |t.arr|, i);
      CursorsNormal(t.order, Live(t), |t.arr|, Integer(i));
    }
  }

  /** Writing a position of the array part. */
  function WriteArray(t: T, i: int, v: Value): T
    requires 0 < i <= |t.arr|
  {
    t.(arr := t.arr[i - 1 := v])
  }

  lemma {:induction false} WriteArrayCorrect(t: T, i: int, v: Value, slack: nat)
    requires ValidT(t, slack) && 0 < i <= |t.arr|
    ensures ValidT(WriteArray(t, i, v), slack) && Put(t, WriteArray(t, i, v), ArrayKey(i), v)
  {
    assert Live(WriteArray(t, i, v)) == Live(t);
  }

  /** Growing the array part by one position that is nowhere else. */
  function Grow(t: T, v: Value): T {
    t.(arr := t.arr + [v], hasArray := true)
  }

  lemma {:induction false} GrowCorrect(t: T, v: Value)
    requires ValidT(t, 0) && |t.arr| + 1 < MAX_ARRAY_INDEX
    requires ArrayKey(|t.arr| + 1) !in t.dict && ArrayKey(|t.arr| + 1) !in t.order.k2i
    ensures ValidT(Grow(t, v), 0) && Put(t, Grow(t, v), ArrayKey(|t.arr| + 1), v)
  {
    var t' := Grow(t, v);
    assert Live(t') == Live(t);
    ResizeOk(t.order, Live(t), |t.arr|, |t.arr| + 1);
    GrowRep(t, v);
  }

  lemma {:induction false} GrowRep(t: T, v: Value)
    requires Rep(t, 0) && |t.arr| + 1 < MAX_ARRAY_INDEX && ArrayKey(|t.arr| + 1) !in t.dict
    ensures Rep(Grow(t, v), 0) && Put(t, Grow(t, v), ArrayKey(|t.arr| + 1), v)
  {
    var t' := Grow(t, v);
    forall k | k in t'.dict ensures DictKeyOk(k, |t'.arr|, 0) {
      assert k != ArrayKey(|t.arr| + 1);
    }
  }

  /** Takes the position after the array part out of the dictionary. */
  function Take(t: T): (T, Value) {
    var k := ArrayKey(|t.arr| + 1);
    var t1 := Forget(t, |t.arr| + 1);
    if k !in t1.dict then (t1, Nil)
    else
      var t2 := SetDict(t1, k, Nil);
      (t2.(order := Retire(t2.order, k)), t1.dict[k])
  }

  lemma {:induction false} RetireCorrect(t: T, k: Key)
    requires ValidT(t, 0) && k !in Live(t)
    ensures ValidT(t.(order := Retire(t.order, k)), 0)
  {
    assert Live(t.(order := Retire(t.order, k))) == Live(t);
    RetireOk(t.order, Live(t), |t.arr|, k);
  }

  lemma {:induction false} TakeStored(t: T, k: Key)
    requires ValidT(t, 0) && k in t.dict
    ensures var t2 := SetDict(t, k, Nil); var t' := t2.(order := Retire(t2.order, k));
            && ValidT(t', 0) && t'.arr == t.arr && t'.strdict == t.strdict && t'.hasArray == t.hasArray
            && t'.dict == t.dict - {k} && k !in t'.order.k2i
  {
    var t2 := SetDict(t, k, Nil);
    DictDeleted(t, k, 0);
    DictAfter(t, k, Nil);
    assert k !in Live(t2);
    RetireCorrect(t2, k);
  }

  /** What taking the position `k` leaves of a table. */
  ghost predicate Taken(t: T, t': T, k: Key) {
    && ValidT(t', 0) && t'.arr == t.arr && t'.strdict == t.strdict && t'.hasArray == t.hasArray
    && t'.dict == t.dict - {k} && k !in t'.order.k2i
  }

  lemma {:induction false} TakeAbsent(t: T, t1: T, k: Key)
    requires ValidT(t1, 0) && t1.arr == t.arr && t1.strdict == t.strdict && t1.hasArray == t.hasArray && t1.dict == t.dict
    requires k !in t.dict && k !in t1.order.k2i
    ensures TakenShut(t, t1, k)
  {
    assert t.dict - {k} == t.dict;
  }

  lemma {:induction false} TakePresent(t: T, t1: T, k: Key)
    requires ValidT(t1, 0) && t1.arr == t.arr && t1.strdict == t.strdict && t1.hasArray == t.hasArray && t1.dict == t.dict && k in t.dict
    ensures var t2 := SetDict(t1, k, Nil); TakenShut(t, t2.(order := Retire(t2.order, k)), k)
  {
    TakeStored(t1, k);
  }

  predicate TakeToken(i: nat) {
    true
  }

  /** The same under a token, for proofs by cases. */
  ghost predicate TakenShut(t: T, t': T, k: Key) {
    forall i {:trigger TakeToken(i)} :: TakeToken(i) ==> Taken(t, t', k)
  }

  lemma {:induction false} TakeCases(t: T)
    requires ValidT(t, 0)
    ensures var k := ArrayKey(|t.arr| + 1); TakenShut(t, Take(t).0, k) && Take(t).1 == (if k in t.dict then t.dict[k] else Nil)
  {
    var k := ArrayKey(|t.arr| + 1);
    ForgetCorrect(t, |t.arr| + 1, 0);
    if k !in t.dict {
      TakeAbsent(t, Forget(t, |t.arr| + 1), k);
    } else {
      TakePresent(t, Forget(t, |t.arr| + 1), k);
    }
  }

  predicate TakeSeen(i: nat) {
    true
  }

  /** `t'` and `v` are what taking leaves and gives, under a token. */
  ghost predicate Takes(t: T, t': T, v: Value) {
    forall i {:trigger TakeSeen(i)} :: TakeSeen(i) ==> t' == Take(t).0 && v == Take(t).1
  }

  lemma {:induction false} TakeCorrect(t: T, t': T, v: Value)
    requires ValidT(t, 0) && Takes(t, t', v)
    ensures var k := ArrayKey(|t.arr| + 1); TakenShut(t, t', k) && v == (if k in t.dict then t.dict[k] else Nil)
  {
    TakeCases(t);
    assert TakeSeen(0);
  }

  /** Moving the next position into the array part changes no value. */
  lemma {:induction false} PromoteCorrect(t: T, t1: T, v: Value)
    requires ValidT(t, 0) && |t.arr| + 1 < MAX_ARRAY_INDEX && Takes(t, t1, v)
    ensures ValidT(Grow(t1, v), 0) && Same(t, Grow(t1, v))
    ensures t1.arr == t.arr && t1.dict == t.dict - {ArrayKey(|t.arr| + 1)} && t1.hasArray == t.hasArray
  {
    TakeCorrect(t, t1, v);
    assert TakeToken(0);
    GrowCorrect(t1, v);
    PromoteSame(t, t1, v);
  }

  lemma {:induction false} PromoteSame(t: T, t1: T, v: Value)
    requires t1.arr == t.arr && t1.strdict == t.strdict && t1.dict == t.dict - {ArrayKey(|t.arr| + 1)} && |t.arr| + 1 < MAX_ARRAY_INDEX
    requires v == if ArrayKey(|t.arr| + 1) in t.dict then t.dict[ArrayKey(|t.arr| + 1)] else Nil
    ensures Same(t, Grow(t1, v))
  {
    forall x | Norm(x) == x ensures Lookup(Grow(t1, v), x) == Lookup(t, x) {
      if x.Number? && x.f.Whole? {
        assert x == ArrayKey(x.f.i);
      }
    }
  }
}
