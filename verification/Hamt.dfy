/**
 The persistent hash trie (internal/hamt.go).

 Nodes are immutable values, so older versions are unchanged by construction.
 Everything is proved for an arbitrary hash function, including one that maps
 all keys to the same value.
 */
module Hamt {

  datatype Option<+T> = None | Some(value: T)

  // ----- bitmaps -----

  const WIDTH: nat := 32

  /** A 32-bit word, bit 0 first. */
  type Bitmap = seq<bool>

  function NoBits(): Bitmap {
    seq(WIDTH, _ => false)
  }

  /** The number of set bits. */
  function Popcount(b: Bitmap): nat {
    if b == [] then 0 else (if b[0] then 1 else 0) + Popcount(b[1..])
  }

  lemma {:induction false} PopcountConcat(a: Bitmap, b: Bitmap)
    ensures Popcount(a + b) == Popcount(a) + Popcount(b)
  {
    if a == [] {
      assert a + b == b;
    } else {
      assert (a + b)[1..] == a[1..] + b;
      PopcountConcat(a[1..], b);
    }
  }

  lemma {:induction false} PopcountAround(b: Bitmap, p: nat)
    requires p < |b|
    ensures Popcount(b) == Popcount(b[..p]) + (if b[p] then 1 else 0) + Popcount(b[p + 1..])
  {
    assert b == b[..p] + ([b[p]] + b[p + 1..]);
    PopcountConcat(b[..p], [b[p]] + b[p + 1..]);
    assert ([b[p]] + b[p + 1..])[1..] == b[p + 1..];
  }

  /** The position of a bit among the set bits below it. */
  function Rank(b: Bitmap, p: nat): nat
    requires p <= |b|
  {
    Popcount(b[..p])
  }

  lemma {:induction false} RankBound(b: Bitmap, p: nat)
    requires p < |b|
    ensures Rank(b, p) <= Popcount(b) && (b[p] ==> Rank(b, p) < Popcount(b))
  {
    PopcountAround(b, p);
  }

  lemma {:induction false} RankMonotone(b: Bitmap, p: nat, q: nat)
    requires p < q <= |b|
    ensures Rank(b, p) + (if b[p] then 1 else 0) <= Rank(b, q)
  {
    PopcountAround(b[..q], p);
    assert b[..q][..p] == b[..p];
  }

  /** The bit that owns child `i`. */
  function Select(b: Bitmap, i: nat): (p: nat)
    requires i < Popcount(b)
    ensures p < |b| && b[p] && Rank(b, p) == i
  {
    if b[0] && i == 0 then
      assert b[..0] == [];
      0
    else
      var p := 1 + Select(b[1..], if b[0] then i - 1 else i);
      assert b[..p][1..] == b[1..][..p - 1];
      p
  }

  lemma {:induction false} RankUpdate(b: Bitmap, p: nat, v: bool, q: nat)
    requires p < |b| && q <= |b|
    ensures q <= p ==> Rank(b[p := v], q) == Rank(b, q)
    ensures p < q ==> Rank(b[p := v], q) == Rank(b, q) - (if b[p] then 1 else 0) + (if v then 1 else 0)
  {
    if q <= p {
      assert b[p := v][..q] == b[..q];
    } else {
      PopcountAround(b[..q], p);
      PopcountAround(b[p := v][..q], p);
      assert b[p := v][..q][..p] == b[..q][..p];
      assert b[p := v][..q][p + 1..] == b[..q][p + 1..];
    }
  }

  lemma {:induction false} PopcountUpdate(b: Bitmap, p: nat, v: bool)
    requires p < |b|
    ensures Popcount(b[p := v]) == Popcount(b) - (if b[p] then 1 else 0) + (if v then 1 else 0)
  {
    RankUpdate(b, p, v, |b|);
    assert b[..|b|] == b && b[p := v][..|b|] == b[p := v];
  }

  // ----- nodes -----

  datatype Entry<K, V> = Entry(key: K, value: V)

  datatype Node<K, V> = Node(bitmap: Bitmap, entries: seq<Entry<K, V>>, children: seq<Node<K, V>>)

  const BITS_PER_LEVEL: nat := 5
  const MAX_HASH_SHIFT: nat := 64

  /** Five bits of the hash: shift right, then mask. */
  function Digit(hash: nat, shift: nat): (d: nat)
    ensures d < WIDTH
    decreases shift
  {
    if shift == 0 then hash % WIDTH else Digit(hash / 2, shift - 1)
  }

  function Pow2(n: nat): (r: nat)
    ensures r > 0
  {
    if n == 0 then 1 else 2 * Pow2(n - 1)
  }

  /** That is the quotient by a power of two, modulo 32. */
  lemma {:induction false} DigitIs(hash: nat, shift: nat)
    ensures Digit(hash, shift) == hash / Pow2(shift) % 32
  {
    if shift > 0 {
      DigitIs(hash / 2, shift - 1);
      HalfThen(hash, Pow2(shift - 1));
    }
  }

  lemma {:induction false} HalfThen(a: nat, p: nat)
    requires p > 0
    ensures a / 2 / p == a / (2 * p)
  {
    var q := a / 2 / p;
    var r := a / 2 - q * p;
    assert a == 2 * (q * p + r) + a % 2;
    assert 2 * (q * p) == q * (2 * p);
    Quotient(a, 2 * p, q, 2 * r + a % 2);
  }

  lemma {:induction false} Quotient(a: nat, p: nat, q: nat, r: nat)
    requires p > 0 && a == q * p + r && r < p
    ensures a / p == q
  {
    var d := a / p - q;
    assert a == p * (a / p) + a % p && p * d == r - a % p;
    Times(p, d);
  }

  lemma {:induction false} Times(p: nat, d: int)
    requires p > 0
    ensures (d >= 1 ==> p * d >= p) && (d <= -1 ==> p * d <= 0 - p)
  {
    if d >= 1 {
      assert p * (d - 1) >= 0;
    } else if d <= -1 {
      assert p * (-1 - d) >= 0;
    }
  }

  /** The digits of the hash to the base 32, one for each level of the trie. */
  lemma {:induction false} LevelDigit(hash: nat, level: nat)
    ensures Digit(hash, level * BITS_PER_LEVEL) == hash / Pow2(5 * level) % 32
  {
    DigitIs(hash, 5 * level);
  }

  function IndexOf<K(==), V>(es: seq<Entry<K, V>>, key: K): (i: nat)
    ensures i <= |es| && (i < |es| ==> es[i].key == key)
    ensures forall j :: 0 <= j < i ==> es[j].key != key
  {
    if es == [] || es[0].key == key then 0 else 1 + IndexOf(es[1..], key)
  }

  // ----- what a node stands for -----

  function EntryAt<K(==), V>(es: seq<Entry<K, V>>, key: K): Option<V> {
    if es == [] then None else if es[0].key == key then Some(es[0].value) else EntryAt(es[1..], key)
  }

  /** The value of a key anywhere at or below a node. */
  function At<K(==), V>(n: Node<K, V>, key: K): Option<V> {
    if EntryAt(n.entries, key).Some? then EntryAt(n.entries, key) else ChildAt(n.children, key)
  }

  function ChildAt<K(==), V>(ns: seq<Node<K, V>>, key: K): Option<V> {
    if ns == [] then None else if At(ns[0], key).Some? then At(ns[0], key) else ChildAt(ns[1..], key)
  }

  predicate IsEmpty<K, V>(n: Node<K, V>) {
    |n.entries| == 0 && |n.children| == 0
  }

  ghost predicate DistinctKeys<K, V>(es: seq<Entry<K, V>>) {
    forall i, j :: 0 <= i < j < |es| ==> es[i].key != es[j].key
  }

  /** The representation invariant of a node at a depth: one child for each set
      bit, no child is empty, the keys below a child all have that child's hash
      digit, and no key occurs twice. */
  ghost predicate Valid<K(!new), V>(hash: K -> nat, n: Node<K, V>, shift: nat)
    decreases n
  {
    && |n.bitmap| == WIDTH && |n.children| == Popcount(n.bitmap)
    && DistinctKeys(n.entries)
    && (shift >= MAX_HASH_SHIFT ==> n.children == [])
    && (forall i :: 0 <= i < |n.children| ==>
          && Valid(hash, n.children[i], shift + BITS_PER_LEVEL)
          && ChildOk(hash, n.children[i], Select(n.bitmap, i), shift))
    && (forall k :: EntryAt(n.entries, k).Some? ==> ChildAt(n.children, k).None?)
  }

  /** A child that may hang at digit `p`. */
  ghost predicate ChildOk<K(!new), V>(hash: K -> nat, c: Node<K, V>, p: nat, shift: nat) {
    !IsEmpty(c) && forall k :: At(c, k).Some? ==> Digit(hash(k), shift) == p
  }

  // ----- entries -----

  lemma {:induction false} EntryAtIndex<K, V>(es: seq<Entry<K, V>>, key: K)
    ensures EntryAt(es, key) == var i := IndexOf(es, key); if i < |es| then Some(es[i].value) else None
  {
    if es == [] || es[0].key == key {
    } else {
      EntryAtIndex(es[1..], key);
    }
  }

  lemma {:induction false} EntryReplace<K, V>(es: seq<Entry<K, V>>, key: K, value: V, k: K)
    requires IndexOf(es, key) < |es|
    ensures EntryAt(es[IndexOf(es, key) := Entry(key, value)], k) == if k == key then Some(value) else EntryAt(es, k)
  {
    var i := IndexOf(es, key);
    var es' := es[i := Entry(key, value)];
    if es[0].key == key {
      assert es'[1..] == es[1..];
    } else {
      EntryReplace(es[1..], key, value, k);
      assert es'[1..] == es[1..][i - 1 := Entry(key, value)];
    }
  }

  lemma {:induction false} EntryAppend<K, V>(es: seq<Entry<K, V>>, key: K, value: V, k: K)
    requires IndexOf(es, key) == |es|
    ensures EntryAt(es + [Entry(key, value)], k) == if k == key then Some(value) else EntryAt(es, k)
  {
    var es' := es + [Entry(key, value)];
    if es == [] {
      assert es'[1..] == [];
    } else {
      EntryAppend(es[1..], key, value, k);
      assert es'[1..] == es[1..] + [Entry(key, value)];
    }
  }

  lemma {:induction false} EntryRemove<K, V>(es: seq<Entry<K, V>>, key: K, k: K)
    requires IndexOf(es, key) < |es| && DistinctKeys(es)
    ensures var i := IndexOf(es, key);
            EntryAt(es[..i] + es[i + 1..], k) == if k == key then None else EntryAt(es, k)
  {
    var i := IndexOf(es, key);
    var es' := es[..i] + es[i + 1..];
    if es[0].key == key {
      assert es' == es[1..];
      EntryAtIndex(es[1..], key);
    } else {
      EntryRemove(es[1..], key, k);
      assert es'[0] == es[0];
      assert es'[1..] == es[1..][..i - 1] + es[1..][i..];
    }
  }

  // ----- children -----

  lemma {:induction false} ChildAtConcat<K, V>(a: seq<Node<K, V>>, b: seq<Node<K, V>>, k: K)
    ensures ChildAt(a + b, k) == if ChildAt(a, k).Some? then ChildAt(a, k) else ChildAt(b, k)
  {
    if a == [] {
      assert a + b == b;
    } else {
      assert (a + b)[1..] == a[1..] + b;
      ChildAtConcat(a[1..], b, k);
    }
  }

  /** A key held by one child and by none of the others. */
  lemma {:induction false} ChildAtAround<K, V>(a: seq<Node<K, V>>, c: Node<K, V>, b: seq<Node<K, V>>, k: K)
    ensures ChildAt(a + [c] + b, k)
         == if ChildAt(a, k).Some? then ChildAt(a, k) else if At(c, k).Some? then At(c, k) else ChildAt(b, k)
  {
    ChildAtConcat(a + [c], b, k);
    ChildAtConcat(a, [c], k);
    assert [c][1..] == [];
  }

  lemma {:induction false} ChildAtSplit<K, V>(ns: seq<Node<K, V>>, r: nat, k: K)
    requires r < |ns|
    ensures ChildAt(ns, k) == if ChildAt(ns[..r], k).Some? then ChildAt(ns[..r], k)
                              else if At(ns[r], k).Some? then At(ns[r], k)
                              else ChildAt(ns[r + 1..], k)
  {
    assert ns == ns[..r] + [ns[r]] + ns[r + 1..];
    ChildAtAround(ns[..r], ns[r], ns[r + 1..], k);
  }

  lemma {:induction false} SelectUnique(b: Bitmap, i: nat, q: nat)
    requires i < Popcount(b) && q < |b| && b[q] && Rank(b, q) == i
    ensures Select(b, i) == q
  {
    var p := Select(b, i);
    if p < q {
      RankMonotone(b, p, q);
    } else if q < p {
      RankMonotone(b, q, p);
    }
  }

  /** A key below a node can only be in the child of its own digit. */
  lemma {:induction false} KeyInOwnChild<K(!new), V>(hash: K -> nat, n: Node<K, V>, shift: nat, key: K, i: nat)
    requires Valid(hash, n, shift) && i < |n.children| && At(n.children[i], key).Some?
    ensures var p := Digit(hash(key), shift); n.bitmap[p] && Rank(n.bitmap, p) == i
  {
    assert ChildOk(hash, n.children[i], Select(n.bitmap, i), shift);
  }

  /** The children left and right of a key's own place do not hold it. */
  lemma {:induction false} KeyNotElsewhere<K(!new), V>(hash: K -> nat, n: Node<K, V>, shift: nat, key: K)
    requires Valid(hash, n, shift)
    ensures var p := Digit(hash(key), shift); var r := Rank(n.bitmap, p);
            && r <= |n.children| && ChildAt(n.children[..r], key).None?
            && (n.bitmap[p] ==> r < |n.children| && ChildAt(n.children[r + 1..], key).None?)
            && (!n.bitmap[p] ==> ChildAt(n.children[r..], key).None? && ChildAt(n.children, key).None?)
  {
    var p := Digit(hash(key), shift);
    var r := Rank(n.bitmap, p);
    RankBound(n.bitmap, p);
    forall i | 0 <= i < |n.children| && !(n.bitmap[p] && i == r) ensures At(n.children[i], key).None? {
      OtherChild(hash, n, shift, key, i);
    }
    if n.bitmap[p] {
      OneHolds(n.children, key, r);
    } else {
      NoneHolds(n.children, key, r);
    }
  }

  lemma {:induction false} OneHolds<K, V>(ns: seq<Node<K, V>>, key: K, r: nat)
    requires r < |ns| && (forall i :: 0 <= i < r ==> At(ns[i], key).None?) && (forall i :: r < i < |ns| ==> At(ns[i], key).None?)
    ensures ChildAt(ns[..r], key).None? && ChildAt(ns[r + 1..], key).None?
  {
    forall i | 0 <= i < r ensures At(ns[..r][i], key).None? {
      assert ns[..r][i] == ns[i];
    }
    NoneHold(ns[..r], key);
    var rest := ns[r + 1..];
    forall i | 0 <= i < |rest| ensures At(rest[i], key).None? {
      assert rest[i] == ns[r + 1 + i];
    }
    NoneHold(rest, key);
  }

  lemma {:induction false} NoneHolds<K, V>(ns: seq<Node<K, V>>, key: K, r: nat)
    requires r <= |ns| && forall i :: 0 <= i < |ns| ==> At(ns[i], key).None?
    ensures ChildAt(ns[..r], key).None? && ChildAt(ns[r..], key).None? && ChildAt(ns, key).None?
  {
    forall i | 0 <= i < r ensures At(ns[..r][i], key).None? {
      assert ns[..r][i] == ns[i];
    }
    NoneHold(ns[..r], key);
    forall i | 0 <= i < |ns| - r ensures At(ns[r..][i], key).None? {
      assert ns[r..][i] == ns[r + i];
    }
    NoneHold(ns[r..], key);
    NoneHold(ns, key);
  }

  lemma {:induction false} OtherChild<K(!new), V>(hash: K -> nat, n: Node<K, V>, shift: nat, key: K, i: nat)
    requires Valid(hash, n, shift) && i < |n.children|
    ensures var p := Digit(hash(key), shift); At(n.children[i], key).Some? ==> n.bitmap[p] && Rank(n.bitmap, p) == i
  {
    if At(n.children[i], key).Some? {
      KeyInOwnChild(hash, n, shift, key, i);
    }
  }

  lemma {:induction false} NoneHold<K, V>(ns: seq<Node<K, V>>, key: K)
    requires forall i :: 0 <= i < |ns| ==> At(ns[i], key).None?
    ensures ChildAt(ns, key).None?
  {
    if ns != [] {
      NoneHold(ns[1..], key);
    }
  }

  // ----- lookup -----

  function Get<K(==, !new), V>(hash: K -> nat, n: Node<K, V>, key: K, shift: nat): (r: Option<V>)
    requires Valid(hash, n, shift)
    decreases n
  {
    var i := IndexOf(n.entries, key);
    if i < |n.entries| then Some(n.entries[i].value)
    else if |n.children| == 0 then None
    else
      var p := Digit(hash(key), shift);
      if !n.bitmap[p] then None
      else
        RankBound(n.bitmap, p);
        Get(hash, n.children[Rank(n.bitmap, p)], key, shift + BITS_PER_LEVEL)
  }

  /** Following the hash digits finds a key wherever it is. */
  lemma {:induction false} GetIsAt<K(!new), V>(hash: K -> nat, n: Node<K, V>, key: K, shift: nat)
    requires Valid(hash, n, shift)
    ensures Get(hash, n, key, shift) == At(n, key)
    decreases n
  {
    EntryAtIndex(n.entries, key);
    if IndexOf(n.entries, key) == |n.entries| && n.children != [] {
      KeyNotElsewhere(hash, n, shift, key);
      var p := Digit(hash(key), shift);
      if n.bitmap[p] {
        var r := Rank(n.bitmap, p);
        GetIsAt(hash, n.children[r], key, shift + BITS_PER_LEVEL);
        ChildAtSplit(n.children, r, key);
      }
    }
  }

  // ----- insertion -----

  function SetEntry<K(==), V>(n: Node<K, V>, key: K, value: V): (r: (Node<K, V>, bool)) {
    var i := IndexOf(n.entries, key);
    if i < |n.entries| then (n.(entries := n.entries[i := Entry(key, value)]), false)
    else (n.(entries := n.entries + [Entry(key, value)]), true)
  }

  function Leaf<K, V>(key: K, value: V): Node<K, V> {
    Node(NoBits(), [Entry(key, value)], [])
  }

  function InsertChild<K, V>(ns: seq<Node<K, V>>, i: nat, c: Node<K, V>): seq<Node<K, V>>
    requires i <= |ns|
  {
    ns[..i] + [c] + ns[i..]
  }

  function Set<K(==, !new), V>(hash: K -> nat, n: Node<K, V>, key: K, value: V, shift: nat): (r: (Node<K, V>, bool))
    requires Valid(hash, n, shift)
    decreases n
  {
    if shift >= MAX_HASH_SHIFT || IndexOf(n.entries, key) < |n.entries| then SetEntry(n, key, value)
    else
      var p := Digit(hash(key), shift);
      RankBound(n.bitmap, p);
      var r := Rank(n.bitmap, p);
      if !n.bitmap[p] then
        (Node(n.bitmap[p := true], n.entries, InsertChild(n.children, r, Leaf(key, value))), true)
      else
        var below := Set(hash, n.children[r], key, value, shift + BITS_PER_LEVEL);
        (n.(children := n.children[r := below.0]), below.1)
  }

  /** `n'` holds what `n` holds, with one key set. */
  ghost predicate Updated<K(!new), V>(n: Node<K, V>, key: K, value: Option<V>, n': Node<K, V>) {
    forall k :: At(n', k) == if k == key then value else At(n, k)
  }

  lemma {:induction false} AllClear(b: Bitmap)
    requires forall i :: 0 <= i < |b| ==> !b[i]
    ensures Popcount(b) == 0
  {
    if b == [] {
    } else {
      AllClear(b[1..]);
    }
  }

  lemma {:induction false} LeafAt<K, V>(key: K, value: V, k: K)
    ensures At(Leaf(key, value), k) == if k == key then Some(value) else None
  {
    var es := [Entry(key, value)];
    assert es[1..] == [];
    assert EntryAt(es, k) == if k == key then Some(value) else None;
    assert Leaf(key, value).entries == es;
  }

  lemma {:induction false} LeafValid<K(!new), V>(hash: K -> nat, key: K, value: V, shift: nat)
    ensures Valid(hash, Leaf(key, value), shift)
    ensures ChildOk(hash, Leaf(key, value), Digit(hash(key), shift), shift)
  {
    NoBitsClear();
    forall k ensures At(Leaf(key, value), k).Some? ==> k == key {
      LeafAt(key, value, k);
    }
    ChildlessValid(hash, Leaf(key, value), shift);
  }

  lemma {:induction false} NoBitsClear()
    ensures |NoBits()| == WIDTH && Popcount(NoBits()) == 0
  {
    AllClear(NoBits());
  }

  /** A node with at most one entry and no children. */
  lemma {:induction false} ChildlessValid<K(!new), V>(hash: K -> nat, n: Node<K, V>, shift: nat)
    requires |n.bitmap| == WIDTH && Popcount(n.bitmap) == 0 && n.children == [] && |n.entries| <= 1
    ensures Valid(hash, n, shift)
  {
  }

  lemma {:induction false} SetEntryCorrect<K(!new), V>(hash: K -> nat, n: Node<K, V>, key: K, value: V, shift: nat)
    requires Valid(hash, n, shift)
    requires IndexOf(n.entries, key) < |n.entries| || ChildAt(n.children, key).None?
    ensures var r := SetEntry(n, key, value);
            Valid(hash, r.0, shift) && Updated(n, key, Some(value), r.0) && (r.1 <==> At(n, key).None?)
  {
    var n' := SetEntry(n, key, value).0;
    EntryAtIndex(n.entries, key);
    forall k ensures EntryAt(n'.entries, k) == if k == key then Some(value) else EntryAt(n.entries, k) {
      if IndexOf(n.entries, key) < |n.entries| {
        EntryReplace(n.entries, key, value, k);
      } else {
        EntryAppend(n.entries, key, value, k);
      }
    }
  }

  /** Setting a bit shifts the owners of the later children by one. */
  lemma {:induction false} SelectAfterInsert(b: Bitmap, p: nat, i: nat)
    requires p < |b| && !b[p] && i <= Popcount(b)
    ensures Popcount(b[p := true]) == Popcount(b) + 1 && Rank(b, p) <= Popcount(b)
    ensures var r := Rank(b, p);
            Select(b[p := true], i) == if i < r then Select(b, i) else if i == r then p else Select(b, i - 1)
  {
    var b' := b[p := true];
    PopcountUpdate(b, p, true);
    RankBound(b, p);
    var r := Rank(b, p);
    RankUpdate(b, p, true, p);
    if i == r {
      SelectUnique(b', i, p);
    } else {
      var j := if i < r then i else i - 1;
      var q := Select(b, j);
      if q < p {
        RankMonotone(b, q, p);
      } else {
        RankMonotone(b, p, q);
      }
      RankUpdate(b, p, true, q);
      SelectUnique(b', i, q);
    }
  }

  lemma {:induction false} AddChildAt<K, V>(ns: seq<Node<K, V>>, r: nat, key: K, value: V, k: K)
    requires r <= |ns| && ChildAt(ns[..r], key).None? && ChildAt(ns[r..], key).None?
    ensures ChildAt(InsertChild(ns, r, Leaf(key, value)), k) == if k == key then Some(value) else ChildAt(ns, k)
  {
    LeafAt(key, value, k);
    ChildAtAround(ns[..r], Leaf(key, value), ns[r..], k);
    ChildAtConcat(ns[..r], ns[r..], k);
    assert ns[..r] + ns[r..] == ns;
  }

  lemma {:induction false} InsertedChild<K, V>(ns: seq<Node<K, V>>, r: nat, c: Node<K, V>, i: nat)
    requires r <= |ns| && i <= |ns|
    ensures InsertChild(ns, r, c)[i] == if i < r then ns[i] else if i == r then c else ns[i - 1]
  {
  }

  lemma {:induction false} AddChildrenOk<K(!new), V>(hash: K -> nat, n: Node<K, V>, key: K, c: Node<K, V>, shift: nat, i: nat)
    requires Valid(hash, n, shift) && !n.bitmap[Digit(hash(key), shift)] && i <= |n.children|
    requires Valid(hash, c, shift + BITS_PER_LEVEL) && ChildOk(hash, c, Digit(hash(key), shift), shift)
    ensures var p := Digit(hash(key), shift); var r := Rank(n.bitmap, p); var b := n.bitmap[p := true];
            && r <= |n.children| && Popcount(b) == |n.children| + 1
            && var d := InsertChild(n.children, r, c)[i];
            Valid(hash, d, shift + BITS_PER_LEVEL) && ChildOk(hash, d, Select(b, i), shift)
  {
    var p := Digit(hash(key), shift);
    SelectAfterInsert(n.bitmap, p, i);
    InsertedChild(n.children, Rank(n.bitmap, p), c, i);
  }

  lemma {:induction false} AddChildCorrect<K(!new), V>(hash: K -> nat, n: Node<K, V>, key: K, value: V, shift: nat)
    requires Valid(hash, n, shift) && shift < MAX_HASH_SHIFT
    requires IndexOf(n.entries, key) == |n.entries| && !n.bitmap[Digit(hash(key), shift)]
    ensures var r := Set(hash, n, key, value, shift);
            Valid(hash, r.0, shift) && Updated(n, key, Some(value), r.0) && r.1 && At(n, key).None?
  {
    KeyNotElsewhere(hash, n, shift, key);
    var p := Digit(hash(key), shift);
    var n' := Node(n.bitmap[p := true], n.entries, InsertChild(n.children, Rank(n.bitmap, p), Leaf(key, value)));
    AddedModel(hash, n, key, value, shift, n');
    AddedValid(hash, n, key, value, shift, n');
    EntryAtIndex(n.entries, key);
  }

  /** The node with a new leaf as a child: what it holds. */
  lemma {:induction false} AddedModel<K(!new), V>(hash: K -> nat, n: Node<K, V>, key: K, value: V, shift: nat, n': Node<K, V>)
    requires Valid(hash, n, shift) && IndexOf(n.entries, key) == |n.entries| && !n.bitmap[Digit(hash(key), shift)]
    requires var p := Digit(hash(key), shift); var r := Rank(n.bitmap, p);
             r <= |n.children| && n' == Node(n.bitmap[p := true], n.entries, InsertChild(n.children, r, Leaf(key, value)))
    ensures forall k :: ChildAt(n'.children, k) == if k == key then Some(value) else ChildAt(n.children, k)
    ensures Updated(n, key, Some(value), n')
  {
    KeyNotElsewhere(hash, n, shift, key);
    EntryAtIndex(n.entries, key);
    forall k ensures ChildAt(n'.children, k) == if k == key then Some(value) else ChildAt(n.children, k) {
      AddChildAt(n.children, Rank(n.bitmap, Digit(hash(key), shift)), key, value, k);
    }
  }

  lemma {:induction false} AddedValid<K(!new), V>(hash: K -> nat, n: Node<K, V>, key: K, value: V, shift: nat, n': Node<K, V>)
    requires Valid(hash, n, shift) && shift < MAX_HASH_SHIFT && IndexOf(n.entries, key) == |n.entries| && !n.bitmap[Digit(hash(key), shift)]
    requires var p := Digit(hash(key), shift); var r := Rank(n.bitmap, p);
             r <= |n.children| && n' == Node(n.bitmap[p := true], n.entries, InsertChild(n.children, r, Leaf(key, value)))
    requires forall k :: ChildAt(n'.children, k) == if k == key then Some(value) else ChildAt(n.children, k)
    ensures Valid(hash, n', shift)
  {
    EntryAtIndex(n.entries, key);
    LeafValid(hash, key, value, shift);
    LeafValid(hash, key, value, shift + BITS_PER_LEVEL);
    AddChildrenOk(hash, n, key, Leaf(key, value), shift, 0);
    assert forall k :: EntryAt(n.entries, k).Some? ==> ChildAt(n'.children, k).None?;
    forall i | 0 <= i < |n'.children|
      ensures Valid(hash, n'.children[i], shift + BITS_PER_LEVEL) && ChildOk(hash, n'.children[i], Select(n'.bitmap, i), shift)
    {
      AddChildrenOk(hash, n, key, Leaf(key, value), shift, i);
    }
  }

  lemma {:induction false} ReplaceChildAt<K, V>(ns: seq<Node<K, V>>, r: nat, c: Node<K, V>, key: K, value: Option<V>, k: K)
    requires r < |ns| && ChildAt(ns[..r], key).None? && ChildAt(ns[r + 1..], key).None?
    requires At(c, k) == if k == key then value else At(ns[r], k)
    ensures ChildAt(ns[r := c], k) == if k == key then value else ChildAt(ns, k)
  {
    ChildAtSplit(ns, r, k);
    ChildAtSplit(ns[r := c], r, k);
    assert ns[r := c][..r] == ns[..r] && ns[r := c][r + 1..] == ns[r + 1..];
  }

  /** Replacing the child of a key's digit by one that differs only at the key. */
  lemma {:induction false} ReplaceChildCorrect<K(!new), V>(hash: K -> nat, n: Node<K, V>, key: K, value: Option<V>, shift: nat, r: nat, c: Node<K, V>)
    requires Valid(hash, n, shift) && IndexOf(n.entries, key) == |n.entries| && n.bitmap[Digit(hash(key), shift)]
    requires r == Rank(n.bitmap, Digit(hash(key), shift)) < |n.children|
    requires Valid(hash, c, shift + BITS_PER_LEVEL) && !IsEmpty(c) && Updated(n.children[r], key, value, c)
    ensures var n' := n.(children := n.children[r := c]);
            Valid(hash, n', shift) && Updated(n, key, value, n') && At(n, key) == At(n.children[r], key)
  {
    var n' := n.(children := n.children[r := c]);
    KeyNotElsewhere(hash, n, shift, key);
    EntryAtIndex(n.entries, key);
    ChildAtSplit(n.children, r, key);
    forall k ensures ChildAt(n'.children, k) == if k == key then value else ChildAt(n.children, k) {
      ReplaceChildAt(n.children, r, c, key, value, k);
    }
    SelectUnique(n.bitmap, r, Digit(hash(key), shift));
    assert ChildOk(hash, n.children[r], Select(n.bitmap, r), shift);
    assert ChildOk(hash, c, Select(n.bitmap, r), shift);
  }

  lemma {:induction false} HoldsSomething<K, V>(n: Node<K, V>, k: K)
    requires At(n, k).Some?
    ensures !IsEmpty(n)
  {
  }

  predicate Shut(t: nat) {
    true
  }

  /** `s` is `n` with a key set, or taken away for `None`, and a flag that says whether
      a key came or went. Stated under a token, to be unfolded where it is needed. */
  ghost predicate Changed<K(!new), V>(hash: K -> nat, n: Node<K, V>, key: K, value: Option<V>, shift: nat, s: (Node<K, V>, bool)) {
    forall t {:trigger Shut(t)} :: Shut(t) ==>
      && Valid(hash, s.0, shift) && Updated(n, key, value, s.0) && (s.1 <==> At(n, key).Some? != value.Some?)
      && (value.None? && !s.1 ==> s.0 == n)
  }

  lemma {:induction false} AtKey<K(!new), V>(hash: K -> nat, n: Node<K, V>, key: K, value: Option<V>, shift: nat, s: (Node<K, V>, bool))
    requires Changed(hash, n, key, value, shift, s)
    ensures At(s.0, key) == value
  {
    assert Shut(0);
  }

  /** Replacing the child of the key's digit by one with the key changed. */
  lemma {:induction false} BelowChanged<K(!new), V>(hash: K -> nat, n: Node<K, V>, key: K, value: Option<V>, shift: nat, r: nat, s: (Node<K, V>, bool))
    requires Valid(hash, n, shift) && IndexOf(n.entries, key) == |n.entries| && n.bitmap[Digit(hash(key), shift)]
    requires r == Rank(n.bitmap, Digit(hash(key), shift)) < |n.children|
    requires Changed(hash, n.children[r], key, value, shift + BITS_PER_LEVEL, s) && !IsEmpty(s.0) && (value.None? ==> s.1)
    ensures Changed(hash, n, key, value, shift, (n.(children := n.children[r := s.0]), s.1))
  {
    assert Shut(0);
    ReplaceChildCorrect(hash, n, key, value, shift, r, s.0);
  }

  lemma {:induction false} SetEntryChanged<K(!new), V>(hash: K -> nat, n: Node<K, V>, key: K, value: V, shift: nat)
    requires Valid(hash, n, shift) && (shift >= MAX_HASH_SHIFT || IndexOf(n.entries, key) < |n.entries|)
    ensures Changed(hash, n, key, Some(value), shift, Set(hash, n, key, value, shift))
  {
    SetEntryCorrect(hash, n, key, value, shift);
  }

  lemma {:induction false} AddChildChanged<K(!new), V>(hash: K -> nat, n: Node<K, V>, key: K, value: V, shift: nat)
    requires Valid(hash, n, shift) && shift < MAX_HASH_SHIFT
    requires IndexOf(n.entries, key) == |n.entries| && !n.bitmap[Digit(hash(key), shift)]
    ensures Changed(hash, n, key, Some(value), shift, Set(hash, n, key, value, shift))
  {
    AddChildCorrect(hash, n, key, value, shift);
  }

  lemma {:induction false} SetChanged<K(!new), V>(hash: K -> nat, n: Node<K, V>, key: K, value: V, shift: nat)
    requires Valid(hash, n, shift)
    ensures Changed(hash, n, key, Some(value), shift, Set(hash, n, key, value, shift))
    decreases n
  {
    if shift >= MAX_HASH_SHIFT || IndexOf(n.entries, key) < |n.entries| {
      SetEntryChanged(hash, n, key, value, shift);
    } else {
      var p := Digit(hash(key), shift);
      if !n.bitmap[p] {
        AddChildChanged(hash, n, key, value, shift);
      } else {
        RankBound(n.bitmap, p);
        var r := Rank(n.bitmap, p);
        SetChanged(hash, n.children[r], key, value, shift + BITS_PER_LEVEL);
        SetBelowChanged(hash, n, key, value, shift, r, Set(hash, n.children[r], key, value, shift + BITS_PER_LEVEL));
      }
    }
  }

  lemma {:induction false} SetBelowChanged<K(!new), V>(hash: K -> nat, n: Node<K, V>, key: K, value: V, shift: nat, r: nat, s: (Node<K, V>, bool))
    requires Valid(hash, n, shift) && IndexOf(n.entries, key) == |n.entries| && n.bitmap[Digit(hash(key), shift)]
    requires r == Rank(n.bitmap, Digit(hash(key), shift)) < |n.children| && Changed(hash, n.children[r], key, Some(value), shift + BITS_PER_LEVEL, s)
    ensures Changed(hash, n, key, Some(value), shift, (n.(children := n.children[r := s.0]), s.1))
  {
    AtKey(hash, n.children[r], key, Some(value), shift + BITS_PER_LEVEL, s);
    HoldsSomething(s.0, key);
    BelowChanged(hash, n, key, Some(value), shift, r, s);
  }

  /** Insertion changes the value of one key; the flag says whether it is new. */
  lemma {:induction false} SetIsUpdate<K(!new), V>(hash: K -> nat, n: Node<K, V>, key: K, value: V, shift: nat)
    requires Valid(hash, n, shift)
    ensures var r := Set(hash, n, key, value, shift);
            Valid(hash, r.0, shift) && Updated(n, key, Some(value), r.0) && (r.1 <==> At(n, key).None?)
  {
    SetChanged(hash, n, key, value, shift);
    assert Shut(0);
  }

  // ----- deletion -----

  function RemoveChild<K, V>(ns: seq<Node<K, V>>, i: nat): seq<Node<K, V>>
    requires i < |ns|
  {
    ns[..i] + ns[i + 1..]
  }

  function Delete<K(==, !new), V>(hash: K -> nat, n: Node<K, V>, key: K, shift: nat): (r: (Node<K, V>, bool))
    requires Valid(hash, n, shift)
    decreases n
  {
    var i := IndexOf(n.entries, key);
    if i < |n.entries| then (n.(entries := n.entries[..i] + n.entries[i + 1..]), true)
    else if |n.children| == 0 then (n, false)
    else
      var p := Digit(hash(key), shift);
      if !n.bitmap[p] then (n, false)
      else
        RankBound(n.bitmap, p);
        var r := Rank(n.bitmap, p);
        var below := Delete(hash, n.children[r], key, shift + BITS_PER_LEVEL);
        if !below.1 then (n, false)
        else if IsEmpty(below.0) then
          (Node(n.bitmap[p := false], n.entries, RemoveChild(n.children, r)), true)
        else (n.(children := n.children[r := below.0]), true)
  }

  lemma {:induction false} SelectAfterRemove(b: Bitmap, p: nat, i: nat)
    requires p < |b| && b[p] && i + 1 < Popcount(b)
    ensures Popcount(b[p := false]) == Popcount(b) - 1
    ensures Select(b[p := false], i) == if i < Rank(b, p) then Select(b, i) else Select(b, i + 1)
  {
    var b' := b[p := false];
    PopcountUpdate(b, p, false);
    var r := Rank(b, p);
    var q := Select(b, if i < r then i else i + 1);
    if q < p {
      RankMonotone(b, q, p);
    } else if p < q {
      RankMonotone(b, p, q);
    }
    RankUpdate(b, p, false, q);
    SelectUnique(b', i, q);
  }

  lemma {:induction false} RemoveChildAt<K, V>(ns: seq<Node<K, V>>, r: nat, key: K, k: K)
    requires r < |ns| && ChildAt(ns[..r], key).None? && ChildAt(ns[r + 1..], key).None?
    requires At(ns[r], k).Some? ==> k == key
    ensures ChildAt(RemoveChild(ns, r), k) == if k == key then None else ChildAt(ns, k)
  {
    ChildAtSplit(ns, r, k);
    ChildAtConcat(ns[..r], ns[r + 1..], k);
  }

  lemma {:induction false} RemoveChildrenOk<K(!new), V>(hash: K -> nat, n: Node<K, V>, p: nat, shift: nat, i: nat)
    requires Valid(hash, n, shift) && p < WIDTH && n.bitmap[p] && i + 1 < |n.children|
    ensures var r := Rank(n.bitmap, p); var b := n.bitmap[p := false];
            && r < |n.children| && Popcount(b) == |n.children| - 1
            && var c := RemoveChild(n.children, r)[i];
            Valid(hash, c, shift + BITS_PER_LEVEL) && ChildOk(hash, c, Select(b, i), shift)
  {
    var r := Rank(n.bitmap, p);
    RankBound(n.bitmap, p);
    SelectAfterRemove(n.bitmap, p, i);
    assert RemoveChild(n.children, r)[i] == n.children[if i < r then i else i + 1];
  }

  lemma {:induction false} RemoveChildCorrect<K(!new), V>(n: Node<K, V>, b: Bitmap, key: K, r: nat)
    requires r < |n.children| && EntryAt(n.entries, key).None? && ChildAt(n.children[..r], key).None? && ChildAt(n.children[r + 1..], key).None?
    requires forall k :: At(n.children[r], k).Some? ==> k == key
    ensures Updated(n, key, None, Node(b, n.entries, RemoveChild(n.children, r)))
    ensures forall k :: ChildAt(RemoveChild(n.children, r), k) == if k == key then None else ChildAt(n.children, k)
  {
    forall k ensures ChildAt(RemoveChild(n.children, r), k) == if k == key then None else ChildAt(n.children, k) {
      RemoveChildAt(n.children, r, key, k);
    }
  }

  /** A child in its place. */
  ghost predicate InPlace<K(!new), V>(hash: K -> nat, c: Node<K, V>, b: Bitmap, i: nat, shift: nat) {
    i < Popcount(b) && Valid(hash, c, shift + BITS_PER_LEVEL) && ChildOk(hash, c, Select(b, i), shift)
  }

  lemma {:induction false} RemoveChildrenInPlace<K(!new), V>(hash: K -> nat, n: Node<K, V>, p: nat, shift: nat, r: nat)
    requires Valid(hash, n, shift) && p < WIDTH && n.bitmap[p] && r == Rank(n.bitmap, p) < |n.children|
    ensures Popcount(n.bitmap[p := false]) == |n.children| - 1
    ensures forall i :: 0 <= i < |n.children| - 1 ==> InPlace(hash, RemoveChild(n.children, r)[i], n.bitmap[p := false], i, shift)
  {
    PopcountUpdate(n.bitmap, p, false);
    forall i | 0 <= i < |n.children| - 1 ensures InPlace(hash, RemoveChild(n.children, r)[i], n.bitmap[p := false], i, shift) {
      RemoveChildrenOk(hash, n, p, shift, i);
    }
  }

  lemma {:induction false} AllInPlace<K(!new), V>(hash: K -> nat, n: Node<K, V>, shift: nat)
    requires |n.bitmap| == WIDTH && |n.children| == Popcount(n.bitmap) && DistinctKeys(n.entries) && (shift >= MAX_HASH_SHIFT ==> n.children == [])
    requires forall i :: 0 <= i < |n.children| ==> InPlace(hash, n.children[i], n.bitmap, i, shift)
    requires forall k :: EntryAt(n.entries, k).Some? ==> ChildAt(n.children, k).None?
    ensures Valid(hash, n, shift)
  {
    forall i | 0 <= i < |n.children|
      ensures Valid(hash, n.children[i], shift + BITS_PER_LEVEL) && ChildOk(hash, n.children[i], Select(n.bitmap, i), shift)
    {
      assert InPlace(hash, n.children[i], n.bitmap, i, shift);
    }
  }

  lemma {:induction false} DeleteEntryCorrect<K(!new), V>(hash: K -> nat, n: Node<K, V>, key: K, shift: nat)
    requires Valid(hash, n, shift) && IndexOf(n.entries, key) < |n.entries|
    ensures var r := Delete(hash, n, key, shift);
            Valid(hash, r.0, shift) && Updated(n, key, None, r.0) && r.1 && At(n, key).Some?
  {
    var i := IndexOf(n.entries, key);
    var es := n.entries[..i] + n.entries[i + 1..];
    EntryAtIndex(n.entries, key);
    forall k ensures EntryAt(es, k) == if k == key then None else EntryAt(n.entries, k) {
      EntryRemove(n.entries, key, k);
    }
    DistinctRest(n.entries, i);
    FewerEntries(hash, n, es, key, shift);
  }

  lemma {:induction false} DistinctRest<K, V>(es: seq<Entry<K, V>>, i: nat)
    requires i < |es| && DistinctKeys(es)
    ensures DistinctKeys(es[..i] + es[i + 1..])
  {
  }

  lemma {:induction false} FewerEntries<K(!new), V>(hash: K -> nat, n: Node<K, V>, es: seq<Entry<K, V>>, key: K, shift: nat)
    requires Valid(hash, n, shift) && DistinctKeys(es) && EntryAt(n.entries, key).Some?
    requires forall k :: EntryAt(es, k) == if k == key then None else EntryAt(n.entries, k)
    ensures Valid(hash, n.(entries := es), shift) && Updated(n, key, None, n.(entries := es))
  {
    assert ChildAt(n.children, key).None?;
  }

  /** A child that is empty without the key held nothing else. */
  lemma {:induction false} OnlyThere<K(!new), V>(hash: K -> nat, c: Node<K, V>, key: K, shift: nat, s: (Node<K, V>, bool))
    requires Changed(hash, c, key, None, shift, s) && s.1 && IsEmpty(s.0)
    ensures At(c, key).Some? && forall k :: At(c, k).Some? ==> k == key
  {
    assert Shut(0);
    forall k ensures At(c, k).Some? ==> k == key {
      assert At(s.0, k).None?;
    }
  }

  /** A child that deletion empties goes. */
  lemma {:induction false} EmptiedChanged<K(!new), V>(hash: K -> nat, n: Node<K, V>, key: K, shift: nat, r: nat, s: (Node<K, V>, bool))
    requires Valid(hash, n, shift) && IndexOf(n.entries, key) == |n.entries| && n.bitmap[Digit(hash(key), shift)]
    requires r == Rank(n.bitmap, Digit(hash(key), shift)) < |n.children|
    requires Changed(hash, n.children[r], key, None, shift + BITS_PER_LEVEL, s) && s.1 && IsEmpty(s.0)
    ensures Changed(hash, n, key, None, shift, (Node(n.bitmap[Digit(hash(key), shift) := false], n.entries, RemoveChild(n.children, r)), true))
  {
    OnlyThere(hash, n.children[r], key, shift + BITS_PER_LEVEL, s);
    var p := Digit(hash(key), shift);
    KeyNotElsewhere(hash, n, shift, key);
    EntryAtIndex(n.entries, key);
    RemoveChildCorrect(n, n.bitmap[p := false], key, r);
    EmptiedValid(hash, n, key, shift, r);
    OnlyBelow(hash, n, key, shift);
  }

  lemma {:induction false} EmptiedValid<K(!new), V>(hash: K -> nat, n: Node<K, V>, key: K, shift: nat, r: nat)
    requires Valid(hash, n, shift) && n.bitmap[Digit(hash(key), shift)] && r == Rank(n.bitmap, Digit(hash(key), shift)) < |n.children|
    requires forall k :: ChildAt(RemoveChild(n.children, r), k) == if k == key then None else ChildAt(n.children, k)
    ensures Valid(hash, Node(n.bitmap[Digit(hash(key), shift) := false], n.entries, RemoveChild(n.children, r)), shift)
  {
    var p := Digit(hash(key), shift);
    RemoveChildrenInPlace(hash, n, p, shift, r);
    AllInPlace(hash, Node(n.bitmap[p := false], n.entries, RemoveChild(n.children, r)), shift);
  }

  lemma {:induction false} DeleteEntryChanged<K(!new), V>(hash: K -> nat, n: Node<K, V>, key: K, shift: nat)
    requires Valid(hash, n, shift) && IndexOf(n.entries, key) < |n.entries|
    ensures Changed(hash, n, key, None, shift, Delete(hash, n, key, shift))
  {
    DeleteEntryCorrect(hash, n, key, shift);
  }

  lemma {:induction false} NothingChanged<K(!new), V>(hash: K -> nat, n: Node<K, V>, key: K, shift: nat)
    requires Valid(hash, n, shift) && At(n, key).None?
    ensures Changed(hash, n, key, None, shift, (n, false))
  {
  }

  /** A key that is not among the entries is in the child of its digit or nowhere. */
  lemma {:induction false} OnlyBelow<K(!new), V>(hash: K -> nat, n: Node<K, V>, key: K, shift: nat)
    requires Valid(hash, n, shift) && IndexOf(n.entries, key) == |n.entries|
    ensures var p := Digit(hash(key), shift);
            if n.children != [] && n.bitmap[p] then Rank(n.bitmap, p) < |n.children| && At(n, key) == At(n.children[Rank(n.bitmap, p)], key)
            else At(n, key).None?
  {
    EntryAtIndex(n.entries, key);
    KeyNotElsewhere(hash, n, shift, key);
    var p := Digit(hash(key), shift);
    if n.children != [] && n.bitmap[p] {
      ChildAtSplit(n.children, Rank(n.bitmap, p), key);
    }
  }

  lemma {:induction false} DeleteChanged<K(!new), V>(hash: K -> nat, n: Node<K, V>, key: K, shift: nat)
    requires Valid(hash, n, shift)
    ensures Changed(hash, n, key, None, shift, Delete(hash, n, key, shift))
    decreases n
  {
    if IndexOf(n.entries, key) < |n.entries| {
      DeleteEntryChanged(hash, n, key, shift);
    } else {
      OnlyBelow(hash, n, key, shift);
      var p := Digit(hash(key), shift);
      if n.children == [] || !n.bitmap[p] {
        NothingChanged(hash, n, key, shift);
      } else {
        var r := Rank(n.bitmap, p);
        DeleteChanged(hash, n.children[r], key, shift + BITS_PER_LEVEL);
        DeleteBelow(hash, n, key, shift, r, Delete(hash, n.children[r], key, shift + BITS_PER_LEVEL));
      }
    }
  }

  lemma {:induction false} DeleteBelow<K(!new), V>(hash: K -> nat, n: Node<K, V>, key: K, shift: nat, r: nat, s: (Node<K, V>, bool))
    requires Valid(hash, n, shift) && IndexOf(n.entries, key) == |n.entries| && n.bitmap[Digit(hash(key), shift)]
    requires r == Rank(n.bitmap, Digit(hash(key), shift)) < |n.children|
    requires Valid(hash, n.children[r], shift + BITS_PER_LEVEL) && s == Delete(hash, n.children[r], key, shift + BITS_PER_LEVEL)
    requires Changed(hash, n.children[r], key, None, shift + BITS_PER_LEVEL, s)
    ensures Changed(hash, n, key, None, shift, Delete(hash, n, key, shift))
  {
    if !s.1 {
      OnlyBelow(hash, n, key, shift);
      NotThere(hash, n.children[r], key, shift + BITS_PER_LEVEL, s);
      NothingChanged(hash, n, key, shift);
    } else if IsEmpty(s.0) {
      EmptiedChanged(hash, n, key, shift, r, s);
    } else {
      BelowChanged(hash, n, key, None, shift, r, s);
    }
  }

  lemma {:induction false} NotThere<K(!new), V>(hash: K -> nat, n: Node<K, V>, key: K, shift: nat, s: (Node<K, V>, bool))
    requires Changed(hash, n, key, None, shift, s) && !s.1
    ensures At(n, key).None?
  {
    assert Shut(0);
  }

  /** Deletion takes one key away; the flag says whether it was there. */
  lemma {:induction false} DeleteIsRemoval<K(!new), V>(hash: K -> nat, n: Node<K, V>, key: K, shift: nat)
    requires Valid(hash, n, shift)
    ensures var r := Delete(hash, n, key, shift);
            && Valid(hash, r.0, shift) && Updated(n, key, None, r.0) && (r.1 <==> At(n, key).Some?)
            && (!r.1 ==> r.0 == n)
  {
    DeleteChanged(hash, n, key, shift);
    assert Shut(0);
  }

  // ----- iteration -----

  /** The entries in iteration order: the node's own, then those of its children. */
  function Items<K, V>(n: Node<K, V>): seq<Entry<K, V>> {
    n.entries + ChildItems(n.children)
  }

  function ChildItems<K, V>(ns: seq<Node<K, V>>): seq<Entry<K, V>> {
    if ns == [] then [] else Items(ns[0]) + ChildItems(ns[1..])
  }

  lemma {:induction false} EntryAtConcat<K, V>(a: seq<Entry<K, V>>, b: seq<Entry<K, V>>, k: K)
    ensures EntryAt(a + b, k) == if EntryAt(a, k).Some? then EntryAt(a, k) else EntryAt(b, k)
  {
    if a == [] {
      assert a + b == b;
    } else {
      assert (a + b)[1..] == a[1..] + b;
      EntryAtConcat(a[1..], b, k);
    }
  }

  /** The iteration order lists what lookup finds. */
  lemma {:induction false} ItemsAt<K, V>(n: Node<K, V>, k: K)
    ensures EntryAt(Items(n), k) == At(n, k)
    decreases n
  {
    ChildItemsAt(n.children, k);
    EntryAtConcat(n.entries, ChildItems(n.children), k);
  }

  lemma {:induction false} ChildItemsAt<K, V>(ns: seq<Node<K, V>>, k: K)
    ensures EntryAt(ChildItems(ns), k) == ChildAt(ns, k)
    decreases ns
  {
    if ns == [] {
    } else {
      ItemsAt(ns[0], k);
      ChildItemsAt(ns[1..], k);
      EntryAtConcat(Items(ns[0]), ChildItems(ns[1..]), k);
    }
  }

  lemma {:induction false} EntryListed<K, V>(es: seq<Entry<K, V>>, i: nat)
    requires i < |es|
    ensures EntryAt(es, es[i].key).Some?
  {
    if i > 0 && es[0].key != es[i].key {
      EntryListed(es[1..], i - 1);
    }
  }

  lemma {:induction false} DistinctConcat<K(!new), V>(a: seq<Entry<K, V>>, b: seq<Entry<K, V>>)
    requires DistinctKeys(a) && DistinctKeys(b)
    requires forall k :: EntryAt(a, k).Some? ==> EntryAt(b, k).None?
    ensures DistinctKeys(a + b)
  {
    var c := a + b;
    forall i, j | 0 <= i < j < |c| ensures c[i].key != c[j].key {
      if i < |a| <= j {
        EntryListed(a, i);
        EntryListed(b, j - |a|);
      }
    }
  }

  /** No key is listed twice. */
  lemma {:induction false} ItemsDistinct<K(!new), V>(hash: K -> nat, n: Node<K, V>, shift: nat)
    requires Valid(hash, n, shift)
    ensures DistinctKeys(Items(n))
    decreases n, 1
  {
    ChildItemsDistinct(hash, n, shift, |n.children|);
    assert n.children[|n.children| - |n.children|..] == n.children;
    forall k ensures EntryAt(ChildItems(n.children), k) == ChildAt(n.children, k) {
      ChildItemsAt(n.children, k);
    }
    DistinctConcat(n.entries, ChildItems(n.children));
  }

  /** A key below one child is not below a later one. */
  lemma {:induction false} NotInLater<K(!new), V>(hash: K -> nat, n: Node<K, V>, shift: nat, k: K, i: nat)
    requires Valid(hash, n, shift) && i < |n.children| && At(n.children[i], k).Some?
    ensures ChildAt(n.children[i + 1..], k).None?
  {
    var rest := n.children[i + 1..];
    KeyInOwnChild(hash, n, shift, k, i);
    forall j | 0 <= j < |rest| ensures At(rest[j], k).None? {
      assert rest[j] == n.children[i + 1 + j];
      OtherChild(hash, n, shift, k, i + 1 + j);
    }
    NoneHold(rest, k);
  }

  lemma {:induction false} ChildItemsDistinct<K(!new), V>(hash: K -> nat, n: Node<K, V>, shift: nat, m: nat)
    requires Valid(hash, n, shift) && m <= |n.children|
    ensures DistinctKeys(ChildItems(n.children[|n.children| - m..]))
    decreases n, 0, m
  {
    if m > 0 {
      var i := |n.children| - m;
      var c, rest := n.children[i], n.children[i + 1..];
      assert n.children[i..][1..] == rest;
      ItemsDistinct(hash, c, shift + BITS_PER_LEVEL);
      ChildItemsDistinct(hash, n, shift, m - 1);
      forall k | EntryAt(Items(c), k).Some? ensures EntryAt(ChildItems(rest), k).None? {
        ItemsAt(c, k);
        ChildItemsAt(rest, k);
        NotInLater(hash, n, shift, k, i);
      }
      DistinctConcat(Items(c), ChildItems(rest));
    }
  }

  /** The entries up to and including the first that the callback refuses. */
  function Visit<K, V>(es: seq<Entry<K, V>>, fn: (K, V) -> bool): (r: seq<Entry<K, V>>) {
    if es == [] then []
    else if fn(es[0].key, es[0].value) then [es[0]] + Visit(es[1..], fn)
    else [es[0]]
  }

  predicate Accepts<K, V>(es: seq<Entry<K, V>>, fn: (K, V) -> bool) {
    es == [] || (fn(es[0].key, es[0].value) && Accepts(es[1..], fn))
  }

  lemma {:induction false} VisitAll<K, V>(es: seq<Entry<K, V>>, fn: (K, V) -> bool)
    requires Accepts(es, fn)
    ensures Visit(es, fn) == es
  {
    if es == [] {
    } else {
      VisitAll(es[1..], fn);
      assert es == [es[0]] + es[1..];
    }
  }

  lemma {:induction false} AcceptsConcat<K, V>(a: seq<Entry<K, V>>, b: seq<Entry<K, V>>, fn: (K, V) -> bool)
    ensures Accepts(a + b, fn) <==> Accepts(a, fn) && Accepts(b, fn)
  {
    if a == [] {
      assert a + b == b;
    } else {
      AcceptsConcat(a[1..], b, fn);
      assert (a + b)[1..] == a[1..] + b;
    }
  }

  lemma {:induction false} VisitConcat<K, V>(a: seq<Entry<K, V>>, b: seq<Entry<K, V>>, fn: (K, V) -> bool)
    ensures Visit(a + b, fn) == if Accepts(a, fn) then a + Visit(b, fn) else Visit(a, fn)
  {
    if a == [] {
      assert a + b == b;
    } else if fn(a[0].key, a[0].value) {
      var rest := a[1..];
      VisitConcat(rest, b, fn);
      assert (a + b)[1..] == rest + b;
      assert Visit(a + b, fn) == [a[0]] + Visit(rest + b, fn);
      if Accepts(rest, fn) {
        assert [a[0]] + (rest + Visit(b, fn)) == a + Visit(b, fn);
      }
    }
  }

  /** One child of an iteration, and those behind it. */
  lemma {:induction false} VisitChild<K, V>(ns: seq<Node<K, V>>, i: nat, visited: seq<Entry<K, V>>, fn: (K, V) -> bool)
    requires i < |ns|
    ensures visited + Visit(ChildItems(ns[i..]), fn) ==
            if Accepts(Items(ns[i]), fn) then visited + Visit(Items(ns[i]), fn) + Visit(ChildItems(ns[i + 1..]), fn) else visited + Visit(Items(ns[i]), fn)
    ensures Accepts(ChildItems(ns[i..]), fn) <==> Accepts(Items(ns[i]), fn) && Accepts(ChildItems(ns[i + 1..]), fn)
  {
    assert ns[i..][1..] == ns[i + 1..];
    var a, b := Items(ns[i]), ChildItems(ns[i + 1..]);
    assert ChildItems(ns[i..]) == a + b;
    VisitConcat(a, b, fn);
    AcceptsConcat(a, b, fn);
    if Accepts(a, fn) {
      VisitAll(a, fn);
      assert visited + (a + Visit(b, fn)) == visited + a + Visit(b, fn);
    }
  }

  /** Calls `fn` on the entries until it returns false; `visited` are the calls. */
  method Iterate<K, V>(n: Node<K, V>, fn: (K, V) -> bool) returns (visited: seq<Entry<K, V>>, more: bool)
    ensures visited == Visit(Items(n), fn) && (more <==> Accepts(Items(n), fn))
    decreases n, 1
  {
    visited, more := IterateEntries(n.entries, fn);
    VisitConcat(n.entries, ChildItems(n.children), fn);
    AcceptsConcat(n.entries, ChildItems(n.children), fn);
    if !more {
      return;
    }
    VisitAll(n.entries, fn);
    var below;
    below, more := IterateChildren(n, fn);
    visited := visited + below;
  }

  method IterateChildren<K, V>(n: Node<K, V>, fn: (K, V) -> bool) returns (visited: seq<Entry<K, V>>, more: bool)
    ensures visited == Visit(ChildItems(n.children), fn) && (more <==> Accepts(ChildItems(n.children), fn))
    decreases n, 0
  {
    visited := [];
    for i := 0 to |n.children|
      invariant Visit(ChildItems(n.children), fn) == visited + Visit(ChildItems(n.children[i..]), fn)
      invariant Accepts(ChildItems(n.children), fn) <==> Accepts(ChildItems(n.children[i..]), fn)
    {
      var below, go := Iterate(n.children[i], fn);
      VisitChild(n.children, i, visited, fn);
      visited := visited + below;
      if !go {
        return visited, false;
      }
    }
    more := true;
  }

  method IterateEntries<K, V>(es: seq<Entry<K, V>>, fn: (K, V) -> bool) returns (visited: seq<Entry<K, V>>, more: bool)
    ensures visited == Visit(es, fn) && (more <==> Accepts(es, fn))
  {
    visited := [];
    var i := 0;
    while i < |es|
      invariant i <= |es| && visited == es[..i] && Accepts(es[..i], fn)
    {
      visited := visited + [es[i]];
      if !fn(es[i].key, es[i].value) {
        Refused(es, i, fn);
        return visited, false;
      }
      AcceptsConcat(es[..i], [es[i]], fn);
      assert es[..i + 1] == es[..i] + [es[i]];
      i := i + 1;
    }
    assert es[..i] == es;
    VisitAll(es, fn);
    more := true;
  }

  lemma {:induction false} Refused<K, V>(es: seq<Entry<K, V>>, i: nat, fn: (K, V) -> bool)
    requires i < |es| && Accepts(es[..i], fn) && !fn(es[i].key, es[i].value)
    ensures Visit(es, fn) == es[..i] + [es[i]] && !Accepts(es, fn)
  {
    assert es == es[..i] + es[i..];
    VisitConcat(es[..i], es[i..], fn);
    AcceptsConcat(es[..i], es[i..], fn);
  }

  // ----- the map -----

  datatype HashMap<K, V> = HashMap(root: Option<Node<K, V>>, size: int)

  function MapItems<K, V>(m: HashMap<K, V>): seq<Entry<K, V>> {
    if m.root.None? then [] else Items(m.root.value)
  }

  ghost predicate ValidMap<K(!new), V>(hash: K -> nat, m: HashMap<K, V>) {
    (m.root.Some? ==> Valid(hash, m.root.value, 0)) && m.size == |MapItems(m)|
  }

  /** The finite map that a trie stands for. */
  ghost function Model<K, V>(m: HashMap<K, V>): map<K, V> {
    ToMap(MapItems(m))
  }

  ghost function ToMap<K, V>(es: seq<Entry<K, V>>): map<K, V> {
    if es == [] then map[] else ToMap(es[1..])[es[0].key := es[0].value]
  }

  lemma {:induction false} ToMapAt<K, V>(es: seq<Entry<K, V>>, k: K)
    ensures EntryAt(es, k) == if k in ToMap(es) then Some(ToMap(es)[k]) else None
  {
    if es == [] {
    } else {
      ToMapAt(es[1..], k);
    }
  }

  /** Without repeated keys there are as many keys as entries. */
  lemma {:induction false} ToMapSize<K, V>(es: seq<Entry<K, V>>)
    requires DistinctKeys(es)
    ensures |ToMap(es)| == |es|
  {
    if es == [] {
    } else {
      ToMapSize(es[1..]);
      ToMapAt(es[1..], es[0].key);
      EntryAtIndex(es[1..], es[0].key);
      assert forall j :: 0 <= j < |es[1..]| ==> es[1..][j] == es[j + 1];
      var m := ToMap(es[1..]);
      assert ToMap(es).Keys == m.Keys + {es[0].key};
    }
  }

  function MapGet<K(==, !new), V>(hash: K -> nat, m: HashMap<K, V>, key: K): (r: Option<V>)
    requires ValidMap(hash, m)
  {
    if m.root.None? then None else Get(hash, m.root.value, key, 0)
  }

  function EmptyNode<K, V>(): Node<K, V> {
    Node(NoBits(), [], [])
  }

  lemma {:induction false} EmptyNodeValid<K(!new), V>(hash: K -> nat)
    ensures Valid(hash, EmptyNode<K, V>(), 0)
  {
    NoBitsClear();
    ChildlessValid(hash, EmptyNode<K, V>(), 0);
  }

  function MapSet<K(==, !new), V>(hash: K -> nat, m: HashMap<K, V>, key: K, value: V): (r: HashMap<K, V>)
    requires ValidMap(hash, m)
  {
    EmptyNodeValid<K, V>(hash);
    var r := Set(hash, if m.root.None? then EmptyNode() else m.root.value, key, value, 0);
    HashMap(Some(r.0), if r.1 then m.size + 1 else m.size)
  }

  function MapDelete<K(==, !new), V>(hash: K -> nat, m: HashMap<K, V>, key: K): (r: HashMap<K, V>)
    requires ValidMap(hash, m)
  {
    if m.root.None? then m
    else
      var r := Delete(hash, m.root.value, key, 0);
      if !r.1 then m else HashMap(Some(r.0), m.size - 1)
  }

  /** What a node stands for, as a finite map with as many keys as items. */
  lemma {:induction false} NodeModel<K(!new), V>(hash: K -> nat, n: Node<K, V>)
    requires Valid(hash, n, 0)
    ensures |ToMap(Items(n))| == |Items(n)|
    ensures forall k :: At(n, k) == if k in ToMap(Items(n)) then Some(ToMap(Items(n))[k]) else None
  {
    ItemsDistinct(hash, n, 0);
    ToMapSize(Items(n));
    forall k ensures At(n, k) == if k in ToMap(Items(n)) then Some(ToMap(Items(n))[k]) else None {
      ItemsAt(n, k);
      ToMapAt(Items(n), k);
    }
  }

  lemma {:induction false} GetIsLookup<K(!new), V>(hash: K -> nat, m: HashMap<K, V>, key: K)
    requires ValidMap(hash, m)
    ensures MapGet(hash, m, key) == if key in Model(m) then Some(Model(m)[key]) else None
  {
    if m.root.Some? {
      GetIsAt(hash, m.root.value, key, 0);
      NodeModel(hash, m.root.value);
    }
  }

  lemma {:induction false} UpdatedModel<K(!new), V>(hash: K -> nat, n: Node<K, V>, key: K, value: Option<V>, n': Node<K, V>)
    requires Valid(hash, n, 0) && Valid(hash, n', 0) && Updated(n, key, value, n')
    ensures ToMap(Items(n')) == if value.Some? then ToMap(Items(n))[key := value.value] else ToMap(Items(n)) - {key}
    ensures |Items(n')| == |Items(n)| - (if At(n, key).Some? then 1 else 0) + (if value.Some? then 1 else 0)
  {
    NodeModel(hash, n);
    NodeModel(hash, n');
    var m, m' := ToMap(Items(n)), ToMap(Items(n'));
    forall k ensures k in m' <==> if k == key then value.Some? else k in m {
      assert At(n', k) == if k == key then value else At(n, k);
    }
    forall k | k in m' ensures m'[k] == if k == key then value.value else m[k] {
      assert At(n', k) == if k == key then value else At(n, k);
    }
    KeyCount(m, m', key, value);
  }

  lemma {:induction false} KeyCount<K, V>(m: map<K, V>, m': map<K, V>, key: K, value: Option<V>)
    requires forall k :: k in m' <==> if k == key then value.Some? else k in m
    requires forall k :: k in m' ==> m'[k] == if k == key then value.value else m[k]
    ensures m' == if value.Some? then m[key := value.value] else m - {key}
    ensures |m'| == |m| - (if key in m then 1 else 0) + (if value.Some? then 1 else 0)
  {
    KeysAfter(m.Keys, m'.Keys, key, value.Some?);
    SetCount(m.Keys, m'.Keys, key, value.Some?);
    assert |m| == |m.Keys| && |m'| == |m'.Keys|;
    MapAfter(m, m', key, value);
  }

  lemma {:induction false} MapAfter<K, V>(m: map<K, V>, m': map<K, V>, key: K, value: Option<V>)
    requires m'.Keys == if value.Some? then m.Keys + {key} else m.Keys - {key}
    requires forall k :: k in m' ==> m'[k] == if k == key then value.value else m[k]
    ensures m' == if value.Some? then m[key := value.value] else m - {key}
  {
  }

  lemma {:induction false} KeysAfter<K>(s: set<K>, s': set<K>, key: K, there: bool)
    requires forall k :: k in s' <==> if k == key then there else k in s
    ensures s' == if there then s + {key} else s - {key}
  {
  }

  lemma {:induction false} SetCount<K>(s: set<K>, s': set<K>, key: K, there: bool)
    requires s' == if there then s + {key} else s - {key}
    ensures |s'| == |s| - (if key in s then 1 else 0) + (if there then 1 else 0)
  {
  }

  /** Set is map update and keeps the invariant, with the right size. */
  lemma {:induction false} MapSetIsUpdate<K(!new), V>(hash: K -> nat, m: HashMap<K, V>, key: K, value: V)
    requires ValidMap(hash, m)
    ensures var m' := MapSet(hash, m, key, value);
            ValidMap(hash, m') && Model(m') == Model(m)[key := value] && m'.size == |Model(m')|
  {
    EmptyNodeValid<K, V>(hash);
    var n := if m.root.None? then EmptyNode() else m.root.value;
    var n' := Set(hash, n, key, value, 0).0;
    assert Items(n) == MapItems(m);
    SetIsUpdate(hash, n, key, value, 0);
    UpdatedModel(hash, n, key, Some(value), n');
    NodeModel(hash, n');
  }

  /** Delete is map removal; a missing key gives the same map back. */
  lemma {:induction false} MapDeleteIsRemoval<K(!new), V>(hash: K -> nat, m: HashMap<K, V>, key: K)
    requires ValidMap(hash, m)
    ensures var m' := MapDelete(hash, m, key);
            && ValidMap(hash, m') && Model(m') == Model(m) - {key} && m'.size == |Model(m')|
            && (key !in Model(m) ==> m' == m)
  {
    if m.root.Some? {
      var n := m.root.value;
      var r := Delete(hash, n, key, 0);
      DeleteIsRemoval(hash, n, key, 0);
      NodeModel(hash, n);
      UpdatedModel(hash, n, key, None, r.0);
      NodeModel(hash, r.0);
    }
  }

  // ----- whole runs -----

  datatype Op<K, V> = Put(key: K, value: V) | Remove(key: K)

  ghost function RunMap<K, V>(ops: seq<Op<K, V>>): map<K, V> {
    if ops == [] then map[]
    else
      var before := RunMap(ops[..|ops| - 1]);
      match ops[|ops| - 1]
      case Put(k, v) => before[k := v]
      case Remove(k) => before - {k}
  }

  /** The version that the operations produce from the empty map. */
  ghost function Version<K(!new), V>(hash: K -> nat, ops: seq<Op<K, V>>): (m: HashMap<K, V>)
    ensures ValidMap(hash, m)
  {
    if ops == [] then HashMap(None, 0)
    else
      var before := Version(hash, ops[..|ops| - 1]);
      match ops[|ops| - 1]
      case Put(k, v) => MapSetIsUpdate(hash, before, k, v); MapSet(hash, before, k, v)
      case Remove(k) => MapDeleteIsRemoval(hash, before, k); MapDelete(hash, before, k)
  }

  /** Every version of a run equals the map of the operations up to it: lookups
      agree, the size is the number of keys, and iteration lists each entry exactly
      once. Versions are values, so later operations change none of this. */
  lemma {:induction false} RunIsMap<K(!new), V>(hash: K -> nat, ops: seq<Op<K, V>>)
    ensures var m := Version(hash, ops);
            && Model(m) == RunMap(ops) && m.size == |RunMap(ops)| && DistinctKeys(MapItems(m))
            && forall k :: MapGet(hash, m, k) == if k in RunMap(ops) then Some(RunMap(ops)[k]) else None
    decreases |ops|
  {
    var m := Version(hash, ops);
    if ops != [] {
      var before := Version(hash, ops[..|ops| - 1]);
      RunIsMap(hash, ops[..|ops| - 1]);
      match ops[|ops| - 1] {
        case Put(k, v) => MapSetIsUpdate(hash, before, k, v);
        case Remove(k) => MapDeleteIsRemoval(hash, before, k);
      }
    }
    if m.root.Some? {
      ItemsDistinct(hash, m.root.value, 0);
    }
    forall k ensures MapGet(hash, m, k) == if k in RunMap(ops) then Some(RunMap(ops)[k]) else None {
      GetIsLookup(hash, m, k);
    }
  }
}
