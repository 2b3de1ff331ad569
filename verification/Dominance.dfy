/**
 Dominance in a control-flow graph: the facts about the dominator tree and the
 dominance frontier on which SSA construction rests.
 */
module Dominance {

  type Point = nat

  /** A graph over the points below `size`; `succs` lists successors in order. */
  datatype Cfg = Cfg(size: nat, entry: Point, succs: seq<seq<Point>>)

  ghost predicate WellFormed(g: Cfg) {
    && g.entry < g.size == |g.succs|
    && forall x, i :: 0 <= x < g.size && 0 <= i < |g.succs[x]| ==> g.succs[x][i] < g.size
  }

  ghost predicate Edge(g: Cfg, x: Point, y: Point) {
    x < |g.succs| && y in g.succs[x]
  }

  /** A path from the entry to `x`. */
  ghost predicate PathTo(g: Cfg, p: seq<Point>, x: Point) {
    && |p| > 0 && p[0] == g.entry && p[|p| - 1] == x
    && forall i :: 0 < i < |p| ==> Edge(g, p[i - 1], p[i])
  }

  ghost predicate Reachable(g: Cfg, x: Point) {
    exists p :: PathTo(g, p, x)
  }

  /** `x` can be reached, and only through `d`. */
  ghost predicate Dominates(g: Cfg, d: Point, x: Point) {
    Reachable(g, x) && forall p :: PathTo(g, p, x) ==> d in p
  }

  ghost predicate StrictlyDominates(g: Cfg, d: Point, x: Point) {
    d != x && Dominates(g, d, x)
  }

  /** The strict dominator of `x` that all its strict dominators dominate. */
  ghost predicate ImmediatelyDominates(g: Cfg, d: Point, x: Point) {
    StrictlyDominates(g, d, x) && forall e :: StrictlyDominates(g, e, x) ==> Dominates(g, e, d)
  }

  /** `y` is a first point outside what `d` strictly dominates. */
  ghost predicate Frontier(g: Cfg, d: Point, y: Point) {
    !StrictlyDominates(g, d, y) && exists p :: Edge(g, p, y) && Dominates(g, d, p)
  }

  // ----- paths -----

  lemma {:induction false} PathPrefix(g: Cfg, p: seq<Point>, x: Point, i: nat)
    requires PathTo(g, p, x) && i < |p|
    ensures PathTo(g, p[..i + 1], p[i]) && Reachable(g, p[i])
  {
  }

  lemma {:induction false} PathExtend(g: Cfg, p: seq<Point>, x: Point, y: Point)
    requires PathTo(g, p, x) && Edge(g, x, y)
    ensures PathTo(g, p + [y], y) && Reachable(g, y)
  {
  }

  /** A path to a point of another path goes on along that other path. */
  lemma {:induction false} PathSplice(g: Cfg, p: seq<Point>, x: Point, i: nat, q: seq<Point>)
    requires PathTo(g, p, x) && i < |p| && PathTo(g, q, p[i])
    ensures PathTo(g, q + p[i + 1..], x)
  {
    var r := q + p[i + 1..];
    forall j | 0 < j < |r| ensures Edge(g, r[j - 1], r[j]) {
      if j >= |q| {
        assert r[j] == p[i + 1 + j - |q|] && r[j - 1] == p[i + j - |q|];
      }
    }
  }

  lemma {:induction false} InRange(g: Cfg, x: Point)
    requires WellFormed(g) && Reachable(g, x)
    ensures x < g.size
  {
    var p :| PathTo(g, p, x);
    if |p| > 1 {
      assert Edge(g, p[|p| - 2], p[|p| - 1]);
    }
  }

  /** The last occurrence of `x` on `p`. */
  ghost function Last(p: seq<Point>, x: Point): (i: nat)
    requires x in p
    ensures i < |p| && p[i] == x && x !in p[i + 1..]
  {
    if p[|p| - 1] == x then |p| - 1
    else
      var q := p[..|p| - 1];
      assert p == q + [p[|p| - 1]];
      assert p[Last(q, x) + 1..] == q[Last(q, x) + 1..] + [p[|p| - 1]];
      Last(q, x)
  }

  // ----- dominance is a tree order -----

  lemma {:induction false} Reflexive(g: Cfg, x: Point)
    requires Reachable(g, x)
    ensures Dominates(g, x, x)
  {
  }

  lemma {:induction false} DominatorReachable(g: Cfg, d: Point, x: Point)
    requires Dominates(g, d, x)
    ensures Reachable(g, d)
  {
    var p :| PathTo(g, p, x);
    var i :| 0 <= i < |p| && p[i] == d;
    PathPrefix(g, p, x, i);
  }

  lemma {:induction false} Transitive(g: Cfg, a: Point, b: Point, c: Point)
    requires Dominates(g, a, b) && Dominates(g, b, c)
    ensures Dominates(g, a, c)
  {
    forall p | PathTo(g, p, c) ensures a in p {
      var i :| 0 <= i < |p| && p[i] == b;
      PathPrefix(g, p, c, i);
      assert a in p[..i + 1];
    }
  }

  /** No path can visit two points each only through the other. */
  lemma {:induction false} AlongPath(g: Cfg, d: Point, x: Point, p: seq<Point>)
    requires Dominates(g, d, x) && Dominates(g, x, d) && PathTo(g, p, x)
    ensures d == x
    decreases |p|
  {
    var i :| 0 <= i < |p| && p[i] == d;
    if i < |p| - 1 {
      PathPrefix(g, p, x, i);
      AlongPath(g, x, d, p[..i + 1]);
    }
  }

  lemma {:induction false} Antisymmetric(g: Cfg, d: Point, x: Point)
    requires Dominates(g, d, x) && Dominates(g, x, d)
    ensures d == x
  {
    var p :| PathTo(g, p, x);
    AlongPath(g, d, x, p);
  }

  /** If `a` comes last before `b` on a path to `x`, a path to `b` without `a` would
      give one to `x` without `a`. */
  lemma {:induction false} LaterIsBelow(g: Cfg, a: Point, b: Point, x: Point, p: seq<Point>)
    requires Dominates(g, a, x) && Dominates(g, b, x) && PathTo(g, p, x) && Last(p, a) <= Last(p, b)
    ensures Dominates(g, a, b)
  {
    DominatorReachable(g, b, x);
    var i, j := Last(p, a), Last(p, b);
    forall q | PathTo(g, q, b) ensures a in q {
      PathSplice(g, p, x, j, q);
      assert a in q + p[j + 1..];
      assert p[j + 1..] == p[i + 1..][j - i..];
    }
  }

  /** Dominators of one point are comparable. */
  lemma {:induction false} Comparable(g: Cfg, a: Point, b: Point, x: Point)
    requires Dominates(g, a, x) && Dominates(g, b, x)
    ensures Dominates(g, a, b) || Dominates(g, b, a)
  {
    var p :| PathTo(g, p, x);
    if Last(p, a) <= Last(p, b) {
      LaterIsBelow(g, a, b, x, p);
    } else {
      LaterIsBelow(g, b, a, x, p);
    }
  }

  // ----- depth -----

  ghost function Dominators(g: Cfg, x: Point): set<Point> {
    set d: Point | 0 <= d < g.size && Dominates(g, d, x)
  }

  ghost function Depth(g: Cfg, x: Point): nat {
    |Dominators(g, x)|
  }

  lemma {:induction false} Deeper(g: Cfg, d: Point, x: Point)
    requires WellFormed(g) && StrictlyDominates(g, d, x)
    ensures Depth(g, d) < Depth(g, x)
  {
    InRange(g, x);
    Reflexive(g, x);
    assert x in Dominators(g, x);
    if Dominates(g, x, d) {
      Antisymmetric(g, d, x);
    }
    forall e | e in Dominators(g, d) ensures e in Dominators(g, x) {
      Transitive(g, e, d, x);
    }
    SubsetSmaller(Dominators(g, d), Dominators(g, x), x);
  }

  lemma {:induction false} SubsetSmaller(a: set<Point>, b: set<Point>, x: Point)
    requires a <= b && x in b && x !in a
    ensures |a| < |b|
  {
    assert b == a + (b - a) && x in b - a;
  }

  lemma {:induction false} Below(n: nat, s: set<Point>)
    requires forall x :: x in s ==> x < n
    ensures |s| <= n
  {
    if n == 0 {
      assert s == {};
    } else {
      Below(n - 1, s - {n - 1});
    }
  }

  lemma {:induction false} DepthBounded(g: Cfg, x: Point)
    ensures Depth(g, x) <= g.size
  {
    Below(g.size, Dominators(g, x));
  }

  // ----- the immediate dominator -----

  lemma {:induction false} EntryDominates(g: Cfg, x: Point)
    requires Reachable(g, x)
    ensures Dominates(g, g.entry, x)
  {
  }

  /** Every reachable point but the entry has an immediate dominator, below any
      given strict dominator. */
  lemma {:induction false} ImmediateDominatorFrom(g: Cfg, d: Point, x: Point) returns (r: Point)
    requires WellFormed(g) && StrictlyDominates(g, d, x)
    ensures ImmediatelyDominates(g, r, x)
    decreases g.size - Depth(g, d)
  {
    if ImmediatelyDominates(g, d, x) {
      r := d;
    } else {
      var e :| StrictlyDominates(g, e, x) && !Dominates(g, e, d);
      Comparable(g, e, d, x);
      DominatorReachable(g, d, x);
      Reflexive(g, d);
      Deeper(g, d, e);
      DepthBounded(g, e);
      r := ImmediateDominatorFrom(g, e, x);
    }
  }

  lemma {:induction false} ImmediateDominatorExists(g: Cfg, x: Point) returns (r: Point)
    requires WellFormed(g) && Reachable(g, x) && x != g.entry
    ensures ImmediatelyDominates(g, r, x)
  {
    EntryDominates(g, x);
    r := ImmediateDominatorFrom(g, g.entry, x);
  }

  lemma {:induction false} ImmediateDominatorUnique(g: Cfg, d: Point, e: Point, x: Point)
    requires ImmediatelyDominates(g, d, x) && ImmediatelyDominates(g, e, x)
    ensures d == e
  {
    Antisymmetric(g, d, e);
  }

  lemma {:induction false} EntryHasNoDominator(g: Cfg, d: Point)
    ensures !StrictlyDominates(g, d, g.entry)
  {
    assert PathTo(g, [g.entry], g.entry);
  }

  /** Subtrees of two children of one point have no point in common. */
  lemma {:induction false} SiblingsDisjoint(g: Cfg, d: Point, a: Point, b: Point, x: Point)
    requires ImmediatelyDominates(g, d, a) && ImmediatelyDominates(g, d, b)
    requires Dominates(g, a, x) && Dominates(g, b, x)
    ensures a == b
  {
    Comparable(g, a, b, x);
    if a != b {
      var c := if Dominates(g, a, b) then a else b;
      assert Dominates(g, c, d);
      Antisymmetric(g, c, d);
    }
  }

  /** Below `d`, every point but `d` lies in the subtree of one of its children. */
  lemma {:induction false} InSomeSubtree(g: Cfg, d: Point, x: Point) returns (c: Point)
    requires WellFormed(g) && StrictlyDominates(g, d, x)
    ensures ImmediatelyDominates(g, d, c) && Dominates(g, c, x)
    decreases Depth(g, x)
  {
    var e := ImmediateDominatorFrom(g, d, x);
    if e == d {
      Reflexive(g, x);
      c := x;
    } else {
      Deeper(g, e, x);
      c := InSomeSubtree(g, d, e);
      Transitive(g, c, e, x);
    }
  }

  // ----- edges and frontiers -----

  /** What strictly dominates the target of an edge dominates its source. */
  lemma {:induction false} DominatesSource(g: Cfg, d: Point, x: Point, y: Point)
    requires StrictlyDominates(g, d, y) && Edge(g, x, y) && Reachable(g, x)
    ensures Dominates(g, d, x)
  {
    forall p | PathTo(g, p, x) ensures d in p {
      PathExtend(g, p, x, y);
    }
  }
}
