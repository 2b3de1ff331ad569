/**
 SSA construction as a whole (compiler/cfg/ssa.go), and what its result means:
 along every edge of the graph the version that leaves is the version that
 enters, or a phi receives it.
 */
module Ssa {
  import opened Dominance
  import opened PhiPlacement
  import opened SsaSpec
  import opened SsaRename

  ghost predicate FrontiersOk(g: Cfg, df: seq<seq<Point>>) {
    |df| == g.size && forall d, y :: 0 <= d < g.size ==> (y in df[d] <==> Frontier(g, d, y))
  }

  ghost predicate TreeOk(g: Cfg, children: seq<seq<Point>>) {
    && |children| == g.size && (forall d :: 0 <= d < g.size ==> Distinct(children[d]))
    && forall d, x :: 0 <= d < g.size ==> (x in children[d] <==> ImmediatelyDominates(g, d, x))
  }

  ghost predicate DefsOk(prog: Program, defs: map<Sym, seq<Point>>) {
    forall s: Sym, q: Point :: q in ListAt(defs, s) <==> q < prog.cfg.size && DefinedAt(prog, q, s)
  }

  ghost predicate PlacedOk(c: Ctx, df: seq<seq<Point>>, defs: map<Sym, seq<Point>>) {
    forall y, s :: s in ListAt(c.placed, y) <==> s in c.prog.names && NeedsPhi(c.prog, df, ListAt(defs, s), s, y)
  }

  predicate Whole(t: nat) {
    true
  }

  /** What SSA construction leaves behind. */
  ghost predicate Complete(c: Ctx, st: State, df: seq<seq<Point>>, defs: map<Sym, seq<Point>>) {
    forall t {:trigger Whole(t)} :: Whole(t) ==> Final(c, st, df, defs)
  }

  ghost predicate Final(c: Ctx, st: State, df: seq<seq<Point>>, defs: map<Sym, seq<Point>>) {
    && Sound(c) && Inv(c, st) && FrontiersOk(c.prog.cfg, df) && DefsOk(c.prog, defs) && PlacedOk(c, df, defs)
    && forall x :: x in st.leave <==> Reachable(c.prog.cfg, x)
  }

  // ----- what a point pushes, in terms of the program -----

  lemma {:induction false} PhiPushesOf(ps: PushList, syms: seq<Sym>, x: Point, n: nat, s: Sym)
    requires n <= |syms|
    ensures Of(PhiPushes(ps, syms, x, n), s) != [] <==> Of(ps, s) != [] || s in syms[..n]
  {
    if n > 0 {
      PhiPushesOf(ps, syms, x, n - 1, s);
      assert syms[..n] == syms[..n - 1] + [syms[n - 1]];
    }
  }

  lemma {:induction false} StartPushesOf(ps: PushList, starts: seq<Sym>, x: Point, n: nat, s: Sym)
    requires n <= |starts|
    ensures Of(StartPushes(ps, starts, x, n), s) != [] <==> Of(ps, s) != [] || s in starts[..n]
  {
    if n > 0 {
      StartPushesOf(ps, starts, x, n - 1, s);
      assert starts[..n] == starts[..n - 1] + [starts[n - 1]];
    }
  }

  lemma {:induction false} TargetPushesOf(ps: PushList, prog: Program, ts: seq<Target>, x: Point, n: nat, s: Sym)
    requires n <= |ts|
    ensures Of(TargetPushes(ps, prog, ts, x, n), s) != [] <==>
            Of(ps, s) != [] || (Renamed(prog, s) && exists i :: 0 <= i < n && TargetSymbol(ts[i]) == s)
  {
    if n > 0 {
      TargetPushesOf(ps, prog, ts, x, n - 1, s);
    }
  }

  /** A point makes a version of a symbol exactly when it has a phi for it or
      defines it. */
  lemma {:induction false} PushesMeaning(c: Ctx, x: Point, s: Sym)
    requires Sound(c)
    ensures Of(Pushes(c.prog, c.placed, c.starts, x), s) != [] <==> s in ListAt(c.placed, x) || DefinedAt(c.prog, x, s)
  {
    var l := ListAt(c.placed, x);
    var phis := PhiPushes(Nothing, l, x, |l|);
    PhiPushesOf(Nothing, l, x, |l|, s);
    assert l[..|l|] == l;
    StartPushesOf(phis, c.starts, x, |c.starts|, s);
    assert c.starts[..|c.starts|] == c.starts;
    assert ShutCtx(0);
    var before := if x == c.prog.cfg.entry then StartPushes(phis, c.starts, x, |c.starts|) else phis;
    if x in c.prog.info && c.prog.info[x].Assign? {
      TargetPushesOf(before, c.prog, c.prog.info[x].targets, x, |c.prog.info[x].targets|, s);
    }
  }

  /** A point that makes no version of a symbol passes its versions on. */
  lemma {:induction false} PassesOn(c: Ctx, st: State, df: seq<seq<Point>>, defs: map<Sym, seq<Point>>, x: Point, s: Sym)
    requires Complete(c, st, df, defs) && Reachable(c.prog.cfg, x)
    requires s !in ListAt(c.placed, x) && !DefinedAt(c.prog, x, s)
    ensures x in st.enter && x in st.leave && ListAt(st.leave[x], s) == ListAt(st.enter[x], s)
  {
    assert Whole(0);
    PushesMeaning(c, x, s);
    assert NodeOk(c, st, x);
    assert PushedAt(ListAt(st.enter[x], s), ListAt(st.leave[x], s), st.sites, Of(Pushes(c.prog, c.placed, c.starts, x), s), s);
  }

  // ----- the edge theorem -----

  /** No frontier point of a definition or phi of the symbol is out of its scope. */
  ghost predicate InScope(c: Ctx, df: seq<seq<Point>>, defs: map<Sym, seq<Point>>, s: Sym) {
    forall d, y :: (d in ListAt(defs, s) || s in ListAt(c.placed, d)) && d < |df| && y in df[d] ==> VisibleAt(c.prog, y, s)
  }

  /** Above an edge into a point without phi, nothing on the way down from the
      dominators of the target makes a version. */
  lemma {:induction false} NothingBetween(c: Ctx, st: State, df: seq<seq<Point>>, defs: map<Sym, seq<Point>>, p: Point, y: Point, x: Point, s: Sym)
    requires Complete(c, st, df, defs) && s in c.prog.names && InScope(c, df, defs, s)
    requires Edge(c.prog.cfg, p, y) && Dominates(c.prog.cfg, x, p) && !StrictlyDominates(c.prog.cfg, x, y) && s !in ListAt(c.placed, y)
    ensures s !in ListAt(c.placed, x) && !DefinedAt(c.prog, x, s)
  {
    assert Whole(0);
    assert ShutCtx(0);
    DominatorReachable(c.prog.cfg, x, p);
    InRange(c.prog.cfg, x);
    assert Frontier(c.prog.cfg, x, y) && y in df[x];
    if s in ListAt(c.placed, x) || DefinedAt(c.prog, x, s) {
      assert DefinedAt(c.prog, x, s) ==> x in ListAt(defs, s);
      var q :| PathTo(c.prog.cfg, q, p);
      PathExtend(c.prog.cfg, q, p, y);
      InRange(c.prog.cfg, y);
      NeedsStep(c.prog, df, ListAt(defs, s), s, x, y);
    }
  }

  /** From the source of the edge up to the immediate dominator `d` of its target,
      all points pass the same versions on. */
  lemma {:induction false} Climb(c: Ctx, st: State, df: seq<seq<Point>>, defs: map<Sym, seq<Point>>, p: Point, y: Point, d: Point, x: Point, s: Sym)
    requires Complete(c, st, df, defs) && s in c.prog.names && InScope(c, df, defs, s)
    requires Edge(c.prog.cfg, p, y) && Dominates(c.prog.cfg, x, p) && s !in ListAt(c.placed, y)
    requires ImmediatelyDominates(c.prog.cfg, d, y) && Dominates(c.prog.cfg, d, x)
    ensures x in st.leave && d in st.leave && ListAt(st.leave[x], s) == ListAt(st.leave[d], s)
    decreases Depth(c.prog.cfg, x)
  {
    assert Whole(0);
    var g := c.prog.cfg;
    DominatorReachable(g, d, y);
    DominatorReachable(g, x, p);
    if x != d {
      if StrictlyDominates(g, x, y) {
        Antisymmetric(g, x, d);
      }
      NothingBetween(c, st, df, defs, p, y, x, s);
      PassesOn(c, st, df, defs, x, s);
      var e := ParentOf(c, st, df, defs, x, d);
      Transitive(g, e, x, p);
      Climb(c, st, df, defs, p, y, d, e, s);
    }
  }

  /** The parent of `x` in the tree, below every strict dominator of `x`. */
  lemma {:induction false} ParentOf(c: Ctx, st: State, df: seq<seq<Point>>, defs: map<Sym, seq<Point>>, x: Point, d: Point) returns (e: Point)
    requires Complete(c, st, df, defs) && StrictlyDominates(c.prog.cfg, d, x)
    ensures StrictlyDominates(c.prog.cfg, e, x) && Dominates(c.prog.cfg, d, e) && Depth(c.prog.cfg, e) < Depth(c.prog.cfg, x)
    ensures x in st.enter && e in st.leave && st.enter[x] == st.leave[e]
  {
    assert Whole(0);
    assert ShutCtx(0);
    e := ImmediateDominatorFrom(c.prog.cfg, d, x);
    Deeper(c.prog.cfg, e, x);
    DominatorReachable(c.prog.cfg, e, x);
    InRange(c.prog.cfg, e);
    assert x in c.children[e];
  }

  /** An edge back to the entry without a phi: no version exists. */
  lemma {:induction false} ClimbToEntry(c: Ctx, st: State, df: seq<seq<Point>>, defs: map<Sym, seq<Point>>, p: Point, x: Point, s: Sym)
    requires Complete(c, st, df, defs) && s in c.prog.names && InScope(c, df, defs, s)
    requires Edge(c.prog.cfg, p, c.prog.cfg.entry) && Dominates(c.prog.cfg, x, p) && s !in ListAt(c.placed, c.prog.cfg.entry)
    ensures x in st.leave && ListAt(st.leave[x], s) == []
    decreases Depth(c.prog.cfg, x)
  {
    assert Whole(0);
    var g := c.prog.cfg;
    DominatorReachable(g, x, p);
    EntryHasNoDominator(g, x);
    NothingBetween(c, st, df, defs, p, g.entry, x, s);
    PassesOn(c, st, df, defs, x, s);
    if x != g.entry {
      EntryDominates(g, x);
      var e := ParentOf(c, st, df, defs, x, g.entry);
      Transitive(g, e, x, p);
      ClimbToEntry(c, st, df, defs, p, e, s);
    }
  }

  /** Along an edge into a point without a phi, what leaves is what enters. */
  lemma {:induction false} EdgeWithoutPhi(c: Ctx, st: State, df: seq<seq<Point>>, defs: map<Sym, seq<Point>>, p: Point, y: Point, s: Sym)
    requires Complete(c, st, df, defs) && s in c.prog.names && InScope(c, df, defs, s)
    requires Reachable(c.prog.cfg, p) && Edge(c.prog.cfg, p, y) && s !in ListAt(c.placed, y)
    ensures p in st.leave && y in st.enter && ListAt(st.leave[p], s) == ListAt(st.enter[y], s)
  {
    assert Whole(0);
    var g := c.prog.cfg;
    var q :| PathTo(g, q, p);
    PathExtend(g, q, p, y);
    Reflexive(g, p);
    if y == g.entry {
      ClimbToEntry(c, st, df, defs, p, p, s);
      assert NodeOk(c, st, y);
    } else {
      EntryDominates(g, y);
      var d := ParentOf(c, st, df, defs, y, g.entry);
      assert ShutCtx(0);
      var e := ImmediateDominatorExists(g, y);
      DominatorReachable(g, e, y);
      InRange(g, e);
      assert y in c.children[e];
      DominatesSource(g, e, p, y);
      Climb(c, st, df, defs, p, y, e, p, s);
    }
  }

  /** Along an edge into a phi: it has an operand from the source exactly when a
      version leaves there and the edge is not that of a point whose only successor
      is itself; each operand from the source is that version, once for each edge. */
  lemma {:induction false} EdgeIntoPhi(c: Ctx, st: State, df: seq<seq<Point>>, defs: map<Sym, seq<Point>>, p: Point, y: Point, i: nat)
    requires Complete(c, st, df, defs) && Reachable(c.prog.cfg, p) && Edge(c.prog.cfg, p, y) && i < |ListAt(c.placed, y)|
    ensures i < |ListAt(st.phis, y)| && ListAt(st.phis, y)[i].sym == ListAt(c.placed, y)[i] && p in st.leave
    ensures var f := ListAt(st.phis, y)[i];
            && ((exists o :: o in f.operands && o.from == p) <==> Top(st.leave[p], f.sym).Some? && (|c.prog.cfg.succs[p]| > 1 || y != p))
            && (forall o :: o in f.operands && o.from == p ==> Some(o.version) == Top(st.leave[p], f.sym) && multiset(f.operands)[o] == multiset(c.prog.cfg.succs[p])[y])
  {
    PhiReceives(c, st, df, defs, p, y, i);
    OperandsAlong(c.prog.cfg, st.leave, c.prog.cfg.size, p, y, ListAt(st.phis, y)[i]);
  }

  lemma {:induction false} PhiReceives(c: Ctx, st: State, df: seq<seq<Point>>, defs: map<Sym, seq<Point>>, p: Point, y: Point, i: nat)
    requires Complete(c, st, df, defs) && Reachable(c.prog.cfg, p) && Edge(c.prog.cfg, p, y) && i < |ListAt(c.placed, y)|
    ensures i < |ListAt(st.phis, y)| && ListAt(st.phis, y)[i].sym == ListAt(c.placed, y)[i] && p in st.leave && p < c.prog.cfg.size
    ensures OperandsOk(c.prog.cfg, st.leave, c.prog.cfg.size, multiset{}, y, ListAt(st.phis, y)[i])
  {
    assert Whole(0);
    assert ShutCtx(0);
    assert ShapeAt(ListAt(c.placed, y), ListAt(st.phis, y));
    InRange(c.prog.cfg, p);
  }

  /** The operands that a phi of `y` has from its predecessor `p`. */
  lemma {:induction false} OperandsAlong(g: Cfg, leave: map<Point, Stacks>, x: Point, p: Point, y: Point, f: Phi)
    requires OperandsOk(g, leave, x, multiset{}, y, f) && p in leave && p != x && Edge(g, p, y)
    ensures (exists o :: o in f.operands && o.from == p) <==> Top(leave[p], f.sym).Some? && (|g.succs[p]| > 1 || y != p)
    ensures forall o :: o in f.operands && o.from == p ==> Some(o.version) == Top(leave[p], f.sym) && multiset(f.operands)[o] == multiset(g.succs[p])[y]
  {
    assert y in multiset(g.succs[p]);
    forall o | o in f.operands && o.from == p
      ensures Some(o.version) == Top(leave[p], f.sym) && multiset(f.operands)[o] == multiset(g.succs[p])[y] && (|g.succs[p]| > 1 || y != p)
    {
      assert o in multiset(f.operands);
      assert multiset(f.operands)[o] == OperandCount(g, leave, x, multiset{}, y, f.sym, o);
    }
    if Top(leave[p], f.sym).Some? && (|g.succs[p]| > 1 || y != p) {
      var o := Operand(p, Top(leave[p], f.sym).value);
      assert multiset(f.operands)[o] == OperandCount(g, leave, x, multiset{}, y, f.sym, o) > 0;
      assert o in f.operands;
    }
  }

  /** Operands come from predecessors only. */
  lemma {:induction false} OperandsFromPredecessors(c: Ctx, st: State, df: seq<seq<Point>>, defs: map<Sym, seq<Point>>, y: Point, i: nat, o: Operand)
    requires Complete(c, st, df, defs) && i < |ListAt(st.phis, y)| && o in ListAt(st.phis, y)[i].operands
    ensures Reachable(c.prog.cfg, o.from) && Edge(c.prog.cfg, o.from, y)
  {
    assert Whole(0);
    var f := ListAt(st.phis, y)[i];
    assert OperandsOk(c.prog.cfg, st.leave, c.prog.cfg.size, multiset{}, y, f);
    assert o in multiset(f.operands);
    assert multiset(f.operands)[o] == OperandCount(c.prog.cfg, st.leave, c.prog.cfg.size, multiset{}, y, f.sym, o);
  }

  // ----- the list of phis -----

  datatype PhiNode = PhiNode(at: Point, phi: Phi)

  /** The first `n` phis of `y` that have operands, behind `nodes`. */
  function KeptHere(nodes: seq<PhiNode>, y: Point, fs: seq<Phi>, n: nat): seq<PhiNode>
    requires n <= |fs|
  {
    if n == 0 then nodes
    else
      var before := KeptHere(nodes, y, fs, n - 1);
      if |fs[n - 1].operands| > 0 then before + [PhiNode(y, fs[n - 1])] else before
  }

  /** Those of the first `n` points of the order. */
  function Kept(phis: map<Point, seq<Phi>>, order: seq<Point>, n: nat): seq<PhiNode>
    requires n <= |order|
  {
    if n == 0 then []
    else
      var fs := ListAt(phis, order[n - 1]);
      KeptHere(Kept(phis, order, n - 1), order[n - 1], fs, |fs|)
  }

  /** Phis without operands are dropped. */
  method CollectPhis(phis: map<Point, seq<Phi>>, order: seq<Point>) returns (nodes: seq<PhiNode>)
    ensures nodes == Kept(phis, order, |order|)
  {
    nodes := [];
    for n := 0 to |order|
      invariant nodes == Kept(phis, order, n)
    {
      var y := order[n];
      if y in phis {
        ghost var base := nodes;
        var fs := phis[y];
        for i := 0 to |fs|
          invariant nodes == KeptHere(base, y, fs, i)
        {
          if |fs[i].operands| > 0 {
            nodes := nodes + [PhiNode(y, fs[i])];
          }
        }
      }
    }
  }

  lemma {:induction false} KeptHereMembers(nodes: seq<PhiNode>, y: Point, fs: seq<Phi>, n: nat, node: PhiNode)
    requires n <= |fs|
    ensures node in KeptHere(nodes, y, fs, n) <==>
            node in nodes || (node.at == y && node.phi.operands != [] && exists i :: 0 <= i < n && fs[i] == node.phi)
  {
    if n > 0 {
      KeptHereMembers(nodes, y, fs, n - 1, node);
    }
  }

  lemma {:induction false} KeptMembers(phis: map<Point, seq<Phi>>, order: seq<Point>, n: nat, node: PhiNode)
    requires n <= |order|
    ensures node in Kept(phis, order, n) <==> node.at in order[..n] && node.phi.operands != [] && node.phi in ListAt(phis, node.at)
  {
    if n > 0 {
      KeptMembers(phis, order, n - 1, node);
      KeptHereMembers(Kept(phis, order, n - 1), order[n - 1], ListAt(phis, order[n - 1]), |ListAt(phis, order[n - 1])|, node);
      assert order[..n] == order[..n - 1] + [order[n - 1]];
    }
  }

  /** A version of the symbol leaves `p` over its edge to `y`. */
  ghost predicate Sends(c: Ctx, st: State, p: Point, y: Point, s: Sym) {
    && Reachable(c.prog.cfg, p) && Edge(c.prog.cfg, p, y) && p in st.leave && Top(st.leave[p], s).Some?
    && (|c.prog.cfg.succs[p]| > 1 || y != p)
  }

  /** The list holds exactly the phis of the points in the order that some predecessor
      sends a version to. */
  lemma {:induction false} PhiKept(c: Ctx, st: State, df: seq<seq<Point>>, defs: map<Sym, seq<Point>>, order: seq<Point>, node: PhiNode)
    requires Complete(c, st, df, defs)
    ensures node in Kept(st.phis, order, |order|) <==>
            node.at in order && node.phi in ListAt(st.phis, node.at) && exists p :: Sends(c, st, p, node.at, node.phi.sym)
  {
    KeptMembers(st.phis, order, |order|, node);
    assert order[..|order|] == order;
    if node.phi in ListAt(st.phis, node.at) {
      var i :| 0 <= i < |ListAt(st.phis, node.at)| && ListAt(st.phis, node.at)[i] == node.phi;
      if node.phi.operands != [] {
        OperandSent(c, st, df, defs, node.at, i, node.phi.operands[0]);
      }
      if p :| Sends(c, st, p, node.at, node.phi.sym) {
        SamePlaces(c, st, df, defs, node.at);
        EdgeIntoPhi(c, st, df, defs, p, node.at, i);
      }
    }
  }

  lemma {:induction false} SamePlaces(c: Ctx, st: State, df: seq<seq<Point>>, defs: map<Sym, seq<Point>>, y: Point)
    requires Complete(c, st, df, defs)
    ensures |ListAt(st.phis, y)| == |ListAt(c.placed, y)|
  {
    assert Whole(0);
    assert ShapeAt(ListAt(c.placed, y), ListAt(st.phis, y));
  }

  lemma {:induction false} OperandSent(c: Ctx, st: State, df: seq<seq<Point>>, defs: map<Sym, seq<Point>>, y: Point, i: nat, o: Operand)
    requires Complete(c, st, df, defs) && i < |ListAt(st.phis, y)| && o in ListAt(st.phis, y)[i].operands
    ensures Sends(c, st, o.from, y, ListAt(st.phis, y)[i].sym)
  {
    OperandsFromPredecessors(c, st, df, defs, y, i, o);
    SamePlaces(c, st, df, defs, y);
    EdgeIntoPhi(c, st, df, defs, o.from, y, i);
  }

  // ----- versions recorded for the points -----

  /** The version recorded for a symbol at a point. */
  function VersionAt(st: State, x: Point, s: Sym): Option<Version> {
    if x in st.visible && s in st.visible[x] then Some(st.visible[x][s]) else None
  }

  /** For a visible symbol the recorded version, whether shared, patched or built
      anew, is the one that leaves the point. */
  lemma {:induction false} RecordedIsTop(c: Ctx, st: State, df: seq<seq<Point>>, defs: map<Sym, seq<Point>>, x: Point, s: Sym)
    requires Complete(c, st, df, defs) && Reachable(c.prog.cfg, x) && VisibleAt(c.prog, x, s)
    ensures x in st.leave && VersionAt(st, x, s) == Top(st.leave[x], s)
  {
    assert Whole(0);
    assert NodeOk(c, st, x);
  }

  /** Where a symbol is visible at both ends of an edge and the target makes no
      version of it, the recorded versions are equal. */
  lemma {:induction false} RecordedAcrossEdge(c: Ctx, st: State, df: seq<seq<Point>>, defs: map<Sym, seq<Point>>, p: Point, y: Point, s: Sym)
    requires Complete(c, st, df, defs) && InScope(c, df, defs, s)
    requires Reachable(c.prog.cfg, p) && Edge(c.prog.cfg, p, y) && VisibleAt(c.prog, p, s) && VisibleAt(c.prog, y, s)
    requires s !in ListAt(c.placed, y) && !DefinedAt(c.prog, y, s)
    ensures VersionAt(st, p, s) == VersionAt(st, y, s)
  {
    var q :| PathTo(c.prog.cfg, q, p);
    PathExtend(c.prog.cfg, q, p, y);
    RecordedIsTop(c, st, df, defs, p, s);
    RecordedIsTop(c, st, df, defs, y, s);
    EdgeWithoutPhi(c, st, df, defs, p, y, s);
    PassesOn(c, st, df, defs, y, s);
  }

  // ----- one site for each version -----

  lemma {:induction false} OfHas(ps: PushList, s: Sym, i: nat)
    requires i < |Of(ps, s)|
    ensures Has(ps, Of(ps, s)[i])
  {
    if i < |Of(ps.before, s)| {
      OfHas(ps.before, s, i);
    }
  }

  lemma {:induction false} OfOnce(ps: PushList, s: Sym, i: nat, j: nat)
    requires OnceEach(ps) && i < j < |Of(ps, s)|
    ensures Of(ps, s)[i] != Of(ps, s)[j]
  {
    if j < |Of(ps.before, s)| {
      OfOnce(ps.before, s, i, j);
    } else {
      OfHas(ps.before, s, i);
    }
  }

  /** The `j`-th version that `x` makes of `s`. */
  ghost function Made(st: State, x: Point, s: Sym, j: nat): Version
    requires x in st.enter && x in st.leave && |ListAt(st.enter[x], s)| + j < |ListAt(st.leave[x], s)|
  {
    ListAt(st.leave[x], s)[|ListAt(st.enter[x], s)| + j]
  }

  ghost predicate Makes(st: State, x: Point, s: Sym, j: nat) {
    x in st.enter && x in st.leave && |ListAt(st.enter[x], s)| + j < |ListAt(st.leave[x], s)|
  }

  lemma {:induction false} NodePushed(c: Ctx, st: State, df: seq<seq<Point>>, defs: map<Sym, seq<Point>>, x: Point)
    requires Complete(c, st, df, defs) && Reachable(c.prog.cfg, x)
    ensures x in st.enter && x in st.leave && Pushed(st.enter[x], st.leave[x], st.sites, Pushes(c.prog, c.placed, c.starts, x))
  {
    assert Whole(0);
    assert NodeOk(c, st, x);
  }

  lemma {:induction false} MadeThere(c: Ctx, st: State, df: seq<seq<Point>>, defs: map<Sym, seq<Point>>, x: Point, s: Sym, j: nat)
    requires Complete(c, st, df, defs) && Reachable(c.prog.cfg, x) && Makes(st, x, s, j)
    ensures var sites := Of(Pushes(c.prog, c.placed, c.starts, x), s);
            j < |sites| && MadeAt(st.sites, Made(st, x, s, j), sites[j], s)
  {
    NodePushed(c, st, df, defs, x);
    assert PushedAt(ListAt(st.enter[x], s), ListAt(st.leave[x], s), st.sites, Of(Pushes(c.prog, c.placed, c.starts, x), s), s);
  }

  /** Every version is made once: by one phi, one symbol declared before the code, one
      assignment target or one global function, at one point. */
  lemma {:induction false} OneSite(c: Ctx, st: State, df: seq<seq<Point>>, defs: map<Sym, seq<Point>>, x: Point, y: Point, s: Sym, r: Sym, i: nat, j: nat)
    requires Complete(c, st, df, defs) && Reachable(c.prog.cfg, x) && Reachable(c.prog.cfg, y)
    requires Makes(st, x, s, i) && Makes(st, y, r, j) && Made(st, x, s, i) == Made(st, y, r, j)
    ensures x == y && s == r && i == j
  {
    MadeThere(c, st, df, defs, x, s, i);
    MadeThere(c, st, df, defs, y, r, j);
    var px, py := Pushes(c.prog, c.placed, c.starts, x), Pushes(c.prog, c.placed, c.starts, y);
    assert Sound(c) by {
      assert Whole(0);
    }
    PushesOnce(c, x);
    PushesOnce(c, y);
    OfHas(px, s, i);
    OfHas(py, r, j);
    if i < j {
      OfOnce(px, s, i, j);
    } else if j < i {
      OfOnce(px, s, j, i);
    }
  }

  /** What the result records of them: the versions of phis and of assignment targets
      are all different. */
  lemma {:induction false} RecordedSites(c: Ctx, st: State, df: seq<seq<Point>>, defs: map<Sym, seq<Point>>, x: Point, y: Point, i: nat, j: nat)
    requires Complete(c, st, df, defs) && Reachable(c.prog.cfg, x) && Reachable(c.prog.cfg, y)
    ensures i < |ListAt(st.phis, x)| && j < |ListAt(st.phis, y)| && ListAt(st.phis, x)[i].target == ListAt(st.phis, y)[j].target ==> x == y && i == j
    ensures i < |ListAt(st.phis, x)| && y in c.prog.info && c.prog.info[y].Assign? && j < |ListAt(st.targets, y)| ==>
              Some(ListAt(st.phis, x)[i].target) != ListAt(st.targets, y)[j]
    ensures x in c.prog.info && c.prog.info[x].Assign? && y in c.prog.info && c.prog.info[y].Assign? &&
            i < |ListAt(st.targets, x)| && j < |ListAt(st.targets, y)| && ListAt(st.targets, x)[i].Some? && ListAt(st.targets, x)[i] == ListAt(st.targets, y)[j] ==>
              x == y && i == j
  {
    if i < |ListAt(st.phis, x)| {
      PhiMade(c, st, df, defs, x, i);
    }
    if j < |ListAt(st.phis, y)| {
      PhiMade(c, st, df, defs, y, j);
    }
    if x in c.prog.info && c.prog.info[x].Assign? && i < |ListAt(st.targets, x)| {
      TargetMade(c, st, df, defs, x, i);
    }
    if y in c.prog.info && c.prog.info[y].Assign? && j < |ListAt(st.targets, y)| {
      TargetMade(c, st, df, defs, y, j);
    }
  }

  lemma {:induction false} PhiMade(c: Ctx, st: State, df: seq<seq<Point>>, defs: map<Sym, seq<Point>>, x: Point, i: nat)
    requires Complete(c, st, df, defs) && Reachable(c.prog.cfg, x) && i < |ListAt(st.phis, x)|
    ensures MadeAt(st.sites, ListAt(st.phis, x)[i].target, PhiSite(x, i), ListAt(st.phis, x)[i].sym)
  {
    assert Whole(0);
    assert NodeOk(c, st, x);
  }

  lemma {:induction false} TargetMade(c: Ctx, st: State, df: seq<seq<Point>>, defs: map<Sym, seq<Point>>, x: Point, i: nat)
    requires Complete(c, st, df, defs) && Reachable(c.prog.cfg, x)
    requires x in c.prog.info && c.prog.info[x].Assign? && i < |ListAt(st.targets, x)|
    ensures i < |c.prog.info[x].targets| && TargetOk(c, st.sites, c.prog.info[x].targets[i], ListAt(st.targets, x)[i], x, i)
  {
    assert Whole(0);
    assert NodeOk(c, st, x);
  }

  ghost predicate TargetsDiffer(nodes: seq<PhiNode>) {
    forall i, j :: 0 <= i < j < |nodes| ==> nodes[i].phi.target != nodes[j].phi.target
  }

  /** Every node lies at a point of `done` or is one of the first `n` phis of `y`. */
  ghost predicate NodesFrom(phis: map<Point, seq<Phi>>, done: seq<Point>, y: Point, n: nat, nodes: seq<PhiNode>)
    requires n <= |ListAt(phis, y)|
  {
    forall k :: 0 <= k < |nodes| ==> NodeFrom(phis, done, nodes[k]) || (nodes[k].at == y && nodes[k].phi in ListAt(phis, y)[..n])
  }

  ghost predicate NodeFrom(phis: map<Point, seq<Phi>>, done: seq<Point>, node: PhiNode) {
    node.at in done && node.phi in ListAt(phis, node.at)
  }

  lemma {:induction false} KeptHereOnce(c: Ctx, st: State, df: seq<seq<Point>>, defs: map<Sym, seq<Point>>, nodes: seq<PhiNode>, done: seq<Point>, y: Point, n: nat)
    requires Complete(c, st, df, defs) && (forall x :: x in done ==> Reachable(c.prog.cfg, x)) && Reachable(c.prog.cfg, y) && y !in done
    requires n <= |ListAt(st.phis, y)| && TargetsDiffer(nodes) && NodesFrom(st.phis, done, y, 0, nodes)
    ensures var r := KeptHere(nodes, y, ListAt(st.phis, y), n); TargetsDiffer(r) && NodesFrom(st.phis, done, y, n, r)
  {
    if n > 0 {
      KeptHereOnce(c, st, df, defs, nodes, done, y, n - 1);
      var r := KeptHere(nodes, y, ListAt(st.phis, y), n - 1);
      forall k | 0 <= k < |r| ensures r[k].phi.target != ListAt(st.phis, y)[n - 1].target {
        var i :| 0 <= i < |ListAt(st.phis, r[k].at)| && ListAt(st.phis, r[k].at)[i] == r[k].phi && (r[k].at in done || i < n - 1);
        RecordedSites(c, st, df, defs, r[k].at, y, i, n - 1);
      }
      assert ListAt(st.phis, y)[..n] == ListAt(st.phis, y)[..n - 1] + [ListAt(st.phis, y)[n - 1]];
    }
  }

  /** No phi stands in the list twice: all its targets are different. */
  lemma {:induction false} KeptOnce(c: Ctx, st: State, df: seq<seq<Point>>, defs: map<Sym, seq<Point>>, order: seq<Point>, n: nat)
    requires Complete(c, st, df, defs) && n <= |order| && Distinct(order) && forall x :: x in order ==> Reachable(c.prog.cfg, x)
    ensures TargetsDiffer(Kept(st.phis, order, n)) && NodesFrom(st.phis, order[..n], c.prog.cfg.entry, 0, Kept(st.phis, order, n))
  {
    if n > 0 {
      KeptOnce(c, st, df, defs, order, n - 1);
      var y := order[n - 1];
      assert y !in order[..n - 1];
      assert order[..n] == order[..n - 1] + [y];
      KeptHereOnce(c, st, df, defs, Kept(st.phis, order, n - 1), order[..n - 1], y, |ListAt(st.phis, y)|);
    }
  }

  // ----- the whole construction -----

  method SeededSymbols(prog: Program, syms: seq<Sym>) returns (starts: seq<Sym>)
    requires Distinct(syms)
    ensures Distinct(starts) && forall s :: s in starts <==> s in syms && s in prog.declaredAtStart
  {
    starts := [];
    for i := 0 to |syms|
      invariant Distinct(starts) && forall s :: s in starts <==> s in syms[..i] && s in prog.declaredAtStart
    {
      assert syms[..i + 1] == syms[..i] + [syms[i]];
      assert syms[i] !in syms[..i];
      if syms[i] in prog.declaredAtStart {
        starts := starts + [syms[i]];
      }
    }
    assert syms[..|syms|] == syms;
  }

  /** SSA construction, given the dominator tree, the dominance frontiers, the
      sorted symbols, the version counters of earlier constructions and the points in
      reverse postorder. */
  method ComputeVersions(prog: Program, syms: seq<Sym>, df: seq<seq<Point>>, children: seq<seq<Point>>, ids: map<Sym, nat>, order: seq<Point>)
    returns (r: Renamer, nodes: seq<PhiNode>, ghost defs: map<Sym, seq<Point>>)
    requires WellFormed(prog.cfg) && FrontiersOk(prog.cfg, df) && TreeOk(prog.cfg, children)
    requires Distinct(syms) && forall s :: s in syms <==> s in prog.names
    ensures fresh(r) && r.c.prog == prog && (prog.names != map[] ==> Complete(r.c, r.View(), df, defs) && nodes == Kept(r.phis, order, |order|))
  {
    var c;
    c, defs := Prepare(prog, syms, df, children);
    r := new Renamer(c, ids);
    nodes := [];
    if prog.names == map[] {
      return;
    }
    assert PathTo(prog.cfg, [prog.cfg.entry], prog.cfg.entry);
    r.Rename(prog.cfg.entry, None, None);
    Finished(c, r.View());
    assert ShutInv(0);
    nodes := CollectPhis(r.phis, order);
  }

  /** Definition points and phis, before renaming. */
  method Prepare(prog: Program, syms: seq<Sym>, df: seq<seq<Point>>, children: seq<seq<Point>>)
    returns (c: Ctx, ghost defs: map<Sym, seq<Point>>)
    requires WellFormed(prog.cfg) && TreeOk(prog.cfg, children)
    requires Distinct(syms) && forall s :: s in syms <==> s in prog.names
    ensures c.prog == prog && Sound(c) && DefsOk(prog, defs) && PlacedOk(c, df, defs)
  {
    var points := CollectDefPoints(prog);
    defs := points;
    assert forall i :: 0 <= i < |syms| ==> syms[i] in syms;
    var placed := PlacePhis(prog, points, df, syms);
    var starts := SeededSymbols(prog, syms);
    c := Ctx(prog, placed, children, starts);
    forall y, s ensures s in ListAt(placed, y) <==> s in prog.names && NeedsPhi(prog, df, ListAt(defs, s), s, y) {
      PhiSymsMembers(prog, df, defs, syms, y);
    }
  }

  lemma {:induction false} Finished(c: Ctx, st: State)
    requires forall x :: x in st.leave <==> Dominates(c.prog.cfg, c.prog.cfg.entry, x)
    ensures forall x :: x in st.leave <==> Reachable(c.prog.cfg, x)
  {
    forall x | Reachable(c.prog.cfg, x) ensures x in st.leave {
      EntryDominates(c.prog.cfg, x);
    }
  }
}
