/**
 Renaming to SSA form by a walk over the dominator tree (compiler/cfg/ssa.go),
 with the version stacks, shared version maps and phi entries of the source.
 */
module SsaRename {
  import opened Dominance
  import opened PhiPlacement
  import opened SsaSpec

  /** What the walk reads: the program, the placed phis, the dominator tree and the
      symbols declared before the code. */
  datatype Ctx = Ctx(prog: Program, placed: Sites, children: seq<seq<Point>>, starts: seq<Sym>)

  predicate ShutCtx(t: nat) {
    true
  }

  /** The tree is the dominator tree, and all symbols in play need versions. */
  ghost predicate Sound(c: Ctx) {
    forall t {:trigger ShutCtx(t)} :: ShutCtx(t) ==> Meaningful(c)
  }

  ghost predicate Meaningful(c: Ctx) {
    && WellFormed(c.prog.cfg) && |c.children| == c.prog.cfg.size
    && (forall d, x :: 0 <= d < c.prog.cfg.size ==> (x in c.children[d] <==> ImmediatelyDominates(c.prog.cfg, d, x)))
    && (forall d :: 0 <= d < c.prog.cfg.size ==> Distinct(c.children[d]))
    && (forall y, i :: 0 <= i < |ListAt(c.placed, y)| ==> ListAt(c.placed, y)[i] in c.prog.names)
    && (forall s :: s in c.starts <==> s in c.prog.names && s in c.prog.declaredAtStart) && Distinct(c.starts)
  }

  /** A snapshot of the walk. `enter` and `leave` keep the stacks before and after the
      pushes of each visited point, `sites` the origin of every version. */
  datatype State = State(
    nextId: map<Sym, nat>,
    stacks: Stacks,
    phis: map<Point, seq<Phi>>,
    targets: map<Point, seq<Option<Version>>>,
    visible: map<Point, Versions>,
    enter: map<Point, Stacks>,
    leave: map<Point, Stacks>,
    sites: map<Version, Site>)

  // ----- counting pushes -----

  datatype Count = Count(sym: Sym, n: nat)

  ghost predicate CountsOk(pushed: seq<Count>, ps: PushList) {
    && (forall i, j :: 0 <= i < j < |pushed| ==> pushed[i].sym != pushed[j].sym)
    && (forall i :: 0 <= i < |pushed| ==> 0 < pushed[i].n == |Of(ps, pushed[i].sym)|)
    && (forall s :: Of(ps, s) != [] ==> exists i :: 0 <= i < |pushed| && pushed[i].sym == s)
  }

  predicate ShutCounts(t: nat) {
    true
  }

  predicate ShutPhis(t: nat) {
    true
  }

  predicate ShutState(t: nat) {
    true
  }

  /** `CountsOk` under a token, so that steps unfold it only where they need it. */
  ghost predicate Counted(pushed: seq<Count>, ps: PushList) {
    forall t {:trigger ShutCounts(t)} :: ShutCounts(t) ==> CountsOk(pushed, ps)
  }

  method AddPush(pushed: seq<Count>, sym: Sym, ghost ps: PushList, ghost site: Site) returns (r: seq<Count>)
    requires Counted(pushed, ps)
    ensures Counted(r, Push(ps, sym, site))
  {
    assert ShutCounts(0);
    forall s ensures Of(Push(ps, sym, site), s) == if s == sym then Of(ps, s) + [site] else Of(ps, s) {
    }
    for i := 0 to |pushed|
      invariant forall j :: 0 <= j < i ==> pushed[j].sym != sym
    {
      if pushed[i].sym == sym {
        r := pushed[i := Count(sym, pushed[i].n + 1)];
        assert forall j :: 0 <= j < |pushed| ==> r[j].sym == pushed[j].sym;
        return;
      }
    }
    r := pushed + [Count(sym, 1)];
    assert Of(ps, sym) == [];
    assert Of(Push(ps, sym, site), sym) == [site];
    assert r[|pushed|].sym == sym && forall j :: 0 <= j < |pushed| ==> r[j] == pushed[j];
    forall s | Of(Push(ps, sym, site), s) != [] ensures exists i :: 0 <= i < |r| && r[i].sym == s {
      if s != sym {
        var i :| 0 <= i < |pushed| && pushed[i].sym == s;
        assert r[i].sym == s;
      }
    }
  }

  // ----- what each visited point keeps -----

  /** The phis of `x` and its assignment targets hold versions made there. */
  ghost predicate PhiTargetsOk(c: Ctx, sites: map<Version, Site>, phis: map<Point, seq<Phi>>, x: Point, n: nat) {
    forall i :: 0 <= i < n && i < |ListAt(phis, x)| ==> MadeAt(sites, ListAt(phis, x)[i].target, PhiSite(x, i), ListAt(phis, x)[i].sym)
  }

  ghost predicate TargetOk(c: Ctx, sites: map<Version, Site>, t: Target, v: Option<Version>, x: Point, i: nat) {
    if Renamed(c.prog, TargetSymbol(t)) then v.Some? && MadeAt(sites, v.value, TargetSite(x, i), TargetSymbol(t)) else v.None?
  }

  ghost predicate AssignTargetsOk(c: Ctx, sites: map<Version, Site>, ts: seq<Target>, vs: seq<Option<Version>>, x: Point, n: nat) {
    |vs| == |ts| && forall i :: 0 <= i < n && i < |ts| ==> TargetOk(c, sites, ts[i], vs[i], x, i)
  }

  ghost predicate StatementOk(c: Ctx, sites: map<Version, Site>, targets: map<Point, seq<Option<Version>>>, x: Point) {
    x in c.prog.info && c.prog.info[x].Assign? ==>
      AssignTargetsOk(c, sites, c.prog.info[x].targets, ListAt(targets, x), x, |c.prog.info[x].targets|)
  }

  /** A phi entry for each placed symbol. */
  ghost predicate Shape(c: Ctx, phis: map<Point, seq<Phi>>) {
    forall y :: ShapeAt(ListAt(c.placed, y), ListAt(phis, y))
  }

  ghost predicate ShapeAt(syms: seq<Sym>, fs: seq<Phi>) {
    |fs| == |syms| && forall i :: 0 <= i < |fs| ==> fs[i].sym == syms[i]
  }

  ghost predicate VisibleOk(c: Ctx, st: State, x: Point)
    requires x in st.leave
  {
    x in c.prog.visibility ==>
      Agrees(c.prog, c.prog.visibility[x], if x in st.visible then st.visible[x] else map[], st.leave[x])
  }

  ghost predicate NodeOk(c: Ctx, st: State, x: Point) {
    && x in st.leave && x in st.enter
    && Pushed(st.enter[x], st.leave[x], st.sites, Pushes(c.prog, c.placed, c.starts, x))
    && PhiTargetsOk(c, st.sites, st.phis, x, |ListAt(st.phis, x)|)
    && StatementOk(c, st.sites, st.targets, x)
    && VisibleOk(c, st, x)
  }

  /** A child in the tree is entered with the stacks that leave its parent. */
  ghost predicate LinksOk(c: Ctx, st: State) {
    && (forall d, x :: d in st.leave && x in st.leave && x in st.enter && d < |c.children| && x in c.children[d] ==> st.enter[x] == st.leave[d])
    && (c.prog.cfg.entry in st.enter ==> forall s :: ListAt(st.enter[c.prog.cfg.entry], s) == [])
  }

  ghost predicate Basics(c: Ctx, st: State) {
    && st.stacks.Keys == st.nextId.Keys == c.prog.names.Keys
    && SitesOk(st.sites, st.nextId) && Shape(c, st.phis)
    && st.enter.Keys == st.leave.Keys && (forall x :: x in st.visible ==> x in st.leave)
  }

  ghost predicate Inv(c: Ctx, st: State) {
    && Basics(c, st) && LinksOk(c, st) && SitesFrom(st.sites, st.leave, Nothing)
    && (forall x :: x in st.leave ==> NodeOk(c, st, x))
    && AllOperandsOk(c.prog.cfg, st.leave, c.prog.cfg.size, multiset{}, st.phis)
  }

  /** Targets and symbols of phis are as before. */
  ghost predicate SameTargets(a: seq<Phi>, b: seq<Phi>) {
    |a| == |b| && forall i :: 0 <= i < |a| ==> a[i].sym == b[i].sym && a[i].target == b[i].target
  }

  ghost predicate SameOperands(a: seq<Phi>, b: seq<Phi>) {
    |a| == |b| && forall i :: 0 <= i < |a| ==> a[i].sym == b[i].sym && a[i].operands == b[i].operands
  }

  lemma {:induction false} OperandsTrans(a: seq<Phi>, b: seq<Phi>, c: seq<Phi>)
    requires SameOperands(a, b) && SameOperands(b, c)
    ensures SameOperands(a, c)
  {
  }

  ghost predicate AllSameTargets(a: map<Point, seq<Phi>>, b: map<Point, seq<Phi>>) {
    forall y {:trigger ListAt(b, y)} :: SameTargets(ListAt(a, y), ListAt(b, y))
  }

  /** What no later step undoes for a visited point. */
  ghost predicate Keeps(st: State, st': State, x: Point) {
    && x in st.leave && x in st'.leave && x in st.enter && x in st'.enter
    && st'.leave[x] == st.leave[x] && st'.enter[x] == st.enter[x]
    && SameTargets(ListAt(st.phis, x), ListAt(st'.phis, x)) && ListAt(st'.targets, x) == ListAt(st.targets, x)
    && (x in st.visible <==> x in st'.visible) && (x in st.visible ==> st'.visible[x] == st.visible[x])
    && Extends(st.sites, st'.sites)
  }

  lemma {:induction false} NodeStays(c: Ctx, st: State, st': State, x: Point)
    requires NodeOk(c, st, x) && Keeps(st, st', x)
    ensures NodeOk(c, st', x)
  {
    assert Shut(0);
    PushedStable(st.enter[x], st.leave[x], st.sites, st'.sites, Pushes(c.prog, c.placed, c.starts, x));
    forall i | 0 <= i < |ListAt(st'.phis, x)|
      ensures MadeAt(st'.sites, ListAt(st'.phis, x)[i].target, PhiSite(x, i), ListAt(st'.phis, x)[i].sym)
    {
      assert MadeAt(st.sites, ListAt(st.phis, x)[i].target, PhiSite(x, i), ListAt(st.phis, x)[i].sym);
    }
    if x in c.prog.info && c.prog.info[x].Assign? {
      var ts, vs := c.prog.info[x].targets, ListAt(st.targets, x);
      forall i | 0 <= i < |ts| ensures TargetOk(c, st'.sites, ts[i], vs[i], x, i) {
        assert TargetOk(c, st.sites, ts[i], vs[i], x, i);
      }
    }
  }

  /** The symbols pushed at `x` without a test need versions. */
  ghost predicate Named(c: Ctx, x: Point) {
    && (forall i :: 0 <= i < |ListAt(c.placed, x)| ==> ListAt(c.placed, x)[i] in c.prog.names)
    && (forall i :: 0 <= i < |c.starts| ==> c.starts[i] in c.prog.names)
  }

  lemma {:induction false} PushesOnce(c: Ctx, x: Point)
    requires Sound(c)
    ensures var ps := Pushes(c.prog, c.placed, c.starts, x); OnceEach(ps) && forall site :: Has(ps, site) ==> site.at == x
  {
    assert ShutCtx(0);
    var l := ListAt(c.placed, x);
    var phis := PhiPushes(Nothing, l, x, |l|);
    PhiPushesOnce(l, x, |l|);
    StartPushesOnce(phis, c.starts, x, |c.starts|);
    var before := if x == c.prog.cfg.entry then StartPushes(phis, c.starts, x, |c.starts|) else phis;
    if x in c.prog.info && c.prog.info[x].Assign? {
      TargetPushesOnce(before, c.prog, c.prog.info[x].targets, x, |c.prog.info[x].targets|);
    }
  }

  /** While a point is at work: it has done the pushes `ps` on top of `base`. */
  ghost predicate Busy(c: Ctx, st: State, base: Stacks, ps: PushList) {
    forall t {:trigger ShutState(t)} :: ShutState(t) ==> Basics(c, st) && Pushed(base, st.stacks, st.sites, ps) && SitesFrom(st.sites, st.leave, ps)
  }

  /** The state with the new version `v` on its stack. */
  ghost function Pushed1(st: State, v: Version, site: Site): State
    requires v.symbol in st.stacks
  {
    st.(nextId := st.nextId[v.symbol := v.id], stacks := st.stacks[v.symbol := st.stacks[v.symbol] + [v]], sites := st.sites[v := site])
  }

  lemma {:induction false} PushKeeps(c: Ctx, st: State, base: Stacks, ps: PushList, sym: Sym, site: Site)
    requires sym in c.prog.names && Busy(c, st, base, ps) && site.at !in st.leave && !Has(ps, site)
    ensures sym in st.nextId && sym in st.stacks
    ensures var v := Version(sym, st.nextId[sym] + 1); var st' := Pushed1(st, v, site);
            Extends(st.sites, st'.sites) && Busy(c, st', base, Push(ps, sym, site)) && MadeAt(st'.sites, v, site, sym)
  {
    assert ShutState(0);
    var v := Version(sym, st.nextId[sym] + 1);
    NewSite(st.sites, st.nextId, st.leave, ps, v, site);
    PushedStep(base, st.stacks, st.sites, ps, v, site);
  }

  lemma {:induction false} NewSite(sites: map<Version, Site>, nextId: map<Sym, nat>, leave: map<Point, Stacks>, ps: PushList, v: Version, site: Site)
    requires SitesOk(sites, nextId) && SitesFrom(sites, leave, ps) && site.at !in leave && !Has(ps, site)
    requires v.symbol in nextId && v.id == nextId[v.symbol] + 1
    ensures v !in sites && SitesOk(sites[v := site], nextId[v.symbol := v.id]) && SitesFrom(sites[v := site], leave, Push(ps, v.symbol, site))
  {
    forall w | w in sites ensures sites[w] != site {
      assert sites[w].at in leave || Has(ps, sites[w]);
    }
  }

  /** The next declared symbol, and the next target, have not been pushed. */
  lemma {:induction false} NewStart(ps: PushList, starts: seq<Sym>, x: Point, i: nat)
    requires i < |starts| && Distinct(starts) && OnceEach(ps) && forall site :: Has(ps, site) ==> site.PhiSite? && site.at == x
    ensures !Has(StartPushes(ps, starts, x, i), StartSite(x, starts[i]))
  {
    StartPushesOnce(ps, starts, x, i);
    assert starts[i] !in starts[..i];
  }

  lemma {:induction false} NewTarget(ps: PushList, prog: Program, ts: seq<Target>, x: Point, i: nat)
    requires i < |ts| && OnceEach(ps) && forall site :: Has(ps, site) ==> site.at == x && (site.PhiSite? || site.StartSite?)
    ensures !Has(TargetPushes(ps, prog, ts, x, i), TargetSite(x, i))
  {
    TargetPushesOnce(ps, prog, ts, x, i);
  }

  ghost predicate Popped(pushed: seq<Count>, n: nat, s: Sym) {
    exists i :: 0 <= i < n && i < |pushed| && pushed[i].sym == s
  }

  /** The symbols that were not pushed kept their stack. */
  ghost predicate SameOff(base: Stacks, cur: Stacks, pushed: seq<Count>) {
    forall s {:trigger ListAt(cur, s)} :: (forall i :: 0 <= i < |pushed| ==> pushed[i].sym != s) ==> ListAt(cur, s) == ListAt(base, s)
  }

  lemma {:induction false} PushedSameOff(base: Stacks, cur: Stacks, sites: map<Version, Site>, ps: PushList, pushed: seq<Count>)
    requires Pushed(base, cur, sites, ps) && Counted(pushed, ps)
    ensures SameOff(base, cur, pushed)
    ensures forall i :: 0 <= i < |pushed| ==> Top(cur, pushed[i].sym).Some?
  {
    assert ShutCounts(0);
    forall i | 0 <= i < |pushed| ensures Top(cur, pushed[i].sym).Some? {
      var s := pushed[i].sym;
      assert PushedAt(ListAt(base, s), ListAt(cur, s), sites, Of(ps, s), s);
    }
    forall s | forall i :: 0 <= i < |pushed| ==> pushed[i].sym != s ensures ListAt(cur, s) == ListAt(base, s) {
      assert PushedAt(ListAt(base, s), ListAt(cur, s), sites, Of(ps, s), s);
      assert Of(ps, s) == [];
    }
  }

  /** Versions recorded for the parent still agree when no visible symbol was pushed. */
  lemma {:induction false} ShareOk(prog: Program, v: VisId, m: Versions, base: Stacks, cur: Stacks, pushed: seq<Count>)
    requires Agrees(prog, v, m, base) && SameOff(base, cur, pushed)
    requires forall i :: 0 <= i < |pushed| ==> !VisibleIn(prog, v, pushed[i].sym)
    ensures Agrees(prog, v, m, cur)
  {
    forall s | VisibleIn(prog, v, s) ensures (if s in m then Some(m[s]) else None) == Top(cur, s) {
      assert ListAt(cur, s) == ListAt(base, s);
    }
  }

  /** ... and when the pushed symbols are patched. */
  lemma {:induction false} PatchOk(prog: Program, v: VisId, m: Versions, m': Versions, base: Stacks, cur: Stacks, pushed: seq<Count>)
    requires Agrees(prog, v, m, base) && SameOff(base, cur, pushed)
    requires forall i :: 0 <= i < |pushed| ==> pushed[i].sym in m' && Some(m'[pushed[i].sym]) == Top(cur, pushed[i].sym)
    requires forall s :: (forall i :: 0 <= i < |pushed| ==> pushed[i].sym != s) ==> (s in m' <==> s in m) && (s in m ==> m'[s] == m[s])
    ensures Agrees(prog, v, m', cur)
  {
    forall s | VisibleIn(prog, v, s) ensures (if s in m' then Some(m'[s]) else None) == Top(cur, s) {
      if forall i :: 0 <= i < |pushed| ==> pushed[i].sym != s {
        assert ListAt(cur, s) == ListAt(base, s);
      }
    }
  }

  predicate ShutInv(t: nat) {
    true
  }

  /** Operands are not touched when phis get their targets. */
  lemma {:induction false} OperandsStay(g: Cfg, leave: map<Point, Stacks>, z: Point, done: multiset<Point>, phis: map<Point, seq<Phi>>, phis': map<Point, seq<Phi>>, x: Point)
    requires AllOperandsOk(g, leave, z, done, phis) && SameOperands(ListAt(phis, x), ListAt(phis', x))
    requires forall y :: y != x ==> ListAt(phis', y) == ListAt(phis, y)
    ensures AllOperandsOk(g, leave, z, done, phis')
  {
    forall y, i | 0 <= i < |ListAt(phis', y)| ensures OperandsOk(g, leave, z, done, y, ListAt(phis', y)[i]) {
      assert OperandsOk(g, leave, z, done, y, ListAt(phis, y)[i]);
    }
  }

  /** The pushes of `x` are done, and nothing else. */
  ghost predicate PushesDone(c: Ctx, st: State, st': State, x: Point) {
    && st'.leave == st.leave && st'.enter == st.enter && st'.visible == st.visible && Basics(c, st')
    && Pushed(st.stacks, st'.stacks, st'.sites, Pushes(c.prog, c.placed, c.starts, x))
    && SitesFrom(st'.sites, st'.leave, Pushes(c.prog, c.placed, c.starts, x))
    && PhiTargetsOk(c, st'.sites, st'.phis, x, |ListAt(st'.phis, x)|) && StatementOk(c, st'.sites, st'.targets, x)
    && AllOperandsOk(c.prog.cfg, st'.leave, c.prog.cfg.size, multiset{}, st'.phis)
    && Extends(st.sites, st'.sites)
    && forall y :: y != x ==> ListAt(st'.phis, y) == ListAt(st.phis, y) && ListAt(st'.targets, y) == ListAt(st.targets, y)
  }

  /** The step from `st` to `st'` visited `x` alone. */
  ghost predicate Visited(c: Ctx, st: State, st': State, x: Point) {
    && x !in st.leave && st'.leave == st.leave[x := st'.stacks] && st'.enter == st.enter[x := st.stacks]
    && Basics(c, st') && SitesFrom(st'.sites, st'.leave, Nothing) && NodeOk(c, st', x) && AllOperandsOk(c.prog.cfg, st'.leave, c.prog.cfg.size, multiset{}, st'.phis)
    && forall y :: y in st.leave ==> Keeps(st, st', y)
  }

  /** Visiting a point whose parent was visited and whose children were not. */
  lemma {:induction false} VisitKeepsInv(c: Ctx, st: State, st': State, x: Point)
    requires Inv(c, st) && Visited(c, st, st', x)
    requires forall d :: d in st.leave && d < |c.children| && x in c.children[d] ==> st.leave[d] == st.stacks
    requires x < |c.children| ==> forall y :: y in st'.leave ==> y !in c.children[x]
    requires x == c.prog.cfg.entry ==> forall s :: ListAt(st.stacks, s) == []
    ensures Inv(c, st')
  {
    forall y | y in st'.leave ensures NodeOk(c, st', y) {
      if y != x {
        NodeStays(c, st, st', y);
      }
    }
    forall d, y | d in st'.leave && y in st'.leave && y in st'.enter && d < |c.children| && y in c.children[d]
      ensures st'.enter[y] == st'.leave[d]
    {
      if y != x {
        assert Keeps(st, st', y);
      }
      if d != x {
        assert Keeps(st, st', d);
      }
    }
  }

  lemma {:induction false} PopKeepsInv(c: Ctx, st: State, stacks: Stacks)
    requires Inv(c, st) && stacks.Keys == st.stacks.Keys
    ensures Inv(c, st.(stacks := stacks))
  {
    ExtendsSelf(st.sites);
    forall y | y in st.leave ensures NodeOk(c, st.(stacks := stacks), y) {
      assert Keeps(st, st.(stacks := stacks), y);
      NodeStays(c, st, st.(stacks := stacks), y);
    }
  }

  class Renamer {
    const c: Ctx
    var nextId: map<Sym, nat>
    var stacks: Stacks
    var phis: map<Point, seq<Phi>>
    var targets: map<Point, seq<Option<Version>>>
    var visible: map<Point, Versions>
    ghost var enter: map<Point, Stacks>
    ghost var leave: map<Point, Stacks>
    ghost var sites: map<Version, Site>

    constructor (ctx: Ctx, ids: map<Sym, nat>)
      ensures c == ctx && Good() && leave == map[] && enter == map[] && forall s :: ListAt(stacks, s) == []
    {
      c := ctx;
      nextId := map s | s in ctx.prog.names :: if s in ids then ids[s] else 0;
      stacks := map s | s in ctx.prog.names :: [];
      phis := map y | y in ctx.placed :: seq(|ctx.placed[y]|, i requires 0 <= i < |ctx.placed[y]| => Phi(ctx.placed[y][i], Version(ctx.placed[y][i], 0), []));
      targets, visible, enter, leave, sites := map[], map[], map[], map[], map[];
      new;
      assert Shape(c, phis);
      assert AllOperandsOk(c.prog.cfg, leave, c.prog.cfg.size, multiset{}, phis);
      assert Inv(c, View());
    }

    ghost function View(): State
      reads this
    {
      State(nextId, stacks, phis, targets, visible, enter, leave, sites)
    }

    ghost predicate Pushing(base: Stacks, pushed: seq<Count>, ps: PushList)
      reads this
    {
      Busy(c, View(), base, ps) && Counted(pushed, ps)
    }

    // ----- pushing and popping versions -----

    /** A new version of `sym`, on top of its stack. */
    method NewVersion(sym: Sym, ghost site: Site) returns (v: Version)
      requires sym in c.prog.names && sym in nextId && sym in stacks
      modifies `stacks, `nextId, `sites
      ensures v == Version(sym, old(nextId)[sym] + 1) && View() == Pushed1(old(View()), v, site)
      ensures sites == Pushed1(old(View()), v, site).sites
    {
      nextId := nextId[sym := nextId[sym] + 1];
      v := Version(sym, nextId[sym]);
      stacks := stacks[sym := stacks[sym] + [v]];
      sites := sites[v := site];
    }

    /** A new version, with its push counted. */
    method PushVersion(sym: Sym, pushed: seq<Count>, ghost base: Stacks, ghost ps: PushList, ghost site: Site)
      returns (v: Version, r: seq<Count>)
      requires sym in c.prog.names && Pushing(base, pushed, ps) && site.at !in leave && !Has(ps, site)
      modifies `stacks, `nextId, `sites
      ensures Extends(old(sites), sites) && MadeAt(sites, v, site, sym)
      ensures Pushing(base, r, Push(ps, sym, site))
    {
      r := AddPush(pushed, sym, ps, site);
      PushKeeps(c, View(), base, ps, sym, site);
      v := NewVersion(sym, site);
    }

    /** New versions for the phis of `x`. */
    method PushPhis(x: Point, ghost base: Stacks) returns (pushed: seq<Count>)
      requires Named(c, x) && x !in leave && Pushing(base, [], Nothing) && ShapeAt(ListAt(c.placed, x), ListAt(phis, x))
      modifies `stacks, `nextId, `sites, `phis
      ensures Extends(old(sites), sites)
      ensures Pushing(base, pushed, PhiPushes(Nothing, ListAt(c.placed, x), x, |ListAt(c.placed, x)|))
      ensures PhiTargetsOk(c, sites, phis, x, |ListAt(phis, x)|)
      ensures forall y :: y != x ==> ListAt(phis, y) == ListAt(old(phis), y)
      ensures SameOperands(ListAt(old(phis), x), ListAt(phis, x))
    {
      pushed := [];
      ExtendsSelf(sites);
      for i := 0 to |ListAt(c.placed, x)|
        invariant PhisDone(x, i, pushed, base, old(phis), old(sites))
      {
        pushed := PushNextPhi(x, i, pushed, base, old(phis), old(sites));
      }
      assert ShutPhis(0);
    }

    /** The first `i` phis have their versions, since the phis were `phis0` and the
        versions `sites0`. */
    ghost predicate PhisDone(x: Point, i: nat, pushed: seq<Count>, base: Stacks, phis0: map<Point, seq<Phi>>, sites0: map<Version, Site>)
      reads this
      requires i <= |ListAt(c.placed, x)|
    {
      forall t {:trigger ShutPhis(t)} :: ShutPhis(t) ==>
        && Extends(sites0, sites) && ShapeAt(ListAt(c.placed, x), ListAt(phis, x))
        && Pushing(base, pushed, PhiPushes(Nothing, ListAt(c.placed, x), x, i)) && PhiTargetsOk(c, sites, phis, x, i)
        && (forall y :: y != x ==> ListAt(phis, y) == ListAt(phis0, y)) && SameOperands(ListAt(phis0, x), ListAt(phis, x))
    }

    method PushNextPhi(x: Point, i: nat, pushed: seq<Count>, ghost base: Stacks, ghost phis0: map<Point, seq<Phi>>, ghost sites0: map<Version, Site>)
      returns (r: seq<Count>)
      requires x !in leave && i < |ListAt(c.placed, x)| && ListAt(c.placed, x)[i] in c.prog.names && PhisDone(x, i, pushed, base, phis0, sites0)
      modifies `stacks, `nextId, `sites, `phis
      ensures PhisDone(x, i + 1, r, base, phis0, sites0)
    {
      assert ShutPhis(0);
      ghost var s0, f0 := sites, ListAt(phis, x);
      r := PushPhi(x, i, pushed, base);
      ExtendsTrans(sites0, s0, sites);
      OperandsTrans(ListAt(phis0, x), f0, ListAt(phis, x));
    }

    method PushPhi(x: Point, i: nat, pushed: seq<Count>, ghost base: Stacks) returns (r: seq<Count>)
      requires x !in leave && i < |ListAt(c.placed, x)| && ListAt(c.placed, x)[i] in c.prog.names && ShapeAt(ListAt(c.placed, x), ListAt(phis, x))
      requires Pushing(base, pushed, PhiPushes(Nothing, ListAt(c.placed, x), x, i)) && PhiTargetsOk(c, sites, phis, x, i)
      modifies `stacks, `nextId, `sites, `phis
      ensures Extends(old(sites), sites) && Pushing(base, r, PhiPushes(Nothing, ListAt(c.placed, x), x, i + 1))
      ensures ShapeAt(ListAt(c.placed, x), ListAt(phis, x)) && PhiTargetsOk(c, sites, phis, x, i + 1)
      ensures forall y :: y != x ==> ListAt(phis, y) == ListAt(old(phis), y)
      ensures SameOperands(ListAt(old(phis), x), ListAt(phis, x))
    {
      ghost var f0, s0 := ListAt(phis, x), sites;
      PhiPushesOnce(ListAt(c.placed, x), x, i);
      var v;
      v, r := PushVersion(ListAt(c.placed, x)[i], pushed, base, PhiPushes(Nothing, ListAt(c.placed, x), x, i), PhiSite(x, i));
      SetTarget(x, i, v, base, r, PhiPushes(Nothing, ListAt(c.placed, x), x, i + 1));
      SetTargetOk(c, s0, sites, f0, ListAt(phis, x), x, i, v);
    }

    method SetTarget(x: Point, i: nat, v: Version, ghost base: Stacks, ghost pushed: seq<Count>, ghost ps: PushList)
      requires i < |ListAt(phis, x)| && Pushing(base, pushed, ps)
      modifies `phis
      ensures Pushing(base, pushed, ps)
      ensures forall y :: y != x ==> ListAt(phis, y) == ListAt(old(phis), y)
      ensures ListAt(phis, x) == ListAt(old(phis), x)[i := ListAt(old(phis), x)[i].(target := v)]
    {
      assert ShutState(0);
      var fs := ListAt(phis, x);
      assert ShapeAt(ListAt(c.placed, x), fs);
      phis := phis[x := fs[i := fs[i].(target := v)]];
      forall y ensures ShapeAt(ListAt(c.placed, y), ListAt(phis, y)) {
        assert ShapeAt(ListAt(c.placed, y), ListAt(old(phis), y));
      }
    }

    /** New versions for the symbols declared before the code. */
    method PushStarts(x: Point, starts: seq<Sym>, pushed: seq<Count>, ghost base: Stacks, ghost ps: PushList) returns (r: seq<Count>)
      requires x !in leave && Distinct(starts) && OnceEach(ps) && forall site :: Has(ps, site) ==> site.PhiSite? && site.at == x
      requires Pushing(base, pushed, ps) && forall i :: 0 <= i < |starts| ==> starts[i] in c.prog.names
      modifies `stacks, `nextId, `sites
      ensures Extends(old(sites), sites) && Pushing(base, r, StartPushes(ps, starts, x, |starts|))
    {
      r := pushed;
      ExtendsSelf(sites);
      for i := 0 to |starts|
        invariant Extends(old(sites), sites) && Pushing(base, r, StartPushes(ps, starts, x, i))
      {
        var s := starts[i];
        ghost var qs, s0 := StartPushes(ps, starts, x, i), sites;
        NewStart(ps, starts, x, i);
        var v;
        v, r := PushVersion(s, r, base, qs, StartSite(x, s));
        ExtendsTrans(old(sites), s0, sites);
      }
    }

    /** New versions for the targets of an assignment. */
    method PushTargets(x: Point, ts: seq<Target>, pushed: seq<Count>, ghost base: Stacks, ghost ps: PushList)
      returns (r: seq<Count>, vs: seq<Option<Version>>)
      requires x !in leave && OnceEach(ps) && forall site :: Has(ps, site) ==> site.at == x && (site.PhiSite? || site.StartSite?)
      requires Pushing(base, pushed, ps)
      modifies `stacks, `nextId, `sites
      ensures Extends(old(sites), sites)
      ensures Pushing(base, r, TargetPushes(ps, c.prog, ts, x, |ts|))
      ensures AssignTargetsOk(c, sites, ts, vs, x, |ts|)
    {
      r, vs := pushed, seq(|ts|, _ => None);
      ExtendsSelf(sites);
      for i := 0 to |ts|
        invariant |vs| == |ts| && Extends(old(sites), sites) && (forall j :: i <= j < |ts| ==> vs[j].None?)
        invariant Pushing(base, r, TargetPushes(ps, c.prog, ts, x, i))
        invariant AssignTargetsOk(c, sites, ts, vs, x, i)
      {
        var s := TargetSymbol(ts[i]);
        if Renamed(c.prog, s) {
          ghost var qs, vs0, sites0 := TargetPushes(ps, c.prog, ts, x, i), vs, sites;
          NewTarget(ps, c.prog, ts, x, i);
          var v;
          v, r := PushVersion(s, r, base, qs, TargetSite(x, i));
          vs := vs[i := Some(v)];
          ExtendsTrans(old(sites), sites0, sites);
          SaveTargetOk(c, sites0, sites, ts, vs0, x, i, v);
        }
      }
    }

    /** New versions for what the statement at `x` assigns. */
    method PushInfo(x: Point, pushed: seq<Count>, ghost base: Stacks, ghost ps: PushList) returns (r: seq<Count>)
      requires x !in leave && OnceEach(ps) && forall site :: Has(ps, site) ==> site.at == x && (site.PhiSite? || site.StartSite?)
      requires Pushing(base, pushed, ps)
      modifies `stacks, `nextId, `sites, `targets
      ensures Extends(old(sites), sites)
      ensures Pushing(base, r, InfoPushes(ps, c.prog, x))
      ensures StatementOk(c, sites, targets, x)
      ensures forall y :: y != x ==> ListAt(targets, y) == ListAt(old(targets), y)
    {
      r := pushed;
      ExtendsSelf(sites);
      if x in c.prog.info {
        match c.prog.info[x] {
          case Assign(ts) =>
            var vs;
            r, vs := PushTargets(x, ts, r, base, ps);
            SaveTargets(x, vs, base, r, InfoPushes(ps, c.prog, x));
          case FuncDef(s, isGlobal) =>
            if isGlobal && Renamed(c.prog, s) {
              var v;
              v, r := PushVersion(s, r, base, ps, FuncSite(x));
            }
        }
      }
    }

    method SaveTargets(x: Point, vs: seq<Option<Version>>, ghost base: Stacks, ghost pushed: seq<Count>, ghost ps: PushList)
      requires Pushing(base, pushed, ps)
      modifies `targets
      ensures Pushing(base, pushed, ps)
      ensures targets == old(targets)[x := vs]
    {
      assert ShutState(0);
      targets := targets[x := vs];
    }

    /** All the new versions of `x`. */
    method PushAll(x: Point, ghost base: Stacks) returns (pushed: seq<Count>)
      requires Named(c, x) && Distinct(c.starts) && x !in leave && Pushing(base, [], Nothing) && ShapeAt(ListAt(c.placed, x), ListAt(phis, x))
      modifies `stacks, `nextId, `sites, `phis, `targets
      ensures Extends(old(sites), sites)
      ensures Pushing(base, pushed, Pushes(c.prog, c.placed, c.starts, x))
      ensures PhiTargetsOk(c, sites, phis, x, |ListAt(phis, x)|) && StatementOk(c, sites, targets, x)
      ensures forall y :: y != x ==> ListAt(phis, y) == ListAt(old(phis), y) && ListAt(targets, y) == ListAt(old(targets), y)
      ensures SameOperands(ListAt(old(phis), x), ListAt(phis, x))
    {
      pushed := PushPhis(x, base);
      ghost var sites1, sites2 := sites, sites;
      ExtendsSelf(sites);
      ghost var ps := PhiPushes(Nothing, ListAt(c.placed, x), x, |ListAt(c.placed, x)|);
      PhiPushesOnce(ListAt(c.placed, x), x, |ListAt(c.placed, x)|);
      if x == c.prog.cfg.entry {
        StartPushesOnce(ps, c.starts, x, |c.starts|);
        pushed := PushStarts(x, c.starts, pushed, base, ps);
        ps, sites2 := StartPushes(ps, c.starts, x, |c.starts|), sites;
      }
      pushed := PushInfo(x, pushed, base, ps);
      ExtendsTrans(sites1, sites2, sites);
      ExtendsTrans(old(sites), sites1, sites);
      MoreSites(c, sites1, sites, phis, x);
    }

    /** The stacks as they were before the pushes. */
    method Pop(pushed: seq<Count>, ghost base: Stacks, ghost ps: PushList)
      requires stacks.Keys == base.Keys && Pushed(base, stacks, sites, ps) && Counted(pushed, ps)
      modifies `stacks
      ensures stacks == base
    {
      assert ShutCounts(0);
      ghost var cur := stacks;
      for i := 0 to |pushed|
        invariant stacks.Keys == base.Keys
        invariant forall s {:trigger ListAt(stacks, s)} :: ListAt(stacks, s) == if Popped(pushed, i, s) then ListAt(base, s) else ListAt(cur, s)
      {
        var s := pushed[i].sym;
        ghost var st := stacks;
        assert !Popped(pushed, i, s) && forall z :: Popped(pushed, i + 1, z) <==> z == s || Popped(pushed, i, z);
        assert ListAt(stacks, s) == ListAt(cur, s) && PushedAt(ListAt(base, s), ListAt(cur, s), sites, Of(ps, s), s);
        stacks := stacks[s := stacks[s][..|stacks[s]| - pushed[i].n]];
        assert forall z :: z != s ==> ListAt(stacks, z) == ListAt(st, z);
      }
      forall s ensures ListAt(stacks, s) == ListAt(base, s) {
        assert PushedAt(ListAt(base, s), ListAt(cur, s), sites, Of(ps, s), s);
        if Of(ps, s) != [] {
          assert Popped(pushed, |pushed|, s);
        }
      }
      assert forall s :: s in base ==> stacks[s] == ListAt(stacks, s) && base[s] == ListAt(base, s);
    }

    // ----- visible versions -----

    /** The stack tops of the symbols visible in `v`: locals, then globals that no
        local shadows. */
    method BuildVersions(v: VisId) returns (m: Versions)
      ensures Agrees(c.prog, v, m, stacks)
    {
      m := map[];
      var t := TableOf(c.prog, v);
      var todo := t.Keys;
      while todo != {}
        invariant todo <= t.Keys
        invariant forall s :: s in m <==> Top(stacks, s).Some? && s in c.prog.names && c.prog.names[s] in t && c.prog.names[s] !in todo && t[c.prog.names[s]] == s
        invariant forall s :: s in m ==> Some(m[s]) == Top(stacks, s)
        decreases |todo|
      {
        var name :| name in todo;
        todo := todo - {name};
        m := AddVersion(m, name, t[name]);
      }
      todo := c.prog.globals.Keys;
      while todo != {}
        invariant todo <= c.prog.globals.Keys
        invariant forall s :: s in m <==> Top(stacks, s).Some? && VisibleIn(c.prog, v, s) && (c.prog.names[s] in t || c.prog.names[s] !in todo)
        invariant forall s :: s in m ==> Some(m[s]) == Top(stacks, s)
        decreases |todo|
      {
        var name :| name in todo;
        todo := todo - {name};
        if name !in t {
          m := AddVersion(m, name, c.prog.globals[name]);
        }
      }
    }

    method AddVersion(m: Versions, name: string, sym: Sym) returns (r: Versions)
      ensures r == if sym in c.prog.names && c.prog.names[sym] == name && Top(stacks, sym).Some? then m[sym := Top(stacks, sym).value] else m
    {
      r := m;
      if sym in c.prog.names && c.prog.names[sym] == name {
        var l := ListAt(stacks, sym);
        if l != [] {
          r := r[sym := l[|l| - 1]];
        }
      }
    }

    method HasVisiblePush(v: VisId, pushed: seq<Count>) returns (b: bool)
      ensures b <==> exists i :: 0 <= i < |pushed| && VisibleIn(c.prog, v, pushed[i].sym)
    {
      for i := 0 to |pushed|
        invariant forall j :: 0 <= j < i ==> !VisibleIn(c.prog, v, pushed[j].sym)
      {
        if VisibleIn(c.prog, v, pushed[i].sym) {
          return true;
        }
      }
      b := false;
    }

    /** A copy of the parent's versions with the pushed symbols brought up to date. */
    method PatchVersions(m: Versions, pushed: seq<Count>) returns (r: Versions)
      requires forall i :: 0 <= i < |pushed| ==> Top(stacks, pushed[i].sym).Some?
      ensures forall i :: 0 <= i < |pushed| ==> pushed[i].sym in r && Some(r[pushed[i].sym]) == Top(stacks, pushed[i].sym)
      ensures forall s :: (forall i :: 0 <= i < |pushed| ==> pushed[i].sym != s) ==> (s in r <==> s in m) && (s in m ==> r[s] == m[s])
    {
      r := m;
      for i := 0 to |pushed|
        invariant forall j :: 0 <= j < i ==> pushed[j].sym in r && Some(r[pushed[j].sym]) == Top(stacks, pushed[j].sym)
        invariant forall s :: (forall j :: 0 <= j < i ==> pushed[j].sym != s) ==> (s in r <==> s in m) && (s in m ==> r[s] == m[s])
      {
        var l := ListAt(stacks, pushed[i].sym);
        if l != [] {
          r := r[pushed[i].sym := l[|l| - 1]];
        }
      }
    }

    /** The versions visible at `x`, shared with the parent in the tree when they are
        the same. */
    method RecordVisible(x: Point, pushed: seq<Count>, parent: Option<Versions>, parentVis: Option<VisId>, ghost base: Stacks)
      returns (cur: Option<Versions>, vis: Option<VisId>)
      requires x !in visible && SameOff(base, stacks, pushed)
      requires forall i :: 0 <= i < |pushed| ==> Top(stacks, pushed[i].sym).Some?
      requires parent.Some? ==> parentVis.Some? && Agrees(c.prog, parentVis.value, parent.value, base)
      modifies `visible
      ensures cur.Some? ==> vis.Some? && Agrees(c.prog, vis.value, cur.value, stacks)
      ensures x in c.prog.visibility ==>
                Agrees(c.prog, c.prog.visibility[x], if x in visible then visible[x] else map[], stacks)
      ensures forall y :: y != x ==> (y in visible <==> y in old(visible)) && (y in visible ==> visible[y] == old(visible)[y])
    {
      cur, vis := None, None;
      if x in c.prog.visibility {
        var v := c.prog.visibility[x];
        vis := Some(v);
        if parent.Some? && parentVis == vis {
          var changed := HasVisiblePush(v, pushed);
          if changed {
            var m := PatchVersions(parent.value, pushed);
            PatchOk(c.prog, v, parent.value, m, base, stacks, pushed);
            cur := Some(m);
          } else {
            ShareOk(c.prog, v, parent.value, base, stacks, pushed);
            cur := parent;
          }
          visible := visible[x := cur.value];
        } else {
          var m := BuildVersions(v);
          if m != map[] {
            cur := Some(m);
            visible := visible[x := m];
          }
        }
      }
    }

    // ----- phi operands -----

    /** What leaves `x` reaches the phis of its successor `y`. */
    method SendTo(x: Point, y: Point)
      modifies `phis
      ensures forall w :: w != y ==> ListAt(phis, w) == ListAt(old(phis), w)
      ensures |ListAt(phis, y)| == |ListAt(old(phis), y)|
      ensures forall i :: 0 <= i < |ListAt(phis, y)| ==> ListAt(phis, y)[i] == Receive(ListAt(old(phis), y)[i], x, stacks)
    {
      var fs := ListAt(phis, y);
      for i := 0 to |fs|
        invariant |fs| == |ListAt(old(phis), y)|
        invariant forall j :: 0 <= j < |fs| ==>
                    fs[j] == if j < i then Receive(ListAt(old(phis), y)[j], x, stacks) else ListAt(old(phis), y)[j]
      {
        var l := ListAt(stacks, fs[i].sym);
        if l != [] {
          fs := fs[i := fs[i].(operands := fs[i].operands + [Operand(x, l[|l| - 1])])];
        }
      }
      if fs != [] {
        phis := phis[y := fs];
      }
    }

    method SendStep(x: Point, y: Point, ghost done: multiset<Point>)
      requires x in leave && leave[x] == stacks && AllOperandsOk(c.prog.cfg, leave, x, done, phis)
      modifies `phis
      ensures AllOperandsOk(c.prog.cfg, leave, x, done + multiset{y}, phis) && AllSameTargets(old(phis), phis)
    {
      SendTo(x, y);
      SendOk(c.prog.cfg, leave, x, done, y, old(phis), phis);
    }

    /** Operands for the phis of all successors of `x`. */
    method SendOperands(x: Point)
      requires x in leave && leave[x] == stacks && x < |c.prog.cfg.succs| == c.prog.cfg.size && AllOperandsOk(c.prog.cfg, leave, x, multiset{}, phis)
      modifies `phis
      ensures AllOperandsOk(c.prog.cfg, leave, c.prog.cfg.size, multiset{}, phis) && AllSameTargets(old(phis), phis)
    {
      var ys := c.prog.cfg.succs[x];
      ghost var done := multiset{};
      if |ys| > 1 {
        for i := 0 to |ys|
          invariant AllOperandsOk(c.prog.cfg, leave, x, done, phis) && AllSameTargets(old(phis), phis)
          invariant done == multiset(ys[..i])
        {
          SendStep(x, ys[i], done);
          done := done + multiset{ys[i]};
          assert ys[..i + 1] == ys[..i] + [ys[i]];
        }
        assert ys[..|ys|] == ys;
      } else if |ys| == 1 && ys[0] != x {
        SendStep(x, ys[0], done);
        done := done + multiset{ys[0]};
        assert ys == [ys[0]];
      }
      forall y ensures done[y] == Sends(c.prog.cfg, x, y) {
        assert y in ys <==> y in multiset(ys);
      }
      EndSending(c.prog.cfg, leave, x, done, c.prog.cfg.size, multiset{}, phis);
    }

    // ----- the walk -----

    ghost predicate Good()
      reads this
    {
      forall t {:trigger ShutInv(t)} :: ShutInv(t) ==> Inv(c, View())
    }

    /** The new versions of `x`. */
    method PushHere(x: Point) returns (pushed: seq<Count>)
      requires Sound(c) && Inv(c, View()) && x !in leave
      modifies `stacks, `nextId, `sites, `phis, `targets
      ensures PushesDone(c, old(View()), View(), x)
      ensures Counted(pushed, Pushes(c.prog, c.placed, c.starts, x))
    {
      PushedNothing(stacks, sites);
      assert ShapeAt(ListAt(c.placed, x), ListAt(phis, x));
      assert Named(c, x) && Distinct(c.starts) by {
        assert ShutCtx(0);
      }
      pushed := PushAll(x, stacks);
      assert ShutState(0);
      OperandsStay(c.prog.cfg, leave, c.prog.cfg.size, multiset{}, old(phis), phis, x);
    }

    /** Everything that happens at `x` itself. */
    method Visit(x: Point, parent: Option<Versions>, parentVis: Option<VisId>) returns (pushed: seq<Count>, cur: Option<Versions>, vis: Option<VisId>)
      requires Sound(c) && x < c.prog.cfg.size && Inv(c, View()) && x !in leave
      requires parent.Some? ==> parentVis.Some? && Agrees(c.prog, parentVis.value, parent.value, stacks)
      modifies this
      ensures Visited(c, old(View()), View(), x)
      ensures Counted(pushed, Pushes(c.prog, c.placed, c.starts, x))
      ensures cur.Some? ==> vis.Some? && Agrees(c.prog, vis.value, cur.value, stacks)
    {
      assert |c.prog.cfg.succs| == c.prog.cfg.size by {
        assert ShutCtx(0);
      }
      ghost var base := stacks;
      pushed := PushHere(x);
      ghost var st1 := View();
      PushedSameOff(base, stacks, sites, Pushes(c.prog, c.placed, c.starts, x), pushed);
      cur, vis := Settle(x, pushed, parent, parentVis, base);
      VisitEnds(c, old(View()), st1, View(), x);
    }

    /** What follows the pushes: the visible versions, then the operands. */
    method Settle(x: Point, pushed: seq<Count>, parent: Option<Versions>, parentVis: Option<VisId>, ghost base: Stacks)
      returns (cur: Option<Versions>, vis: Option<VisId>)
      requires x < |c.prog.cfg.succs| == c.prog.cfg.size && x !in leave && x !in visible
      requires SameOff(base, stacks, pushed) && forall i :: 0 <= i < |pushed| ==> Top(stacks, pushed[i].sym).Some?
      requires parent.Some? ==> parentVis.Some? && Agrees(c.prog, parentVis.value, parent.value, base)
      requires AllOperandsOk(c.prog.cfg, leave, c.prog.cfg.size, multiset{}, phis)
      modifies `enter, `leave, `visible, `phis
      ensures enter == old(enter)[x := base] && leave == old(leave)[x := stacks]
      ensures AllSameTargets(old(phis), phis) && AllOperandsOk(c.prog.cfg, leave, c.prog.cfg.size, multiset{}, phis)
      ensures cur.Some? ==> vis.Some? && Agrees(c.prog, vis.value, cur.value, stacks)
      ensures VisibleOk(c, View(), x)
      ensures forall y :: y != x ==> (y in visible <==> y in old(visible)) && (y in visible ==> visible[y] == old(visible)[y])
    {
      BeginSending(c.prog.cfg, leave, c.prog.cfg.size, multiset{}, x, stacks, phis);
      enter, leave := enter[x := base], leave[x := stacks];
      cur, vis := RecordVisible(x, pushed, parent, parentVis, base);
      SendOperands(x);
    }

    /** The walk over the subtree of `x`: every point of it is visited, the stacks
        are as before, and earlier points keep what they had. */
    method Rename(x: Point, parent: Option<Versions>, parentVis: Option<VisId>)
      requires Sound(c) && Reachable(c.prog.cfg, x) && Good()
      requires forall y :: Dominates(c.prog.cfg, x, y) ==> y !in leave
      requires forall d :: d in leave && d < |c.children| && x in c.children[d] ==> leave[d] == stacks
      requires x == c.prog.cfg.entry ==> forall s :: ListAt(stacks, s) == []
      requires parent.Some? ==> parentVis.Some? && Agrees(c.prog, parentVis.value, parent.value, stacks)
      modifies this
      ensures Good() && stacks == old(stacks)
      ensures forall y :: y in leave <==> y in old(leave) || Dominates(c.prog.cfg, x, y)
      ensures forall y :: y in old(leave) ==> leave[y] == old(leave)[y]
      ensures forall y :: y in old(enter) ==> y in enter && enter[y] == old(enter)[y]
      decreases c.prog.cfg.size - Depth(c.prog.cfg, x), 1
    {
      Reflexive(c.prog.cfg, x);
      var pushed, cur, vis := VisitGood(x, parent, parentVis);
      VisitChildren(x, cur, vis);
      EndVisit(x, pushed, old(stacks));
    }

    method VisitGood(x: Point, parent: Option<Versions>, parentVis: Option<VisId>) returns (pushed: seq<Count>, cur: Option<Versions>, vis: Option<VisId>)
      requires Sound(c) && Reachable(c.prog.cfg, x) && Good()
      requires forall y :: Dominates(c.prog.cfg, x, y) ==> y !in leave
      requires forall d :: d in leave && d < |c.children| && x in c.children[d] ==> leave[d] == stacks
      requires x == c.prog.cfg.entry ==> forall s :: ListAt(stacks, s) == []
      requires parent.Some? ==> parentVis.Some? && Agrees(c.prog, parentVis.value, parent.value, stacks)
      modifies this
      ensures Good() && leave == old(leave)[x := stacks] && enter == old(enter)[x := old(stacks)]
      ensures x !in old(enter)
      ensures Counted(pushed, Pushes(c.prog, c.placed, c.starts, x))
      ensures cur.Some? ==> vis.Some? && Agrees(c.prog, vis.value, cur.value, stacks)
    {
      assert ShutInv(0);
      Reflexive(c.prog.cfg, x);
      ChildrenBelow(c, x);
      pushed, cur, vis := Visit(x, parent, parentVis);
      VisitKeepsInv(c, old(View()), View(), x);
    }

    method EndVisit(x: Point, pushed: seq<Count>, ghost base: Stacks)
      requires Good() && x in leave && x in enter && enter[x] == base && leave[x] == stacks
      requires Counted(pushed, Pushes(c.prog, c.placed, c.starts, x))
      modifies `stacks
      ensures Good() && stacks == base
    {
      assert ShutInv(0);
      assert NodeOk(c, View(), x);
      Pop(pushed, base, Pushes(c.prog, c.placed, c.starts, x));
      PopKeepsInv(c, old(View()), stacks);
    }

    method VisitChildren(x: Point, cur: Option<Versions>, vis: Option<VisId>)
      requires Sound(c) && Reachable(c.prog.cfg, x) && Good() && x in leave && leave[x] == stacks
      requires forall y :: StrictlyDominates(c.prog.cfg, x, y) ==> y !in leave
      requires cur.Some? ==> vis.Some? && Agrees(c.prog, vis.value, cur.value, stacks)
      modifies this
      ensures Good() && stacks == old(stacks)
      ensures forall y :: y in leave <==> y in old(leave) || StrictlyDominates(c.prog.cfg, x, y)
      ensures forall y :: y in old(leave) ==> leave[y] == old(leave)[y]
      ensures forall y :: y in old(enter) ==> y in enter && enter[y] == old(enter)[y]
      decreases c.prog.cfg.size - Depth(c.prog.cfg, x), 0
    {
      ChildrenBelow(c, x);
      for i := 0 to |c.children[x]|
        invariant Good() && stacks == old(stacks)
        invariant forall y :: y in leave <==> y in old(leave) || InSubtrees(c, x, i, y)
        invariant forall y :: y in old(leave) ==> leave[y] == old(leave)[y]
        invariant forall y :: y in old(enter) ==> y in enter && enter[y] == old(enter)[y]
      {
        ChildReady(c, x, i, old(leave), leave, stacks);
        Rename(c.children[x][i], cur, vis);
      }
      AllSubtrees(c, x);
    }
  }

  /** `y` lies in the subtree of one of the first `n` children of `x`. */
  ghost predicate InSubtrees(c: Ctx, x: Point, n: nat, y: Point) {
    x < |c.children| && exists j :: 0 <= j < n && j < |c.children[x]| && Dominates(c.prog.cfg, c.children[x][j], y)
  }

  lemma {:induction false} ChildrenBelow(c: Ctx, x: Point)
    requires Sound(c) && Reachable(c.prog.cfg, x)
    ensures x < c.prog.cfg.size == |c.children|
    ensures forall y :: y in c.children[x] ==> StrictlyDominates(c.prog.cfg, x, y)
  {
    assert ShutCtx(0);
    InRange(c.prog.cfg, x);
  }

  lemma {:induction false} AllSubtrees(c: Ctx, x: Point)
    requires Sound(c) && Reachable(c.prog.cfg, x) && x < |c.children|
    ensures forall y :: InSubtrees(c, x, |c.children[x]|, y) <==> StrictlyDominates(c.prog.cfg, x, y)
  {
    assert ShutCtx(0);
    InRange(c.prog.cfg, x);
    forall y | StrictlyDominates(c.prog.cfg, x, y) ensures InSubtrees(c, x, |c.children[x]|, y) {
      var d := InSomeSubtree(c.prog.cfg, x, y);
      assert d in c.children[x];
    }
    forall y | InSubtrees(c, x, |c.children[x]|, y) ensures StrictlyDominates(c.prog.cfg, x, y) {
      var j :| 0 <= j < |c.children[x]| && Dominates(c.prog.cfg, c.children[x][j], y);
      assert c.children[x][j] in c.children[x];
      StrictTransitive(c.prog.cfg, x, c.children[x][j], y);
    }
  }

  lemma {:induction false} StrictTransitive(g: Cfg, a: Point, b: Point, x: Point)
    requires StrictlyDominates(g, a, b) && Dominates(g, b, x)
    ensures StrictlyDominates(g, a, x)
  {
    Transitive(g, a, b, x);
    if a == x {
      Antisymmetric(g, a, b);
    }
  }

  /** The next child can be visited. */
  lemma {:induction false} ChildReady(c: Ctx, x: Point, i: nat, before: map<Point, Stacks>, leave: map<Point, Stacks>, stacks: Stacks)
    requires Sound(c) && Reachable(c.prog.cfg, x) && x < |c.children| && i < |c.children[x]|
    requires x in before && before[x] == stacks && forall y :: StrictlyDominates(c.prog.cfg, x, y) ==> y !in before
    requires forall y :: y in leave <==> y in before || InSubtrees(c, x, i, y)
    requires forall y :: y in before ==> leave[y] == before[y]
    ensures var k := c.children[x][i];
            && Reachable(c.prog.cfg, k) && k != c.prog.cfg.entry && Depth(c.prog.cfg, x) < Depth(c.prog.cfg, k) <= c.prog.cfg.size
            && (forall y :: Dominates(c.prog.cfg, k, y) ==> y !in leave)
            && (forall d :: d in leave && d < |c.children| && k in c.children[d] ==> leave[d] == stacks)
            && (forall y :: InSubtrees(c, x, i + 1, y) <==> InSubtrees(c, x, i, y) || Dominates(c.prog.cfg, k, y))
  {
    assert ShutCtx(0);
    var g, k := c.prog.cfg, c.children[x][i];
    InRange(g, x);
    assert k in c.children[x];
    EntryHasNoDominator(g, x);
    Deeper(g, x, k);
    DepthBounded(g, k);
    forall y | Dominates(g, k, y) ensures y !in leave {
      StrictTransitive(g, x, k, y);
      if InSubtrees(c, x, i, y) {
        var j :| 0 <= j < i && Dominates(g, c.children[x][j], y);
        assert c.children[x][j] in c.children[x];
        SiblingsDisjoint(g, x, c.children[x][j], k, y);
      }
    }
    forall d | d in leave && d < |c.children| && k in c.children[d] ensures leave[d] == stacks {
      ImmediateDominatorUnique(g, x, d, k);
    }
  }

  /** From the pushes of `x` to the end of its visit. */
  lemma {:induction false} VisitEnds(c: Ctx, st: State, st1: State, st': State, x: Point)
    requires Sound(c) && Inv(c, st) && x !in st.leave && PushesDone(c, st, st1, x)
    requires st'.leave == st.leave[x := st1.stacks] && st'.enter == st.enter[x := st.stacks]
    requires st'.stacks == st1.stacks && st'.nextId == st1.nextId && st'.sites == st1.sites && st'.targets == st1.targets
    requires AllSameTargets(st1.phis, st'.phis) && AllOperandsOk(c.prog.cfg, st'.leave, c.prog.cfg.size, multiset{}, st'.phis)
    requires VisibleOk(c, st', x)
    requires forall y :: y != x ==> (y in st'.visible <==> y in st.visible) && (y in st'.visible ==> st'.visible[y] == st.visible[y])
    ensures Visited(c, st, st', x)
  {
    forall y ensures ShapeAt(ListAt(c.placed, y), ListAt(st'.phis, y)) {
      assert ShapeAt(ListAt(c.placed, y), ListAt(st1.phis, y));
      assert SameTargets(ListAt(st1.phis, y), ListAt(st'.phis, y));
    }
    VisitedTargets(c, st1.sites, st1.phis, st'.phis, x);
    SitesLeft(c, st1.sites, st.leave, x, st1.stacks);
    forall y | y in st.leave ensures Keeps(st, st', y) {
      OthersKept(st, st1, st', x, y);
    }
  }

  lemma {:induction false} SitesLeft(c: Ctx, sites: map<Version, Site>, leave: map<Point, Stacks>, x: Point, stacks: Stacks)
    requires Sound(c) && SitesFrom(sites, leave, Pushes(c.prog, c.placed, c.starts, x))
    ensures SitesFrom(sites, leave[x := stacks], Nothing)
  {
    PushesOnce(c, x);
  }

  lemma {:induction false} OthersKept(st: State, st1: State, st': State, x: Point, y: Point)
    requires y != x && y in st.leave && y in st.enter
    requires st'.leave == st.leave[x := st1.stacks] && st'.enter == st.enter[x := st.stacks]
    requires ListAt(st1.phis, y) == ListAt(st.phis, y) && ListAt(st'.targets, y) == ListAt(st.targets, y) && Extends(st.sites, st'.sites)
    requires AllSameTargets(st1.phis, st'.phis)
    requires (y in st'.visible <==> y in st.visible) && (y in st'.visible ==> st'.visible[y] == st.visible[y])
    ensures Keeps(st, st', y)
  {
    assert SameTargets(ListAt(st1.phis, y), ListAt(st'.phis, y));
  }

  lemma {:induction false} VisitedTargets(c: Ctx, sites: map<Version, Site>, phis: map<Point, seq<Phi>>, phis': map<Point, seq<Phi>>, x: Point)
    requires AllSameTargets(phis, phis') && PhiTargetsOk(c, sites, phis, x, |ListAt(phis, x)|)
    ensures PhiTargetsOk(c, sites, phis', x, |ListAt(phis', x)|)
  {
    assert SameTargets(ListAt(phis, x), ListAt(phis', x));
    assert forall i :: 0 <= i < |ListAt(phis, x)| ==> MadeAt(sites, ListAt(phis, x)[i].target, PhiSite(x, i), ListAt(phis, x)[i].sym);
  }

  lemma {:induction false} MoreSites(c: Ctx, s0: map<Version, Site>, sites: map<Version, Site>, phis: map<Point, seq<Phi>>, x: Point)
    requires PhiTargetsOk(c, s0, phis, x, |ListAt(phis, x)|) && Extends(s0, sites)
    ensures PhiTargetsOk(c, sites, phis, x, |ListAt(phis, x)|)
  {
    assert Shut(0);
  }

  lemma {:induction false} SaveTargetOk(c: Ctx, s0: map<Version, Site>, sites: map<Version, Site>, ts: seq<Target>, vs: seq<Option<Version>>, x: Point, i: nat, v: Version)
    requires AssignTargetsOk(c, s0, ts, vs, x, i) && i < |ts| && Extends(s0, sites)
    requires Renamed(c.prog, TargetSymbol(ts[i])) && MadeAt(sites, v, TargetSite(x, i), TargetSymbol(ts[i]))
    ensures AssignTargetsOk(c, sites, ts, vs[i := Some(v)], x, i + 1)
  {
    assert Shut(0);
    forall j | 0 <= j < i ensures TargetOk(c, sites, ts[j], vs[j], x, j) {
      assert TargetOk(c, s0, ts[j], vs[j], x, j);
    }
  }

  lemma {:induction false} SetTargetOk(c: Ctx, s0: map<Version, Site>, sites: map<Version, Site>, f0: seq<Phi>, fs: seq<Phi>, x: Point, i: nat, v: Version)
    requires i < |f0| && Extends(s0, sites) && fs == f0[i := f0[i].(target := v)] && MadeAt(sites, v, PhiSite(x, i), f0[i].sym)
    requires forall j :: 0 <= j < i ==> MadeAt(s0, f0[j].target, PhiSite(x, j), f0[j].sym)
    ensures forall j :: 0 <= j < i + 1 ==> MadeAt(sites, fs[j].target, PhiSite(x, j), fs[j].sym)
  {
    assert Shut(0);
  }
}
