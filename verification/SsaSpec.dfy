/**
 What renaming to SSA form keeps at every point (compiler/cfg/ssa.go), stated
 over values: version stacks, phi operands, visible versions and the site that
 made each version.
 */
module SsaSpec {
  import opened Dominance
  import opened PhiPlacement

  datatype Option<T> = None | Some(value: T)

  /** The display name of a version is that of its symbol. */
  datatype Version = Version(symbol: Sym, id: nat)

  datatype Operand = Operand(from: Point, version: Version)

  datatype Phi = Phi(sym: Sym, target: Version, operands: seq<Operand>)

  /** The places that make a version: a phi, the start of the program, the target
      of an assignment, a global function definition. */
  datatype Site =
    | PhiSite(at: Point, i: nat)
    | StartSite(at: Point, sym: Sym)
    | TargetSite(at: Point, i: nat)
    | FuncSite(at: Point)

  type Stacks = map<Sym, seq<Version>>

  type Versions = map<Sym, Version>

  function Top(st: Stacks, s: Sym): Option<Version> {
    var l := ListAt(st, s); if l == [] then None else Some(l[|l| - 1])
  }

  // ----- what a point pushes -----

  /** The pushes of a point so far, the latest outermost. */
  datatype PushList = Nothing | Push(before: PushList, sym: Sym, site: Site)

  /** The pushes `ps` and then those of the first `n` phis. */
  function PhiPushes(ps: PushList, syms: seq<Sym>, x: Point, n: nat): PushList
    requires n <= |syms|
  {
    if n == 0 then ps else Push(PhiPushes(ps, syms, x, n - 1), syms[n - 1], PhiSite(x, n - 1))
  }

  function StartPushes(ps: PushList, starts: seq<Sym>, x: Point, n: nat): PushList
    requires n <= |starts|
  {
    if n == 0 then ps else Push(StartPushes(ps, starts, x, n - 1), starts[n - 1], StartSite(x, starts[n - 1]))
  }

  predicate Renamed(prog: Program, s: Sym) {
    s != 0 && s in prog.names
  }

  function TargetPushes(ps: PushList, prog: Program, ts: seq<Target>, x: Point, n: nat): PushList
    requires n <= |ts|
  {
    if n == 0 then ps else
    var before, s := TargetPushes(ps, prog, ts, x, n - 1), TargetSymbol(ts[n - 1]);
    if Renamed(prog, s) then Push(before, s, TargetSite(x, n - 1)) else before
  }

  function InfoPushes(ps: PushList, prog: Program, x: Point): PushList {
    if x !in prog.info then ps else
    match prog.info[x]
    case Assign(ts) => TargetPushes(ps, prog, ts, x, |ts|)
    case FuncDef(s, isGlobal) => if isGlobal && Renamed(prog, s) then Push(ps, s, FuncSite(x)) else ps
  }

  /** All pushes of a point in order: phis, declarations before the code, then the
      statement itself. `starts` lists the symbols declared before the code. */
  function Pushes(prog: Program, placed: Sites, starts: seq<Sym>, x: Point): PushList {
    var phis := PhiPushes(Nothing, ListAt(placed, x), x, |ListAt(placed, x)|);
    InfoPushes(if x == prog.cfg.entry then StartPushes(phis, starts, x, |starts|) else phis, prog, x)
  }

  /** The sites at which `ps` pushes `s`. */
  function Of(ps: PushList, s: Sym): seq<Site> {
    match ps
    case Nothing => []
    case Push(before, p, site) => if p == s then Of(before, s) + [site] else Of(before, s)
  }

  ghost predicate Has(ps: PushList, site: Site) {
    ps.Push? && (ps.site == site || Has(ps.before, site))
  }

  /** No site pushes twice. */
  ghost predicate OnceEach(ps: PushList) {
    ps.Push? ==> !Has(ps.before, ps.site) && OnceEach(ps.before)
  }

  lemma {:induction false} PhiPushesOnce(syms: seq<Sym>, x: Point, n: nat)
    requires n <= |syms|
    ensures var ps := PhiPushes(Nothing, syms, x, n);
            OnceEach(ps) && forall site :: Has(ps, site) ==> site.PhiSite? && site.at == x && site.i < n
  {
    if n > 0 {
      PhiPushesOnce(syms, x, n - 1);
    }
  }

  lemma {:induction false} StartPushesOnce(ps: PushList, starts: seq<Sym>, x: Point, n: nat)
    requires n <= |starts| && Distinct(starts) && OnceEach(ps) && forall site :: Has(ps, site) ==> site.PhiSite? && site.at == x
    ensures var r := StartPushes(ps, starts, x, n);
            OnceEach(r) && forall site :: Has(r, site) ==> site.at == x && (site.PhiSite? || (site.StartSite? && site.sym in starts[..n]))
  {
    if n > 0 {
      StartPushesOnce(ps, starts, x, n - 1);
      assert starts[..n] == starts[..n - 1] + [starts[n - 1]];
      assert starts[n - 1] !in starts[..n - 1];
    }
  }

  lemma {:induction false} TargetPushesOnce(ps: PushList, prog: Program, ts: seq<Target>, x: Point, n: nat)
    requires n <= |ts| && OnceEach(ps) && forall site :: Has(ps, site) ==> site.at == x && (site.PhiSite? || site.StartSite?)
    ensures var r := TargetPushes(ps, prog, ts, x, n);
            OnceEach(r) && forall site :: Has(r, site) ==> site.at == x && (site.PhiSite? || site.StartSite? || (site.TargetSite? && site.i < n))
  {
    if n > 0 {
      TargetPushesOnce(ps, prog, ts, x, n - 1);
    }
  }

  /** `cur` is `base` with one version on top for each of the pushes `ps`. */
  ghost predicate Pushed(base: Stacks, cur: Stacks, sites: map<Version, Site>, ps: PushList) {
    cur.Keys == base.Keys && forall s {:trigger ListAt(cur, s)} :: PushedAt(ListAt(base, s), ListAt(cur, s), sites, Of(ps, s), s)
  }

  ghost predicate MadeAt(sites: map<Version, Site>, v: Version, site: Site, s: Sym) {
    v in sites && sites[v] == site && v.symbol == s
  }

  ghost predicate PushedAt(base: seq<Version>, cur: seq<Version>, sites: map<Version, Site>, made: seq<Site>, s: Sym) {
    && |cur| == |base| + |made| && cur[..|base|] == base
    && forall j :: |base| <= j < |cur| ==> MadeAt(sites, cur[j], made[j - |base|], s)
  }

  /** Every version made so far has an identifier no larger than the counter, and no
      site made two. */
  ghost predicate SitesOk(sites: map<Version, Site>, nextId: map<Sym, nat>) {
    && (forall v :: v in sites ==> v.symbol in nextId && v.id <= nextId[v.symbol])
    && (forall v, w :: v in sites && w in sites && sites[v] == sites[w] ==> v == w)
  }

  /** All sites so far lie at points that were left, or are those of `ps`. */
  ghost predicate SitesFrom(sites: map<Version, Site>, leave: map<Point, Stacks>, ps: PushList) {
    forall v :: v in sites ==> sites[v].at in leave || Has(ps, sites[v])
  }

  predicate Shut(t: nat) {
    true
  }

  /** No version lost its site. Stated under a token, as are some predicates below,
      so that steps unfold it only where they need it. */
  ghost predicate Extends(a: map<Version, Site>, b: map<Version, Site>) {
    forall t {:trigger Shut(t)} :: Shut(t) ==> forall v {:trigger v in a} :: v in a ==> v in b && b[v] == a[v]
  }

  lemma {:induction false} ExtendsSelf(a: map<Version, Site>)
    ensures Extends(a, a)
  {
  }

  lemma {:induction false} ExtendsTrans(a: map<Version, Site>, b: map<Version, Site>, c: map<Version, Site>)
    requires Extends(a, b) && Extends(b, c)
    ensures Extends(a, c)
  {
    assert Shut(0);
  }

  lemma {:induction false} PushedStable(base: Stacks, cur: Stacks, sites: map<Version, Site>, sites': map<Version, Site>, ps: PushList)
    requires Pushed(base, cur, sites, ps) && Extends(sites, sites')
    ensures Pushed(base, cur, sites', ps)
  {
    assert Shut(0);
    forall s ensures PushedAt(ListAt(base, s), ListAt(cur, s), sites', Of(ps, s), s) {
      assert PushedAt(ListAt(base, s), ListAt(cur, s), sites, Of(ps, s), s);
    }
  }

  lemma {:induction false} PushedNothing(base: Stacks, sites: map<Version, Site>)
    ensures Pushed(base, base, sites, Nothing)
  {
  }

  lemma {:induction false} OneMore(base: seq<Version>, cur: seq<Version>, sites: map<Version, Site>, made: seq<Site>, s: Sym, v: Version, site: Site)
    requires PushedAt(base, cur, sites, made, s) && MadeAt(sites, v, site, s)
    ensures PushedAt(base, cur + [v], sites, made + [site], s)
  {
    assert (cur + [v])[..|base|] == cur[..|base|];
  }

  /** One more version on top. */
  lemma {:induction false} PushedStep(base: Stacks, cur: Stacks, sites: map<Version, Site>, ps: PushList, v: Version, site: Site)
    requires Pushed(base, cur, sites, ps) && v !in sites && v.symbol in cur
    ensures Pushed(base, cur[v.symbol := cur[v.symbol] + [v]], sites[v := site], Push(ps, v.symbol, site))
    ensures Extends(sites, sites[v := site])
  {
    var sites', cur' := sites[v := site], cur[v.symbol := cur[v.symbol] + [v]];
    PushedStable(base, cur, sites, sites', ps);
    forall s ensures PushedAt(ListAt(base, s), ListAt(cur', s), sites', Of(Push(ps, v.symbol, site), s), s) {
      assert PushedAt(ListAt(base, s), ListAt(cur, s), sites', Of(ps, s), s);
      if s == v.symbol {
        OneMore(ListAt(base, s), ListAt(cur, s), sites', Of(ps, s), s, v, site);
      }
    }
  }

  // ----- phi operands -----

  /** How often an operand is sent from `x` to `y`: once for each edge, but not along
      the edge of a point whose only successor is itself. */
  ghost function Sends(g: Cfg, x: Point, y: Point): nat {
    if Edge(g, x, y) && (|g.succs[x]| > 1 || y != x) then multiset(g.succs[x])[y] else 0
  }

  /** How often operands have come from `z` to `y`; from `x`, along the edges `done`. */
  ghost function Came(g: Cfg, x: Point, done: multiset<Point>, z: Point, y: Point): nat {
    if z == x then done[y] else Sends(g, z, y)
  }

  /** The operands of a phi are the versions that left its predecessors, each as often
      as it was sent, and no others. */
  ghost predicate OperandsOk(g: Cfg, leave: map<Point, Stacks>, x: Point, done: multiset<Point>, y: Point, f: Phi) {
    forall o :: multiset(f.operands)[o] == OperandCount(g, leave, x, done, y, f.sym, o)
  }

  ghost function OperandCount(g: Cfg, leave: map<Point, Stacks>, x: Point, done: multiset<Point>, y: Point, sym: Sym, o: Operand): nat {
    if o.from in leave && Top(leave[o.from], sym) == Some(o.version) then Came(g, x, done, o.from, y) else 0
  }

  ghost predicate AllOperandsOk(g: Cfg, leave: map<Point, Stacks>, x: Point, done: multiset<Point>, phis: map<Point, seq<Phi>>) {
    forall y, i :: 0 <= i < |ListAt(phis, y)| ==> OperandsOk(g, leave, x, done, y, ListAt(phis, y)[i])
  }

  function Receive(f: Phi, from: Point, st: Stacks): Phi {
    var l := ListAt(st, f.sym);
    if l == [] then f else f.(operands := f.operands + [Operand(from, l[|l| - 1])])
  }

  /** The phis of `y` received what leaves `x`. */
  lemma {:induction false} ReceiveOk(g: Cfg, leave: map<Point, Stacks>, x: Point, done: multiset<Point>, y: Point, f: Phi)
    requires x in leave && OperandsOk(g, leave, x, done, y, f)
    ensures OperandsOk(g, leave, x, done + multiset{y}, y, Receive(f, x, leave[x]))
  {
    var f' := Receive(f, x, leave[x]);
    forall o ensures multiset(f'.operands)[o] == OperandCount(g, leave, x, done + multiset{y}, y, f.sym, o) {
      assert multiset(f.operands)[o] == OperandCount(g, leave, x, done, y, f.sym, o);
    }
  }

  lemma {:induction false} OtherPhiOk(g: Cfg, leave: map<Point, Stacks>, x: Point, done: multiset<Point>, w: Point, y: Point, f: Phi)
    requires w != y && OperandsOk(g, leave, x, done, w, f)
    ensures OperandsOk(g, leave, x, done + multiset{y}, w, f)
  {
    forall o ensures multiset(f.operands)[o] == OperandCount(g, leave, x, done + multiset{y}, w, f.sym, o) {
      assert multiset(f.operands)[o] == OperandCount(g, leave, x, done, w, f.sym, o);
    }
  }

  lemma {:induction false} SendOk(g: Cfg, leave: map<Point, Stacks>, x: Point, done: multiset<Point>, y: Point, phis: map<Point, seq<Phi>>, phis': map<Point, seq<Phi>>)
    requires x in leave && AllOperandsOk(g, leave, x, done, phis)
    requires forall w :: w != y ==> ListAt(phis', w) == ListAt(phis, w)
    requires |ListAt(phis', y)| == |ListAt(phis, y)|
    requires forall i :: 0 <= i < |ListAt(phis, y)| ==> ListAt(phis', y)[i] == Receive(ListAt(phis, y)[i], x, leave[x])
    ensures AllOperandsOk(g, leave, x, done + multiset{y}, phis')
  {
    forall w, i | 0 <= i < |ListAt(phis', w)| ensures OperandsOk(g, leave, x, done + multiset{y}, w, ListAt(phis', w)[i]) {
      if w == y {
        ReceiveOk(g, leave, x, done, y, ListAt(phis, y)[i]);
      } else {
        OtherPhiOk(g, leave, x, done, w, y, ListAt(phis, w)[i]);
      }
    }
  }

  /** Two accounts of what was sent that agree. */
  lemma {:induction false} SameCounts(g: Cfg, leave: map<Point, Stacks>, x: Point, done: multiset<Point>, leave': map<Point, Stacks>, x': Point, done': multiset<Point>, phis: map<Point, seq<Phi>>)
    requires AllOperandsOk(g, leave, x, done, phis)
    requires forall z, y :: z in leave ==> z in leave' && leave'[z] == leave[z] && Came(g, x', done', z, y) == Came(g, x, done, z, y)
    requires forall z, y :: z in leave' && z !in leave ==> Came(g, x', done', z, y) == 0
    ensures AllOperandsOk(g, leave', x', done', phis)
  {
    forall y, i | 0 <= i < |ListAt(phis, y)| ensures OperandsOk(g, leave', x', done', y, ListAt(phis, y)[i]) {
      var f := ListAt(phis, y)[i];
      assert OperandsOk(g, leave, x, done, y, f);
      forall o ensures multiset(f.operands)[o] == OperandCount(g, leave', x', done', y, f.sym, o) {
        assert multiset(f.operands)[o] == OperandCount(g, leave, x, done, y, f.sym, o);
        assert Came(g, x', done', o.from, y) == Came(g, x', done', o.from, y);
      }
    }
  }

  /** A point that has sent nothing yet. */
  lemma {:induction false} BeginSending(g: Cfg, leave: map<Point, Stacks>, w: Point, all: multiset<Point>, x: Point, st: Stacks, phis: map<Point, seq<Phi>>)
    requires AllOperandsOk(g, leave, w, all, phis) && x !in leave && forall y :: all[y] == Sends(g, w, y)
    ensures AllOperandsOk(g, leave[x := st], x, multiset{}, phis)
  {
    SameCounts(g, leave, w, all, leave[x := st], x, multiset{}, phis);
  }

  /** Once a point has sent to all its successors, it is like any other. */
  lemma {:induction false} EndSending(g: Cfg, leave: map<Point, Stacks>, x: Point, done: multiset<Point>, w: Point, all: multiset<Point>, phis: map<Point, seq<Phi>>)
    requires AllOperandsOk(g, leave, x, done, phis) && (forall y :: done[y] == Sends(g, x, y)) && (forall y :: all[y] == Sends(g, w, y))
    ensures AllOperandsOk(g, leave, w, all, phis)
  {
    SameCounts(g, leave, x, done, leave, w, all, phis);
  }

  // ----- visible versions -----

  /** The recorded versions of the visible symbols are the stack tops. */
  ghost predicate Agrees(prog: Program, v: VisId, m: Versions, st: Stacks) {
    forall s :: VisibleIn(prog, v, s) ==> (if s in m then Some(m[s]) else None) == Top(st, s)
  }
}
