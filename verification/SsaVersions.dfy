/**
 Which version of a symbol is the current one behind a point of the program, said
 without stacks: what the point itself makes last, or what is current behind its
 immediate dominator. SSA construction (compiler/cfg/ssa.go) records exactly these
 versions and sends exactly these to phis.
 */
module SsaVersions {
  import opened Dominance
  import opened PhiPlacement
  import opened SsaSpec
  import opened SsaRename
  import opened Ssa

  // ----- visible symbols -----

  /** A symbol is visible where its name means it: a local of that name, or else a global. */
  lemma {:induction false} VisibleNames(prog: Program, v: VisId, s: Sym, r: Sym)
    ensures s !in prog.names ==> !VisibleIn(prog, v, s)
    ensures s in prog.names && v in prog.tables && prog.names[s] in prog.tables[v] ==> (VisibleIn(prog, v, s) <==> prog.tables[v][prog.names[s]] == s)
    ensures s in prog.names && (v !in prog.tables || prog.names[s] !in prog.tables[v]) ==>
              (VisibleIn(prog, v, s) <==> prog.names[s] in prog.globals && prog.globals[prog.names[s]] == s)
    ensures VisibleIn(prog, v, s) && VisibleIn(prog, v, r) && prog.names[s] == prog.names[r] ==> s == r
  {
  }

  // ----- what a point makes last -----

  /** The target assigns the symbol: it is its name, or a field or an element of it. */
  predicate Assigns(t: Target, s: Sym) {
    s != 0 && (t == Ident(s) || t == Field(s) || t == Index(s))
  }

  ghost predicate AssignsHere(prog: Program, x: Point, s: Sym) {
    && s in prog.names && x in prog.info && s != 0
    && match prog.info[x]
       case Assign(ts) => exists i :: 0 <= i < |ts| && Assigns(ts[i], s)
       case FuncDef(f, isGlobal) => isGlobal && f == s
  }

  ghost predicate StartsHere(prog: Program, x: Point, s: Sym) {
    s in prog.names && s in prog.declaredAtStart && x == prog.cfg.entry
  }

  /** A point defines what its statement assigns, and the entry what is declared before
      the code. */
  lemma {:induction false} DefinedExactly(prog: Program, x: Point, s: Sym)
    ensures DefinedAt(prog, x, s) <==> AssignsHere(prog, x, s) || StartsHere(prog, x, s)
  {
    if x in prog.info && prog.info[x].Assign? {
      var ts := prog.info[x].targets;
      forall i | 0 <= i < |ts| && s != 0 ensures TargetSymbol(ts[i]) == s <==> Assigns(ts[i], s) {
      }
    }
  }

  /** The last target of the statement that assigns the symbol. */
  ghost predicate LastTarget(ts: seq<Target>, s: Sym, i: int) {
    0 <= i < |ts| && Assigns(ts[i], s) && forall j :: i < j < |ts| ==> !Assigns(ts[j], s)
  }

  ghost predicate LastPhi(syms: seq<Sym>, s: Sym, i: int) {
    0 <= i < |syms| && syms[i] == s && forall j :: i < j < |syms| ==> syms[j] != s
  }

  /** `v` is the version of `s` that `x` makes last: that of its statement, or of a
      declaration before the code, or of its phi. */
  ghost predicate MadeHere(c: Ctx, st: State, x: Point, s: Sym, v: Version) {
    if AssignsHere(c.prog, x, s) then
      match c.prog.info[x]
      case Assign(ts) => exists i :: LastTarget(ts, s, i) && i < |ListAt(st.targets, x)| && ListAt(st.targets, x)[i] == Some(v)
      case FuncDef(_, _) => MadeAt(st.sites, v, FuncSite(x), s)
    else if StartsHere(c.prog, x, s) then MadeAt(st.sites, v, StartSite(x, s), s)
    else exists i :: LastPhi(ListAt(c.placed, x), s, i) && i < |ListAt(st.phis, x)| && ListAt(st.phis, x)[i].target == v
  }

  /** `x` has a phi for `s` or defines it. */
  ghost predicate Makes(c: Ctx, x: Point, s: Sym) {
    AssignsHere(c.prog, x, s) || StartsHere(c.prog, x, s) || s in ListAt(c.placed, x)
  }

  /** `v` is the version of `s` behind `x`, if there is one: what `x` makes last, or what
      is current behind its immediate dominator. */
  ghost predicate Current(c: Ctx, st: State, x: Point, s: Sym, v: Option<Version>)
    decreases Depth(c.prog.cfg, x)
  {
    if Makes(c, x, s) then v.Some? && MadeHere(c, st, x, s, v.value)
    else if x == c.prog.cfg.entry then v.None?
    else exists e :: ImmediatelyDominates(c.prog.cfg, e, x) && Depth(c.prog.cfg, e) < Depth(c.prog.cfg, x) && Current(c, st, e, s, v)
  }

  // ----- the last push of a point -----

  ghost predicate EndsWith(sites: seq<Site>, site: Site) {
    sites != [] && sites[|sites| - 1] == site
  }

  lemma {:induction false} LastTargetPush(ps: PushList, prog: Program, ts: seq<Target>, x: Point, s: Sym, n: nat) returns (i: nat)
    requires n <= |ts| && Renamed(prog, s)
    ensures (exists j :: 0 <= j < n && Assigns(ts[j], s)) ==>
              i < n && Assigns(ts[i], s) && (forall j :: i < j < n ==> !Assigns(ts[j], s)) && EndsWith(Of(TargetPushes(ps, prog, ts, x, n), s), TargetSite(x, i))
    ensures (forall j :: 0 <= j < n ==> !Assigns(ts[j], s)) ==> Of(TargetPushes(ps, prog, ts, x, n), s) == Of(ps, s)
  {
    i := 0;
    if n > 0 {
      var k := LastTargetPush(ps, prog, ts, x, s, n - 1);
      i := if Assigns(ts[n - 1], s) then n - 1 else k;
    }
  }

  lemma {:induction false} LastStartPush(ps: PushList, starts: seq<Sym>, x: Point, s: Sym, n: nat)
    requires n <= |starts|
    ensures if s in starts[..n] then EndsWith(Of(StartPushes(ps, starts, x, n), s), StartSite(x, s)) else Of(StartPushes(ps, starts, x, n), s) == Of(ps, s)
  {
    if n > 0 {
      LastStartPush(ps, starts, x, s, n - 1);
      assert starts[..n] == starts[..n - 1] + [starts[n - 1]];
    }
  }

  lemma {:induction false} LastPhiPush(syms: seq<Sym>, x: Point, s: Sym, n: nat) returns (i: nat)
    requires n <= |syms|
    ensures s in syms[..n] ==> i < n && syms[i] == s && (forall j :: i < j < n ==> syms[j] != s) && EndsWith(Of(PhiPushes(Nothing, syms, x, n), s), PhiSite(x, i))
  {
    i := 0;
    if n > 0 {
      var k := LastPhiPush(syms, x, s, n - 1);
      assert syms[..n] == syms[..n - 1] + [syms[n - 1]];
      i := if syms[n - 1] == s then n - 1 else k;
    }
  }

  /** The site of the last version of `s` that `x` makes. */
  ghost predicate LastSite(c: Ctx, x: Point, s: Sym, site: Site) {
    if AssignsHere(c.prog, x, s) then
      match c.prog.info[x]
      case Assign(ts) => exists i :: LastTarget(ts, s, i) && site == TargetSite(x, i)
      case FuncDef(_, _) => site == FuncSite(x)
    else if StartsHere(c.prog, x, s) then site == StartSite(x, s)
    else exists i :: LastPhi(ListAt(c.placed, x), s, i) && site == PhiSite(x, i)
  }

  lemma {:induction false} LastPush(c: Ctx, x: Point, s: Sym) returns (site: Site)
    requires Sound(c) && Makes(c, x, s)
    ensures LastSite(c, x, s, site) && EndsWith(Of(Pushes(c.prog, c.placed, c.starts, x), s), site)
  {
    var l := ListAt(c.placed, x);
    var phis := PhiPushes(Nothing, l, x, |l|);
    var before := if x == c.prog.cfg.entry then StartPushes(phis, c.starts, x, |c.starts|) else phis;
    if AssignsHere(c.prog, x, s) {
      site := LastStatementPush(c.prog, x, s, before);
    } else {
      NoStatementPush(c.prog, x, s, before);
      assert c.starts[..|c.starts|] == c.starts && l[..|l|] == l;
      assert s in c.starts <==> s in c.prog.names && s in c.prog.declaredAtStart by {
        assert ShutCtx(0);
      }
      LastStartPush(phis, c.starts, x, s, |c.starts|);
      if StartsHere(c.prog, x, s) {
        site := StartSite(x, s);
      } else {
        var i := LastPhiPush(l, x, s, |l|);
        assert LastPhi(l, s, i);
        site := PhiSite(x, i);
        assert s in c.prog.names by {
          assert ShutCtx(0);
        }
      }
    }
  }

  lemma {:induction false} LastStatementPush(prog: Program, x: Point, s: Sym, before: PushList) returns (site: Site)
    requires AssignsHere(prog, x, s)
    ensures match prog.info[x]
            case Assign(ts) => exists i :: LastTarget(ts, s, i) && site == TargetSite(x, i)
            case FuncDef(_, _) => site == FuncSite(x)
    ensures EndsWith(Of(InfoPushes(before, prog, x), s), site)
  {
    match prog.info[x]
    case Assign(ts) =>
      var i := LastTargetPush(before, prog, ts, x, s, |ts|);
      assert LastTarget(ts, s, i);
      site := TargetSite(x, i);
    case FuncDef(_, _) =>
      site := FuncSite(x);
  }

  lemma {:induction false} NoStatementPush(prog: Program, x: Point, s: Sym, before: PushList)
    requires !AssignsHere(prog, x, s)
    ensures Of(InfoPushes(before, prog, x), s) == Of(before, s)
  {
    if x in prog.info && prog.info[x].Assign? {
      var ts := prog.info[x].targets;
      if Renamed(prog, s) {
        var i := LastTargetPush(before, prog, ts, x, s, |ts|);
      } else {
        NotRenamed(before, prog, ts, x, s, |ts|);
      }
    }
  }

  lemma {:induction false} NotRenamed(ps: PushList, prog: Program, ts: seq<Target>, x: Point, s: Sym, n: nat)
    requires n <= |ts| && !Renamed(prog, s)
    ensures Of(TargetPushes(ps, prog, ts, x, n), s) == Of(ps, s)
  {
    if n > 0 {
      NotRenamed(ps, prog, ts, x, s, n - 1);
    }
  }

  // ----- what leaves a point is current -----

  lemma {:induction false} SitesDiffer(c: Ctx, st: State, df: seq<seq<Point>>, defs: map<Sym, seq<Point>>, v: Version, w: Version)
    requires Complete(c, st, df, defs) && v in st.sites && w in st.sites && st.sites[v] == st.sites[w]
    ensures v == w
  {
    assert Whole(0);
  }

  /** The version on top behind a point that makes one. */
  lemma {:induction false} TopSite(c: Ctx, st: State, df: seq<seq<Point>>, defs: map<Sym, seq<Point>>, x: Point, s: Sym, site: Site)
    requires Complete(c, st, df, defs) && Reachable(c.prog.cfg, x) && EndsWith(Of(Pushes(c.prog, c.placed, c.starts, x), s), site)
    ensures x in st.leave && Top(st.leave[x], s).Some? && MadeAt(st.sites, Top(st.leave[x], s).value, site, s)
  {
    NodePushed(c, st, df, defs, x);
    var made, cur := Of(Pushes(c.prog, c.placed, c.starts, x), s), ListAt(st.leave[x], s);
    assert PushedAt(ListAt(st.enter[x], s), cur, st.sites, made, s);
    assert MadeAt(st.sites, cur[|cur| - 1], made[|made| - 1], s);
  }

  /** The version of the last site is the one recorded for it. */
  lemma {:induction false} SiteMadeHere(c: Ctx, st: State, df: seq<seq<Point>>, defs: map<Sym, seq<Point>>, x: Point, s: Sym, site: Site, v: Version)
    requires Complete(c, st, df, defs) && Reachable(c.prog.cfg, x) && Makes(c, x, s) && LastSite(c, x, s, site) && MadeAt(st.sites, v, site, s)
    ensures MadeHere(c, st, x, s, v)
  {
    if AssignsHere(c.prog, x, s) {
      if c.prog.info[x].Assign? {
        var i :| LastTarget(c.prog.info[x].targets, s, i) && site == TargetSite(x, i);
        TargetRecorded(c, st, df, defs, x, s, i, v);
      }
    } else if !StartsHere(c.prog, x, s) {
      var i :| LastPhi(ListAt(c.placed, x), s, i) && site == PhiSite(x, i);
      SamePlaces(c, st, df, defs, x);
      PhiMade(c, st, df, defs, x, i);
      SitesDiffer(c, st, df, defs, v, ListAt(st.phis, x)[i].target);
    }
  }

  lemma {:induction false} TargetRecorded(c: Ctx, st: State, df: seq<seq<Point>>, defs: map<Sym, seq<Point>>, x: Point, s: Sym, i: nat, v: Version)
    requires Complete(c, st, df, defs) && Reachable(c.prog.cfg, x) && AssignsHere(c.prog, x, s) && c.prog.info[x].Assign?
    requires LastTarget(c.prog.info[x].targets, s, i) && MadeAt(st.sites, v, TargetSite(x, i), s)
    ensures i < |ListAt(st.targets, x)| && ListAt(st.targets, x)[i] == Some(v)
  {
    assert |ListAt(st.targets, x)| == |c.prog.info[x].targets| by {
      assert Whole(0);
      assert NodeOk(c, st, x);
    }
    TargetMade(c, st, df, defs, x, i);
    assert Renamed(c.prog, TargetSymbol(c.prog.info[x].targets[i]));
    SitesDiffer(c, st, df, defs, v, ListAt(st.targets, x)[i].value);
  }

  /** What leaves a point is what is current behind it. */
  lemma {:induction false} LeavesCurrent(c: Ctx, st: State, df: seq<seq<Point>>, defs: map<Sym, seq<Point>>, x: Point, s: Sym)
    requires Complete(c, st, df, defs) && Reachable(c.prog.cfg, x)
    ensures x in st.leave && Current(c, st, x, s, Top(st.leave[x], s))
    decreases Depth(c.prog.cfg, x)
  {
    assert Sound(c) && x in st.leave by {
      assert Whole(0);
    }
    if Makes(c, x, s) {
      var site := LastPush(c, x, s);
      TopSite(c, st, df, defs, x, s, site);
      SiteMadeHere(c, st, df, defs, x, s, site, Top(st.leave[x], s).value);
    } else {
      DefinedExactly(c.prog, x, s);
      PassesOn(c, st, df, defs, x, s);
      if x == c.prog.cfg.entry {
        EntersEmpty(c, st, df, defs, s);
      } else {
        var e := FromDominator(c, st, df, defs, x);
        LeavesCurrent(c, st, df, defs, e, s);
      }
    }
  }

  lemma {:induction false} EntersEmpty(c: Ctx, st: State, df: seq<seq<Point>>, defs: map<Sym, seq<Point>>, s: Sym)
    requires Complete(c, st, df, defs) && c.prog.cfg.entry in st.enter
    ensures ListAt(st.enter[c.prog.cfg.entry], s) == []
  {
    assert Whole(0);
  }

  lemma {:induction false} FromDominator(c: Ctx, st: State, df: seq<seq<Point>>, defs: map<Sym, seq<Point>>, x: Point) returns (e: Point)
    requires Complete(c, st, df, defs) && Reachable(c.prog.cfg, x) && x != c.prog.cfg.entry
    ensures ImmediatelyDominates(c.prog.cfg, e, x) && Depth(c.prog.cfg, e) < Depth(c.prog.cfg, x) && Reachable(c.prog.cfg, e)
    ensures x in st.enter && e in st.leave && st.enter[x] == st.leave[e]
  {
    assert Whole(0);
    assert ShutCtx(0);
    e := ImmediateDominatorExists(c.prog.cfg, x);
    Deeper(c.prog.cfg, e, x);
    DominatorReachable(c.prog.cfg, e, x);
    InRange(c.prog.cfg, e);
    assert x in c.children[e];
  }

  lemma {:induction false} CurrentAbove(c: Ctx, st: State, x: Point, s: Sym, v: Option<Version>) returns (d: Point)
    requires Current(c, st, x, s, v) && !Makes(c, x, s) && x != c.prog.cfg.entry
    ensures ImmediatelyDominates(c.prog.cfg, d, x) && Depth(c.prog.cfg, d) < Depth(c.prog.cfg, x) && Current(c, st, d, s, v)
  {
    d :| ImmediatelyDominates(c.prog.cfg, d, x) && Depth(c.prog.cfg, d) < Depth(c.prog.cfg, x) && Current(c, st, d, s, v);
  }

  /** There is one current version at most. */
  lemma {:induction false} CurrentUnique(c: Ctx, st: State, df: seq<seq<Point>>, defs: map<Sym, seq<Point>>, x: Point, s: Sym, v: Option<Version>, w: Option<Version>)
    requires Complete(c, st, df, defs) && Current(c, st, x, s, v) && Current(c, st, x, s, w)
    ensures v == w
    decreases Depth(c.prog.cfg, x)
  {
    if Makes(c, x, s) {
      MadeHereUnique(c, st, df, defs, x, s, v.value, w.value);
    } else if x != c.prog.cfg.entry {
      var d := CurrentAbove(c, st, x, s, v);
      var e := CurrentAbove(c, st, x, s, w);
      ImmediateDominatorUnique(c.prog.cfg, d, e, x);
      CurrentUnique(c, st, df, defs, d, s, v, w);
    }
  }

  lemma {:induction false} MadeHereUnique(c: Ctx, st: State, df: seq<seq<Point>>, defs: map<Sym, seq<Point>>, x: Point, s: Sym, v: Version, w: Version)
    requires Complete(c, st, df, defs) && MadeHere(c, st, x, s, v) && MadeHere(c, st, x, s, w)
    ensures v == w
  {
    if AssignsHere(c.prog, x, s) {
      if c.prog.info[x].Assign? {
        var ts := c.prog.info[x].targets;
        var i :| LastTarget(ts, s, i) && i < |ListAt(st.targets, x)| && ListAt(st.targets, x)[i] == Some(v);
        var j :| LastTarget(ts, s, j) && j < |ListAt(st.targets, x)| && ListAt(st.targets, x)[j] == Some(w);
        assert i == j;
      } else {
        SitesDiffer(c, st, df, defs, v, w);
      }
    } else if StartsHere(c.prog, x, s) {
      SitesDiffer(c, st, df, defs, v, w);
    } else {
      var l := ListAt(c.placed, x);
      var i :| LastPhi(l, s, i) && i < |ListAt(st.phis, x)| && ListAt(st.phis, x)[i].target == v;
      var j :| LastPhi(l, s, j) && j < |ListAt(st.phis, x)| && ListAt(st.phis, x)[j].target == w;
      assert i == j;
    }
  }

  // ----- what the construction records -----

  /** The recorded version of a visible symbol is the current one. */
  lemma {:induction false} RecordedIsCurrent(c: Ctx, st: State, df: seq<seq<Point>>, defs: map<Sym, seq<Point>>, x: Point, s: Sym, v: Option<Version>)
    requires Complete(c, st, df, defs) && Reachable(c.prog.cfg, x) && VisibleAt(c.prog, x, s)
    ensures VersionAt(st, x, s) == v <==> Current(c, st, x, s, v)
  {
    RecordedIsTop(c, st, df, defs, x, s);
    LeavesCurrent(c, st, df, defs, x, s);
    if Current(c, st, x, s, v) {
      CurrentUnique(c, st, df, defs, x, s, v, VersionAt(st, x, s));
    }
  }

  /** A phi has, from each predecessor that sends to it, exactly the version that is
      current behind that one. */
  lemma {:induction false} OperandIsCurrent(c: Ctx, st: State, df: seq<seq<Point>>, defs: map<Sym, seq<Point>>, p: Point, y: Point, i: nat, v: Version)
    requires Complete(c, st, df, defs) && Reachable(c.prog.cfg, p) && Edge(c.prog.cfg, p, y) && i < |ListAt(c.placed, y)|
    ensures i < |ListAt(st.phis, y)| && ListAt(st.phis, y)[i].sym == ListAt(c.placed, y)[i]
    ensures Operand(p, v) in ListAt(st.phis, y)[i].operands <==>
            Current(c, st, p, ListAt(c.placed, y)[i], Some(v)) && (|c.prog.cfg.succs[p]| > 1 || y != p)
  {
    EdgeIntoPhi(c, st, df, defs, p, y, i);
    var f := ListAt(st.phis, y)[i];
    LeavesCurrent(c, st, df, defs, p, f.sym);
    var top := Top(st.leave[p], f.sym);
    if Current(c, st, p, f.sym, Some(v)) {
      CurrentUnique(c, st, df, defs, p, f.sym, Some(v), top);
      if |c.prog.cfg.succs[p]| > 1 || y != p {
        var o :| o in f.operands && o.from == p;
        assert o == Operand(p, v);
      }
    }
    if Operand(p, v) in f.operands {
      assert Operand(p, v).from == p;
    }
  }
}
