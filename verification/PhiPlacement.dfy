/**
 The first half of SSA construction (compiler/cfg/ssa.go): where each symbol is
 defined, and the worklist that places phi nodes on iterated dominance frontiers.
 */
module PhiPlacement {
  import opened Dominance

  /** Symbol identifiers; 0 stands for an unresolved name. */
  type Sym = nat

  /** Identity of a visibility map, which several points may share. */
  type VisId = nat

  datatype Target = Ident(symbol: Sym) | Field(baseSymbol: Sym) | Index(baseSymbol: Sym) | Unknown

  datatype Info = Assign(targets: seq<Target>) | FuncDef(funcSymbol: Sym, isGlobal: bool)

  /** What SSA construction reads. `names` gives the display name of every symbol
      that needs versions; `declaredAtStart` are the symbols declared at point 0. */
  datatype Program = Program(
    cfg: Cfg,
    info: map<Point, Info>,
    names: map<Sym, string>,
    declaredAtStart: set<Sym>,
    visibility: map<Point, VisId>,
    tables: map<VisId, map<string, Sym>>,
    globals: map<string, Sym>)

  function TargetSymbol(t: Target): Sym {
    match t
    case Ident(s) => s
    case Field(s) => s
    case Index(s) => s
    case Unknown => 0
  }

  // ----- visibility -----

  function TableOf(prog: Program, v: VisId): map<string, Sym> {
    if v in prog.tables then prog.tables[v] else map[]
  }

  /** The name of the symbol resolves to the symbol: locals shadow globals. */
  predicate VisibleIn(prog: Program, v: VisId, sym: Sym) {
    && sym in prog.names
    && var name, t := prog.names[sym], TableOf(prog, v);
       if name in t then t[name] == sym else name in prog.globals && prog.globals[name] == sym
  }

  predicate VisibleAt(prog: Program, y: Point, sym: Sym) {
    y in prog.visibility && VisibleIn(prog, prog.visibility[y], sym)
  }

  // ----- definitions -----

  /** The statement at `x` assigns `sym`. */
  ghost predicate AssignedAt(prog: Program, x: Point, sym: Sym) {
    && x in prog.info && sym != 0
    && match prog.info[x]
       case Assign(ts) => exists i :: 0 <= i < |ts| && TargetSymbol(ts[i]) == sym
       case FuncDef(s, isGlobal) => isGlobal && s == sym
  }

  ghost predicate DefinedAt(prog: Program, x: Point, sym: Sym) {
    sym in prog.names && (AssignedAt(prog, x, sym) || (sym in prog.declaredAtStart && x == prog.cfg.entry))
  }

  function ListAt<K, V>(m: map<K, seq<V>>, k: K): seq<V> {
    if k in m then m[k] else []
  }

  method AddPoint(defs: map<Sym, seq<Point>>, sym: Sym, x: Point) returns (r: map<Sym, seq<Point>>)
    ensures forall s: Sym, q: Point :: q in ListAt(r, s) <==> q in ListAt(defs, s) || (s == sym && q == x)
  {
    r := defs[sym := ListAt(defs, sym) + [x]];
  }

  method AddDef(prog: Program, defs: map<Sym, seq<Point>>, sym: Sym, x: Point) returns (r: map<Sym, seq<Point>>)
    ensures forall s: Sym, q: Point :: q in ListAt(r, s) <==> q in ListAt(defs, s) || (s == sym && q == x && sym != 0 && sym in prog.names)
  {
    r := defs;
    if sym != 0 && sym in prog.names {
      r := AddPoint(defs, sym, x);
    }
  }

  method AddStatement(prog: Program, defs: map<Sym, seq<Point>>, x: Point) returns (r: map<Sym, seq<Point>>)
    ensures forall s: Sym, q: Point :: q in ListAt(r, s) <==> q in ListAt(defs, s) || (q == x && s in prog.names && AssignedAt(prog, x, s))
  {
    r := defs;
    if x in prog.info {
      match prog.info[x] {
        case Assign(ts) =>
          for i := 0 to |ts|
            invariant forall s: Sym, q: Point :: q in ListAt(r, s) <==>
                        q in ListAt(defs, s) || (q == x && s != 0 && s in prog.names && exists j :: 0 <= j < i && TargetSymbol(ts[j]) == s)
          {
            r := AddDef(prog, r, TargetSymbol(ts[i]), x);
          }
        case FuncDef(sym, isGlobal) =>
          if isGlobal {
            r := AddDef(prog, r, sym, x);
          }
      }
    }
  }

  /** The definition points of every symbol, the entry standing for a declaration
      that precedes the code. */
  method CollectDefPoints(prog: Program) returns (defs: map<Sym, seq<Point>>)
    requires WellFormed(prog.cfg)
    ensures forall s: Sym, q: Point :: q in ListAt(defs, s) <==> (q < prog.cfg.size && DefinedAt(prog, q, s))
  {
    defs := map[];
    var todo := prog.names.Keys;
    while todo != {}
      invariant todo <= prog.names.Keys
      invariant forall s: Sym, q: Point :: q in ListAt(defs, s) <==>
                  s in prog.names && s !in todo && s in prog.declaredAtStart && q == prog.cfg.entry
      decreases |todo|
    {
      var sym :| sym in todo;
      todo := todo - {sym};
      if sym in prog.declaredAtStart {
        defs := AddPoint(defs, sym, prog.cfg.entry);
      }
    }
    for x := 0 to prog.cfg.size
      invariant forall s: Sym, q: Point :: q in ListAt(defs, s) <==>
                  s in prog.names && ((s in prog.declaredAtStart && q == prog.cfg.entry) || (q < x && AssignedAt(prog, q, s)))
    {
      defs := AddStatement(prog, defs, x);
    }
  }

  // ----- iterated frontiers -----

  /** A chain of frontier steps from a definition, all of whose later points see
      the symbol. */
  ghost predicate Chain(prog: Program, df: seq<seq<Point>>, defs: seq<Point>, sym: Sym, c: seq<Point>) {
    && |c| >= 2 && c[0] in defs && c[0] < prog.cfg.size
    && forall i :: 0 < i < |c| ==> Step(prog, df, sym, c[i - 1], c[i])
  }

  ghost predicate Step(prog: Program, df: seq<seq<Point>>, sym: Sym, d: Point, y: Point) {
    d < |df| && y in df[d] && y < prog.cfg.size && VisibleAt(prog, y, sym)
  }

  /** The points where the symbol needs a phi. */
  ghost predicate NeedsPhi(prog: Program, df: seq<seq<Point>>, defs: seq<Point>, sym: Sym, y: Point) {
    exists c :: Chain(prog, df, defs, sym, c) && c[|c| - 1] == y
  }

  /** The set that needs phis is closed under frontier steps. */
  lemma {:induction false} NeedsStep(prog: Program, df: seq<seq<Point>>, defs: seq<Point>, sym: Sym, d: Point, y: Point)
    requires Step(prog, df, sym, d, y)
    requires (d in defs && d < prog.cfg.size) || NeedsPhi(prog, df, defs, sym, d)
    ensures NeedsPhi(prog, df, defs, sym, y)
  {
    if d in defs && d < prog.cfg.size {
      assert Chain(prog, df, defs, sym, [d, y]) && [d, y][1] == y;
    } else {
      var c :| Chain(prog, df, defs, sym, c) && c[|c| - 1] == d;
      assert Chain(prog, df, defs, sym, c + [y]) && (c + [y])[|c|] == y;
    }
  }

  /** It is the least such set: any closed set holds every chain. */
  lemma {:induction false} NeedsLeast(prog: Program, df: seq<seq<Point>>, defs: seq<Point>, sym: Sym, c: seq<Point>, closed: set<Point>)
    requires Chain(prog, df, defs, sym, c)
    requires forall d, y :: ((d in defs && d < prog.cfg.size) || d in closed) && Step(prog, df, sym, d, y) ==> y in closed
    ensures c[|c| - 1] in closed
    decreases |c|
  {
    var n := |c| - 1;
    assert Step(prog, df, sym, c[n - 1], c[n]);
    if n > 1 {
      NeedsLeast(prog, df, defs, sym, c[..n], closed);
    }
  }

  // ----- the worklist -----

  type Sites = map<Point, seq<Sym>>

  /** The points whose mark is the current epoch. */
  ghost function Marked(a: array<int>, epoch: int): set<Point>
    reads a
  {
    set x: Point | 0 <= x < a.Length && a[x] == epoch
  }

  /** No mark is of a later epoch. */
  ghost predicate NotAfter(a: array<int>, epoch: int)
    reads a
  {
    forall x :: 0 <= x < a.Length ==> a[x] <= epoch
  }

  method Mark(a: array<int>, epoch: int, x: Point)
    requires x < a.Length && NotAfter(a, epoch)
    modifies a
    ensures Marked(a, epoch) == old(Marked(a, epoch)) + {x} && NotAfter(a, epoch)
  {
    a[x] := epoch;
    assert forall y :: 0 <= y < a.Length && y != x ==> a[y] == old(a[y]);
  }

  /** The lists of `r` are those of `sites` with `sym` added at the points `has`. */
  ghost predicate Added(sites: Sites, r: Sites, has: set<Point>, sym: Sym) {
    forall y {:trigger ListAt(r, y)} :: ListAt(r, y) == if y in has then ListAt(sites, y) + [sym] else ListAt(sites, y)
  }

  lemma {:induction false} AddStep(sites: Sites, r: Sites, has: set<Point>, sym: Sym, y: Point)
    requires Added(sites, r, has, sym) && y !in has
    ensures Added(sites, r[y := ListAt(r, y) + [sym]], has + {y}, sym)
  {
    var r' := r[y := ListAt(r, y) + [sym]];
    forall z ensures ListAt(r', z) == if z in has + {y} then ListAt(sites, z) + [sym] else ListAt(sites, z) {
      assert z != y ==> ListAt(r', z) == ListAt(r, z);
      assert ListAt(r, y) == ListAt(sites, y);
    }
  }

  /** What the worklist keeps: `ever` are the definitions and the points `has` that
      got a phi, and all of these off the worklist, but for `except`, have been
      dealt with. */
  ghost predicate Placing(prog: Program, df: seq<seq<Point>>, defs: seq<Point>, sym: Sym, has: set<Point>, ever: set<Point>, work: seq<Point>, except: int) {
    && (forall d :: d in ever <==> (d in defs && d < prog.cfg.size) || d in has)
    && (forall y :: y in has ==> y < prog.cfg.size && NeedsPhi(prog, df, defs, sym, y))
    && (forall y :: y in work ==> y in ever)
    && (forall d, y :: d in ever && d !in work && d != except && Step(prog, df, sym, d, y) ==> y in has)
  }

  ghost function Unseen(prog: Program, ever: set<Point>): set<Point> {
    set x: Point | x < prog.cfg.size && x !in ever
  }

  method SeedWorklist(prog: Program, defs: seq<Point>, ever: array<int>, epoch: int) returns (work: seq<Point>)
    requires ever.Length == prog.cfg.size && Marked(ever, epoch) == {} && NotAfter(ever, epoch)
    modifies ever
    ensures forall x :: x in Marked(ever, epoch) <==> x in defs && x < prog.cfg.size
    ensures forall x :: x in work <==> x in defs && x < prog.cfg.size
    ensures NotAfter(ever, epoch)
  {
    work := [];
    for i := 0 to |defs|
      invariant forall x :: x in Marked(ever, epoch) <==> x in defs[..i] && x < prog.cfg.size
      invariant forall x :: x in work <==> x in defs[..i] && x < prog.cfg.size
      invariant NotAfter(ever, epoch)
    {
      var d := defs[i];
      assert defs[..i + 1] == defs[..i] + [d];
      if d < prog.cfg.size && ever[d] != epoch {
        Mark(ever, epoch, d);
        work := work + [d];
      }
    }
    assert defs[..|defs|] == defs;
  }

  /** One frontier point of a definition: a phi if the symbol is visible there. */
  method Place(prog: Program, df: seq<seq<Point>>, ghost defs: seq<Point>, sym: Sym, has: array<int>, ever: array<int>, epoch: int,
               ghost base: Sites, sites: Sites, work: seq<Point>, ghost d: Point, y: Point)
    returns (r: Sites, w: seq<Point>)
    requires has != ever && has.Length == ever.Length == prog.cfg.size && NotAfter(has, epoch) && NotAfter(ever, epoch)
    requires Placing(prog, df, defs, sym, Marked(has, epoch), Marked(ever, epoch), work, d)
    requires Added(base, sites, Marked(has, epoch), sym)
    requires d in Marked(ever, epoch) && d < |df| && y in df[d]
    modifies has, ever
    ensures NotAfter(has, epoch) && NotAfter(ever, epoch)
    ensures Placing(prog, df, defs, sym, Marked(has, epoch), Marked(ever, epoch), w, d)
    ensures Added(base, r, Marked(has, epoch), sym)
    ensures Step(prog, df, sym, d, y) ==> y in Marked(has, epoch)
    ensures old(Marked(has, epoch)) <= Marked(has, epoch) && old(Marked(ever, epoch)) <= Marked(ever, epoch)
    ensures w == work || old(Marked(ever, epoch)) != Marked(ever, epoch)
  {
    r, w := sites, work;
    if y < prog.cfg.size && has[y] != epoch && VisibleAt(prog, y, sym) {
      assert y !in Marked(has, epoch);
      PlaceStep(prog, df, defs, sym, Marked(has, epoch), Marked(ever, epoch), work, d, y);
      AddStep(base, r, Marked(has, epoch), sym, y);
      Mark(has, epoch, y);
      r := r[y := ListAt(r, y) + [sym]];
      if ever[y] != epoch {
        assert y !in Marked(ever, epoch);
        Mark(ever, epoch, y);
        w := w + [y];
      } else {
        assert Marked(ever, epoch) == Marked(ever, epoch) + {y};
      }
    }
  }

  lemma {:induction false} PlaceStep(prog: Program, df: seq<seq<Point>>, defs: seq<Point>, sym: Sym, has: set<Point>, ever: set<Point>, work: seq<Point>, d: Point, y: Point)
    requires Placing(prog, df, defs, sym, has, ever, work, d) && d in ever && Step(prog, df, sym, d, y)
    ensures Placing(prog, df, defs, sym, has + {y}, ever + {y}, if y in ever then work else work + [y], d)
  {
    NeedsStep(prog, df, defs, sym, d, y);
  }

  /** All the frontier points of one definition. */
  method PlaceFrontier(prog: Program, df: seq<seq<Point>>, ghost defs: seq<Point>, sym: Sym, has: array<int>, ever: array<int>, epoch: int,
                       ghost base: Sites, sites: Sites, work: seq<Point>, d: Point)
    returns (r: Sites, w: seq<Point>)
    requires has != ever && has.Length == ever.Length == prog.cfg.size && NotAfter(has, epoch) && NotAfter(ever, epoch)
    requires Placing(prog, df, defs, sym, Marked(has, epoch), Marked(ever, epoch), work, d)
    requires Added(base, sites, Marked(has, epoch), sym) && d in Marked(ever, epoch)
    modifies has, ever
    ensures NotAfter(has, epoch) && NotAfter(ever, epoch)
    ensures Placing(prog, df, defs, sym, Marked(has, epoch), Marked(ever, epoch), w, -1)
    ensures Added(base, r, Marked(has, epoch), sym)
    ensures old(Marked(ever, epoch)) <= Marked(ever, epoch)
    ensures w == work || old(Marked(ever, epoch)) != Marked(ever, epoch)
  {
    r, w := sites, work;
    if d < |df| {
      for i := 0 to |df[d]|
        invariant NotAfter(has, epoch) && NotAfter(ever, epoch)
        invariant Placing(prog, df, defs, sym, Marked(has, epoch), Marked(ever, epoch), w, d)
        invariant Added(base, r, Marked(has, epoch), sym)
        invariant forall j :: 0 <= j < i ==> Step(prog, df, sym, d, df[d][j]) ==> df[d][j] in Marked(has, epoch)
        invariant old(Marked(ever, epoch)) <= Marked(ever, epoch)
        invariant w == work || old(Marked(ever, epoch)) != Marked(ever, epoch)
      {
        r, w := Place(prog, df, defs, sym, has, ever, epoch, base, r, w, d, df[d][i]);
      }
    }
  }

  /** The phi points of one symbol: exactly those that need one. */
  method PlaceSymbol(prog: Program, df: seq<seq<Point>>, defs: seq<Point>, sym: Sym, has: array<int>, ever: array<int>, epoch: int, sites: Sites)
    returns (r: Sites)
    requires has != ever && has.Length == ever.Length == prog.cfg.size
    requires NotAfter(has, epoch - 1) && NotAfter(ever, epoch - 1)
    modifies has, ever
    ensures forall y {:trigger ListAt(r, y)} :: ListAt(r, y) == if NeedsPhi(prog, df, defs, sym, y) then ListAt(sites, y) + [sym] else ListAt(sites, y)
    ensures NotAfter(has, epoch) && NotAfter(ever, epoch)
  {
    var work := SeedWorklist(prog, defs, ever, epoch);
    assert Marked(has, epoch) == {};
    r := sites;
    while work != []
      invariant NotAfter(has, epoch) && NotAfter(ever, epoch)
      invariant Placing(prog, df, defs, sym, Marked(has, epoch), Marked(ever, epoch), work, -1)
      invariant Added(sites, r, Marked(has, epoch), sym)
      decreases Unseen(prog, Marked(ever, epoch)), |work|
    {
      ghost var before := Marked(ever, epoch);
      var d := work[|work| - 1];
      assert work == work[..|work| - 1] + [d];
      r, work := PlaceFrontier(prog, df, defs, sym, has, ever, epoch, sites, r, work[..|work| - 1], d);
      Shrinks(prog, before, Marked(ever, epoch));
    }
    MarkedExactly(prog, df, defs, sym, Marked(has, epoch), Marked(ever, epoch));
  }

  lemma {:induction false} Shrinks(prog: Program, a: set<Point>, b: set<Point>)
    requires a <= b && forall x :: x in b ==> x < prog.cfg.size
    ensures Unseen(prog, b) <= Unseen(prog, a) && (a != b ==> Unseen(prog, b) < Unseen(prog, a))
  {
    if a != b {
      var x :| x in b && x !in a;
      assert x in Unseen(prog, a) && x !in Unseen(prog, b);
    }
  }

  /** When the worklist is empty, exactly the points that need a phi have one. */
  lemma {:induction false} MarkedExactly(prog: Program, df: seq<seq<Point>>, defs: seq<Point>, sym: Sym, has: set<Point>, ever: set<Point>)
    requires Placing(prog, df, defs, sym, has, ever, [], -1)
    ensures forall y :: y in has <==> NeedsPhi(prog, df, defs, sym, y)
  {
    forall y | NeedsPhi(prog, df, defs, sym, y) ensures y in has {
      var c :| Chain(prog, df, defs, sym, c) && c[|c| - 1] == y;
      NeedsLeast(prog, df, defs, sym, c, has);
    }
  }

  /** The symbols with a phi at `y`, in order. */
  ghost function PhiSyms(prog: Program, df: seq<seq<Point>>, defs: map<Sym, seq<Point>>, syms: seq<Sym>, y: Point): seq<Sym> {
    if syms == [] then [] else
    var s, before := syms[|syms| - 1], PhiSyms(prog, df, defs, syms[..|syms| - 1], y);
    if NeedsPhi(prog, df, ListAt(defs, s), s, y) then before + [s] else before
  }

  predicate Distinct(s: seq<Sym>) {
    forall i, j :: 0 <= i < j < |s| ==> s[i] != s[j]
  }

  /** Membership in `PhiSyms`, and each symbol at most once. */
  lemma {:induction false} PhiSymsMembers(prog: Program, df: seq<seq<Point>>, defs: map<Sym, seq<Point>>, syms: seq<Sym>, y: Point)
    requires Distinct(syms)
    ensures forall s :: s in PhiSyms(prog, df, defs, syms, y) <==> s in syms && NeedsPhi(prog, df, ListAt(defs, s), s, y)
    ensures Distinct(PhiSyms(prog, df, defs, syms, y))
  {
    if syms != [] {
      var init, last := syms[..|syms| - 1], syms[|syms| - 1];
      PhiSymsMembers(prog, df, defs, init, y);
      assert syms == init + [last] && last !in init;
      DistinctSnoc(PhiSyms(prog, df, defs, init, y), last);
    }
  }

  lemma {:induction false} DistinctSnoc(s: seq<Sym>, x: Sym)
    requires Distinct(s) && x !in s
    ensures Distinct(s + [x])
  {
  }

  /** Phi placement for all symbols, taken in increasing order. */
  method PlacePhis(prog: Program, defs: map<Sym, seq<Point>>, df: seq<seq<Point>>, syms: seq<Sym>) returns (sites: Sites)
    requires forall i :: 0 <= i < |syms| ==> syms[i] in prog.names
    ensures forall y {:trigger ListAt(sites, y)} :: ListAt(sites, y) == PhiSyms(prog, df, defs, syms, y)
  {
    sites := map[];
    var has, ever := new int[prog.cfg.size](_ => 0), new int[prog.cfg.size](_ => 0);
    var epoch := 0;
    for i := 0 to |syms|
      invariant epoch >= 0 && fresh(has) && fresh(ever)
      invariant NotAfter(has, epoch) && NotAfter(ever, epoch)
      invariant forall y {:trigger ListAt(sites, y)} :: ListAt(sites, y) == PhiSyms(prog, df, defs, syms[..i], y)
    {
      var sym := syms[i];
      assert syms[..i + 1][..i] == syms[..i] && syms[..i + 1][i] == sym;
      if ListAt(defs, sym) != [] {
        epoch := epoch + 1;
        sites := PlaceSymbol(prog, df, ListAt(defs, sym), sym, has, ever, epoch, sites);
      }
    }
    assert syms[..|syms|] == syms;
  }
}
