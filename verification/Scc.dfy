/**
 Strongly connected components by Tarjan's algorithm (internal/scc.go).

 The state is a class as in the source; what every step keeps is stated over
 `St`, a snapshot of that state, with the set of nodes whose visit is still in
 progress (`grey`).
 */
module Scc {

  /** Node identifiers (64-bit in the source) are only compared. */
  type Node = nat

  type Graph = map<Node, seq<Node>>

  function Succ(adj: Graph, x: Node): seq<Node> {
    if x in adj then adj[x] else []
  }

  /** The nodes that occur in the graph, as keys or as successors. */
  function Nodes(adj: Graph): set<Node> {
    adj.Keys + set x, i | x in adj && 0 <= i < |adj[x]| :: adj[x][i]
  }

  // ----- reachability -----

  ghost predicate IsPath(adj: Graph, p: seq<Node>) {
    |p| >= 1 && forall i :: 0 <= i < |p| - 1 ==> p[i + 1] in Succ(adj, p[i])
  }

  ghost predicate PathBetween(adj: Graph, p: seq<Node>, a: Node, b: Node) {
    IsPath(adj, p) && p[0] == a && p[|p| - 1] == b
  }

  ghost predicate Reach(adj: Graph, a: Node, b: Node) {
    exists p :: PathBetween(adj, p, a, b)
  }

  lemma {:induction false} ReachSelf(adj: Graph, a: Node)
    ensures Reach(adj, a, a)
  {
    assert PathBetween(adj, [a], a, a);
  }

  lemma {:induction false} ReachEdge(adj: Graph, a: Node, b: Node)
    requires b in Succ(adj, a)
    ensures Reach(adj, a, b)
  {
    assert PathBetween(adj, [a, b], a, b);
  }

  lemma {:induction false} ReachTrans(adj: Graph, a: Node, b: Node, c: Node)
    requires Reach(adj, a, b) && Reach(adj, b, c)
    ensures Reach(adj, a, c)
  {
    var p :| PathBetween(adj, p, a, b);
    var q :| PathBetween(adj, q, b, c);
    var r := p + q[1..];
    forall i | 0 <= i < |r| - 1 ensures r[i + 1] in Succ(adj, r[i]) {
      if i >= |p| - 1 {
        assert r[i] == q[i - |p| + 1] && r[i + 1] == q[i - |p| + 2];
      }
    }
    assert PathBetween(adj, r, a, c);
  }

  // ----- sorting -----

  predicate Sorted(s: seq<Node>) {
    forall i, j :: 0 <= i < j < |s| ==> s[i] <= s[j]
  }

  function Insert(x: Node, s: seq<Node>): (r: seq<Node>) {
    if s == [] || x <= s[0] then [x] + s else [s[0]] + Insert(x, s[1..])
  }

  /** The library sort of the source, by any method. */
  function Sort(s: seq<Node>): (r: seq<Node>) {
    if s == [] then [] else Insert(s[0], Sort(s[1..]))
  }

  lemma {:induction false} InsertSorted(x: Node, s: seq<Node>)
    requires Sorted(s)
    ensures Sorted(Insert(x, s)) && Insert(x, s) != [] && (Insert(x, s)[0] == x || (s != [] && Insert(x, s)[0] == s[0]))
  {
    if s != [] && x > s[0] {
      InsertSorted(x, s[1..]);
      SortedCons(s[0], Insert(x, s[1..]));
    }
  }

  lemma {:induction false} SortedCons(x: Node, s: seq<Node>)
    requires Sorted(s) && (s != [] ==> x <= s[0])
    ensures Sorted([x] + s)
  {
  }

  lemma {:induction false} InsertPermutes(x: Node, s: seq<Node>)
    ensures multiset(Insert(x, s)) == multiset(s) + multiset{x}
  {
    if s != [] && x > s[0] {
      InsertPermutes(x, s[1..]);
      assert s == [s[0]] + s[1..];
    }
  }

  lemma {:induction false} SortSorts(s: seq<Node>)
    ensures Sorted(Sort(s)) && multiset(Sort(s)) == multiset(s)
  {
    if s == [] {
    } else {
      SortSorts(s[1..]);
      InsertSorted(s[0], Sort(s[1..]));
      InsertPermutes(s[0], Sort(s[1..]));
      assert s == [s[0]] + s[1..];
    }
  }

  lemma {:induction false} SortMembers(s: seq<Node>)
    ensures |Sort(s)| == |s|
    ensures forall x :: x in Sort(s) <==> x in s
  {
    SortSorts(s);
    assert |multiset(s)| == |s| && |multiset(Sort(s))| == |Sort(s)|;
    assert forall x :: x in s <==> x in multiset(s);
    assert forall x :: x in Sort(s) <==> x in multiset(Sort(s));
  }

  /** Strictly increasing, so that nothing occurs twice. */
  predicate Increasing(s: seq<Node>) {
    forall i, j :: 0 <= i < j < |s| ==> s[i] < s[j]
  }

  predicate Distinct(s: seq<Node>) {
    forall i, j :: 0 <= i < j < |s| ==> s[i] != s[j]
  }

  /** What occurs once is sorted to a strictly increasing list. */
  lemma {:induction false} SortIncreasing(s: seq<Node>)
    requires Distinct(s)
    ensures Increasing(Sort(s))
  {
    SortSorts(s);
    var t := Sort(s);
    forall i, j | 0 <= i < j < |t| ensures t[i] < t[j] {
      if t[i] == t[j] {
        TwiceIn(t, i, j);
        OnceIn(s, t[i]);
      }
    }
  }

  lemma {:induction false} OnceIn(s: seq<Node>, x: Node)
    requires Distinct(s)
    ensures multiset(s)[x] <= 1
  {
    if s != [] {
      OnceIn(s[1..], x);
      assert s == [s[0]] + s[1..];
      assert s[0] !in s[1..];
    }
  }

  lemma {:induction false} TwiceIn(s: seq<Node>, i: nat, j: nat)
    requires i < j < |s| && s[i] == s[j]
    ensures multiset(s)[s[i]] >= 2
  {
    assert s == s[..j] + s[j..];
    assert s[..j][i] == s[i] && s[j..][0] == s[i];
  }

  // ----- snapshots and what they keep -----

  datatype St = St(adj: Graph, index: nat, indices: map<Node, nat>, stack: seq<Node>, sccs: seq<seq<Node>>)

  /** The node is in one of the first `n` components. */
  ghost predicate EmittedBy(sccs: seq<seq<Node>>, n: nat, x: Node) {
    exists k :: 0 <= k < n && k < |sccs| && x in sccs[k]
  }

  ghost predicate Emitted(sccs: seq<seq<Node>>, x: Node) {
    EmittedBy(sccs, |sccs|, x)
  }

  ghost predicate StackLess(s: St, i: nat, j: nat)
    requires i < |s.stack| && j < |s.stack|
  {
    s.stack[i] in s.indices && s.stack[j] in s.indices && s.indices[s.stack[i]] < s.indices[s.stack[j]]
  }

  /** The stack is in visit order, and each visited node is either on the stack
      or in exactly one component. */
  ghost predicate Shape(s: St) {
    && (forall x :: x in s.indices ==> s.indices[x] < s.index)
    && (forall x :: x in s.stack ==> x in s.indices)
    && (forall i, j {:trigger StackLess(s, i, j)} :: 0 <= i < j < |s.stack| ==> StackLess(s, i, j))
    && (forall x :: x in s.indices <==> x in s.stack || Emitted(s.sccs, x))
    && (forall x :: x in s.stack ==> !Emitted(s.sccs, x))
  }

  /** Components do not overlap, their members reach each other, and edges leave
      a component only for itself or an earlier one. */
  ghost predicate Components(adj: Graph, sccs: seq<seq<Node>>) {
    && (forall j, k, x :: 0 <= j < k < |sccs| && x in sccs[j] ==> x !in sccs[k])
    && (forall k, x, y :: 0 <= k < |sccs| && x in sccs[k] && y in sccs[k] ==> Reach(adj, x, y))
    && (forall k, x, y :: 0 <= k < |sccs| && x in sccs[k] && y in Succ(adj, x) ==> EmittedBy(sccs, k + 1, y))
    && (forall k {:trigger SortedComponent(sccs, k)} :: 0 <= k < |sccs| ==> SortedComponent(sccs, k))
  }

  ghost predicate SortedComponent(sccs: seq<seq<Node>>, k: nat)
    requires k < |sccs|
  {
    sccs[k] != [] && Increasing(sccs[k])
  }

  /** Earlier stack nodes reach later ones. */
  ghost predicate StackDown(s: St) {
    forall i, j {:trigger StackReach(s, i, j)} :: 0 <= i <= j < |s.stack| ==> StackReach(s, i, j)
  }

  ghost predicate StackReach(s: St, i: nat, j: nat)
    requires i < |s.stack| && j < |s.stack|
  {
    Reach(s.adj, s.stack[i], s.stack[j])
  }

  /** A grey node at or below `y` in the stack that `y` reaches. */
  ghost predicate GreyBelow(s: St, grey: set<Node>, y: Node, x: Node)
    requires y in s.indices
  {
    x in grey && x in s.indices && s.indices[x] <= s.indices[y] && Reach(s.adj, y, x)
  }

  ghost predicate HasGreyBelow(s: St, grey: set<Node>, y: Node) {
    y in s.indices && exists x :: GreyBelow(s, grey, y, x)
  }

  ghost predicate StackUp(s: St, grey: set<Node>) {
    forall y {:trigger HasGreyBelow(s, grey, y)} :: y in s.stack ==> HasGreyBelow(s, grey, y)
  }

  /** A node whose visit has ended has no unvisited successor. */
  ghost predicate NoWhiteEdge(s: St, grey: set<Node>) {
    forall x, y :: x in s.indices && x !in grey && y in Succ(s.adj, x) ==> y in s.indices
  }

  ghost predicate Inv(s: St, grey: set<Node>) {
    && Shape(s)
    && Components(s.adj, s.sccs)
    && (forall x :: x in grey ==> x in s.stack)
    && StackDown(s)
    && StackUp(s, grey)
    && NoWhiteEdge(s, grey)
    && (forall x {:trigger InGraph(s.adj, x)} :: x in s.indices ==> InGraph(s.adj, x))
  }

  ghost predicate InGraph(adj: Graph, x: Node) {
    x in Nodes(adj)
  }

  /** `s'` extends `s`: nothing visited, stacked or emitted is taken back. */
  ghost predicate Grew(s: St, s': St) {
    && s'.adj == s.adj && s.index <= s'.index
    && (forall x :: x in s.indices ==> x in s'.indices && s'.indices[x] == s.indices[x])
    && (forall x :: x in s'.indices && x !in s.indices ==> s'.indices[x] >= s.index)
    && s.stack <= s'.stack && s.sccs <= s'.sccs
  }

  lemma {:induction false} GrewTrans(a: St, b: St, c: St)
    requires Grew(a, b) && Grew(b, c)
    ensures Grew(a, c)
  {
  }

  // ----- the low link -----

  /** `low` is the index of a stacked node that `v` reaches. */
  ghost predicate LowReached(s: St, v: Node, low: nat, y: Node) {
    y in s.stack && y in s.indices && s.indices[y] == low && Reach(s.adj, v, y)
  }

  /** `low` bounds every edge from the stack above `base` down into it, leaving
      out those from `skip`. */
  ghost predicate BoundsEdges(s: St, base: seq<Node>, low: nat, skip: set<Node>)
    requires base <= s.stack
  {
    forall x, y :: x in s.stack[|base|..] && x !in skip && y in Succ(s.adj, x) && y in base ==>
      y in s.indices && low <= s.indices[y]
  }

  ghost predicate LowOk(s: St, s': St, v: Node, low: nat)
    requires Grew(s, s') && v in s'.indices
  {
    && low <= s'.indices[v]
    && (v !in s'.stack ==> low == s'.indices[v] && s'.stack == s.stack)
    && (v in s'.stack ==> exists y :: LowReached(s', v, low, y))
    && BoundsEdges(s', s.stack, low, {})
  }

  // ----- entering a node -----

  function Push(s: St, v: Node): St {
    s.(index := s.index + 1, indices := s.indices[v := s.index], stack := s.stack + [v])
  }

  lemma {:induction false} PushShape(s: St, v: Node)
    requires Shape(s) && v !in s.indices
    ensures Shape(Push(s, v)) && Grew(s, Push(s, v))
    ensures forall x :: x in Push(s, v).stack <==> x in s.stack || x == v
  {
    var t := Push(s, v);
    assert forall x :: x in t.stack <==> x in s.stack || x == v;
    forall i, j | 0 <= i < j < |t.stack| ensures StackLess(t, i, j) {
      if j < |s.stack| {
        assert StackLess(s, i, j);
      } else {
        assert s.stack[i] in s.indices;
      }
    }
  }

  lemma {:induction false} PushStackDown(s: St, grey: set<Node>, v: Node)
    requires Shape(s) && StackDown(s) && StackUp(s, grey)
    requires forall x :: x in grey ==> Reach(s.adj, x, v)
    ensures StackDown(Push(s, v))
  {
    var t := Push(s, v);
    forall i, j | 0 <= i <= j < |t.stack| ensures StackReach(t, i, j) {
      if i == |s.stack| {
        ReachSelf(s.adj, v);
      } else if j < |s.stack| {
        assert StackReach(s, i, j);
      } else {
        var y := s.stack[i];
        assert HasGreyBelow(s, grey, y);
        var x :| GreyBelow(s, grey, y, x);
        ReachTrans(s.adj, y, x, v);
      }
    }
  }

  lemma {:induction false} PushStackUp(s: St, grey: set<Node>, v: Node)
    requires Shape(s) && Shape(Push(s, v)) && StackUp(s, grey) && v !in s.indices
    ensures StackUp(Push(s, v), grey + {v})
  {
    var t := Push(s, v);
    forall y | y in t.stack ensures HasGreyBelow(t, grey + {v}, y) {
      if y == v {
        ReachSelf(s.adj, v);
        assert GreyBelow(t, grey + {v}, y, v);
      } else {
        assert HasGreyBelow(s, grey, y);
        var x :| GreyBelow(s, grey, y, x);
        assert GreyBelow(t, grey + {v}, y, x);
      }
    }
  }

  lemma {:induction false} PushKeepsInv(s: St, grey: set<Node>, v: Node)
    requires Inv(s, grey) && v !in s.indices && v in Nodes(s.adj)
    requires forall x :: x in grey ==> Reach(s.adj, x, v)
    ensures Inv(Push(s, v), grey + {v}) && Grew(s, Push(s, v))
  {
    PushShape(s, v);
    PushStackDown(s, grey, v);
    PushStackUp(s, grey, v);
  }

  // ----- while the successors of a node are visited -----

  lemma {:induction false} PrefixMembers(a: seq<Node>, b: seq<Node>)
    requires a <= b
    ensures forall x :: x in a ==> x in b
  {
    assert forall i :: 0 <= i < |a| ==> a[i] == b[i];
  }

  /** `s0` is the state before `v` was entered, `s` the state after the first `k`
      successors were dealt with. */
  ghost predicate Visiting(s0: St, s: St, v: Node, low: nat, succ: seq<Node>, k: nat)
    requires k <= |succ|
  {
    && v !in s0.indices && Grew(Push(s0, v), s) && s0.stack <= s.stack
    && low <= s.indices[v]
    && (exists y :: LowReached(s, v, low, y))
    && BoundsEdges(s, s0.stack, low, {v})
    && (forall i :: 0 <= i < k ==> succ[i] in s.indices && (succ[i] in s0.stack ==> low <= s.indices[succ[i]]))
  }

  lemma {:induction false} VisitStart(s0: St, v: Node, succ: seq<Node>)
    requires v !in s0.indices && Grew(s0, Push(s0, v))
    ensures Visiting(s0, Push(s0, v), v, s0.index, succ, 0)
  {
    var s := Push(s0, v);
    ReachSelf(s0.adj, v);
    assert s.stack[|s0.stack|] == v;
    assert LowReached(s, v, s0.index, v);
    assert s.stack[|s0.stack|..] == [v];
  }

  lemma {:induction false} SegmentSplit(a: seq<Node>, b: seq<Node>, c: seq<Node>, x: Node)
    requires a <= b <= c && x in c[|a|..]
    ensures x in b[|a|..] || x in c[|b|..]
  {
    assert c[|a|..] == b[|a|..] + c[|b|..];
  }

  lemma {:induction false} LowReachedGrew(s: St, s': St, v: Node, low: nat)
    requires Grew(s, s') && exists y :: LowReached(s, v, low, y)
    ensures exists y :: LowReached(s', v, low, y)
  {
    var y :| LowReached(s, v, low, y);
    PrefixMembers(s.stack, s'.stack);
    assert LowReached(s', v, low, y);
  }

  lemma {:induction false} LowReachedEdge(s: St, v: Node, w: Node, low: nat)
    requires w in Succ(s.adj, v) && exists y :: LowReached(s, w, low, y)
    ensures exists y :: LowReached(s, v, low, y)
  {
    var y :| LowReached(s, w, low, y);
    ReachEdge(s.adj, v, w);
    ReachTrans(s.adj, v, w, y);
    assert LowReached(s, v, low, y);
  }

  lemma {:induction false} BoundsEdgesGrew(s0: St, s: St, s': St, v: Node, low: nat, lowW: nat)
    requires Grew(s, s') && s0.stack <= s.stack <= s'.stack
    requires BoundsEdges(s, s0.stack, low, {v}) && BoundsEdges(s', s.stack, lowW, {})
    ensures BoundsEdges(s', s0.stack, if lowW < low then lowW else low, {v})
  {
    PrefixMembers(s0.stack, s.stack);
    forall x, z | x in s'.stack[|s0.stack|..] && x != v && z in Succ(s'.adj, x) && z in s0.stack
      ensures z in s'.indices && (if lowW < low then lowW else low) <= s'.indices[z]
    {
      SegmentSplit(s0.stack, s.stack, s'.stack, x);
    }
  }

  /** An unvisited successor `w` was visited, with low link `lowW`. */
  lemma {:induction false} VisitCalled(s0: St, s: St, s': St, v: Node, low: nat, lowW: nat, succ: seq<Node>, k: nat)
    requires k < |succ| && Visiting(s0, s, v, low, succ, k)
    requires succ[k] in Succ(s.adj, v) && succ[k] !in s.indices && succ[k] in s'.indices
    requires Grew(s, s') && LowOk(s, s', succ[k], lowW)
    requires v in s.indices && s.indices[v] < s.index && succ[k] !in s.stack
    ensures Visiting(s0, s', v, if lowW < low then lowW else low, succ, k + 1)
  {
    var w := succ[k];
    GrewTrans(Push(s0, v), s, s');
    LowReachedGrew(s, s', v, low);
    if lowW < low {
      LowReachedEdge(s', v, w, lowW);
    }
    BoundsEdgesGrew(s0, s, s', v, low, lowW);
    PrefixMembers(s0.stack, s.stack);
  }

  /** An already visited successor. */
  lemma {:induction false} VisitSeen(s0: St, s: St, v: Node, low: nat, succ: seq<Node>, k: nat)
    requires k < |succ| && Visiting(s0, s, v, low, succ, k)
    requires succ[k] in Succ(s.adj, v) && succ[k] in s.indices
    ensures var w := succ[k];
            Visiting(s0, s, v, if w in s.stack && s.indices[w] < low then s.indices[w] else low, succ, k + 1)
  {
    var w := succ[k];
    if w in s.stack && s.indices[w] < low {
      ReachSelf(s.adj, w);
      assert LowReached(s, w, s.indices[w], w);
      LowReachedEdge(s, v, w, s.indices[w]);
    }
    PrefixMembers(s0.stack, s.stack);
  }

  // ----- leaving a node -----

  /** `v` lies on the stack directly above `base`. */
  ghost predicate Above(s: St, base: seq<Node>, v: Node) {
    base <= s.stack && |base| < |s.stack| && s.stack[|base|] == v && v in s.indices
  }

  lemma {:induction false} StackPosition(s: St, base: seq<Node>, v: Node, x: Node)
    requires Shape(s) && Above(s, base, v) && x in s.stack
    ensures x in base <==> s.indices[x] < s.indices[v]
    ensures x in s.stack[|base|..] <==> s.indices[v] <= s.indices[x]
  {
    var n := |base|;
    if x in base {
      var i :| 0 <= i < n && base[i] == x;
      assert s.stack[i] == x && StackLess(s, i, n);
    }
    if x in s.stack[n..] {
      var i :| 0 <= i < |s.stack[n..]| && s.stack[n..][i] == x;
      assert s.stack[n + i] == x && (i > 0 ==> StackLess(s, n, n + i));
    }
    assert s.stack == base + s.stack[n..];
  }

  lemma {:induction false} SuccessorsSeen(s0: St, s: St, v: Node, low: nat, succ: seq<Node>, y: Node)
    requires Visiting(s0, s, v, low, succ, |succ|) && y in succ
    ensures y in s.indices && (y in s0.stack ==> low <= s.indices[y])
  {
    var i :| 0 <= i < |succ| && succ[i] == y;
  }

  /** After all successors: the facts shared by both ways of leaving `v`. */
  lemma {:induction false} VisitEnd(s0: St, s: St, grey: set<Node>, v: Node, low: nat, succ: seq<Node>)
    requires Visiting(s0, s, v, low, succ, |succ|) && NoWhiteEdge(s, grey + {v})
    requires forall y :: y in succ <==> y in Succ(s.adj, v)
    ensures Grew(s0, s) && Above(s, s0.stack, v)
    ensures NoWhiteEdge(s, grey)
    ensures BoundsEdges(s, s0.stack, low, {})
  {
    var p := Push(s0, v);
    assert p.stack[|s0.stack|] == v;
    forall x, y | x in s.indices && x !in grey && y in Succ(s.adj, x) ensures y in s.indices {
      if x == v {
        SuccessorsSeen(s0, s, v, low, succ, y);
      }
    }
    forall x, y | x in s.stack[|s0.stack|..] && y in Succ(s.adj, x) && y in s0.stack
      ensures y in s.indices && low <= s.indices[y]
    {
      if x == v {
        SuccessorsSeen(s0, s, v, low, succ, y);
      }
    }
  }

  /** If `v` reaches a stacked node below it, `v` is not needed as a witness. */
  lemma {:induction false} StackUpWithout(s: St, grey: set<Node>, v: Node, y0: Node)
    requires Shape(s) && StackUp(s, grey + {v}) && v in s.indices
    requires y0 in s.stack && s.indices[y0] < s.indices[v] && Reach(s.adj, v, y0)
    ensures StackUp(s, grey)
  {
    assert HasGreyBelow(s, grey + {v}, y0);
    var x0 :| GreyBelow(s, grey + {v}, y0, x0);
    ReachTrans(s.adj, v, y0, x0);
    forall y | y in s.stack ensures HasGreyBelow(s, grey, y) {
      assert HasGreyBelow(s, grey + {v}, y);
      var x :| GreyBelow(s, grey + {v}, y, x);
      if x == v {
        ReachTrans(s.adj, y, v, x0);
        assert GreyBelow(s, grey, y, x0);
      } else {
        assert GreyBelow(s, grey, y, x);
      }
    }
  }

  /** `v` reaches below itself: it stays on the stack. */
  lemma {:induction false} LeaveOnStack(s0: St, s: St, grey: set<Node>, v: Node, low: nat, succ: seq<Node>)
    requires Inv(s, grey + {v}) && Visiting(s0, s, v, low, succ, |succ|)
    requires forall y :: y in succ <==> y in Succ(s.adj, v)
    requires low < s.indices[v]
    ensures Inv(s, grey) && Grew(s0, s) && LowOk(s0, s, v, low)
  {
    VisitEnd(s0, s, grey, v, low, succ);
    var y0 :| LowReached(s, v, low, y0);
    StackUpWithout(s, grey, v, y0);
  }

  /** The state after the nodes above `base` were emitted as one component. */
  function Emit(s: St, base: seq<Node>, scc: seq<Node>): St {
    s.(stack := base, sccs := s.sccs + [scc])
  }

  ghost predicate IsSegment(s: St, base: seq<Node>, scc: seq<Node>) {
    base <= s.stack && Increasing(scc) && forall x :: x in scc <==> x in s.stack[|base|..]
  }

  lemma {:induction false} EmittedSnoc(sccs: seq<seq<Node>>, scc: seq<Node>, x: Node)
    ensures Emitted(sccs + [scc], x) <==> Emitted(sccs, x) || x in scc
  {
    var t := sccs + [scc];
    if x in scc {
      assert t[|sccs|] == scc;
    }
    if Emitted(sccs, x) {
      var k :| 0 <= k < |sccs| && x in sccs[k];
      assert t[k] == sccs[k];
    }
  }

  lemma {:induction false} EmitShape(s: St, base: seq<Node>, v: Node, scc: seq<Node>)
    requires Shape(s) && Above(s, base, v) && IsSegment(s, base, scc)
    ensures Shape(Emit(s, base, scc))
  {
    var t := Emit(s, base, scc);
    PrefixMembers(base, s.stack);
    forall x ensures x in t.indices <==> x in t.stack || Emitted(t.sccs, x)
             ensures x in t.stack ==> !Emitted(t.sccs, x)
    {
      EmittedSnoc(s.sccs, scc, x);
      if x in s.stack {
        StackPosition(s, base, v, x);
      }
    }
    forall i, j | 0 <= i < j < |base| ensures StackLess(t, i, j) {
      assert StackLess(s, i, j) && base[i] == s.stack[i] && base[j] == s.stack[j];
    }
  }

  /** All nodes of the segment reach each other. */
  lemma {:induction false} SegmentConnected(s: St, grey: set<Node>, v: Node, base: seq<Node>, x: Node, y: Node)
    requires StackDown(s) && StackUp(s, grey + {v}) && Above(s, base, v)
    requires forall g :: g in grey ==> Reach(s.adj, g, v)
    requires x in s.stack[|base|..] && y in s.stack[|base|..]
    ensures Reach(s.adj, x, y)
  {
    var n := |base|;
    assert x in s.stack && HasGreyBelow(s, grey + {v}, x);
    var g :| GreyBelow(s, grey + {v}, x, g);
    if g != v {
      ReachTrans(s.adj, x, g, v);
    }
    var j :| 0 <= j < |s.stack[n..]| && s.stack[n..][j] == y;
    assert StackReach(s, n, n + j);
    ReachTrans(s.adj, x, v, y);
  }

  /** Edges from the segment stay inside it or lead to emitted nodes. */
  lemma {:induction false} SegmentEdges(s: St, grey: set<Node>, base: seq<Node>, v: Node, x: Node, y: Node)
    requires Shape(s) && Above(s, base, v) && NoWhiteEdge(s, grey)
    requires forall x :: x in grey ==> x in base
    requires BoundsEdges(s, base, s.indices[v], {})
    requires x in s.stack[|base|..] && y in Succ(s.adj, x)
    ensures y in s.stack[|base|..] || Emitted(s.sccs, y)
  {
    assert x in s.stack;
    StackPosition(s, base, v, x);
    if y in s.stack {
      StackPosition(s, base, v, y);
    }
  }

  lemma {:induction false} EmitDisjoint(s: St, base: seq<Node>, scc: seq<Node>)
    requires Shape(s) && Components(s.adj, s.sccs) && IsSegment(s, base, scc)
    ensures var sccs := s.sccs + [scc];
            forall j, k, x :: 0 <= j < k < |sccs| && x in sccs[j] ==> x !in sccs[k]
  {
    var sccs := s.sccs + [scc];
    forall j, k, x | 0 <= j < k < |sccs| && x in sccs[j] ensures x !in sccs[k] {
      assert x in s.sccs[j];
      if k < |s.sccs| {
        assert sccs[k] == s.sccs[k];
      } else {
        assert Emitted(s.sccs, x);
        assert x !in s.stack;
      }
    }
  }

  lemma {:induction false} EmitComponents(s: St, grey: set<Node>, base: seq<Node>, v: Node, scc: seq<Node>)
    requires Shape(s) && Components(s.adj, s.sccs) && StackDown(s) && StackUp(s, grey + {v})
    requires Above(s, base, v) && IsSegment(s, base, scc)
    requires forall g :: g in grey ==> g in base && Reach(s.adj, g, v)
    requires BoundsEdges(s, base, s.indices[v], {}) && NoWhiteEdge(s, grey)
    ensures Components(s.adj, s.sccs + [scc])
  {
    var sccs, n := s.sccs + [scc], |s.sccs|;
    EmitDisjoint(s, base, scc);
    assert v in scc by {
      assert s.stack[|base|..][0] == v;
    }
    forall k | 0 <= k <= n ensures SortedComponent(sccs, k) {
      if k < n {
        assert SortedComponent(s.sccs, k) && sccs[k] == s.sccs[k];
      } else {
        assert sccs[k] == scc;
      }
    }
    forall k, x, y | 0 <= k <= n && x in sccs[k] && y in sccs[k] ensures Reach(s.adj, x, y) {
      if k == n {
        SegmentConnected(s, grey, v, base, x, y);
      } else {
        assert sccs[k] == s.sccs[k];
      }
    }
    forall k, x, y | 0 <= k <= n && x in sccs[k] && y in Succ(s.adj, x) ensures EmittedBy(sccs, k + 1, y) {
      if k == n {
        SegmentEdges(s, grey, base, v, x, y);
        EmittedSnoc(s.sccs, scc, y);
      } else {
        assert x in s.sccs[k] && EmittedBy(s.sccs, k + 1, y);
        var j :| 0 <= j < k + 1 && j < n && y in s.sccs[j];
        assert sccs[j] == s.sccs[j];
      }
    }
  }

  lemma {:induction false} EmitStackUp(s: St, grey: set<Node>, base: seq<Node>, v: Node, scc: seq<Node>)
    requires Shape(s) && StackUp(s, grey + {v}) && Above(s, base, v)
    ensures StackUp(Emit(s, base, scc), grey)
  {
    var t := Emit(s, base, scc);
    PrefixMembers(base, s.stack);
    forall y | y in base ensures HasGreyBelow(t, grey, y) {
      StackPosition(s, base, v, y);
      assert HasGreyBelow(s, grey + {v}, y);
      var x :| GreyBelow(s, grey + {v}, y, x);
      assert GreyBelow(t, grey, y, x);
    }
  }

  lemma {:induction false} EmitKeepsInv(s: St, grey: set<Node>, base: seq<Node>, v: Node, scc: seq<Node>)
    requires Inv(s, grey + {v}) && Above(s, base, v) && IsSegment(s, base, scc)
    requires forall x :: x in grey ==> x in base && Reach(s.adj, x, v)
    requires BoundsEdges(s, base, s.indices[v], {}) && NoWhiteEdge(s, grey)
    ensures Inv(Emit(s, base, scc), grey)
  {
    EmitShape(s, base, v, scc);
    EmitComponents(s, grey, base, v, scc);
    EmitStackUp(s, grey, base, v, scc);
    EmitRest(s, base, scc);
  }

  lemma {:induction false} EmitLow(s0: St, s: St, v: Node, scc: seq<Node>)
    requires Shape(s) && Above(s, s0.stack, v) && Grew(s0, s)
    ensures var t := Emit(s, s0.stack, scc); Grew(s0, t) && LowOk(s0, t, v, s.indices[v])
  {
    var t := Emit(s, s0.stack, scc);
    assert t.stack[|s0.stack|..] == [];
    assert v in s.stack;
    StackPosition(s, s0.stack, v, v);
  }

  /** `v` is the root of its component: everything above it is emitted. */
  lemma {:induction false} LeaveAsRoot(s0: St, s: St, grey: set<Node>, v: Node, low: nat, succ: seq<Node>, scc: seq<Node>)
    requires Inv(s, grey + {v}) && Visiting(s0, s, v, low, succ, |succ|)
    requires forall y :: y in succ <==> y in Succ(s.adj, v)
    requires (forall x :: x in grey ==> x in s0.stack && Reach(s.adj, x, v)) && low == s.indices[v]
    requires IsSegment(s, s0.stack, scc)
    ensures var t := Emit(s, s0.stack, scc); Inv(t, grey) && Grew(s0, t) && LowOk(s0, t, v, low)
  {
    VisitEnd(s0, s, grey, v, low, succ);
    EmitKeepsInv(s, grey, s0.stack, v, scc);
    EmitLow(s0, s, v, scc);
  }

  lemma {:induction false} EmitRest(s: St, base: seq<Node>, scc: seq<Node>)
    requires StackDown(s) && base <= s.stack
    ensures StackDown(Emit(s, base, scc))
  {
    var t := Emit(s, base, scc);
    forall i, j | 0 <= i <= j < |base| ensures StackReach(t, i, j) {
      assert StackReach(s, i, j) && base[i] == s.stack[i] && base[j] == s.stack[j];
    }
  }

  lemma {:induction false} GreyReach(adj: Graph, grey: set<Node>, v: Node, w: Node)
    requires (forall x :: x in grey ==> Reach(adj, x, v)) && w in Succ(adj, v)
    ensures forall x :: x in grey + {v} ==> Reach(adj, x, w)
    ensures w in Nodes(adj)
  {
    ReachEdge(adj, v, w);
    forall x | x in grey ensures Reach(adj, x, w) {
      ReachTrans(adj, x, v, w);
    }
    var i :| 0 <= i < |adj[v]| && adj[v][i] == w;
  }

  lemma {:induction false} StackDistinct(s0: St, s: St, grey: set<Node>, v: Node, low: nat, succ: seq<Node>)
    requires Inv(s, grey + {v}) && Visiting(s0, s, v, low, succ, |succ|)
    ensures s0.stack + [v] <= s.stack && v !in s.stack[|s0.stack| + 1..]
    ensures forall i, j :: 0 <= i < j < |s.stack| ==> s.stack[i] != s.stack[j]
  {
    assert Push(s0, v).stack == s0.stack + [v];
    assert s.stack[|s0.stack|] == v;
    forall i, j | 0 <= i < j < |s.stack| ensures s.stack[i] != s.stack[j] {
      assert StackLess(s, i, j);
    }
  }

  // ----- the same facts, folded -----

  // The methods below pass these facts along without looking into them.  Each is
  // stated under a token, so that its quantifiers stay out of the proofs of the
  // methods; the lemmas that follow unfold it where it is used.

  predicate Token(t: nat) { true }

  ghost predicate Kept(s: St, grey: set<Node>) {
    forall t {:trigger Token(t)} :: Token(t) ==> Inv(s, grey)
  }

  /** The visit of `v`, entered in state `s0`, has dealt with `k` successors. */
  ghost predicate InVisit(s0: St, s: St, grey: set<Node>, v: Node, low: nat, succ: seq<Node>, k: nat)
    requires k <= |succ|
  {
    forall t {:trigger Token(t)} :: Token(t) ==>
      && Inv(s, grey + {v}) && Visiting(s0, s, v, low, succ, k)
      && (forall y :: y in succ <==> y in Succ(s.adj, v))
      && (forall x :: x in grey ==> x in s0.stack && Reach(s.adj, x, v))
  }

  /** The visit of `v`, entered in state `s`, has ended in state `s'`. */
  ghost predicate Visited(s: St, s': St, grey: set<Node>, v: Node, low: nat) {
    forall t {:trigger Token(t)} :: Token(t) ==>
      Inv(s', grey) && Grew(s, s') && v in s'.indices && LowOk(s, s', v, low)
  }

  ghost predicate AllReach(adj: Graph, grey: set<Node>, v: Node) {
    forall t, x {:trigger Token(t), x in grey} :: Token(t) && x in grey ==> Reach(adj, x, v)
  }

  lemma {:induction false} Begin(s0: St, grey: set<Node>, v: Node, succ: seq<Node>)
    requires Kept(s0, grey) && v !in s0.indices && v in Nodes(s0.adj) && AllReach(s0.adj, grey, v)
    requires succ == Sort(Succ(s0.adj, v))
    ensures InVisit(s0, Push(s0, v), grey, v, s0.index, succ, 0)
  {
    assert Token(0);
    PushKeepsInv(s0, grey, v);
    SortMembers(Succ(s0.adj, v));
    VisitStart(s0, v, succ);
  }

  lemma {:induction false} BeforeCall(s0: St, s: St, grey: set<Node>, v: Node, low: nat, succ: seq<Node>, k: nat)
    requires k < |succ| && InVisit(s0, s, grey, v, low, succ, k)
    ensures Kept(s, grey + {v}) && succ[k] in Nodes(s.adj) && AllReach(s.adj, grey + {v}, succ[k])
  {
    assert Token(0);
    assert succ[k] in succ;
    GreyReach(s.adj, grey, v, succ[k]);
  }

  lemma {:induction false} AfterCall(s0: St, s: St, s': St, grey: set<Node>, v: Node, low: nat, lowW: nat, succ: seq<Node>, k: nat)
    requires k < |succ| && InVisit(s0, s, grey, v, low, succ, k)
    requires succ[k] !in s.indices && Visited(s, s', grey + {v}, succ[k], lowW)
    ensures InVisit(s0, s', grey, v, if lowW < low then lowW else low, succ, k + 1)
  {
    assert Token(0);
    assert succ[k] in succ;
    VisitCalled(s0, s, s', v, low, lowW, succ, k);
  }

  lemma {:induction false} AfterSeen(s0: St, s: St, grey: set<Node>, v: Node, low: nat, succ: seq<Node>, k: nat)
    requires k < |succ| && InVisit(s0, s, grey, v, low, succ, k) && succ[k] in s.indices
    ensures var w := succ[k];
            InVisit(s0, s, grey, v, if w in s.stack && s.indices[w] < low then s.indices[w] else low, succ, k + 1)
  {
    assert Token(0);
    assert succ[k] in succ;
    VisitSeen(s0, s, v, low, succ, k);
  }

  lemma {:induction false} EndOnStack(s0: St, s: St, grey: set<Node>, v: Node, low: nat, succ: seq<Node>)
    requires InVisit(s0, s, grey, v, low, succ, |succ|) && v in s.indices && low != s.indices[v]
    ensures Visited(s0, s, grey, v, low)
  {
    assert Token(0);
    LeaveOnStack(s0, s, grey, v, low, succ);
  }

  lemma {:induction false} EndAsRoot(s0: St, s: St, grey: set<Node>, v: Node, succ: seq<Node>, scc: seq<Node>)
    requires v in s.indices && InVisit(s0, s, grey, v, s.indices[v], succ, |succ|) && IsSegment(s, s0.stack, scc)
    ensures Visited(s0, Emit(s, s0.stack, scc), grey, v, s.indices[v])
  {
    assert Token(0);
    LeaveAsRoot(s0, s, grey, v, s.indices[v], succ, scc);
  }

  lemma {:induction false} RootStack(s0: St, s: St, grey: set<Node>, v: Node, low: nat, succ: seq<Node>)
    requires InVisit(s0, s, grey, v, low, succ, |succ|)
    ensures s0.stack + [v] <= s.stack && v !in s.stack[|s0.stack| + 1..]
    ensures forall i, j :: 0 <= i < j < |s.stack| ==> s.stack[i] != s.stack[j]
  {
    assert Token(0);
    StackDistinct(s0, s, grey, v, low, succ);
  }

  lemma {:induction false} VisitKeeps(s: St, s': St, grey: set<Node>, v: Node, low: nat)
    requires Visited(s, s', grey, v, low)
    ensures Kept(s', grey) && s.indices.Keys + {v} <= s'.indices.Keys
  {
    assert Token(0);
  }

  // ----- the algorithm -----

  class SccState {
    const adj: Graph
    var index: nat
    var indices: map<Node, nat>
    var lowlinks: map<Node, nat>
    var onStack: set<Node>
    var stack: seq<Node>
    var sccs: seq<seq<Node>>

    constructor (adj: Graph)
      ensures this.adj == adj && View() == St(adj, 0, map[], [], []) && Tidy() && lowlinks == map[]
    {
      this.adj := adj;
      index, indices, lowlinks, onStack, stack, sccs := 0, map[], map[], {}, [], [];
    }

    ghost function View(): St
      reads this
    {
      St(adj, index, indices, stack, sccs)
    }

    /** The bookkeeping maps agree with the stack and the visited nodes. */
    ghost predicate Tidy()
      reads this
    {
      onStack == (set x | x in stack) && lowlinks.Keys == indices.Keys
    }

    /** Low links of nodes that were visited before are left alone. */
    ghost predicate KeepsLow(before: map<Node, nat>)
      reads this
    {
      before.Keys <= lowlinks.Keys && forall x :: x in before ==> lowlinks[x] == before[x]
    }

    method Enter(v: Node)
      requires Tidy() && v !in indices
      modifies this
      ensures Tidy() && View() == Push(old(View()), v) && lowlinks == old(lowlinks)[v := old(index)]
    {
      indices := indices[v := index];
      lowlinks := lowlinks[v := index];
      index := index + 1;
      stack := stack + [v];
      onStack := onStack + {v};
    }

    /** Takes the nodes above `base` off the stack, down to `v`. */
    method PopComponent(v: Node, ghost base: seq<Node>) returns (scc: seq<Node>)
      requires Tidy() && base + [v] <= stack && v !in stack[|base| + 1..]
      requires Distinct(stack)
      modifies this`stack, this`onStack
      ensures Tidy() && stack == base && |scc| == |old(stack)| - |base|
      ensures forall i :: 0 <= i < |scc| ==> scc[i] == old(stack)[|old(stack)| - 1 - i]
      ensures forall x :: x in scc <==> x in old(stack)[|base|..]
    {
      scc := [];
      ghost var all := stack;
      var node := v;
      while true
        invariant |base| < |stack| <= |all| && stack == all[..|stack|] && Tidy()
        invariant |scc| == |all| - |stack| && forall i :: 0 <= i < |scc| ==> scc[i] == all[|all| - 1 - i]
        invariant forall x :: x in scc <==> x in all[|stack|..]
        decreases |stack|
      {
        ghost var n := |stack| - 1;
        node := stack[|stack| - 1];
        assert all[n..] == [node] + all[n + 1..];
        stack := stack[..|stack| - 1];
        onStack := onStack - {node};
        scc := scc + [node];
        assert all[|base|] == v;
        if node == v {
          break;
        }
      }
    }

    method StrongConnect(v: Node, ghost grey: set<Node>)
      requires Kept(View(), grey) && Tidy() && v !in indices && v in Nodes(adj) && AllReach(adj, grey, v)
      modifies this
      ensures Visited(old(View()), View(), grey, v, if v in lowlinks then lowlinks[v] else 0)
      ensures Tidy() && KeepsLow(old(lowlinks)) && old(indices).Keys + {v} <= indices.Keys
      decreases Nodes(adj) - indices.Keys, 0
    {
      ghost var s0, low0 := View(), lowlinks;
      var succ := Sort(Succ(adj, v));
      Begin(s0, grey, v, succ);
      Enter(v);
      var k := 0;
      while k < |succ|
        invariant k <= |succ| && Tidy() && v in lowlinks && KeepsLow(low0) && s0.indices.Keys + {v} <= indices.Keys
        invariant InVisit(s0, View(), grey, v, lowlinks[v], succ, k)
      {
        VisitSuccessor(v, succ, k, s0, grey, low0);
        k := k + 1;
      }
      Leave(v, succ, s0, grey, low0);
    }

    /** Visits a node from outside, if it was not yet reached. */
    method VisitRoot(v: Node)
      requires Kept(View(), {}) && Tidy() && v in Nodes(adj)
      modifies this
      ensures Kept(View(), {}) && Tidy() && old(indices).Keys + {v} <= indices.Keys
    {
      if v !in indices {
        ghost var s := View();
        StrongConnect(v, {});
        VisitKeeps(s, View(), {}, v, if v in lowlinks then lowlinks[v] else 0);
      }
    }

    method VisitSuccessor(v: Node, succ: seq<Node>, k: nat, ghost s0: St, ghost grey: set<Node>, ghost low0: map<Node, nat>)
      requires k < |succ| && Tidy() && v in lowlinks && KeepsLow(low0) && v !in low0
      requires InVisit(s0, View(), grey, v, lowlinks[v], succ, k)
      modifies this
      ensures Tidy() && v in lowlinks && KeepsLow(low0) && old(indices).Keys <= indices.Keys
      ensures InVisit(s0, View(), grey, v, lowlinks[v], succ, k + 1)
      decreases Nodes(adj) - indices.Keys, 1
    {
      var w := succ[k];
      ghost var s := View();
      if w !in indices {
        BeforeCall(s0, s, grey, v, lowlinks[v], succ, k);
        StrongConnect(w, grey + {v});
        AfterCall(s0, s, View(), grey, v, lowlinks[v], lowlinks[w], succ, k);
        if lowlinks[w] < lowlinks[v] {
          lowlinks := lowlinks[v := lowlinks[w]];
        }
      } else {
        AfterSeen(s0, s, grey, v, lowlinks[v], succ, k);
        if w in onStack && indices[w] < lowlinks[v] {
          lowlinks := lowlinks[v := indices[w]];
        }
      }
    }

    /** Emits the component of `v` if `v` is its root. */
    method Leave(v: Node, ghost succ: seq<Node>, ghost s0: St, ghost grey: set<Node>, ghost low0: map<Node, nat>)
      requires Tidy() && v in lowlinks && KeepsLow(low0)
      requires InVisit(s0, View(), grey, v, lowlinks[v], succ, |succ|)
      modifies this`stack, this`onStack, this`sccs
      ensures Visited(s0, View(), grey, v, lowlinks[v]) && Tidy()
    {
      ghost var s := View();
      if lowlinks[v] == indices[v] {
        RootStack(s0, s, grey, v, lowlinks[v], succ);
        var scc := PopComponent(v, s0.stack);
        SortMembers(scc);
        SortIncreasing(scc);
        scc := Sort(scc);
        sccs := sccs + [scc];
        EndAsRoot(s0, s, grey, v, succ, scc);
        assert View() == Emit(s, s0.stack, scc);
      } else {
        EndOnStack(s0, s, grey, v, lowlinks[v], succ);
      }
    }
  }

  // ----- what the result is -----

  /** The components cover exactly the nodes of the graph, each node once; two
      nodes share a component exactly when each reaches the other; and an edge
      between components leads to an earlier one. */
  ghost predicate IsSccOrder(adj: Graph, sccs: seq<seq<Node>>) {
    && (forall x :: x in Nodes(adj) <==> Emitted(sccs, x))
    && (forall j, k, x :: 0 <= j < k < |sccs| && x in sccs[j] ==> x !in sccs[k])
    && (forall j, k, x, y :: 0 <= j < |sccs| && 0 <= k < |sccs| && x in sccs[j] && y in sccs[k] ==>
          (j == k <==> Reach(adj, x, y) && Reach(adj, y, x)))
    && (forall j, k, x, y :: 0 <= j < |sccs| && 0 <= k < |sccs| && x in sccs[j] && y in sccs[k] && y in Succ(adj, x) ==> k <= j)
    && (forall k :: 0 <= k < |sccs| ==> SortedComponent(sccs, k))
  }

  /** A path that starts in component `j` never leaves the first `j + 1`. */
  lemma {:induction false} PathStaysBelow(adj: Graph, sccs: seq<seq<Node>>, j: nat, p: seq<Node>, n: nat)
    requires Components(adj, sccs) && j < |sccs| && IsPath(adj, p) && p[0] in sccs[j] && n < |p|
    ensures EmittedBy(sccs, j + 1, p[n])
    decreases n
  {
    if n > 0 {
      PathStaysBelow(adj, sccs, j, p, n - 1);
      var k :| 0 <= k < j + 1 && k < |sccs| && p[n - 1] in sccs[k];
      assert p[n - 1 + 1] in Succ(adj, p[n - 1]);
      assert EmittedBy(sccs, k + 1, p[n]);
      var i :| 0 <= i < k + 1 && i < |sccs| && p[n] in sccs[i];
    }
  }

  lemma {:induction false} ReachGoesDown(adj: Graph, sccs: seq<seq<Node>>, j: nat, k: nat, x: Node, y: Node)
    requires Components(adj, sccs) && j < |sccs| && k < |sccs| && x in sccs[j] && y in sccs[k] && Reach(adj, x, y)
    ensures k <= j
  {
    var p :| PathBetween(adj, p, x, y);
    PathStaysBelow(adj, sccs, j, p, |p| - 1);
    var i :| 0 <= i < j + 1 && i < |sccs| && y in sccs[i];
  }

  lemma {:induction false} ComponentsAreSccs(adj: Graph, sccs: seq<seq<Node>>)
    requires Components(adj, sccs)
    requires forall x :: x in Nodes(adj) <==> Emitted(sccs, x)
    ensures IsSccOrder(adj, sccs)
  {
    forall j, k, x, y | 0 <= j < |sccs| && 0 <= k < |sccs| && x in sccs[j] && y in sccs[k]
      ensures j == k <==> Reach(adj, x, y) && Reach(adj, y, x)
      ensures y in Succ(adj, x) ==> k <= j
    {
      if Reach(adj, x, y) && Reach(adj, y, x) {
        ReachGoesDown(adj, sccs, j, k, x, y);
        ReachGoesDown(adj, sccs, k, j, y, x);
      }
      if y in Succ(adj, x) {
        ReachEdge(adj, x, y);
        ReachGoesDown(adj, sccs, j, k, x, y);
      }
    }
  }

  lemma {:induction false} NothingBelow(s: St, y: Node)
    ensures !HasGreyBelow(s, {}, y)
  {
  }

  /** Between visits nothing is in progress, so the stack is empty. */
  lemma {:induction false} IdleStackEmpty(s: St)
    requires Inv(s, {})
    ensures s.stack == [] && forall x :: x in s.indices <==> Emitted(s.sccs, x)
  {
    if s.stack != [] {
      NothingBelow(s, s.stack[0]);
    }
  }

  /** When all keys are visited, so are all nodes. */
  lemma {:induction false} AllVisited(s: St)
    requires Inv(s, {}) && s.adj.Keys <= s.indices.Keys
    ensures IsSccOrder(s.adj, s.sccs)
  {
    IdleStackEmpty(s);
    forall x ensures x in Nodes(s.adj) <==> Emitted(s.sccs, x) {
      assert x in s.indices ==> InGraph(s.adj, x);
      if x in Nodes(s.adj) && x !in s.adj {
        var y, i :| y in s.adj && 0 <= i < |s.adj[y]| && x == s.adj[y][i];
        assert x in Succ(s.adj, y);
      }
    }
    ComponentsAreSccs(s.adj, s.sccs);
  }

  method KeysOf(adj: Graph) returns (keys: seq<Node>)
    ensures forall x :: x in keys <==> x in adj
  {
    var rest := adj.Keys;
    keys := [];
    while rest != {}
      invariant rest <= adj.Keys && forall x :: x in keys <==> x in adj.Keys - rest
      decreases rest
    {
      var x :| x in rest;
      keys, rest := keys + [x], rest - {x};
    }
  }

  lemma {:induction false} StartKept(adj: Graph)
    ensures Kept(St(adj, 0, map[], [], []), {})
  {
  }

  lemma {:induction false} AllKeysVisited(s: St, keys: seq<Node>, nodes: seq<Node>)
    requires Kept(s, {}) && (forall x :: x in keys <==> x in s.adj) && nodes == Sort(keys)
    requires forall i :: 0 <= i < |nodes| ==> nodes[i] in s.indices
    ensures IsSccOrder(s.adj, s.sccs)
  {
    assert Token(0);
    SortMembers(keys);
    forall x | x in s.adj ensures x in s.indices {
      assert x in nodes;
    }
    AllVisited(s);
  }

  method ComputeSCCs(adj: Graph) returns (sccs: seq<seq<Node>>)
    ensures IsSccOrder(adj, sccs)
  {
    if |adj| == 0 {
      assert adj == map[];
      return [];
    }
    var state := new SccState(adj);
    StartKept(adj);
    var keys := KeysOf(adj);
    var nodes := Sort(keys);
    SortMembers(keys);
    var k := 0;
    while k < |nodes|
      invariant k <= |nodes| && state.adj == adj && Kept(state.View(), {}) && state.Tidy()
      invariant forall i :: 0 <= i < k ==> nodes[i] in state.indices
    {
      assert nodes[k] in nodes;
      state.VisitRoot(nodes[k]);
      k := k + 1;
    }
    AllKeysVisited(state.View(), keys, nodes);
    return state.sccs;
  }
}
