/**
 tarjanSCC: the strongly connected components of the output-reference graph, in dependency
 order. One depth-first pass, with the index, low and onStack tables updated in place. The
 specification follows the search: which vertices are on the stack, which of them are still
 open, how each reaches those below it, and that a popped part is a whole component.
 */
module Tarjan {
  type Vertex = string

  type Graph = map<Vertex, seq<Vertex>>

  function Succ(g: Graph, v: Vertex): seq<Vertex> {
    if v in g then g[v] else []
  }

  predicate Edge(g: Graph, a: Vertex, b: Vertex) {
    b in Succ(g, a)
  }

  predicate Path(g: Graph, p: seq<Vertex>) {
    |p| > 0 && forall i {:trigger p[i]} :: 0 <= i < |p| - 1 ==> Edge(g, p[i], p[i + 1])
  }

  ghost predicate Reach(g: Graph, a: Vertex, b: Vertex) {
    exists p :: Path(g, p) && p[0] == a && p[|p| - 1] == b
  }

  ghost predicate Mutual(g: Graph, a: Vertex, b: Vertex) {
    Reach(g, a, b) && Reach(g, b, a)
  }

  lemma ReachSelf(g: Graph, a: Vertex)
    ensures Reach(g, a, a)
  {
    assert Path(g, [a]);
  }

  lemma ReachEdge(g: Graph, a: Vertex, b: Vertex)
    requires Edge(g, a, b)
    ensures Reach(g, a, b)
  {
    assert Path(g, [a, b]);
  }

  lemma ReachTrans(g: Graph, a: Vertex, b: Vertex, c: Vertex)
    requires Reach(g, a, b) && Reach(g, b, c)
    ensures Reach(g, a, c)
  {
    var p :| Path(g, p) && p[0] == a && p[|p| - 1] == b;
    var q :| Path(g, q) && q[0] == b && q[|q| - 1] == c;
    var r := p + q[1..];
    forall i | 0 <= i < |r| - 1 ensures Edge(g, r[i], r[i + 1]) {
      if i < |p| - 1 {
        assert Edge(g, p[i], p[i + 1]);
      } else {
        var j := i - (|p| - 1);
        assert r[i] == q[j] && r[i + 1] == q[j + 1];
        assert Edge(g, q[j], q[j + 1]);
      }
    }
    assert Path(g, r) && r[0] == a && r[|r| - 1] == c;
  }

  // A path that leaves a set crosses its border on some edge.
  lemma {:induction false} Crossing(g: Graph, p: seq<Vertex>, s: set<Vertex>) returns (x: Vertex, y: Vertex)
    requires Path(g, p) && p[0] in s && p[|p| - 1] !in s
    ensures x in s && y !in s && Edge(g, x, y)
    ensures Reach(g, p[0], x) && Reach(g, y, p[|p| - 1])
    decreases |p|
  {
    assert Edge(g, p[0], p[1]);
    var rest := p[1..];
    assert Path(g, rest) by {
      forall i | 0 <= i < |rest| - 1 ensures Edge(g, rest[i], rest[i + 1]) {
        assert Edge(g, p[i + 1], p[i + 2]);
      }
    }
    if p[1] in s {
      x, y := Crossing(g, rest, s);
      ReachEdge(g, p[0], p[1]);
      ReachTrans(g, p[0], p[1], x);
    } else {
      x, y := p[0], p[1];
      ReachSelf(g, x);
      assert rest[0] == y && rest[|rest| - 1] == p[|p| - 1];
    }
  }

  // --- what the result must be ---

  // One component: exactly the vertices that reach, and are reached from, any of its members.
  ghost predicate IsComponent(g: Graph, c: seq<Vertex>) {
    && c != []
    && (forall i, j :: 0 <= i < j < |c| ==> c[i] != c[j])
    && (forall x, z :: x in c ==> (z in c <==> Mutual(g, x, z)))
  }

  // Every edge out of an emitted component ends in it or in one emitted before.
  ghost predicate DependencyFirst(g: Graph, sccs: seq<seq<Vertex>>) {
    forall i, x, y :: 0 <= i < |sccs| && x in sccs[i] && Edge(g, x, y) ==>
      exists j :: 0 <= j <= i && y in sccs[j]
  }

  ghost predicate Apart(sccs: seq<seq<Vertex>>) {
    forall i, j, x :: 0 <= i < |sccs| && 0 <= j < |sccs| && x in sccs[i] && x in sccs[j] ==> i == j
  }

  ghost predicate Emitted(sccs: seq<seq<Vertex>>, x: Vertex) {
    exists i :: 0 <= i < |sccs| && x in sccs[i]
  }

  // The condensation of what the given nodes reach.
  ghost predicate Condensation(g: Graph, nodes: seq<Vertex>, sccs: seq<seq<Vertex>>) {
    && (forall i :: 0 <= i < |sccs| ==> IsComponent(g, sccs[i]))
    && Apart(sccs)
    && DependencyFirst(g, sccs)
    && (forall x :: Emitted(sccs, x) <==> exists n :: n in nodes && Reach(g, n, x))
  }

  // --- the search state ---

  // gray holds the vertices whose strongconnect call has not returned.
  datatype Search = Search(index: map<Vertex, nat>, stack: seq<Vertex>, sccs: seq<seq<Vertex>>, gray: set<Vertex>, next: nat)

  ghost predicate Tables(s: Search) {
    && (forall x :: x in s.index <==> x in s.stack || Emitted(s.sccs, x))
    && (forall x :: x in s.stack ==> !Emitted(s.sccs, x))
    && (forall x :: x in s.gray ==> x in s.stack)
    && (forall i, j :: 0 <= i < j < |s.stack| ==> s.index[s.stack[i]] < s.index[s.stack[j]])
    && (forall x :: x in s.index ==> s.index[x] < s.next)
  }

  // Whatever has been left is closed under edges.
  ghost predicate BlackClosed(g: Graph, s: Search) {
    forall x, y :: x in s.index && x !in s.gray && Edge(g, x, y) ==> y in s.index
  }

  // The stack is ordered by reachability, and each of its members gets back to a gray one.
  ghost predicate StackReaches(g: Graph, s: Search) {
    && (forall i, j :: 0 <= i <= j < |s.stack| ==> Reach(g, s.stack[i], s.stack[j]))
    && (forall j :: 0 <= j < |s.stack| ==> BackToGray(g, s, j))
  }

  ghost predicate BackToGray(g: Graph, s: Search, j: nat)
    requires j < |s.stack|
  {
    exists i :: 0 <= i <= j && s.stack[i] in s.gray && Reach(g, s.stack[j], s.stack[i])
  }

  ghost predicate SccsRight(g: Graph, s: Search) {
    && (forall i :: 0 <= i < |s.sccs| ==> IsComponent(g, s.sccs[i]))
    && Apart(s.sccs)
    && DependencyFirst(g, s.sccs)
  }

  ghost predicate FromNodes(g: Graph, nodes: seq<Vertex>, x: Vertex) {
    exists n :: n in nodes && Reach(g, n, x)
  }

  ghost predicate WF(g: Graph, nodes: seq<Vertex>, s: Search) {
    && Tables(s) && BlackClosed(g, s) && StackReaches(g, s) && SccsRight(g, s)
    && (forall x :: x in s.index ==> FromNodes(g, nodes, x))
  }

  ghost predicate GrayReaches(g: Graph, s: Search, v: Vertex) {
    forall x :: x in s.gray ==> Reach(g, x, v)
  }

  ghost predicate Grew(s: Search, t: Search) {
    && t.gray == s.gray && s.next <= t.next
    && (forall x :: x in s.index ==> x in t.index && t.index[x] == s.index[x])
    && (forall x :: x in t.index && x !in s.index ==> t.index[x] >= s.next)
    && s.stack <= t.stack && s.sccs <= t.sccs
  }

  // low is the index of some stack member v reaches.
  ghost predicate LowReached(g: Graph, s: Search, v: Vertex, low: nat) {
    exists y :: y in s.stack && y in s.index && s.index[y] == low && Reach(g, v, y)
  }

  // No edge from the part of the stack above position k to the part below base goes under low.
  ghost predicate LowBounds(g: Graph, s: Search, base: nat, k: nat, low: nat)
    requires base <= |s.stack| && k <= |s.stack|
  {
    forall x, y :: x in s.stack[k..] && y in s.stack[..base] && y in s.index && Edge(g, x, y) ==> low <= s.index[y]
  }

  ghost predicate LowFinal(g: Graph, s: Search, t: Search, v: Vertex, low: nat) {
    && v in t.index && s.stack <= t.stack
    && LowBounds(g, t, |s.stack|, |s.stack|, low)
    && if t.stack == s.stack then low == t.index[v]
       else low < t.index[v] && LowReached(g, t, v, low)
  }

  function Pushed(s: Search, v: Vertex): Search {
    Search(s.index[v := s.next], s.stack + [v], s.sccs, s.gray + {v}, s.next + 1)
  }

  // Inside strongconnect(v), called in state s.
  ghost predicate Inside(g: Graph, nodes: seq<Vertex>, s: Search, t: Search, v: Vertex) {
    && WF(g, nodes, s) && WF(g, nodes, t)
    && v !in s.index && v in t.index && t.index[v] == s.next
    && Grew(s.(gray := s.gray + {v}), t)
    && |s.stack| < |t.stack| && t.stack[|s.stack|] == v
  }

  // What low knows after k successors of v.
  ghost predicate LowSoFar(g: Graph, s: Search, t: Search, v: Vertex, k: nat, low: nat) {
    && k <= |Succ(g, v)| && low <= s.next && |s.stack| < |t.stack|
    && LowReached(g, t, v, low)
    && LowBounds(g, t, |s.stack|, |s.stack| + 1, low)
    && forall m :: 0 <= m < k ==> SeenEdge(g, s, t, v, m, low)
  }

  ghost predicate SeenEdge(g: Graph, s: Search, t: Search, v: Vertex, m: nat, low: nat)
    requires m < |Succ(g, v)|
  {
    var w := Succ(g, v)[m];
    w in t.index && (w in s.stack && w in s.index ==> low <= s.index[w])
  }

  // --- entering ---

  lemma PushKeeps(g: Graph, nodes: seq<Vertex>, s: Search, v: Vertex)
    requires WF(g, nodes, s) && v !in s.index && GrayReaches(g, s, v) && FromNodes(g, nodes, v)
    ensures WF(g, nodes, Pushed(s, v))
  {
    var t := Pushed(s, v);
    assert v !in s.stack && !Emitted(s.sccs, v);
    PushedReaches(g, nodes, s, v);
  }

  lemma PushedReaches(g: Graph, nodes: seq<Vertex>, s: Search, v: Vertex)
    requires WF(g, nodes, s) && v !in s.index && GrayReaches(g, s, v)
    ensures StackReaches(g, Pushed(s, v))
  {
    var t := Pushed(s, v);
    ReachSelf(g, v);
    forall i | 0 <= i < |s.stack| ensures Reach(g, s.stack[i], v) && BackToGray(g, t, i) {
      assert BackToGray(g, s, i);
      var j :| 0 <= j <= i && s.stack[j] in s.gray && Reach(g, s.stack[i], s.stack[j]);
      ReachTrans(g, s.stack[i], s.stack[j], v);
      assert t.stack[j] in t.gray && Reach(g, t.stack[i], t.stack[j]);
    }
    assert t.stack[|s.stack|] in t.gray;
    assert BackToGray(g, t, |s.stack|);
  }

  lemma StartMidway(g: Graph, nodes: seq<Vertex>, s: Search, v: Vertex)
    requires WF(g, nodes, s) && v !in s.index && GrayReaches(g, s, v) && FromNodes(g, nodes, v)
    ensures Inside(g, nodes, s, Pushed(s, v), v) && LowSoFar(g, s, Pushed(s, v), v, 0, s.next)
  {
    PushKeeps(g, nodes, s, v);
    ReachSelf(g, v);
    var t := Pushed(s, v);
    assert v in t.stack;
    assert t.stack[|s.stack| + 1..] == [];
  }

  // --- one successor ---

  lemma ToSuccessor(g: Graph, nodes: seq<Vertex>, s: Search, t: Search, v: Vertex, k: nat)
    requires Inside(g, nodes, s, t, v) && k < |Succ(g, v)|
    ensures GrayReaches(g, t, Succ(g, v)[k]) && FromNodes(g, nodes, Succ(g, v)[k]) && Reach(g, v, Succ(g, v)[k])
  {
    var w := Succ(g, v)[k];
    assert Edge(g, v, w);
    ReachEdge(g, v, w);
    forall x | x in t.gray ensures Reach(g, x, w) {
      assert x in t.stack && (x == v || x in s.stack);
      if x != v {
        var i :| 0 <= i < |s.stack| && s.stack[i] == x;
        assert t.stack[i] == x && Reach(g, t.stack[i], t.stack[|s.stack|]);
        ReachTrans(g, x, v, w);
      }
    }
    assert FromNodes(g, nodes, v);
    var n :| n in nodes && Reach(g, n, v);
    ReachTrans(g, n, v, w);
  }

  function Min(a: nat, b: nat): nat { if a < b then a else b }

  // The successor is on the stack: low takes its index into account.
  lemma AfterOnStack(g: Graph, s: Search, t: Search, v: Vertex, k: nat, low: nat)
    requires LowSoFar(g, s, t, v, k, low) && k < |Succ(g, v)|
    requires Succ(g, v)[k] in t.stack && Succ(g, v)[k] in t.index && Reach(g, v, Succ(g, v)[k])
    requires forall x :: x in s.index ==> x in t.index && t.index[x] == s.index[x]
    ensures LowSoFar(g, s, t, v, k + 1, Min(low, t.index[Succ(g, v)[k]]))
  {
    var low' := Min(low, t.index[Succ(g, v)[k]]);
    assert LowReached(g, t, v, low');
    forall m | 0 <= m < k + 1 ensures SeenEdge(g, s, t, v, m, low') {
      if m < k { assert SeenEdge(g, s, t, v, m, low); }
    }
  }

  // The successor's component is already out.
  lemma AfterEmitted(g: Graph, s: Search, t: Search, v: Vertex, k: nat, low: nat)
    requires LowSoFar(g, s, t, v, k, low) && k < |Succ(g, v)|
    requires Succ(g, v)[k] in t.index && Succ(g, v)[k] !in s.stack
    ensures LowSoFar(g, s, t, v, k + 1, low)
  {
    forall m | 0 <= m < k + 1 ensures SeenEdge(g, s, t, v, m, low) {
      if m < k { assert SeenEdge(g, s, t, v, m, low); }
    }
  }

  // The successor was new and has been searched, leaving state u and its own low.
  lemma AfterCall(g: Graph, s: Search, t: Search, u: Search, v: Vertex, k: nat, low: nat, lowW: nat)
    requires LowSoFar(g, s, t, v, k, low) && k < |Succ(g, v)|
    requires Grew(t, u) && LowFinal(g, t, u, Succ(g, v)[k], lowW) && Reach(g, v, Succ(g, v)[k])
    requires s.stack <= t.stack && Succ(g, v)[k] !in t.index && s.next < t.next
    requires forall x :: x in s.stack ==> x in s.index
    requires forall x :: x in s.index ==> x in t.index && t.index[x] == s.index[x]
    ensures LowSoFar(g, s, u, v, k + 1, Min(low, lowW))
  {
    var w, low' := Succ(g, v)[k], Min(low, lowW);
    CallKeepsReached(g, s, t, u, v, w, low, lowW);
    CallKeepsBounds(g, s, t, u, w, low, lowW);
    forall m | 0 <= m < k + 1 ensures SeenEdge(g, s, u, v, m, low') {
      if m < k { assert SeenEdge(g, s, t, v, m, low); }
    }
  }

  lemma CallKeepsReached(g: Graph, s: Search, t: Search, u: Search, v: Vertex, w: Vertex, low: nat, lowW: nat)
    requires LowReached(g, t, v, low) && low <= s.next < t.next
    requires Grew(t, u) && LowFinal(g, t, u, w, lowW) && Reach(g, v, w) && w !in t.index
    ensures LowReached(g, u, v, Min(low, lowW))
  {
    if low < lowW || u.stack == t.stack {
      var y :| y in t.stack && y in t.index && t.index[y] == low && Reach(g, v, y);
      assert y in u.stack && u.index[y] == low;
    } else {
      var y :| y in u.stack && y in u.index && u.index[y] == lowW && Reach(g, w, y);
      ReachTrans(g, v, w, y);
    }
  }

  lemma CallKeepsBounds(g: Graph, s: Search, t: Search, u: Search, w: Vertex, low: nat, lowW: nat)
    requires |s.stack| < |t.stack| && LowBounds(g, t, |s.stack|, |s.stack| + 1, low)
    requires Grew(t, u) && LowFinal(g, t, u, w, lowW)
    requires s.stack <= t.stack && forall x :: x in s.stack ==> x in t.index
    ensures LowBounds(g, u, |s.stack|, |s.stack| + 1, Min(low, lowW))
  {
    var base := |s.stack|;
    assert u.stack[..base] == s.stack == t.stack[..base];
    assert u.stack[base + 1..] == t.stack[base + 1..] + u.stack[|t.stack|..];
    forall x, y | x in u.stack[base + 1..] && y in u.stack[..base] && y in u.index && Edge(g, x, y)
      ensures Min(low, lowW) <= u.index[y]
    {
      if x in u.stack[|t.stack|..] {
        assert y in u.stack[..|t.stack|];
      }
    }
  }

  // --- leaving ---

  // Once every successor of v has been seen, low bounds every edge from v and above to below.
  lemma BoundsComplete(g: Graph, s: Search, t: Search, v: Vertex, low: nat)
    requires LowSoFar(g, s, t, v, |Succ(g, v)|, low)
    requires s.stack <= t.stack && t.stack[|s.stack|] == v
    requires forall x :: x in s.stack ==> x in s.index
    requires forall x :: x in s.index ==> x in t.index && t.index[x] == s.index[x]
    ensures LowBounds(g, t, |s.stack|, |s.stack|, low)
  {
    var base := |s.stack|;
    assert t.stack[..base] == s.stack;
    assert t.stack[base..] == [v] + t.stack[base + 1..];
    forall x, y | x in t.stack[base..] && y in t.stack[..base] && y in t.index && Edge(g, x, y)
      ensures low <= t.index[y]
    {
      if x == v {
        var m :| 0 <= m < |Succ(g, v)| && Succ(g, v)[m] == y;
        assert SeenEdge(g, s, t, v, m, low);
      }
    }
  }

  lemma SuccessorsSeen(g: Graph, s: Search, t: Search, v: Vertex, low: nat, y: Vertex)
    requires LowSoFar(g, s, t, v, |Succ(g, v)|, low) && Edge(g, v, y)
    ensures y in t.index
  {
    var m :| 0 <= m < |Succ(g, v)| && Succ(g, v)[m] == y;
    assert SeenEdge(g, s, t, v, m, low);
  }

  lemma LeaveBlackClosed(g: Graph, nodes: seq<Vertex>, s: Search, t: Search, v: Vertex, low: nat)
    requires Inside(g, nodes, s, t, v) && LowSoFar(g, s, t, v, |Succ(g, v)|, low)
    ensures BlackClosed(g, t.(gray := s.gray))
  {
    forall x, y | x in t.index && x !in s.gray && Edge(g, x, y) ensures y in t.index {
      if x == v { SuccessorsSeen(g, s, t, v, low, y); }
    }
  }

  // v is left on the stack above something it reaches: the members that came back to v still
  // come back to something gray.
  lemma LeaveStackReaches(g: Graph, nodes: seq<Vertex>, s: Search, t: Search, v: Vertex, low: nat)
    requires Inside(g, nodes, s, t, v) && LowReached(g, t, v, low) && low < t.index[v]
    ensures StackReaches(g, t.(gray := s.gray))
  {
    var r := GrayUnder(g, nodes, s, t, v, low);
    forall j | 0 <= j < |t.stack| ensures BackToGray(g, t.(gray := s.gray), j) {
      StillBack(g, nodes, s, t, v, r, j);
    }
  }

  lemma GrayUnder(g: Graph, nodes: seq<Vertex>, s: Search, t: Search, v: Vertex, low: nat) returns (r: nat)
    requires Inside(g, nodes, s, t, v) && LowReached(g, t, v, low) && low < t.index[v]
    ensures r < |s.stack| && t.stack[r] in s.gray && Reach(g, v, t.stack[r])
  {
    hide Reach, Emitted, BlackClosed, SccsRight, GrayReaches, FromNodes;
    var y :| y in t.stack && y in t.index && t.index[y] == low && Reach(g, v, y);
    var q :| 0 <= q < |t.stack| && t.stack[q] == y;
    assert q < |s.stack|;
    assert BackToGray(g, t, q);
    r :| 0 <= r <= q && t.stack[r] in t.gray && Reach(g, y, t.stack[r]);
    DistinctStack(t, r, |s.stack|);
    ReachTrans(g, v, y, t.stack[r]);
  }

  lemma StillBack(g: Graph, nodes: seq<Vertex>, s: Search, t: Search, v: Vertex, r: nat, j: nat)
    requires Inside(g, nodes, s, t, v) && j < |t.stack|
    requires r < |s.stack| && t.stack[r] in s.gray && Reach(g, v, t.stack[r])
    ensures BackToGray(g, t.(gray := s.gray), j)
  {
    var u, base := t.(gray := s.gray), |s.stack|;
    assert BackToGray(g, t, j);
    var i :| 0 <= i <= j && t.stack[i] in t.gray && Reach(g, t.stack[j], t.stack[i]);
    if i == base {
      ReachTrans(g, t.stack[j], v, t.stack[r]);
      assert u.stack[r] in u.gray;
    } else {
      DistinctStack(t, i, base);
      assert u.stack[i] in u.gray;
    }
  }

  lemma DistinctStack(t: Search, i: nat, j: nat)
    requires Tables(t) && i < |t.stack| && j < |t.stack| && i != j
    ensures t.stack[i] != t.stack[j]
  {
  }

  lemma LeaveOnStack(g: Graph, nodes: seq<Vertex>, s: Search, t: Search, v: Vertex, low: nat)
    requires Inside(g, nodes, s, t, v) && LowSoFar(g, s, t, v, |Succ(g, v)|, low) && low < t.index[v]
    ensures WF(g, nodes, t.(gray := s.gray)) && Grew(s, t.(gray := s.gray)) && LowFinal(g, s, t.(gray := s.gray), v, low)
  {
    hide Reach, Emitted, Edge;
    LeaveBlackClosed(g, nodes, s, t, v, low);
    LeaveStackReaches(g, nodes, s, t, v, low);
    BoundsComplete(g, s, t, v, low);
  }

  // --- leaving with a component: v and everything above it ---

  lemma NotGrayAbove(g: Graph, nodes: seq<Vertex>, s: Search, t: Search, v: Vertex, x: Vertex)
    requires Inside(g, nodes, s, t, v) && x in t.stack[|s.stack|..]
    ensures x in t.index && x !in s.gray && x !in s.stack
  {
    var j :| |s.stack| <= j < |t.stack| && t.stack[j] == x;
    assert x in t.stack;
    forall m | 0 <= m < |s.stack| ensures s.stack[m] != x {
      DistinctStack(t, m, j);
    }
  }

  lemma GrayAtMost(g: Graph, nodes: seq<Vertex>, s: Search, t: Search, v: Vertex, i: nat)
    requires Inside(g, nodes, s, t, v) && i < |t.stack| && t.stack[i] in t.gray
    ensures i <= |s.stack|
  {
    if i > |s.stack| {
      DistinctStack(t, i, |s.stack|);
      NotGrayAbove(g, nodes, s, t, v, t.stack[i]);
      assert false;
    }
  }

  // Only v is gray from v upwards, so all of it gets back to v.
  lemma AboveReturns(g: Graph, nodes: seq<Vertex>, s: Search, t: Search, v: Vertex, j: nat)
    requires Inside(g, nodes, s, t, v) && |s.stack| <= j < |t.stack|
    ensures Mutual(g, v, t.stack[j])
  {
    var base := |s.stack|;
    assert Reach(g, t.stack[base], t.stack[j]);
    assert BackToGray(g, t, j);
    var i :| 0 <= i <= j && t.stack[i] in t.gray && Reach(g, t.stack[j], t.stack[i]);
    GrayAtMost(g, nodes, s, t, v, i);
    assert Reach(g, t.stack[i], t.stack[base]);
    ReachTrans(g, t.stack[j], t.stack[i], v);
  }

  // An edge out of the popped part leads to a component that is already out.
  lemma OutOfTop(g: Graph, nodes: seq<Vertex>, s: Search, t: Search, v: Vertex, x: Vertex, y: Vertex)
    requires Inside(g, nodes, s, t, v) && LowSoFar(g, s, t, v, |Succ(g, v)|, s.next)
    requires x in t.stack[|s.stack|..] && y !in t.stack[|s.stack|..] && Edge(g, x, y)
    ensures Emitted(t.sccs, y)
  {
    BoundsComplete(g, s, t, v, s.next);
    NotBelow(g, s, t, x, y);
    LeaveBlackClosed(g, nodes, s, t, v, s.next);
    NotGrayAbove(g, nodes, s, t, v, x);
    StackSplit(s, t, y);
  }

  lemma NotBelow(g: Graph, s: Search, t: Search, x: Vertex, y: Vertex)
    requires s.stack <= t.stack && LowBounds(g, t, |s.stack|, |s.stack|, s.next)
    requires forall z :: z in s.stack ==> z in s.index && s.index[z] < s.next
    requires forall z :: z in s.index ==> z in t.index && t.index[z] == s.index[z]
    requires x in t.stack[|s.stack|..] && Edge(g, x, y)
    ensures y !in s.stack
  {
    assert t.stack[..|s.stack|] == s.stack;
  }

  // Whatever is mutually reachable with v is in the popped part.
  lemma TopIsMaximal(g: Graph, nodes: seq<Vertex>, s: Search, t: Search, v: Vertex, z: Vertex)
    requires Inside(g, nodes, s, t, v) && LowSoFar(g, s, t, v, |Succ(g, v)|, s.next)
    requires Mutual(g, v, z)
    ensures z in t.stack[|s.stack|..]
  {
    var top := t.stack[|s.stack|..];
    if z !in top {
      var p :| Path(g, p) && p[0] == v && p[|p| - 1] == z;
      assert t.stack[|s.stack|] == v && v in top;
      var x, y := Crossing(g, p, set a | a in top);
      OutOfTop(g, nodes, s, t, v, x, y);
      ReachEdge(g, x, y);
      ReachTrans(g, y, z, v);
      ReachTrans(g, y, v, x);
      var i :| 0 <= i < |t.sccs| && y in t.sccs[i];
      assert IsComponent(g, t.sccs[i]);
      assert Mutual(g, y, x);
      NotEmittedTop(t, |s.stack|, x, i);
      assert false;
    }
  }

  lemma NotEmittedTop(t: Search, base: nat, x: Vertex, i: nat)
    requires Tables(t) && base <= |t.stack| && x in t.stack[base..] && i < |t.sccs|
    ensures x !in t.sccs[i]
  {
    assert x in t.stack;
    if x in t.sccs[i] { assert Emitted(t.sccs, x); }
  }

  function Popped(s: Search, t: Search, c: seq<Vertex>): Search {
    Search(t.index, s.stack, t.sccs + [c], s.gray, t.next)
  }

  // c lists the popped part, in any order.
  ghost predicate Lists(c: seq<Vertex>, top: seq<Vertex>) {
    && (forall x :: x in c <==> x in top)
    && (forall i, j :: 0 <= i < j < |c| ==> c[i] != c[j])
  }

  lemma TopIsComponent(g: Graph, nodes: seq<Vertex>, s: Search, t: Search, v: Vertex, c: seq<Vertex>)
    requires Inside(g, nodes, s, t, v) && LowSoFar(g, s, t, v, |Succ(g, v)|, s.next)
    requires Lists(c, t.stack[|s.stack|..])
    ensures IsComponent(g, c)
  {
    var base := |s.stack|;
    var top := t.stack[base..];
    assert top[0] == v && v in top && v in c;
    forall x, z | x in c ensures z in c <==> Mutual(g, x, z) {
      var j :| base <= j < |t.stack| && t.stack[j] == x;
      AboveReturns(g, nodes, s, t, v, j);
      if z in c {
        var k :| base <= k < |t.stack| && t.stack[k] == z;
        AboveReturns(g, nodes, s, t, v, k);
        ReachTrans(g, x, v, z);
        ReachTrans(g, z, v, x);
      }
      if Mutual(g, x, z) {
        ReachTrans(g, v, x, z);
        ReachTrans(g, z, x, v);
        TopIsMaximal(g, nodes, s, t, v, z);
      }
    }
  }

  lemma PopSccs(g: Graph, nodes: seq<Vertex>, s: Search, t: Search, v: Vertex, c: seq<Vertex>)
    requires Inside(g, nodes, s, t, v) && LowSoFar(g, s, t, v, |Succ(g, v)|, s.next)
    requires Lists(c, t.stack[|s.stack|..])
    ensures SccsRight(g, Popped(s, t, c))
  {
    var u := Popped(s, t, c);
    TopIsComponent(g, nodes, s, t, v, c);
    forall i, j, x | 0 <= i < |u.sccs| && 0 <= j < |u.sccs| && x in u.sccs[i] && x in u.sccs[j] ensures i == j {
      if i < |t.sccs| && j == |t.sccs| { NotEmittedTop(t, |s.stack|, x, i); }
      if j < |t.sccs| && i == |t.sccs| { NotEmittedTop(t, |s.stack|, x, j); }
    }
    forall i, x, y | 0 <= i < |u.sccs| && x in u.sccs[i] && Edge(g, x, y)
      ensures exists j :: 0 <= j <= i && y in u.sccs[j]
    {
      if i < |t.sccs| {
        assert x in t.sccs[i];
        var j :| 0 <= j <= i && y in t.sccs[j];
        assert y in u.sccs[j];
      } else if y in c {
        assert y in u.sccs[i];
      } else {
        OutOfTop(g, nodes, s, t, v, x, y);
        var j :| 0 <= j < |t.sccs| && y in t.sccs[j];
        assert y in u.sccs[j];
      }
    }
  }

  lemma PopEmitted(s: Search, t: Search, c: seq<Vertex>, x: Vertex)
    ensures Emitted(Popped(s, t, c).sccs, x) <==> Emitted(t.sccs, x) || x in c
  {
    var u := Popped(s, t, c);
    if Emitted(t.sccs, x) {
      var i :| 0 <= i < |t.sccs| && x in t.sccs[i];
      assert x in u.sccs[i];
    }
    if x in c { assert x in u.sccs[|t.sccs|]; }
  }

  lemma PopTables(g: Graph, nodes: seq<Vertex>, s: Search, t: Search, v: Vertex, c: seq<Vertex>)
    requires Inside(g, nodes, s, t, v) && Lists(c, t.stack[|s.stack|..])
    ensures Tables(Popped(s, t, c))
  {
    hide Reach, BlackClosed, StackReaches, SccsRight, GrayReaches, FromNodes, Emitted;
    var u, base := Popped(s, t, c), |s.stack|;
    forall x ensures x in t.stack <==> x in s.stack || x in c {
      StackSplit(s, t, x);
    }
    forall x ensures Emitted(u.sccs, x) <==> Emitted(t.sccs, x) || x in c { PopEmitted(s, t, c, x); }
    forall x | x in s.stack ensures x !in c && x in t.stack {
      if x in c { NotGrayAbove(g, nodes, s, t, v, x); }
    }
    assert forall i :: 0 <= i < base ==> t.stack[i] == s.stack[i];
  }

  lemma StackSplit(s: Search, t: Search, x: Vertex)
    requires s.stack <= t.stack
    ensures x in t.stack <==> x in s.stack || x in t.stack[|s.stack|..]
  {
    assert t.stack == s.stack + t.stack[|s.stack|..];
  }

  lemma PopStackReaches(g: Graph, nodes: seq<Vertex>, s: Search, t: Search, v: Vertex, c: seq<Vertex>)
    requires Inside(g, nodes, s, t, v)
    ensures StackReaches(g, Popped(s, t, c))
  {
    var u := Popped(s, t, c);
    forall j | 0 <= j < |u.stack| ensures BackToGray(g, u, j) {
      assert BackToGray(g, s, j);
    }
  }

  lemma LeavePopped(g: Graph, nodes: seq<Vertex>, s: Search, t: Search, v: Vertex, c: seq<Vertex>)
    requires Inside(g, nodes, s, t, v) && LowSoFar(g, s, t, v, |Succ(g, v)|, s.next)
    requires Lists(c, t.stack[|s.stack|..])
    ensures WF(g, nodes, Popped(s, t, c)) && Grew(s, Popped(s, t, c)) && LowFinal(g, s, Popped(s, t, c), v, s.next)
  {
    PopTables(g, nodes, s, t, v, c);
    PopSccs(g, nodes, s, t, v, c);
    PopStackReaches(g, nodes, s, t, v, c);
    LeaveBlackClosed(g, nodes, s, t, v, s.next);
    assert s.stack[|s.stack|..] == [];
  }

  // --- the algorithm ---

  class SccFinder {
    const graph: Graph
    ghost const nodes: seq<Vertex>
    ghost const universe: set<Vertex>
    var index: map<Vertex, nat>
    var low: map<Vertex, nat>
    var onStack: map<Vertex, bool>
    var stack: seq<Vertex>
    var next: nat
    var sccs: seq<seq<Vertex>>
    ghost var gray: set<Vertex>

    ghost function S(): Search
      reads this
    {
      Search(index, stack, sccs, gray, next)
    }

    ghost predicate Closed() {
      forall x, y :: x in universe && Edge(graph, x, y) ==> y in universe
    }

    // onStack tells the stack, low is set for whatever has an index, nothing is outside.
    ghost predicate Valid()
      reads this
    {
      && Closed()
      && WF(graph, nodes, S())
      && low.Keys == index.Keys <= universe
      && (forall x :: x in stack <==> x in onStack && onStack[x])
    }

    constructor (graph: Graph, ghost nodes: seq<Vertex>, ghost universe: set<Vertex>)
      requires forall x, y :: x in universe && Edge(graph, x, y) ==> y in universe
      ensures this.graph == graph && this.nodes == nodes && this.universe == universe
      ensures Valid() && S() == Search(map[], [], [], {}, 0)
    {
      this.graph := graph;
      this.nodes := nodes;
      this.universe := universe;
      index, low, onStack := map[], map[], map[];
      stack, next, sccs, gray := [], 0, [], {};
    }

    method StrongConnect(v: Vertex)
      requires Valid() && v in universe && v !in index
      requires GrayReaches(graph, S(), v) && FromNodes(graph, nodes, v)
      modifies this
      ensures Valid() && Grew(old(S()), S())
      ensures v in low && LowFinal(graph, old(S()), S(), v, low[v])
      ensures forall x :: x in old(low) ==> x in low && low[x] == old(low)[x]
      decreases universe - index.Keys, 0
    {
      hide WF, Grew, LowFinal, Inside, LowSoFar, GrayReaches, FromNodes;
      ghost var s := S();
      Enter(v);
      var succ := if v in graph then graph[v] else [];
      var k := 0;
      while k < |succ|
        invariant 0 <= k <= |succ| && Valid()
        invariant v in low && Inside(graph, nodes, s, S(), v) && LowSoFar(graph, s, S(), v, k, low[v])
        invariant forall x :: x in s.index ==> x in low && x in old(low) && low[x] == old(low)[x]
      {
        assert s.index.Keys < index.Keys;
        Visit(v, succ[k], k, s);
        k := k + 1;
      }
      InsideFacts(s, v);
      LowAtMost(graph, s, S(), v, low[v]);
      if low[v] == index[v] {
        Emit(v, s);
      } else {
        LeaveOnStack(graph, nodes, s, S(), v, low[v]);
        gray := gray - {v};
      }
    }

    method Enter(v: Vertex)
      requires Valid() && v in universe && v !in index
      requires GrayReaches(graph, S(), v) && FromNodes(graph, nodes, v)
      modifies this
      ensures Valid() && S() == Pushed(old(S()), v) && low == old(low)[v := old(next)]
      ensures Inside(graph, nodes, old(S()), S(), v) && LowSoFar(graph, old(S()), S(), v, 0, low[v])
    {
      hide WF, LowSoFar, GrayReaches, FromNodes, Inside;
      StartMidway(graph, nodes, S(), v);
      index := index[v := next];
      low := low[v := next];
      next := next + 1;
      stack := stack + [v];
      onStack := onStack[v := true];
      gray := gray + {v};
    }

    // One edge v -> w of the depth-first pass.
    method Visit(v: Vertex, w: Vertex, k: nat, ghost s: Search)
      requires Valid() && v in low && k < |Succ(graph, v)| && w == Succ(graph, v)[k]
      requires Inside(graph, nodes, s, S(), v) && LowSoFar(graph, s, S(), v, k, low[v])
      modifies this
      ensures Valid() && v in low && Inside(graph, nodes, s, S(), v) && LowSoFar(graph, s, S(), v, k + 1, low[v])
      ensures forall x :: x in s.index ==> x in low && x in old(low) && low[x] == old(low)[x]
      decreases universe - index.Keys, 2
    {
      hide WF, LowSoFar, GrayReaches, FromNodes, Inside, Emitted, Reach;
      ghost var t := S();
      assert Edge(graph, v, w);
      InsideFacts(s, v);
      ToSuccessor(graph, nodes, s, t, v, k);
      if w !in index {
        Descend(v, w, k, s);
      } else if w in onStack && onStack[w] {
        AfterOnStack(graph, s, t, v, k, low[v]);
        low := low[v := if low[v] < index[w] then low[v] else index[w]];
      } else {
        AfterEmitted(graph, s, t, v, k, low[v]);
      }
    }

    method Descend(v: Vertex, w: Vertex, k: nat, ghost s: Search)
      requires Valid() && v in low && k < |Succ(graph, v)| && w == Succ(graph, v)[k]
      requires Inside(graph, nodes, s, S(), v) && LowSoFar(graph, s, S(), v, k, low[v])
      requires w !in index && GrayReaches(graph, S(), w) && FromNodes(graph, nodes, w) && Reach(graph, v, w) && w in universe
      modifies this
      ensures Valid() && v in low && Inside(graph, nodes, s, S(), v) && LowSoFar(graph, s, S(), v, k + 1, low[v])
      ensures forall x :: x in s.index ==> x in low && x in old(low) && low[x] == old(low)[x]
      decreases universe - index.Keys, 1
    {
      hide WF, LowSoFar, Inside, GrayReaches, FromNodes, Grew;
      ghost var t := S();
      InsideFacts(s, v);
      StrongConnect(w);
      InsideGrew(graph, nodes, s, t, S(), v);
      AfterCall(graph, s, t, S(), v, k, low[v], low[w]);
      low := low[v := if low[v] < low[w] then low[v] else low[w]];
    }

    lemma InsideFacts(s: Search, v: Vertex)
      requires Valid() && Inside(graph, nodes, s, S(), v)
      ensures s.next < next && v in universe && v in index && index[v] == s.next && gray - {v} == s.gray
      ensures s.stack <= stack && |s.stack| < |stack| && stack[|s.stack|] == v
      ensures forall x :: x in s.stack ==> x in s.index && x in stack
      ensures forall x :: x in s.index ==> x in index && index[x] == s.index[x] && x != v
      ensures forall w :: Edge(graph, v, w) ==> w in universe
    {
      assert v !in s.stack && v !in s.gray;
    }

    // Pop v and everything above it.
    method Emit(v: Vertex, ghost s: Search)
      requires Valid() && Inside(graph, nodes, s, S(), v) && LowSoFar(graph, s, S(), v, |Succ(graph, v)|, s.next)
      modifies this
      ensures Valid() && low == old(low)
      ensures Grew(s, S()) && LowFinal(graph, s, S(), v, s.next)
    {
      hide WF, LowSoFar, Inside, Grew, LowFinal;
      ghost var t := S();
      InsideFacts(s, v);
      StackDistinct(graph, nodes, t);
      var scc := PopTo(v, |s.stack|);
      sccs := sccs + [scc];
      gray := gray - {v};
      assert stack == s.stack;
      LeavePopped(graph, nodes, s, t, v, scc);
    }

    method PopTo(v: Vertex, ghost base: nat) returns (scc: seq<Vertex>)
      requires base < |stack| && stack[base] == v
      requires forall i, j :: 0 <= i < j < |stack| ==> stack[i] != stack[j]
      requires forall x :: x in stack <==> x in onStack && onStack[x]
      modifies this`stack, this`onStack
      ensures stack == old(stack)[..base] && Lists(scc, old(stack)[base..])
      ensures forall x :: x in stack <==> x in onStack && onStack[x]
    {
      scc := [];
      while true
        invariant base < |stack| <= |old(stack)| && stack == old(stack)[..|stack|]
        invariant |scc| == |old(stack)| - |stack|
        invariant forall i :: 0 <= i < |scc| ==> scc[i] == old(stack)[|old(stack)| - 1 - i]
        invariant forall x :: x in stack <==> x in onStack && onStack[x]
        decreases |stack|
      {
        var w := stack[|stack| - 1];
        stack := stack[..|stack| - 1];
        onStack := onStack[w := false];
        scc := scc + [w];
        if w == v { break; }
      }
      var was := old(stack);
      assert |stack| == base;
      forall x | x in was[base..] ensures x in scc {
        var j :| base <= j < |was| && was[j] == x;
        assert scc[|was| - 1 - j] == x;
      }
    }
  }

  lemma LowAtMost(g: Graph, s: Search, t: Search, v: Vertex, low: nat)
    requires LowSoFar(g, s, t, v, |Succ(g, v)|, low)
    ensures low <= s.next
  {
  }

  lemma StackDistinct(g: Graph, nodes: seq<Vertex>, t: Search)
    requires WF(g, nodes, t)
    ensures forall i, j :: 0 <= i < j < |t.stack| ==> t.stack[i] != t.stack[j]
  {
    forall i, j | 0 <= i < j < |t.stack| ensures t.stack[i] != t.stack[j] { DistinctStack(t, i, j); }
  }

  lemma InsideGrew(g: Graph, nodes: seq<Vertex>, s: Search, t: Search, u: Search, v: Vertex)
    requires Inside(g, nodes, s, t, v) && Grew(t, u) && WF(g, nodes, u)
    ensures Inside(g, nodes, s, u, v)
  {
    assert u.stack[|s.stack|] == t.stack[|s.stack|];
  }

  // The whole run: from every node that has not been reached yet.
  method TarjanScc(graph: Graph, nodes: seq<Vertex>) returns (sccs: seq<seq<Vertex>>)
    ensures Condensation(graph, nodes, sccs)
  {
    hide WF, LowFinal, Condensation, Edge;
    ghost var universe := Vertices(graph, nodes);
    var f := new SccFinder(graph, nodes, universe);
    for i := 0 to |nodes|
      invariant f.Valid() && f.graph == graph && f.nodes == nodes && f.universe == universe && f.gray == {}
      invariant forall j :: 0 <= j < i ==> nodes[j] in f.index
      invariant fresh(f)
    {
      var v := nodes[i];
      if v !in f.index {
        ReachSelf(graph, v);
        f.StrongConnect(v);
      }
    }
    sccs := f.sccs;
    AllEmitted(graph, nodes, f.S());
  }

  ghost function Vertices(g: Graph, nodes: seq<Vertex>): (u: set<Vertex>)
    ensures forall n :: n in nodes ==> n in u
    ensures forall x, y :: x in u && Edge(g, x, y) ==> y in u
  {
    (set n | n in nodes) + (set v, i | v in g && 0 <= i < |g[v]| :: g[v][i])
  }

  // With nothing gray left the stack is empty, and what has an index is what nodes reach.
  lemma NothingLeft(g: Graph, nodes: seq<Vertex>, s: Search, x: Vertex)
    requires WF(g, nodes, s) && s.gray == {}
    ensures Emitted(s.sccs, x) <==> x in s.index
  {
    assert s.stack != [] ==> BackToGray(g, s, 0);
  }

  lemma ReachedHasIndex(g: Graph, nodes: seq<Vertex>, s: Search, n: Vertex, x: Vertex)
    requires BlackClosed(g, s) && s.gray == {} && n in s.index && Reach(g, n, x)
    ensures x in s.index
  {
    if x !in s.index {
      var p :| Path(g, p) && p[0] == n && p[|p| - 1] == x;
      var a, b := Crossing(g, p, s.index.Keys);
      assert false;
    }
  }

  lemma AllEmitted(g: Graph, nodes: seq<Vertex>, s: Search)
    requires WF(g, nodes, s) && s.gray == {} && forall n :: n in nodes ==> n in s.index
    ensures Condensation(g, nodes, s.sccs)
  {
    hide Reach, Emitted, Tables, StackReaches;
    forall x ensures Emitted(s.sccs, x) <==> FromNodes(g, nodes, x) {
      NothingLeft(g, nodes, s, x);
      if FromNodes(g, nodes, x) {
        var n :| n in nodes && Reach(g, n, x);
        ReachedHasIndex(g, nodes, s, n, x);
      }
    }
  }

  // --- what the order is for ---

  // Any chain of references out of a component ends in it or in one inferred before it.
  lemma {:induction false} ReferencesComeFirst(g: Graph, nodes: seq<Vertex>, sccs: seq<seq<Vertex>>, i: nat, p: seq<Vertex>) returns (j: nat)
    requires Condensation(g, nodes, sccs) && i < |sccs| && Path(g, p) && p[0] in sccs[i]
    ensures j <= i && p[|p| - 1] in sccs[j]
    decreases |p|
  {
    if |p| == 1 {
      j := i;
    } else {
      assert Edge(g, p[0], p[1]);
      var m :| 0 <= m <= i && p[1] in sccs[m];
      assert Path(g, p[1..]) by {
        forall k | 0 <= k < |p[1..]| - 1 ensures Edge(g, p[1..][k], p[1..][k + 1]) { assert Edge(g, p[k + 1], p[k + 2]); }
      }
      j := ReferencesComeFirst(g, nodes, sccs, m, p[1..]);
    }
  }

  // The components are determined by the graph: another run may only list them, and their
  // members, in another order.
  lemma ComponentsUnique(g: Graph, nodes: seq<Vertex>, a: seq<seq<Vertex>>, b: seq<seq<Vertex>>, i: nat) returns (j: nat)
    requires Condensation(g, nodes, a) && Condensation(g, nodes, b) && i < |a|
    ensures j < |b| && forall x :: x in a[i] <==> x in b[j]
  {
    assert IsComponent(g, a[i]);
    var v := a[i][0];
    assert v in a[i] && Emitted(a, v);
    assert Emitted(b, v);
    j :| 0 <= j < |b| && v in b[j];
    assert IsComponent(g, b[j]);
  }
}
