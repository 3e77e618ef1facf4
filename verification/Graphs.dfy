/** Directed graphs as the gates hold them: a mapping from names to sets of names, in
    which an edge may point at a name that is not itself a key. */
module Graphs {
  type Node = string
  type Graph = map<Node, set<Node>>

  /** `graph.get(node, set())` */
  function Succ(g: Graph, n: Node): set<Node> {
    if n in g then g[n] else {}
  }

  function Universe(g: Graph): set<Node> {
    g.Keys + set n, t | n in g && t in g[n] :: t
  }

  ghost predicate Edge(g: Graph, a: Node, b: Node) {
    b in Succ(g, a)
  }

  ghost predicate Walk(g: Graph, p: seq<Node>) {
    |p| > 0 && (|p| > 1 ==> Edge(g, p[0], p[1]) && Walk(g, p[1..]))
  }

  ghost predicate WalkFromTo(g: Graph, p: seq<Node>, a: Node, b: Node) {
    Walk(g, p) && p[0] == a && p[|p| - 1] == b
  }

  ghost predicate Reach(g: Graph, a: Node, b: Node) {
    exists p :: WalkFromTo(g, p, a, b)
  }

  ghost predicate ClosedWalk(g: Graph, p: seq<Node>) {
    Walk(g, p) && |p| > 1 && p[0] == p[|p| - 1]
  }

  ghost predicate HasCycle(g: Graph) {
    exists p :: ClosedWalk(g, p)
  }

  ghost predicate Mutual(g: Graph, a: Node, b: Node) {
    Reach(g, a, b) && Reach(g, b, a)
  }

  /** A strongly connected component: a whole class of mutual reachability. */
  ghost predicate IsComponent(g: Graph, c: set<Node>) {
    && c != {}
    && forall x, y :: x in c ==> (y in c <==> Mutual(g, x, y))
  }

  /** `S` has no edge leaving it. */
  ghost predicate Closed(g: Graph, s: set<Node>) {
    forall x {:trigger Succ(g, x)} :: x in s ==> Succ(g, x) <= s
  }

  lemma ReachSelf(g: Graph, a: Node)
    ensures Reach(g, a, a)
  {
    assert WalkFromTo(g, [a], a, a);
  }

  lemma ReachEdge(g: Graph, a: Node, b: Node)
    requires Edge(g, a, b)
    ensures Reach(g, a, b)
  {
    assert Walk(g, [a, b][1..]);
    assert WalkFromTo(g, [a, b], a, b);
  }

  lemma {:induction false} WalkJoin(g: Graph, p: seq<Node>, q: seq<Node>)
    requires Walk(g, p) && Walk(g, q) && p[|p| - 1] == q[0]
    ensures Walk(g, p + q[1..])
    ensures (p + q[1..])[0] == p[0] && (p + q[1..])[|p + q[1..]| - 1] == q[|q| - 1]
  {
    if |p| == 1 {
      assert p + q[1..] == q;
    } else {
      WalkJoin(g, p[1..], q);
      assert (p + q[1..])[1..] == p[1..] + q[1..];
    }
  }

  lemma ReachTrans(g: Graph, a: Node, b: Node, c: Node)
    requires Reach(g, a, b) && Reach(g, b, c)
    ensures Reach(g, a, c)
  {
    var p :| WalkFromTo(g, p, a, b);
    var q :| WalkFromTo(g, q, b, c);
    WalkJoin(g, p, q);
    assert WalkFromTo(g, p + q[1..], a, c);
  }

  lemma {:induction false} WalkStaysInside(g: Graph, s: set<Node>, p: seq<Node>)
    requires Closed(g, s) && Walk(g, p) && p[0] in s
    ensures p[|p| - 1] in s
  {
    if |p| > 1 {
      WalkStaysInside(g, s, p[1..]);
    }
  }

  /** Nothing outside a closed set is reachable from inside it. */
  lemma ReachStaysInside(g: Graph, s: set<Node>, a: Node, b: Node)
    requires Closed(g, s) && a in s && Reach(g, a, b)
    ensures b in s
  {
    var p :| WalkFromTo(g, p, a, b);
    WalkStaysInside(g, s, p);
  }

  /** A walk that leaves its start leaves it over an edge. */
  lemma ReachFirstStep(g: Graph, a: Node, b: Node) returns (t: Node)
    requires Reach(g, a, b) && a != b
    ensures Edge(g, a, t) && Reach(g, t, b)
  {
    var p :| WalkFromTo(g, p, a, b);
    t := p[1];
    assert WalkFromTo(g, p[1..], t, b);
  }
}
