/** The findings that report context cycles: a component with its internal edges each. */
module Cycles {
  import opened Graphs
  import opened Ordering
  import opened Components

  type Pair = (Node, Node)

  datatype CycleFinding = CycleFinding(rule: string, members: seq<Node>, edges: seq<Pair>)

  function EdgeText(e: Pair): string {
    e.0 + "->" + e.1
  }

  /** Edges are listed in the order of their rendered text. */
  predicate EdgeLeq(d: Pair, e: Pair) {
    NameLeq(EdgeText(d), EdgeText(e))
  }

  /** The edge lies on a directed cycle: its end leads back to its start. */
  ghost predicate OnCycle(g: Graph, a: Node, b: Node) {
    Edge(g, a, b) && Reach(g, b, a)
  }

  lemma EdgeLeqRanks()
    ensures Ranks(EdgeLeq)
  {
    NameLeqTotal();
  }

  /** The sorted edges whose two ends are both in `component`. */
  method InternalEdges(g: Graph, component: seq<Node>) returns (edges: seq<Pair>)
    requires Distinct(component)
    ensures Ascending(EdgeLeq, edges) && Distinct(edges)
    ensures forall a, b :: (a, b) in edges <==> a in component && b in component && Edge(g, a, b)
  {
    var found: seq<Pair> := [];
    for i := 0 to |component|
      invariant Distinct(found)
      invariant forall a, b :: (a, b) in found <==> a in component[..i] && b in component && Edge(g, a, b)
    {
      var source := component[i];
      assert component[..i + 1] == component[..i] + [source];
      assert source !in component[..i];
      var targets := Succ(g, source);
      while targets != {}
        invariant targets <= Succ(g, source) && Distinct(found)
        invariant forall a, b :: (a, b) in found <==>
                    && b in component && Edge(g, a, b)
                    && (a in component[..i] || (a == source && b !in targets))
        decreases targets
      {
        var target :| target in targets;
        targets := targets - {target};
        if target in component {
          found := found + [(source, target)];
        }
      }
    }
    assert component[..|component|] == component;
    EdgeLeqRanks();
    SortAscending(EdgeLeq, found);
    SortDistinct(EdgeLeq, found);
    SameMultisetSameMembers(Sort(EdgeLeq, found), found);
    edges := Sort(EdgeLeq, found);
  }

  /** The ends of an edge are in one component exactly when the edge lies on a cycle. */
  lemma CycleEdgeInComponent(g: Graph, a: Node, b: Node, c: set<Node>)
    requires IsComponent(g, c) && a in c && Edge(g, a, b)
    ensures b in c <==> OnCycle(g, a, b)
  {
    ReachEdge(g, a, b);
  }

  /** Mutual reachability from a name, restricted to the finite universe, is a component. */
  lemma ComponentOf(g: Graph, a: Node, b: Node) returns (c: set<Node>)
    requires OnCycle(g, a, b) && a != b
    ensures IsComponent(g, c) && a in c && b in c && |c| > 1
  {
    c := set x | x in Universe(g) && Mutual(g, a, x);
    ReachSelf(g, a);
    ReachEdge(g, a, b);
    forall x | Mutual(g, a, x) ensures x in Universe(g) {
      if x != a {
        var t := ReachFirstStep(g, x, a);
      }
    }
    forall x, y | x in c ensures y in c <==> Mutual(g, x, y) {
      if y in c {
        ReachTrans(g, x, a, y);
        ReachTrans(g, y, a, x);
      }
      if Mutual(g, x, y) {
        ReachTrans(g, a, x, y);
        ReachTrans(g, y, x, a);
      }
    }
    assert {a, b} <= c;
    assert |c - {a}| == |c| - 1 && b in c - {a};
  }

  /** The finding lists exactly the internal edges of one component. */
  ghost predicate Reports(g: Graph, finding: CycleFinding) {
    && Ascending(NameLeq, finding.members) && Distinct(finding.members)
    && IsComponent(g, Elements(finding.members)) && |Elements(finding.members)| > 1
    && Ascending(EdgeLeq, finding.edges) && Distinct(finding.edges)
    && forall a, b :: (a, b) in finding.edges <==> a in finding.members && b in finding.members && Edge(g, a, b)
  }

  /** `context_cycle_violations`: an edge between two contexts is listed if and only if it lies on a
      directed cycle, and then in one finding only, once. */
  method ContextCycleViolations(graph: map<Node, seq<Node>>, rule: string) returns (findings: seq<CycleFinding>)
    ensures var g := map n | n in graph :: Elements(graph[n]);
            && (forall f :: f in findings ==> f.rule == rule && Reports(g, f))
            && (forall a, b :: a != b ==> (OnCycle(g, a, b) <==> exists f :: f in findings && (a, b) in f.edges))
            && (forall i, j, e :: 0 <= i < j < |findings| && e in findings[i].edges ==> e !in findings[j].edges)
  {
    hide IsComponent, Ascending, Distinct, NameLeq, EdgeLeq, NamesLeq, OnCycle, Reach, Reports, Lists;
    var g: Graph := map n | n in graph :: Elements(graph[n]);
    var components := StronglyConnectedComponents(g);
    findings := [];
    for i := 0 to |components|
      invariant |findings| == i
      invariant forall k :: 0 <= k < i ==>
                  findings[k].rule == rule && Reports(g, findings[k]) && findings[k].members == components[k]
    {
      ListedAt(components, i);
      var edges := InternalEdges(g, components[i]);
      ReportsComponent(g, components[i], edges, rule);
      findings := findings + [CycleFinding(rule, components[i], edges)];
    }
    forall c | IsComponent(g, c) && |c| > 1 ensures exists f :: f in findings && Elements(f.members) == c {
      ReportedAt(components, findings, c);
    }
    forall a, b | a != b ensures OnCycle(g, a, b) <==> exists f :: f in findings && (a, b) in f.edges {
      ListedIffOnCycle(g, findings, a, b);
    }
    forall i, j | 0 <= i < j < |findings| ensures forall e :: e in findings[i].edges ==> e !in findings[j].edges {
      DifferentAt(components, i, j);
      ListedOnce(g, findings[i], findings[j]);
    }
  }

  lemma DifferentAt(components: seq<seq<Node>>, i: nat, j: nat)
    requires Distinct(components) && i < j < |components|
    ensures components[i] != components[j]
  {
  }

  lemma ListedAt(components: seq<seq<Node>>, i: nat)
    requires i < |components|
    ensures components[i] in components && Lists(components, Elements(components[i]))
  {
  }

  lemma ReportedAt(components: seq<seq<Node>>, findings: seq<CycleFinding>, c: set<Node>)
    requires Lists(components, c) && |findings| == |components|
    requires forall k :: 0 <= k < |findings| ==> findings[k].members == components[k]
    ensures exists f :: f in findings && Elements(f.members) == c
  {
    var k :| 0 <= k < |components| && Elements(components[k]) == c;
    assert findings[k] in findings;
  }

  lemma ReportsComponent(g: Graph, component: seq<Node>, edges: seq<Pair>, rule: string)
    requires Ascending(NameLeq, component) && Distinct(component)
    requires IsComponent(g, Elements(component)) && |Elements(component)| > 1
    requires Ascending(EdgeLeq, edges) && Distinct(edges)
    requires forall a, b :: (a, b) in edges <==> a in component && b in component && Edge(g, a, b)
    ensures Reports(g, CycleFinding(rule, component, edges))
  {
    hide IsComponent, Ascending, Distinct, NameLeq, EdgeLeq;
  }

  lemma ListedIffOnCycle(g: Graph, findings: seq<CycleFinding>, a: Node, b: Node)
    requires a != b
    requires forall f :: f in findings ==> Reports(g, f)
    requires forall c :: IsComponent(g, c) && |c| > 1 ==> exists f :: f in findings && Elements(f.members) == c
    ensures OnCycle(g, a, b) <==> exists f :: f in findings && (a, b) in f.edges
  {
    if OnCycle(g, a, b) {
      var c := ComponentOf(g, a, b);
      var f :| f in findings && Elements(f.members) == c;
      assert a in Elements(f.members) && b in Elements(f.members);
      assert (a, b) in f.edges;
    }
    if exists f :: f in findings && (a, b) in f.edges {
      var f :| f in findings && (a, b) in f.edges;
      CycleEdgeInComponent(g, a, b, Elements(f.members));
    }
  }

  lemma ListedOnce(g: Graph, f: CycleFinding, h: CycleFinding)
    requires Reports(g, f) && Reports(g, h) && f.members != h.members
    ensures forall e :: e in f.edges ==> e !in h.edges
  {
    forall e: Pair | e in f.edges ensures e !in h.edges {
      assert (e.0, e.1) == e;
      assert e.0 in Elements(f.members);
      if Elements(f.members) == Elements(h.members) {
        NameLeqTotal();
        AscendingUnique(NameLeq, f.members, h.members);
      } else if e.0 in Elements(h.members) {
        SharedMember(g, Elements(f.members), Elements(h.members), e.0);
      }
    }
  }
}
