/** The decision whether a retained finding is inside the strict deferral scope. */
module Deferrals {
  import opened Graphs
  import opened Ordering
  import opened Components
  import opened Wrappers
  import Cycles
  import EdgeText

  type Pair = Cycles.Pair

  const CYCLE_RULES: set<string> := {"business_context_cycle", "runtime_context_cycle"}

  datatype Rejection =
    | OutsideScope(involved: set<string>)
    | ResidualCycle(selfCycles: seq<Node>, components: seq<seq<Node>>)

  /** The edges of a finding between contexts that the manifest knows. */
  ghost predicate KnownEdge(edges: seq<Pair>, known: set<Node>, a: Node, b: Node) {
    (a, b) in edges && a in known && b in known
  }

  /** A directed cycle of known edges, written as the list of its contexts with the first one repeated. */
  ghost predicate KnownCycle(edges: seq<Pair>, known: set<Node>, p: seq<Node>) {
    && |p| > 1 && p[0] == p[|p| - 1]
    && forall i :: 0 < i < |p| ==> KnownEdge(edges, known, p[i - 1], p[i])
  }

  /** `residual` holds the known edges that avoid the allowed contexts, and both their ends as keys. */
  ghost predicate IsResidual(residual: Graph, edges: seq<Pair>, known: set<Node>, allowed: set<Node>) {
    forall a, b :: Edge(residual, a, b) <==> KnownEdge(edges, known, a, b) && a !in allowed && b !in allowed
  }

  /** `residual_graph.setdefault(source, set()).add(target)` and `setdefault(target, set())` */
  function AddEdge(g: Graph, source: Node, target: Node): Graph {
    var h := g[source := Succ(g, source) + {target}];
    h[target := Succ(h, target)]
  }

  method ResidualGraph(edges: seq<Pair>, known: set<Node>, allowed: set<Node>) returns (residual: Graph)
    ensures IsResidual(residual, edges, known, allowed)
  {
    residual := map[];
    for i := 0 to |edges|
      invariant IsResidual(residual, edges[..i], known, allowed)
    {
      var (source, target) := edges[i];
      assert edges[..i + 1] == edges[..i] + [edges[i]];
      ghost var before := residual;
      if source in known && target in known && source !in allowed && target !in allowed {
        residual := AddEdge(residual, source, target);
        assert forall a, b :: Edge(residual, a, b) <==> Edge(before, a, b) || (a == source && b == target);
      }
    }
    assert edges[..|edges|] == edges;
  }

  lemma {:induction false} WalkAt(g: Graph, p: seq<Node>)
    requires |p| > 0
    ensures Walk(g, p) <==> forall i :: 0 < i < |p| ==> Edge(g, p[i - 1], p[i])
  {
    if |p| > 1 {
      WalkAt(g, p[1..]);
      if Walk(g, p) {
        forall i | 0 < i < |p| ensures Edge(g, p[i - 1], p[i]) {
          assert i > 1 ==> p[i - 1] == p[1..][i - 2] && p[i] == p[1..][i - 1];
        }
      }
      if forall i :: 0 < i < |p| ==> Edge(g, p[i - 1], p[i]) {
        forall i | 0 < i < |p[1..]| ensures Edge(g, p[1..][i - 1], p[1..][i]) {
          assert Edge(g, p[i + 1 - 1], p[i + 1]);
        }
        assert Edge(g, p[1 - 1], p[1]);
      }
    }
  }

  /** A closed walk of a graph is a self-loop or lies in a component with several members. */
  lemma ClosedWalkSeen(g: Graph, p: seq<Node>)
    requires ClosedWalk(g, p)
    ensures Edge(g, p[0], p[0]) || exists c :: IsComponent(g, c) && |c| > 1
  {
    if p[0] != p[1] {
      assert WalkFromTo(g, p[1..], p[1], p[0]);
      var c := Cycles.ComponentOf(g, p[0], p[1]);
    }
  }

  /** A component with several members contains a closed walk. */
  lemma ComponentCloses(g: Graph, c: set<Node>) returns (p: seq<Node>)
    requires IsComponent(g, c) && |c| > 1
    ensures ClosedWalk(g, p)
  {
    var x :| x in c;
    assert |c - {x}| > 0;
    var y :| y in c - {x};
    assert Mutual(g, x, y);
    var t := ReachFirstStep(g, x, y);
    ReachTrans(g, t, y, x);
    var q :| WalkFromTo(g, q, t, x);
    p := [x] + q;
    assert p[1..] == q;
  }

  /** Self-loops and components with several members are all the cycles there are. */
  lemma CyclesSeen(residual: Graph)
    ensures HasCycle(residual) <==>
              (exists a :: Edge(residual, a, a)) || (exists c :: IsComponent(residual, c) && |c| > 1)
  {
    if HasCycle(residual) {
      var p :| ClosedWalk(residual, p);
      ClosedWalkSeen(residual, p);
    }
    if exists a :: Edge(residual, a, a) {
      var a :| Edge(residual, a, a);
      assert Walk(residual, [a, a][1..]);
      assert ClosedWalk(residual, [a, a]);
    }
    if exists c :: IsComponent(residual, c) && |c| > 1 {
      var c :| IsComponent(residual, c) && |c| > 1;
      var p := ComponentCloses(residual, c);
    }
  }

  /** The residual graph is acyclic exactly when the allowed contexts meet every known cycle. */
  lemma ResidualAcyclicIff(residual: Graph, edges: seq<Pair>, known: set<Node>, allowed: set<Node>)
    requires IsResidual(residual, edges, known, allowed)
    ensures !HasCycle(residual) <==> forall p :: KnownCycle(edges, known, p) ==> exists x :: x in p && x in allowed
  {
    if HasCycle(residual) {
      var p :| ClosedWalk(residual, p);
      WalkAt(residual, p);
      forall i | 0 < i < |p| ensures KnownEdge(edges, known, p[i - 1], p[i]) && p[i] !in allowed {
        assert Edge(residual, p[i - 1], p[i]);
      }
      assert KnownCycle(edges, known, p);
      assert p[0] !in allowed;
    }
    forall p | KnownCycle(edges, known, p) && !HasCycle(residual) ensures exists x :: x in p && x in allowed {
      assert !ClosedWalk(residual, p);
      WalkAt(residual, p);
      var i :| 0 < i < |p| && !Edge(residual, p[i - 1], p[i]);
      assert KnownEdge(edges, known, p[i - 1], p[i]);
      assert p[i - 1] in p && p[i] in p;
    }
  }

  /** The allowed contexts are a feedback vertex set of the known edges: every cycle meets them. */
  ghost predicate FeedbackSet(edges: seq<Pair>, known: set<Node>, allowed: set<Node>) {
    forall p :: KnownCycle(edges, known, p) ==> exists x :: x in p && x in allowed
  }

  /** The search for cycles that avoid the allowed contexts. */
  method ResidualRejection(edges: seq<Pair>, known: set<Node>, allowed: set<Node>) returns (reason: Option<Rejection>)
    ensures reason.None? <==> FeedbackSet(edges, known, allowed)
    ensures reason.Some? ==>
              reason.value.ResidualCycle? && forall names :: names in reason.value.components ==> Elements(names) !! allowed
  {
    var residual := ResidualGraph(edges, known, allowed);
    var selfCycles := SortNames(set a | a in residual && a in residual[a]);
    var components := StronglyConnectedComponents(residual);
    ResidualAcyclicIff(residual, edges, known, allowed);
    CyclesSeen(residual);
    assert forall a :: a in selfCycles <==> Edge(residual, a, a) by {
      assert forall a :: a in selfCycles <==> a in Elements(selfCycles);
    }
    assert components != [] <==> exists c :: IsComponent(residual, c) && |c| > 1 by {
      assert forall c :: IsComponent(residual, c) && |c| > 1 <==> Lists(components, c);
      if components != [] {
        assert Lists(components, Elements(components[0]));
      }
    }
    if selfCycles != [] || components != [] {
      if selfCycles != [] {
        assert Edge(residual, selfCycles[0], selfCycles[0]);
      }
      reason := Some(ResidualCycle(selfCycles, components));
      forall names | names in components ensures Elements(names) !! allowed {
        assert Lists(components, Elements(names));
        ResidualMembers(residual, edges, known, allowed, Elements(names));
      }
    } else {
      reason := None;
    }
  }

  /** `strict_deferral_rejection_reason`: a cycle finding that touches an allowed context is accepted
      if and only if the allowed contexts are a feedback vertex set of the known edges read from its detail. */
  method StrictDeferralRejectionReason(rule: string, involved: set<string>, detail: string,
                                       known: set<Node>, allowed: set<Node>)
    returns (reason: Option<Rejection>)
    ensures reason.None? <==>
              && involved * allowed != {}
              && (rule in CYCLE_RULES ==> FeedbackSet(EdgeText.ReadEdges(detail), known, allowed))
    ensures involved * allowed == {} ==> reason == Some(OutsideScope(involved))
    ensures reason.Some? && reason.value.ResidualCycle? ==>
              forall names :: names in reason.value.components ==> Elements(names) !! allowed
  {
    hide FeedbackSet, EdgeText.ReadEdges;
    if involved * allowed == {} {
      return Some(OutsideScope(involved));
    }
    if rule !in CYCLE_RULES {
      return None;
    }
    reason := ResidualRejection(EdgeText.ReadEdges(detail), known, allowed);
  }

  /** The answer depends on the cycles for the findings of the two cycle rules only. */
  lemma AcceptedIff(rule: string, involved: set<string>, detail: string, known: set<Node>, allowed: set<Node>)
    ensures involved * allowed != {} && (rule in CYCLE_RULES ==> FeedbackSet(EdgeText.ReadEdges(detail), known, allowed))
       <==> (exists context :: context in involved && context in allowed)
            && (rule in {"business_context_cycle", "runtime_context_cycle"} ==>
                  forall p :: KnownCycle(EdgeText.ReadEdges(detail), known, p) ==> exists x :: x in p && x in allowed)
  {
    hide KnownCycle, EdgeText.ReadEdges;
    assert forall context :: context in involved * allowed <==> context in involved && context in allowed;
  }

  lemma ResidualMembers(residual: Graph, edges: seq<Pair>, known: set<Node>, allowed: set<Node>, c: set<Node>)
    requires IsResidual(residual, edges, known, allowed) && IsComponent(residual, c) && |c| > 1
    ensures c !! allowed
  {
    forall x | x in c ensures x !in allowed {
      assert |c - {x}| > 0;
      var y :| y in c - {x};
      assert Mutual(residual, x, y);
      var t := ReachFirstStep(residual, x, y);
    }
  }

  /** The known cycles of a finding that `ContextCycleViolations` reported are the closed walks of the
      whole graph that touch its component: the deferral check sees every one of them. */
  lemma ReportedCycles(g: Graph, f: Cycles.CycleFinding, known: set<Node>, p: seq<Node>)
    requires Cycles.Reports(g, f) && Elements(f.members) <= known
    ensures KnownCycle(f.edges, known, p) <==>
              ClosedWalk(g, p) && p[0] in f.members
  {
    if |p| > 1 && p[0] == p[|p| - 1] {
      WalkAt(g, p);
      if KnownCycle(f.edges, known, p) {
        assert KnownEdge(f.edges, known, p[1 - 1], p[1]);
        assert forall i :: 0 < i < |p| ==> KnownEdge(f.edges, known, p[i - 1], p[i]) ==> Edge(g, p[i - 1], p[i]);
      }
      if Walk(g, p) && p[0] in f.members {
        assert forall x :: x in f.members <==> x in Elements(f.members);
        forall i | 0 <= i < |p| ensures p[i] in f.members {
          ClosedWalkIsMutual(g, p, i);
        }
        forall i | 0 < i < |p| ensures KnownEdge(f.edges, known, p[i - 1], p[i]) {
          assert Edge(g, p[i - 1], p[i]);
        }
      }
    }
  }

  /** So for a reported finding whose members have names that the pattern matches, the decision is about all
      closed walks of the whole graph that start in its component. */
  lemma ReportedDecision(g: Graph, f: Cycles.CycleFinding, known: set<Node>, allowed: set<Node>)
    requires Cycles.Reports(g, f) && Elements(f.members) <= known
    requires forall m :: m in f.members ==> EdgeText.Readable(m)
    ensures FeedbackSet(EdgeText.ReadEdges(EdgeText.Detail(f.members, f.edges)), known, allowed) <==>
              forall p :: ClosedWalk(g, p) && p[0] in f.members ==> exists x :: x in p && x in allowed
  {
    hide Cycles.Reports, KnownCycle;
    EdgeText.ReportedReadIff(g, f);
    forall p ensures KnownCycle(f.edges, known, p) <==> ClosedWalk(g, p) && p[0] in f.members {
      ReportedCycles(g, f, known, p);
    }
  }

  /** The cycle between `2fa` and `a` counts as broken whatever is allowed, because none of its edges is read
      back; but it is one, and meets no allowed context where neither of the two is allowed. */
  lemma UnreadableAccepted(rule: string, known: set<Node>, allowed: set<Node>)
    requires "2fa" !in allowed && "a" !in allowed
    ensures var g, f := EdgeText.Unreadable(), EdgeText.UnreadableFinding(rule);
            && Cycles.Reports(g, f) && FeedbackSet(EdgeText.ReadEdges(EdgeText.Detail(f.members, f.edges)), known, allowed)
            && exists p :: ClosedWalk(g, p) && p[0] in f.members && forall x :: x in p ==> x !in allowed
  {
    EdgeText.UnreadableLost(rule);
    hide Cycles.Reports, EdgeText.ReadEdges, EdgeText.Detail;
    var g, p := EdgeText.Unreadable(), ["2fa", "a", "2fa"];
    WalkAt(g, p);
    assert ClosedWalk(g, p) && p[0] == "2fa";
    assert EdgeText.UnreadableFinding(rule).members[0] == "2fa";
    forall q ensures !KnownCycle([], known, q) {
      if |q| > 1 {
        assert !KnownEdge([], known, q[0], q[1]);
      }
    }
    assert FeedbackSet([], known, allowed);
  }

  lemma ClosedWalkIsMutual(g: Graph, p: seq<Node>, i: nat)
    requires ClosedWalk(g, p) && i < |p|
    ensures Mutual(g, p[0], p[i])
  {
    WalkAt(g, p);
    WalkAt(g, p[..i + 1]);
    WalkAt(g, p[i..]);
    forall k | 0 < k < |p[i..]| ensures Edge(g, p[i..][k - 1], p[i..][k]) {
      assert Edge(g, p[k + i - 1], p[k + i]);
    }
    assert WalkFromTo(g, p[..i + 1], p[0], p[i]);
    assert WalkFromTo(g, p[i..], p[i], p[0]);
  }
}
