/** Tarjan's algorithm as `strongly_connected_components` runs it: one shared stack, an
    index per visited name, a lowlink per visited name, recursion over the edges. */
module Components {
  import opened Graphs
  import opened Ordering

  /** The search state: the variables that the nested `visit` shares with its function. */
  datatype View = View(
    index: nat, stack: seq<Node>, indices: map<Node, nat>, lowlinks: map<Node, nat>,
    onStack: set<Node>, components: seq<seq<Node>>)

  /** Names that were popped: their component is known. */
  function Done(v: View): set<Node> {
    v.indices.Keys - v.onStack
  }

  ghost predicate Shape(v: View, gray: set<Node>) {
    && Elements(v.stack) == v.onStack
    && v.onStack <= v.indices.Keys
    && gray <= v.onStack
    && forall n :: n in v.indices ==> v.indices[n] < v.index
  }

  ghost predicate RisesAt(g: Graph, stack: seq<Node>, indices: map<Node, nat>, i: nat, j: nat)
    requires i < j < |stack|
  {
    && stack[i] in indices && stack[j] in indices
    && indices[stack[i]] < indices[stack[j]]
    && Reach(g, stack[i], stack[j])
  }

  /** Up the stack the indices rise, and every name reaches all names above it. */
  ghost predicate Rising(g: Graph, stack: seq<Node>, indices: map<Node, nat>) {
    forall i, j {:trigger RisesAt(g, stack, indices, i, j)} ::
      0 <= i < j < |stack| ==> RisesAt(g, stack, indices, i, j)
  }

  ghost predicate AnchoredAt(g: Graph, indices: map<Node, nat>, y: Node, x: Node) {
    x in indices && y in indices && indices[x] <= indices[y] && Reach(g, y, x)
  }

  ghost predicate HasAnchor(g: Graph, indices: map<Node, nat>, gray: set<Node>, y: Node) {
    exists x :: x in gray && AnchoredAt(g, indices, y, x)
  }

  /** Every name on the stack reaches an unfinished name at or below it. */
  ghost predicate Anchored(g: Graph, v: View, gray: set<Node>) {
    forall y {:trigger HasAnchor(g, v.indices, gray, y)} :: y in v.onStack ==> HasAnchor(g, v.indices, gray, y)
  }

  /** Finished names point only at visited names; popped names only at popped names. */
  ghost predicate Settled(g: Graph, v: View, gray: set<Node>) {
    && (forall b {:trigger Succ(g, b)} :: b in v.indices && b !in gray ==> Succ(g, b) <= v.indices.Keys)
    && Closed(g, Done(v))
  }

  ghost predicate Listed(g: Graph, done: set<Node>, names: seq<Node>) {
    && Ascending(NameLeq, names) && Distinct(names) && |names| > 1
    && Elements(names) <= done
    && IsComponent(g, Elements(names))
  }

  ghost predicate Lists(components: seq<seq<Node>>, c: set<Node>) {
    exists names :: names in components && Elements(names) == c
  }

  /** The output so far: exactly the components with several members among the popped names. */
  ghost predicate Emitted(g: Graph, done: set<Node>, components: seq<seq<Node>>) {
    && (forall names {:trigger Listed(g, done, names)} :: names in components ==> Listed(g, done, names))
    && (forall c {:trigger Lists(components, c)} ::
          IsComponent(g, c) && |c| > 1 && c * done != {} ==> Lists(components, c))
    && Distinct(components)
  }

  ghost predicate Core(g: Graph, v: View, gray: set<Node>) {
    && Shape(v, gray)
    && Rising(g, v.stack, v.indices)
    && Anchored(g, v, gray)
    && Settled(g, v, gray)
  }

  ghost predicate Inv(g: Graph, v: View, gray: set<Node>) {
    Core(g, v, gray) && Emitted(g, Done(v), v.components)
  }

  /** Every edge from `us` into `ws` ends at an index of at least `low`. */
  ghost predicate Bounded(g: Graph, us: set<Node>, ws: set<Node>, indices: map<Node, nat>, low: nat) {
    forall u, w :: u in us && w in Succ(g, u) && w in ws ==> w in indices && low <= indices[w]
  }

  function Pushed(v: View, node: Node): View {
    v.(index := v.index + 1, stack := v.stack + [node], indices := v.indices[node := v.index],
       lowlinks := v.lowlinks[node := v.index], onStack := v.onStack + {node})
  }

  /** Before the search everything holds. */
  lemma StartKeeps(g: Graph)
    ensures Inv(g, View(0, [], map[], map[], {}, []), {})
  {
    hide Reach, IsComponent;
  }

  lemma PushKeeps(g: Graph, v: View, gray: set<Node>, node: Node)
    requires Core(g, v, gray) && node !in v.indices
    requires forall x :: x in gray ==> Reach(g, x, node)
    ensures Core(g, Pushed(v, node), gray + {node}) && Done(Pushed(v, node)) == Done(v)
  {
    hide Reach;
    var w := Pushed(v, node);
    assert Done(w) == Done(v);
    assert Elements(w.stack) == Elements(v.stack) + {node};
    forall y | y in v.onStack ensures Reach(g, y, node) {
      assert HasAnchor(g, v.indices, gray, y);
      var x :| x in gray && AnchoredAt(g, v.indices, y, x);
      ReachTrans(g, y, x, node);
    }
    forall i, j | 0 <= i < j < |w.stack| ensures RisesAt(g, w.stack, w.indices, i, j) {
      assert v.stack[i] in v.onStack;
      assert j < |v.stack| ==> RisesAt(g, v.stack, v.indices, i, j);
    }
    ReachSelf(g, node);
    forall y | y in w.onStack ensures HasAnchor(g, w.indices, gray + {node}, y) {
      if y == node {
        assert AnchoredAt(g, w.indices, y, node);
      } else {
        assert HasAnchor(g, v.indices, gray, y);
        var x :| x in gray && AnchoredAt(g, v.indices, y, x);
        assert AnchoredAt(g, w.indices, y, x);
      }
    }
  }

  /** A name that reaches something lower stays on the stack as a finished name. */
  lemma RetireKeeps(g: Graph, v: View, gray: set<Node>, node: Node, low: Node)
    requires Core(g, v, gray + {node}) && node !in gray && node in v.onStack
    requires Succ(g, node) <= v.indices.Keys
    requires low in v.onStack && v.indices[low] < v.indices[node] && Reach(g, node, low)
    ensures Core(g, v, gray)
  {
    hide RisesAt, Closed, Reach, AnchoredAt;
    assert HasAnchor(g, v.indices, gray + {node}, low);
    forall y | y in v.onStack ensures HasAnchor(g, v.indices, gray, y) {
      assert HasAnchor(g, v.indices, gray + {node}, y);
      Reanchor(g, v.indices, gray, node, low, y);
    }
  }

  /** Whatever was anchored at `node` is anchored where the lower name is. */
  lemma Reanchor(g: Graph, indices: map<Node, nat>, gray: set<Node>, node: Node, low: Node, y: Node)
    requires HasAnchor(g, indices, gray + {node}, y) && HasAnchor(g, indices, gray + {node}, low)
    requires low in indices && node in indices && indices[low] < indices[node] && Reach(g, node, low)
    ensures HasAnchor(g, indices, gray, y)
  {
    var x0 :| x0 in gray + {node} && AnchoredAt(g, indices, low, x0);
    var x :| x in gray + {node} && AnchoredAt(g, indices, y, x);
    if x == node {
      ReachTrans(g, y, node, low);
      ReachTrans(g, y, low, x0);
      assert AnchoredAt(g, indices, y, x0);
    }
  }

  /** No edge leaves the popped names: the top of the stack from `k` up, and what was popped before. */
  lemma TopIsClosed(g: Graph, v: View, gray: set<Node>, node: Node, k: nat)
    requires Core(g, v, gray + {node})
    requires k < |v.stack| && v.stack[k] == node
    requires forall x :: x in gray ==> v.indices[x] < v.indices[node]
    requires Succ(g, node) <= v.indices.Keys
    requires forall u, w :: u in v.stack[k..] && w in Succ(g, u) ==> w !in v.stack[..k]
    ensures Closed(g, Done(v) + Elements(v.stack[k..]))
  {
    var c := Elements(v.stack[k..]);
    forall u, w | u in c && w in Succ(g, u) ensures w in Done(v) + c {
      var i :| k <= i < |v.stack| && v.stack[i] == u;
      assert u !in gray by {
        assert i == k || RisesAt(g, v.stack, v.indices, k, i);
      }
      assert w in v.indices;
      if w in v.onStack {
        assert v.stack == v.stack[..k] + v.stack[k..];
        assert w in v.stack[k..];
      }
    }
  }

  lemma BelowIsOutside(g: Graph, v: View, gray: set<Node>, node: Node, k: nat, x: Node)
    requires Core(g, v, gray + {node}) && k < |v.stack| && v.stack[k] == node
    requires x in v.indices && v.indices[x] < v.indices[node]
    ensures x !in v.stack[k..]
  {
    forall j | k <= j < |v.stack| ensures v.stack[j] != x {
      assert j == k || RisesAt(g, v.stack, v.indices, k, j);
    }
  }

  /** The names from the root of a component up the stack are that component. */
  lemma TopIsComponent(g: Graph, v: View, gray: set<Node>, node: Node, k: nat)
    requires Core(g, v, gray + {node})
    requires k < |v.stack| && v.stack[k] == node
    requires forall x :: x in gray ==> v.indices[x] < v.indices[node]
    requires Closed(g, Done(v) + Elements(v.stack[k..]))
    ensures IsComponent(g, Elements(v.stack[k..]))
  {
    var c := Elements(v.stack[k..]);
    assert node in c;
    forall y | y in c ensures Mutual(g, node, y) {
      var i :| k <= i < |v.stack| && v.stack[i] == y;
      assert i == k || RisesAt(g, v.stack, v.indices, k, i);
      ReachSelf(g, node);
      assert HasAnchor(g, v.indices, gray + {node}, y);
      var x :| x in gray + {node} && AnchoredAt(g, v.indices, y, x);
      ReachStaysInside(g, Done(v) + c, y, x);
      if x != node {
        BelowIsOutside(g, v, gray, node, k, x);
        assert false;
      }
    }
    forall y | Mutual(g, node, y) ensures y in c {
      ReachStaysInside(g, Done(v) + c, node, y);
      if y in Done(v) {
        ReachStaysInside(g, Done(v), y, node);
        assert false;
      }
    }
    forall x, y | x in c ensures y in c <==> Mutual(g, x, y) {
      if y in c {
        ReachTrans(g, x, node, y);
        ReachTrans(g, y, node, x);
      }
      if Mutual(g, x, y) {
        ReachTrans(g, node, x, y);
        ReachTrans(g, y, x, node);
      }
    }
  }

  /** Two components that share a member are the same set. */
  lemma SharedMember(g: Graph, a: set<Node>, b: set<Node>, x: Node)
    requires IsComponent(g, a) && IsComponent(g, b) && x in a && x in b
    ensures a == b
  {
  }

  function Emit(components: seq<seq<Node>>, names: seq<Node>): seq<seq<Node>> {
    if |names| > 1 then components + [Sort(NameLeq, names)] else components
  }

  lemma EmitKeeps(g: Graph, done: set<Node>, components: seq<seq<Node>>, names: seq<Node>)
    requires Emitted(g, done, components)
    requires Distinct(names) && IsComponent(g, Elements(names)) && Elements(names) !! done
    ensures Emitted(g, done + Elements(names), Emit(components, names))
  {
    hide Listed, Lists, IsComponent, Emit, Distinct;
    var c, after := Elements(names), Emit(components, names);
    EmitNew(g, done, names);
    forall listed | listed in components ensures Listed(g, done + c, listed) && Elements(listed) != c {
      assert Listed(g, done, listed);
      ListedLater(g, done, c, listed);
    }
    EmitAdds(components, names);
    forall d | IsComponent(g, d) && |d| > 1 && d * (done + c) != {} ensures Lists(after, d) {
      EmitCovers(g, done, components, names, d);
    }
  }

  lemma DistinctSnoc<T>(xs: seq<T>, x: T)
    requires Distinct(xs) && x !in xs
    ensures Distinct(xs + [x])
  {
  }

  lemma EmitAdds(components: seq<seq<Node>>, names: seq<Node>)
    requires Elements(Sort(NameLeq, names)) == Elements(names)
    requires Distinct(components) && forall listed :: listed in components ==> Elements(listed) != Elements(names)
    ensures Distinct(Emit(components, names))
    ensures forall listed :: listed in Emit(components, names) ==>
              listed in components || (|names| > 1 && listed == Sort(NameLeq, names))
  {
    hide Elements, Sort, Distinct;
    assert Sort(NameLeq, names) !in components;
    DistinctSnoc(components, Sort(NameLeq, names));
  }

  lemma EmitNew(g: Graph, done: set<Node>, names: seq<Node>)
    requires Distinct(names) && IsComponent(g, Elements(names))
    ensures Elements(Sort(NameLeq, names)) == Elements(names)
    ensures |names| > 1 ==> Listed(g, done + Elements(names), Sort(NameLeq, names))
  {
    hide IsComponent;
    NameLeqTotal();
    SortAscending(NameLeq, names);
    SortDistinct(NameLeq, names);
  }

  lemma ListedLater(g: Graph, done: set<Node>, c: set<Node>, names: seq<Node>)
    requires Listed(g, done, names) && c !! done
    ensures Listed(g, done + c, names) && Elements(names) != c
  {
    assert names[0] in Elements(names);
  }

  lemma EmitCovers(g: Graph, done: set<Node>, components: seq<seq<Node>>, names: seq<Node>, d: set<Node>)
    requires IsComponent(g, d) && |d| > 1 && d * (done + Elements(names)) != {}
    requires d * done != {} ==> Lists(components, d)
    requires Distinct(names) && IsComponent(g, Elements(names))
    requires Elements(Sort(NameLeq, names)) == Elements(names)
    ensures Lists(Emit(components, names), d)
  {
    if d * done != {} {
      var listed :| listed in components && Elements(listed) == d;
      assert listed in Emit(components, names);
    } else {
      var x :| x in d && x in Elements(names);
      SharedMember(g, Elements(names), d, x);
      DistinctCardinality(names);
      assert Emit(components, names)[|components|] == Sort(NameLeq, names);
    }
  }

  function Popped(v: View, k: nat, names: seq<Node>): View
    requires k <= |v.stack|
  {
    v.(stack := v.stack[..k], onStack := v.onStack - Elements(names), components := Emit(v.components, names))
  }

  lemma PopKeepsShape(g: Graph, v: View, gray: set<Node>, node: Node, k: nat, names: seq<Node>)
    requires Core(g, v, gray + {node}) && node !in gray
    requires k < |v.stack| && v.stack[k] == node
    requires forall x :: x in gray ==> v.indices[x] < v.indices[node]
    requires Elements(names) == Elements(v.stack[k..])
    ensures Shape(Popped(v, k, names), gray)
    ensures Done(Popped(v, k, names)) == Done(v) + Elements(names) && Elements(names) !! Done(v)
  {
    hide Anchored, Settled, Emit, Reach;
    var c, w := Elements(names), Popped(v, k, names);
    assert v.stack == v.stack[..k] + v.stack[k..];
    assert v.onStack == Elements(v.stack[..k]) + c;
    forall i, j | 0 <= i < k <= j < |v.stack| ensures v.stack[i] != v.stack[j] {
      assert RisesAt(g, v.stack, v.indices, i, j);
    }
    assert Elements(w.stack) == w.onStack;
    forall x | x in gray ensures x in w.onStack {
      BelowIsOutside(g, v, gray, node, k, x);
    }
  }

  lemma PopKeepsCore(g: Graph, v: View, gray: set<Node>, node: Node, k: nat, names: seq<Node>)
    requires Core(g, v, gray + {node}) && node !in gray
    requires k < |v.stack| && v.stack[k] == node
    requires forall x :: x in gray ==> v.indices[x] < v.indices[node]
    requires Closed(g, Done(v) + Elements(names)) && Succ(g, node) <= v.indices.Keys
    requires Elements(names) == Elements(v.stack[k..])
    ensures Core(g, Popped(v, k, names), gray)
    ensures Done(Popped(v, k, names)) == Done(v) + Elements(names) && Elements(names) !! Done(v)
  {
    hide Emit, Reach, Closed;
    var w := Popped(v, k, names);
    PopKeepsShape(g, v, gray, node, k, names);
    forall i, j | 0 <= i < j < k ensures RisesAt(g, w.stack, w.indices, i, j) {
      assert RisesAt(g, v.stack, v.indices, i, j);
    }
    forall y | y in w.onStack ensures HasAnchor(g, w.indices, gray, y) {
      assert HasAnchor(g, v.indices, gray + {node}, y);
      assert y in Elements(w.stack);
      var i :| 0 <= i < k && v.stack[i] == y;
      assert RisesAt(g, v.stack, v.indices, i, k);
      AnchorBelow(g, v.indices, gray, node, y);
    }
  }

  lemma AnchorBelow(g: Graph, indices: map<Node, nat>, gray: set<Node>, node: Node, y: Node)
    requires HasAnchor(g, indices, gray + {node}, y)
    requires y in indices && node in indices && indices[y] < indices[node]
    ensures HasAnchor(g, indices, gray, y)
  {
  }

  lemma PopKeeps(g: Graph, v: View, gray: set<Node>, node: Node, k: nat, names: seq<Node>)
    requires Inv(g, v, gray + {node}) && node !in gray
    requires k < |v.stack| && v.stack[k] == node
    requires forall x :: x in gray ==> v.indices[x] < v.indices[node]
    requires Succ(g, node) <= v.indices.Keys
    requires forall u, w :: u in v.stack[k..] && w in Succ(g, u) ==> w !in v.stack[..k]
    requires Distinct(names) && Elements(names) == Elements(v.stack[k..])
    ensures Inv(g, Popped(v, k, names), gray)
  {
    TopIsClosed(g, v, gray, node, k);
    TopIsComponent(g, v, gray, node, k);
    PopKeepsCore(g, v, gray, node, k, names);
    EmitKeeps(g, Done(v), v.components, names);
  }

  lemma RisingDistinct(g: Graph, stack: seq<Node>, indices: map<Node, nat>)
    requires Rising(g, stack, indices)
    ensures Distinct(stack)
  {
    forall i, j | 0 <= i < j < |stack| ensures stack[i] != stack[j] {
      assert RisesAt(g, stack, indices, i, j);
    }
  }

  lemma BoundedWithNode(g: Graph, stack: seq<Node>, k: nat, node: Node, indices: map<Node, nat>, low: nat)
    requires k < |stack| && stack[k] == node && Elements(stack) <= indices.Keys
    requires Bounded(g, Elements(stack[k + 1..]), Elements(stack[..k]), indices, low)
    requires forall t :: t in Succ(g, node) && t in stack[..k] ==> t in indices && low <= indices[t]
    ensures Bounded(g, Elements(stack[k..]), Elements(stack[..k]), indices, low)
  {
  }

  /** If the bound is above everything below position `k`, no edge leads below it. */
  lemma NoEdgeDown(g: Graph, stack: seq<Node>, k: nat, indices: map<Node, nat>, low: nat)
    requires k < |stack|
    requires Bounded(g, Elements(stack[k..]), Elements(stack[..k]), indices, low)
    requires forall w :: w in stack[..k] ==> w in indices && indices[w] < low
    ensures forall u, w :: u in stack[k..] && w in Succ(g, u) ==> w !in stack[..k]
  {
  }

  function Min(a: nat, b: nat): nat {
    if a < b then a else b
  }

  /** From `v` to `w` nothing on the stack was popped and no index or lowlink was changed. */
  ghost predicate Extends(v: View, w: View) {
    && v.stack <= w.stack && v.index <= w.index
    && (forall n {:trigger n in w.indices} :: n in v.indices ==> n in w.indices && w.indices[n] == v.indices[n])
    && (forall n {:trigger n in w.lowlinks} :: n in v.lowlinks ==> n in w.lowlinks && w.lowlinks[n] == v.lowlinks[n])
    && w.lowlinks.Keys == w.indices.Keys
    && (forall n {:trigger n in w.indices} :: n in w.indices && n !in v.indices ==> v.index <= w.indices[n])
  }

  /** The lowlink of `node` is the index of a name on the stack that `node` reaches. */
  ghost predicate LowReached(g: Graph, w: View, node: Node) {
    && node in w.lowlinks && node in w.indices && w.lowlinks[node] <= w.indices[node]
    && exists y :: y in w.onStack && y in w.indices && w.indices[y] == w.lowlinks[node] && Reach(g, node, y)
  }

  /** What `visit(node)` may rely on. */
  ghost predicate Ready(g: Graph, gray: set<Node>, node: Node, v: View) {
    && Inv(g, v, gray) && v.lowlinks.Keys == v.indices.Keys
    && node !in v.indices
    && forall x :: x in gray ==> Reach(g, x, node)
  }

  /** What `visit(node)` has done when it returns. */
  ghost predicate Visited(g: Graph, gray: set<Node>, node: Node, v: View, w: View) {
    && Inv(g, w, gray) && Extends(v, w)
    && node in w.indices && w.indices[node] == v.index && node in w.lowlinks
    && (node in w.onStack ==> LowReached(g, w, node))
    && (node !in w.onStack ==> w.lowlinks[node] == w.indices[node])
    && Bounded(g, Elements(w.stack[|v.stack|..]), Elements(v.stack), w.indices, w.lowlinks[node])
  }

  /** Inside `visit(node)`, entered at `v`: the edges to `rest` are still to follow. */
  ghost predicate Progress(g: Graph, node: Node, v: View, w: View, rest: set<Node>) {
    && Extends(Pushed(v, node).(lowlinks := v.lowlinks), w)
    && rest <= Succ(g, node) && Succ(g, node) - rest <= w.indices.Keys
    && LowReached(g, w, node)
    && Bounded(g, Elements(w.stack[|v.stack| + 1..]), Elements(v.stack), w.indices, w.lowlinks[node])
    && forall t :: t in Succ(g, node) - rest && t in v.stack ==> w.lowlinks[node] <= w.indices[t]
  }

  ghost predicate Following(g: Graph, gray: set<Node>, node: Node, v: View, w: View, rest: set<Node>) {
    Inv(g, w, gray + {node}) && Progress(g, node, v, w, rest)
  }

  /** The invariant does not look at lowlinks. */
  lemma LoweredKeeps(g: Graph, w: View, gray: set<Node>, node: Node, low: nat)
    requires Inv(g, w, gray) && node in w.lowlinks
    ensures Inv(g, Lowered(w, node, low), gray)
  {
  }

  lemma EnterVisit(g: Graph, gray: set<Node>, node: Node, v: View)
    requires Ready(g, gray, node, v)
    ensures Following(g, gray, node, v, Pushed(v, node), Succ(g, node))
  {
    PushKeeps(g, v, gray, node);
    ReachSelf(g, node);
    assert Pushed(v, node).stack[|v.stack| + 1..] == [];
  }

  lemma ReadyForTarget(g: Graph, gray: set<Node>, node: Node, v: View, w: View, rest: set<Node>, target: Node)
    requires forall x :: x in gray ==> Reach(g, x, node)
    requires Following(g, gray, node, v, w, rest) && target in rest && target !in w.indices
    ensures Ready(g, gray + {node}, target, w)
  {
    assert Edge(g, node, target);
    ReachEdge(g, node, target);
    forall x | x in gray + {node} ensures Reach(g, x, target) {
      if x != node {
        ReachTrans(g, x, node, target);
      }
    }
  }

  /** Lowers the lowlink of `node` to at most `low`. */
  function Lowered(w: View, node: Node, low: nat): View
    requires node in w.lowlinks
  {
    w.(lowlinks := w.lowlinks[node := Min(w.lowlinks[node], low)])
  }

  /** The bound on the edges of a visited target carries over to the visiting name. */
  lemma Absorb(g: Graph, base: seq<Node>, w: View, x: View, low: nat, targetLow: nat)
    requires |base| < |w.stack| <= |x.stack| && base <= w.stack <= x.stack && Extends(w, x)
    requires Bounded(g, Elements(w.stack[|base| + 1..]), Elements(base), w.indices, low)
    requires Bounded(g, Elements(x.stack[|w.stack|..]), Elements(w.stack), x.indices, targetLow)
    ensures Bounded(g, Elements(x.stack[|base| + 1..]), Elements(base), x.indices, Min(low, targetLow))
  {
  }

  lemma LowAfterTreeEdge(g: Graph, node: Node, w: View, target: Node, x: View)
    requires Edge(g, node, target) && LowReached(g, w, node) && Extends(w, x)
    requires Elements(w.stack) == w.onStack && Elements(x.stack) == x.onStack
    requires target in x.lowlinks && target in x.indices && w.index <= x.indices[target]
    requires w.indices[node] < w.index
    requires target in x.onStack ==> LowReached(g, x, target)
    requires target !in x.onStack ==> x.lowlinks[target] == x.indices[target]
    ensures node in x.lowlinks && LowReached(g, Lowered(x, node, x.lowlinks[target]), node)
  {
    assert node in x.indices && node in x.lowlinks;
    var y0 :| y0 in w.onStack && y0 in w.indices && w.indices[y0] == w.lowlinks[node] && Reach(g, node, y0);
    PrefixElements(w.stack, x.stack);
    assert y0 in x.onStack && y0 in x.indices;
    if target in x.onStack {
      var y :| y in x.onStack && y in x.indices && x.indices[y] == x.lowlinks[target] && Reach(g, target, y);
      ReachEdge(g, node, target);
      ReachTrans(g, node, target, y);
    }
  }

  lemma PrefixElements<T>(a: seq<T>, b: seq<T>)
    requires a <= b
    ensures Elements(a) <= Elements(b)
  {
  }

  lemma TargetBounded(g: Graph, node: Node, v: View, w: View, rest: set<Node>, target: Node, x: View)
    requires Progress(g, node, v, w, rest) && target in rest && target !in w.indices
    requires Elements(v.stack) <= w.indices.Keys
    requires Extends(w, x) && target in x.lowlinks
    ensures forall t :: t in Succ(g, node) - (rest - {target}) && t in v.stack ==>
              t in x.indices && Min(w.lowlinks[node], x.lowlinks[target]) <= x.indices[t]
  {
  }

  lemma ProgressOverTreeEdge(g: Graph, node: Node, v: View, w: View, rest: set<Node>, target: Node, x: View)
    requires Progress(g, node, v, w, rest) && target in rest && target !in w.indices
    requires Elements(v.stack) <= w.indices.Keys && node !in v.lowlinks && Extends(w, x)
    requires target in x.indices && target in x.lowlinks
    requires Bounded(g, Elements(x.stack[|w.stack|..]), Elements(w.stack), x.indices, x.lowlinks[target])
    requires node in x.lowlinks && LowReached(g, Lowered(x, node, x.lowlinks[target]), node)
    ensures Progress(g, node, v, Lowered(x, node, x.lowlinks[target]), rest - {target})
  {
    var low, u := x.lowlinks[target], Pushed(v, node).(lowlinks := v.lowlinks);
    assert x.lowlinks[node] == w.lowlinks[node];
    Absorb(g, v.stack, w, x, w.lowlinks[node], low);
    TargetBounded(g, node, v, w, rest, target, x);
    ExtendsTrans(u, w, x, node, low);
    assert forall n :: n in w.indices ==> n in x.indices;
  }

  /** Following a tree edge: after `visit(target)` the lowlink of `node` takes that of `target` in. */
  lemma FollowTreeEdge(g: Graph, gray: set<Node>, node: Node, v: View, w: View, rest: set<Node>, target: Node, x: View)
    requires node !in v.lowlinks
    requires Following(g, gray, node, v, w, rest) && target in rest && target !in w.indices
    requires Visited(g, gray + {node}, target, w, x)
    ensures node in x.lowlinks && target in x.lowlinks
    ensures Following(g, gray, node, v, Lowered(x, node, x.lowlinks[target]), rest - {target})
  {
    assert Edge(g, node, target);
    LowAfterTreeEdge(g, node, w, target, x);
    PrefixElements(v.stack, w.stack);
    ProgressOverTreeEdge(g, node, v, w, rest, target, x);
    LoweredKeeps(g, x, gray + {node}, node, x.lowlinks[target]);
  }

  /** `Extends` composes, and does not look at the lowlink of a name that is new since `u`. */
  lemma ExtendsTrans(u: View, w: View, x: View, node: Node, low: nat)
    requires Extends(u, w) && Extends(w, x) && node in x.lowlinks && node !in u.lowlinks
    ensures Extends(u, Lowered(x, node, low))
  {
  }

  lemma ProgressOverStackEdge(g: Graph, node: Node, v: View, w: View, rest: set<Node>, target: Node)
    requires Progress(g, node, v, w, rest) && target in rest && node !in v.lowlinks
    requires target in w.onStack && target in w.indices
    requires Elements(v.stack) <= w.indices.Keys
    ensures Progress(g, node, v, Lowered(w, node, w.indices[target]), rest - {target})
  {
    assert Edge(g, node, target);
    ReachEdge(g, node, target);
    assert LowReached(g, Lowered(w, node, w.indices[target]), node);
    assert forall t :: t in v.stack ==> t in Elements(v.stack) && t in w.indices;
  }

  /** Following any other edge: only a target still on the stack lowers the lowlink. */
  lemma FollowOtherEdge(g: Graph, gray: set<Node>, node: Node, v: View, w: View, rest: set<Node>, target: Node)
    requires node !in v.lowlinks && Elements(v.stack) <= w.indices.Keys
    requires Following(g, gray, node, v, w, rest) && target in rest && target in w.indices
    ensures Following(g, gray, node, v,
                      if target in w.onStack then Lowered(w, node, w.indices[target]) else w, rest - {target})
  {
    if target in w.onStack {
      ProgressOverStackEdge(g, node, v, w, rest, target);
      LoweredKeeps(g, w, gray + {node}, node, w.indices[target]);
    } else {
      PrefixElements(v.stack, w.stack);
      assert target !in v.stack by {
        assert target in v.stack ==> target in Elements(v.stack);
      }
    }
  }

  lemma NodePosition(g: Graph, gray: set<Node>, node: Node, v: View, w: View)
    requires Following(g, gray, node, v, w, {})
    ensures |v.stack| < |w.stack| && w.stack[|v.stack|] == node && w.stack[..|v.stack|] == v.stack
    ensures Bounded(g, Elements(w.stack[|v.stack|..]), Elements(v.stack), w.indices, w.lowlinks[node])
  {
    BoundedWithNode(g, w.stack, |v.stack|, node, w.indices, w.lowlinks[node]);
  }

  /** All edges followed and the lowlink is the own index: `node` is the root of a component. */
  lemma RootPops(g: Graph, gray: set<Node>, node: Node, v: View, w: View, component: seq<Node>)
    requires Shape(v, gray) && node !in v.indices
    requires Following(g, gray, node, v, w, {}) && w.lowlinks[node] == w.indices[node]
    requires Distinct(component) && |v.stack| < |w.stack| && Elements(component) == Elements(w.stack[|v.stack|..])
    ensures Inv(g, Popped(w, |v.stack|, component), gray) && node in component
  {
    var k := |v.stack|;
    NodePosition(g, gray, node, v, w);
    forall n | n in v.indices ensures n in w.indices && w.indices[n] < w.indices[node] {
      assert w.indices[node] == v.index;
    }
    forall t | t in w.stack[..k] ensures t in w.indices && w.indices[t] < w.indices[node] {
      assert t in Elements(v.stack);
    }
    NoEdgeDown(g, w.stack, k, w.indices, w.lowlinks[node]);
    PopKeeps(g, w, gray, node, k, component);
    assert w.stack[k..][0] == node;
    assert node in Elements(w.stack[k..]);
  }

  lemma LeaveAtRoot(g: Graph, gray: set<Node>, node: Node, v: View, w: View, component: seq<Node>)
    requires Shape(v, gray) && node !in v.indices
    requires Following(g, gray, node, v, w, {}) && w.lowlinks[node] == w.indices[node]
    requires Distinct(component) && |v.stack| < |w.stack| && Elements(component) == Elements(w.stack[|v.stack|..])
    ensures Visited(g, gray, node, v, Popped(w, |v.stack|, component))
  {
    RootPops(g, gray, node, v, w, component);
    NodePosition(g, gray, node, v, w);
    var z := Popped(w, |v.stack|, component);
    assert z.stack[|v.stack|..] == [];
    assert forall u :: u !in Elements(z.stack[|v.stack|..]);
  }

  /** All edges followed and the lowlink is lower: `node` stays on the stack. */
  lemma LeaveInside(g: Graph, gray: set<Node>, node: Node, v: View, w: View)
    requires Shape(v, gray) && node !in v.indices
    requires Following(g, gray, node, v, w, {}) && w.lowlinks[node] != w.indices[node]
    ensures Visited(g, gray, node, v, w)
  {
    NodePosition(g, gray, node, v, w);
    var y :| y in w.onStack && y in w.indices && w.indices[y] == w.lowlinks[node] && Reach(g, node, y);
    assert node in Elements(w.stack);
    RetireKeeps(g, w, gray, node, y);
  }

  lemma ReadyFacts(g: Graph, gray: set<Node>, node: Node, v: View)
    requires Ready(g, gray, node, v)
    ensures Shape(v, gray) && node !in v.indices && node !in v.lowlinks
    ensures forall x :: x in gray ==> Reach(g, x, node)
  {
  }

  /** What following the edges of `node` may read. */
  lemma FollowingFacts(g: Graph, gray: set<Node>, node: Node, v: View, w: View, rest: set<Node>)
    requires Shape(v, gray) && Following(g, gray, node, v, w, rest)
    ensures node in w.lowlinks && rest <= Succ(g, node)
    ensures v.indices.Keys + {node} <= w.indices.Keys && Elements(v.stack) <= w.indices.Keys
    ensures rest <= Universe(g)
  {
  }

  class Search {
    const graph: Graph
    var index: nat
    var stack: seq<Node>
    var indices: map<Node, nat>
    var lowlinks: map<Node, nat>
    var onStack: set<Node>
    var components: seq<seq<Node>>

    constructor (g: Graph)
      ensures graph == g && Current() == View(0, [], map[], map[], {}, [])
    {
      graph := g;
      index, stack, indices, lowlinks, onStack, components := 0, [], map[], map[], {}, [];
    }

    function Current(): View
      reads this
    {
      View(index, stack, indices, lowlinks, onStack, components)
    }

    /** Pops the stack down to and including `node`. */
    method PopComponent(node: Node, ghost k: nat) returns (component: seq<Node>)
      requires k < |stack| && stack[k] == node && Distinct(stack) && Elements(stack) == onStack
      modifies this`stack, this`onStack
      ensures stack == old(stack)[..k] && onStack == old(onStack) - Elements(component)
      ensures Distinct(component) && Elements(component) == Elements(old(stack)[k..])
    {
      component := [];
      ghost var full := stack;
      while true
        invariant k < |stack| <= |full| && stack == full[..|stack|]
        invariant Distinct(component) && Elements(component) == Elements(full[|stack|..])
        invariant onStack == Elements(stack) && onStack == old(onStack) - Elements(component)
        decreases |stack|
      {
        var member := stack[|stack| - 1];
        ghost var m := |stack| - 1;
        assert full[m..] == [member] + full[m + 1..];
        assert Elements(full[m..]) == {member} + Elements(full[m + 1..]);
        assert Elements(component + [member]) == Elements(component) + {member};
        assert member !in full[m + 1..];
        assert stack == full[..m] + [member] && member !in full[..m];
        stack := stack[..|stack| - 1];
        assert Elements(full[..m + 1]) == Elements(full[..m]) + {member};
        onStack := onStack - {member};
        component := component + [member];
        if member == node {
          break;
        }
      }
      assert |stack| == k;
    }

    /** The end of `visit`: the root of a component pops it. */
    method Leave(node: Node, ghost gray: set<Node>, ghost entered: View)
      requires Shape(entered, gray) && node !in entered.indices
      requires Following(graph, gray, node, entered, Current(), {})
      modifies this`stack, this`onStack, this`components
      ensures Visited(graph, gray, node, entered, Current())
    {
      hide RisesAt, AnchoredAt, Anchored, Settled, Emitted, Bounded, Reach, Visited;
      ghost var now := Current();
      if lowlinks[node] == indices[node] {
        NodePosition(graph, gray, node, entered, now);
        RisingDistinct(graph, stack, indices);
        var component := PopComponent(node, |entered.stack|);
        if |component| > 1 {
          components := components + [Sort(NameLeq, component)];
        }
        assert Current() == Popped(now, |entered.stack|, component);
        LeaveAtRoot(graph, gray, node, entered, now, component);
      } else {
        LeaveInside(graph, gray, node, entered, now);
      }
    }

    /** The nested `visit`; `gray` are the names whose own `visit` is still running. */
    method Visit(node: Node, ghost gray: set<Node>)
      requires node in Universe(graph) && Ready(graph, gray, node, Current())
      modifies this
      ensures Visited(graph, gray, node, old(Current()), Current())
      decreases Universe(graph) - indices.Keys
    {
      hide Following, Ready, Visited, Reach, Universe;
      ghost var entered := Current();
      ReadyFacts(graph, gray, node, entered);
      indices, lowlinks := indices[node := index], lowlinks[node := index];
      index := index + 1;
      stack := stack + [node];
      onStack := onStack + {node};
      assert Current() == Pushed(entered, node);
      EnterVisit(graph, gray, node, entered);
      var rest := Succ(graph, node);
      while rest != {}
        invariant Following(graph, gray, node, entered, Current(), rest)
        decreases rest
      {
        var target :| target in rest;
        ghost var now := Current();
        FollowingFacts(graph, gray, node, entered, now, rest);
        if target !in indices {
          ReadyForTarget(graph, gray, node, entered, now, rest, target);
          Visit(target, gray + {node});
          FollowTreeEdge(graph, gray, node, entered, now, rest, target, Current());
          lowlinks := lowlinks[node := Min(lowlinks[node], lowlinks[target])];
        } else {
          FollowOtherEdge(graph, gray, node, entered, now, rest, target);
          if target in onStack {
            lowlinks := lowlinks[node := Min(lowlinks[node], indices[target])];
          }
        }
        rest := rest - {target};
      }
      Leave(node, gray, entered);
    }
  }

  lemma EmptyElements<T>(xs: seq<T>)
    ensures Elements(xs) == {} ==> xs == []
  {
    if |xs| > 0 {
      assert xs[0] in Elements(xs);
    }
  }

  /** At the top level nothing is unfinished, so nothing is left on the stack. */
  lemma NothingPending(g: Graph, v: View)
    requires Inv(g, v, {})
    ensures v.stack == [] && Done(v) == v.indices.Keys
  {
    forall y ensures y !in v.onStack {
      assert !HasAnchor(g, v.indices, {}, y);
    }
    EmptyElements(v.stack);
  }

  /** `strongly_connected_components`: the classes of mutual reachability with at least two
      members, each listed once, each sorted, and the whole list sorted. */
  method StronglyConnectedComponents(g: Graph) returns (components: seq<seq<Node>>)
    ensures Ascending(NamesLeq, components) && Distinct(components)
    ensures forall names :: names in components ==> Ascending(NameLeq, names) && Distinct(names)
    ensures forall c :: IsComponent(g, c) && |c| > 1 <==> Lists(components, c)
  {
    hide Core, Ascending, Sort, NameLeq, NamesLeq, IsComponent, Closed, Reach;
    var search := new Search(g);
    StartKeeps(g);
    var nodes := SortNames(g.Keys);
    for i := 0 to |nodes|
      invariant search.graph == g
      invariant Inv(g, search.Current(), {}) && search.lowlinks.Keys == search.indices.Keys
      invariant forall j :: 0 <= j < i ==> nodes[j] in search.indices
    {
      assert nodes[i] in Elements(nodes);
      if nodes[i] !in search.indices {
        search.Visit(nodes[i], {});
      }
    }
    ghost var done := Done(search.Current());
    NothingPending(g, search.Current());
    assert g.Keys <= done by {
      forall n | n in g ensures n in search.indices {
        assert n in Elements(nodes);
      }
    }
    NamesLeqTotal();
    SortAscending(NamesLeq, search.components);
    SortDistinct(NamesLeq, search.components);
    SameMultisetSameMembers(Sort(NamesLeq, search.components), search.components);
    components := Sort(NamesLeq, search.components);
    forall c | IsComponent(g, c) && |c| > 1
      ensures Lists(components, c)
    {
      MemberIsKey(g, c);
      var x :| x in c && x in g;
      assert x in c * done;
      assert Lists(search.components, c);
    }
    forall names | names in components
      ensures Ascending(NameLeq, names) && Distinct(names) && IsComponent(g, Elements(names)) && |Elements(names)| > 1
    {
      assert Listed(g, done, names);
      DistinctCardinality(names);
    }
  }

  /** A component with two members contains a name that has an outgoing edge. */
  lemma MemberIsKey(g: Graph, c: set<Node>)
    requires IsComponent(g, c) && |c| > 1
    ensures exists x :: x in c && x in g
  {
    var x :| x in c;
    assert |c - {x}| > 0;
    var y :| y in c - {x};
    assert Mutual(g, x, y);
    var t := ReachFirstStep(g, x, y);
  }
}
