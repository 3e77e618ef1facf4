/** What the topology check accepts, in terms of the documents alone: labels, requirements, statuses and
    containers. */
module TopologyMeaning {
  import opened Topology
  import opened Wrappers

  // ----- Selection

  /** The operator is one of the four that Kubernetes defines. */
  predicate Known(r: Requirement) {
    r.operator in {"In", "NotIn", "Exists", "DoesNotExist"}
  }

  /** What a requirement says about labels. */
  predicate Holds(labels: map<string, string>, r: Requirement) {
    || (r.operator == "In" && exists value :: value in r.values && (r.key, value) in labels.Items)
    || (r.operator == "NotIn" && r.key in labels && forall value :: value in r.values ==> (r.key, value) !in labels.Items)
    || (r.operator == "Exists" && r.key in labels)
    || (r.operator == "DoesNotExist" && r.key !in labels)
  }

  /** The selector picks what has all its labels, with their values, and meets all its requirements. */
  predicate Picks(selector: Selector, labels: map<string, string>) {
    selector.matchLabels.Items <= labels.Items && forall r :: r in selector.matchExpressions ==> Holds(labels, r)
  }

  /** The labels match, and an operator that nobody defines comes before any requirement that fails. */
  predicate Undecided(selector: Selector, labels: map<string, string>) {
    && selector.matchLabels.Items <= labels.Items
    && exists k :: 0 <= k < |selector.matchExpressions| && !Known(selector.matchExpressions[k])
                   && forall j :: 0 <= j < k ==> Holds(labels, selector.matchExpressions[j])
  }

  lemma RequirementMeans(labels: map<string, string>, r: Requirement)
    ensures Satisfies(labels, r).Ok? <==> Known(r)
    ensures Satisfies(labels, r) == Ok(true) <==> Holds(labels, r)
    ensures Holds(labels, r) ==> Known(r)
  {
  }

  lemma {:induction false} RequirementsMean(labels: map<string, string>, rs: seq<Requirement>)
    ensures SatisfiesAll(labels, rs) == Ok(true) <==> forall r :: r in rs ==> Holds(labels, r)
    ensures SatisfiesAll(labels, rs).Err? <==>
              exists k :: 0 <= k < |rs| && !Known(rs[k]) && forall j :: 0 <= j < k ==> Holds(labels, rs[j])
  {
    hide Satisfies, Holds, Known;
    if |rs| > 0 {
      RequirementMeans(labels, rs[0]);
      RequirementsMean(labels, rs[1..]);
      assert forall r :: r in rs <==> r == rs[0] || r in rs[1..];
      if Holds(labels, rs[0]) {
        if k :| 0 <= k < |rs[1..]| && !Known(rs[1..][k]) && forall j :: 0 <= j < k ==> Holds(labels, rs[1..][j]) {
          assert !Known(rs[k + 1]);
          assert forall j :: 0 < j < k + 1 ==> rs[j] == rs[1..][j - 1];
        }
        if k :| 0 <= k < |rs| && !Known(rs[k]) && forall j :: 0 <= j < k ==> Holds(labels, rs[j]) {
          assert k > 0 && rs[1..][k - 1] == rs[k];
          assert forall j :: 0 <= j < k - 1 ==> rs[1..][j] == rs[j + 1];
        }
      } else if !Known(rs[0]) {
        assert 0 < |rs| && !Known(rs[0]);
      }
    }
  }

  lemma LabelsMean(pod: RawPod, selector: Selector)
    ensures selector.matchLabels.Items <= pod.labels.Items <==>
              forall key :: key in selector.matchLabels ==> key in pod.labels && pod.labels[key] == selector.matchLabels[key]
  {
    if selector.matchLabels.Items <= pod.labels.Items {
      forall key | key in selector.matchLabels
        ensures key in pod.labels && pod.labels[key] == selector.matchLabels[key]
      {
        assert (key, selector.matchLabels[key]) in selector.matchLabels.Items;
      }
    }
  }

  /** Selection is what the selector says; it fails exactly on an unknown operator that is reached. */
  lemma SelectsIff(selector: Selector, pod: RawPod)
    ensures Selects(selector, pod) <==> Picks(selector, pod.labels)
    ensures Matches(pod, selector).Err? <==> Undecided(selector, pod.labels)
  {
    hide Holds, Known, Satisfies, SatisfiesAll;
    LabelsMean(pod, selector);
    RequirementsMean(pod.labels, selector.matchExpressions);
  }

  // ----- The whole check

  /** The positions of the pods that the selector picks. */
  function Picked(pods: seq<RawPod>, selector: Selector): set<nat> {
    set i: nat | i < |pods| && Picks(selector, pods[i].labels)
  }

  /** The pods at the positions have different identities. */
  predicate Different(pods: seq<RawPod>, positions: set<nat>) {
    forall i, j :: i in positions && j in positions && i < j < |pods| ==> pods[i].uid != pods[j].uid
  }

  /** The record serves the pod's role: running and ready with the one container of the role, on the image. */
  predicate Serving(c: Cluster, raw: RawPod, q: Pod, role: string) {
    && !raw.terminating && raw.readyConditions == [true] && q.phase == "Running"
    && |q.initContainers| == 0 && |q.ephemeralContainers| == 0 && |q.containers| == 1
    && var container := q.containers[0];
       && container.name == role && container.image == c.image && container.ready && container.running
       && match container.imageId
          case None => false
          case Some(id) => match c.identify(id) case None => false case Some(digest) => digest in c.accepted
  }

  /** The pod at the position has a record that serves the role. */
  ghost predicate Attended(c: Cluster, i: nat, role: string) {
    i < |c.rawPods| && exists q :: q in c.pods && q.uid == c.rawPods[i].uid && Serving(c, c.rawPods[i], q, role)
  }

  /** The deployment `name` runs `role`: fully observed and available, with as many pods as it wants, all
      different and all serving. */
  ghost predicate Runs(c: Cluster, name: string, role: string, d: Deployment, s: Selector) {
    && d in c.deployments && d.name == name && RawDeployment(name, s) in c.rawDeployments
    && d.replicas >= 1
    && |d.initContainers| == 0 && |d.ephemeralContainers| == 0 && |d.containers| == 1
    && d.containers[0].name == role && d.containers[0].image == c.image
    && d.status.observedGeneration == d.generation && d.status.replicas == d.replicas
    && d.status.updated == d.replicas && d.status.ready == d.replicas && d.status.available == d.replicas
    && d.status.unavailable == 0
    && (s.matchLabels != map[] || s.matchExpressions != [])
    && (forall p :: p in c.rawPods ==> !Undecided(s, p.labels))
    && |Picked(c.rawPods, s)| == d.replicas
    && Different(c.rawPods, Picked(c.rawPods, s))
    && forall i :: i in Picked(c.rawPods, s) ==> Attended(c, i, role)
  }

  /** The selector picks a pod of this identity. */
  ghost predicate PicksUid(c: Cluster, s: Selector, uid: Uid) {
    exists i :: i in Picked(c.rawPods, s) && c.rawPods[i].uid == uid
  }

  /** The records are unique, edge and worker run, no pod is picked twice, none with a container of theirs is
      left over. */
  ghost predicate InOrder(c: Cluster, edge: Deployment, edges: Selector, worker: Deployment, workers: Selector) {
    && (forall i, j :: 0 <= i < j < |c.pods| ==> c.pods[i].uid != c.pods[j].uid)
    && (forall i, j :: 0 <= i < j < |c.deployments| ==> c.deployments[i].name != c.deployments[j].name)
    && (forall i, j :: 0 <= i < j < |c.rawDeployments| ==> c.rawDeployments[i].name != c.rawDeployments[j].name)
    && Runs(c, "k-comms-edge", "edge", edge, edges) && Runs(c, "k-comms-worker", "worker", worker, workers)
    && (forall uid :: PicksUid(c, edges, uid) ==> !PicksUid(c, workers, uid))
    && forall q :: q in c.pods && (exists k :: 0 <= k < |q.containers| && q.containers[k].name in {"edge", "worker"}) ==>
         PicksUid(c, edges, q.uid) || PicksUid(c, workers, q.uid)
  }

  lemma SelectedAre(pods: seq<RawPod>, s: Selector)
    ensures forall p :: p in Selected(pods, s) <==> exists i :: i in Picked(pods, s) && pods[i] == p
  {
    forall p ensures p in Selected(pods, s) <==> exists i :: i in Picked(pods, s) && pods[i] == p {
      SelectsIff(s, p);
      if p in pods && Picks(s, p.labels) {
        var i: nat :| i < |pods| && pods[i] == p;
        assert i in Picked(pods, s);
      }
    }
  }

  /** The selected pods are the picked positions, in order: as many, and as different. */
  lemma {:induction false} SelectedCounts(pods: seq<RawPod>, s: Selector)
    ensures |Selected(pods, s)| == |Picked(pods, s)|
    ensures DistinctPods(Selected(pods, s)) <==> Different(pods, Picked(pods, s))
  {
    hide Picks, Selects, DistinctPods, Different, Uids, Picked;
    if |pods| == 0 {
      NonePicked(pods, s);
    } else {
      var n := |pods| - 1;
      var most, last := pods[..n], pods[n];
      SelectedCounts(most, s);
      SelectsIff(s, last);
      PickedLast(pods, s);
      if Picks(s, last.labels) {
        LastPicked(pods, s);
        DistinctAppended(Selected(most, s), last);
      } else {
        assert Selected(pods, s) == Selected(most, s);
      }
    }
  }

  lemma NonePicked(pods: seq<RawPod>, s: Selector)
    requires |pods| == 0
    ensures Picked(pods, s) == {} && DistinctPods(Selected(pods, s)) && Different(pods, Picked(pods, s))
  {
  }

  lemma DistinctAppended(pods: seq<RawPod>, last: RawPod)
    ensures DistinctPods(pods + [last]) <==> DistinctPods(pods) && last.uid !in Uids(pods)
  {
    hide Uids;
    if DistinctPods(pods) {
      DistinctAppend(pods, last);
    } else {
      var i, j :| 0 <= i < j < |pods| && pods[i].uid == pods[j].uid;
      var all := pods + [last];
      assert all[i].uid == all[j].uid;
    }
  }

  lemma PickedLast(pods: seq<RawPod>, s: Selector)
    requires |pods| > 0
    ensures var n := |pods| - 1;
            Picked(pods, s) == Picked(pods[..n], s) + (if Picks(s, pods[n].labels) then {n} else {})
            && n !in Picked(pods[..n], s)
            && (!Picks(s, pods[n].labels) ==> (Different(pods, Picked(pods, s)) <==> Different(pods[..n], Picked(pods[..n], s))))
  {
    hide Picks;
    var n: nat := |pods| - 1;
    var most := pods[..n];
    forall i: nat ensures i in Picked(pods, s) <==> i in Picked(most, s) || (i == n && Picks(s, pods[n].labels)) {
      assert i < n ==> most[i] == pods[i];
    }
    if !Picks(s, pods[n].labels) {
      assert Picked(pods, s) == Picked(most, s);
      forall i, j | i in Picked(most, s) && j in Picked(most, s) && i < j
        ensures most[i].uid != most[j].uid <==> pods[i].uid != pods[j].uid
      {
      }
    }
  }

  lemma LastPicked(pods: seq<RawPod>, s: Selector)
    requires |pods| > 0 && Picks(s, pods[|pods| - 1].labels)
    ensures var n := |pods| - 1;
            Different(pods, Picked(pods, s)) <==>
              Different(pods[..n], Picked(pods[..n], s)) && pods[n].uid !in Uids(Selected(pods[..n], s))
  {
    hide Picks, Selects;
    var n: nat := |pods| - 1;
    var most := pods[..n];
    SelectedAre(most, s);
    PickedLast(pods, s);
    assert pods[n].uid in Uids(Selected(most, s)) <==> exists i :: i in Picked(most, s) && most[i].uid == pods[n].uid;
    assert n in Picked(pods, s);
    assert forall i :: i in Picked(most, s) ==> i in Picked(pods, s) && i < n && most[i] == pods[i];
  }

  lemma ServingIs(c: Cluster, raw: RawPod, q: Pod, role: string)
    ensures PodServes(raw, q, role, c.image, c.identify, c.accepted) <==> Serving(c, raw, q, role)
  {
  }

  lemma AllServedIs(c: Cluster, s: Selector, role: string)
    ensures c.AllServed(Selected(c.rawPods, s), role) <==>
              forall i :: i in Picked(c.rawPods, s) ==> Attended(c, i, role)
  {
    hide Picks, Selects, PodServes, Serving;
    SelectedAre(c.rawPods, s);
    forall raw, q ensures PodServes(raw, q, role, c.image, c.identify, c.accepted) <==> Serving(c, raw, q, role) {
      ServingIs(c, raw, q, role);
    }
    if c.AllServed(Selected(c.rawPods, s), role) {
      forall i | i in Picked(c.rawPods, s) ensures Attended(c, i, role) {
        assert c.Served(c.rawPods[i], role);
      }
    }
  }

  lemma DecidesIs(s: Selector, pods: seq<RawPod>)
    ensures Decides(s, pods) <==> forall p :: p in pods ==> !Undecided(s, p.labels)
  {
    hide Matches, Undecided;
    forall p ensures Matches(p, s).Err? <==> Undecided(s, p.labels) {
      SelectsIff(s, p);
    }
  }

  lemma FitsIs(c: Cluster, i: nat, w: Workload)
    requires i < 2
    ensures |APPLICATION| == 2
    ensures Fits(c, i, w) <==>
              Runs(c, if i == 0 then "k-comms-edge" else "k-comms-worker", if i == 0 then "edge" else "worker",
                   w.deployment, w.selector)
  {
    hide Picks, Picked, Selected, Decides, Undecided, Attended, DistinctPods, Different, PodServes;
    var role := if i == 0 then "edge" else "worker";
    DecidesIs(w.selector, c.rawPods);
    SelectedCounts(c.rawPods, w.selector);
    AllServedIs(c, w.selector, role);
    assert APPLICATION[i] == (if i == 0 then "k-comms-edge" else "k-comms-worker", role);
    ConvergedIs(w.deployment, role, c.image);
    hide DeploymentConverged;
  }

  lemma ConvergedIs(d: Deployment, role: string, image: string)
    ensures DeploymentConverged(d, role, image) <==>
              && d.replicas >= 1
              && |d.initContainers| == 0 && |d.ephemeralContainers| == 0 && |d.containers| == 1
              && d.containers[0].name == role && d.containers[0].image == image
              && d.status.observedGeneration == d.generation && d.status.replicas == d.replicas
              && d.status.updated == d.replicas && d.status.ready == d.replicas && d.status.available == d.replicas
              && d.status.unavailable == 0
  {
  }

  lemma SelectionIs(c: Cluster, w: Workload)
    ensures forall uid :: uid in Selection(c, w) <==> PicksUid(c, w.selector, uid)
  {
    hide Picks, Selects, Matches;
    var pods := c.rawPods;
    forall uid ensures uid in Selection(c, w) <==> PicksUid(c, w.selector, uid) {
      if uid in Selection(c, w) {
        var p :| p in pods && Selects(w.selector, p) && p.uid == uid;
        SelectsIff(w.selector, p);
        var i: nat :| i < |pods| && pods[i] == p;
        assert i in Picked(pods, w.selector);
      }
      if PicksUid(c, w.selector, uid) {
        var i :| i in Picked(pods, w.selector) && pods[i].uid == uid;
        SelectsIff(w.selector, pods[i]);
        assert pods[i] in pods;
      }
    }
  }

  lemma SoundIs(c: Cluster, v: Workload, w: Workload)
    ensures c.Unique() && Sound(c, [v, w]) <==> InOrder(c, v.deployment, v.selector, w.deployment, w.selector)
  {
    hide Fits, Runs, Selection, PicksUid;
    var ws := [v, w];
    FitsIs(c, 0, v);
    FitsIs(c, 1, w);
    SelectionIs(c, v);
    SelectionIs(c, w);
    assert ws[0] == v && ws[1] == w;
    assert AllFit(c, ws) <==> Fits(c, 0, v) && Fits(c, 1, w);
    SeparateIs(c, v, w);
    forall uid ensures Covered(c, ws, uid) <==> PicksUid(c, v.selector, uid) || PicksUid(c, w.selector, uid) {
      assert Covered(c, ws, uid) <==> uid in Selection(c, ws[0]) || uid in Selection(c, ws[1]);
    }
  }

  lemma SeparateIs(c: Cluster, v: Workload, w: Workload)
    ensures Separate(c, [v, w]) <==> forall uid :: PicksUid(c, v.selector, uid) ==> !PicksUid(c, w.selector, uid)
  {
    hide Selection, PicksUid;
    SelectionIs(c, v);
    SelectionIs(c, w);
    var ws := [v, w];
    assert Separate(c, ws) <==> Selection(c, ws[0]) !! Selection(c, ws[1]);
  }

  /** The topology check passes if and only if edge and worker are in order. */
  lemma PassesIff(c: Cluster)
    ensures (c.Unique() && exists ws :: Sound(c, ws)) <==>
              exists edge, edges, worker, workers :: InOrder(c, edge, edges, worker, workers)
  {
    hide Sound, InOrder;
    if ws :| c.Unique() && Sound(c, ws) {
      SoundPair(c, ws);
      SoundIs(c, ws[0], ws[1]);
    }
    if edge, edges, worker, workers :| InOrder(c, edge, edges, worker, workers) {
      SoundIs(c, Workload(edge, edges), Workload(worker, workers));
    }
  }

  lemma SoundPair(c: Cluster, ws: seq<Workload>)
    requires Sound(c, ws)
    ensures |ws| == 2 && ws == [ws[0], ws[1]]
  {
  }

  /** The production floor: three for edge, two for worker. */
  lemma FloorsAre(desired: map<string, int>, evidence: seq<Evidence>)
    ensures (forall i :: 0 <= i < |APPLICATION| ==>
               var (name, role) := APPLICATION[i];
               name in desired && desired[name] >= Minimum(role) && ReadyCount(evidence, role) >= Minimum(role)) <==>
            && "k-comms-edge" in desired && desired["k-comms-edge"] >= 3 && ReadyCount(evidence, "edge") >= 3
            && "k-comms-worker" in desired && desired["k-comms-worker"] >= 2 && ReadyCount(evidence, "worker") >= 2
  {
    hide ReadyCount;
    assert APPLICATION[0] == ("k-comms-edge", "edge") && APPLICATION[1] == ("k-comms-worker", "worker");
  }

  // ----- An ordinary cluster

  function RoleSelector(role: string): Selector {
    Selector(map["app.kubernetes.io/name" := "k-comms", "app.kubernetes.io/component" := role], [])
  }

  function RoleContainer(role: string): Container {
    Container(role, "registry/k-comms:1", Some("registry/k-comms@sha256:1"), true, true)
  }

  function RunningPod(uid: Uid, role: string): Pod {
    Pod(uid, uid, "Running", [RoleContainer(role)], [], [])
  }

  function LabelledPod(uid: Uid, role: string): RawPod {
    RawPod(uid, map["app.kubernetes.io/name" := "k-comms", "app.kubernetes.io/component" := role, "pod-template-hash" := "1"],
           false, [true])
  }

  function AvailableDeployment(name: string, role: string, replicas: int): Deployment {
    Deployment(name, replicas, 7, Status(7, replicas, replicas, replicas, replicas, 0), [RoleContainer(role)], [], [])
  }

  /** Three edge pods and two workers, which only the value of one label tells apart. */
  function Ordinary(): Cluster {
    Cluster([AvailableDeployment("k-comms-edge", "edge", 3), AvailableDeployment("k-comms-worker", "worker", 2)],
            [RawDeployment("k-comms-edge", RoleSelector("edge")), RawDeployment("k-comms-worker", RoleSelector("worker"))],
            [RunningPod("e1", "edge"), RunningPod("e2", "edge"), RunningPod("e3", "edge"),
             RunningPod("w1", "worker"), RunningPod("w2", "worker")],
            [LabelledPod("e1", "edge"), LabelledPod("w1", "worker"), LabelledPod("e2", "edge"),
             LabelledPod("w2", "worker"), LabelledPod("e3", "edge")],
            "registry/k-comms:1", id => if id == "registry/k-comms@sha256:1" then Some("sha256:1") else None, {"sha256:1"})
  }

  lemma RolePicks(role: string, uid: Uid, other: string)
    ensures Picks(RoleSelector(role), LabelledPod(uid, other).labels) <==> role == other
    ensures !Undecided(RoleSelector(role), LabelledPod(uid, other).labels)
  {
    var name, component := "app.kubernetes.io/name", "app.kubernetes.io/component";
    var wanted, labels := RoleSelector(role).matchLabels, LabelledPod(uid, other).labels;
    LabelsMean(LabelledPod(uid, other), RoleSelector(role));
    assert name != component && "pod-template-hash"[0] != component[0];
    assert wanted.Keys == {name, component} && wanted[name] == "k-comms" && wanted[component] == role;
    assert name in labels && labels[name] == "k-comms" && component in labels && labels[component] == other;
  }

  lemma OrdinaryPicked()
    ensures Picked(Ordinary().rawPods, RoleSelector("edge")) == {0, 2, 4}
    ensures Picked(Ordinary().rawPods, RoleSelector("worker")) == {1, 3}
  {
    hide Picks, Undecided, RoleSelector;
    var pods := Ordinary().rawPods;
    forall uid, other: string
      ensures Picks(RoleSelector("edge"), LabelledPod(uid, other).labels) <==> other == "edge"
      ensures Picks(RoleSelector("worker"), LabelledPod(uid, other).labels) <==> other == "worker"
    {
      RolePicks("edge", uid, other);
      RolePicks("worker", uid, other);
    }
  }

  lemma NamesDiffer()
    ensures "e1" != "e2" && "e1" != "e3" && "e2" != "e3" && "w1" != "w2"
    ensures "e1" !in {"w1", "w2"} && "e2" !in {"w1", "w2"} && "e3" !in {"w1", "w2"}
  {
    assert "e1"[1] != "e2"[1] && "e1"[1] != "e3"[1] && "e2"[1] != "e3"[1] && "w1"[1] != "w2"[1];
    assert "e1"[0] != "w1"[0] && "e2"[0] != "w1"[0] && "e3"[0] != "w1"[0] && "w2"[0] == "w1"[0];
  }

  lemma OrdinaryDecided(role: string)
    ensures forall p :: p in Ordinary().rawPods ==> !Undecided(RoleSelector(role), p.labels)
    ensures RoleSelector(role).matchLabels != map[]
  {
    assert "app.kubernetes.io/name" in RoleSelector(role).matchLabels;
  }

  lemma OrdinaryDifferent()
    ensures Different(Ordinary().rawPods, {0, 2, 4}) && Different(Ordinary().rawPods, {1, 3})
  {
    NamesDiffer();
    var raw := Ordinary().rawPods;
    assert raw[0].uid == "e1" && raw[2].uid == "e2" && raw[4].uid == "e3" && raw[1].uid == "w1" && raw[3].uid == "w2";
  }

  lemma OrdinaryRecords()
    ensures Ordinary().image == "registry/k-comms:1"
    ensures AvailableDeployment("k-comms-edge", "edge", 3) in Ordinary().deployments
    ensures AvailableDeployment("k-comms-worker", "worker", 2) in Ordinary().deployments
    ensures RawDeployment("k-comms-edge", RoleSelector("edge")) in Ordinary().rawDeployments
    ensures RawDeployment("k-comms-worker", RoleSelector("worker")) in Ordinary().rawDeployments
  {
    hide RoleSelector, LabelledPod;
    var c := Ordinary();
    assert c.deployments[0] in c.deployments && c.deployments[1] in c.deployments;
    assert c.rawDeployments[0] in c.rawDeployments && c.rawDeployments[1] in c.rawDeployments;
  }

  lemma OrdinaryRuns()
    ensures Runs(Ordinary(), "k-comms-edge", "edge", AvailableDeployment("k-comms-edge", "edge", 3), RoleSelector("edge"))
    ensures Runs(Ordinary(), "k-comms-worker", "worker", AvailableDeployment("k-comms-worker", "worker", 2),
                 RoleSelector("worker"))
  {
    hide Picks, Picked, Undecided, RoleSelector, LabelledPod, Different, Attended, Ordinary;
    OrdinaryRecords();
    OrdinaryPicked();
    OrdinaryServes();
    OrdinaryDifferent();
    OrdinaryDecided("edge");
    OrdinaryDecided("worker");
    assert |{0, 2, 4}| == 3 && |{1, 3}| == 2;
  }

  lemma OrdinaryServes()
    ensures forall i :: i in {0, 2, 4} ==> Attended(Ordinary(), i, "edge")
    ensures forall i :: i in {1, 3} ==> Attended(Ordinary(), i, "worker")
  {
    var c := Ordinary();
    assert c.pods[0] in c.pods && c.pods[1] in c.pods && c.pods[2] in c.pods && c.pods[3] in c.pods && c.pods[4] in c.pods;
    assert Serving(c, c.rawPods[0], c.pods[0], "edge") && Serving(c, c.rawPods[2], c.pods[1], "edge")
           && Serving(c, c.rawPods[4], c.pods[2], "edge");
    assert Serving(c, c.rawPods[1], c.pods[3], "worker") && Serving(c, c.rawPods[3], c.pods[4], "worker");
  }

  lemma OrdinaryUnique()
    ensures Ordinary().Unique()
  {
    NamesDiffer();
    assert "k-comms-edge" != "k-comms-worker" by {
      assert |"k-comms-edge"| != |"k-comms-worker"|;
    }
    var c := Ordinary();
    assert c.pods[0].uid == "e1" && c.pods[1].uid == "e2" && c.pods[2].uid == "e3" && c.pods[3].uid == "w1" && c.pods[4].uid == "w2";
  }

  /** The check passes on this cluster, in which three and two pods meet the production floor. */
  lemma OrdinaryPasses()
    ensures Ordinary().Unique() && exists ws :: Sound(Ordinary(), ws)
  {
    hide Runs, Picked, Picks, Sound, RoleSelector, LabelledPod, PicksUid;
    var c := Ordinary();
    OrdinaryUnique();
    OrdinaryRuns();
    OrdinaryCovered();
    NamesDiffer();
    assert forall q :: q in c.pods ==> q.uid in {"e1", "e2", "e3"} || q.uid in {"w1", "w2"};
    assert InOrder(c, AvailableDeployment("k-comms-edge", "edge", 3), RoleSelector("edge"),
                   AvailableDeployment("k-comms-worker", "worker", 2), RoleSelector("worker"));
    PassesIff(c);
  }

  lemma OrdinaryCovered()
    ensures forall uid :: PicksUid(Ordinary(), RoleSelector("edge"), uid) <==> uid in {"e1", "e2", "e3"}
    ensures forall uid :: PicksUid(Ordinary(), RoleSelector("worker"), uid) <==> uid in {"w1", "w2"}
  {
    hide Picked;
    var raw := Ordinary().rawPods;
    OrdinaryPicked();
    assert raw[0].uid == "e1" && raw[2].uid == "e2" && raw[4].uid == "e3" && raw[1].uid == "w1" && raw[3].uid == "w2";
  }
}
