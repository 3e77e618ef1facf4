/** The topology claim of the release evidence: which pods belong to which application deployment, and the
    ready counts that are recomputed from the evidence. */
module Topology {
  import opened Wrappers

  type Uid = string

  datatype Container = Container(name: string, image: string, imageId: Option<string>, ready: bool, running: bool)

  datatype Pod = Pod(uid: Uid, name: string, phase: string, containers: seq<Container>,
                     initContainers: seq<Container>, ephemeralContainers: seq<Container>)

  /** What only the unprocessed pod document holds. */
  datatype RawPod = RawPod(uid: Uid, labels: map<string, string>, terminating: bool, readyConditions: seq<bool>)

  datatype Requirement = Requirement(key: string, operator: string, values: seq<string>)

  datatype Selector = Selector(matchLabels: map<string, string>, matchExpressions: seq<Requirement>)

  datatype Status = Status(observedGeneration: int, replicas: int, updated: int, ready: int, available: int,
                           unavailable: int)

  datatype Deployment = Deployment(name: string, replicas: int, generation: int, status: Status,
                                   containers: seq<Container>, initContainers: seq<Container>,
                                   ephemeralContainers: seq<Container>)

  datatype RawDeployment = RawDeployment(name: string, selector: Selector)

  datatype Failure =
    | Malformed | MissingDeployment | BadDeployment | EmptySelector | WrongReplicaCount | OverlappingSelectors
    | MissingPod | BadPod | StalePod

  /** The application's deployments and the role of each. */
  const APPLICATION: seq<(string, string)> := [("k-comms-edge", "edge"), ("k-comms-worker", "worker")]
  const ROLES: set<string> := {"edge", "worker"}

  function Minimum(role: string): nat {
    if role == "edge" then 3 else 2
  }

  // ----- Selectors

  /** One requirement against the labels; a negated membership also needs the label to be there. */
  function Satisfies(labels: map<string, string>, r: Requirement): Result<bool, Failure> {
    if r.operator == "In" then Ok(r.key in labels && labels[r.key] in r.values)
    else if r.operator == "NotIn" then Ok(r.key in labels && labels[r.key] !in r.values)
    else if r.operator == "Exists" then Ok(r.key in labels)
    else if r.operator == "DoesNotExist" then Ok(r.key !in labels)
    else Err(Malformed)
  }

  /** The requirements in order, up to the first that fails. */
  function SatisfiesAll(labels: map<string, string>, rs: seq<Requirement>): Result<bool, Failure> {
    if |rs| == 0 then Ok(true)
    else
      match Satisfies(labels, rs[0])
      case Ok(true) => SatisfiesAll(labels, rs[1..])
      case other => other
  }

  /** `_pod_matches_selector` */
  function Matches(pod: RawPod, selector: Selector): Result<bool, Failure> {
    if forall key :: key in selector.matchLabels ==> key in pod.labels && pod.labels[key] == selector.matchLabels[key]
    then SatisfiesAll(pod.labels, selector.matchExpressions)
    else Ok(false)
  }

  predicate Selects(selector: Selector, pod: RawPod) {
    Matches(pod, selector) == Ok(true)
  }

  /** Every pod can be held against the selector. */
  ghost predicate Decides(selector: Selector, pods: seq<RawPod>) {
    forall p :: p in pods ==> Matches(p, selector).Ok?
  }

  /** The pods that the selector selects, in order. */
  function Selected(pods: seq<RawPod>, selector: Selector): (r: seq<RawPod>)
    ensures forall p :: p in r <==> p in pods && Selects(selector, p)
  {
    if |pods| == 0 then []
    else
      var last := pods[|pods| - 1];
      Selected(pods[..|pods| - 1], selector) + (if Selects(selector, last) then [last] else [])
  }

  method MatchingPods(pods: seq<RawPod>, selector: Selector) returns (r: Result<seq<RawPod>, Failure>)
    ensures r.Ok? <==> Decides(selector, pods)
    ensures r.Ok? ==> r.value == Selected(pods, selector)
  {
    hide Matches;
    var matching: seq<RawPod> := [];
    for i := 0 to |pods|
      invariant Decides(selector, pods[..i]) && matching == Selected(pods[..i], selector)
    {
      assert pods[..i + 1] == pods[..i] + [pods[i]];
      match Matches(pods[i], selector)
      case Err(failure) => return Err(failure);
      case Ok(matches) =>
        if matches {
          matching := matching + [pods[i]];
        }
    }
    assert pods[..|pods|] == pods;
    r := Ok(matching);
  }

  // ----- Records

  predicate DistinctUids(pods: seq<Pod>) {
    forall i, j :: 0 <= i < j < |pods| ==> pods[i].uid != pods[j].uid
  }

  predicate DistinctNames(deployments: seq<Deployment>) {
    forall i, j :: 0 <= i < j < |deployments| ==> deployments[i].name != deployments[j].name
  }

  predicate DistinctRawNames(deployments: seq<RawDeployment>) {
    forall i, j :: 0 <= i < j < |deployments| ==> deployments[i].name != deployments[j].name
  }

  /** `_validate_application_deployment`: converged, and running exactly the role's container. */
  predicate DeploymentConverged(d: Deployment, role: string, image: string) {
    && d.replicas >= 1 && d.initContainers == [] && d.ephemeralContainers == []
    && |d.containers| == 1 && d.containers[0].name == role && d.containers[0].image == image
    && d.status == Status(d.generation, d.replicas, d.replicas, d.replicas, d.replicas, 0)
  }

  /** `_validate_application_pod`; `identify` normalizes an image identity. */
  predicate PodServes(raw: RawPod, pod: Pod, role: string, image: string,
                      identify: string -> Option<string>, accepted: set<string>) {
    && !raw.terminating && raw.readyConditions == [true]
    && pod.initContainers == [] && pod.ephemeralContainers == []
    && |pod.containers| == 1 && pod.containers[0].name == role && pod.containers[0].image == image
    && pod.phase == "Running" && pod.containers[0].ready && pod.containers[0].running
    && pod.containers[0].imageId.Some?
    && identify(pod.containers[0].imageId.value).Some? && identify(pod.containers[0].imageId.value).value in accepted
  }

  predicate HasRoleContainer(pod: Pod) {
    exists i :: 0 <= i < |pod.containers| && pod.containers[i].name in ROLES
  }

  // ----- Claims

  type Claims = map<Uid, string>

  function ClaimedBy(claims: Claims, role: string): set<Uid> {
    set uid | uid in claims && claims[uid] == role
  }

  /** A claimed pod has a record with a single ready container, the one of its role. */
  predicate Backed(pods: seq<Pod>, uid: Uid, role: string) {
    exists i :: 0 <= i < |pods| && pods[i].uid == uid && |pods[i].containers| == 1 && pods[i].containers[0].name == role
  }

  function SelectedUids(pods: seq<RawPod>, selector: Selector): set<Uid> {
    set p | p in pods && Selects(selector, p) :: p.uid
  }

  /** What the check is given: the records, the unprocessed documents, and what identifies the image. */
  datatype Cluster = Cluster(deployments: seq<Deployment>, rawDeployments: seq<RawDeployment>, pods: seq<Pod>,
                             rawPods: seq<RawPod>, image: string, identify: string -> Option<string>,
                             accepted: set<string>)
  {
    predicate Unique() {
      DistinctUids(pods) && DistinctNames(deployments) && DistinctRawNames(rawDeployments)
    }

    /** The pod has a record, and that serves the role. */
    ghost predicate Served(pod: RawPod, role: string) {
      exists q :: q in pods && q.uid == pod.uid && PodServes(pod, q, role, image, identify, accepted)
    }

    ghost predicate AllServed(matching: seq<RawPod>, role: string) {
      forall p :: p in matching ==> Served(p, role)
    }
  }

  /** The lookup in an index of records. */
  method Find<T, K(==)>(items: seq<T>, key: T -> K, wanted: K) returns (r: Option<T>)
    ensures r.Some? ==> r.value in items && key(r.value) == wanted
    ensures r.None? ==> forall x :: x in items ==> key(x) != wanted
  {
    for i := 0 to |items|
      invariant forall x :: x in items[..i] ==> key(x) != wanted
    {
      assert items[..i + 1] == items[..i] + [items[i]];
      if key(items[i]) == wanted {
        return Some(items[i]);
      }
    }
    assert items[..|items|] == items;
    r := None;
  }

  /** From `before`, exactly the pods `uids` have been claimed, for `role`, each one backed by a record. */
  ghost predicate ClaimedFrom(before: Claims, claims: Claims, role: string, uids: set<Uid>, pods: seq<Pod>) {
    && claims.Keys == before.Keys + uids && before.Keys !! uids
    && (forall uid :: uid in uids ==> claims[uid] == role && Backed(pods, uid, role))
    && (forall uid :: uid in before ==> claims[uid] == before[uid])
  }

  lemma ClaimStep(before: Claims, claims: Claims, role: string, uids: set<Uid>, pods: seq<Pod>, uid: Uid)
    requires ClaimedFrom(before, claims, role, uids, pods) && uid !in claims && Backed(pods, uid, role)
    ensures ClaimedFrom(before, claims[uid := role], role, uids + {uid}, pods) && uid !in uids
  {
  }

  /** Claims for a role that had none: only that role's claims change. */
  lemma ClaimsAfter(before: Claims, claims: Claims, role: string, uids: set<Uid>, pods: seq<Pod>)
    requires ClaimedFrom(before, claims, role, uids, pods) && ClaimedBy(before, role) == {}
    ensures ClaimedBy(claims, role) == uids && |claims| == |before| + |uids|
    ensures forall other :: other != role ==> ClaimedBy(claims, other) == ClaimedBy(before, other)
    ensures forall uid :: uid in claims ==> Backed(pods, uid, claims[uid]) || (uid in before && claims[uid] == before[uid])
  {
    hide Backed;
    assert |claims.Keys| == |before.Keys| + |uids|;
    forall uid | uid in ClaimedBy(claims, role) ensures uid in uids {
      assert uid in before ==> uid in ClaimedBy(before, role);
    }
    assert ClaimedBy(claims, role) == uids;
  }

  function Uids(pods: seq<RawPod>): set<Uid> {
    set p | p in pods :: p.uid
  }

  predicate DistinctPods(pods: seq<RawPod>) {
    forall i, j :: 0 <= i < j < |pods| ==> pods[i].uid != pods[j].uid
  }

  /** None of the pods is claimed already, none comes twice, and each one is served by its record. */
  ghost predicate Claimable(c: Cluster, matching: seq<RawPod>, role: string, before: Claims) {
    DistinctPods(matching) && Uids(matching) !! before.Keys && c.AllServed(matching, role)
  }

  lemma NextClaimable(c: Cluster, matching: seq<RawPod>, pod: RawPod, role: string, before: Claims)
    requires Claimable(c, matching, role, before)
    ensures Uids(matching + [pod]) == Uids(matching) + {pod.uid}
    ensures Claimable(c, matching + [pod], role, before) <==>
            pod.uid !in before && pod.uid !in Uids(matching) && c.Served(pod, role)
  {
    hide PodServes, DistinctPods, Uids;
    UidsAppend(matching, pod);
    DistinctAppend(matching, pod);
    AllServedAppend(c, matching, pod, role);
  }

  lemma UidsAppend(matching: seq<RawPod>, pod: RawPod)
    ensures Uids(matching + [pod]) == Uids(matching) + {pod.uid}
  {
    var all := matching + [pod];
    assert all[|matching|] == pod;
    assert forall p :: p in all <==> p in matching || p == pod;
  }

  lemma DistinctAppend(matching: seq<RawPod>, pod: RawPod)
    requires DistinctPods(matching)
    ensures DistinctPods(matching + [pod]) <==> pod.uid !in Uids(matching)
  {
    var all := matching + [pod];
    assert all[|matching|] == pod && forall k :: 0 <= k < |matching| ==> all[k] == matching[k];
    if pod.uid in Uids(matching) {
      var k :| 0 <= k < |matching| && matching[k].uid == pod.uid;
      assert all[k].uid == all[|matching|].uid;
    } else {
      assert forall k :: 0 <= k < |matching| ==> matching[k] in matching && matching[k].uid in Uids(matching);
    }
  }

  lemma AllServedAppend(c: Cluster, matching: seq<RawPod>, pod: RawPod, role: string)
    ensures c.AllServed(matching + [pod], role) <==> c.AllServed(matching, role) && c.Served(pod, role)
  {
    hide PodServes;
    assert forall p :: p in matching + [pod] <==> p in matching || p == pod;
  }

  lemma PrefixClaimable(c: Cluster, matching: seq<RawPod>, k: nat, role: string, before: Claims)
    requires k <= |matching| && Claimable(c, matching, role, before)
    ensures Claimable(c, matching[..k], role, before)
  {
    hide PodServes;
  }

  /** The inner loop: one deployment claims its matching pods. */
  method ClaimPods(c: Cluster, matching: seq<RawPod>, role: string, before: Claims) returns (r: Result<Claims, Failure>)
    requires c.Unique()
    ensures r.Ok? <==> Claimable(c, matching, role, before)
    ensures r.Ok? ==> ClaimedFrom(before, r.value, role, Uids(matching), c.pods) && |Uids(matching)| == |matching|
  {
    hide ClaimedFrom, Backed, PodServes, Claimable, DistinctUids, DistinctNames, DistinctRawNames, Uids;
    var claims := before;
    NothingToClaim(c, role, before);
    for i := 0 to |matching|
      invariant Claimable(c, matching[..i], role, before)
      invariant ClaimedFrom(before, claims, role, Uids(matching[..i]), c.pods) && |Uids(matching[..i])| == i
    {
      var uid := matching[i].uid;
      assert matching[..i + 1] == matching[..i] + [matching[i]];
      NextClaimable(c, matching[..i], matching[i], role, before);
      ClaimedKeys(before, claims, role, Uids(matching[..i]), c.pods);
      ghost var whole := Claimable(c, matching, role, before);
      if whole {
        PrefixClaimable(c, matching, i + 1, role, before);
      }
      if uid in claims {
        return Err(OverlappingSelectors);
      }
      var pod := Find(c.pods, (p: Pod) => p.uid, uid);
      if pod.None? {
        return Err(MissingPod);
      }
      ServedBySingle(c, matching[i], pod.value, role);
      if !PodServes(matching[i], pod.value, role, c.image, c.identify, c.accepted) {
        return Err(BadPod);
      }
      ServesBacks(matching[i], pod.value, role, c.image, c.identify, c.accepted, c.pods);
      ClaimStep(before, claims, role, Uids(matching[..i]), c.pods, uid);
      claims := claims[uid := role];
    }
    assert matching[..|matching|] == matching;
    r := Ok(claims);
  }

  lemma NothingToClaim(c: Cluster, role: string, before: Claims)
    ensures Claimable(c, [], role, before) && Uids([]) == {} && ClaimedFrom(before, before, role, {}, c.pods)
  {
  }

  lemma ServedBySingle(c: Cluster, raw: RawPod, pod: Pod, role: string)
    requires c.Unique() && pod in c.pods && pod.uid == raw.uid
    ensures c.Served(raw, role) <==> PodServes(raw, pod, role, c.image, c.identify, c.accepted)
  {
    hide PodServes;
    forall q | q in c.pods && q.uid == pod.uid ensures q == pod {
    }
  }

  lemma ServesBacks(raw: RawPod, pod: Pod, role: string, image: string,
                    identify: string -> Option<string>, accepted: set<string>, pods: seq<Pod>)
    requires pod in pods && PodServes(raw, pod, role, image, identify, accepted)
    ensures Backed(pods, pod.uid, role)
  {
  }

  datatype Workload = Workload(deployment: Deployment, selector: Selector)

  /** The deployment of the application that has the role claims exactly the pods that its selector
      selects, as many as it wants. */
  ghost predicate Converged(claims: Claims, role: string, w: Workload, rawPods: seq<RawPod>) {
    && ClaimedBy(claims, role) == SelectedUids(rawPods, w.selector)
    && |ClaimedBy(claims, role)| == w.deployment.replicas
  }

  function TotalReplicas(ws: seq<Workload>): int {
    if |ws| == 0 then 0 else TotalReplicas(ws[..|ws| - 1]) + ws[|ws| - 1].deployment.replicas
  }

  /** The workload is made of the two documents that have the deployment's name. */
  ghost predicate Named(c: Cluster, i: nat, w: Workload)
    requires i < |APPLICATION|
  {
    && w.deployment in c.deployments && w.deployment.name == APPLICATION[i].0
    && RawDeployment(APPLICATION[i].0, w.selector) in c.rawDeployments
  }

  /** The deployment is converged, its selector says something and can be decided, and the selected pods are
      as many as it wants, all different and all served. */
  ghost predicate Healthy(c: Cluster, role: string, w: Workload) {
    && DeploymentConverged(w.deployment, role, c.image)
    && !(w.selector.matchLabels == map[] && w.selector.matchExpressions == [])
    && Decides(w.selector, c.rawPods)
    && |Selected(c.rawPods, w.selector)| == w.deployment.replicas
    && DistinctPods(Selected(c.rawPods, w.selector))
    && c.AllServed(Selected(c.rawPods, w.selector), role)
  }

  ghost predicate Fits(c: Cluster, i: nat, w: Workload)
    requires i < |APPLICATION|
  {
    Named(c, i, w) && Healthy(c, APPLICATION[i].1, w)
  }

  function Selection(c: Cluster, w: Workload): set<Uid> {
    SelectedUids(c.rawPods, w.selector)
  }

  ghost predicate Covered(c: Cluster, ws: seq<Workload>, uid: Uid) {
    exists j :: 0 <= j < |ws| && uid in Selection(c, ws[j])
  }

  ghost predicate Separate(c: Cluster, ws: seq<Workload>) {
    forall i, j :: 0 <= i < j < |ws| ==> Selection(c, ws[i]) !! Selection(c, ws[j])
  }

  ghost predicate AllFit(c: Cluster, ws: seq<Workload>) {
    |ws| <= |APPLICATION| && forall i :: 0 <= i < |ws| ==> Fits(c, i, ws[i])
  }

  ghost predicate NoneStale(c: Cluster, ws: seq<Workload>) {
    forall pod :: pod in c.pods && HasRoleContainer(pod) ==> Covered(c, ws, pod.uid)
  }

  /** The deployments of the application fit, no pod is selected twice, and no pod with an application
      container is left over. */
  ghost predicate Sound(c: Cluster, ws: seq<Workload>) {
    |ws| == |APPLICATION| && AllFit(c, ws) && Separate(c, ws) && NoneStale(c, ws)
  }

  lemma NamedOnce(c: Cluster, i: nat, w: Workload, v: Workload)
    requires c.Unique() && i < |APPLICATION| && Named(c, i, w) && Named(c, i, v)
    ensures w == v
  {
  }

  /** The claims are those of the first deployments. */
  ghost predicate ClaimsOf(c: Cluster, claims: Claims, ws: seq<Workload>) {
    forall uid :: uid in claims <==> Covered(c, ws, uid)
  }

  /** If the next deployment does not fit beside what is claimed, no choice of deployments is sound. */
  lemma NextMisfit(c: Cluster, claims: Claims, ws: seq<Workload>, all: seq<Workload>)
    requires c.Unique() && AllFit(c, ws) && ClaimsOf(c, claims, ws) && |ws| < |APPLICATION|
    requires forall w :: Fits(c, |ws|, w) ==> exists uid :: uid in Selection(c, w) && uid in claims
    ensures !Sound(c, all)
  {
    hide Healthy, Selection, DistinctUids, DistinctNames, DistinctRawNames;
    if |all| == |APPLICATION| && AllFit(c, all) {
      var w := all[|ws|];
      assert Fits(c, |ws|, w);
      var uid :| uid in Selection(c, w) && uid in claims;
      var j :| 0 <= j < |ws| && uid in Selection(c, ws[j]);
      assert Fits(c, j, ws[j]) && Fits(c, j, all[j]);
      NamedOnce(c, j, ws[j], all[j]);
    }
  }

  /** If all deployments fit and a pod with an application container is not claimed, no other choice helps. */
  lemma StaleUnsound(c: Cluster, claims: Claims, ws: seq<Workload>, all: seq<Workload>, pod: Pod)
    requires c.Unique() && |ws| == |APPLICATION| && AllFit(c, ws) && ClaimsOf(c, claims, ws)
    requires pod in c.pods && HasRoleContainer(pod) && pod.uid !in claims
    ensures !Sound(c, all)
  {
    hide Healthy, Separate, Covered, HasRoleContainer, DistinctUids, DistinctNames, DistinctRawNames;
    if |all| == |APPLICATION| && AllFit(c, all) {
      forall i | 0 <= i < |ws| ensures ws[i] == all[i] {
        assert Fits(c, i, ws[i]) && Fits(c, i, all[i]);
        NamedOnce(c, i, ws[i], all[i]);
      }
      assert ws == all;
    }
  }

  lemma ClaimsGrow(c: Cluster, claims: Claims, next: Claims, ws: seq<Workload>, w: Workload)
    requires ClaimsOf(c, claims, ws) && AllFit(c, ws) && Separate(c, ws) && |ws| < |APPLICATION| && Fits(c, |ws|, w)
    requires next.Keys == claims.Keys + Selection(c, w) && claims.Keys !! Selection(c, w)
    ensures ClaimsOf(c, next, ws + [w]) && AllFit(c, ws + [w]) && Separate(c, ws + [w])
  {
    hide Fits, Selection;
    var all := ws + [w];
    forall uid ensures uid in next <==> Covered(c, all, uid) {
      if Covered(c, ws, uid) {
        var j :| 0 <= j < |ws| && uid in Selection(c, ws[j]);
        assert all[j] == ws[j];
      }
      if uid in Selection(c, w) {
        assert all[|ws|] == w;
      }
    }
    forall j | 0 <= j < |ws| ensures Selection(c, ws[j]) !! Selection(c, w) {
      forall uid | uid in Selection(c, ws[j]) ensures uid in claims {
        assert Covered(c, ws, uid);
      }
    }
  }

  /** What is known after the first deployments of the application have claimed their pods. */
  ghost predicate ClaimedSoFar(claims: Claims, ws: seq<Workload>, c: Cluster) {
    && |ws| <= |APPLICATION|
    && (forall j :: 0 <= j < |ws| ==>
          && Named(c, j, ws[j]) && Converged(claims, APPLICATION[j].1, ws[j], c.rawPods))
    && (forall uid :: uid in claims ==> Backed(c.pods, uid, claims[uid]))
    && (forall role :: (forall j :: 0 <= j < |ws| ==> APPLICATION[j].1 != role) ==> ClaimedBy(claims, role) == {})
    && |claims| == TotalReplicas(ws)
  }

  lemma NextDeployment(claims: Claims, next: Claims, ws: seq<Workload>, w: Workload, c: Cluster)
    requires ClaimedSoFar(claims, ws, c) && |ws| < |APPLICATION|
    requires Named(c, |ws|, w) && ClaimedFrom(claims, next, APPLICATION[|ws|].1, Selection(c, w), c.pods)
    requires |Selection(c, w)| == w.deployment.replicas
    ensures ClaimedSoFar(next, ws + [w], c)
  {
    hide Backed, SelectedUids, ClaimedBy, Named, ClaimedFrom;
    var role := APPLICATION[|ws|].1;
    var all := ws + [w];
    FreshRole(claims, ws, c);
    ClaimsAfter(claims, next, role, Selection(c, w), c.pods);
    forall j | 0 <= j < |all| ensures Named(c, j, all[j]) && Converged(next, APPLICATION[j].1, all[j], c.rawPods) {
      if j < |ws| {
        assert APPLICATION[j].1 != role;
        assert Converged(claims, APPLICATION[j].1, ws[j], c.rawPods);
      }
    }
    forall uid | uid in next ensures Backed(c.pods, uid, next[uid]) {
      assert uid in claims ==> Backed(c.pods, uid, claims[uid]);
    }
    forall other | forall j :: 0 <= j < |all| ==> APPLICATION[j].1 != other ensures ClaimedBy(next, other) == {} {
      assert APPLICATION[|ws|].1 != other;
      assert forall j :: 0 <= j < |ws| ==> APPLICATION[j].1 != other;
      assert ClaimedBy(next, other) == ClaimedBy(claims, other);
    }
    assert all[..|ws|] == ws;
  }

  method UniqueRecords(c: Cluster) returns (unique: bool)
    ensures unique <==> c.Unique()
  {
    var names: set<string>, rawNames: set<string>, uids: set<string> := {}, {}, {};
    for i := 0 to |c.deployments|
      invariant names == set j | 0 <= j < i :: c.deployments[j].name
      invariant DistinctNames(c.deployments[..i])
    {
      if c.deployments[i].name in names {
        return false;
      }
      names := names + {c.deployments[i].name};
    }
    for i := 0 to |c.rawDeployments|
      invariant rawNames == set j | 0 <= j < i :: c.rawDeployments[j].name
      invariant DistinctRawNames(c.rawDeployments[..i])
    {
      if c.rawDeployments[i].name in rawNames {
        return false;
      }
      rawNames := rawNames + {c.rawDeployments[i].name};
    }
    for i := 0 to |c.pods|
      invariant uids == set j | 0 <= j < i :: c.pods[j].uid
      invariant DistinctUids(c.pods[..i])
    {
      if c.pods[i].uid in uids {
        return false;
      }
      uids := uids + {c.pods[i].uid};
    }
    unique := true;
  }

  /** One deployment of the application looks its documents up and claims its pods, if it fits and selects
      no claimed pod. */
  method ClaimDeployment(c: Cluster, i: nat, before: Claims) returns (r: Result<Claims, Failure>, ghost w: Workload)
    requires c.Unique() && i < |APPLICATION|
    ensures r.Ok? ==> Fits(c, i, w) && ClaimedFrom(before, r.value, APPLICATION[i].1, Selection(c, w), c.pods)
                      && |Selection(c, w)| == w.deployment.replicas
    ensures r.Err? ==> forall v :: Fits(c, i, v) ==> !(Selection(c, v) !! before.Keys)
  {
    hide Decides, ClaimedFrom, DeploymentConverged, DistinctUids, DistinctNames, DistinctRawNames;
    var (name, role) := APPLICATION[i];
    w := *;
    var deployment := Find(c.deployments, (d: Deployment) => d.name, name);
    var rawDeployment := Find(c.rawDeployments, (d: RawDeployment) => d.name, name);
    if deployment.None? || rawDeployment.None? {
      return Err(MissingDeployment), w;
    }
    var selector := rawDeployment.value.selector;
    w := Workload(deployment.value, selector);
    assert Named(c, i, w);
    forall v | Named(c, i, v) ensures v == w {
      NamedOnce(c, i, v, w);
    }
    if !DeploymentConverged(deployment.value, role, c.image) {
      return Err(BadDeployment), w;
    }
    if selector.matchLabels == map[] && selector.matchExpressions == [] {
      return Err(EmptySelector), w;
    }
    var matching := MatchingPods(c.rawPods, selector);
    if matching.Err? {
      return Err(matching.error), w;
    }
    if |matching.value| != deployment.value.replicas {
      return Err(WrongReplicaCount), w;
    }
    SameUids(c, w);
    r := ClaimPods(c, matching.value, role, before);
  }

  /** What a passed topology check guarantees about its claims. */
  ghost predicate Accounted(claims: Claims, ws: seq<Workload>, c: Cluster) {
    && |ws| == |APPLICATION|
    && ClaimedSoFar(claims, ws, c)
    && DistinctUids(c.pods)
    && forall pod :: pod in c.pods && HasRoleContainer(pod) ==> pod.uid in claims
  }

  /** `_validate_application_topology` */
  method ValidateApplicationTopology(c: Cluster) returns (r: Result<Claims, Failure>)
    ensures r.Ok? <==> c.Unique() && exists ws :: Sound(c, ws)
    ensures r.Ok? ==> exists ws :: Sound(c, ws) && Accounted(r.value, ws, c)
  {
    hide Fits, Selection, ClaimedFrom, ClaimedSoFar, DistinctUids, DistinctNames, DistinctRawNames, HasRoleContainer;
    var unique := UniqueRecords(c);
    if !unique {
      return Err(Malformed);
    }
    var claims: Claims := map[];
    ghost var ws: seq<Workload> := [];
    NothingClaimed(c);
    for i := 0 to |APPLICATION|
      invariant |ws| == i && ClaimedSoFar(claims, ws, c)
      invariant ClaimsOf(c, claims, ws) && AllFit(c, ws) && Separate(c, ws)
    {
      var next, w := ClaimDeployment(c, i, claims);
      if next.Err? {
        forall all ensures !Sound(c, all) {
          NextMisfit(c, claims, ws, all);
        }
        return Err(next.error);
      }
      ClaimedKeys(claims, next.value, APPLICATION[i].1, Selection(c, w), c.pods);
      ClaimsGrow(c, claims, next.value, ws, w);
      FitsNamed(c, i, w);
      NextDeployment(claims, next.value, ws, w, c);
      claims := next.value;
      ws := ws + [w];
    }
    for i := 0 to |c.pods|
      invariant forall j :: 0 <= j < i && HasRoleContainer(c.pods[j]) ==> c.pods[j].uid in claims
    {
      if HasRoleContainer(c.pods[i]) && c.pods[i].uid !in claims {
        forall all ensures !Sound(c, all) {
          StaleUnsound(c, claims, ws, all, c.pods[i]);
        }
        return Err(StalePod);
      }
    }
    assert Sound(c, ws) && Accounted(claims, ws, c);
    r := Ok(claims);
  }

  lemma FitsNamed(c: Cluster, i: nat, w: Workload)
    requires i < |APPLICATION| && Fits(c, i, w)
    ensures Named(c, i, w)
  {
  }

  lemma ClaimedKeys(before: Claims, claims: Claims, role: string, uids: set<Uid>, pods: seq<Pod>)
    requires ClaimedFrom(before, claims, role, uids, pods)
    ensures claims.Keys == before.Keys + uids && before.Keys !! uids
  {
  }

  lemma NothingClaimed(c: Cluster)
    ensures ClaimedSoFar(map[], [], c) && ClaimsOf(c, map[], [])
  {
  }

  lemma FreshRole(claims: Claims, ws: seq<Workload>, c: Cluster)
    requires ClaimedSoFar(claims, ws, c) && |ws| < |APPLICATION|
    ensures ClaimedBy(claims, APPLICATION[|ws|].1) == {}
  {
  }

  lemma SameUids(c: Cluster, w: Workload)
    ensures Uids(Selected(c.rawPods, w.selector)) == Selection(c, w)
  {
  }

  /** The claims of the two deployments are disjoint and are all the claims there are. */
  lemma ClaimsPartition(claims: Claims, ws: seq<Workload>, c: Cluster)
    requires Accounted(claims, ws, c)
    ensures Selection(c, ws[0]) !! Selection(c, ws[1])
    ensures claims.Keys == Selection(c, ws[0]) + Selection(c, ws[1])
    ensures |claims| == ws[0].deployment.replicas + ws[1].deployment.replicas
  {
    hide Backed, SelectedUids, HasRoleContainer;
    assert Converged(claims, APPLICATION[0].1, ws[0], c.rawPods) && Converged(claims, APPLICATION[1].1, ws[1], c.rawPods);
    forall uid | uid in claims ensures claims[uid] == APPLICATION[0].1 || claims[uid] == APPLICATION[1].1 {
      var role := claims[uid];
      assert uid in ClaimedBy(claims, role);
    }
    assert ws[..1][..0] == [] && ws[..2] == ws;
    assert TotalReplicas(ws) == TotalReplicas(ws[..1]) + ws[1].deployment.replicas;
  }

  // ----- Evidence

  datatype Evidence = Evidence(name: string, role: string)

  /** `_application_pod_evidence`, up to the final sort by name: the claimed pods with their role container. */
  function PodEvidence(pods: seq<Pod>, claimed: set<Uid>): seq<Evidence> {
    if |pods| == 0 then []
    else
      (if pods[0].uid in claimed then [Evidence(pods[0].name, RoleOf(pods[0].containers))] else []) +
      PodEvidence(pods[1..], claimed)
  }

  /** The name of the first container that has an application role. */
  function RoleOf(containers: seq<Container>): string {
    if |containers| == 0 then "" else if containers[0].name in ROLES then containers[0].name else RoleOf(containers[1..])
  }

  function ReadyCount(evidence: seq<Evidence>, role: string): nat {
    if |evidence| == 0 then 0
    else (if evidence[0].role == role then 1 else 0) + ReadyCount(evidence[1..], role)
  }

  lemma {:induction false} ReadyCountAppend(a: seq<Evidence>, b: seq<Evidence>, role: string)
    ensures ReadyCount(a + b, role) == ReadyCount(a, role) + ReadyCount(b, role)
  {
    if |a| == 0 {
      assert a + b == b;
    } else {
      assert (a + b)[1..] == a[1..] + b;
      ReadyCountAppend(a[1..], b, role);
    }
  }

  function PodUids(pods: seq<Pod>): set<Uid> {
    set p | p in pods :: p.uid
  }

  /** One more pod record adds its identity to the claimed ones exactly when it is claimed. */
  lemma ClaimedPodsGrow(claimed: set<Uid>, first: Pod, rest: seq<Pod>)
    requires first.uid !in PodUids(rest)
    ensures |claimed * PodUids([first] + rest)| == |claimed * PodUids(rest)| + (if first.uid in claimed then 1 else 0)
  {
    var pods := [first] + rest;
    assert PodUids(pods) == {first.uid} + PodUids(rest) by {
      assert pods[0] == first;
      assert forall p :: p in rest ==> p in pods;
    }
    if first.uid in claimed {
      assert claimed * PodUids(pods) == claimed * PodUids(rest) + {first.uid};
    } else {
      assert claimed * PodUids(pods) == claimed * PodUids(rest);
    }
  }

  lemma NoPods(pods: seq<Pod>)
    requires |pods| == 0
    ensures PodUids(pods) == {}
  {
  }

  lemma DistinctTail(pods: seq<Pod>)
    requires DistinctUids(pods) && |pods| > 0
    ensures DistinctUids(pods[1..]) && pods[0].uid !in PodUids(pods[1..])
  {
  }

  /** Over pods with distinct identities the evidence of a role counts the claimed pods of that role. */
  lemma {:induction false} EvidenceCounts(pods: seq<Pod>, claims: Claims, role: string)
    requires DistinctUids(pods)
    requires forall p :: p in pods && p.uid in claims ==> RoleOf(p.containers) == claims[p.uid]
    ensures ReadyCount(PodEvidence(pods, claims.Keys), role) == |ClaimedBy(claims, role) * PodUids(pods)|
  {
    hide DistinctUids, PodUids, RoleOf;
    if |pods| == 0 {
      NoPods(pods);
    } else {
      var first, rest := pods[0], pods[1..];
      DistinctTail(pods);
      EvidenceCounts(rest, claims, role);
      assert pods == [first] + rest;
      ClaimedPodsGrow(ClaimedBy(claims, role), first, rest);
      var head := if first.uid in claims then [Evidence(first.name, RoleOf(first.containers))] else [];
      ReadyCountAppend(head, PodEvidence(rest, claims.Keys), role);
      assert first in pods;
      assert first.uid in ClaimedBy(claims, role) <==> first.uid in claims && claims[first.uid] == role;
      assert ReadyCount(head, role) == if first.uid in ClaimedBy(claims, role) then 1 else 0;
    }
  }

  lemma ClaimsRecorded(claims: Claims, pods: seq<Pod>, role: string)
    requires forall uid :: uid in claims ==> Backed(pods, uid, claims[uid])
    ensures ClaimedBy(claims, role) <= PodUids(pods)
  {
    forall uid | uid in ClaimedBy(claims, role) ensures uid in PodUids(pods) {
      var i :| 0 <= i < |pods| && pods[i].uid == uid;
      assert pods[i] in pods;
    }
  }

  lemma BackedRole(pods: seq<Pod>, p: Pod, role: string)
    requires DistinctUids(pods) && p in pods && Backed(pods, p.uid, role) && role in ROLES
    ensures RoleOf(p.containers) == role
  {
  }

  lemma ClaimsKnown(claims: Claims, ws: seq<Workload>, c: Cluster, i: nat)
    requires ClaimedSoFar(claims, ws, c) && i < |ws|
    ensures |ClaimedBy(claims, APPLICATION[i].1)| == ws[i].deployment.replicas
    ensures forall uid :: uid in claims ==> Backed(c.pods, uid, claims[uid])
  {
    hide Backed, ClaimedBy;
    assert Converged(claims, APPLICATION[i].1, ws[i], c.rawPods);
  }

  /** Whenever the topology check passes, the ready count of a role that is recomputed from the evidence is
      the number of replicas that its deployment wants. */
  lemma ReadyCountIsDesired(claims: Claims, ws: seq<Workload>, c: Cluster, i: nat)
    requires Accounted(claims, ws, c) && i < |APPLICATION|
    ensures ReadyCount(PodEvidence(c.pods, claims.Keys), APPLICATION[i].1) == ws[i].deployment.replicas
  {
    hide ClaimedSoFar, PodEvidence, ReadyCount, DistinctUids, HasRoleContainer, Backed, RoleOf;
    var role := APPLICATION[i].1;
    ClaimsKnown(claims, ws, c, i);
    forall p | p in c.pods && p.uid in claims ensures RoleOf(p.containers) == claims[p.uid] {
      ClaimedRole(claims, ws, c, p.uid);
      BackedRole(c.pods, p, claims[p.uid]);
    }
    EvidenceCounts(c.pods, claims, role);
    ClaimsRecorded(claims, c.pods, role);
    assert ClaimedBy(claims, role) * PodUids(c.pods) == ClaimedBy(claims, role);
  }

  /** So after the topology check the ready count that is recomputed from the evidence meets the floor of a
      role exactly when its deployment asks for that many replicas. */
  lemma FloorMetIff(claims: Claims, ws: seq<Workload>, c: Cluster)
    requires Accounted(claims, ws, c)
    ensures forall i :: 0 <= i < |APPLICATION| ==>
              (ReadyCount(PodEvidence(c.pods, claims.Keys), APPLICATION[i].1) >= Minimum(APPLICATION[i].1) <==>
               ws[i].deployment.replicas >= Minimum(APPLICATION[i].1))
  {
    hide ClaimedSoFar, PodEvidence, ReadyCount;
    forall i: nat | i < |APPLICATION|
      ensures ReadyCount(PodEvidence(c.pods, claims.Keys), APPLICATION[i].1) == ws[i].deployment.replicas
    {
      ReadyCountIsDesired(claims, ws, c, i);
    }
  }

  lemma ClaimedRole(claims: Claims, ws: seq<Workload>, c: Cluster, uid: Uid)
    requires Accounted(claims, ws, c) && uid in claims
    ensures claims[uid] in ROLES
  {
    hide Backed, Converged;
    var role := claims[uid];
    assert uid in ClaimedBy(claims, role);
    assert exists j :: 0 <= j < |ws| && APPLICATION[j].1 == role;
  }

  // ----- The production floor

  /** `_validate_production_topology`, on the evidence of both kinds. */
  method ValidateProductionTopology(desired: map<string, int>, evidence: seq<Evidence>) returns (ok: bool)
    ensures ok <==> forall i :: 0 <= i < |APPLICATION| ==>
                      var (name, role) := APPLICATION[i];
                      name in desired && desired[name] >= Minimum(role) && ReadyCount(evidence, role) >= Minimum(role)
  {
    var counts: map<string, nat> := map["edge" := 0, "worker" := 0];
    for k := 0 to |evidence|
      invariant counts.Keys == ROLES
      invariant forall role :: role in counts ==> counts[role] == ReadyCount(evidence[..k], role)
    {
      var role := evidence[k].role;
      assert evidence[..k + 1] == evidence[..k] + [evidence[k]];
      forall r | r in counts ensures ReadyCount(evidence[..k + 1], r) == counts[r] + if r == role then 1 else 0 {
        ReadyCountAppend(evidence[..k], [evidence[k]], r);
      }
      if role in counts {
        counts := counts[role := counts[role] + 1];
      }
    }
    assert evidence[..|evidence|] == evidence;
    ok := true;
    for i := 0 to |APPLICATION|
      invariant ok <==> forall j :: 0 <= j < i ==>
                  var (name, role) := APPLICATION[j];
                  name in desired && desired[name] >= Minimum(role) && ReadyCount(evidence, role) >= Minimum(role)
    {
      var (name, role) := APPLICATION[i];
      ok := ok && name in desired && desired[name] >= Minimum(role) && counts[role] >= Minimum(role);
    }
  }
}
