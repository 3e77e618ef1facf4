/** Normalization of Deployment and Job specs, level by level, and the control comparison built on it. */
module Controls {
  import opened Json
  import opened Workload
  import opened Wrappers

  // ----- Ports, mounts, environment variables, volumes, spread constraints

  const PORT_DEFAULTS: Defaults := [("protocol", Text("TCP"))]
  const MOUNT_DEFAULTS: Defaults := [("readOnly", Bool(false))]
  const FIELD_REF_DEFAULTS: Defaults := [("apiVersion", Text("v1"))]
  const SOURCE_DEFAULTS: Defaults := [("defaultMode", Number(420))]
  const SPREAD_DEFAULTS: Defaults := [
    ("minDomains", Number(1)), ("nodeAffinityPolicy", Text("Honor")), ("nodeTaintsPolicy", Text("Ignore"))]

  function NormalizePort(e: Map, l: Map): Map { DropDefaults(l, e, PORT_DEFAULTS) }
  function NormalizeMount(e: Map, l: Map): Map { DropDefaults(l, e, MOUNT_DEFAULTS) }
  function NormalizeFieldRef(e: Map, l: Map): Map { DropDefaults(l, e, FIELD_REF_DEFAULTS) }
  function NormalizeSource(e: Map, l: Map): Map { DropDefaults(l, e, SOURCE_DEFAULTS) }
  function NormalizeSpread(e: Map, l: Map): Map { DropDefaults(l, e, SPREAD_DEFAULTS) }

  function NormalizeValueFrom(e: Map, l: Map): Map { InObject(e, l, "fieldRef", NormalizeFieldRef) }
  function NormalizeEnvVar(e: Map, l: Map): Map { InObject(e, l, "valueFrom", NormalizeValueFrom) }

  function NormalizeVolume(e: Map, l: Map): Map {
    var l := InObject(e, l, "configMap", NormalizeSource);
    var l := InObject(e, l, "secret", NormalizeSource);
    var l := InObject(e, l, "projected", NormalizeSource);
    InObject(e, l, "downwardAPI", NormalizeSource)
  }

  ghost predicate PortAgrees(e: Map, l: Map) { Agrees(PORT_DEFAULTS, map[], e, l) }
  ghost predicate MountAgrees(e: Map, l: Map) { Agrees(MOUNT_DEFAULTS, map[], e, l) }
  ghost predicate FieldRefAgrees(e: Map, l: Map) { Agrees(FIELD_REF_DEFAULTS, map[], e, l) }
  ghost predicate SourceAgrees(e: Map, l: Map) { Agrees(SOURCE_DEFAULTS, map[], e, l) }
  ghost predicate SpreadAgrees(e: Map, l: Map) { Agrees(SPREAD_DEFAULTS, map[], e, l) }
  ghost predicate ValueFromAgrees(e: Map, l: Map) { Agrees([], map["fieldRef" := ByObject(FieldRefAgrees)], e, l) }
  ghost predicate EnvVarAgrees(e: Map, l: Map) { Agrees([], map["valueFrom" := ByObject(ValueFromAgrees)], e, l) }
  ghost predicate VolumeAgrees(e: Map, l: Map) {
    Agrees([], map["configMap" := ByObject(SourceAgrees), "secret" := ByObject(SourceAgrees),
                   "projected" := ByObject(SourceAgrees), "downwardAPI" := ByObject(SourceAgrees)], e, l)
  }

  // ----- Containers

  const CONTAINER_DEFAULTS: Defaults := [
    ("imagePullPolicy", Text("IfNotPresent")), ("terminationMessagePath", Text("/dev/termination-log")),
    ("terminationMessagePolicy", Text("File")), ("stdin", Bool(false)), ("stdinOnce", Bool(false)),
    ("tty", Bool(false))]
  const CONTAINER_SECURITY_DEFAULTS: Defaults := [("privileged", Bool(false)), ("procMount", Text("Default"))]
  const CAPABILITY_DEFAULTS: Defaults := [("add", List([]))]
  const PROBE_DEFAULTS: Defaults := [
    ("initialDelaySeconds", Number(0)), ("periodSeconds", Number(10)), ("timeoutSeconds", Number(1)),
    ("successThreshold", Number(1)), ("failureThreshold", Number(3))]
  const HTTP_GET_DEFAULTS: Defaults := [("scheme", Text("HTTP"))]

  function NormalizeCapabilities(e: Map, l: Map): Map { DropDefaults(l, e, CAPABILITY_DEFAULTS) }
  function NormalizeHttpGet(e: Map, l: Map): Map { DropDefaults(l, e, HTTP_GET_DEFAULTS) }

  function NormalizeContainerSecurity(e: Map, l: Map): Map {
    InObject(e, DropDefaults(l, e, CONTAINER_SECURITY_DEFAULTS), "capabilities", NormalizeCapabilities)
  }

  function NormalizeProbe(e: Map, l: Map): Map {
    InObject(e, DropDefaults(l, e, PROBE_DEFAULTS), "httpGet", NormalizeHttpGet)
  }

  function NormalizeContainer(e: Map, l: Map): Map {
    var l := DropDefaults(l, e, CONTAINER_DEFAULTS);
    var l := InObject(e, l, "securityContext", NormalizeContainerSecurity);
    var l := InObject(e, l, "startupProbe", NormalizeProbe);
    var l := InObject(e, l, "readinessProbe", NormalizeProbe);
    var l := InObject(e, l, "livenessProbe", NormalizeProbe);
    var l := InList(e, l, "ports", NormalizePort);
    var l := InList(e, l, "volumeMounts", NormalizeMount);
    InList(e, l, "env", NormalizeEnvVar)
  }

  ghost predicate CapabilitiesAgree(e: Map, l: Map) { Agrees(CAPABILITY_DEFAULTS, map[], e, l) }
  ghost predicate HttpGetAgrees(e: Map, l: Map) { Agrees(HTTP_GET_DEFAULTS, map[], e, l) }
  ghost predicate ContainerSecurityAgrees(e: Map, l: Map) {
    Agrees(CONTAINER_SECURITY_DEFAULTS, map["capabilities" := ByObject(CapabilitiesAgree)], e, l)
  }
  ghost predicate ProbeAgrees(e: Map, l: Map) {
    Agrees(PROBE_DEFAULTS, map["httpGet" := ByObject(HttpGetAgrees)], e, l)
  }
  ghost predicate ContainerAgrees(e: Map, l: Map) {
    Agrees(CONTAINER_DEFAULTS,
           map["securityContext" := ByObject(ContainerSecurityAgrees), "startupProbe" := ByObject(ProbeAgrees),
               "readinessProbe" := ByObject(ProbeAgrees), "livenessProbe" := ByObject(ProbeAgrees),
               "ports" := ByList(PortAgrees), "volumeMounts" := ByList(MountAgrees), "env" := ByList(EnvVarAgrees)],
           e, l)
  }

  // ----- Pod specs

  const POD_DEFAULTS: Defaults := [
    ("dnsPolicy", Text("ClusterFirst")), ("enableServiceLinks", Bool(true)),
    ("preemptionPolicy", Text("PreemptLowerPriority")), ("restartPolicy", Text("Always")),
    ("schedulerName", Text("default-scheduler")), ("terminationGracePeriodSeconds", Number(30)),
    ("hostNetwork", Bool(false)), ("hostPID", Bool(false)), ("hostIPC", Bool(false)),
    ("shareProcessNamespace", Bool(false)), ("setHostnameAsFQDN", Bool(false))]
  const POD_SECURITY_DEFAULTS: Defaults := [
    ("fsGroupChangePolicy", Text("Always")), ("supplementalGroupsPolicy", Text("Merge"))]

  /** Besides the constants, the deprecated alias of the reviewed service account, and empty lists. */
  function PodDefaults(e: Map): Defaults {
    POD_DEFAULTS + [("serviceAccount", Get(e, "serviceAccountName"))] +
    [("initContainers", List([])), ("ephemeralContainers", List([]))]
  }

  function NormalizePodSecurity(e: Map, l: Map): Map { DropDefaults(l, e, POD_SECURITY_DEFAULTS) }

  function NormalizePodSpec(e: Map, l: Map): Map {
    var l := DropDefaults(l, e, POD_DEFAULTS);
    var l := DropDefault(l, e, "serviceAccount", Get(e, "serviceAccountName"));
    var l := DropDefaults(l, e, [("initContainers", List([])), ("ephemeralContainers", List([]))]);
    var l := InObject(e, l, "securityContext", NormalizePodSecurity);
    var l := InList(e, l, "containers", NormalizeContainer);
    var l := InList(e, l, "volumes", NormalizeVolume);
    InList(e, l, "topologySpreadConstraints", NormalizeSpread)
  }

  ghost predicate PodSecurityAgrees(e: Map, l: Map) { Agrees(POD_SECURITY_DEFAULTS, map[], e, l) }
  ghost predicate PodSpecAgrees(e: Map, l: Map) {
    Agrees(PodDefaults(e),
           map["securityContext" := ByObject(PodSecurityAgrees), "containers" := ByList(ContainerAgrees),
               "volumes" := ByList(VolumeAgrees), "topologySpreadConstraints" := ByList(SpreadAgrees)],
           e, l)
  }

  // ----- Templates

  const METADATA_DEFAULTS: Defaults := [("creationTimestamp", Null)]

  /** The labels that the Job controller puts on its pods. */
  const JOB_LABELS: set<string> := {
    "batch.kubernetes.io/controller-uid", "batch.kubernetes.io/job-name", "controller-uid", "job-name"}

  predicate Falsy(v: Value) {
    v == Null || v == Bool(false) || v == Number(0) || v == Text("") || v == List([]) || v == Object(map[])
  }

  /** `expected.get("labels") or {}` against the live labels: the controller's labels that are not
      expected are dropped. */
  function NormalizeJobLabels(e: Map, l: Map): Map {
    var expected := if Falsy(Get(e, "labels")) then Object(map[]) else Get(e, "labels");
    var live := Get(l, "labels");
    if expected.Object? && live.Object?
    then l["labels" := Object(live.fields - (JOB_LABELS - expected.fields.Keys))]
    else l
  }

  function NormalizeDeploymentMetadata(e: Map, l: Map): Map { DropDefaults(l, e, METADATA_DEFAULTS) }
  function NormalizeJobMetadata(e: Map, l: Map): Map { NormalizeJobLabels(e, DropDefaults(l, e, METADATA_DEFAULTS)) }

  function NormalizeDeploymentTemplate(e: Map, l: Map): Map {
    InObject(e, InObject(e, l, "metadata", NormalizeDeploymentMetadata), "spec", NormalizePodSpec)
  }
  function NormalizeJobTemplate(e: Map, l: Map): Map {
    InObject(e, InObject(e, l, "metadata", NormalizeJobMetadata), "spec", NormalizePodSpec)
  }

  ghost predicate JobLabelsAgree(e: Map, l: Map) {
    e == l - (JOB_LABELS - e.Keys)
  }
  ghost predicate DeploymentMetadataAgrees(e: Map, l: Map) { Agrees(METADATA_DEFAULTS, map[], e, l) }
  ghost predicate JobMetadataAgrees(e: Map, l: Map) {
    Agrees(METADATA_DEFAULTS, map["labels" := ByObject(JobLabelsAgree)], e, l)
  }
  ghost predicate DeploymentTemplateAgrees(e: Map, l: Map) {
    Agrees([], map["metadata" := ByObject(DeploymentMetadataAgrees), "spec" := ByObject(PodSpecAgrees)], e, l)
  }
  ghost predicate JobTemplateAgrees(e: Map, l: Map) {
    Agrees([], map["metadata" := ByObject(JobMetadataAgrees), "spec" := ByObject(PodSpecAgrees)], e, l)
  }

  // ----- Specs

  const DEPLOYMENT_DEFAULTS: Defaults := [
    ("minReadySeconds", Number(0)), ("paused", Bool(false)), ("progressDeadlineSeconds", Number(600)),
    ("revisionHistoryLimit", Number(10)),
    ("strategy", Object(map["rollingUpdate" := Object(map["maxSurge" := Text("25%"), "maxUnavailable" := Text("25%")]),
                            "type" := Text("RollingUpdate")]))]
  const JOB_DEFAULTS: Defaults := [
    ("parallelism", Number(1)), ("completions", Number(1)), ("backoffLimit", Number(6)),
    ("completionMode", Text("NonIndexed")), ("manualSelector", Bool(false)),
    ("podReplacementPolicy", Text("TerminatingOrFailed")), ("suspend", Bool(false))]

  datatype Kind = Deployment | Job

  /** `_is_job_controller_selector` */
  predicate IsJobControllerSelector(v: Value) {
    && v.Object? && v.fields.Keys == {"matchLabels"}
    && var labels := v.fields["matchLabels"];
       && labels.Object? && labels.fields != map[]
       && labels.fields.Keys <= {"batch.kubernetes.io/controller-uid", "controller-uid"}
       && forall key :: key in labels.fields ==> labels.fields[key].Text? && labels.fields[key].s != ""
  }

  /** The live Job spec without the selector that the controller generated. */
  function WithoutOwnSelector(e: Map, l: Map): Map {
    if "selector" !in e && IsJobControllerSelector(Get(l, "selector")) then l - {"selector"} else l
  }

  /** `_normalized_live_workload_spec` */
  function NormalizedSpec(kind: Kind, e: Map, l: Map): Map {
    match kind
    case Deployment =>
      InObject(e, DropDefaults(l - {"replicas"}, e, DEPLOYMENT_DEFAULTS), "template", NormalizeDeploymentTemplate)
    case Job =>
      InObject(e, WithoutOwnSelector(e, DropDefaults(l, e, JOB_DEFAULTS)), "template", NormalizeJobTemplate)
  }

  /** What acceptance means: apart from the replica count of a Deployment and the generated selector of a
      Job, the live spec has the reviewed keys with agreeing values, and defaults. */
  ghost predicate SpecAgrees(kind: Kind, e: Map, l: Map) {
    match kind
    case Deployment =>
      Agrees(DEPLOYMENT_DEFAULTS, map["template" := ByObject(DeploymentTemplateAgrees)], e, l - {"replicas"})
    case Job =>
      Agrees(JOB_DEFAULTS, map["template" := ByObject(JobTemplateAgrees)], e, WithoutOwnSelector(e, l))
  }

  // ----- Each level gives the expected object back exactly when the two agree

  lemma StartRealizes(e: Map, l: Map)
    ensures Realizes(l, e, l, [], map[])
  {
  }

  lemma ValueFromIff(e: Map, l: Map)
    ensures NormalizeValueFrom(e, l) == e <==> ValueFromAgrees(e, l)
  {
    DropsIff(FIELD_REF_DEFAULTS);
    StartRealizes(e, l);
    ObjectRealizes(l, e, l, [], map[], "fieldRef", NormalizeFieldRef, FieldRefAgrees);
    RealizesIff(NormalizeValueFrom(e, l), e, l, [], map["fieldRef" := ByObject(FieldRefAgrees)]);
  }

  lemma EnvVarIff(e: Map, l: Map)
    ensures NormalizeEnvVar(e, l) == e <==> EnvVarAgrees(e, l)
  {
    forall e, l ensures NormalizeValueFrom(e, l) == e <==> ValueFromAgrees(e, l) {
      ValueFromIff(e, l);
    }
    StartRealizes(e, l);
    ObjectRealizes(l, e, l, [], map[], "valueFrom", NormalizeValueFrom, ValueFromAgrees);
    RealizesIff(NormalizeEnvVar(e, l), e, l, [], map["valueFrom" := ByObject(ValueFromAgrees)]);
  }

  lemma VolumeIff(e: Map, l: Map)
    ensures NormalizeVolume(e, l) == e <==> VolumeAgrees(e, l)
  {
    DropsIff(SOURCE_DEFAULTS);
    StartRealizes(e, l);
    var rule := ByObject(SourceAgrees);
    var l1 := InObject(e, l, "configMap", NormalizeSource);
    ObjectRealizes(l, e, l, [], map[], "configMap", NormalizeSource, SourceAgrees);
    var l2 := InObject(e, l1, "secret", NormalizeSource);
    ObjectRealizes(l1, e, l, [], map["configMap" := rule], "secret", NormalizeSource, SourceAgrees);
    var l3 := InObject(e, l2, "projected", NormalizeSource);
    ObjectRealizes(l2, e, l, [], map["configMap" := rule, "secret" := rule], "projected", NormalizeSource, SourceAgrees);
    var l4 := InObject(e, l3, "downwardAPI", NormalizeSource);
    ObjectRealizes(l3, e, l, [], map["configMap" := rule, "secret" := rule, "projected" := rule], "downwardAPI",
                   NormalizeSource, SourceAgrees);
    RealizesIff(l4, e, l, [], map["configMap" := rule, "secret" := rule, "projected" := rule, "downwardAPI" := rule]);
  }

  lemma ContainerSecurityIff(e: Map, l: Map)
    ensures NormalizeContainerSecurity(e, l) == e <==> ContainerSecurityAgrees(e, l)
  {
    DropsIff(CAPABILITY_DEFAULTS);
    DropsAgree(e, l, CONTAINER_SECURITY_DEFAULTS);
    ObjectRealizes(DropDefaults(l, e, CONTAINER_SECURITY_DEFAULTS), e, l, CONTAINER_SECURITY_DEFAULTS, map[],
                   "capabilities", NormalizeCapabilities, CapabilitiesAgree);
    RealizesIff(NormalizeContainerSecurity(e, l), e, l, CONTAINER_SECURITY_DEFAULTS,
                map["capabilities" := ByObject(CapabilitiesAgree)]);
  }

  lemma ProbeIff(e: Map, l: Map)
    ensures NormalizeProbe(e, l) == e <==> ProbeAgrees(e, l)
  {
    DropsIff(HTTP_GET_DEFAULTS);
    DropsAgree(e, l, PROBE_DEFAULTS);
    ObjectRealizes(DropDefaults(l, e, PROBE_DEFAULTS), e, l, PROBE_DEFAULTS, map[], "httpGet", NormalizeHttpGet, HttpGetAgrees);
    RealizesIff(NormalizeProbe(e, l), e, l, PROBE_DEFAULTS, map["httpGet" := ByObject(HttpGetAgrees)]);
  }

  /** The normalization of a container up to its probes. */
  function WithProbes(e: Map, l: Map): Map {
    var l := DropDefaults(l, e, CONTAINER_DEFAULTS);
    var l := InObject(e, l, "securityContext", NormalizeContainerSecurity);
    var l := InObject(e, l, "startupProbe", NormalizeProbe);
    var l := InObject(e, l, "readinessProbe", NormalizeProbe);
    InObject(e, l, "livenessProbe", NormalizeProbe)
  }

  ghost function ProbeRules(): Rules {
    map["securityContext" := ByObject(ContainerSecurityAgrees), "startupProbe" := ByObject(ProbeAgrees),
        "readinessProbe" := ByObject(ProbeAgrees), "livenessProbe" := ByObject(ProbeAgrees)]
  }

  lemma ProbesRealize(e: Map, l: Map)
    ensures Realizes(WithProbes(e, l), e, l, CONTAINER_DEFAULTS, ProbeRules())
  {
    hide DropDefaults, InObject, Realizes, Agrees, ByObject, NormalizeProbe, ProbeAgrees, NormalizeContainerSecurity,
         ContainerSecurityAgrees, CONTAINER_DEFAULTS;
    var d, r0: Rules := CONTAINER_DEFAULTS, map[];
    var l0 := DropDefaults(l, e, d);
    DropsAgree(e, l, d);
    ContainerSecurityIffAll();
    var l1, r1 := InObject(e, l0, "securityContext", NormalizeContainerSecurity),
                  r0["securityContext" := ByObject(ContainerSecurityAgrees)];
    ObjectRealizes(l0, e, l, d, r0, "securityContext", NormalizeContainerSecurity, ContainerSecurityAgrees);
    ProbeIffAll();
    var l2, r2 := InObject(e, l1, "startupProbe", NormalizeProbe), r1["startupProbe" := ByObject(ProbeAgrees)];
    ObjectRealizes(l1, e, l, d, r1, "startupProbe", NormalizeProbe, ProbeAgrees);
    var l3, r3 := InObject(e, l2, "readinessProbe", NormalizeProbe), r2["readinessProbe" := ByObject(ProbeAgrees)];
    ObjectRealizes(l2, e, l, d, r2, "readinessProbe", NormalizeProbe, ProbeAgrees);
    ObjectRealizes(l3, e, l, d, r3, "livenessProbe", NormalizeProbe, ProbeAgrees);
    assert ProbeRules() == r3["livenessProbe" := ByObject(ProbeAgrees)];
  }

  lemma ContainerIff(e: Map, l: Map)
    ensures NormalizeContainer(e, l) == e <==> ContainerAgrees(e, l)
  {
    hide DropDefaults, InObject, InList, Realizes, Agrees, ByObject, ByList, NormalizeProbe, ProbeAgrees, NormalizePort,
         PortAgrees, NormalizeMount, MountAgrees, NormalizeEnvVar, EnvVarAgrees, NormalizeVolume, VolumeAgrees,
         NormalizeSpread, SpreadAgrees, NormalizePodSecurity, PodSecurityAgrees, NormalizeContainerSecurity,
         ContainerSecurityAgrees, CONTAINER_DEFAULTS;
    var d := CONTAINER_DEFAULTS;
    ProbesRealize(e, l);
    LeafIffAll();
    var l4, r4 := WithProbes(e, l), ProbeRules();
    var l5, r5 := InList(e, l4, "ports", NormalizePort), r4["ports" := ByList(PortAgrees)];
    ListRealizes(l4, e, l, d, r4, "ports", NormalizePort, PortAgrees);
    var l6, r6 := InList(e, l5, "volumeMounts", NormalizeMount), r5["volumeMounts" := ByList(MountAgrees)];
    ListRealizes(l5, e, l, d, r5, "volumeMounts", NormalizeMount, MountAgrees);
    var l7, r7 := InList(e, l6, "env", NormalizeEnvVar), r6["env" := ByList(EnvVarAgrees)];
    ListRealizes(l6, e, l, d, r6, "env", NormalizeEnvVar, EnvVarAgrees);
    RealizesIff(l7, e, l, d, r7);
    assert r7 == map["securityContext" := ByObject(ContainerSecurityAgrees), "startupProbe" := ByObject(ProbeAgrees),
                     "readinessProbe" := ByObject(ProbeAgrees), "livenessProbe" := ByObject(ProbeAgrees),
                     "ports" := ByList(PortAgrees), "volumeMounts" := ByList(MountAgrees), "env" := ByList(EnvVarAgrees)];
  }

  lemma ContainerSecurityIffAll()
    ensures forall e, l :: NormalizeContainerSecurity(e, l) == e <==> ContainerSecurityAgrees(e, l)
  {
    forall e, l ensures NormalizeContainerSecurity(e, l) == e <==> ContainerSecurityAgrees(e, l) {
      ContainerSecurityIff(e, l);
    }
  }

  lemma ProbeIffAll()
    ensures forall e, l :: NormalizeProbe(e, l) == e <==> ProbeAgrees(e, l)
  {
    forall e, l ensures NormalizeProbe(e, l) == e <==> ProbeAgrees(e, l) {
      ProbeIff(e, l);
    }
  }

  lemma LeafIffAll()
    ensures forall e, l :: NormalizePort(e, l) == e <==> PortAgrees(e, l)
    ensures forall e, l :: NormalizeMount(e, l) == e <==> MountAgrees(e, l)
    ensures forall e, l :: NormalizeEnvVar(e, l) == e <==> EnvVarAgrees(e, l)
    ensures forall e, l :: NormalizeVolume(e, l) == e <==> VolumeAgrees(e, l)
    ensures forall e, l :: NormalizeSpread(e, l) == e <==> SpreadAgrees(e, l)
    ensures forall e, l :: NormalizePodSecurity(e, l) == e <==> PodSecurityAgrees(e, l)
  {
    DropsIff(PORT_DEFAULTS);
    DropsIff(MOUNT_DEFAULTS);
    DropsIff(SPREAD_DEFAULTS);
    DropsIff(POD_SECURITY_DEFAULTS);
    forall e, l
      ensures NormalizeEnvVar(e, l) == e <==> EnvVarAgrees(e, l)
      ensures NormalizeVolume(e, l) == e <==> VolumeAgrees(e, l)
    {
      EnvVarIff(e, l);
      VolumeIff(e, l);
    }
  }

  lemma DropOne(l: Map, e: Map, key: string, default: Value)
    ensures DropDefaults(l, e, [(key, default)]) == DropDefault(l, e, key, default)
  {
  }

  lemma PodDefaultsRealize(e: Map, l: Map)
    ensures var l0 := DropDefaults(l, e, POD_DEFAULTS);
            var l1 := DropDefault(l0, e, "serviceAccount", Get(e, "serviceAccountName"));
            Realizes(DropDefaults(l1, e, [("initContainers", List([])), ("ephemeralContainers", List([]))]),
                     e, l, PodDefaults(e), map[])
  {
    var account: Defaults := [("serviceAccount", Get(e, "serviceAccountName"))];
    var lists: Defaults := [("initContainers", List([])), ("ephemeralContainers", List([]))];
    hide Realizes, Get;
    var l0 := DropDefaults(l, e, POD_DEFAULTS);
    DropsAgree(e, l, POD_DEFAULTS);
    DropOne(l0, e, "serviceAccount", Get(e, "serviceAccountName"));
    hide DropDefaults, DropDefault;
    DropsRealize(l0, e, l, POD_DEFAULTS, account);
    DropsRealize(DropDefaults(l0, e, account), e, l, POD_DEFAULTS + account, lists);
  }

  lemma PodSpecIff(e: Map, l: Map)
    ensures NormalizePodSpec(e, l) == e <==> PodSpecAgrees(e, l)
  {
    hide DropDefaults, DropDefault, InObject, InList, Realizes, Agrees, ByObject, ByList, PodDefaults;
    var d, r0: Rules := PodDefaults(e), map[];
    var l0 := DropDefaults(DropDefault(DropDefaults(l, e, POD_DEFAULTS), e, "serviceAccount", Get(e, "serviceAccountName")),
                           e, [("initContainers", List([])), ("ephemeralContainers", List([]))]);
    PodDefaultsRealize(e, l);
    LeafIffAll();
    var l1, r1 := InObject(e, l0, "securityContext", NormalizePodSecurity), r0["securityContext" := ByObject(PodSecurityAgrees)];
    ObjectRealizes(l0, e, l, d, r0, "securityContext", NormalizePodSecurity, PodSecurityAgrees);
    forall e, l ensures NormalizeContainer(e, l) == e <==> ContainerAgrees(e, l) {
      ContainerIff(e, l);
    }
    var l2, r2 := InList(e, l1, "containers", NormalizeContainer), r1["containers" := ByList(ContainerAgrees)];
    ListRealizes(l1, e, l, d, r1, "containers", NormalizeContainer, ContainerAgrees);
    var l3, r3 := InList(e, l2, "volumes", NormalizeVolume), r2["volumes" := ByList(VolumeAgrees)];
    ListRealizes(l2, e, l, d, r2, "volumes", NormalizeVolume, VolumeAgrees);
    var l4, r4 := InList(e, l3, "topologySpreadConstraints", NormalizeSpread),
                  r3["topologySpreadConstraints" := ByList(SpreadAgrees)];
    ListRealizes(l3, e, l, d, r3, "topologySpreadConstraints", NormalizeSpread, SpreadAgrees);
    RealizesIff(l4, e, l, d, r4);
    assert r4 == map["securityContext" := ByObject(PodSecurityAgrees), "containers" := ByList(ContainerAgrees),
                     "volumes" := ByList(VolumeAgrees), "topologySpreadConstraints" := ByList(SpreadAgrees)];
  }

  lemma JobMetadataIff(e: Map, l: Map)
    ensures NormalizeJobMetadata(e, l) == e <==> JobMetadataAgrees(e, l)
  {
    var start := DropDefaults(l, e, METADATA_DEFAULTS);
    DropsAgree(e, l, METADATA_DEFAULTS);
    var result := NormalizeJobLabels(e, start);
    if "labels" in e && "labels" in l {
      assert start["labels"] == l["labels"] && Get(e, "labels") == e["labels"];
      if e["labels"].Object? && l["labels"].Object? {
        var kept := l["labels"].fields - (JOB_LABELS - e["labels"].fields.Keys);
        assert result["labels"] == Object(kept);
        assert ByObject(JobLabelsAgree)(e["labels"], l["labels"]) <==>
            JobLabelsAgree(e["labels"].fields, l["labels"].fields);
        assert JobLabelsAgree(e["labels"].fields, l["labels"].fields) <==> e["labels"].fields == kept;
      }
    }
    assert Realizes(result, e, l, METADATA_DEFAULTS, map["labels" := ByObject(JobLabelsAgree)]);
    RealizesIff(result, e, l, METADATA_DEFAULTS, map["labels" := ByObject(JobLabelsAgree)]);
  }

  lemma DeploymentTemplateIff(e: Map, l: Map)
    ensures NormalizeDeploymentTemplate(e, l) == e <==> DeploymentTemplateAgrees(e, l)
  {
    DropsIff(METADATA_DEFAULTS);
    TemplateIff(e, l, NormalizeDeploymentMetadata, DeploymentMetadataAgrees);
  }

  lemma JobTemplateIff(e: Map, l: Map)
    ensures NormalizeJobTemplate(e, l) == e <==> JobTemplateAgrees(e, l)
  {
    forall e, l ensures NormalizeJobMetadata(e, l) == e <==> JobMetadataAgrees(e, l) {
      JobMetadataIff(e, l);
    }
    TemplateIff(e, l, NormalizeJobMetadata, JobMetadataAgrees);
  }

  lemma TemplateIff(e: Map, l: Map, metadata: (Map, Map) -> Map, metadataAgrees: (Map, Map) -> bool)
    requires forall e, l :: metadata(e, l) == e <==> metadataAgrees(e, l)
    ensures InObject(e, InObject(e, l, "metadata", metadata), "spec", NormalizePodSpec) == e
       <==> Agrees([], map["metadata" := ByObject(metadataAgrees), "spec" := ByObject(PodSpecAgrees)], e, l)
  {
    hide InObject, Realizes, Agrees, ByObject, NormalizePodSpec, PodSpecAgrees;
    forall e, l ensures NormalizePodSpec(e, l) == e <==> PodSpecAgrees(e, l) {
      PodSpecIff(e, l);
    }
    StartRealizes(e, l);
    var l1 := InObject(e, l, "metadata", metadata);
    ObjectRealizes(l, e, l, [], map[], "metadata", metadata, metadataAgrees);
    ObjectRealizes(l1, e, l, [], map["metadata" := ByObject(metadataAgrees)], "spec", NormalizePodSpec, PodSpecAgrees);
    RealizesIff(InObject(e, l1, "spec", NormalizePodSpec), e, l, [],
                map["metadata" := ByObject(metadataAgrees), "spec" := ByObject(PodSpecAgrees)]);
  }

  /** The normalization is sound and complete: the live spec of a Deployment or Job is accepted if and only
      if it agrees with the reviewed one. */
  lemma SpecIff(kind: Kind, e: Map, l: Map)
    ensures NormalizedSpec(kind, e, l) == e <==> SpecAgrees(kind, e, l)
  {
    hide NormalizeDeploymentTemplate, NormalizeJobTemplate, DeploymentTemplateAgrees, JobTemplateAgrees;
    match kind
    case Deployment =>
      forall e, l ensures NormalizeDeploymentTemplate(e, l) == e <==> DeploymentTemplateAgrees(e, l) {
        DeploymentTemplateIff(e, l);
      }
      SpecLevel(e, l - {"replicas"}, DEPLOYMENT_DEFAULTS, NormalizeDeploymentTemplate, DeploymentTemplateAgrees);
    case Job =>
      forall e, l ensures NormalizeJobTemplate(e, l) == e <==> JobTemplateAgrees(e, l) {
        JobTemplateIff(e, l);
      }
      OwnSelectorCommutes(e, l, JOB_DEFAULTS);
      SpecLevel(e, WithoutOwnSelector(e, l), JOB_DEFAULTS, NormalizeJobTemplate, JobTemplateAgrees);
  }

  lemma SpecLevel(e: Map, l: Map, defaults: Defaults, template: (Map, Map) -> Map, agrees: (Map, Map) -> bool)
    requires forall e, l :: template(e, l) == e <==> agrees(e, l)
    ensures InObject(e, DropDefaults(l, e, defaults), "template", template) == e
       <==> Agrees(defaults, map["template" := ByObject(agrees)], e, l)
  {
    hide InObject, DropDefaults, Realizes, Agrees, ByObject;
    DropsAgree(e, l, defaults);
    ObjectRealizes(DropDefaults(l, e, defaults), e, l, defaults, map[], "template", template, agrees);
    RealizesIff(InObject(e, DropDefaults(l, e, defaults), "template", template), e, l, defaults,
                map["template" := ByObject(agrees)]);
  }

  /** Dropping defaults of other keys and dropping the generated selector can be swapped. */
  lemma {:induction false} OwnSelectorCommutes(e: Map, l: Map, defaults: Defaults)
    requires forall d :: d in defaults ==> d.0 != "selector"
    ensures WithoutOwnSelector(e, DropDefaults(l, e, defaults)) == DropDefaults(WithoutOwnSelector(e, l), e, defaults)
    decreases |defaults|
  {
    if |defaults| > 0 {
      var (key, default) := defaults[0];
      OwnSelectorCommutes(e, DropDefault(l, e, key, default), defaults[1..]);
      assert WithoutOwnSelector(e, DropDefault(l, e, key, default)) == DropDefault(WithoutOwnSelector(e, l), e, key, default);
    }
  }

  // ----- Growth, level by level

  ghost predicate PortGrown(e: Map, l: Map, g: Map) { Grown(PORT_DEFAULTS, map[], e, l, g) }
  ghost predicate MountGrown(e: Map, l: Map, g: Map) { Grown(MOUNT_DEFAULTS, map[], e, l, g) }
  ghost predicate FieldRefGrown(e: Map, l: Map, g: Map) { Grown(FIELD_REF_DEFAULTS, map[], e, l, g) }
  ghost predicate SourceGrown(e: Map, l: Map, g: Map) { Grown(SOURCE_DEFAULTS, map[], e, l, g) }
  ghost predicate SpreadGrown(e: Map, l: Map, g: Map) { Grown(SPREAD_DEFAULTS, map[], e, l, g) }
  ghost predicate ValueFromGrown(e: Map, l: Map, g: Map) { Grown([], map["fieldRef" := GrowObject(FieldRefGrown)], e, l, g) }
  ghost predicate EnvVarGrown(e: Map, l: Map, g: Map) { Grown([], map["valueFrom" := GrowObject(ValueFromGrown)], e, l, g) }
  ghost predicate VolumeGrown(e: Map, l: Map, g: Map) {
    Grown([], map["configMap" := GrowObject(SourceGrown), "secret" := GrowObject(SourceGrown),
                  "projected" := GrowObject(SourceGrown), "downwardAPI" := GrowObject(SourceGrown)], e, l, g)
  }
  ghost predicate CapabilitiesGrown(e: Map, l: Map, g: Map) { Grown(CAPABILITY_DEFAULTS, map[], e, l, g) }
  ghost predicate HttpGetGrown(e: Map, l: Map, g: Map) { Grown(HTTP_GET_DEFAULTS, map[], e, l, g) }
  ghost predicate ContainerSecurityGrown(e: Map, l: Map, g: Map) {
    Grown(CONTAINER_SECURITY_DEFAULTS, map["capabilities" := GrowObject(CapabilitiesGrown)], e, l, g)
  }
  ghost predicate ProbeGrown(e: Map, l: Map, g: Map) {
    Grown(PROBE_DEFAULTS, map["httpGet" := GrowObject(HttpGetGrown)], e, l, g)
  }
  ghost predicate ContainerGrown(e: Map, l: Map, g: Map) {
    Grown(CONTAINER_DEFAULTS,
          map["securityContext" := GrowObject(ContainerSecurityGrown), "startupProbe" := GrowObject(ProbeGrown),
              "readinessProbe" := GrowObject(ProbeGrown), "livenessProbe" := GrowObject(ProbeGrown),
              "ports" := GrowList(PortGrown), "volumeMounts" := GrowList(MountGrown), "env" := GrowList(EnvVarGrown)],
          e, l, g)
  }
  ghost predicate PodSecurityGrown(e: Map, l: Map, g: Map) { Grown(POD_SECURITY_DEFAULTS, map[], e, l, g) }
  ghost predicate PodSpecGrown(e: Map, l: Map, g: Map) {
    Grown(PodDefaults(e),
          map["securityContext" := GrowObject(PodSecurityGrown), "containers" := GrowList(ContainerGrown),
              "volumes" := GrowList(VolumeGrown), "topologySpreadConstraints" := GrowList(SpreadGrown)],
          e, l, g)
  }

  /** The controller adds labels of its own. */
  ghost predicate JobLabelsGrown(e: Map, l: Map, g: Map) {
    && l.Keys <= g.Keys <= l.Keys + JOB_LABELS
    && forall key :: key in l ==> g[key] == l[key]
  }
  ghost predicate DeploymentMetadataGrown(e: Map, l: Map, g: Map) { Grown(METADATA_DEFAULTS, map[], e, l, g) }
  ghost predicate JobMetadataGrown(e: Map, l: Map, g: Map) {
    Grown(METADATA_DEFAULTS, map["labels" := GrowObject(JobLabelsGrown)], e, l, g)
  }
  ghost predicate DeploymentTemplateGrown(e: Map, l: Map, g: Map) {
    Grown([], map["metadata" := GrowObject(DeploymentMetadataGrown), "spec" := GrowObject(PodSpecGrown)], e, l, g)
  }
  ghost predicate JobTemplateGrown(e: Map, l: Map, g: Map) {
    Grown([], map["metadata" := GrowObject(JobMetadataGrown), "spec" := GrowObject(PodSpecGrown)], e, l, g)
  }

  /** The server added some of the listed defaults, at any depth, and the controllers what they own: any
      replica count of a Deployment, the selector and the labels of a Job. */
  ghost predicate SpecGrown(kind: Kind, e: Map, l: Map, g: Map) {
    match kind
    case Deployment =>
      Grown(DEPLOYMENT_DEFAULTS, map["template" := GrowObject(DeploymentTemplateGrown)], e, l - {"replicas"}, g - {"replicas"})
    case Job =>
      Grown(JOB_DEFAULTS, map["template" := GrowObject(JobTemplateGrown)], e, WithoutOwnSelector(e, l), WithoutOwnSelector(e, g))
  }

  lemma LeavesLawful()
    ensures Lawful(PortAgrees, PortGrown) && Lawful(MountAgrees, MountGrown) && Lawful(SpreadAgrees, SpreadGrown)
    ensures Lawful(FieldRefAgrees, FieldRefGrown) && Lawful(SourceAgrees, SourceGrown)
    ensures Lawful(CapabilitiesAgree, CapabilitiesGrown) && Lawful(HttpGetAgrees, HttpGetGrown)
    ensures Lawful(PodSecurityAgrees, PodSecurityGrown) && Lawful(DeploymentMetadataAgrees, DeploymentMetadataGrown)
  {
    hide Agrees, Grown, Lawful;
    FlatLawful(PORT_DEFAULTS, PortAgrees, PortGrown);
    FlatLawful(MOUNT_DEFAULTS, MountAgrees, MountGrown);
    FlatLawful(SPREAD_DEFAULTS, SpreadAgrees, SpreadGrown);
    FlatLawful(FIELD_REF_DEFAULTS, FieldRefAgrees, FieldRefGrown);
    FlatLawful(SOURCE_DEFAULTS, SourceAgrees, SourceGrown);
    FlatLawful(CAPABILITY_DEFAULTS, CapabilitiesAgree, CapabilitiesGrown);
    FlatLawful(HTTP_GET_DEFAULTS, HttpGetAgrees, HttpGetGrown);
    FlatLawful(POD_SECURITY_DEFAULTS, PodSecurityAgrees, PodSecurityGrown);
    FlatLawful(METADATA_DEFAULTS, DeploymentMetadataAgrees, DeploymentMetadataGrown);
  }

  lemma EnvVarLawful()
    ensures Lawful(EnvVarAgrees, EnvVarGrown)
  {
    hide Agrees, Grown, ByObject, GrowObject, Lawful, LawfulRule;
    LeavesLawful();
    ObjectLawful(FieldRefAgrees, FieldRefGrown);
    LevelLawful((e: Map) => [], map["fieldRef" := ByObject(FieldRefAgrees)], map["fieldRef" := GrowObject(FieldRefGrown)],
                ValueFromAgrees, ValueFromGrown);
    ObjectLawful(ValueFromAgrees, ValueFromGrown);
    LevelLawful((e: Map) => [], map["valueFrom" := ByObject(ValueFromAgrees)], map["valueFrom" := GrowObject(ValueFromGrown)],
                EnvVarAgrees, EnvVarGrown);
  }

  lemma VolumeLawful()
    ensures Lawful(VolumeAgrees, VolumeGrown)
  {
    hide Agrees, Grown, ByObject, GrowObject, Lawful, LawfulRule;
    LeavesLawful();
    ObjectLawful(SourceAgrees, SourceGrown);
    var rule, growth := ByObject(SourceAgrees), GrowObject(SourceGrown);
    LevelLawful((e: Map) => [], map["configMap" := rule, "secret" := rule, "projected" := rule, "downwardAPI" := rule],
                map["configMap" := growth, "secret" := growth, "projected" := growth, "downwardAPI" := growth],
                VolumeAgrees, VolumeGrown);
  }

  lemma ProbesLawful()
    ensures Lawful(ContainerSecurityAgrees, ContainerSecurityGrown) && Lawful(ProbeAgrees, ProbeGrown)
  {
    hide Agrees, Grown, ByObject, GrowObject, Lawful, LawfulRule;
    LeavesLawful();
    ObjectLawful(CapabilitiesAgree, CapabilitiesGrown);
    LevelLawful((e: Map) => CONTAINER_SECURITY_DEFAULTS, map["capabilities" := ByObject(CapabilitiesAgree)],
                map["capabilities" := GrowObject(CapabilitiesGrown)], ContainerSecurityAgrees, ContainerSecurityGrown);
    ObjectLawful(HttpGetAgrees, HttpGetGrown);
    LevelLawful((e: Map) => PROBE_DEFAULTS, map["httpGet" := ByObject(HttpGetAgrees)],
                map["httpGet" := GrowObject(HttpGetGrown)], ProbeAgrees, ProbeGrown);
  }

  lemma ContainerLawful()
    ensures Lawful(ContainerAgrees, ContainerGrown)
  {
    hide Agrees, Grown, ByObject, GrowObject, ByList, GrowList, Lawful, LawfulRule;
    LeavesLawful();
    EnvVarLawful();
    ProbesLawful();
    ObjectLawful(ContainerSecurityAgrees, ContainerSecurityGrown);
    ObjectLawful(ProbeAgrees, ProbeGrown);
    ListLawful(PortAgrees, PortGrown);
    ListLawful(MountAgrees, MountGrown);
    ListLawful(EnvVarAgrees, EnvVarGrown);
    LevelLawful((e: Map) => CONTAINER_DEFAULTS,
      map["securityContext" := ByObject(ContainerSecurityAgrees), "startupProbe" := ByObject(ProbeAgrees),
          "readinessProbe" := ByObject(ProbeAgrees), "livenessProbe" := ByObject(ProbeAgrees),
          "ports" := ByList(PortAgrees), "volumeMounts" := ByList(MountAgrees), "env" := ByList(EnvVarAgrees)],
      map["securityContext" := GrowObject(ContainerSecurityGrown), "startupProbe" := GrowObject(ProbeGrown),
          "readinessProbe" := GrowObject(ProbeGrown), "livenessProbe" := GrowObject(ProbeGrown),
          "ports" := GrowList(PortGrown), "volumeMounts" := GrowList(MountGrown), "env" := GrowList(EnvVarGrown)],
      ContainerAgrees, ContainerGrown);
  }

  lemma PodSpecLawful()
    ensures Lawful(PodSpecAgrees, PodSpecGrown)
  {
    hide Agrees, Grown, ByObject, GrowObject, ByList, GrowList, Lawful, LawfulRule, PodDefaults;
    LeavesLawful();
    ContainerLawful();
    VolumeLawful();
    ObjectLawful(PodSecurityAgrees, PodSecurityGrown);
    ListLawful(ContainerAgrees, ContainerGrown);
    ListLawful(VolumeAgrees, VolumeGrown);
    ListLawful(SpreadAgrees, SpreadGrown);
    LevelLawful(PodDefaults,
      map["securityContext" := ByObject(PodSecurityAgrees), "containers" := ByList(ContainerAgrees),
          "volumes" := ByList(VolumeAgrees), "topologySpreadConstraints" := ByList(SpreadAgrees)],
      map["securityContext" := GrowObject(PodSecurityGrown), "containers" := GrowList(ContainerGrown),
          "volumes" := GrowList(VolumeGrown), "topologySpreadConstraints" := GrowList(SpreadGrown)],
      PodSpecAgrees, PodSpecGrown);
  }

  lemma JobLabelsLawful()
    ensures Lawful(JobLabelsAgree, JobLabelsGrown)
  {
    hide Embeds;
    forall e, l | JobLabelsAgree(e, l) ensures Embeds(Object(e), Object(l)) {
      FewerEmbeds(l, JOB_LABELS - e.Keys);
    }
    forall e, l, g | JobLabelsAgree(e, l) && JobLabelsGrown(e, l, g) ensures JobLabelsAgree(e, g) {
      assert e == g - (JOB_LABELS - e.Keys);
    }
  }

  lemma TemplatesLawful()
    ensures Lawful(DeploymentTemplateAgrees, DeploymentTemplateGrown) && Lawful(JobTemplateAgrees, JobTemplateGrown)
  {
    hide Agrees, Grown, ByObject, GrowObject, Lawful, LawfulRule;
    LeavesLawful();
    JobLabelsLawful();
    ObjectLawful(JobLabelsAgree, JobLabelsGrown);
    LevelLawful((e: Map) => METADATA_DEFAULTS, map["labels" := ByObject(JobLabelsAgree)],
                map["labels" := GrowObject(JobLabelsGrown)], JobMetadataAgrees, JobMetadataGrown);
    PodSpecLawful();
    ObjectLawful(PodSpecAgrees, PodSpecGrown);
    ObjectLawful(DeploymentMetadataAgrees, DeploymentMetadataGrown);
    LevelLawful((e: Map) => [], map["metadata" := ByObject(DeploymentMetadataAgrees), "spec" := ByObject(PodSpecAgrees)],
                map["metadata" := GrowObject(DeploymentMetadataGrown), "spec" := GrowObject(PodSpecGrown)],
                DeploymentTemplateAgrees, DeploymentTemplateGrown);
    ObjectLawful(JobMetadataAgrees, JobMetadataGrown);
    LevelLawful((e: Map) => [], map["metadata" := ByObject(JobMetadataAgrees), "spec" := ByObject(PodSpecAgrees)],
                map["metadata" := GrowObject(JobMetadataGrown), "spec" := GrowObject(PodSpecGrown)],
                JobTemplateAgrees, JobTemplateGrown);
  }

  /** The laws of a whole spec, on what is compared: without replicas and without the generated selector. */
  lemma SpecLawful(e: Map, l: Map, g: Map)
    ensures var rules: Rules := map["template" := ByObject(DeploymentTemplateAgrees)];
            && Agrees(DEPLOYMENT_DEFAULTS, rules, e, e)
            && (Agrees(DEPLOYMENT_DEFAULTS, rules, e, l) ==> Embeds(Object(e), Object(l)))
            && (Agrees(DEPLOYMENT_DEFAULTS, rules, e, l)
                && Grown(DEPLOYMENT_DEFAULTS, map["template" := GrowObject(DeploymentTemplateGrown)], e, l, g) ==>
                  Agrees(DEPLOYMENT_DEFAULTS, rules, e, g))
    ensures var rules: Rules := map["template" := ByObject(JobTemplateAgrees)];
            && Agrees(JOB_DEFAULTS, rules, e, e)
            && (Agrees(JOB_DEFAULTS, rules, e, l) ==> Embeds(Object(e), Object(l)))
            && (Agrees(JOB_DEFAULTS, rules, e, l)
                && Grown(JOB_DEFAULTS, map["template" := GrowObject(JobTemplateGrown)], e, l, g) ==>
                  Agrees(JOB_DEFAULTS, rules, e, g))
  {
    TemplatesLawful();
    hide Agrees, Grown, Embeds, ByObject, GrowObject, Lawful, LawfulRule;
    ObjectLawful(DeploymentTemplateAgrees, DeploymentTemplateGrown);
    ObjectLawful(JobTemplateAgrees, JobTemplateGrown);
    LevelLawfulAt(DEPLOYMENT_DEFAULTS, map["template" := ByObject(DeploymentTemplateAgrees)],
                  map["template" := GrowObject(DeploymentTemplateGrown)], e, l, g);
    LevelLawfulAt(JOB_DEFAULTS, map["template" := ByObject(JobTemplateAgrees)],
                  map["template" := GrowObject(JobTemplateGrown)], e, l, g);
  }

  /** Completeness: an accepted live spec stays accepted whatever listed defaults the server adds at absent
      keys, at any depth of template, container, volume and probe, and whatever the controllers own. */
  lemma GrowthAccepted(kind: Kind, e: Map, l: Map, g: Map)
    requires NormalizedSpec(kind, e, l) == e && SpecGrown(kind, e, l, g)
    ensures NormalizedSpec(kind, e, g) == e
  {
    hide NormalizedSpec, Agrees, Grown, ByObject, GrowObject;
    SpecIff(kind, e, l);
    SpecIff(kind, e, g);
    match kind
    case Deployment => SpecLawful(e, l - {"replicas"}, g - {"replicas"});
    case Job => SpecLawful(e, WithoutOwnSelector(e, l), WithoutOwnSelector(e, g));
  }

  /** Acceptance of the spec implies its embedding. */
  lemma AgreedEmbeds(kind: Kind, e: Map, l: Map)
    requires SpecAgrees(kind, e, l)
    ensures Embeds(Object(e), Object(l))
  {
    hide Agrees, ByObject;
    match kind
    case Deployment => SpecLawful(e, l - {"replicas"}, l);
    case Job => SpecLawful(e, WithoutOwnSelector(e, l), l);
  }

  /** An unchanged live spec is accepted, as long as a reviewed Deployment does not state the replica count,
      which is always removed from the live side. */
  lemma UnchangedAcceptedIff(kind: Kind, e: Map)
    ensures NormalizedSpec(kind, e, e) == e <==> !(kind == Deployment && "replicas" in e)
  {
    hide NormalizedSpec, ByObject;
    SpecIff(kind, e, e);
    SpecLawful(e, e, e);
    match kind
    case Deployment => assert "replicas" !in e ==> e - {"replicas"} == e;
    case Job => assert WithoutOwnSelector(e, e) == e;
  }

  // ----- The control as a whole

  const SERVER_MANAGED: set<string> := {
    "creationTimestamp", "deletionGracePeriodSeconds", "deletionTimestamp", "generation", "managedFields",
    "resourceVersion", "selfLink", "uid"}

  function KindOf(document: Map): Option<Kind> {
    if Get(document, "kind") == Text("Deployment") then Some(Deployment)
    else if Get(document, "kind") == Text("Job") then Some(Job)
    else None
  }

  /** One document of `_expected_production_controls`: without its status, without what the server manages,
      and, for a Deployment, without the replica count. Nothing if the document is malformed. */
  function ExpectedControl(document: Map): Option<Map> {
    var metadata, spec := Get(document, "metadata"), Get(document, "spec");
    if !metadata.Object? then None
    else
      var control := (document - {"metadata", "status"})["metadata" := Object(metadata.fields - SERVER_MANAGED)];
      if KindOf(document) != Some(Deployment) then Some(control)
      else if !spec.Object? then None
      else Some(control["spec" := Object(spec.fields - {"replicas"})])
  }

  /** What acceptance of a live control means. `flat` is the verdict of the comparisons that other kinds than
      Deployment and Job have. */
  ghost predicate Accepts(expected: Map, live: Map, flat: bool) {
    && Embeds(Object(expected), Object(live))
    && match KindOf(expected)
       case None => flat
       case Some(kind) =>
         && Get(expected, "spec").Object? && Get(live, "spec").Object?
         && SpecAgrees(kind, Get(expected, "spec").fields, Get(live, "spec").fields)
  }

  /** `_live_control_matches_expected` */
  method LiveControlMatchesExpected(expected: Map, live: Map, flat: bool) returns (matches: bool)
    ensures matches <==> Accepts(expected, live, flat)
  {
    ProjectionIff(Object(expected), Object(live));
    if Project(Object(expected), Object(live)) != Object(expected) {
      return false;
    }
    var kind := KindOf(expected);
    if kind.None? {
      return flat;
    }
    var expectedSpec, liveSpec := Get(expected, "spec"), Get(live, "spec");
    if !expectedSpec.Object? || !liveSpec.Object? {
      return false;
    }
    SpecIff(kind.value, expectedSpec.fields, liveSpec.fields);
    matches := NormalizedSpec(kind.value, expectedSpec.fields, liveSpec.fields) == expectedSpec.fields;
  }

  /** The document with another spec. */
  function WithSpec(document: Map, spec: Map): Map {
    document["spec" := Object(spec)]
  }

  lemma EmbedsObject(e: Map, l: Map)
    ensures Embeds(Object(e), Object(l)) <==> forall key :: key in e ==> key in l && Embeds(e[key], l[key])
  {
  }

  /** For a workload, acceptance is agreement of the specs and embedding of everything else. */
  lemma AcceptsIff(expected: Map, live: Map, flat: bool)
    requires KindOf(expected).Some? && Get(expected, "spec").Object? && Get(live, "spec").Object?
    ensures Accepts(expected, live, flat) <==>
              && SpecAgrees(KindOf(expected).value, Get(expected, "spec").fields, Get(live, "spec").fields)
              && forall key :: key in expected && key != "spec" ==> key in live && Embeds(expected[key], live[key])
  {
    hide SpecAgrees, Embeds;
    EmbedsObject(expected, live);
    var e, l := Get(expected, "spec").fields, Get(live, "spec").fields;
    if SpecAgrees(KindOf(expected).value, e, l) {
      AgreedEmbeds(KindOf(expected).value, e, l);
      assert expected["spec"] == Object(e) && live["spec"] == Object(l);
    }
  }

  /** Whatever the replica counts of a reviewed Deployment and of the live one are, or whether they have any,
      acceptance is the same. */
  lemma ReplicasIrrelevant(document: Map, reviewed: Map, live: Map, scaled: Map, flat: bool)
    requires KindOf(document) == Some(Deployment) && ExpectedControl(document).Some?
    requires reviewed - {"replicas"} == Get(document, "spec").fields - {"replicas"}
    requires Get(live, "spec").Object? && scaled - {"replicas"} == Get(live, "spec").fields - {"replicas"}
    ensures ExpectedControl(WithSpec(document, reviewed)) == ExpectedControl(document)
    ensures Accepts(ExpectedControl(document).value, WithSpec(live, scaled), flat) <==>
              Accepts(ExpectedControl(document).value, live, flat)
  {
    var expected := ExpectedControl(document).value;
    assert KindOf(expected) == Some(Deployment);
    var again := WithSpec(document, reviewed);
    assert Get(again, "metadata") == Get(document, "metadata") && KindOf(again) == KindOf(document);
    assert (again - {"metadata", "status"})["metadata" := Get(expected, "metadata")]["spec" := expected["spec"]] == expected;
    hide Accepts, Embeds, Agrees;
    AcceptsIff(expected, live, flat);
    AcceptsIff(expected, WithSpec(live, scaled), flat);
  }

  /** The reviewed document itself, applied as it stands, is accepted, whether it states replicas or not. */
  lemma AppliedAccepted(document: Map, kind: Kind, flat: bool)
    requires KindOf(document) == Some(kind) && ExpectedControl(document).Some? && Get(document, "spec").Object?
    ensures Accepts(ExpectedControl(document).value, document, flat)
  {
    var expected := ExpectedControl(document).value;
    AppliedAgrees(kind, Get(expected, "spec").fields, Get(document, "spec").fields);
    forall key | key in expected && key != "spec" ensures key in document && Embeds(expected[key], document[key]) {
      if key == "metadata" {
        FewerEmbeds(document["metadata"].fields, SERVER_MANAGED);
      } else {
        EmbedsSelf(document[key]);
      }
    }
    hide Accepts, Embeds, SpecAgrees;
    assert KindOf(expected) == Some(kind);
    AcceptsIff(expected, document, flat);
  }

  /** An accepted live control stays accepted when its spec grows. */
  lemma GrowthKeepsAcceptance(expected: Map, live: Map, kind: Kind, grown: Map, flat: bool)
    requires KindOf(expected) == Some(kind) && Accepts(expected, live, flat)
    requires SpecGrown(kind, Get(expected, "spec").fields, Get(live, "spec").fields, grown)
    ensures Accepts(expected, WithSpec(live, grown), flat)
  {
    hide Embeds, SpecAgrees, SpecGrown, NormalizedSpec;
    var e, l := Get(expected, "spec").fields, Get(live, "spec").fields;
    SpecIff(kind, e, l);
    GrowthAccepted(kind, e, l, grown);
    SpecIff(kind, e, grown);
    AcceptsIff(expected, live, flat);
    AcceptsIff(expected, WithSpec(live, grown), flat);
  }

  lemma AppliedAgrees(kind: Kind, e: Map, l: Map)
    requires e == if kind == Deployment then l - {"replicas"} else l
    ensures SpecAgrees(kind, e, l)
  {
    hide Agrees, ByObject;
    SpecLawful(e, e, e);
    assert kind == Job ==> WithoutOwnSelector(e, l) == l;
  }

  lemma FewerEmbeds(m: Map, removed: set<string>)
    ensures Embeds(Object(m - removed), Object(m))
  {
    forall key | key in m - removed ensures Embeds((m - removed)[key], m[key]) {
      EmbedsSelf(m[key]);
    }
  }
}
