/** What the server and the controllers may add to a reviewed Deployment or Job: every key and value, level by
    level, written out. */
module ServerDefaults {
  import opened Controls
  import opened Json
  import opened Workload
  import opened Wrappers

  datatype Level =
    | Port | Mount | FieldRef | ValueFrom | EnvVar | Source | Volume | Spread | Capabilities | ContainerSecurity | HttpGet
    | Probe | Container | PodSecurity | Pod | Metadata | JobMetadata | JobLabels | DeploymentTemplate | JobTemplate
    | DeploymentSpec | JobSpec

  /** How the value under a key is compared. */
  datatype Place = Equal | Never | One(level: Level) | Each(level: Level)

  function ContainerConstants(): Map {
    map["imagePullPolicy" := Text("IfNotPresent"), "terminationMessagePath" := Text("/dev/termination-log"),
        "terminationMessagePolicy" := Text("File"), "stdin" := Bool(false), "stdinOnce" := Bool(false),
        "tty" := Bool(false)]
  }

  function DeploymentConstants(): Map {
    map["minReadySeconds" := Number(0), "paused" := Bool(false), "progressDeadlineSeconds" := Number(600),
        "revisionHistoryLimit" := Number(10),
        "strategy" := Object(map["rollingUpdate" := Object(map["maxSurge" := Text("25%"), "maxUnavailable" := Text("25%")]),
                                 "type" := Text("RollingUpdate")])]
  }

  function JobConstants(): Map {
    map["parallelism" := Number(1), "completions" := Number(1), "backoffLimit" := Number(6),
        "completionMode" := Text("NonIndexed"), "manualSelector" := Bool(false),
        "podReplacementPolicy" := Text("TerminatingOrFailed"), "suspend" := Bool(false)]
  }

  function PodConstants(): Map {
    map["dnsPolicy" := Text("ClusterFirst"), "enableServiceLinks" := Bool(true),
        "preemptionPolicy" := Text("PreemptLowerPriority"), "restartPolicy" := Text("Always"),
        "schedulerName" := Text("default-scheduler"), "terminationGracePeriodSeconds" := Number(30),
        "hostNetwork" := Bool(false), "hostPID" := Bool(false), "hostIPC" := Bool(false),
        "shareProcessNamespace" := Bool(false), "setHostnameAsFQDN" := Bool(false)]
  }

  /** The values that the server fills in. */
  function Given(level: Level, e: Map): Map {
    match level
    case Port => map["protocol" := Text("TCP")]
    case Mount => map["readOnly" := Bool(false)]
    case FieldRef => map["apiVersion" := Text("v1")]
    case Source => map["defaultMode" := Number(420)]
    case Spread =>
      map["minDomains" := Number(1), "nodeAffinityPolicy" := Text("Honor"), "nodeTaintsPolicy" := Text("Ignore")]
    case Capabilities => map["add" := List([])]
    case ContainerSecurity => map["privileged" := Bool(false), "procMount" := Text("Default")]
    case HttpGet => map["scheme" := Text("HTTP")]
    case Probe =>
      map["initialDelaySeconds" := Number(0), "periodSeconds" := Number(10), "timeoutSeconds" := Number(1),
          "successThreshold" := Number(1), "failureThreshold" := Number(3)]
    case Container => ContainerConstants()
    case PodSecurity =>
      map["fsGroupChangePolicy" := Text("Always"), "supplementalGroupsPolicy" := Text("Merge")]
    case Pod =>
      PodConstants() +
      map["serviceAccount" := if "serviceAccountName" in e then e["serviceAccountName"] else Null,
          "initContainers" := List([]), "ephemeralContainers" := List([])]
    case Metadata => map["creationTimestamp" := Null]
    case JobMetadata => map["creationTimestamp" := Null]
    case DeploymentSpec => DeploymentConstants()
    case JobSpec => JobConstants()
    case _ => map[]
  }

  /** The selector that the Job controller generates. */
  predicate Generated(v: Value) {
    && v.Object? && v.fields.Keys == {"matchLabels"} && v.fields["matchLabels"].Object?
    && var labels := v.fields["matchLabels"].fields;
       && labels.Keys in {{"controller-uid"}, {"batch.kubernetes.io/controller-uid"},
                          {"controller-uid", "batch.kubernetes.io/controller-uid"}}
       && forall key :: key in labels ==> labels[key].Text? && labels[key] != Text("")
  }

  /** What the controllers own, with values of their own choice. */
  predicate Owned(level: Level, key: string, v: Value) {
    || (level == JobLabels
        && key in {"controller-uid", "job-name", "batch.kubernetes.io/controller-uid", "batch.kubernetes.io/job-name"})
    || (level == DeploymentSpec && key == "replicas")
    || (level == JobSpec && key == "selector" && Generated(v))
  }

  /** What may be added under a key that the review leaves out. */
  predicate MayAdd(level: Level, e: Map, key: string, v: Value) {
    (key in Given(level, e) && Given(level, e)[key] == v) || Owned(level, key, v)
  }

  /** Where the levels below a level are. */
  function Inside(level: Level, key: string): Place {
    match level
    case ValueFrom => if key == "fieldRef" then One(FieldRef) else Equal
    case EnvVar => if key == "valueFrom" then One(ValueFrom) else Equal
    case Volume => if key in {"configMap", "secret", "projected", "downwardAPI"} then One(Source) else Equal
    case ContainerSecurity => if key == "capabilities" then One(Capabilities) else Equal
    case Probe => if key == "httpGet" then One(HttpGet) else Equal
    case Container =>
      if key == "securityContext" then One(ContainerSecurity)
      else if key in {"startupProbe", "readinessProbe", "livenessProbe"} then One(Probe)
      else if key == "ports" then Each(Port) else if key == "volumeMounts" then Each(Mount)
      else if key == "env" then Each(EnvVar) else Equal
    case Pod =>
      if key == "securityContext" then One(PodSecurity)
      else if key == "containers" then Each(Container) else if key == "volumes" then Each(Volume)
      else if key == "topologySpreadConstraints" then Each(Spread) else Equal
    case JobMetadata => if key == "labels" then One(JobLabels) else Equal
    case DeploymentTemplate => if key == "metadata" then One(Metadata) else if key == "spec" then One(Pod) else Equal
    case JobTemplate => if key == "metadata" then One(JobMetadata) else if key == "spec" then One(Pod) else Equal
    case DeploymentSpec => if key == "template" then One(DeploymentTemplate) else if key == "replicas" then Never else Equal
    case JobSpec => if key == "template" then One(JobTemplate) else Equal
    case _ => Equal
  }

  /** The live value is the reviewed one, up to what may be added at each level. */
  predicate Same(level: Level, e: Value, l: Value)
    decreases e, 0
  {
    if e.Object? && l.Object? then
      && (forall key :: key in e.fields ==> key in l.fields && SameAt(Inside(level, key), e.fields[key], l.fields[key]))
      && (forall key :: key in l.fields && key !in e.fields ==> MayAdd(level, e.fields, key, l.fields[key]))
    else l == e
  }

  predicate SameAt(place: Place, e: Value, l: Value)
    decreases e, 1
  {
    match place
    case Equal => l == e
    case Never => false
    case One(level) => Same(level, e, l)
    case Each(level) =>
      if e.List? && l.List? && |e.items| == |l.items| then
        forall i :: 0 <= i < |e.items| ==> Same(level, e.items[i], l.items[i])
      else l == e
  }

  // ----- The normalization decides exactly this

  ghost predicate Lists(defaults: Defaults, level: Level, e: Map) {
    forall key, v :: HasDefault(defaults, key, v) <==> key in Given(level, e) && Given(level, e)[key] == v
  }

  ghost predicate Decides(rel: (Map, Map) -> bool, level: Level) {
    forall e, l :: rel(e, l) <==> Same(level, Object(e), Object(l))
  }

  ghost predicate RuleIs(rule: Rule, place: Place) {
    forall e, l :: rule(e, l) <==> SameAt(place, e, l)
  }

  lemma ByObjectIs(rel: (Map, Map) -> bool, level: Level)
    requires Decides(rel, level)
    ensures RuleIs(ByObject(rel), One(level))
  {
    hide Same;
    forall e, l ensures ByObject(rel)(e, l) <==> Same(level, e, l) {
      if e.Object? && l.Object? {
        assert rel(e.fields, l.fields) <==> Same(level, Object(e.fields), Object(l.fields));
      } else {
        OtherSame(level, e, l);
      }
    }
  }

  lemma OtherSame(level: Level, e: Value, l: Value)
    requires !(e.Object? && l.Object?)
    ensures Same(level, e, l) <==> l == e
  {
  }

  lemma ByListOf(rel: (Map, Map) -> bool, level: Level)
    requires Decides(rel, level)
    ensures RuleIs(ByList(rel), Each(level))
  {
    hide Same, ByObject, ByList;
    ByObjectIs(rel, level);
    forall e, l ensures ByList(rel)(e, l) <==> SameAt(Each(level), e, l) {
      ByListIs(e, l, rel);
      if e.List? && l.List? && |e.items| == |l.items| {
        forall i | 0 <= i < |e.items| ensures ByObject(rel)(e.items[i], l.items[i]) <==> Same(level, e.items[i], l.items[i]) {
          assert SameAt(One(level), e.items[i], l.items[i]) <==> Same(level, e.items[i], l.items[i]);
        }
      }
    }
  }

  /** The rules stand where levels below this one are. */
  ghost predicate Places(level: Level, rules: Rules) {
    forall key: string ::
      if key in rules then RuleIs(rules[key], Inside(level, key)) else Inside(level, key) in {Equal, Never}
  }

  /** One level: the listed defaults, and a rule wherever the level has one below it. */
  lemma LevelIs(level: Level, defaults: Defaults, rules: Rules, e: Map, l: Map)
    requires Lists(defaults, level, e) && Places(level, rules)
    requires level !in {JobLabels, DeploymentSpec, JobSpec}
    ensures Agrees(defaults, rules, e, l) <==> Same(level, Object(e), Object(l))
  {
    hide Given, HasDefault;
    NeverOnlyReplicas(level);
    hide Inside;
    forall key | key in e && key in l
      ensures SameAt(Inside(level, key), e[key], l[key]) <==>
                if key in rules then rules[key](e[key], l[key]) else l[key] == e[key]
    {
    }
  }

  lemma NeverOnlyReplicas(level: Level)
    ensures forall key :: Inside(level, key) == Never <==> level == DeploymentSpec && key == "replicas"
  {
  }

  lemma NoPlaces(level: Level)
    requires forall key: string :: Inside(level, key) == Equal
    ensures Places(level, map[])
  {
  }

  lemma PortDecided()
    ensures Decides(PortAgrees, Port)
  {
    hide Agrees, Same;
    NoPlaces(Port);
    forall e, l ensures PortAgrees(e, l) <==> Same(Port, Object(e), Object(l)) {
      LevelIs(Port, PORT_DEFAULTS, map[], e, l);
    }
  }

  lemma MountDecided()
    ensures Decides(MountAgrees, Mount)
  {
    hide Agrees, Same;
    NoPlaces(Mount);
    forall e, l ensures MountAgrees(e, l) <==> Same(Mount, Object(e), Object(l)) {
      LevelIs(Mount, MOUNT_DEFAULTS, map[], e, l);
    }
  }

  lemma FieldRefDecided()
    ensures Decides(FieldRefAgrees, FieldRef)
  {
    hide Agrees, Same;
    NoPlaces(FieldRef);
    forall e, l ensures FieldRefAgrees(e, l) <==> Same(FieldRef, Object(e), Object(l)) {
      LevelIs(FieldRef, FIELD_REF_DEFAULTS, map[], e, l);
    }
  }

  lemma SourceDecided()
    ensures Decides(SourceAgrees, Source)
  {
    hide Agrees, Same;
    NoPlaces(Source);
    forall e, l ensures SourceAgrees(e, l) <==> Same(Source, Object(e), Object(l)) {
      LevelIs(Source, SOURCE_DEFAULTS, map[], e, l);
    }
  }

  lemma SpreadListed(key: string, v: Value)
    ensures HasDefault(SPREAD_DEFAULTS, key, v) <==> key in Given(Spread, map[]) && Given(Spread, map[])[key] == v
  {
  }

  lemma SpreadDecided()
    ensures Decides(SpreadAgrees, Spread)
  {
    NoPlaces(Spread);
    assert forall e: Map :: Given(Spread, e) == Given(Spread, map[]);
    hide Agrees, Same, Given, HasDefault;
    forall key, v ensures HasDefault(SPREAD_DEFAULTS, key, v) <==> key in Given(Spread, map[]) && Given(Spread, map[])[key] == v {
      SpreadListed(key, v);
    }
    forall e, l ensures SpreadAgrees(e, l) <==> Same(Spread, Object(e), Object(l)) {
      LevelIs(Spread, SPREAD_DEFAULTS, map[], e, l);
    }
  }

  lemma CapabilitiesDecided()
    ensures Decides(CapabilitiesAgree, Capabilities)
  {
    hide Agrees, Same;
    NoPlaces(Capabilities);
    forall e, l ensures CapabilitiesAgree(e, l) <==> Same(Capabilities, Object(e), Object(l)) {
      LevelIs(Capabilities, CAPABILITY_DEFAULTS, map[], e, l);
    }
  }

  lemma HttpGetDecided()
    ensures Decides(HttpGetAgrees, HttpGet)
  {
    hide Agrees, Same;
    NoPlaces(HttpGet);
    forall e, l ensures HttpGetAgrees(e, l) <==> Same(HttpGet, Object(e), Object(l)) {
      LevelIs(HttpGet, HTTP_GET_DEFAULTS, map[], e, l);
    }
  }

  lemma PodSecurityListed(key: string, v: Value)
    ensures HasDefault(POD_SECURITY_DEFAULTS, key, v) <==> key in Given(PodSecurity, map[]) && Given(PodSecurity, map[])[key] == v
  {
  }

  lemma PodSecurityDecided()
    ensures Decides(PodSecurityAgrees, PodSecurity)
  {
    NoPlaces(PodSecurity);
    assert forall e: Map :: Given(PodSecurity, e) == Given(PodSecurity, map[]);
    hide Agrees, Same, Given, HasDefault;
    forall key, v ensures HasDefault(POD_SECURITY_DEFAULTS, key, v) <==> key in Given(PodSecurity, map[]) && Given(PodSecurity, map[])[key] == v {
      PodSecurityListed(key, v);
    }
    forall e, l ensures PodSecurityAgrees(e, l) <==> Same(PodSecurity, Object(e), Object(l)) {
      LevelIs(PodSecurity, POD_SECURITY_DEFAULTS, map[], e, l);
    }
  }

  lemma MetadataDecided()
    ensures Decides(DeploymentMetadataAgrees, Metadata)
  {
    hide Agrees, Same;
    NoPlaces(Metadata);
    forall e, l ensures DeploymentMetadataAgrees(e, l) <==> Same(Metadata, Object(e), Object(l)) {
      LevelIs(Metadata, METADATA_DEFAULTS, map[], e, l);
    }
  }

  lemma ValueFromLists(e: Map)
    ensures Lists([], ValueFrom, e)
  {
  }

  lemma ValueFromPlaces()
    ensures Places(ValueFrom, map["fieldRef" := ByObject(FieldRefAgrees)])
  {
    hide Same, ByObject, ByList, SameAt;
    FieldRefDecided();
    ByObjectIs(FieldRefAgrees, FieldRef);
  }

  lemma ValueFromDecided()
    ensures Decides(ValueFromAgrees, ValueFrom)
  {
    hide Agrees, Same, Places, Lists;
    ValueFromPlaces();
    forall e, l ensures ValueFromAgrees(e, l) <==> Same(ValueFrom, Object(e), Object(l)) {
      ValueFromLists(e);
      LevelIs(ValueFrom, [], map["fieldRef" := ByObject(FieldRefAgrees)], e, l);
    }
  }

  lemma EnvVarLists(e: Map)
    ensures Lists([], EnvVar, e)
  {
  }

  lemma EnvVarPlaces()
    ensures Places(EnvVar, map["valueFrom" := ByObject(ValueFromAgrees)])
  {
    hide Same, ByObject, ByList, SameAt;
    ValueFromDecided();
    ByObjectIs(ValueFromAgrees, ValueFrom);
  }

  lemma EnvVarDecided()
    ensures Decides(EnvVarAgrees, EnvVar)
  {
    hide Agrees, Same, Places, Lists;
    EnvVarPlaces();
    forall e, l ensures EnvVarAgrees(e, l) <==> Same(EnvVar, Object(e), Object(l)) {
      EnvVarLists(e);
      LevelIs(EnvVar, [], map["valueFrom" := ByObject(ValueFromAgrees)], e, l);
    }
  }

  lemma VolumeLists(e: Map)
    ensures Lists([], Volume, e)
  {
  }

  ghost function VolumeRules(): Rules {
    map["configMap" := ByObject(SourceAgrees), "secret" := ByObject(SourceAgrees),
                            "projected" := ByObject(SourceAgrees), "downwardAPI" := ByObject(SourceAgrees)]
  }

  lemma VolumePlaces()
    ensures Places(Volume, VolumeRules())
  {
    hide Same, ByObject, ByList, SameAt;
    SourceDecided();
    ByObjectIs(SourceAgrees, Source);
  }

  lemma VolumeIs(e: Map, l: Map)
    ensures VolumeAgrees(e, l) <==> Agrees([], VolumeRules(), e, l)
  {
    hide Agrees, ByObject, ByList;
  }

  lemma VolumeDecided()
    ensures Decides(VolumeAgrees, Volume)
  {
    hide Agrees, Same, Places, Lists, VolumeAgrees, VolumeRules;
    VolumePlaces();
    forall e, l ensures VolumeAgrees(e, l) <==> Same(Volume, Object(e), Object(l)) {
      VolumeIs(e, l);
      VolumeLists(e);
      LevelIs(Volume, [], VolumeRules(), e, l);
    }
  }

  lemma ContainerSecurityLists(e: Map)
    ensures Lists(CONTAINER_SECURITY_DEFAULTS, ContainerSecurity, e)
  {
  }

  lemma ContainerSecurityPlaces()
    ensures Places(ContainerSecurity, map["capabilities" := ByObject(CapabilitiesAgree)])
  {
    hide Same, ByObject, ByList, SameAt;
    CapabilitiesDecided();
    ByObjectIs(CapabilitiesAgree, Capabilities);
  }

  lemma ContainerSecurityDecided()
    ensures Decides(ContainerSecurityAgrees, ContainerSecurity)
  {
    hide Agrees, Same, Places, Lists;
    ContainerSecurityPlaces();
    forall e, l ensures ContainerSecurityAgrees(e, l) <==> Same(ContainerSecurity, Object(e), Object(l)) {
      ContainerSecurityLists(e);
      LevelIs(ContainerSecurity, CONTAINER_SECURITY_DEFAULTS, map["capabilities" := ByObject(CapabilitiesAgree)], e, l);
    }
  }

  lemma ProbeLists(e: Map)
    ensures Lists(PROBE_DEFAULTS, Probe, e)
  {
  }

  lemma ProbePlaces()
    ensures Places(Probe, map["httpGet" := ByObject(HttpGetAgrees)])
  {
    hide Same, ByObject, ByList, SameAt;
    HttpGetDecided();
    ByObjectIs(HttpGetAgrees, HttpGet);
  }

  lemma ProbeDecided()
    ensures Decides(ProbeAgrees, Probe)
  {
    hide Agrees, Same, Places, Lists;
    ProbePlaces();
    forall e, l ensures ProbeAgrees(e, l) <==> Same(Probe, Object(e), Object(l)) {
      ProbeLists(e);
      LevelIs(Probe, PROBE_DEFAULTS, map["httpGet" := ByObject(HttpGetAgrees)], e, l);
    }
  }

  lemma ContainerConstantsAre(key: string, v: Value)
    ensures HasDefault(CONTAINER_DEFAULTS, key, v) <==> key in ContainerConstants() && ContainerConstants()[key] == v
  {
  }

  lemma ContainerLists(e: Map)
    ensures Lists(CONTAINER_DEFAULTS, Container, e)
  {
    hide ContainerConstants, HasDefault;
    forall key, v
      ensures HasDefault(CONTAINER_DEFAULTS, key, v) <==> key in Given(Container, e) && Given(Container, e)[key] == v
    {
      ContainerConstantsAre(key, v);
    }
  }

  ghost function ContainerRules(): Rules {
    map["securityContext" := ByObject(ContainerSecurityAgrees), "startupProbe" := ByObject(ProbeAgrees),
          "readinessProbe" := ByObject(ProbeAgrees), "livenessProbe" := ByObject(ProbeAgrees),
          "ports" := ByList(PortAgrees), "volumeMounts" := ByList(MountAgrees), "env" := ByList(EnvVarAgrees)]
  }

  lemma ContainerPlaces()
    ensures Places(Container, ContainerRules())
  {
    hide Same, ByObject, ByList, SameAt;
    ContainerSecurityDecided();
    ByObjectIs(ContainerSecurityAgrees, ContainerSecurity);
    ProbeDecided();
    ByObjectIs(ProbeAgrees, Probe);
    PortDecided();
    ByListOf(PortAgrees, Port);
    MountDecided();
    ByListOf(MountAgrees, Mount);
    EnvVarDecided();
    ByListOf(EnvVarAgrees, EnvVar);
  }

  lemma ContainerIs(e: Map, l: Map)
    ensures ContainerAgrees(e, l) <==> Agrees(CONTAINER_DEFAULTS, ContainerRules(), e, l)
  {
    hide Agrees, ByObject, ByList;
  }

  lemma ContainerDecided()
    ensures Decides(ContainerAgrees, Container)
  {
    hide Agrees, Same, Places, Lists, ContainerAgrees, ContainerRules;
    ContainerPlaces();
    forall e, l ensures ContainerAgrees(e, l) <==> Same(Container, Object(e), Object(l)) {
      ContainerIs(e, l);
      ContainerLists(e);
      LevelIs(Container, CONTAINER_DEFAULTS, ContainerRules(), e, l);
    }
  }

  lemma PodConstantsAre(key: string, v: Value)
    ensures HasDefault(POD_DEFAULTS, key, v) <==> key in PodConstants() && PodConstants()[key] == v
    ensures key in {"serviceAccount", "initContainers", "ephemeralContainers"} ==> key !in PodConstants()
  {
  }

  lemma PodLists(e: Map)
    ensures Lists(PodDefaults(e), Pod, e)
  {
    hide PodConstants, POD_DEFAULTS;
    forall key, v ensures HasDefault(PodDefaults(e), key, v) <==> key in Given(Pod, e) && Given(Pod, e)[key] == v {
      PodConstantsAre(key, v);
    }
  }

  ghost function PodRules(): Rules {
    map["securityContext" := ByObject(PodSecurityAgrees), "containers" := ByList(ContainerAgrees),
          "volumes" := ByList(VolumeAgrees), "topologySpreadConstraints" := ByList(SpreadAgrees)]
  }

  lemma PodPlaces()
    ensures Places(Pod, PodRules())
  {
    hide Same, ByObject, ByList, SameAt;
    PodSecurityDecided();
    ByObjectIs(PodSecurityAgrees, PodSecurity);
    ContainerDecided();
    ByListOf(ContainerAgrees, Container);
    VolumeDecided();
    ByListOf(VolumeAgrees, Volume);
    SpreadDecided();
    ByListOf(SpreadAgrees, Spread);
  }

  lemma PodIs(e: Map, l: Map)
    ensures PodSpecAgrees(e, l) <==> Agrees(PodDefaults(e), PodRules(), e, l)
  {
    hide Agrees, ByObject, ByList;
  }

  lemma PodDecided()
    ensures Decides(PodSpecAgrees, Pod)
  {
    hide Agrees, Same, Places, Lists, PodSpecAgrees, PodRules;
    PodPlaces();
    forall e, l ensures PodSpecAgrees(e, l) <==> Same(Pod, Object(e), Object(l)) {
      PodIs(e, l);
      PodLists(e);
      LevelIs(Pod, PodDefaults(e), PodRules(), e, l);
    }
  }

  /** The controller's labels may be added, nothing else. */
  lemma JobLabelsDecided()
    ensures Decides(JobLabelsAgree, JobLabels)
  {
    forall e, l ensures JobLabelsAgree(e, l) <==> Same(JobLabels, Object(e), Object(l)) {
      JobLabelsSame(e, l);
    }
  }

  lemma JobLabelsSame(e: Map, l: Map)
    ensures JobLabelsAgree(e, l) <==> Same(JobLabels, Object(e), Object(l))
  {
    hide JOB_LABELS, MayAdd, Inside;
    var kept := l - (JOB_LABELS - e.Keys);
    assert forall key :: key in kept <==> key in l && (key in e || key !in JOB_LABELS);
    forall key: string ensures Inside(JobLabels, key) == Equal {
      JobLabelAdded(e, key, Null);
    }
    forall key: string, v ensures MayAdd(JobLabels, e, key, v) <==> key in JOB_LABELS {
      JobLabelAdded(e, key, v);
    }
    if Same(JobLabels, Object(e), Object(l)) {
      forall key | key in e ensures key in kept && kept[key] == e[key] {
        assert SameAt(Inside(JobLabels, key), e[key], l[key]) && Inside(JobLabels, key) == Equal;
      }
      assert e.Keys == kept.Keys && e == kept;
    }
  }

  lemma JobLabelAdded(e: Map, key: string, v: Value)
    ensures Inside(JobLabels, key) == Equal && (MayAdd(JobLabels, e, key, v) <==> key in JOB_LABELS)
  {
    JobLabelsAre();
  }

  lemma JobLabelsAre()
    ensures forall key: string :: key in JOB_LABELS <==>
              key in {"controller-uid", "job-name", "batch.kubernetes.io/controller-uid", "batch.kubernetes.io/job-name"}
  {
  }

  lemma JobMetadataLists(e: Map)
    ensures Lists(METADATA_DEFAULTS, JobMetadata, e)
  {
  }

  lemma JobMetadataPlaces()
    ensures Places(JobMetadata, map["labels" := ByObject(JobLabelsAgree)])
  {
    hide Same, ByObject, ByList, SameAt;
    JobLabelsDecided();
    ByObjectIs(JobLabelsAgree, JobLabels);
  }

  lemma JobMetadataDecided()
    ensures Decides(JobMetadataAgrees, JobMetadata)
  {
    hide Agrees, Same, Places, Lists;
    JobMetadataPlaces();
    forall e, l ensures JobMetadataAgrees(e, l) <==> Same(JobMetadata, Object(e), Object(l)) {
      JobMetadataLists(e);
      LevelIs(JobMetadata, METADATA_DEFAULTS, map["labels" := ByObject(JobLabelsAgree)], e, l);
    }
  }

  lemma DeploymentTemplateLists(e: Map)
    ensures Lists([], DeploymentTemplate, e)
  {
  }

  lemma DeploymentTemplatePlaces()
    ensures Places(DeploymentTemplate, map["metadata" := ByObject(DeploymentMetadataAgrees), "spec" := ByObject(PodSpecAgrees)])
  {
    hide Same, ByObject, ByList, SameAt;
    MetadataDecided();
    ByObjectIs(DeploymentMetadataAgrees, Metadata);
    PodDecided();
    ByObjectIs(PodSpecAgrees, Pod);
  }

  lemma DeploymentTemplateDecided()
    ensures Decides(DeploymentTemplateAgrees, DeploymentTemplate)
  {
    hide Agrees, Same, Places, Lists;
    DeploymentTemplatePlaces();
    forall e, l ensures DeploymentTemplateAgrees(e, l) <==> Same(DeploymentTemplate, Object(e), Object(l)) {
      DeploymentTemplateLists(e);
      LevelIs(DeploymentTemplate, [], map["metadata" := ByObject(DeploymentMetadataAgrees), "spec" := ByObject(PodSpecAgrees)], e, l);
    }
  }

  lemma JobTemplateLists(e: Map)
    ensures Lists([], JobTemplate, e)
  {
  }

  lemma JobTemplatePlaces()
    ensures Places(JobTemplate, map["metadata" := ByObject(JobMetadataAgrees), "spec" := ByObject(PodSpecAgrees)])
  {
    hide Same, ByObject, ByList, SameAt;
    JobMetadataDecided();
    ByObjectIs(JobMetadataAgrees, JobMetadata);
    PodDecided();
    ByObjectIs(PodSpecAgrees, Pod);
  }

  lemma JobTemplateDecided()
    ensures Decides(JobTemplateAgrees, JobTemplate)
  {
    hide Agrees, Same, Places, Lists;
    JobTemplatePlaces();
    forall e, l ensures JobTemplateAgrees(e, l) <==> Same(JobTemplate, Object(e), Object(l)) {
      JobTemplateLists(e);
      LevelIs(JobTemplate, [], map["metadata" := ByObject(JobMetadataAgrees), "spec" := ByObject(PodSpecAgrees)], e, l);
    }
  }

  // ----- Deployments and Jobs

  lemma DeploymentConstantsAre(key: string, v: Value)
    ensures HasDefault(DEPLOYMENT_DEFAULTS, key, v) <==> key in DeploymentConstants() && DeploymentConstants()[key] == v
  {
  }

  lemma DeploymentOwnedNotGiven()
    ensures "replicas" !in DeploymentConstants()
  {
  }

  lemma DeploymentSpecLists(e: Map)
    ensures Lists(DEPLOYMENT_DEFAULTS, DeploymentSpec, e) && "replicas" !in Given(DeploymentSpec, e)
  {
    hide DeploymentConstants, HasDefault;
    forall key, v ensures HasDefault(DEPLOYMENT_DEFAULTS, key, v) <==> key in Given(DeploymentSpec, e) && Given(DeploymentSpec, e)[key] == v {
      DeploymentConstantsAre(key, v);
    }
    DeploymentOwnedNotGiven();
  }

  lemma JobConstantsAre(key: string, v: Value)
    ensures HasDefault(JOB_DEFAULTS, key, v) <==> key in JobConstants() && JobConstants()[key] == v
  {
  }

  lemma JobOwnedNotGiven()
    ensures "selector" !in JobConstants()
  {
  }

  lemma JobSpecLists(e: Map)
    ensures Lists(JOB_DEFAULTS, JobSpec, e) && "selector" !in Given(JobSpec, e)
  {
    hide JobConstants, HasDefault;
    forall key, v ensures HasDefault(JOB_DEFAULTS, key, v) <==> key in Given(JobSpec, e) && Given(JobSpec, e)[key] == v {
      JobConstantsAre(key, v);
    }
    JobOwnedNotGiven();
  }

  /** A level at which live values of the key `owned`, if the review leaves it out, do not count. */
  ghost predicate Owns(level: Level, defaults: Defaults, rules: Rules, e: Map, l: Map, owned: string) {
    && Lists(defaults, level, e) && owned !in Given(level, e) && Places(level, rules) && owned !in rules
    && (Inside(level, owned) == Never || owned !in e) && (forall key :: Inside(level, key) == Never ==> key == owned)
    && (forall key, v :: Owned(level, key, v) ==> key == owned)
    && (owned in l ==> Owned(level, owned, l[owned]))
  }

  lemma OwnedLevelIf(level: Level, defaults: Defaults, rules: Rules, e: Map, l: Map, owned: string)
    requires Owns(level, defaults, rules, e, l, owned) && Agrees(defaults, rules, e, l - {owned})
    ensures Same(level, Object(e), Object(l))
  {
    hide Given, Inside, Owned, HasDefault;
    var kept := l - {owned};
    forall key | key in e ensures key in l && SameAt(Inside(level, key), e[key], l[key]) {
      assert key in kept && kept[key] == l[key];
    }
    forall key | key in l && key !in e ensures MayAdd(level, e, key, l[key]) {
      assert key != owned ==> key in kept && HasDefault(defaults, key, l[key]);
    }
  }

  lemma OwnedLevelOnlyIf(level: Level, defaults: Defaults, rules: Rules, e: Map, l: Map, owned: string)
    requires Owns(level, defaults, rules, e, l, owned) && Same(level, Object(e), Object(l))
    ensures Agrees(defaults, rules, e, l - {owned})
  {
    hide Given, Inside, Owned, HasDefault;
    var kept := l - {owned};
    forall key | key in e
      ensures key in kept && if key in rules then rules[key](e[key], kept[key]) else kept[key] == e[key]
    {
      assert key in l && SameAt(Inside(level, key), e[key], l[key]);
    }
    forall key | key in kept && key !in e ensures HasDefault(defaults, key, kept[key]) {
      assert MayAdd(level, e, key, l[key]);
    }
  }

  lemma OwnedLevelIs(level: Level, defaults: Defaults, rules: Rules, e: Map, l: Map, owned: string)
    requires Owns(level, defaults, rules, e, l, owned)
    ensures Agrees(defaults, rules, e, l - {owned}) <==> Same(level, Object(e), Object(l))
  {
    hide Owns, Same, Agrees;
    if Agrees(defaults, rules, e, l - {owned}) {
      OwnedLevelIf(level, defaults, rules, e, l, owned);
    }
    if Same(level, Object(e), Object(l)) {
      OwnedLevelOnlyIf(level, defaults, rules, e, l, owned);
    }
  }

  lemma TemplatePlaces()
    ensures Places(DeploymentSpec, map["template" := ByObject(DeploymentTemplateAgrees)])
    ensures Places(JobSpec, map["template" := ByObject(JobTemplateAgrees)])
  {
    hide Same, ByObject, SameAt;
    DeploymentTemplateDecided();
    ByObjectIs(DeploymentTemplateAgrees, DeploymentTemplate);
    JobTemplateDecided();
    ByObjectIs(JobTemplateAgrees, JobTemplate);
  }

  lemma DeploymentOwns(e: Map, l: Map)
    ensures Owns(DeploymentSpec, DEPLOYMENT_DEFAULTS, map["template" := ByObject(DeploymentTemplateAgrees)], e, l, "replicas")
  {
    hide Places, Lists, ByObject;
    TemplatePlaces();
    DeploymentSpecLists(e);
    NeverOnlyReplicas(DeploymentSpec);
    assert "replicas" != "template";
  }

  lemma JobOwns(e: Map, l: Map)
    requires "selector" !in e && ("selector" in l ==> Generated(l["selector"]))
    ensures Owns(JobSpec, JOB_DEFAULTS, map["template" := ByObject(JobTemplateAgrees)], e, l, "selector")
  {
    hide Places, Lists, ByObject, Generated, Given;
    TemplatePlaces();
    JobSpecLists(e);
    NeverOnlyReplicas(JobSpec);
    assert "selector" != "template";
  }

  lemma DeploymentSpecDecided(e: Map, l: Map)
    ensures SpecAgrees(Deployment, e, l) <==> Same(DeploymentSpec, Object(e), Object(l))
  {
    hide Agrees, Same, ByObject, Owns;
    DeploymentOwns(e, l);
    OwnedLevelIs(DeploymentSpec, DEPLOYMENT_DEFAULTS, map["template" := ByObject(DeploymentTemplateAgrees)], e, l, "replicas");
  }

  lemma GeneratedIs(v: Value)
    ensures Generated(v) <==> IsJobControllerSelector(v)
  {
    if v.Object? && v.fields.Keys == {"matchLabels"} && v.fields["matchLabels"].Object? {
      KeysOf(v.fields["matchLabels"].fields);
    }
  }

  lemma KeysOf(labels: Map)
    ensures labels != map[] && labels.Keys <= {"batch.kubernetes.io/controller-uid", "controller-uid"} <==>
              labels.Keys in {{"controller-uid"}, {"batch.kubernetes.io/controller-uid"},
                              {"controller-uid", "batch.kubernetes.io/controller-uid"}}
  {
    var a, b := "controller-uid", "batch.kubernetes.io/controller-uid";
    if labels != map[] && labels.Keys <= {b, a} {
      assert labels.Keys != {};
      if a in labels && b in labels {
        assert labels.Keys == {a, b};
      } else if a in labels {
        assert labels.Keys == {a};
      } else {
        assert labels.Keys == {b};
      }
    }
    assert labels.Keys == {a} || labels.Keys == {b} || labels.Keys == {a, b} ==> labels != map[];
  }

  lemma JobSpecDecided(e: Map, l: Map)
    ensures SpecAgrees(Job, e, l) <==> Same(JobSpec, Object(e), Object(l))
  {
    hide Agrees, Same, ByObject, Generated, IsJobControllerSelector, Owns;
    GeneratedIs(Get(l, "selector"));
    var rules: Rules := map["template" := ByObject(JobTemplateAgrees)];
    if "selector" !in e && ("selector" in l ==> Generated(l["selector"])) {
      JobOwns(e, l);
      OwnedLevelIs(JobSpec, JOB_DEFAULTS, rules, e, l, "selector");
      assert "selector" !in l ==> l - {"selector"} == l;
    } else {
      TemplatePlaces();
      JobSpecLists(e);
      StatedSelector(e, l, rules);
    }
  }

  lemma StatedSelector(e: Map, l: Map, rules: Rules)
    requires Lists(JOB_DEFAULTS, JobSpec, e) && Places(JobSpec, rules)
    requires "selector" in e || ("selector" in l && !Generated(l["selector"]))
    ensures Agrees(JOB_DEFAULTS, rules, e, l) <==> Same(JobSpec, Object(e), Object(l))
  {
    hide Given, HasDefault, Generated;
    NeverOnlyReplicas(JobSpec);
    hide Inside;
    forall key | key in e && key in l
      ensures SameAt(Inside(JobSpec, key), e[key], l[key]) <==>
                if key in rules then rules[key](e[key], l[key]) else l[key] == e[key]
    {
    }
  }

  // ----- What this means for the gate

  /** Without what the server and the controllers add, the live mapping is the reviewed one. */
  function Normalized(level: Level, e: Map, l: Map): Map
    requires level != JobLabels
  {
    match level
    case Port => NormalizePort(e, l)
    case Mount => NormalizeMount(e, l)
    case FieldRef => NormalizeFieldRef(e, l)
    case ValueFrom => NormalizeValueFrom(e, l)
    case EnvVar => NormalizeEnvVar(e, l)
    case Source => NormalizeSource(e, l)
    case Volume => NormalizeVolume(e, l)
    case Spread => NormalizeSpread(e, l)
    case Capabilities => NormalizeCapabilities(e, l)
    case ContainerSecurity => NormalizeContainerSecurity(e, l)
    case HttpGet => NormalizeHttpGet(e, l)
    case Probe => NormalizeProbe(e, l)
    case Container => NormalizeContainer(e, l)
    case PodSecurity => NormalizePodSecurity(e, l)
    case Pod => NormalizePodSpec(e, l)
    case Metadata => NormalizeDeploymentMetadata(e, l)
    case JobMetadata => NormalizeJobMetadata(e, l)
    case DeploymentTemplate => NormalizeDeploymentTemplate(e, l)
    case JobTemplate => NormalizeJobTemplate(e, l)
    case DeploymentSpec => NormalizedSpec(Deployment, e, l)
    case JobSpec => NormalizedSpec(Job, e, l)
  }

  lemma SmallLevels(level: Level, e: Map, l: Map)
    requires level in {Port, Mount, FieldRef, Source, Spread, Capabilities, HttpGet, PodSecurity, Metadata}
    ensures Normalized(level, e, l) == e <==> Same(level, Object(e), Object(l))
  {
    hide Same, Agrees, DropDefaults;
    match level
    case Port => DropsIff(PORT_DEFAULTS); PortDecided();
    case Mount => DropsIff(MOUNT_DEFAULTS); MountDecided();
    case FieldRef => DropsIff(FIELD_REF_DEFAULTS); FieldRefDecided();
    case Source => DropsIff(SOURCE_DEFAULTS); SourceDecided();
    case Spread => DropsIff(SPREAD_DEFAULTS); SpreadDecided();
    case Capabilities => DropsIff(CAPABILITY_DEFAULTS); CapabilitiesDecided();
    case HttpGet => DropsIff(HTTP_GET_DEFAULTS); HttpGetDecided();
    case PodSecurity => DropsIff(POD_SECURITY_DEFAULTS); PodSecurityDecided();
    case Metadata => DropsIff(METADATA_DEFAULTS); DeploymentMetadataDecided(e, l);
    case _ =>
  }

  lemma DeploymentMetadataDecided(e: Map, l: Map)
    ensures DeploymentMetadataAgrees(e, l) <==> Same(Metadata, Object(e), Object(l))
  {
    hide Same, Agrees;
    MetadataDecided();
  }

  /** At every level the normalization gives the reviewed mapping back if and only if the live one is the same
      up to what may be added. */
  lemma NormalizedIff(level: Level, e: Map, l: Map)
    requires level != JobLabels
    ensures Normalized(level, e, l) == e <==> Same(level, Object(e), Object(l))
  {
    if level in {Port, Mount, FieldRef, Source, Spread, Capabilities, HttpGet, PodSecurity, Metadata} {
      hide Same, Normalized;
      SmallLevels(level, e, l);
    } else {
      hide Same, ValueFromAgrees, EnvVarAgrees, VolumeAgrees, ContainerSecurityAgrees, ProbeAgrees, ContainerAgrees,
           PodSpecAgrees, JobMetadataAgrees, DeploymentTemplateAgrees, JobTemplateAgrees, SpecAgrees, NormalizedSpec,
           NormalizeValueFrom, NormalizeEnvVar, NormalizeVolume, NormalizeContainerSecurity, NormalizeProbe,
           NormalizeContainer, NormalizePodSpec, NormalizeJobMetadata, NormalizeDeploymentTemplate, NormalizeJobTemplate;
      match level
      case ValueFrom => ValueFromIff(e, l); ValueFromDecided();
      case EnvVar => EnvVarIff(e, l); EnvVarDecided();
      case Volume => VolumeIff(e, l); VolumeDecided();
      case ContainerSecurity => ContainerSecurityIff(e, l); ContainerSecurityDecided();
      case Probe => ProbeIff(e, l); ProbeDecided();
      case Container => ContainerIff(e, l); ContainerDecided();
      case Pod => PodSpecIff(e, l); PodDecided();
      case JobMetadata => JobMetadataIff(e, l); JobMetadataDecided();
      case DeploymentTemplate => DeploymentTemplateIff(e, l); DeploymentTemplateDecided();
      case JobTemplate => JobTemplateIff(e, l); JobTemplateDecided();
      case DeploymentSpec => SpecIff(Deployment, e, l); DeploymentSpecDecided(e, l);
      case JobSpec => SpecIff(Job, e, l); JobSpecDecided(e, l);
      case _ =>
    }
  }

  /** Every value is the same as itself; only a stated replica count is never met. */
  lemma {:induction false} SameSelf(level: Level, e: Value)
    requires level == DeploymentSpec && e.Object? ==> "replicas" !in e.fields
    ensures Same(level, e, e)
    decreases e, 0
  {
    if e.Object? {
      forall key | key in e.fields ensures SameAt(Inside(level, key), e.fields[key], e.fields[key]) {
        NeverOnlyReplicas(level);
        SpecsAreOutermost(level, key);
        SameAtSelf(Inside(level, key), e.fields[key]);
      }
    }
  }

  lemma SpecsAreOutermost(level: Level, key: string)
    ensures Inside(level, key) !in {One(DeploymentSpec), Each(DeploymentSpec)}
  {
  }

  lemma {:induction false} SameAtSelf(place: Place, e: Value)
    requires place !in {Never, One(DeploymentSpec), Each(DeploymentSpec)}
    ensures SameAt(place, e, e)
    decreases e, 1
  {
    match place
    case Equal =>
    case One(level) => SameSelf(level, e);
    case Each(level) =>
      if e.List? {
        forall i | 0 <= i < |e.items| ensures Same(level, e.items[i], e.items[i]) {
          SameSelf(level, e.items[i]);
        }
      }
    case _ =>
  }

  /** One key that the review leaves out, on the live side: the normalization removes it if it has the value
      that is given for it, or is the controllers' own, and otherwise leaves a difference. */
  lemma OneAdded(level: Level, e: Map, key: string, v: Value)
    requires level != JobLabels && key !in e && (level == DeploymentSpec ==> "replicas" !in e)
    ensures Normalized(level, e, e[key := v]) == e <==> MayAdd(level, e, key, v)
  {
    hide Normalized, MayAdd, Inside, SameAt;
    NormalizedIff(level, e, e[key := v]);
    SameSelf(level, Object(e));
    var l := e[key := v];
    assert Object(l).fields[key] == v && forall k :: k in e ==> l[k] == e[k];
    assert Same(level, Object(e), Object(l)) <==> MayAdd(level, e, key, v);
  }

  /** What acceptance of a live control means, in the documents' own terms. */
  ghost predicate Accepted(expected: Map, live: Map, flat: bool) {
    && Embeds(Object(expected), Object(live))
    && if "kind" in expected && expected["kind"] in {Text("Deployment"), Text("Job")} then
         && "spec" in expected && "spec" in live && expected["spec"].Object? && live["spec"].Object?
         && Same(if expected["kind"] == Text("Deployment") then DeploymentSpec else JobSpec, expected["spec"], live["spec"])
       else flat
  }

  lemma AcceptedIff(expected: Map, live: Map, flat: bool)
    ensures Accepts(expected, live, flat) <==> Accepted(expected, live, flat)
  {
    hide Same, Embeds, SpecAgrees;
    if Get(expected, "spec").Object? && Get(live, "spec").Object? {
      DeploymentSpecDecided(Get(expected, "spec").fields, Get(live, "spec").fields);
      JobSpecDecided(Get(expected, "spec").fields, Get(live, "spec").fields);
    }
  }

  // ----- Everything added at once

  /** What the controllers of this cluster put in: three replicas; for a Job, labels and a selector. */
  function Controlled(level: Level, uid: string): Map {
    match level
    case JobLabels =>
      map["controller-uid" := Text(uid), "batch.kubernetes.io/controller-uid" := Text(uid),
          "job-name" := Text("migrate"), "batch.kubernetes.io/job-name" := Text("migrate")]
    case DeploymentSpec => map["replicas" := Number(3)]
    case JobSpec =>
      map["selector" := Object(map["matchLabels" := Object(map["batch.kubernetes.io/controller-uid" := Text(uid)])])]
    case _ => map[]
  }

  /** The reviewed value as the cluster shows it, with everything added wherever the review leaves it out. */
  function Filled(level: Level, e: Value, uid: string): Value
    decreases e, 0
  {
    if !e.Object? then e
    else
      Object(Given(level, e.fields) + Controlled(level, uid) +
             map key | key in e.fields :: FilledAt(Inside(level, key), e.fields[key], uid))
  }

  function FilledAt(place: Place, e: Value, uid: string): Value
    decreases e, 1
  {
    match place
    case One(level) => Filled(level, e, uid)
    case Each(level) =>
      if e.List? then List(seq(|e.items|, i requires 0 <= i < |e.items| => Filled(level, e.items[i], uid))) else e
    case _ => e
  }

  lemma ControlledMayBeAdded(level: Level, e: Map, uid: string, key: string)
    requires uid != "" && key in Given(level, e) + Controlled(level, uid)
    ensures MayAdd(level, e, key, (Given(level, e) + Controlled(level, uid))[key])
  {
    hide Given;
    if key in Controlled(level, uid) {
      ControlledOwned(level, uid, key);
    }
  }

  lemma ControlledOwned(level: Level, uid: string, key: string)
    requires uid != "" && key in Controlled(level, uid)
    ensures Owned(level, key, Controlled(level, uid)[key])
  {
    if level == JobSpec {
      var labels := map["batch.kubernetes.io/controller-uid" := Text(uid)];
      assert labels.Keys == {"batch.kubernetes.io/controller-uid"};
      var selector := map["matchLabels" := Object(labels)];
      assert selector.Keys == {"matchLabels"};
    }
  }

  lemma {:induction false} FilledSame(level: Level, e: Value, uid: string)
    requires uid != "" && (level == DeploymentSpec && e.Object? ==> "replicas" !in e.fields)
    ensures Same(level, e, Filled(level, e, uid))
    decreases e, 0
  {
    hide Filled, FilledAt, Inside, Given, Controlled, MayAdd;
    FilledIs(level, e, uid);
    if e.Object? {
      var l := Filled(level, e, uid).fields;
      NeverOnlyReplicas(level);
      forall key | key in e.fields ensures SameAt(Inside(level, key), e.fields[key], l[key]) {
        SpecsAreOutermost(level, key);
        FilledSameAt(Inside(level, key), e.fields[key], uid);
      }
      forall key | key in l && key !in e.fields ensures MayAdd(level, e.fields, key, l[key]) {
        ControlledMayBeAdded(level, e.fields, uid, key);
      }
    }
  }

  lemma FilledIs(level: Level, e: Value, uid: string)
    ensures !e.Object? ==> Filled(level, e, uid) == e
    ensures e.Object? ==> Filled(level, e, uid).Object?
    ensures e.Object? ==> forall key :: key in e.fields ==>
              key in Filled(level, e, uid).fields
              && Filled(level, e, uid).fields[key] == FilledAt(Inside(level, key), e.fields[key], uid)
    ensures e.Object? ==> forall key :: key in Filled(level, e, uid).fields && key !in e.fields ==>
              key in Given(level, e.fields) + Controlled(level, uid)
              && Filled(level, e, uid).fields[key] == (Given(level, e.fields) + Controlled(level, uid))[key]
  {
    hide FilledAt, Inside, Given, Controlled;
  }

  lemma {:induction false} FilledSameAt(place: Place, e: Value, uid: string)
    requires uid != "" && place !in {Never, One(DeploymentSpec), Each(DeploymentSpec)}
    ensures SameAt(place, e, FilledAt(place, e, uid))
    decreases e, 1
  {
    match place
    case Equal =>
    case One(level) => FilledSame(level, e, uid);
    case Each(level) =>
      if e.List? {
        forall i | 0 <= i < |e.items| ensures Same(level, e.items[i], Filled(level, e.items[i], uid)) {
          FilledSame(level, e.items[i], uid);
        }
      }
    case _ =>
  }

  function LevelOf(kind: Kind): Level {
    match kind
    case Deployment => DeploymentSpec
    case Job => JobSpec
  }

  /** The reviewed document as the cluster shows it: the spec filled at every level, any status, and metadata of
      the server's own beside or instead of the reviewed one. */
  function Shown(document: Map, kind: Kind, uid: string, managed: Map, status: Value): Map
    requires Get(document, "metadata").Object? && Get(document, "spec").Object?
  {
    var spec := if kind == Deployment then document["spec"].fields - {"replicas"} else document["spec"].fields;
    document["metadata" := Object(document["metadata"].fields + managed)]
            ["spec" := Filled(LevelOf(kind), Object(spec), uid)]["status" := status]
  }

  /** Every reviewed Deployment and Job is accepted with all that the server and the controllers add. */
  lemma ShownAccepted(document: Map, kind: Kind, uid: string, managed: Map, status: Value, flat: bool)
    requires Get(document, "kind") == Text(if kind == Deployment then "Deployment" else "Job")
    requires Get(document, "metadata").Object? && Get(document, "spec").Object? && uid != ""
    requires managed.Keys <= {"creationTimestamp", "deletionGracePeriodSeconds", "deletionTimestamp", "generation",
                              "managedFields", "resourceVersion", "selfLink", "uid"}
    ensures ExpectedControl(document).Some?
    ensures Accepts(ExpectedControl(document).value, Shown(document, kind, uid, managed, status), flat)
  {
    assert "Deployment" != "Job";
    var expected, live := ExpectedControl(document).value, Shown(document, kind, uid, managed, status);
    var spec := if kind == Deployment then document["spec"].fields - {"replicas"} else document["spec"].fields;
    ExpectedIs(document, kind, spec);
    ShownIs(document, kind, uid, managed, status, spec);
    hide *;
    OthersEmbed(document, expected, live, managed);
    SpecFilled(kind, spec, uid);
    Applies(expected, live, kind, spec, flat);
  }

  lemma SpecFilled(kind: Kind, spec: Map, uid: string)
    requires uid != "" && (kind == Deployment ==> "replicas" !in spec)
    ensures Filled(LevelOf(kind), Object(spec), uid).Object?
    ensures SpecAgrees(kind, spec, Filled(LevelOf(kind), Object(spec), uid).fields)
  {
    hide SpecAgrees, Filled, Same;
    FilledSame(LevelOf(kind), Object(spec), uid);
    FilledIs(LevelOf(kind), Object(spec), uid);
    DeploymentSpecDecided(spec, Filled(LevelOf(kind), Object(spec), uid).fields);
    JobSpecDecided(spec, Filled(LevelOf(kind), Object(spec), uid).fields);
  }

  lemma Applies(expected: Map, live: Map, kind: Kind, spec: Map, flat: bool)
    requires KindOf(expected) == Some(kind) && Get(expected, "spec") == Object(spec) && Get(live, "spec").Object?
    requires SpecAgrees(kind, spec, Get(live, "spec").fields)
    requires forall key :: key in expected && key != "spec" ==> key in live && Embeds(expected[key], live[key])
    ensures Accepts(expected, live, flat)
  {
    hide SpecAgrees, Embeds, KindOf;
    AcceptsIff(expected, live, flat);
  }

  lemma OthersEmbed(document: Map, expected: Map, live: Map, managed: Map)
    requires Get(document, "metadata").Object? && document.Keys <= live.Keys && expected.Keys <= document.Keys - {"status"}
    requires managed.Keys <= {"creationTimestamp", "deletionGracePeriodSeconds", "deletionTimestamp", "generation",
                              "managedFields", "resourceVersion", "selfLink", "uid"}
    requires "metadata" in expected ==> expected["metadata"] == Object(document["metadata"].fields - SERVER_MANAGED)
    requires live["metadata"] == Object(document["metadata"].fields + managed)
    requires forall key :: key in expected && key !in {"metadata", "spec"} ==>
               expected[key] == document[key] && live[key] == document[key]
    ensures forall key :: key in expected && key != "spec" ==> key in live && Embeds(expected[key], live[key])
  {
    hide Embeds;
    forall key | key in expected && key != "spec" ensures key in live && Embeds(expected[key], live[key]) {
      if key == "metadata" {
        MetadataEmbeds(document["metadata"].fields, managed);
      } else {
        EmbedsSelf(document[key]);
      }
    }
  }

  lemma MetadataEmbeds(metadata: Map, managed: Map)
    requires managed.Keys <= {"creationTimestamp", "deletionGracePeriodSeconds", "deletionTimestamp", "generation",
                              "managedFields", "resourceVersion", "selfLink", "uid"}
    ensures Embeds(Object(metadata - SERVER_MANAGED), Object(metadata + managed))
  {
    hide Embeds;
    assert managed.Keys <= SERVER_MANAGED;
    forall key | key in metadata - SERVER_MANAGED
      ensures key in metadata + managed && Embeds((metadata - SERVER_MANAGED)[key], (metadata + managed)[key])
    {
      EmbedsSelf(metadata[key]);
    }
    EmbedsObject(metadata - SERVER_MANAGED, metadata + managed);
  }

  lemma ExpectedIs(document: Map, kind: Kind, spec: Map)
    requires Get(document, "kind") == Text(if kind == Deployment then "Deployment" else "Job")
    requires Get(document, "metadata").Object? && Get(document, "spec").Object?
    requires spec == if kind == Deployment then document["spec"].fields - {"replicas"} else document["spec"].fields
    ensures ExpectedControl(document).Some? && KindOf(ExpectedControl(document).value) == Some(kind)
    ensures kind == Deployment ==> "replicas" !in spec
    ensures "metadata" in document && "metadata" in ExpectedControl(document).value
    ensures ExpectedControl(document).value.Keys <= document.Keys - {"status"}
    ensures Get(ExpectedControl(document).value, "spec") == Object(spec)
    ensures ExpectedControl(document).value["metadata"] == Object(document["metadata"].fields - SERVER_MANAGED)
    ensures forall key :: key in ExpectedControl(document).value ==>
              key in document && key != "status"
              && (key !in {"metadata", "spec"} ==> ExpectedControl(document).value[key] == document[key])
  {
    assert "Deployment" != "Job";
  }

  lemma ShownIs(document: Map, kind: Kind, uid: string, managed: Map, status: Value, spec: Map)
    requires Get(document, "metadata").Object? && Get(document, "spec").Object?
    requires spec == if kind == Deployment then document["spec"].fields - {"replicas"} else document["spec"].fields
    ensures var live := Shown(document, kind, uid, managed, status);
            && document.Keys <= live.Keys && Get(live, "spec").Object? && Get(live, "spec") == live["spec"]
            && live["spec"] == Filled(LevelOf(kind), Object(spec), uid)
            && live["metadata"] == Object(document["metadata"].fields + managed)
            && forall key :: key in document && key !in {"metadata", "spec", "status"} ==> live[key] == document[key]
  {
    hide Filled;
    FilledIs(LevelOf(kind), Object(spec), uid);
  }

  // ----- One Deployment and one Job

  function ReviewedProbe(path: string): Value {
    Object(map["httpGet" := Object(map["path" := Text(path), "port" := Text("http")]), "timeoutSeconds" := Number(3)])
  }

  function ReviewedPod(role: string): Value {
    Object(map[
      "serviceAccountName" := Text("k-comms"),
      "securityContext" := Object(map["runAsNonRoot" := Bool(true), "fsGroup" := Number(10001)]),
      "topologySpreadConstraints" := List([Object(map["maxSkew" := Number(1), "topologyKey" := Text("kubernetes.io/hostname")])]),
      "containers" := List([Object(map[
        "name" := Text(role),
        "env" := List([Object(map["name" := Text("POD_IP"),
                                  "valueFrom" := Object(map["fieldRef" := Object(map["fieldPath" := Text("status.podIP")])])])]),
        "ports" := List([Object(map["name" := Text("http"), "containerPort" := Number(4000)])]),
        "startupProbe" := ReviewedProbe("/health/live"), "readinessProbe" := ReviewedProbe("/health/ready"),
        "livenessProbe" := ReviewedProbe("/health/live"),
        "securityContext" := Object(map["capabilities" := Object(map["drop" := List([Text("ALL")])])]),
        "volumeMounts" := List([Object(map["name" := Text("keys"), "mountPath" := Text("/keys")])])])]),
      "volumes" := List([Object(map["name" := Text("keys"), "secret" := Object(map["secretName" := Text("keys")])])])])
  }

  function ReviewedDocument(kind: Kind): Map {
    map["kind" := Text(if kind == Deployment then "Deployment" else "Job"),
        "metadata" := Object(map["name" := Text("k-comms")]),
        "spec" := Object(map["template" := Object(map[
          "metadata" := Object(map["labels" := Object(map["app.kubernetes.io/component" := Text("edge")])]),
          "spec" := ReviewedPod("edge")])])]
  }

  /** Both are accepted as the cluster shows them. */
  lemma ReviewedAccepted(kind: Kind, flat: bool)
    ensures ExpectedControl(ReviewedDocument(kind)).Some?
    ensures Accepts(ExpectedControl(ReviewedDocument(kind)).value,
                    Shown(ReviewedDocument(kind), kind, "1f0c", map["uid" := Text("9a"), "generation" := Number(7)],
                          Object(map["observedGeneration" := Number(7)])), flat)
  {
    hide Accepts, ExpectedControl, Shown, ReviewedPod;
    var managed := map["uid" := Text("9a"), "generation" := Number(7)];
    assert managed.Keys == {"uid", "generation"};
    ShownAccepted(ReviewedDocument(kind), kind, "1f0c", managed, Object(map["observedGeneration" := Number(7)]), flat);
  }
}
