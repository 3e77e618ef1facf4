# The release and architecture gates of K-Comms, verified

This project models the algorithmic kernels of the repository's release and architecture gates in Dafny and
proves what they promise. It covers six parts.

* **Context cycles.** Tarjan's search for strongly connected components as the gate runs it (`Components`), the
  findings that report cycles between contexts (`Cycles`), their text and how it is read back (`EdgeText`), and the
  decision whether a retained cycle may be deferred (`Deferrals`).
* **Reading Elixir.** The lexer that blanks what is not code (`Lexing` is the specification, `Lexer` the scanning
  methods, `LexingLaws` and `Relexing` the theory), the bracket and quote scanners (`CallArguments`), both also proved
  on texts written from a grammar (`LexingGrammar`, `ArgumentGrammar`), the resolution of references through alias
  tables (`Aliases`), the expansion of these tables (`AliasExpansion`) with tables on which either goes wrong
  (`AliasExamples`), and the owner of a module (`Owners`).
* **The boundary ratchet.** The manifest and the baseline are JSON-like documents (`Documents`, `Json`). `Widenings`
  computes the review tokens of a step, `WideningChanges` says which differences between the documents they stand for,
  `Baseline` and `Writing` load and write the baseline, `Enforcement` and `Temporary` hold the rules of one revision,
  `Gate` is the gate, `Ratchet` compares a revision with its base (`GateMeaning` says what both ask of the documents),
  and `Histories` proves what every run of accepted revisions keeps; `Witnesses` builds runs in which something grows.
* **Live against reviewed Kubernetes objects.** The projection comparison (`Json`), the removal of server defaults
  (`Workload`, `Controls`; `ServerDefaults` spells out every value that may be added), and the claim of pods by
  deployments with the counts recomputed from it (`Topology`, and in terms of the documents `TopologyMeaning`).
* **References.** The walk over a document that may be shared and cyclic, and JSON Pointer (`References`,
  `JsonPointer`, `PointerMeaning`).
* **Facades and the pipeline gate.** The generated facade snapshot against its validator (`Facade`, `FacadeMeaning`),
  and the bounded polling of the main pipeline (`Polling`, `PollingMeaning`).

Where the original mutates state in loops, the model is a method with a loop, proved against a specification
function or predicate; the theorems are about that specification. The modules named last in each part say what these
specifications mean without using their tables and helpers: on texts written from a grammar, or as an equivalence with
a statement on the documents in which every name and value is written out. Errors are sets of problems, so an error-free run
is an empty set; wording is not modelled. A Python exception counts as a failed run (`Raised`, or an empty result).

## What does not hold, and exactly when it does

* `elixir_code_only` is not idempotent. In `~s?a?#b` the first pass keeps `#b`, because a `?` stands before the `#`;
  the `?` closes a sigil and is blanked, so that a second pass takes `#b` for a comment
  (`Relexing.CodeOnlyNotIdempotent`). `Relexing.CodeOnlyIdempotentIff` gives the exact condition: no literal that is
  read, at any depth of interpolation, ends in `?` with a `#` directly behind it. A text without the two characters
  `?#` in sequence always satisfies it (`Relexing.SteadyWithoutPair`).
* Alias resolution need not end: on `Foo -> Foo.Foo` it grows for ever (`AliasExamples.SelfRootedGrows`). Where
  `Elixir` is neither an alias nor a whole target, every resolution ends if and only if every alias on a cycle of first
  segments has a target of one segment, the prefix not counted (`Aliases.AllEndIff`); a self-alias `Foo -> Foo` is
  harmless. The condition on `Elixir` is needed: `Foo -> Elixir`, `A -> Foo.A.A` has no cycle of first segments, and the
  resolution of `A` never ends (`AliasExamples.BarePrefixGrows`).
* The expanded table need not resolve like the raw one, even where all resolutions end: with `A -> B` and `B -> A`, the
  first assignment of a pass makes `A` stand for itself, and then `B` ends at `A` instead of `B`
  (`AliasExamples.EntangledPair`). Under the same condition on `Elixir`, every reference keeps its module if and only if
  no target that is written without the prefix starts with an alias on a cycle of several aliases
  (`AliasExpansion.ModuleAliases`). Acyclic tables and tables with only self-aliases on cycles always qualify, and so
  does a longer cycle all of whose targets are written with the prefix, because the expansion looks the prefix up and
  finds nothing. An alias named `Elixir` is followed by the expansion and dropped by the resolution
  (`AliasExamples.PrefixAliasDiffers`).
* The bare comparison of specifications refuses a Deployment that states its replicas, even on itself
  (`Controls.UnchangedAcceptedIff`). The gate never meets this: it drops them from the reviewed document first, after
  which they play no part (`Controls.ReplicasIrrelevant`, `Controls.AppliedAccepted`).
* The edges of a reported cycle are read back from its text, and a context such as `2fa`, whose name does not start
  with a letter, loses its edges there (`EdgeText.UnreadableLost`), so that its cycle counts as broken whatever is
  allowed (`Deferrals.UnreadableAccepted`). The edges are read back as they were if and only if every member is
  readable (`EdgeText.ReportedReadIff`).
* A written baseline loads back without an error exactly when no violation has an empty field and no two share a
  fingerprint (`Baseline.WrittenLoadsIff`).
* The validator refuses the generated snapshot of facades exactly when a facade is published by two contexts or a
  classified operation is not exported (`Facade.SnapshotValidIff`).
* A call from a core module without an owner to an exported operation of a facade is recorded by the generator but
  refused by the validator unless the operation is public anyway (`Facade.CrossCallAllowedIff`).
* Reviews last for one step: an accepted revision that still carries its manifest transition is refused on top of
  itself (`Histories.ResubmittedIff`).

## Model

| member | source | states |
|---|---|---|
| Components.StronglyConnectedComponents | scripts/validate_architecture.py:4220-4254 | for every graph, with targets that may be missing as keys and edges visited in any order: exactly the classes of mutual reachability with at least two members, each once, sorted, in sorted order |
| Components.Search.Visit | scripts/validate_architecture.py:4228-4249 | one visit keeps the invariant of stack, indices and output for the names still being visited, and bounds every edge into the older stack by the lowlink |
| Components.Search.PopComponent | scripts/validate_architecture.py:4240-4246 | pops exactly the names from the root up the stack |
| Components.TopIsComponent | scripts/validate_architecture.py:4239-4248 | what a root pops is a whole class of mutual reachability |
| Components.PopKeeps | scripts/validate_architecture.py:4239-4248 | popping a root keeps the invariant, with its component emitted exactly if it has several members |
| Components.FollowTreeEdge | scripts/validate_architecture.py:4235-4236 | after a recursive visit the lowlink still bounds all edges into the older stack and is reached |
| Components.FollowOtherEdge | scripts/validate_architecture.py:4237-4238 | the same for an edge to a visited name, which counts only while it is on the stack |
| Components.LeaveInside | scripts/validate_architecture.py:4239-4249 | a name whose lowlink is lower stays on the stack and reaches an unfinished name below it |
| Cycles.InternalEdges | scripts/validate_architecture.py:4264-4270 | the edges inside a component, each once, in the order of their text |
| Cycles.ContextCycleViolations | scripts/validate_architecture.py:4257-4278 | an edge between distinct contexts is listed if and only if it lies on a directed cycle, and in one finding only |
| Cycles.ComponentOf | scripts/validate_architecture.py:4263-4270 | an edge on a cycle lies inside a component with several members |
| Deferrals.ResidualGraph | scripts/validate_architecture.py:6266-6284 | the graph of the known edges with no end in an allowed context |
| Deferrals.CyclesSeen | scripts/validate_architecture.py:6286-6290 | self-loops and components with several members together are all the cycles there are |
| Deferrals.ResidualAcyclicIff | scripts/validate_architecture.py:6275-6290 | no cycle remains if and only if every cycle of known edges meets an allowed context |
| Deferrals.StrictDeferralRejectionReason | scripts/validate_architecture.py:6245-6299 | accepts exactly if an allowed context is involved and, for a cycle finding, the allowed contexts are a feedback vertex set of the known edges that are read from its detail text, self-loops included |
| Deferrals.ReportedDecision | scripts/validate_architecture.py:6257-6299 | for a finding as it was reported and read back, with readable members, the allowed contexts are accepted exactly if every cycle of the whole graph through its component meets one |
| EdgeText.DetailReads | scripts/validate_architecture.py:6259-6268 | the edges of a rendered finding are read back as they were, in order, if all names are readable |
| EdgeText.ReportedReadIff | scripts/validate_architecture.py:6259-6268 | for a reported component, reading its detail gives back its edges if and only if every member is a name that starts with a letter and goes on with letters, digits, `_` and `-` |
| EdgeText.ReadableIff | scripts/validate_architecture.py:6259-6265 | readable is a name that starts with a letter and goes on with letters, digits, underscores and dashes |
| Deferrals.AcceptedIff | scripts/validate_architecture.py:6245-6299 | the condition of acceptance with the two cycle rules by name |
| EdgeText.UnreadableLost | scripts/validate_architecture.py:6259-6268 | a cycle between `2fa` and `a` is reported with two edges, none of which is read back |
| Deferrals.UnreadableAccepted | scripts/validate_architecture.py:6257-6299 | so that this cycle counts as broken whatever is allowed |
| Lexing.SpanNested | scripts/validate_architecture.py:352-427 | the interpolations of a literal are ordered, disjoint and strictly inside its span |
| Lexing.CodeOnly | scripts/validate_architecture.py:462-501 | the view has the length of the text |
| Lexer.ReadLiteral | scripts/validate_architecture.py:352-427 | the cursor loop finds the specified span and interpolations; it terminates although it calls itself through interpolations |
| Lexer.ReadInterpolation | scripts/validate_architecture.py:430-459 | the scan finds the closing brace of the specification, skipping comments, characters and nested literals |
| Lexer.BlankNonCode | scripts/validate_architecture.py:344-349 | blanks exactly the stretch of the buffer, keeping line breaks |
| Lexer.ReadCode | scripts/validate_architecture.py:462-501 | the in-place blanking of the buffer computes the specified view for every text |
| LexingLaws.CodeShows | scripts/validate_architecture.py:462-501 | at every offset the view has the original character, or a space or `0` where that is no line break |
| LexingLaws.SpanLocal | scripts/validate_architecture.py:352-427 | a literal is read the same in any surroundings that contain its span |
| LexingLaws.ScanClosed | scripts/validate_architecture.py:430-459 | the code of an interpolation, cut out and read alone, is scanned as it was inside its literal |
| LexingGrammar.RenderedView | scripts/validate_architecture.py:462-501 | of text written from a grammar (code, remarks, `?c`, quoted and triple-quoted text, sigils with every delimiter, interpolations and braces nested at will) the view is what the grammar says: code and interpolated code stay, a literal leaves a `0`, its line breaks and blanks, wherever the pieces can be told apart |
| LexingGrammar.RemarkAtEnd | scripts/validate_architecture.py:469-476 | the same where the text ends in a remark without a line break |
| LexingGrammar.SpanOfLiteral | scripts/validate_architecture.py:352-427 | in any surroundings the span of a written literal is that literal, modifiers included, and its ranges are its interpolations at every depth |
| LexingGrammar.InterpolationEnds | scripts/validate_architecture.py:430-459 | written code of an interpolation ends at its own brace, past remarks, characters, literals and braces inside |
| Relexing.RereadCode | scripts/validate_architecture.py:462-501 | the view of a stretch of text, standing in a larger view, is read again as it stands exactly if the stretch is steady |
| Relexing.CodeOnlyIdempotentIff | scripts/validate_architecture.py:462-501 | reading a view again changes nothing if and only if no literal that is read ends in `?` with a `#` behind it |
| Relexing.SteadyWithoutPair | scripts/validate_architecture.py:811-813 | the condition holds for every text without `?#` |
| Relexing.CodeOnlyNotIdempotent | scripts/validate_architecture.py:486-499 | a text on which reading twice differs from reading once |
| CallArguments.BalancedCallArguments | scripts/validate_architecture.py:2802-2826 | the loop finds the parenthesis at which the depth returns to zero outside quotes, and nothing else |
| CallArguments.SplitTopLevelArgs | scripts/validate_architecture.py:2978-3010 | the loop cuts at the top-level commas, strips every piece, and drops a blank last one; `ArgumentGrammar.SplitOfListed` says what that gives |
| CallArguments.JoinSegments | scripts/validate_architecture.py:2978-3010 | of any text, the pieces joined with commas are the text |
| CallArguments.SplitOfJoin | scripts/validate_architecture.py:2978-3010 | well-bracketed, quote-closed arguments without top-level commas come back stripped; a blank last one is dropped |
| CallArguments.BalancedOfCall | scripts/validate_architecture.py:2802-2826 | on a rendered call the joined arguments and the end index are recovered exactly, wherever the call stands |
| CallArguments.ElixirCallArity | scripts/validate_architecture.py:3013-3023 | the longest trailing block of keyword pieces counts as one argument |
| CallArguments.ArityOfCall | scripts/validate_architecture.py:3013-3023 | the arity of a rendered call is its number of positional arguments plus one for a keyword block |
| CallArguments.StripSpec | scripts/validate_architecture.py:3005-3009 | stripping removes exactly the outer whitespace, as Python defines it |
| ArgumentGrammar.WellFormedIff | scripts/validate_architecture.py:2984-3004 | a text is a well-formed argument if and only if a grammar writes it: plain characters, quoted text with escapes, and groups in `()`, `[]` and `{}`, without a comma at the top |
| ArgumentGrammar.SplitOfListed | scripts/validate_architecture.py:2978-3010 | written arguments with blanks around them split into exactly these arguments, without the blanks; an empty last one is dropped |
| ArgumentGrammar.BalancedOfListed | scripts/validate_architecture.py:2802-2826 | the closing parenthesis of a written call is found behind its arguments, whatever stands around it |
| ArgumentGrammar.KeywordIff | scripts/validate_architecture.py:3018-3021 | a piece is a keyword argument if and only if it starts with a key: small letter or underscore, letters, digits and underscores, at most one mark, blanks, colon |
| ArgumentGrammar.ArityOfListed | scripts/validate_architecture.py:3013-3023 | the arity of a written call is one for each positional argument and one for all keyword arguments together |
| Aliases.NormalizeIff | scripts/validate_architecture.py:718-723 | a module name loses its leading `Elixir` segments, except one that is all there is |
| Aliases.OnCycleIff | scripts/validate_architecture.py:730-739 | an alias comes back to itself exactly if it lies on a directed cycle of first segments |
| Aliases.EndsIff | scripts/validate_architecture.py:726-740 | where `Elixir` is neither an alias nor a whole target: the rounds of the resolution, which normalizes after every replacement, end exactly if every alias that the reference meets on a cycle has a target of one segment |
| Aliases.AllEndIff | scripts/validate_architecture.py:726-740 | under the same condition on `Elixir`: every resolution through a table ends if and only if every alias on a cycle of first segments has a target of one segment, the prefix not counted |
| Aliases.EndsAtIff | scripts/validate_architecture.py:726-740 | and then it ends at the module that the reference stands for, and nowhere else: aliases followed until none is left or a cycle is entered |
| Aliases.ResolveModuleReference | scripts/validate_architecture.py:726-740 | on any table on which the resolution of the reference ends, the loop with its set of seen names stops at the first round at which no alias is left or a name comes back, with the name of that round |
| AliasExpansion.ExpandPass | scripts/validate_architecture.py:900-912 | a pass over any table, in any order of the names and reading entries that it already changed, leaves every entry at what following its alias gives after some rounds; without a change nothing is left to assign; where `Elixir` is reserved it keeps what decides about meanings, and in a table without entanglement it lowers what is left |
| AliasExpansion.ModuleAliases | scripts/validate_architecture.py:886-914 | for every table the result holds, normalized, what following every alias gives; where `Elixir` is reserved and all resolutions end, every reference ends at the same module through both tables if and only if the table is not entangled, and then the passes reach a fixpoint within the bound |
| AliasExpansion.ExpansionKeepsIff | scripts/validate_architecture.py:900-914 | where `Elixir` is reserved and all resolutions end: after the passes every reference keeps its module if and only if no target that is written without the prefix starts with an alias on a cycle of several aliases |
| AliasExpansion.ResolvedAlike | scripts/validate_architecture.py:726-740 | where `Elixir` is reserved and all resolutions end: a table that leaves aliases on cycles alone and follows no other one beyond the entrance of its cycle resolves every reference alike |
| AliasExpansion.SelfAliasesOnly | scripts/validate_architecture.py:906 | a table whose only cycles are aliases for themselves ends everywhere and keeps every module |
| AliasExpansion.AcyclicIsFine | scripts/validate_architecture.py:886-914 | so does a table without cycles of first segments |
| AliasExamples.SelfRootedGrows | scripts/validate_architecture.py:731-739 | the resolution through a self-rooted alias never ends |
| AliasExamples.BarePrefixGrows | scripts/validate_architecture.py:718-740 | with an alias for the bare prefix the resolution through an acyclic table never ends |
| AliasExamples.EntangledPair | scripts/validate_architecture.py:900-912 | two aliases for each other: all resolutions end, and one reference changes its module by the expansion |
| AliasExamples.PrefixAliasDiffers | scripts/validate_architecture.py:718-740 | an alias named like the prefix is dropped by resolution and followed by expansion, so that a reference changes its module |
| Owners.ModuleOwnerCandidates | scripts/validate_architecture.py:636-660 | the contexts that own the module by name, or if there is none exactly those that declare the longest namespace that it lies in |
| Owners.InsideIff | scripts/validate_architecture.py:651-658 | a module lies in a namespace if it is the namespace or goes on behind it with a dot |
| Owners.AmbiguousMeansShared | scripts/validate_architecture.py:651-665 | two candidates without explicit ownership declare the very same namespace |
| Owners.Inherited | scripts/validate_architecture.py:651-660 | below a module the candidates stay the same as long as no longer namespace is declared |
| Json.ProjectionIff | scripts/collect_release_evidence.py:1169-1183 | projection equals the reviewed value if and only if that embeds in the live one, although the mismatch marker is a legal leaf |
| Workload.RealizesIff | scripts/collect_release_evidence.py:885-932 | a mapping with its known defaults dropped and its parts normalized equals the reviewed one exactly if the live one agrees: equal or acceptable at reviewed keys, and defaults at all others |
| Workload.DropsRealize | scripts/collect_release_evidence.py:1147-1154 | dropping one default after another removes exactly the listed defaults at keys that the review does not state |
| Workload.ItemsRealize | scripts/collect_release_evidence.py:1015-1031 | lists are normalized pairwise, and only if their lengths and item types fit |
| Workload.LevelLawful | scripts/collect_release_evidence.py:885-932 | the generic step: if the parts of a mapping may grow lawfully, adding listed defaults at absent keys and grown parts at rule keys keeps the mapping in agreement, and every agreeing mapping agrees with itself grown by nothing |
| Controls.EnvVarIff | scripts/collect_release_evidence.py:1097-1111 | an environment variable is accepted exactly if it agrees down to its field reference |
| Controls.VolumeIff | scripts/collect_release_evidence.py:1126-1133 | a volume is accepted exactly if it agrees with the defaults of its sources |
| Controls.ProbeIff | scripts/collect_release_evidence.py:1034-1094 | a probe is accepted exactly if it agrees with the defaults of probes and of their HTTP request |
| Controls.ContainerIff | scripts/collect_release_evidence.py:1034-1094 | a container is accepted exactly if it agrees, with its lists and probes, down to the last default |
| Controls.PodSpecIff | scripts/collect_release_evidence.py:965-1012 | the same for the pod specification with containers, volumes and spread constraints |
| Controls.JobMetadataIff | scripts/collect_release_evidence.py:935-962 | the same for the template metadata of a Job with its controller's labels |
| Controls.SpecIff | scripts/collect_release_evidence.py:885-932 | a live Deployment or Job specification is accepted if and only if it differs from the reviewed one only at keys that hold a listed default or what the controller owns |
| Controls.UnchangedAcceptedIff | scripts/collect_release_evidence.py:885-932 | of the bare comparison of specifications: an unchanged one is accepted, unless it is a Deployment that still states its replicas |
| Controls.GrowthAccepted | scripts/collect_release_evidence.py:885-1166 | whatever is accepted stays accepted when any listed defaults are added at absent keys, at every depth: pod, container, list entry, volume source, probe, request and metadata |
| Controls.GrowthKeepsAcceptance | scripts/collect_release_evidence.py:674-708 | the same for the whole comparison of a reviewed and a live control |
| Controls.AcceptsIff | scripts/collect_release_evidence.py:674-708 | a live Deployment or Job is accepted if and only if its specification agrees and every other reviewed key embeds |
| Controls.ReplicasIrrelevant | scripts/collect_release_evidence.py:648-662 | for every reviewed Deployment, acceptance depends neither on the replicas that it states nor on those of the live object |
| Controls.AppliedAccepted | scripts/collect_release_evidence.py:640-664 | the live copy of every reviewed Deployment or Job is accepted, whether or not it states replicas |
| Controls.LiveControlMatchesExpected | scripts/collect_release_evidence.py:674-708 | the whole comparison, for every kind: the reviewed control embeds, and the specifications of a Deployment or Job agree |
| ServerDefaults.NormalizedIff | scripts/collect_release_evidence.py:885-1166 | at every level, from a port to a whole Deployment or Job, the normalization gives the reviewed mapping back if and only if the live one is the same up to the values that may be added there, each of which is written out |
| ServerDefaults.OneAdded | scripts/collect_release_evidence.py:1147-1154 | a single key that the review leaves out is removed exactly if it has its written value, or belongs to a controller; any other value leaves a difference |
| ServerDefaults.AcceptedIff | scripts/collect_release_evidence.py:674-708 | the whole comparison in the same terms |
| ServerDefaults.ShownAccepted | scripts/collect_release_evidence.py:640-708 | every reviewed Deployment and Job is accepted with all values that the server and the controllers add, at every depth and at once, with any status and any metadata of the server |
| ServerDefaults.ReviewedAccepted | scripts/collect_release_evidence.py:885-1166 | one Deployment and one Job, written out with probes, ports, environment, security, volumes and spread, accepted in that form |
| TopologyMeaning.SelectsIff | scripts/collect_release_evidence.py:2214-2260 | a selector picks a pod exactly if its label items are among those of the pod and every requirement holds by its operator; it cannot be decided exactly if the labels match and an unknown operator comes before any requirement that fails |
| TopologyMeaning.PassesIff | scripts/collect_release_evidence.py:1918-1978 | the check passes if and only if the records are unique, `k-comms-edge` and `k-comms-worker` run with as many serving pods as they want, no pod is picked twice, and none with a container of theirs is left over, all in terms of labels, statuses and containers |
| TopologyMeaning.FloorsAre | scripts/collect_release_evidence.py:1262-1304 | the production floor is three for edge and two for worker, wanted and counted |
| TopologyMeaning.OrdinaryPasses | scripts/collect_release_evidence.py:1918-1978 | a cluster in which only the value of one label tells the pods of the two deployments apart passes |
| Topology.MatchingPods | scripts/collect_release_evidence.py:1946-1950 | succeeds exactly if the selector can be decided for every pod, and then yields the selected pods in order |
| Topology.ClaimPods | scripts/collect_release_evidence.py:1956-1967 | succeeds exactly if no pod comes twice or is claimed already and each is served by its record; then exactly these are claimed anew, each backed by a record with the single container of the role |
| Topology.ClaimDeployment | scripts/collect_release_evidence.py:1937-1967 | a deployment claims its pods exactly if it fits (present, converged, with a telling selector whose pods are as many as it wants, all different and served) and selects no pod that is claimed |
| Topology.ValidateApplicationTopology | scripts/collect_release_evidence.py:1918-1978 | passes if and only if no record is duplicated, both deployments fit, no pod is selected twice, and every pod with an application container is selected; the claims are then accounted for |
| Topology.ClaimsPartition | scripts/collect_release_evidence.py:1956-1967 | the claims of the deployments are disjoint, are all claims, and number the sum of the desired replicas |
| Topology.ClaimedRole | scripts/collect_release_evidence.py:1967 | every claim is for an application role |
| Topology.EvidenceCounts | scripts/collect_release_evidence.py:2015-2045 | over pods with distinct identities the evidence of a role counts its claimed pods |
| Topology.ReadyCountIsDesired | scripts/collect_release_evidence.py:1763-1779 | the ready count recomputed from the evidence equals the desired replicas of the role's deployment |
| Topology.FloorMetIff | scripts/collect_release_evidence.py:1262-1304 | so the recomputed count meets the production floor exactly if the deployment asks for as many replicas |
| Topology.ValidateProductionTopology | scripts/collect_release_evidence.py:1262-1304 | passes exactly if desired and counted replicas meet the floor of both roles |
| JsonPointer.DecodeIsOnePass | scripts/validate_contracts.py:293 | on a segment that passes the escape check the two replacements equal the one-pass decoder of section 4 of RFC 6901 |
| JsonPointer.EncodeDecode | scripts/validate_contracts.py:287-293 | encoding any key and decoding it gives the key |
| JsonPointer.SplitJoin | scripts/validate_contracts.py:286 | splitting a pointer at its slashes recovers the joined segments |
| JsonPointer.DecimalRoundTrip | scripts/validate_contracts.py:296-303 | every index, written in decimal, is accepted and read back |
| References.EscapesOk | scripts/validate_contracts.py:287-292 | the escape check accepts exactly the segments whose tildes are all escapes |
| References.LocalPointerResolves | scripts/validate_contracts.py:278-307 | the walk succeeds exactly if the pointer resolves |
| References.PointerResolves | scripts/validate_contracts.py:278-307 | every node that textual keys and indices lead to has a pointer that resolves to it |
| References.HasPointerIff | scripts/validate_contracts.py:278-307 | a pointer resolves to a value if and only if textual keys and indices lead to it; a YAML key of another kind is on no pointer |
| References.ValidateRefs | scripts/validate_contracts.py:275-330 | terminates on every finite document, shared or cyclic, and accepts exactly if every reference in a reachable node resolves |
| PointerMeaning.PointerIff | scripts/validate_contracts.py:278-307 | a text resolves to a value if and only if it spells a path of textual keys and indices that leads there: a slash before every step, `~0` and `~1` for tilde and slash, decimal numerals without leading zeros |
| PointerMeaning.CellResolvesIff | scripts/validate_contracts.py:318-328 | a node is in order if and only if its `$ref`, where it has one, spells a path of the document behind `#`, or names a file up to its first `#` |
| References.ReachableIffPath | scripts/validate_contracts.py:311-330 | reachable, in the sense of the walk, are exactly the nodes that a path of keys, of any kind, and indices leads to |
| References.CheckReference | scripts/validate_contracts.py:319-326 | a local reference is walked, any other one names an existing file |
| Baseline.ReadItems | scripts/validate_architecture.py:5932-5965 | all entries that can be read, in order; no problem exactly if every item is sound and no fingerprint repeats |
| Baseline.BaselineEntries | scripts/validate_architecture.py:5918-5970 | no problem exactly if the document is well formed: version, policy, sound and distinct entries in ascending order |
| Baseline.LoadBaseline | scripts/validate_architecture.py:5973-5985 | a missing file is an empty baseline, an unreadable one a problem |
| Baseline.WrittenLoadsIff | scripts/validate_architecture.py:7669-7683 | a written baseline loads without an error exactly if no field is empty and no fingerprint shared, and then yields the same violations |
| Writing.WriteBaseline | scripts/validate_architecture.py:7636-7684 | refuses absolute violations, an invalid predecessor and new protected entries, and writes the sorted set otherwise |
| Writing.WriteLoadGate | scripts/validate_architecture.py:7636-7684 | after a write, loading yields the same sorted violations, and the gate finds nothing new and nothing resolved |
| Enforcement.ActivationLock | scripts/validate_architecture.py:6533-6572 | the lock holds exactly if nothing is activated or the mode is the declared strict target |
| Enforcement.ReviewedBaselineTransitionErrors | scripts/validate_architecture.py:6411-6530 | no problem exactly if every transition is sound and no id or hash repeats or is the adoption's |
| Enforcement.EnforcementModeErrors | scripts/validate_architecture.py:6575-6714 | no problem exactly if mode, policy, adoption and transitions are sound; strict mode leaves no violation and no baseline |
| Temporary.ExpandedTemporaryDeclarations | scripts/validate_architecture.py:6017-6209 | groups, nested and single declarations expand to the specified list, in order; problems exactly if an id repeats or a declaration is unsound |
| Temporary.MappingErrors | scripts/validate_architecture.py:6335-6382 | no problem exactly if every retained fingerprint has one fitting declaration and none is stale |
| Temporary.TemporaryViolationErrors | scripts/validate_architecture.py:6302-6408 | the same for the whole section, with its source, mapping policy and removal conditions |
| Temporary.OneDeclarationEach | scripts/validate_architecture.py:6335-6382 | sound declarations and retained entries correspond one to one |
| Gate.BadShapeIsAbsolute | scripts/validate_architecture.py:4281-4459 | a manifest whose contexts, tables or tombstones have the wrong shape always yields a violation that may not be retained |
| Gate.BalancedIff | scripts/validate_architecture.py:6773-6827 | nothing is reported exactly if no violation is absolute and the fingerprints of violations and entries are the same |
| Gate.BoundaryErrors | scripts/validate_architecture.py:6751-6827 | no error exactly if documents, balance, declarations and enforcement are all in order |
| Gate.PassesMatches | scripts/validate_architecture.py:6751-6827 | an error-free run has equal fingerprints of violations and baseline, and its entries correspond one to one to the expanded declarations |
| Widenings.ManifestSemanticWidenings | scripts/validate_architecture.py:6934-7216 | exactly the tokens of the specification, section by section |
| WideningChanges.TokensIff | scripts/validate_architecture.py:6934-7216 | for any two documents: the widenings can be told exactly if all migration paths can be walked over, and a token is then among them if and only if it is that of a difference between the documents: facade hash, new or grown context, kind, graph scope, ownership and access of a table, read model, migration exception, collaboration (a transaction that becomes required excepted), and a namespace rule removed, moved or loosened |
| Widenings.GrowthIsNamed | scripts/validate_architecture.py:6934-7216 | every dependency, facade, contract, namespace, owned module, event, table access, read-model grant, caller, operation or lifted prohibition that a step adds is named by its exact token |
| Widenings.OwnershipIsNamed | scripts/validate_architecture.py:7012-7018 | a table whose ownership changes is named with both values |
| Widenings.UnchangedWidensNothing | scripts/validate_architecture.py:6934-7216 | an unchanged manifest needs no review |
| Ratchet.CompareBoundaryBaselines | scripts/validate_architecture.py:7464-7613 | no error exactly if the step is allowed: nothing protected or strict grows, and the change is the reviewed one |
| Ratchet.ReviewedDeltaErrors | scripts/validate_architecture.py:7540-7613 | additions and removals equal those of the transition for this base, or additions equal the adoption for this base |
| Ratchet.ReviewedManifestTransitionErrors | scripts/validate_architecture.py:7219-7323 | no error exactly if all transitions are sound and for this base and approve what the step widens and no more |
| Ratchet.CompareBoundaryManifests | scripts/validate_architecture.py:7326-7461 | no error exactly if the widening is reviewed and status, tombstones, target, mode and activation are kept |
| GateMeaning.ReviewedIff | scripts/validate_architecture.py:7219-7323 | the widening is reviewed if and only if there is at most one transition, sound and for this base, and it approves a token exactly if that stands for a difference between the documents |
| GateMeaning.LoweredIff | scripts/validate_architecture.py:7378-7459 | nothing is lowered: status, tombstones, retired bindings, target, mode and activation, each read off the two documents |
| GateMeaning.ManifestStepIff | scripts/validate_architecture.py:7326-7461 | the comparison of the manifests in these terms |
| GateMeaning.FileIff | scripts/validate_architecture.py:5918-5970 | a baseline file is well formed if and only if version and policy are the required ones, every line has exactly four non-empty texts of which one is the fingerprint of the others, no fingerprint repeats, and the lines are in order of rule, path and detail |
| GateMeaning.TransitionIff | scripts/validate_architecture.py:6424-6530 | what a reviewed transition of the baseline has to say, field by field |
| GateMeaning.BaselineStepIff | scripts/validate_architecture.py:7464-7613 | the comparison of the baselines in terms of the lines of both files: nothing new under a protected rule, under a strict mode nothing new at all, and what is new or gone is what the transition, or the adoption, for this base says |
| GateMeaning.EnforcementIff | scripts/validate_architecture.py:6575-6714 | what one revision has to say about its enforcement: locked mode, policy with all its switches and contexts, adoption and transitions |
| GateMeaning.NeverRetainedIff | scripts/validate_architecture.py:5996-6014 | the rules whose violations may never be retained, by name, with those that the policy adds |
| GateMeaning.ExpandedIff | scripts/validate_architecture.py:6086-6158 | expanded, the section holds exactly the declarations that its items make: an item itself, one for each fingerprint that it lists with what the baseline says of it, or one for each violation that it nests with what that inherits |
| GateMeaning.ExactMappingIs | scripts/validate_architecture.py:28-54 | the mapping that a manifest with temporary violations has to declare, value by value but for the wording of its group policy |
| GateMeaning.DeclarationIff | scripts/validate_architecture.py:6175-6209 | a declaration of a temporary violation has its seven fields, all of them filled, and an accepted decision record |
| GateMeaning.CoreModuleIff | scripts/validate_architecture.py:4447 | a tombstone names the core with one or more capitalized segments behind dots |
| GateMeaning.NameLeqIff | scripts/validate_architecture.py:5968 | the order of names: the first difference decides, by code point, and a beginning comes before what it begins |
| Ratchet.StepMode | scripts/validate_architecture.py:7412-7459 | one accepted step never lowers the mode, and in the strict family the target is the mode |
| Ratchet.StepTombstones | scripts/validate_architecture.py:7378-7410 | one accepted step keeps all tombstones, whatever shape the base has |
| Ratchet.StepBaseline | scripts/validate_architecture.py:7506-7538 | one accepted step into the strict family adds nothing, into strict mode leaves nothing, and never adds a protected entry |
| Histories.NothingWeakens | scripts/validate_architecture.py:7326-7461 | along every run the mode rank never drops and enforcement, activation and tombstones never disappear |
| Histories.StrictFamilyShrinks | scripts/validate_architecture.py:7522-7538 | from a revision in the strict family on, the retained fingerprints only shrink |
| Histories.StrictStaysEmpty | scripts/validate_architecture.py:6597-6626 | from a strict revision on, baseline and violations stay empty |
| Histories.ProtectedNeverGrows | scripts/validate_architecture.py:119-124 | entries under the rules without new deferrals never grow along any run |
| Histories.BaselineGrowthIsReviewed | scripts/validate_architecture.py:7540-7613 | a fingerprint that a run adds was named for exactly that base at the step from which it stays, outside the strict family, and the step added exactly what was named |
| Histories.PermissionGrowthIsReviewed | scripts/validate_architecture.py:7219-7323 | a permission that a run adds was named by its token in the transition for exactly that base at the step from which it stays, which approved exactly what the step widened |
| Histories.WideningIsApproved | scripts/validate_architecture.py:7219-7323 | an accepted step approves exactly its widenings, with at most one transition |
| Histories.ResubmittedIff | scripts/validate_architecture.py:7295-7323 | an accepted revision is accepted again on itself exactly if it carries no manifest transition at all, and no baseline transition or adoption for its own baseline hash |
| Histories.RunsExist | scripts/validate_architecture.py:7464-7613 | there are runs of every length: the empty manifest and baseline are accepted on top of themselves |
| Witnesses.PermissionGrows | scripts/validate_architecture.py:7219-7323 | there is a run, with another hash for the changed manifest, in which a permission is granted under its reviewed transition, and its last revision, although it passes, is refused on top of itself |
| Witnesses.FingerprintGrows | scripts/validate_architecture.py:7540-7613 | for every violation that may be retained there is a run, with other hashes for the changed documents, that adds its fingerprint to the baseline under a reviewed transition |
| Facade.TokenRoundTrip | scripts/update_public_facade_api.py:41-42 | an operation token reads back as its operation exactly if its name is a function name |
| Facade.Classify | scripts/update_public_facade_api.py:54-108 | the loops collect exactly the public and the collaborating operations of every facade; with all exports known they succeed exactly if the release facade is owned |
| Facade.BuildSnapshot | scripts/update_public_facade_api.py:45-141 | a snapshot is built if and only if the release facade is owned and every owned facade has its exports; it then holds every owned facade, under its context, with three sorted lists that are the specified classes |
| FacadeMeaning.BuiltIff | scripts/update_public_facade_api.py:45-141 | a snapshot is built if and only if `CommsCore.Release` is owned and every owned facade has known exports |
| FacadeMeaning.PublicIff | scripts/update_public_facade_api.py:60-105 | public is what a module outside the core calls across owners and the facade exports, what a technical interface lists, and the operations of the release console by name |
| FacadeMeaning.CollaborationIff | scripts/update_public_facade_api.py:60-104 | collaborating is what a core module calls across owners, what a runtime collaboration lists and the facade exports, and what a read model queries |
| FacadeMeaning.SnapshotIff | scripts/update_public_facade_api.py:107-141 | the snapshot is complete if and only if it has every facade under the last context that lists it, with the names of exactly these operations, `name/arity` in order of name and arity |
| FacadeMeaning.FunctionNameIff | scripts/validate_architecture.py:3906-3917 | a function name is a small letter or underscore, then letters, digits and underscores, then at most one mark |
| Facade.GeneratedDisjoint | scripts/update_public_facade_api.py:110-139 | the three generated classes are always disjoint, exported or not |
| Facade.GeneratedValidIff | scripts/validate_architecture.py:4043-4111 | the validator accepts the generated classes (readable, disjoint, covering the exports) exactly if every public and every collaborating operation is exported |
| Facade.SnapshotValidIff | scripts/validate_architecture.py:3985-4098 | the validator accepts the whole generated snapshot (its contexts and modules exactly the declared ones, every entry valid) if and only if no facade is published by two contexts and all classified operations are exported |
| Facade.CrossCallAllowedIff | scripts/validate_architecture.py:4159-4181 | a call across owners to an exported operation is allowed exactly if the module is outside the core, has an owner, or the operation is public anyway |
| Polling.SuccessfulJobs | scripts/verify_release_gates.py:130-136 | succeeds exactly if the list is complete and every required job is there once and successful |
| Polling.LatestIsHighest | scripts/verify_release_gates.py:149 | the run that is inspected has the highest number |
| Polling.VerifyCi | scripts/verify_release_gates.py:139-158 | polls at most once at the start and once per started quarter of a minute, every poll but the last waits, and the last one decides |
| Polling.InspectMeans | scripts/verify_release_gates.py:144-155 | a poll that goes on to the jobs has found the completed, successful run of the exact revision with the highest number |
| Polling.AcceptedMeans | scripts/verify_release_gates.py:130-155 | a normal return means that run at the last poll, with each required job exactly once and successful |
| Polling.AcceptedRun | scripts/verify_release_gates.py:130-158 | so it means a pushed, completed and successful run of the main branch for this revision and repository, with each of the eight jobs, by name, there once and successful |
| PollingMeaning.PageIff | scripts/verify_release_gates.py:112-119 | an answer is read as this list of mappings exactly if it holds them under the key, counts them rightly, and there are a hundred at most |
| PollingMeaning.PollIff | scripts/verify_release_gates.py:122-155 | an answered poll waits exactly if no run is asked for or the newest one is not completed, goes on to the jobs exactly of a newest one that is completed, successful and has an attempt, and raises exactly if a run of the revision cannot be identified |
| PollingMeaning.UnansweredRejected | scripts/verify_release_gates.py:112-119 | a poll without a complete list of mappings is refused |
| PollingMeaning.JobsIff | scripts/verify_release_gates.py:112-136 | the jobs pass exactly if the answer lists them, with each of the eight names there once and successful |

## Left out

- Regular-expression recognition of Elixir calls, definitions, SQL and migrations: calls, exports, edges and the remaining violations of a revision are inputs.
- Files, YAML and JSON text, hashing, HTTP, clocks and percent-decoding: documents, hashes, answers and a clock that never runs backwards are inputs; a checkout answers for its decision records.
- Unicode tables: which characters are letters or lower case is a parameter of the lexer, and lower-casing is one of the polling gate.
- Dotted module names in `Aliases` are lists of segments; the text form, with its prefix test, appears in `Owners`.
- In-place removal of keys from a deep copy in the normalization of live objects: modelled as functions on values, so aliasing inside the copy is not captured.
- Controls.LiveControlMatchesExpected: for kinds other than Deployment and Job, and for metadata annotations, the verdict of their flat comparisons is a parameter; the checks of names, namespaces and duplicates on the way to a reviewed control are not part of this model.
- Python's equality of booleans with numbers, and the failure to hash a list where a name is expected: such values simply differ from every name, except among tombstones, where an unhashable member fails the comparison as in the original.
- Wording and order of messages, reports and the rendering of graphs.
- Gate.BoundaryErrors: of the analysis of a revision only the shapes of contexts, tables and tombstones are computed; what its sources add is an input, and so are the verdicts on discovered debt and on deferring a retained entry (the latter is `Deferrals.StrictDeferralRejectionReason` for cycle findings, given the contexts that are involved and the text of the finding).
- Histories.ProtectedNeverGrows: assumes that fingerprints are injective, which a truncated hash only approximates; all other results on histories do without.
- Aliases.EndsIff: only for tables in which `Elixir` is neither an alias nor a whole target, for the reason shown by `AliasExamples.BarePrefixGrows`.
- Aliases.AllEndIff: the same.
- AliasExpansion.ModuleAliases: for tables in which `Elixir` is an alias or a whole target, or in which a resolution does not end, it only says that every entry is what following its alias gives.
- Facade.SnapshotValidIff: assumes that a context is listed once, as the keys of a mapping are; the version of the snapshot file is not part of this model.
- Facade.GeneratedValidIff: assumes that exported names are function names, which the recognition of definitions guarantees; the checks of type specifications and of calls by capture are not part of this model.
- Topology.ValidateApplicationTopology: reading the raw documents into records is not part of this model, so malformed documents appear only as duplicate records and unknown selector operators.
- Polling.VerifyCi: the search for staging evidence after the pipeline gate is not part of this model.
- The gates on local releases, Proxmox bundles, operational assets, documents, Compose exposure and history secrets, and the feature checks of the API documents: long conjunctions without an algorithm.
