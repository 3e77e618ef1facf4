/** The ratchet: a revision against its base, and what one accepted step keeps. */
module Ratchet {
  import opened Baseline
  import opened Documents
  import opened Enforcement
  import opened Findings
  import opened Gate
  import opened Json
  import opened Temporary
  import opened Widenings
  import opened Wrappers

  function ManifestOf(r: Revision): Map {
    if r.manifest.Parsed? then r.manifest.fields else map[]
  }

  /** The enforcement section; empty where it is no mapping. */
  function Settings(r: Revision): Map {
    Fields(EnforcementOf(ManifestOf(r)))
  }

  function Retained(fp: Violation -> Fingerprint, r: Revision): set<Fingerprint> {
    Fingerprints(fp, Loaded(r.baseline))
  }

  // ----- Baselines

  /** The declarations that were made for the base with this hash. */
  function For(items: seq<Value>, key: string, hash: string): seq<Value> {
    if |items| == 0 then []
    else (if Get(Fields(items[0]), key) == Text(hash) then [items[0]] else []) + For(items[1..], key, hash)
  }

  function ForBase(e: Map, hash: string): seq<Value> {
    For(Items(Get(e, "reviewed_baseline_transitions")), "previous_baseline_sha256", hash)
  }

  /** The fingerprints that the adoption allows on top of the base with this hash. */
  function Adopted(e: Map, hash: string): set<Fingerprint> {
    if AdoptionHash(e) == Text(hash) then Strings(Get(Fields(Get(e, "baseline_adoption")), "allowed_discovery_fingerprints"))
    else {}
  }

  /** The change of the baseline is the reviewed one: that of the transition for this base, else growth by
      exactly the adoption. */
  predicate ReviewedDelta(e: Map, hash: string, added: set<Fingerprint>, removed: set<Fingerprint>) {
    if ForBase(e, hash) != [] then
      var transition := Fields(ForBase(e, hash)[0]);
      added == Strings(Get(transition, "added_fingerprints")) && removed == Strings(Get(transition, "removed_fingerprints"))
    else added == Adopted(e, hash)
  }

  function NewlyRetained(fp: Violation -> Fingerprint, base: Revision, current: Revision): set<Fingerprint> {
    Retained(fp, current) - Retained(fp, base)
  }

  /** What an error-free comparison of the baselines says. */
  ghost predicate BaselineStep(fp: Violation -> Fingerprint, base: Revision, current: Revision) {
    && base.baseline.Parsed? && WellFormed(fp, base.baseline.fields)
    && current.baseline.Parsed? && WellFormed(fp, current.baseline.fields)
    && !current.manifest.Unreadable?
    && EnforcementOf(ManifestOf(current)).Object? && ActivationLockErrors(ManifestOf(current)) == {}
    && SoundTransitions(Settings(current), current.checkout.localAdr)
    && (forall v :: v in Loaded(current.baseline) && v.rule in ProtectedRules(Settings(current)) ==>
          fp(v) !in NewlyRetained(fp, base, current))
    && (Rank(Mode(Settings(current))) >= 1 ==> NewlyRetained(fp, base, current) == {})
    && GetOr(Settings(current), "reviewed_baseline_transitions", List([])).List?
    && ReviewedDelta(Settings(current), base.baselineHash, NewlyRetained(fp, base, current),
                     Retained(fp, base) - Retained(fp, current))
  }

  /** `compare_boundary_baselines` */
  method CompareBoundaryBaselines(fp: Violation -> Fingerprint, base: Revision, current: Revision)
    returns (problems: set<Problem>)
    ensures problems == {} <==> BaselineStep(fp, base, current)
  {
    hide WellFormed, Entries, SoundTransitions, ActivationLockErrors, ReviewedDelta, Fingerprints, ProtectedRules;
    var currentEntries, currentProblems := LoadBaseline(fp, current.baseline);
    var baseEntries, baseProblems := LoadBaseline(fp, base.baseline);
    problems := currentProblems + baseProblems;
    if current.baseline.Missing? || base.baseline.Missing? {
      problems := problems + {MissingFile};
    }
    if problems != {} {
      return;
    }
    var added := Fingerprints(fp, currentEntries) - Fingerprints(fp, baseEntries);
    if current.manifest.Unreadable? {
      return {Raised};
    }
    var m := ManifestOf(current);
    if !EnforcementOf(m).Object? {
      return {BadShape("enforcement")};
    }
    var e := EnforcementOf(m).fields;
    if ActivationLockErrors(m) != {} {
      return ActivationLockErrors(m);
    }
    var transitions := ReviewedBaselineTransitionErrors(e, current.checkout.localAdr);
    if transitions != {} {
      return transitions;
    }
    problems := set v | v in currentEntries && v.rule in ProtectedRules(e) && fp(v) in added :: ProtectedGrowth(v);
    assert forall v :: v in currentEntries && v.rule in ProtectedRules(e) && fp(v) in added ==> ProtectedGrowth(v) in problems;
    ghost var unprotected := problems == {};
    if Rank(Mode(e)) >= 1 {
      var strict := set v | v in currentEntries && fp(v) in added && v.rule !in ProtectedRules(e) :: StrictGrowth(v);
      StrictGrowthIff(fp, currentEntries, added, ProtectedRules(e), strict, problems);
      problems := problems + strict;
    }
    if problems != {} {
      return;
    }
    if !GetOr(e, "reviewed_baseline_transitions", List([])).List? {
      return {Raised};
    }
    var removed := Fingerprints(fp, baseEntries) - Fingerprints(fp, currentEntries);
    problems := ReviewedDeltaErrors(fp, e, base.baselineHash, currentEntries, added, removed);
  }

  /** The last part of the comparison: the delta against the review for this base. */
  method ReviewedDeltaErrors(fp: Violation -> Fingerprint, e: Map, hash: string, entries: seq<Violation>,
                             added: set<Fingerprint>, removed: set<Fingerprint>)
    returns (problems: set<Problem>)
    requires added <= Fingerprints(fp, entries)
    ensures problems == {} <==> ReviewedDelta(e, hash, added, removed)
  {
    hide ForBase, Fingerprints, Adopted;
    var matching := ForBase(e, hash);
    if matching != [] {
      var transition := Fields(matching[0]);
      problems := DeltaErrors(added, Strings(Get(transition, "added_fingerprints"))) +
                  DeltaErrors(removed, Strings(Get(transition, "removed_fingerprints")));
      SameSet(added, Strings(Get(transition, "added_fingerprints")));
      SameSet(removed, Strings(Get(transition, "removed_fingerprints")));
    } else {
      var adopted := Adopted(e, hash);
      problems := (set f | f in adopted - added :: Stale(f)) +
                  (set v | v in entries && fp(v) in added - adopted :: Grew(v));
      AdoptionIff(fp, entries, added, adopted, problems);
    }
  }

  /** `append_delta_errors` */
  function DeltaErrors(actual: set<string>, declared: set<string>): set<Problem> {
    (set item | item in actual - declared :: Undeclared(item)) + (set item | item in declared - actual :: Stale(item))
  }

  lemma SameSet(actual: set<string>, declared: set<string>)
    ensures DeltaErrors(actual, declared) == {} <==> actual == declared
  {
    var problems := DeltaErrors(actual, declared);
    forall item
      ensures item in actual && item !in declared ==> Undeclared(item) in problems
      ensures item in declared && item !in actual ==> Stale(item) in problems
    {
      assert item in actual - declared <==> item in actual && item !in declared;
      assert item in declared - actual <==> item in declared && item !in actual;
    }
    if problems == {} {
      forall item ensures item in actual <==> item in declared {
        assert Undeclared(item) !in problems && Stale(item) !in problems;
      }
    }
  }

  lemma StrictGrowthIff(fp: Violation -> Fingerprint, entries: seq<Violation>, added: set<Fingerprint>,
                        guarded: set<string>, strict: set<Problem>, others: set<Problem>)
    requires added <= Fingerprints(fp, entries)
    requires strict == set v | v in entries && fp(v) in added && v.rule !in guarded :: StrictGrowth(v)
    requires others == {} ==> forall v :: v in entries && v.rule in guarded ==> fp(v) !in added
    ensures others == {} ==> (strict == {} <==> added == {})
  {
    assert forall v :: v in entries && fp(v) in added && v.rule !in guarded ==> StrictGrowth(v) in strict;
    forall f | f in added ensures exists v :: v in entries && fp(v) == f {
    }
  }

  lemma AdoptionIff(fp: Violation -> Fingerprint, entries: seq<Violation>, added: set<Fingerprint>,
                    adopted: set<Fingerprint>, problems: set<Problem>)
    requires added <= Fingerprints(fp, entries)
    requires problems == (set f | f in adopted - added :: Stale(f)) +
                         (set v | v in entries && fp(v) in added - adopted :: Grew(v))
    ensures problems == {} <==> added == adopted
  {
    assert forall f :: f in adopted - added ==> Stale(f) in problems;
    assert forall v :: v in entries && fp(v) in added - adopted ==> Grew(v) in problems;
    forall f | f in added ensures exists v :: v in entries && fp(v) == f {
    }
    if problems == {} {
      forall f | f in adopted ensures f in added {
        assert f in adopted - added || f in added;
        assert Stale(f) !in problems;
      }
      forall f | f in added ensures f in adopted {
        var v :| v in entries && fp(v) == f;
        assert Grew(v) !in problems;
      }
    }
  }

  // ----- Manifests

  const REVIEW_FIELDS: set<string> := {"id", "previous_manifest_sha256", "approved_changes", "adr", "removal_condition"}

  predicate SoundReview(t: Value, acceptedAdr: Value -> bool) {
    && t.Object? && t.fields.Keys == REVIEW_FIELDS
    && Filled(t.fields["id"]) && Hex(t.fields["previous_manifest_sha256"], 64)
    && AllTexts(t.fields["approved_changes"]) && t.fields["approved_changes"].items != []
    && Text("") !in t.fields["approved_changes"].items && SortedUnique(t.fields["approved_changes"])
    && acceptedAdr(t.fields["adr"]) && Filled(t.fields["removal_condition"])
  }

  function Reviews(e: Map): Value {
    GetOr(e, "reviewed_manifest_transitions", List([]))
  }

  /** The tokens that the first reviewed transition approves. */
  function Approved(e: Map): set<string> {
    if Items(Reviews(e)) == [] then {} else Strings(Get(Fields(Items(Reviews(e))[0]), "approved_changes"))
  }

  predicate SoundReviews(items: seq<Value>, acceptedAdr: Value -> bool) {
    && (forall t :: t in items ==> SoundReview(t, acceptedAdr))
    && DistinctBy(items, "id") && DistinctBy(items, "previous_manifest_sha256")
  }

  predicate ForThisBase(items: seq<Value>, hash: string) {
    forall t :: t in items ==> Get(Fields(t), "previous_manifest_sha256") == Text(hash)
  }

  /** Every widening is approved by a sound transition for exactly this base, and nothing else is. */
  ghost predicate ReviewedWidening(r: Rendering, base: Map, hash: string, current: Map, acceptedAdr: Value -> bool) {
    && EnforcementOf(current).Object?
    && var e := EnforcementOf(current).fields;
       && Reviews(e).List? && SoundReviews(Reviews(e).items, acceptedAdr) && ForThisBase(Reviews(e).items, hash)
       && AllGrowth(r, base, current) == Some(Approved(e))
  }

  method SoundTransitionsOnly(raw: seq<Value>, acceptedAdr: Value -> bool)
    returns (transitions: seq<Value>, problems: set<Problem>)
    ensures problems == {} <==> SoundReviews(raw, acceptedAdr)
    ensures problems == {} ==> transitions == raw
  {
    hide SoundReview, DistinctBy;
    transitions, problems := [], {};
    var ids: set<Value>, hashes: set<Value> := {}, {};
    NothingRepeats("id");
    NothingRepeats("previous_manifest_sha256");
    for i := 0 to |raw|
      invariant problems == {} <==> SoundReviews(raw[..i], acceptedAdr)
      invariant problems == {} ==> transitions == raw[..i]
      invariant problems == {} ==> ids == set t | t in raw[..i] :: Get(Fields(t), "id")
      invariant problems == {} ==> hashes == set t | t in raw[..i] :: Get(Fields(t), "previous_manifest_sha256")
    {
      var transition := raw[i];
      assert raw[..i + 1] == raw[..i] + [transition];
      DistinctByAppend(raw[..i], transition, "id");
      DistinctByAppend(raw[..i], transition, "previous_manifest_sha256");
      var id, hash := Get(Fields(transition), "id"), Get(Fields(transition), "previous_manifest_sha256");
      if SoundReview(transition, acceptedAdr) && id !in ids && hash !in hashes {
        transitions := transitions + [transition];
      } else {
        problems := problems + {BadTransition(i)};
      }
      ids, hashes := ids + {id}, hashes + {hash};
    }
    assert raw[..|raw|] == raw;
  }

  /** `_reviewed_manifest_transition_errors` */
  method ReviewedManifestTransitionErrors(r: Rendering, base: Map, hash: string, current: Map, acceptedAdr: Value -> bool)
    returns (problems: set<Problem>)
    ensures problems == {} <==> ReviewedWidening(r, base, hash, current, acceptedAdr)
  {
    hide SoundReviews, AllGrowth, Strings;
    if !EnforcementOf(current).Object? {
      return {BadShape("enforcement")};
    }
    var e := EnforcementOf(current).fields;
    if !Reviews(e).List? {
      return {BadShape("reviewed_manifest_transitions")};
    }
    var transitions;
    transitions, problems := SoundTransitionsOnly(Reviews(e).items, acceptedAdr);
    ghost var sound := problems == {};
    var matching := [];
    for i := 0 to |transitions|
      invariant problems == {} <==> sound && ForThisBase(transitions[..i], hash)
      invariant problems == {} ==> matching == transitions[..i]
    {
      assert transitions[..i + 1] == transitions[..i] + [transitions[i]];
      if Get(Fields(transitions[i]), "previous_manifest_sha256") == Text(hash) {
        matching := matching + [transitions[i]];
      } else {
        problems := problems + {Stale("previous_manifest_sha256")};
      }
    }
    assert transitions[..|transitions|] == transitions;
    var growth := ManifestSemanticWidenings(r, base, current);
    if growth.None? {
      return problems + {Raised};
    }
    var declared := if matching == [] then {} else Strings(Get(Fields(matching[0]), "approved_changes"));
    SameSet(growth.value, declared);
    problems := problems + DeltaErrors(growth.value, declared);
  }

  function RetiredKeys(m: Map): set<(string, string)> {
    set d | d in Items(RetiredBindings(m)) && Get(Fields(d), "application").Text? && Get(Fields(d), "key").Text? ::
      (Get(Fields(d), "application").s, Get(Fields(d), "key").s)
  }

  /** Members of a Python set. */
  predicate Hashable(v: Value) {
    !v.List? && !v.Object?
  }

  predicate TombstonesKept(base: Value, current: Value) {
    base.List? && current.List? ==>
      && (forall v :: v in base.items + current.items ==> Hashable(v))
      && forall v :: v in base.items ==> v in current.items
  }

  /** Where the base is in the strict family the mode only moves towards strict. */
  predicate ModeKept(base: Value, current: Value) {
    && (base == STRICT ==> current == STRICT)
    && (base == DEFERRALS ==> current == STRICT || current == DEFERRALS)
  }

  ghost predicate NotWeakened(base: Map, current: Map, be: Map, ce: Map) {
    && (Get(base, "status") == Text("enforced") ==> Get(current, "status") == Text("enforced"))
    && TombstonesKept(RetiredModules(base), RetiredModules(current))
    && RetiredKeys(base) <= RetiredKeys(current)
    && (Rank(Target(be)) >= 1 ==> Rank(Target(ce)) >= Rank(Target(be)))
    && ModeKept(Mode(be), Mode(ce))
    && (Active(be) ==> Active(ce) || Mode(ce) == STRICT)
  }

  /** What an error-free comparison of the manifests says. */
  ghost predicate ManifestStep(r: Rendering, base: Revision, current: Revision) {
    && base.manifest.Parsed? && current.manifest.Parsed?
    && ReviewedWidening(r, base.manifest.fields, base.manifestHash, current.manifest.fields, current.checkout.acceptedAdr)
    && EnforcementOf(base.manifest.fields).Object? && EnforcementOf(current.manifest.fields).Object?
    && NotWeakened(base.manifest.fields, current.manifest.fields, Settings(base), Settings(current))
  }

  /** `compare_boundary_manifests` */
  method CompareBoundaryManifests(r: Rendering, base: Revision, current: Revision) returns (problems: set<Problem>)
    ensures problems == {} <==> ManifestStep(r, base, current)
  {
    hide ReviewedWidening, RetiredKeys, TombstonesKept, Active;
    if !base.manifest.Parsed? || !current.manifest.Parsed? {
      return {MissingFile};
    }
    var b, c := base.manifest.fields, current.manifest.fields;
    problems := ReviewedManifestTransitionErrors(r, b, base.manifestHash, c, current.checkout.acceptedAdr);
    if !EnforcementOf(c).Object? || !EnforcementOf(b).Object? {
      return problems + {BadShape("enforcement")};
    }
    var be, ce := EnforcementOf(b).fields, EnforcementOf(c).fields;
    if Get(b, "status") == Text("enforced") && Get(c, "status") != Text("enforced") {
      problems := problems + {Weakened("status")};
    }
    if !TombstonesKept(RetiredModules(b), RetiredModules(c)) {
      problems := problems + {Weakened("retired_modules")};
    }
    if !(RetiredKeys(b) <= RetiredKeys(c)) {
      problems := problems + {Weakened("retired_runtime_bindings")};
    }
    if Rank(Target(be)) >= 1 && Rank(Target(ce)) < Rank(Target(be)) {
      problems := problems + {Weakened("target_mode")};
    }
    if Mode(be) == STRICT && Mode(ce) != STRICT {
      problems := problems + {Weakened("mode")};
    } else if Mode(be) == DEFERRALS && Mode(ce) != STRICT && Mode(ce) != DEFERRALS {
      problems := problems + {Weakened("mode")};
    }
    if Active(be) && !Active(ce) && Mode(ce) != STRICT {
      problems := problems + {Weakened("active")};
    }
  }

  // ----- Runs

  /** The current revision is accepted on top of its base. */
  ghost predicate Step(fp: Violation -> Fingerprint, r: Rendering, base: Revision, current: Revision) {
    Passes(fp, current) && BaselineStep(fp, base, current) && ManifestStep(r, base, current)
  }

  /** The `i`-th revision was accepted on top of the one before. */
  ghost predicate Accepted(fp: Violation -> Fingerprint, r: Rendering, h: seq<Revision>, i: nat)
    requires 0 < i < |h|
  {
    hide *;
    Step(fp, r, h[i - 1], h[i])
  }

  /** A history whose every revision but the first was accepted. */
  ghost predicate Run(fp: Violation -> Fingerprint, r: Rendering, h: seq<Revision>) {
    hide *;
    forall i | 0 < i < |h| :: Accepted(fp, r, h, i)
  }

  function ModeRank(r: Revision): int {
    Rank(Mode(Settings(r)))
  }

  predicate Enforced(r: Revision) {
    Get(ManifestOf(r), "status") == Text("enforced")
  }

  function Tombstones(r: Revision): set<string> {
    Strings(RetiredModules(ManifestOf(r)))
  }

  function Violating(r: Revision): seq<Violation> {
    Analyzed(ManifestOf(r), r.checkout.found)
  }

  // ----- What one step keeps

  lemma StepMode(fp: Violation -> Fingerprint, r: Rendering, base: Revision, current: Revision)
    requires Step(fp, r, base, current)
    ensures ModeRank(base) <= ModeRank(current) && ModeRank(current) >= 0
    ensures ModeRank(current) >= 1 ==> Target(Settings(current)) == Mode(Settings(current))
    ensures Enforced(base) ==> Enforced(current)
    ensures Active(Settings(base)) ==> Active(Settings(current)) || ModeRank(current) == 2
  {
    hide WellFormed, Balanced, SoundTemporary, SoundTransitions, SoundMode, SoundDeferralContexts, SoundAdoption,
         ReviewedWidening, ReviewedDelta, TombstonesKept, RetiredKeys, Fingerprints, ProtectedRules, Analyzed,
         NON_BASELINABLE;
    ActivationLock(ManifestOf(current));
  }

  /** An accepted revision has no violation that may not be retained; so its lists of tombstones are lists. */
  lemma PassesShapes(fp: Violation -> Fingerprint, current: Revision)
    requires Passes(fp, current)
    ensures SoundRetiredModules(RetiredModules(ManifestOf(current)))
    ensures SoundRetiredBindings(RetiredBindings(ManifestOf(current)))
  {
    hide WellFormed, SoundTemporary, SoundEnforcement, SoundRetiredModules, SoundRetiredBindings, Fingerprints,
         Analyzed, Entries, ReadEntries;
    if !SoundShapes(current.manifest.fields) {
      var v := BadShapeIsAbsolute(current.manifest.fields, current.checkout.found);
    }
  }

  lemma StepParts(fp: Violation -> Fingerprint, r: Rendering, base: Revision, current: Revision)
    requires Step(fp, r, base, current)
    ensures Passes(fp, current) && BaselineStep(fp, base, current) && ManifestStep(r, base, current)
  {
    hide Passes, BaselineStep, ManifestStep;
  }

  lemma StepTombstones(fp: Violation -> Fingerprint, r: Rendering, base: Revision, current: Revision)
    requires Step(fp, r, base, current)
    ensures Tombstones(base) <= Tombstones(current)
    ensures RetiredKeys(ManifestOf(base)) <= RetiredKeys(ManifestOf(current))
  {
    hide Step, Passes, BaselineStep, ManifestStep, RetiredModules, RetiredBindings, RetiredKeys, TombstonesKept, Strings,
         SortedUnique, CoreModule, ManifestOf, SoundRetiredBindings;
    StepParts(fp, r, base, current);
    PassesShapes(fp, current);
    TombstonesCompared(fp, r, base, current);
    KeptStrings(RetiredModules(ManifestOf(base)), RetiredModules(ManifestOf(current)));
  }

  lemma TombstonesCompared(fp: Violation -> Fingerprint, r: Rendering, base: Revision, current: Revision)
    requires Step(fp, r, base, current)
    ensures TombstonesKept(RetiredModules(ManifestOf(base)), RetiredModules(ManifestOf(current)))
    ensures RetiredKeys(ManifestOf(base)) <= RetiredKeys(ManifestOf(current))
  {
    hide Passes, BaselineStep, ReviewedWidening, RetiredKeys, ModeKept, Active, Rank, TombstonesKept, RetiredModules;
  }

  lemma KeptStrings(base: Value, current: Value)
    requires TombstonesKept(base, current) && current.List?
    ensures Strings(base) <= Strings(current)
  {
  }

  lemma StepStrict(fp: Violation -> Fingerprint, current: Revision)
    requires Passes(fp, current)
    ensures ModeRank(current) == 2 ==> Loaded(current.baseline) == [] && Violating(current) == []
  {
    hide WellFormed, Balanced, SoundTemporary, SoundTransitions, SoundDeferralContexts, SoundAdoption, Analyzed,
         ActivationLockErrors, Entries, NON_BASELINABLE;
    if ModeRank(current) == 2 {
      assert Mode(Settings(current)) == STRICT;
      assert SoundMode(Settings(current), Violating(current), Loaded(current.baseline),
                       Get(ManifestOf(current), "temporary_violations"));
    }
  }

  lemma StepBaseline(fp: Violation -> Fingerprint, r: Rendering, base: Revision, current: Revision)
    requires Step(fp, r, base, current)
    ensures ModeRank(current) >= 1 ==> Retained(fp, current) <= Retained(fp, base)
    ensures ModeRank(current) == 2 ==> Loaded(current.baseline) == [] && Violating(current) == []
    ensures ReviewedDelta(Settings(current), base.baselineHash, NewlyRetained(fp, base, current),
                          Retained(fp, base) - Retained(fp, current))
    ensures forall v :: v in Loaded(current.baseline) && v.rule in NO_NEW_DEFERRALS ==> fp(v) in Retained(fp, base)
  {
    hide *;
    StepParts(fp, r, base, current);
    StepStrict(fp, current);
    BaselineParts(fp, base, current);
    NothingNewIsSmaller(Retained(fp, current), Retained(fp, base));
    ProtectedStays(fp, base, current);
  }

  lemma BaselineParts(fp: Violation -> Fingerprint, base: Revision, current: Revision)
    requires BaselineStep(fp, base, current)
    ensures ModeRank(current) >= 1 ==> Retained(fp, current) - Retained(fp, base) == {}
    ensures ReviewedDelta(Settings(current), base.baselineHash, NewlyRetained(fp, base, current),
                          Retained(fp, base) - Retained(fp, current))
  {
    hide SoundTransitions, ReviewedDelta, ActivationLockErrors, Retained, Loaded, NON_BASELINABLE, ProtectedRules;
  }

  lemma NothingNewIsSmaller(current: set<Fingerprint>, base: set<Fingerprint>)
    ensures current - base == {} ==> current <= base
  {
    assert forall f :: f in current ==> f in base || f in current - base;
  }

  lemma ProtectedStays(fp: Violation -> Fingerprint, base: Revision, current: Revision)
    requires BaselineStep(fp, base, current)
    ensures forall v :: v in Loaded(current.baseline) && v.rule in NO_NEW_DEFERRALS ==> fp(v) in Retained(fp, base)
  {
    hide WellFormed, SoundTransitions, ReviewedDelta, ActivationLockErrors, Loaded, NON_BASELINABLE;
    forall v | v in Loaded(current.baseline) && v.rule in NO_NEW_DEFERRALS ensures fp(v) in Retained(fp, base) {
      assert v.rule in ProtectedRules(Settings(current));
      assert fp(v) in Retained(fp, current);
    }
  }
}
