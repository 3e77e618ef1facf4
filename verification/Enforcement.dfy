/** The enforcement section of the boundary manifest: modes, the activation lock, and the shape of reviewed
    baseline transitions. */
module Enforcement {
  import opened Documents
  import opened Findings
  import opened Json

  const BASELINE := Text("baseline")
  const DEFERRALS := Text("strict_with_explicit_deferrals")
  const STRICT := Text("strict")

  /** `ENFORCEMENT_MODE_RANK.get(mode, -1)` */
  function Rank(mode: Value): int {
    if mode == BASELINE then 0 else if mode == DEFERRALS then 1 else if mode == STRICT then 2 else -1
  }

  function EnforcementOf(m: Map): Value {
    GetOr(m, "enforcement", Object(map[]))
  }

  function Mode(e: Map): Value {
    GetOr(e, "mode", BASELINE)
  }

  function Target(e: Map): Value {
    Get(e, "target_mode")
  }

  function StrictPolicy(e: Map): Value {
    Get(e, "strict_with_explicit_deferrals")
  }

  predicate Active(e: Map) {
    Get(Fields(StrictPolicy(e)), "active") == Bool(true)
  }

  /** `_configured_rule_policy`: the rules that may not be retained at all. */
  function AbsoluteRules(e: Map): set<string> {
    NON_BASELINABLE + Strings(Get(Fields(StrictPolicy(e)), "non_baselinable_rules"))
  }

  /** `_configured_rule_policy`: the rules under which nothing new may be deferred. */
  function ProtectedRules(e: Map): set<string> {
    NO_NEW_DEFERRALS + Strings(Get(Fields(StrictPolicy(e)), "no_new_deferrals_for_rules"))
  }

  // ----- The activation lock

  predicate ActivationDeclared(m: Map, e: Map) {
    Get(m, "status") == Text("enforced") || Target(e) != Null || Mode(e) == STRICT || Mode(e) == DEFERRALS || Active(e)
  }

  /** `_activation_lock_errors` */
  function ActivationLockErrors(m: Map): set<Problem> {
    if !EnforcementOf(m).Object? then {BadShape("enforcement")}
    else
      var e := EnforcementOf(m).fields;
      (if Target(e) != Null && Rank(Target(e)) < 0 then {BadMode} else {}) +
      (if ActivationDeclared(m, e) && (Rank(Target(e)) < 1 || Mode(e) != Target(e)) then {BadActivation} else {})
  }

  /** The lock holds exactly when nothing is activated or the mode is the declared strict target. */
  lemma ActivationLock(m: Map)
    ensures ActivationLockErrors(m) == {} <==>
              && EnforcementOf(m).Object?
              && var e := EnforcementOf(m).fields;
                 if Rank(Mode(e)) >= 1 then Target(e) == Mode(e)
                 else Get(m, "status") != Text("enforced") && Target(e) == Null && !Active(e)
  {
  }

  // ----- Reviewed baseline transitions

  const TRANSITION_FIELDS: set<string> :=
    {"id", "previous_baseline_sha256", "added_fingerprints", "removed_fingerprints", "adr", "removal_condition"}

  /** A list of fingerprints that is sorted and unique. */
  predicate FingerprintList(v: Value) {
    v.List? && (forall item :: item in v.items ==> Hex(item, 16)) && SortedUnique(v)
  }

  /** One transition on its own; `localAdr` is the check of the path of its decision record. */
  predicate SoundTransition(v: Value, localAdr: string -> bool) {
    && v.Object? && v.fields.Keys == TRANSITION_FIELDS
    && Filled(v.fields["id"]) && Hex(v.fields["previous_baseline_sha256"], 64)
    && FingerprintList(v.fields["added_fingerprints"]) && FingerprintList(v.fields["removed_fingerprints"])
    && Strings(v.fields["added_fingerprints"]) + Strings(v.fields["removed_fingerprints"]) != {}
    && Strings(v.fields["added_fingerprints"]) !! Strings(v.fields["removed_fingerprints"])
    && Filled(v.fields["adr"]) && localAdr(v.fields["adr"].s)
    && Filled(v.fields["removal_condition"])
  }

  function AdoptionHash(e: Map): Value {
    Get(Fields(Get(e, "baseline_adoption")), "previous_baseline_sha256")
  }

  /** No two declarations have the same value under `key`. */
  predicate DistinctBy(items: seq<Value>, key: string) {
    forall i, j :: 0 <= i < j < |items| ==> Get(Fields(items[i]), key) != Get(Fields(items[j]), key)
  }

  lemma DistinctByAppend(items: seq<Value>, item: Value, key: string)
    ensures DistinctBy(items + [item], key) <==>
            DistinctBy(items, key) && forall other :: other in items ==> Get(Fields(other), key) != Get(Fields(item), key)
  {
    var all := items + [item];
    assert all[|items|] == item && forall i :: 0 <= i < |items| ==> all[i] == items[i];
  }

  predicate SoundTransitions(e: Map, localAdr: string -> bool) {
    var transitions := Get(e, "reviewed_baseline_transitions");
    transitions != Null ==>
    && transitions.List?
    && (forall t :: t in transitions.items ==> SoundTransition(t, localAdr))
    && DistinctBy(transitions.items, "id") && DistinctBy(transitions.items, "previous_baseline_sha256")
    && forall t :: t in transitions.items ==> Get(Fields(t), "previous_baseline_sha256") != AdoptionHash(e)
  }

  /** `_reviewed_baseline_transition_errors` */
  method ReviewedBaselineTransitionErrors(e: Map, localAdr: string -> bool) returns (problems: set<Problem>)
    ensures problems == {} <==> SoundTransitions(e, localAdr)
  {
    hide SoundTransition, DistinctBy;
    var transitions := Get(e, "reviewed_baseline_transitions");
    if transitions == Null {
      return {};
    }
    if !transitions.List? {
      return {BadShape("reviewed_baseline_transitions")};
    }
    problems := {};
    NothingRepeats("id");
    NothingRepeats("previous_baseline_sha256");
    var ids: set<Value>, hashes: set<Value> := {}, {};
    for i := 0 to |transitions.items|
      invariant ids == set t | t in transitions.items[..i] :: Get(Fields(t), "id")
      invariant hashes == set t | t in transitions.items[..i] :: Get(Fields(t), "previous_baseline_sha256")
      invariant problems == {} <==>
                  && (forall t :: t in transitions.items[..i] ==> SoundTransition(t, localAdr))
                  && DistinctBy(transitions.items[..i], "id")
                  && DistinctBy(transitions.items[..i], "previous_baseline_sha256")
                  && forall t :: t in transitions.items[..i] ==> Get(Fields(t), "previous_baseline_sha256") != AdoptionHash(e)
    {
      var transition := transitions.items[i];
      var id, hash := Get(Fields(transition), "id"), Get(Fields(transition), "previous_baseline_sha256");
      assert transitions.items[..i + 1] == transitions.items[..i] + [transition];
      DistinctByAppend(transitions.items[..i], transition, "id");
      DistinctByAppend(transitions.items[..i], transition, "previous_baseline_sha256");
      if !SoundTransition(transition, localAdr) || id in ids || hash in hashes || hash == AdoptionHash(e) {
        problems := problems + {BadTransition(i)};
      }
      ids, hashes := ids + {id}, hashes + {hash};
    }
    assert transitions.items[..|transitions.items|] == transitions.items;
  }

  lemma NothingRepeats(key: string)
    ensures DistinctBy([], key)
  {
  }

  // ----- The mode

  /** Strict mode leaves nothing behind, and the other modes are configured as they promise. */
  predicate SoundMode(e: Map, violations: seq<Violation>, retained: seq<Violation>, temporary: Value) {
    var policy := StrictPolicy(e);
    && (Mode(e) == STRICT ==>
          violations == [] && retained == [] && temporary == Null && Get(e, "baseline_adoption") == Null && policy == Null)
    && (policy == Null || policy.Object?)
    && (Mode(e) == DEFERRALS && policy.Object? ==>
          Active(e) && forall i :: 0 <= i < |POLICY_SWITCHES| ==> Get(policy.fields, POLICY_SWITCHES[i]) == Bool(true))
  }

  const POLICY_SWITCHES := ["exact_mapping", "reject_missing_declarations", "reject_stale_declarations",
                            "reject_duplicate_fingerprints", "require_base_branch_no_growth",
                            "require_deterministic_report"]

  /** The contexts whose findings may be deferred are declared, listed once and in order. */
  predicate SoundDeferralContexts(e: Map, contexts: Value) {
    var allowed := Get(Fields(StrictPolicy(e)), "allowed_deferral_contexts");
    Mode(e) == DEFERRALS && StrictPolicy(e).Object? ==>
      && AllTexts(allowed) && allowed.items != [] && Text("") !in allowed.items && SortedUnique(allowed)
      && (contexts.Object? ==> Strings(allowed) <= contexts.fields.Keys)
  }

  predicate SoundAdoption(e: Map) {
    var adoption := Get(e, "baseline_adoption");
    adoption != Null ==>
    && adoption.Object? && Hex(Get(adoption.fields, "previous_baseline_sha256"), 64)
    && FingerprintList(Get(adoption.fields, "allowed_discovery_fingerprints"))
    && Get(adoption.fields, "allowed_discovery_fingerprints").items != []
    && Filled(Get(adoption.fields, "removal_condition"))
  }

  /** What the gate asks of the enforcement section in the current revision. */
  predicate SoundEnforcement(m: Map, violations: seq<Violation>, retained: seq<Violation>, localAdr: string -> bool) {
    && EnforcementOf(m).Object?
    && var e := EnforcementOf(m).fields;
       && Rank(Mode(e)) >= 0 && ActivationLockErrors(m) == {}
       && GetOr(e, "reject_new_violations", Bool(true)) == Bool(true)
       && SoundMode(e, violations, retained, Get(m, "temporary_violations"))
       && SoundDeferralContexts(e, GetOr(m, "contexts", Object(map[])))
       && SoundAdoption(e)
       && SoundTransitions(e, localAdr)
  }

  /** The part of the gate that concerns the mode itself. */
  method ModeErrors(e: Map, violations: seq<Violation>, retained: seq<Violation>, temporary: Value)
    returns (problems: set<Problem>)
    ensures problems == {} <==> SoundMode(e, violations, retained, temporary)
  {
    var policy := StrictPolicy(e);
    problems := {};
    if policy != Null && !policy.Object? {
      problems := problems + {BadShape("strict_with_explicit_deferrals")};
    }
    if Mode(e) == STRICT {
      if violations != [] {
        problems := problems + {New(violations[0])};
      }
      if retained != [] {
        problems := problems + {NotBaselinable(retained[0])};
      }
      if temporary != Null {
        problems := problems + {BadShape("temporary_violations")};
      }
      if Get(e, "baseline_adoption") != Null {
        problems := problems + {BadShape("baseline_adoption")};
      }
      if policy != Null {
        problems := problems + {BadShape("strict_with_explicit_deferrals")};
      }
    }
    if Mode(e) == DEFERRALS && policy.Object? {
      if !Active(e) {
        problems := problems + {BadActivation};
      }
      ghost var before := problems == {};
      for i := 0 to |POLICY_SWITCHES|
        invariant problems == {} <==>
                    before && forall j :: 0 <= j < i ==> Get(policy.fields, POLICY_SWITCHES[j]) == Bool(true)
      {
        if Get(policy.fields, POLICY_SWITCHES[i]) != Bool(true) {
          problems := problems + {BadShape(POLICY_SWITCHES[i])};
        }
      }
    }
  }

  /** `_enforcement_mode_errors` */
  method EnforcementModeErrors(m: Map, violations: seq<Violation>, retained: seq<Violation>, localAdr: string -> bool)
    returns (problems: set<Problem>)
    ensures problems == {} <==> SoundEnforcement(m, violations, retained, localAdr)
  {
    hide SoundTransitions, SoundMode, SoundDeferralContexts, SoundAdoption, ActivationLockErrors;
    if !EnforcementOf(m).Object? {
      return {BadShape("enforcement")};
    }
    var e := EnforcementOf(m).fields;
    if Rank(Mode(e)) < 0 {
      return {BadMode};
    }
    problems := ActivationLockErrors(m);
    if GetOr(e, "reject_new_violations", Bool(true)) != Bool(true) {
      problems := problems + {BadShape("reject_new_violations")};
    }
    var more := ModeErrors(e, violations, retained, Get(m, "temporary_violations"));
    problems := problems + more;
    if !SoundDeferralContexts(e, GetOr(m, "contexts", Object(map[]))) {
      problems := problems + {BadShape("allowed_deferral_contexts")};
    }
    if !SoundAdoption(e) {
      problems := problems + {BadShape("baseline_adoption")};
    }
    more := ReviewedBaselineTransitionErrors(e, localAdr);
    problems := problems + more;
  }
}
