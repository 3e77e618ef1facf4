/** Writing a new baseline, and the gate that follows. */
module Writing {
  import opened Baseline
  import opened Documents
  import opened Enforcement
  import opened Findings
  import opened Gate
  import opened Json
  import opened Ordering
  import opened Wrappers

  /** Writing is refused for absolute violations, over a baseline that does not load, and for new entries
      under a protected rule. */
  ghost predicate Writable(fp: Violation -> Fingerprint, m: Map, previous: Document, violations: seq<Violation>) {
    && EnforcementOf(m).Object?
    && (forall v :: v in violations ==> v.rule !in AbsoluteRules(EnforcementOf(m).fields))
    && Loads(fp, previous)
    && forall v :: v in violations && v.rule in ProtectedRules(EnforcementOf(m).fields) ==>
         fp(v) in Fingerprints(fp, Loaded(previous))
  }

  /** `write_baseline` */
  method WriteBaseline(fp: Violation -> Fingerprint, m: Map, previous: Document, violations: seq<Violation>)
    returns (r: Result<Map, Problem>)
    ensures r.Ok? <==> Writable(fp, m, previous, violations)
    ensures r.Ok? ==> r.value == DocumentOf(fp, SortedSet(ViolationLeq, violations))
  {
    hide AbsoluteRules, ProtectedRules, Loads, Loaded, DocumentOf;
    if !EnforcementOf(m).Object? {
      return Err(Raised);
    }
    var e := EnforcementOf(m).fields;
    var absolute := set v | v in violations && v.rule in AbsoluteRules(e);
    if v :| v in absolute {
      return Err(NotBaselinable(v));
    }
    var entries, problems := LoadBaseline(fp, previous);
    if problems != {} {
      return Err(BadBaseline);
    }
    var known := Fingerprints(fp, entries);
    var growth := set v | v in violations && v.rule in ProtectedRules(e) && fp(v) !in known;
    if v :| v in growth {
      return Err(ProtectedGrowth(v));
    }
    assert forall v :: v in violations ==> v !in absolute && v !in growth;
    r := Ok(DocumentOf(fp, SortedSet(ViolationLeq, violations)));
  }

  lemma SameFingerprints(fp: Violation -> Fingerprint, vs: seq<Violation>, ws: seq<Violation>)
    requires forall v :: v in vs <==> v in ws
    ensures Fingerprints(fp, vs) == Fingerprints(fp, ws) && (Fingerprinted(fp, vs) <==> Fingerprinted(fp, ws))
  {
  }

  /** After a successful write, loading yields the same violations, sorted; it reports no error exactly when
      no two of them share a fingerprint; and the gate then finds nothing new and nothing resolved. */
  lemma WriteLoadGate(fp: Violation -> Fingerprint, m: Map, previous: Document, violations: seq<Violation>,
                      discovered: Violation -> bool)
    requires Writable(fp, m, previous, violations)
    requires forall v :: v in violations ==> Complete(fp, v)
    ensures var written := DocumentOf(fp, SortedSet(ViolationLeq, violations));
            && Entries(written) == SortedSet(ViolationLeq, violations)
            && (WellFormed(fp, written) <==> Fingerprinted(fp, violations))
            && BalanceErrors(fp, AbsoluteRules(EnforcementOf(m).fields), violations, Entries(written), discovered) == {}
  {
    hide Loads, Loaded, DocumentOf, WellFormed, Complete, AbsoluteRules, ProtectedRules, SortedSet, ViolationLeq,
         BalanceErrors, Fingerprinted, Entries;
    var sorted := SortedSet(ViolationLeq, violations);
    ViolationLeqTotal();
    SortedSetLaws(ViolationLeq, violations);
    WrittenLoadsIff(fp, sorted);
    SameFingerprints(fp, sorted, violations);
    BalancedIff(fp, AbsoluteRules(EnforcementOf(m).fields), violations, sorted, discovered);
  }
}
