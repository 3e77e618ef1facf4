/** The boundary gate on one revision: the analysed violations against the retained baseline. */
module Gate {
  import opened Baseline
  import opened Documents
  import opened Enforcement
  import opened Findings
  import opened Json
  import opened Ordering
  import opened Temporary
  import opened Wrappers

  const MANIFEST := "docs/02-architecture/context-boundaries.yaml"

  /** What the checkout answers besides the two documents: the violations that analysing its sources adds,
      the checks of decision records, and the verdicts that read sources. */
  datatype Checkout = Checkout(
    found: seq<Violation>,
    acceptedAdr: Value -> bool,
    localAdr: string -> bool,
    discovered: Violation -> bool,
    deferrable: Violation -> bool)

  datatype Revision = Revision(manifest: Document, manifestHash: string, baseline: Document, baselineHash: string,
                               checkout: Checkout)

  // ----- The part of the analysis that reads the manifest alone

  predicate Upper(c: char) {
    'A' <= c <= 'Z'
  }

  predicate Lower(c: char) {
    'a' <= c <= 'z'
  }

  predicate Word(c: char) {
    Upper(c) || Lower(c) || '0' <= c <= '9' || c == '_'
  }

  /** One or more segments, each a dot, an upper-case letter and word characters. */
  predicate ModuleSegments(s: string)
    decreases |s|, 0
  {
    |s| >= 2 && s[0] == '.' && Upper(s[1]) && SegmentRest(s[2..])
  }

  predicate SegmentRest(s: string)
    decreases |s|, 1
  {
    |s| == 0 || (Word(s[0]) && SegmentRest(s[1..])) || ModuleSegments(s)
  }

  /** A module below the core namespace. */
  predicate CoreModule(s: string) {
    "CommsCore" <= s && ModuleSegments(s[9..])
  }

  predicate Identifier(v: Value) {
    v.Text? && |v.s| > 0 && Lower(v.s[0]) && forall i :: 0 <= i < |v.s| ==> Word(v.s[i]) && !Upper(v.s[i])
  }

  /** `retired_modules` is a sorted list of unique core modules. */
  predicate SoundRetiredModules(v: Value) {
    AllTexts(v) && (forall name :: name in Texts(v.items) ==> CoreModule(name)) && SortedUnique(v)
  }

  predicate RetiredBinding(v: Value) {
    v.Object? && v.fields.Keys == {"application", "key"}
    && Identifier(v.fields["application"]) && Identifier(v.fields["key"])
  }

  function BindingKey(v: Value): seq<string>
    requires RetiredBinding(v)
  {
    [v.fields["application"].s, v.fields["key"].s]
  }

  function BindingKeys(items: seq<Value>): seq<seq<string>>
    requires forall i :: 0 <= i < |items| ==> RetiredBinding(items[i])
  {
    seq(|items|, i requires 0 <= i < |items| => BindingKey(items[i]))
  }

  predicate SoundRetiredBindings(v: Value) {
    v.List? && (forall i :: 0 <= i < |v.items| ==> RetiredBinding(v.items[i]))
    && BindingKeys(v.items) == SortedSet(NamesLeq, BindingKeys(v.items))
  }

  function RetiredModules(m: Map): Value {
    GetOr(m, "retired_modules", List([]))
  }

  function RetiredBindings(m: Map): Value {
    GetOr(m, "retired_runtime_bindings", List([]))
  }

  /** What the analysis says about a field of the wrong shape. */
  function ShapeMessage(field: string): string {
    if field == "contexts" then "contexts must be a mapping"
    else if field == "tables" then "tables must be a mapping"
    else if field == "retired_modules" then
      "retired_modules must be a sorted list of unique CommsCore module namespace names"
    else "retired_runtime_bindings must be a sorted list of unique {application, key} mappings"
  }

  function ShapeViolation(rule: string, field: string): Violation {
    Violation(rule, MANIFEST, ShapeMessage(field))
  }

  function ShapeFindings(m: Map): seq<Violation> {
    (if SoundRetiredModules(RetiredModules(m)) then []
     else [ShapeViolation("invalid_context_declaration", "retired_modules")]) +
    (if SoundRetiredBindings(RetiredBindings(m)) then []
     else [ShapeViolation("invalid_context_declaration", "retired_runtime_bindings")])
  }

  /** `analyze_context_boundaries`, for what the sources add. */
  function Analyzed(m: Map, found: seq<Violation>): seq<Violation> {
    if !GetOr(m, "contexts", Object(map[])).Object? then [ShapeViolation("invalid_context_declaration", "contexts")]
    else if !GetOr(m, "tables", Object(map[])).Object? then [ShapeViolation("invalid_table_declaration", "tables")]
    else SortedSet(ViolationLeq, ShapeFindings(m) + found)
  }

  predicate SoundShapes(m: Map) {
    && GetOr(m, "contexts", Object(map[])).Object? && GetOr(m, "tables", Object(map[])).Object?
    && SoundRetiredModules(RetiredModules(m)) && SoundRetiredBindings(RetiredBindings(m))
  }

  lemma ShapeRulesAreAbsolute()
    ensures "invalid_context_declaration" in NON_BASELINABLE && "invalid_table_declaration" in NON_BASELINABLE
  {
  }

  /** A manifest of the wrong shape always yields a violation that may not be retained. */
  lemma BadShapeIsAbsolute(m: Map, found: seq<Violation>) returns (v: Violation)
    requires !SoundShapes(m)
    ensures v in Analyzed(m, found) && v.rule in NON_BASELINABLE
  {
    hide SoundRetiredModules, SoundRetiredBindings, ViolationLeq, SortedSet, RetiredModules, RetiredBindings, ShapeMessage;
    ShapeRulesAreAbsolute();
    hide NON_BASELINABLE;
    if !GetOr(m, "contexts", Object(map[])).Object? || !GetOr(m, "tables", Object(map[])).Object? {
      v := Analyzed(m, found)[0];
    } else {
      v := ShapeFindings(m)[0];
      ViolationLeqTotal();
      SortedSetLaws(ViolationLeq, ShapeFindings(m) + found);
    }
  }

  // ----- The gate

  /** What an error-free gate run says about a revision. */
  ghost predicate Passes(fp: Violation -> Fingerprint, r: Revision) {
    hide *;
    && r.manifest.Parsed? && r.baseline.Parsed? && WellFormed(fp, r.baseline.fields)
    && EnforcementOf(r.manifest.fields).Object?
    && Settled(fp, r.manifest.fields, Analyzed(r.manifest.fields, r.checkout.found), Entries(r.baseline.fields), r.checkout)
  }

  /** No violation is absolute, and the current violations are the retained ones. */
  ghost predicate Balanced(fp: Violation -> Fingerprint, absolute: set<string>, violations: seq<Violation>,
                           retained: seq<Violation>) {
    && (forall v :: v in violations ==> v.rule !in absolute)
    && Fingerprints(fp, violations) == Fingerprints(fp, retained)
  }

  /** The verdict on deferring a retained entry counts in the mode with explicit deferrals only. */
  function Deferrable(e: Map, checkout: Checkout): Violation -> bool {
    v => Get(e, "mode") != DEFERRALS || checkout.deferrable(v)
  }

  ghost predicate Settled(fp: Violation -> Fingerprint, m: Map, violations: seq<Violation>, retained: seq<Violation>,
                          checkout: Checkout)
    requires EnforcementOf(m).Object?
  {
    hide *;
    var e := EnforcementOf(m).fields;
    && Balanced(fp, AbsoluteRules(e), violations, retained)
    && SoundTemporary(fp, m, retained, AbsoluteRules(e), Deferrable(e, checkout), checkout.localAdr)
    && SoundEnforcement(m, violations, retained, checkout.localAdr)
  }

  /** The problems that compare violations with the baseline: what may never be retained, what is not yet
      retained, and what is retained without need. */
  function BalanceErrors(fp: Violation -> Fingerprint, absolute: set<string>, violations: seq<Violation>,
                         retained: seq<Violation>, discovered: Violation -> bool): (problems: set<Problem>)
    ensures forall v :: NotBaselinable(v) in problems <==> v in violations && v.rule in absolute
    ensures forall v :: New(v) in problems || Discovered(v) in problems <==>
              v in violations && v.rule !in absolute && fp(v) !in Fingerprints(fp, retained)
    ensures forall f :: Resolved(f) in problems <==> f in Fingerprints(fp, retained) && f !in Fingerprints(fp, violations)
  {
    hide *;
    (set v | v in violations && v.rule in absolute :: NotBaselinable(v)) +
    (set v | v in violations && v.rule !in absolute && fp(v) !in Fingerprints(fp, retained) && discovered(v) :: Discovered(v)) +
    (set v | v in violations && v.rule !in absolute && fp(v) !in Fingerprints(fp, retained) && !discovered(v) :: New(v)) +
    (set f | f in Fingerprints(fp, retained) - Fingerprints(fp, violations) :: Resolved(f))
  }

  lemma BalancedIff(fp: Violation -> Fingerprint, absolute: set<string>, violations: seq<Violation>,
                    retained: seq<Violation>, discovered: Violation -> bool)
    ensures BalanceErrors(fp, absolute, violations, retained, discovered) == {} <==> Balanced(fp, absolute, violations, retained)
  {
  }

  /** `boundary_errors` */
  method BoundaryErrors(fp: Violation -> Fingerprint, r: Revision) returns (problems: set<Problem>, violations: seq<Violation>)
    ensures problems == {} <==> Passes(fp, r)
    ensures r.manifest.Parsed? ==> violations == Analyzed(r.manifest.fields, r.checkout.found)
  {
    hide Analyzed, WellFormed, SoundTemporary, SoundEnforcement, Balanced, BalanceErrors, NON_BASELINABLE;
    if !r.manifest.Parsed? {
      return {if r.manifest.Missing? then MissingFile else UnreadableFile}, [];
    }
    var m := r.manifest.fields;
    violations := Analyzed(m, r.checkout.found);
    if r.baseline.Missing? {
      return {MissingFile}, violations;
    }
    var retained, baseline := LoadBaseline(fp, r.baseline);
    if !EnforcementOf(m).Object? {
      return {Raised}, violations;
    }
    var e := EnforcementOf(m).fields;
    problems := BalanceErrors(fp, AbsoluteRules(e), violations, retained, r.checkout.discovered);
    BalancedIff(fp, AbsoluteRules(e), violations, retained, r.checkout.discovered);
    var more := TemporaryViolationErrors(fp, m, retained, AbsoluteRules(e), Deferrable(e, r.checkout), r.checkout.localAdr);
    problems := problems + baseline + more;
    more := EnforcementModeErrors(m, violations, retained, r.checkout.localAdr);
    problems := problems + more;
  }

  /** In a revision that passes, violations and retained entries have the same fingerprints, the entries
      have one each, and unless nothing is retained each entry has its one declaration. */
  lemma PassesMatches(fp: Violation -> Fingerprint, r: Revision) returns (declarations: seq<Map>)
    requires Passes(fp, r)
    ensures Fingerprints(fp, Analyzed(r.manifest.fields, r.checkout.found)) == Fingerprints(fp, Entries(r.baseline.fields))
    ensures Some(declarations) == Declarations(fp, r.manifest.fields, Entries(r.baseline.fields))
    ensures forall v :: v in Entries(r.baseline.fields) ==>
              exists i :: 0 <= i < |declarations| && Declares(fp, declarations[i], v)
    ensures forall v, i, j | v in Entries(r.baseline.fields) && 0 <= i < |declarations| && 0 <= j < |declarations| ::
              Declares(fp, declarations[i], v) && Declares(fp, declarations[j], v) ==> i == j
    ensures forall i :: 0 <= i < |declarations| ==> DeclaresSome(fp, declarations[i], Entries(r.baseline.fields))
    ensures forall i, v, w | 0 <= i < |declarations| && v in Entries(r.baseline.fields) && w in Entries(r.baseline.fields) ::
              Declares(fp, declarations[i], v) && Declares(fp, declarations[i], w) ==> v == w
  {
    hide Analyzed, SoundEnforcement, Sound, ReadEntries, NON_BASELINABLE, POLICY, EXACT_MAPPING;
    var m, entries, e := r.manifest.fields, Entries(r.baseline.fields), EnforcementOf(r.manifest.fields).fields;
    WellFormedFingerprinted(fp, r.baseline.fields);
    if Get(m, "temporary_violations") == Null {
      declarations := [];
    } else {
      declarations := Declarations(fp, m, entries).value;
      hide Declarations, Mapped;
      OneDeclarationEach(fp, declarations, entries, AbsoluteRules(e), Deferrable(e, r.checkout));
    }
  }

  /** Loading a baseline without an error leaves each fingerprint to one entry. */
  lemma WellFormedFingerprinted(fp: Violation -> Fingerprint, document: Map)
    requires WellFormed(fp, document)
    ensures Fingerprinted(fp, Entries(document))
  {
    hide Sound, ViolationLeq;
    var entries := ReadEntries(Items(Get(document, "violations")));
    EntriesSound(fp, Items(Get(document, "violations")));
    forall v, w | v in Entries(document) && w in Entries(document) && fp(v) == fp(w) ensures v == w {
      var i, j :| 0 <= i < |entries| && 0 <= j < |entries| && entries[i].violation == v && entries[j].violation == w;
      assert entries[i].fingerprint == entries[j].fingerprint;
      assert i == j;
    }
  }

  lemma {:induction false} EntriesSound(fp: Violation -> Fingerprint, items: seq<Value>)
    requires AllSound(fp, items)
    ensures forall e :: e in ReadEntries(items) ==> e.fingerprint == fp(e.violation)
  {
    hide ReadEntry;
    if |items| > 0 {
      var n := |items| - 1;
      EntriesSound(fp, items[..n]);
      assert Sound(fp, items[n]);
    }
  }
}
