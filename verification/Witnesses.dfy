/** Runs in which something grows: the conditions of the results on histories can be met. */
module Witnesses {
  import opened Baseline
  import CallArguments
  import opened Documents
  import opened Enforcement
  import opened Findings
  import opened Gate
  import opened Histories
  import opened Json
  import opened Ordering
  import opened Ratchet
  import opened Temporary
  import opened Widenings
  import opened Wrappers

  /** The hash of the first revision's documents, as the sections of the manifest want it. */
  function Hash(): string {
    seq(64, i => '0')
  }

  /** The hash of a document that has changed. */
  function NextHash(): string {
    seq(64, i => '1')
  }

  function Plain(): Checkout {
    Checkout([], v => true, s => true, v => false, v => true)
  }

  /** A revision with an empty baseline. */
  function Bare(fp: Violation -> Fingerprint, manifest: Map, hash: string): Revision {
    Revision(Parsed(manifest), hash, Parsed(DocumentOf(fp, [])), Hash(), Plain())
  }

  // ----- A permission that grows

  /** The context that is added: it opens one facade. */
  function NewContext(): Map {
    map["public_facades" := List([Text("CommsCore.Billing")])]
  }

  const OPENED := ContextItem("billing", "public_facades", "CommsCore.Billing")

  function ReviewFor(r: Rendering): Map {
    map["id" := Text("a"), "previous_manifest_sha256" := Text(Hash()),
        "approved_changes" := List([Text(AddToken(r, "context:billing", NewContext()))]),
        "adr" := Text("a"), "removal_condition" := Text("a")]
  }

  function Reviewing(r: Rendering): Map {
    map["reviewed_manifest_transitions" := List([Object(ReviewFor(r))])]
  }

  function Widened(r: Rendering): Map {
    map["contexts" := Object(map["billing" := Object(NewContext())]), "enforcement" := Object(Reviewing(r))]
  }

  lemma HashesDiffer()
    ensures Hash() != NextHash()
  {
    assert Hash()[0] != NextHash()[0];
  }

  lemma HashIsHash()
    ensures Hex(Text(Hash()), 64)
  {
  }

  lemma OneText(s: string)
    ensures SortedUnique(List([Text(s)])) && Strings(List([Text(s)])) == {s}
  {
    var v := List([Text(s)]);
    NameLeqTotal();
    SortedSetIff(NameLeq, Texts(v.items));
    assert Texts(v.items) == [s];
    assert Text(s) in v.items;
  }

  lemma LetterFilled()
    ensures Filled(Text("a"))
  {
  }

  lemma ReviewSound(r: Rendering, acceptedAdr: Value -> bool)
    requires acceptedAdr(Text("a"))
    ensures SoundReviews([Object(ReviewFor(r))], acceptedAdr)
    ensures Approved(Reviewing(r)) == {AddToken(r, "context:billing", NewContext())}
  {
    var token := AddToken(r, "context:billing", NewContext());
    assert |token| > 0;
    HashIsHash();
    OneText(token);
    LetterFilled();
    hide Hash, AddToken, SortedUnique, Filled, Hex, Strings;
    var review := ReviewFor(r);
    assert review.Keys == REVIEW_FIELDS;
    assert SoundReview(Object(review), acceptedAdr);
  }

  lemma WidenedIsReviewed(r: Rendering)
    ensures AllGrowth(r, map[], Widened(r)) == Some({AddToken(r, "context:billing", NewContext())})
  {
    hide AddToken, Declared, Tables, Listed, Migrations, NewContext, Over, Widened, Contexts;
    var m := Widened(r);
    WidenedSections(r);
    NothingListed(m);
    NothingListed(map[]);
    OneDeclared("billing", NewContext(), (name, previous, context) => ContextTokens(r, name, previous, context));
    assert "context:" + "billing" == "context:billing";
    NoneDeclared((name, previous, table) => TableTokens(r, Contexts(map[]), Contexts(m), name, previous, table));
    NoneDeclared((name, previous, model) => ReadModelTokens(r, name, previous, model));
    NoneDeclared((path, previous, declaration) => MigrationTokens(r, path, previous, declaration));
    NoneDeclared((id, previous, declaration) => CollaborationTokens(r, RUNTIME, id, previous, declaration));
    NoneDeclared((id, previous, declaration) => CollaborationTokens(r, TECHNICAL, id, previous, declaration));
    NoneDeclared((id, declaration, previous) => NamespaceTokens(r, id, declaration, previous));
  }

  lemma WidenedSections(r: Rendering)
    ensures forall key :: key in Widened(r) ==> key == "contexts" || key == "enforcement"
    ensures Declared(Object(Contexts(Widened(r)))) == map["billing" := NewContext()]
    ensures Declared(Object(Contexts(map[]))) == map[] && ApiTokens(r, map[], Widened(r)) == {}
    ensures Tables(Widened(r)) == map[] && Tables(map[]) == map[]
  {
    hide NewContext, ReviewFor;
  }

  lemma OneDeclared(name: string, declaration: Map, tokensOf: (string, Option<Map>, Map) -> set<string>)
    ensures Over(map[name := declaration], map[], tokensOf) == tokensOf(name, None, declaration)
  {
    var section: Section := map[name := declaration];
    assert Find(map[], name) == None && section[name] == declaration;
    forall token ensures token in Over(section, map[], tokensOf) <==> token in tokensOf(name, None, declaration) {
      assert name in section;
    }
  }

  lemma NoneDeclared(tokensOf: (string, Option<Map>, Map) -> set<string>)
    ensures Over(map[], map[], tokensOf) == {}
  {
  }

  lemma NothingListed(m: Map)
    requires forall key :: key in m ==> key == "contexts" || key == "enforcement"
    ensures Listed(m, "read_model_exceptions", "module") == map[] && Listed(m, RUNTIME, "id") == map[]
    ensures Listed(m, TECHNICAL, "id") == map[] && Listed(m, "namespace_dependency_rules", "id") == map[]
    ensures Migrations(m) == Some(map[])
  {
  }

  lemma WidenedEnforced(r: Rendering, localAdr: string -> bool)
    ensures EnforcementOf(Widened(r)) == Object(Reviewing(r)) && SoundEnforcement(Widened(r), [], [], localAdr)
  {
    hide SoundTransition, FingerprintList, SortedUnique, SoundMapping, ReviewFor, NewContext;
    assert EnforcementOf(Widened(r)) == Object(Reviewing(r));
    ActivationLock(Widened(r));
  }

  lemma WidenedAnalyzed(r: Rendering)
    ensures Analyzed(Widened(r), []) == []
  {
    hide CoreModule, ShapeMessage, ReviewFor, NewContext;
    assert ShapeFindings(Widened(r)) == [];
  }

  lemma WidenedPasses(fp: Violation -> Fingerprint, r: Rendering)
    ensures Passes(fp, Bare(fp, Widened(r), NextHash()))
  {
    hide NON_BASELINABLE, EXACT_MAPPING, POLICY, SoundEnforcement, Analyzed, WellFormed, Entries, DocumentOf, SoundMapping,
         ReviewFor, NewContext;
    var current := Bare(fp, Widened(r), NextHash());
    WrittenLoadsIff(fp, []);
    WidenedAnalyzed(r);
    WidenedEnforced(r, current.checkout.localAdr);
    assert Balanced(fp, AbsoluteRules(Reviewing(r)), [], []);
    assert Get(Widened(r), "temporary_violations") == Null;
    assert Settled(fp, Widened(r), [], [], current.checkout);
  }

  lemma WidenedBaseline(fp: Violation -> Fingerprint, r: Rendering)
    requires Passes(fp, Bare(fp, Widened(r), NextHash()))
    ensures BaselineStep(fp, Bare(fp, map[], Hash()), Bare(fp, Widened(r), NextHash()))
  {
    hide NON_BASELINABLE, EXACT_MAPPING, POLICY, DocumentOf, ReviewFor, NewContext, Hash, WellFormed, Balanced,
         SoundTemporary, SoundMode, SoundDeferralContexts, SoundAdoption, Analyzed, Entries, SoundTransitions,
         ActivationLockErrors;
    var base, current := Bare(fp, map[], Hash()), Bare(fp, Widened(r), NextHash());
    assert Loaded(base.baseline) == Loaded(current.baseline);
    assert NewlyRetained(fp, base, current) == {};
    assert Settings(current) == Reviewing(r);
    assert ForBase(Reviewing(r), Hash()) == [] && Adopted(Reviewing(r), Hash()) == {};
  }

  lemma WidenedReviewed(r: Rendering, acceptedAdr: Value -> bool)
    requires acceptedAdr(Text("a"))
    ensures ReviewedWidening(r, map[], Hash(), Widened(r), acceptedAdr)
  {
    hide NewContext, Hash, AllGrowth, SoundReviews, Approved, AddToken, ReviewFor, Contexts;
    ReviewSound(r, acceptedAdr);
    WidenedIsReviewed(r);
    ReviewHash(r);
    assert Reviews(Reviewing(r)) == List([Object(ReviewFor(r))]);
    assert ForThisBase([Object(ReviewFor(r))], Hash());
  }

  lemma ReviewHash(r: Rendering)
    ensures Get(ReviewFor(r), "previous_manifest_sha256") == Text(Hash())
  {
  }

  lemma WidenedKept(r: Rendering)
    ensures NotWeakened(map[], Widened(r), map[], Reviewing(r))
  {
    hide ReviewFor, NewContext;
    assert RetiredModules(Widened(r)) == List([]) && RetiredModules(map[]) == List([]);
    assert RetiredKeys(map[]) == {};
  }

  lemma WidenedManifest(fp: Violation -> Fingerprint, r: Rendering)
    ensures ManifestStep(r, Bare(fp, map[], Hash()), Bare(fp, Widened(r), NextHash()))
  {
    hide NON_BASELINABLE, DocumentOf, NewContext, Hash, ReviewedWidening, NotWeakened, ReviewFor, Entries;
    WidenedReviewed(r, Plain().acceptedAdr);
    WidenedKept(r);
    assert EnforcementOf(map[]) == Object(map[]) && EnforcementOf(Widened(r)) == Object(Reviewing(r));
  }

  lemma RunOfTwo(fp: Violation -> Fingerprint, r: Rendering, base: Revision, current: Revision)
    requires Step(fp, r, base, current)
    ensures Run(fp, r, [base, current])
  {
    hide Step;
    assert Accepted(fp, r, [base, current], 1);
  }

  /** A run that adds a permission under a review; the revision it ends with is refused on top of itself,
      because it still carries that review. */
  lemma PermissionGrows(fp: Violation -> Fingerprint, r: Rendering) returns (h: seq<Revision>)
    ensures |h| == 2 && Run(fp, r, h)
    ensures !Grants(r, ManifestOf(h[0]), OPENED) && Grants(r, ManifestOf(h[1]), OPENED)
    ensures Passes(fp, h[1]) && !Step(fp, r, h[1], h[1])
    ensures h[0].manifestHash != h[1].manifestHash
  {
    HashesDiffer();
    hide Passes, BaselineStep, ManifestStep, DocumentOf, ReviewFor, Grants, NewContext, NON_BASELINABLE, EXACT_MAPPING,
         POLICY, Migrations, Hash, NextHash;
    var base, current := Bare(fp, map[], Hash()), Bare(fp, Widened(r), NextHash());
    h := [base, current];
    WidenedPasses(fp, r);
    WidenedBaseline(fp, r);
    WidenedManifest(fp, r);
    NothingListed(Widened(r));
    WidenedGrants(r);
    RunOfTwo(fp, r, base, current);
    ResubmittedIff(fp, r, current);
    assert Reviews(Reviewing(r)) == List([Object(ReviewFor(r))]);
  }

  lemma WidenedGrants(r: Rendering)
    ensures !Grants(r, map[], OPENED) && Grants(r, Widened(r), OPENED)
  {
    assert Text("CommsCore.Billing") in Items(NewContext()["public_facades"]);
    assert Declared(Object(Contexts(Widened(r)))) == map["billing" := NewContext()];
  }

  // ----- A fingerprint that grows

  lemma {:induction false} StripRightKeeps(s: string)
    requires |s| > 0 && !CallArguments.IsSpace(s[0])
    ensures |CallArguments.StripRight(s)| > 0
  {
    if |s| > 1 {
      StripRightKeeps(s[..|s| - 1]);
    }
  }

  lemma HexFilled(s: string, length: nat)
    requires Hex(Text(s), length) && length > 0
    ensures Filled(Text(s))
  {
    assert HexDigit(s[0]);
    StripRightKeeps(s);
  }

  /** A violation that may be retained under a review, and can be declared. */
  ghost predicate MayRetain(fp: Violation -> Fingerprint, v: Violation) {
    && Hex(Text(fp(v)), 16) && v.rule !in NON_BASELINABLE && v.rule !in NO_NEW_DEFERRALS
    && Filled(Text(v.rule)) && Filled(Text(v.path)) && Filled(Text(v.detail))
  }

  function DeclarationFor(fp: Violation -> Fingerprint, v: Violation): Map {
    map["id" := Text("a"), "fingerprint" := Text(fp(v)), "rule" := Text(v.rule), "path" := Text(v.path),
        "detail" := Text(v.detail), "adr" := Text("a"), "removal_condition" := Text("a")]
  }

  function TemporaryFor(fp: Violation -> Fingerprint, v: Violation): Map {
    map["source" := SOURCE, "exact_mapping" := EXACT_MAPPING, "explicit" := List([Object(DeclarationFor(fp, v))]),
        "removal_conditions" := Object(map[v.rule := Text("a")])]
  }

  function TransitionFor(fp: Violation -> Fingerprint, v: Violation): Map {
    map["id" := Text("a"), "previous_baseline_sha256" := Text(Hash()), "added_fingerprints" := List([Text(fp(v))]),
        "removed_fingerprints" := List([]), "adr" := Text("a"), "removal_condition" := Text("a")]
  }

  function Admitting(fp: Violation -> Fingerprint, v: Violation): Map {
    map["reviewed_baseline_transitions" := List([Object(TransitionFor(fp, v))])]
  }

  function Retaining(fp: Violation -> Fingerprint, v: Violation): Map {
    map["enforcement" := Object(Admitting(fp, v)), "temporary_violations" := Object(TemporaryFor(fp, v))]
  }

  function RetainedOnce(fp: Violation -> Fingerprint, v: Violation): Revision {
    Revision(Parsed(Retaining(fp, v)), NextHash(), Parsed(DocumentOf(fp, [v])), NextHash(), Plain().(found := [v]))
  }

  lemma TransitionSound(fp: Violation -> Fingerprint, v: Violation, localAdr: string -> bool)
    requires MayRetain(fp, v) && localAdr("a")
    ensures SoundTransitions(Admitting(fp, v), localAdr)
  {
    hide Hash, SortedUnique, Filled, Hex, Strings, NON_BASELINABLE, EXACT_MAPPING;
    HashIsHash();
    OneText(fp(v));
    LetterFilled();
    var t := TransitionFor(fp, v);
    NoStrings();
    assert t.Keys == TRANSITION_FIELDS;
    assert SoundTransition(Object(t), localAdr);
    assert AdoptionHash(Admitting(fp, v)) == Null;
  }

  lemma NoStrings()
    ensures Strings(List([])) == {} && SortedUnique(List([]))
  {
  }

  lemma DeclarationSound(fp: Violation -> Fingerprint, v: Violation, localAdr: string -> bool)
    requires MayRetain(fp, v) && localAdr("a")
    ensures SoundDeclaration(DeclarationFor(fp, v), localAdr)
    ensures Expand(fp, Object(DeclarationFor(fp, v)), [v]) == Some([DeclarationFor(fp, v)])
  {
    hide NON_BASELINABLE, NO_NEW_DEFERRALS, EXACT_MAPPING, Hex, Filled;
    HexFilled(fp(v), 16);
    LetterFilled();
    var d := DeclarationFor(fp, v);
    assert Get(d, "fingerprints") == Null && Get(d, "violations") == Null;
  }

  lemma DeclarationMapped(fp: Violation -> Fingerprint, v: Violation, absolute: set<string>, deferrable: Violation -> bool)
    requires v.rule !in absolute && deferrable(v)
    ensures Mapped(fp, [DeclarationFor(fp, v)], [v], absolute, deferrable)
  {
    var d := DeclarationFor(fp, v);
    assert [d][1..] == [];
    assert Matches([d], fp(v)) == [d] by {
      assert DeclaredAs(d, fp(v));
    }
    assert Lookup(fp, [v], fp(v)) == Some(v);
    assert Fingerprints(fp, [v]) == {fp(v)};
  }

  lemma TemporarySound(fp: Violation -> Fingerprint, v: Violation, absolute: set<string>, deferrable: Violation -> bool,
                       localAdr: string -> bool)
    requires MayRetain(fp, v) && localAdr("a") && v.rule !in absolute && deferrable(v)
    ensures SoundTemporary(fp, Retaining(fp, v), [v], absolute, deferrable, localAdr)
  {
    hide EXACT_MAPPING, Mapped, SoundDeclaration, DeclarationFor, Expand, Hex, Filled, NON_BASELINABLE;
    DeclarationSound(fp, v, localAdr);
    DeclarationMapped(fp, v, absolute, deferrable);
    LetterFilled();
    var m, raw := Retaining(fp, v), [Object(DeclarationFor(fp, v))];
    assert Get(m, "temporary_violations") == Object(TemporaryFor(fp, v));
    assert Raw(TemporaryFor(fp, v)) == raw;
    assert raw[..0] == [];
    assert ExpandAll(fp, raw, [v]) == Some([] + [DeclarationFor(fp, v)]);
    assert [] + [DeclarationFor(fp, v)] == [DeclarationFor(fp, v)];
  }

  lemma RetainingEnforced(fp: Violation -> Fingerprint, v: Violation, localAdr: string -> bool)
    requires MayRetain(fp, v) && localAdr("a")
    ensures EnforcementOf(Retaining(fp, v)) == Object(Admitting(fp, v))
    ensures SoundEnforcement(Retaining(fp, v), [v], [v], localAdr)
  {
    hide SoundTransitions, TransitionFor, TemporaryFor, MayRetain, FingerprintList, SortedUnique, Hash, Strings,
         NON_BASELINABLE, EXACT_MAPPING;
    TransitionSound(fp, v, localAdr);
    assert EnforcementOf(Retaining(fp, v)) == Object(Admitting(fp, v));
    ActivationLock(Retaining(fp, v));
  }

  lemma RetainingAnalyzed(fp: Violation -> Fingerprint, v: Violation)
    ensures Analyzed(Retaining(fp, v), [v]) == [v]
  {
    hide CoreModule, ShapeMessage, TemporaryFor, Admitting, ViolationLeq, SortedSet;
    NothingRetired();
    assert ShapeFindings(Retaining(fp, v)) == [];
    assert [] + [v] == [v];
    ViolationLeqTotal();
    SortedSetIff(ViolationLeq, [v]);
  }

  lemma NothingRetired()
    ensures SoundRetiredModules(List([])) && SoundRetiredBindings(List([]))
  {
  }

  lemma RetainedLoads(fp: Violation -> Fingerprint, v: Violation)
    requires MayRetain(fp, v)
    ensures WellFormed(fp, DocumentOf(fp, [v])) && Entries(DocumentOf(fp, [v])) == [v]
    ensures WellFormed(fp, DocumentOf(fp, [])) && Entries(DocumentOf(fp, [])) == []
  {
    NonEmptyFilled(v.rule);
    NonEmptyFilled(v.path);
    NonEmptyFilled(v.detail);
    assert Complete(fp, v);
    hide WellFormed, Entries, MayRetain, DocumentOf;
    WrittenLoadsIff(fp, [v]);
    WrittenLoadsIff(fp, []);
  }

  lemma NonEmptyFilled(s: string)
    ensures Filled(Text(s)) ==> s != ""
  {
  }

  /** The gate passes if each of its parts does. */
  lemma PassesBy(fp: Violation -> Fingerprint, r: Revision, m: Map, document: Map, violations: seq<Violation>,
                 retained: seq<Violation>)
    requires r.manifest == Parsed(m) && r.baseline == Parsed(document) && WellFormed(fp, document)
    requires EnforcementOf(m).Object? && Analyzed(m, r.checkout.found) == violations && Entries(document) == retained
    requires Balanced(fp, AbsoluteRules(EnforcementOf(m).fields), violations, retained)
    requires SoundTemporary(fp, m, retained, AbsoluteRules(EnforcementOf(m).fields),
                            Deferrable(EnforcementOf(m).fields, r.checkout), r.checkout.localAdr)
    requires SoundEnforcement(m, violations, retained, r.checkout.localAdr)
    ensures Passes(fp, r)
  {
    hide WellFormed, EnforcementOf, Analyzed, Entries, Balanced, AbsoluteRules, SoundTemporary, Deferrable, SoundEnforcement;
  }

  lemma RetainedPasses(fp: Violation -> Fingerprint, v: Violation)
    requires MayRetain(fp, v)
    ensures Passes(fp, RetainedOnce(fp, v))
  {
    hide NON_BASELINABLE, EXACT_MAPPING, POLICY, SoundEnforcement, SoundTemporary, Analyzed, WellFormed, Entries, DocumentOf,
         AbsoluteRules, Admitting, MayRetain, Hash, Retaining, Balanced, Passes, EnforcementOf;
    var current := RetainedOnce(fp, v);
    var e := Admitting(fp, v);
    RuleAllowed(fp, v);
    RetainedLoads(fp, v);
    RetainingAnalyzed(fp, v);
    RetainingEnforced(fp, v, current.checkout.localAdr);
    TemporarySound(fp, v, AbsoluteRules(e), Deferrable(e, current.checkout), current.checkout.localAdr);
    OneBalanced(fp, v, AbsoluteRules(e));
    PassesBy(fp, current, Retaining(fp, v), DocumentOf(fp, [v]), [v], [v]);
  }

  lemma OneBalanced(fp: Violation -> Fingerprint, v: Violation, absolute: set<string>)
    requires v.rule !in absolute
    ensures Balanced(fp, absolute, [v], [v])
  {
  }

  lemma RetainedBaseline(fp: Violation -> Fingerprint, v: Violation)
    requires MayRetain(fp, v)
    ensures BaselineStep(fp, Bare(fp, map[], Hash()), RetainedOnce(fp, v))
    ensures Retained(fp, Bare(fp, map[], Hash())) == {} && Retained(fp, RetainedOnce(fp, v)) == {fp(v)}
  {
    hide NON_BASELINABLE, EXACT_MAPPING, POLICY, DocumentOf, Hash, WellFormed, Entries, SoundTransitions, Passes,
         ActivationLockErrors, MayRetain, ProtectedRules, ReviewedDelta, Admitting, EnforcementOf, SoundEnforcement;
    var base, current := Bare(fp, map[], Hash()), RetainedOnce(fp, v);
    RuleAllowed(fp, v);
    TransitionSound(fp, v, current.checkout.localAdr);
    RetainingEnforced(fp, v, current.checkout.localAdr);
    RetainedLoads(fp, v);
    DeltaReviewed(fp, v);
    LockHolds(Retaining(fp, v), [v], [v], current.checkout.localAdr);
    assert Retained(fp, base) == {} && Retained(fp, current) == {fp(v)};
    assert NewlyRetained(fp, base, current) == {fp(v)} && Retained(fp, base) - Retained(fp, current) == {};
  }

  lemma LockHolds(m: Map, violations: seq<Violation>, retained: seq<Violation>, localAdr: string -> bool)
    requires SoundEnforcement(m, violations, retained, localAdr)
    ensures ActivationLockErrors(m) == {}
  {
    hide ActivationLockErrors, SoundMode, SoundDeferralContexts, SoundAdoption, SoundTransitions;
  }

  lemma RuleAllowed(fp: Violation -> Fingerprint, v: Violation)
    requires MayRetain(fp, v)
    ensures var e := Admitting(fp, v);
            && v.rule !in AbsoluteRules(e) && v.rule !in ProtectedRules(e) && Get(e, "mode") == Null && Rank(Mode(e)) == 0
            && GetOr(e, "reviewed_baseline_transitions", List([])).List?
  {
  }

  lemma DeltaReviewed(fp: Violation -> Fingerprint, v: Violation)
    ensures ReviewedDelta(Admitting(fp, v), Hash(), {fp(v)}, {})
  {
    OneText(fp(v));
    NoStrings();
    hide Hash, Strings;
    var transition := Object(TransitionFor(fp, v));
    assert [transition][1..] == [] && For([], "previous_baseline_sha256", Hash()) == [];
    assert Get(Fields(transition), "previous_baseline_sha256") == Text(Hash());
    assert Items(Get(Admitting(fp, v), "reviewed_baseline_transitions")) == [transition];
    assert For([transition], "previous_baseline_sha256", Hash()) == [transition];
  }

  lemma RetainedManifest(fp: Violation -> Fingerprint, r: Rendering, v: Violation)
    ensures ManifestStep(r, Bare(fp, map[], Hash()), RetainedOnce(fp, v))
  {
    var m := Retaining(fp, v);
    hide NON_BASELINABLE, DocumentOf, Hash, TemporaryFor, TransitionFor, AllGrowth;
    assert EnforcementOf(map[]) == Object(map[]) && EnforcementOf(m) == Object(Admitting(fp, v));
    assert Reviews(Admitting(fp, v)) == List([]);
    assert RetiredModules(m) == List([]) && RetiredModules(map[]) == List([]) && RetiredKeys(map[]) == {};
    NothingWidened(fp, r, v);
  }

  lemma NothingWidened(fp: Violation -> Fingerprint, r: Rendering, v: Violation)
    ensures AllGrowth(r, map[], Retaining(fp, v)) == Some({})
  {
    hide TemporaryFor, Admitting, AllGrowth, Migrations;
    SameSections(r, Retaining(fp, v));
    NothingListed(map[]);
    UnchangedWidensNothing(r, map[]);
  }

  /** A manifest that only has other sections widens as little as the empty one. */
  lemma SameSections(r: Rendering, m: Map)
    requires forall key :: key in m ==> key == "enforcement" || key == "temporary_violations"
    ensures AllGrowth(r, map[], m) == AllGrowth(r, map[], map[])
  {
    hide Over, ContextTokens, TableTokens, ReadModelTokens, MigrationTokens, CollaborationTokens, NamespaceTokens, AddToken;
    assert Contexts(m) == Contexts(map[]) && Tables(m) == Tables(map[]);
    assert Migrations(m) == Migrations(map[]) && ApiTokens(r, map[], m) == ApiTokens(r, map[], map[]);
    assert forall section, key {:trigger Listed(m, section, key)} ::
        section != "enforcement" && section != "temporary_violations" ==> Listed(m, section, key) == Listed(map[], section, key);
  }

  /** A run that adds a fingerprint to the baseline under a review, for any violation that may be retained. */
  lemma FingerprintGrows(fp: Violation -> Fingerprint, r: Rendering, v: Violation) returns (h: seq<Revision>)
    requires MayRetain(fp, v)
    ensures |h| == 2 && Run(fp, r, h)
    ensures fp(v) !in Retained(fp, h[0]) && fp(v) in Retained(fp, h[1])
    ensures h[0].manifestHash != h[1].manifestHash && h[0].baselineHash != h[1].baselineHash
  {
    HashesDiffer();
    hide Passes, BaselineStep, ManifestStep, MayRetain, Hash, NextHash, Retaining, DocumentOf;
    RetainedPasses(fp, v);
    RetainedBaseline(fp, v);
    RetainedManifest(fp, r, v);
    RunOfTwo(fp, r, Bare(fp, map[], Hash()), RetainedOnce(fp, v));
    h := [Bare(fp, map[], Hash()), RetainedOnce(fp, v)];
  }
}
