/** Whole histories: what holds at the end of every run of accepted revisions. */
module Histories {
  import opened Baseline
  import opened Documents
  import opened Enforcement
  import opened Findings
  import opened Gate
  import opened Json
  import opened Ratchet
  import opened Temporary
  import opened Widenings
  import opened Wrappers

  /** Along a run the mode never drops, and enforcement and tombstones never go away. */
  lemma {:induction false} NothingWeakens(fp: Violation -> Fingerprint, r: Rendering, h: seq<Revision>, i: nat, j: nat)
    requires Run(fp, r, h) && i <= j < |h|
    ensures ModeRank(h[i]) <= ModeRank(h[j])
    ensures Enforced(h[i]) ==> Enforced(h[j])
    ensures Tombstones(h[i]) <= Tombstones(h[j])
    ensures RetiredKeys(ManifestOf(h[i])) <= RetiredKeys(ManifestOf(h[j]))
    ensures Active(Settings(h[i])) ==> Active(Settings(h[j])) || ModeRank(h[j]) == 2
    decreases j
  {
    hide Step, ModeRank, Enforced, Tombstones, RetiredKeys, Active;
    if i < j {
      NothingWeakens(fp, r, h, i, j - 1);
      assert Accepted(fp, r, h, j);
      StepMode(fp, r, h[j - 1], h[j]);
      StepTombstones(fp, r, h[j - 1], h[j]);
      RankBound(h[j]);
    }
  }

  lemma RankBound(r: Revision)
    ensures ModeRank(r) <= 2
  {
  }

  /** From a revision in the strict family on, the retained fingerprints only shrink. */
  lemma {:induction false} StrictFamilyShrinks(fp: Violation -> Fingerprint, r: Rendering, h: seq<Revision>, i: nat, j: nat)
    requires Run(fp, r, h) && i <= j < |h| && ModeRank(h[i]) >= 1
    ensures Retained(fp, h[j]) <= Retained(fp, h[i])
    decreases j
  {
    hide Step, ModeRank, Retained;
    if i < j {
      StrictFamilyShrinks(fp, r, h, i, j - 1);
      NothingWeakens(fp, r, h, i, j);
      assert Accepted(fp, r, h, j);
      StepBaseline(fp, r, h[j - 1], h[j]);
    }
  }

  /** From a strict revision on, every accepted revision retains nothing and violates nothing. */
  lemma StrictStaysEmpty(fp: Violation -> Fingerprint, r: Rendering, h: seq<Revision>, i: nat, j: nat)
    requires Run(fp, r, h) && i <= j < |h| && 0 < j && ModeRank(h[i]) == 2
    ensures Loaded(h[j].baseline) == [] && Violating(h[j]) == []
  {
    hide Step, ModeRank, Retained, Violating;
    NothingWeakens(fp, r, h, i, j);
    RankBound(h[j]);
    assert Accepted(fp, r, h, j);
    StepBaseline(fp, r, h[j - 1], h[j]);
  }

  ghost predicate Injective(fp: Violation -> Fingerprint) {
    forall v, w :: fp(v) == fp(w) ==> v == w
  }

  /** The retained entries under the rules without new deferrals never grow. */
  lemma {:induction false} ProtectedNeverGrows(fp: Violation -> Fingerprint, r: Rendering, h: seq<Revision>, i: nat, j: nat)
    requires Run(fp, r, h) && i <= j < |h| && Injective(fp)
    ensures forall v :: v in Loaded(h[j].baseline) && v.rule in NO_NEW_DEFERRALS ==> v in Loaded(h[i].baseline)
    decreases j
  {
    hide Step, Loaded;
    if i < j {
      ProtectedNeverGrows(fp, r, h, i, j - 1);
      assert Accepted(fp, r, h, j);
      StepBaseline(fp, r, h[j - 1], h[j]);
      forall v | v in Loaded(h[j].baseline) && v.rule in NO_NEW_DEFERRALS ensures v in Loaded(h[j - 1].baseline) {
        assert fp(v) in Retained(fp, h[j - 1]);
        var w :| w in Loaded(h[j - 1].baseline) && fp(w) == fp(v);
      }
    }
  }

  /** Something that does not hold at `i` and holds at `j` starts to hold for good somewhere between. */
  lemma {:induction false} LastRise(holds: nat -> bool, i: nat, j: nat) returns (k: nat)
    requires i <= j && !holds(i) && holds(j)
    ensures i <= k < j && !holds(k) && forall l :: k < l <= j ==> holds(l)
    decreases j
  {
    if holds(j - 1) {
      k := LastRise(holds, i, j - 1);
    } else {
      k := j - 1;
    }
  }

  /** The fingerprints that a revision's review admits on top of the base with this hash. */
  function Admitted(e: Map, hash: string): set<Fingerprint> {
    if ForBase(e, hash) != [] then Strings(Get(Fields(ForBase(e, hash)[0]), "added_fingerprints")) else Adopted(e, hash)
  }

  /** A fingerprint that a run adds to the baseline was named by the transition or the adoption for exactly
      that base, at the step from which it stays, and that step was outside the strict family. */
  lemma BaselineGrowthIsReviewed(fp: Violation -> Fingerprint, r: Rendering, h: seq<Revision>, i: nat, j: nat, f: Fingerprint)
    returns (k: nat)
    requires Run(fp, r, h) && i <= j < |h|
    requires f !in Retained(fp, h[i]) && f in Retained(fp, h[j])
    ensures i <= k < j && f !in Retained(fp, h[k]) && forall l :: k < l <= j ==> f in Retained(fp, h[l])
    ensures ModeRank(h[k + 1]) == 0 && f in Admitted(Settings(h[k + 1]), h[k].baselineHash)
    ensures Admitted(Settings(h[k + 1]), h[k].baselineHash) == NewlyRetained(fp, h[k], h[k + 1])
  {
    hide Step, Retained, ModeRank, Adopted, ForBase;
    var holds := (l: nat) => l < |h| && f in Retained(fp, h[l]);
    k := LastRise(holds, i, j);
    forall l | k < l <= j ensures f in Retained(fp, h[l]) {
      assert holds(l);
    }
    assert Accepted(fp, r, h, k + 1);
    StepMode(fp, r, h[k], h[k + 1]);
    StepBaseline(fp, r, h[k], h[k + 1]);
  }

  /** A permission that a run adds was named, by its exact token, in the reviewed transition for exactly that
      base, at the step from which it stays; and that transition approves what the step widens and no more. */
  lemma PermissionGrowthIsReviewed(fp: Violation -> Fingerprint, r: Rendering, h: seq<Revision>, i: nat, j: nat, p: Permission)
    returns (k: nat)
    requires Run(fp, r, h) && i <= j < |h|
    requires !Grants(r, ManifestOf(h[i]), p) && Grants(r, ManifestOf(h[j]), p)
    ensures i <= k < j && !Grants(r, ManifestOf(h[k]), p)
    ensures forall l :: k < l <= j ==> Grants(r, ManifestOf(h[l]), p)
    ensures ReviewToken(r, ManifestOf(h[k]), ManifestOf(h[k + 1]), p) in Approved(Settings(h[k + 1]))
    ensures AllGrowth(r, ManifestOf(h[k]), ManifestOf(h[k + 1])) == Some(Approved(Settings(h[k + 1])))
    ensures ForThisBase(Items(Reviews(Settings(h[k + 1]))), h[k].manifestHash)
  {
    hide Grants, Step, ReviewToken, AllGrowth, Approved, ForThisBase;
    var holds := (l: nat) => l < |h| && Grants(r, ManifestOf(h[l]), p);
    k := LastRise(holds, i, j);
    forall l | k < l <= j ensures Grants(r, ManifestOf(h[l]), p) {
      assert holds(l);
    }
    assert Accepted(fp, r, h, k + 1);
    WideningIsApproved(fp, r, h[k], h[k + 1]);
    GrowthIsNamed(r, ManifestOf(h[k]), ManifestOf(h[k + 1]), p);
  }

  lemma WideningIsApproved(fp: Violation -> Fingerprint, r: Rendering, base: Revision, current: Revision)
    requires Step(fp, r, base, current)
    ensures AllGrowth(r, ManifestOf(base), ManifestOf(current)) == Some(Approved(Settings(current)))
    ensures ForThisBase(Items(Reviews(Settings(current))), base.manifestHash)
    ensures |Items(Reviews(Settings(current)))| <= 1
  {
    hide Passes, BaselineStep, NotWeakened, SoundReview, Approved, AllGrowth, Reviews, DistinctBy, ForThisBase;
    var items := Items(Reviews(Settings(current)));
    if |items| > 1 {
      TwoDiffer(items, "previous_manifest_sha256");
      TwoAgree(items, base.manifestHash);
    }
  }

  lemma TwoDiffer(items: seq<Value>, key: string)
    requires |items| > 1 && DistinctBy(items, key)
    ensures Get(Fields(items[0]), key) != Get(Fields(items[1]), key)
  {
  }

  lemma TwoAgree(items: seq<Value>, hash: string)
    requires |items| > 1 && ForThisBase(items, hash)
    ensures Get(Fields(items[0]), "previous_manifest_sha256") == Get(Fields(items[1]), "previous_manifest_sha256")
  {
  }

  // ----- The same revision again

  lemma {:induction false} ForBaseIsListed(items: seq<Value>, key: string, hash: string)
    ensures forall t :: t in For(items, key, hash) ==> t in items
  {
    if |items| > 0 {
      ForBaseIsListed(items[1..], key, hash);
    }
  }

  /** A sound transition for this base changes the baseline. */
  lemma TransitionsChange(e: Map, hash: string, localAdr: string -> bool)
    requires SoundTransitions(e, localAdr) && ForBase(e, hash) != []
    ensures !ReviewedDelta(e, hash, {}, {})
  {
    var t := ForBase(e, hash)[0];
    ForBaseIsListed(Items(Get(e, "reviewed_baseline_transitions")), "previous_baseline_sha256", hash);
    assert SoundTransition(t, localAdr);
  }

  lemma SameBaseline(fp: Violation -> Fingerprint, revision: Revision)
    requires Passes(fp, revision)
    ensures BaselineStep(fp, revision, revision) <==>
              var e := Settings(revision);
              && GetOr(e, "reviewed_baseline_transitions", List([])).List?
              && ForBase(e, revision.baselineHash) == [] && Adopted(e, revision.baselineHash) == {}
  {
    hide WellFormed, Balanced, SoundTemporary, SoundTransitions, SoundDeferralContexts, SoundAdoption, SoundMode,
         Analyzed, ActivationLockErrors, Loaded, NON_BASELINABLE, ForBase, Adopted;
    var e, hash := Settings(revision), revision.baselineHash;
    assert NewlyRetained(fp, revision, revision) == {};
    assert Retained(fp, revision) - Retained(fp, revision) == {};
    if ForBase(e, hash) != [] {
      TransitionsChange(e, hash, revision.checkout.localAdr);
    }
  }

  /** A sound review approves something. */
  lemma ReviewsApprove(e: Map, acceptedAdr: Value -> bool)
    requires Reviews(e).List? && SoundReviews(Reviews(e).items, acceptedAdr) && Reviews(e).items != []
    ensures Approved(e) != {}
  {
    var t := Reviews(e).items[0];
    assert SoundReview(t, acceptedAdr);
    var change := t.fields["approved_changes"].items[0];
    assert change.s in Approved(e);
  }

  lemma SameNotWeakened(m: Map, e: Map)
    requires SoundRetiredModules(RetiredModules(m))
    ensures NotWeakened(m, m, e, e)
  {
  }

  lemma SameWidening(r: Rendering, m: Map, hash: string, acceptedAdr: Value -> bool)
    requires Migrations(m).Some? && EnforcementOf(m).Object?
    ensures ReviewedWidening(r, m, hash, m, acceptedAdr) <==> Reviews(EnforcementOf(m).fields) == List([])
  {
    UnchangedWidensNothing(r, m);
    hide Migrations, AllGrowth, SoundReview, Reviews;
    var e := EnforcementOf(m).fields;
    if Reviews(e).List? && Reviews(e).items != [] && SoundReviews(Reviews(e).items, acceptedAdr) {
      ReviewsApprove(e, acceptedAdr);
    }
  }

  lemma SameManifest(fp: Violation -> Fingerprint, r: Rendering, revision: Revision)
    requires Passes(fp, revision) && Migrations(ManifestOf(revision)).Some?
    ensures ManifestStep(r, revision, revision) <==> Reviews(Settings(revision)) == List([])
  {
    hide WellFormed, Settled, Migrations, Reviews, ReviewedWidening, NotWeakened, SoundRetiredModules,
         SoundRetiredBindings, NON_BASELINABLE;
    PassesShapes(fp, revision);
    SameNotWeakened(ManifestOf(revision), Settings(revision));
    SameWidening(r, ManifestOf(revision), revision.manifestHash, revision.checkout.acceptedAdr);
  }

  /** Reviews are good for one step: an accepted revision is accepted again on top of itself exactly when it
      carries no manifest transition and neither a transition nor an adoption for its own baseline. */
  lemma ResubmittedIff(fp: Violation -> Fingerprint, r: Rendering, revision: Revision)
    requires Passes(fp, revision) && Migrations(ManifestOf(revision)).Some?
    ensures Step(fp, r, revision, revision) <==>
              var e := Settings(revision);
              && Reviews(e) == List([])
              && GetOr(e, "reviewed_baseline_transitions", List([])).List?
              && ForBase(e, revision.baselineHash) == [] && Adopted(e, revision.baselineHash) == {}
  {
    hide Passes, BaselineStep, ManifestStep, Migrations, Reviews, ForBase, Adopted;
    SameBaseline(fp, revision);
    SameManifest(fp, r, revision);
  }

  /** A manifest that says nothing, and an empty baseline. */
  function Blank(fp: Violation -> Fingerprint): Revision {
    Revision(Parsed(map[]), "", Parsed(DocumentOf(fp, [])), "",
             Checkout([], v => false, s => false, v => false, v => false))
  }

  lemma BlankEnforced(localAdr: string -> bool)
    ensures EnforcementOf(map[]) == Object(map[]) && SoundEnforcement(map[], [], [], localAdr)
  {
    hide SoundTransition, FingerprintList, SortedUnique, SoundMapping;
    assert EnforcementOf(map[]) == Object(map[]);
    ActivationLock(map[]);
  }

  lemma BlankAnalyzed()
    ensures Analyzed(map[], []) == []
  {
    hide CoreModule, ShapeMessage;
    assert ShapeFindings(map[]) == [];
  }

  lemma BlankPasses(fp: Violation -> Fingerprint)
    ensures Passes(fp, Blank(fp))
  {
    hide NON_BASELINABLE, EXACT_MAPPING, POLICY, SoundEnforcement, Analyzed, WellFormed, Entries, DocumentOf, SoundMapping;
    WrittenLoadsIff(fp, []);
    BlankAnalyzed();
    BlankEnforced(Blank(fp).checkout.localAdr);
    assert Balanced(fp, AbsoluteRules(map[]), [], []);
    assert Get(map[], "temporary_violations") == Null;
    assert Settled(fp, map[], [], [], Blank(fp).checkout);
  }

  /** There are runs of every length: the blank revision is accepted on top of itself. */
  lemma RunsExist(fp: Violation -> Fingerprint, r: Rendering, n: nat) returns (h: seq<Revision>)
    ensures |h| == n && Run(fp, r, h)
  {
    hide Step, Blank, Passes;
    var blank := Blank(fp);
    BlankPasses(fp);
    BlankAgain(fp, r);
    h := seq(n, i => blank);
  }

  lemma BlankAgain(fp: Violation -> Fingerprint, r: Rendering)
    requires Passes(fp, Blank(fp))
    ensures Step(fp, r, Blank(fp), Blank(fp))
  {
    hide Passes, Step, DocumentOf, NON_BASELINABLE, EXACT_MAPPING, POLICY;
    assert ManifestOf(Blank(fp)) == map[] && Settings(Blank(fp)) == map[];
    assert Migrations(map[]) == Some(map[]);
    NothingReviewed(Blank(fp).baselineHash);
    ResubmittedIff(fp, r, Blank(fp));
  }

  lemma NothingReviewed(hash: string)
    ensures Reviews(map[]) == List([]) && ForBase(map[], hash) == [] && Adopted(map[], hash) == {}
  {
  }
}
