/** What the two comparisons of the ratchet and the enforcement check ask, in terms of the documents alone. */
module GateMeaning {
  import opened Baseline
  import opened Documents
  import opened Enforcement
  import opened Findings
  import opened Gate
  import opened Json
  import opened Ordering
  import opened Ratchet
  import opened Temporary
  import opened Widenings
  import opened Wrappers
  import A = ArgumentGrammar
  import C = CallArguments
  import W = WideningChanges

  // ----- Texts and lists of texts

  /** The first text is not behind the second: the first difference decides, by code point, and a beginning comes
      before what it begins. */
  ghost predicate UpTo(a: string, b: string) {
    exists k: nat :: UpToAt(a, b, k)
  }

  predicate UpToAt(a: string, b: string, k: nat) {
    k <= |a| && k <= |b| && a[..k] == b[..k] && (k == |a| || (k < |b| && a[k] as int < b[k] as int))
  }

  lemma {:induction false} NameLeqIff(a: string, b: string)
    ensures NameLeq(a, b) <==> UpTo(a, b)
    decreases |a|
  {
    UpToStep(a, b);
    hide UpTo;
    if |a| > 0 && |b| > 0 && a[0] == b[0] {
      NameLeqIff(a[1..], b[1..]);
    }
  }

  lemma UpToStep(a: string, b: string)
    ensures UpTo(a, b) <==>
              |a| == 0 || (|b| > 0 && (a[0] as int < b[0] as int || (a[0] == b[0] && UpTo(a[1..], b[1..]))))
  {
    if |a| == 0 || (|b| > 0 && a[0] as int < b[0] as int) {
      assert a[..0] == b[..0] && UpToAt(a, b, 0);
    } else if |b| > 0 {
      assert !UpToAt(a, b, 0);
      if UpTo(a, b) {
        var k: nat :| UpToAt(a, b, k);
        assert k != 0;
        TailUpTo(a, b, k - 1);
      }
      if a[0] == b[0] && UpTo(a[1..], b[1..]) {
        var k: nat :| UpToAt(a[1..], b[1..], k);
        TailUpTo(a, b, k);
      }
    }
  }

  lemma TailUpTo(a: string, b: string, k: nat)
    requires |a| > 0 && |b| > 0
    ensures UpToAt(a, b, k + 1) <==> a[0] == b[0] && UpToAt(a[1..], b[1..], k)
  {
    if k + 1 <= |a| && k + 1 <= |b| {
      assert a[..k + 1] == [a[0]] + a[1..][..k] && b[..k + 1] == [b[0]] + b[1..][..k];
      assert a[..k + 1] == b[..k + 1] ==> a[..k + 1][0] == b[..k + 1][0] && a[..k + 1][1..] == b[..k + 1][1..];
    }
  }

  /** A list of texts, each one behind the one before. */
  ghost predicate InOrder(v: Value) {
    && v.List? && (forall item :: item in v.items ==> item.Text?)
    && forall i, j :: 0 <= i < j < |v.items| ==> UpTo(v.items[i].s, v.items[j].s) && v.items[i] != v.items[j]
  }

  lemma InOrderIff(v: Value)
    ensures SortedUnique(v) <==> InOrder(v)
  {
    hide UpTo, SortedSet, NameLeq;
    NameLeqTotal();
    forall a, b ensures NameLeq(a, b) <==> UpTo(a, b) {
      NameLeqIff(a, b);
    }
    if AllTexts(v) {
      SortedSetIff(NameLeq, Texts(v.items));
      var texts := Texts(v.items);
      assert Ascending(NameLeq, texts) <==> forall i, j :: 0 <= i < j < |v.items| ==> UpTo(v.items[i].s, v.items[j].s);
      assert Distinct(texts) <==> forall i, j :: 0 <= i < j < |v.items| ==> v.items[i].s != v.items[j].s;
    }
  }

  /** So many lower-case hexadecimal digits. */
  predicate Digits(v: Value, length: nat) {
    v.Text? && |v.s| == length && forall c :: c in v.s ==> c in "0123456789abcdef"
  }

  lemma DigitsIff(v: Value, length: nat)
    ensures Hex(v, length) <==> Digits(v, length)
  {
    forall c ensures HexDigit(c) <==> c in "0123456789abcdef" {
      DigitIs(c);
    }
  }

  lemma DigitIs(c: char)
    ensures HexDigit(c) <==> c in "0123456789abcdef"
  {
    var digits := "0123456789abcdef";
    assert digits[0] == '0' && digits[1] == '1' && digits[2] == '2' && digits[3] == '3' && digits[4] == '4'
           && digits[5] == '5' && digits[6] == '6' && digits[7] == '7' && digits[8] == '8' && digits[9] == '9'
           && digits[10] == 'a' && digits[11] == 'b' && digits[12] == 'c' && digits[13] == 'd' && digits[14] == 'e'
           && digits[15] == 'f';
  }

  /** A text with something in it that is not blank. */
  predicate Written(v: Value) {
    v.Text? && exists i :: 0 <= i < |v.s| && !A.Blank(v.s[i])
  }

  lemma WrittenIff(v: Value)
    ensures Filled(v) <==> Written(v)
  {
    hide A.Blank, C.IsSpace, C.Strip;
    if v.Text? {
      var a, b := C.StripSpec(v.s);
      forall c ensures C.IsSpace(c) <==> A.Blank(c) {
        A.BlankIff(c);
      }
      if a < b {
        assert !A.Blank(v.s[a]);
      }
    }
  }

  // ----- Reviewed transitions

  /** One reviewed transition of the baseline. */
  ghost predicate TransitionMeans(v: Value, localAdr: string -> bool) {
    && v.Object?
    && v.fields.Keys == {"id", "previous_baseline_sha256", "added_fingerprints", "removed_fingerprints", "adr",
                         "removal_condition"}
    && Written(v.fields["id"]) && Digits(v.fields["previous_baseline_sha256"], 64)
    && FingerprintsIn(v.fields["added_fingerprints"]) && FingerprintsIn(v.fields["removed_fingerprints"])
    && (v.fields["added_fingerprints"].items != [] || v.fields["removed_fingerprints"].items != [])
    && (forall f :: f in v.fields["added_fingerprints"].items ==> f !in v.fields["removed_fingerprints"].items)
    && Written(v.fields["adr"]) && localAdr(v.fields["adr"].s) && Written(v.fields["removal_condition"])
  }

  ghost predicate FingerprintsIn(v: Value) {
    InOrder(v) && forall f :: f in v.items ==> Digits(f, 16)
  }

  lemma FingerprintsIs(v: Value)
    ensures FingerprintList(v) <==> FingerprintsIn(v)
    ensures FingerprintList(v) ==> (Strings(v) == {} <==> v.items == [])
    ensures forall s :: s in Strings(v) <==> v.List? && Text(s) in v.items
  {
    hide SortedUnique, InOrder, Hex, Digits;
    InOrderIff(v);
    forall item ensures Hex(item, 16) <==> Digits(item, 16) {
      DigitsIff(item, 16);
    }
    InOrderTexts(v);
    forall s ensures s in Strings(v) <==> v.List? && Text(s) in v.items {
      W.ListsIs(v, s);
    }
    if FingerprintList(v) && v.items != [] {
      assert v.items[0] in v.items && v.items[0].Text?;
      assert v.items[0].s in Strings(v);
    }
  }

  lemma InOrderTexts(v: Value)
    ensures InOrder(v) ==> v.List? && forall item :: item in v.items ==> item.Text?
  {
  }

  lemma TransitionIff(v: Value, localAdr: string -> bool)
    ensures SoundTransition(v, localAdr) <==> TransitionMeans(v, localAdr)
  {
    hide Filled, Written, Hex, Digits, FingerprintList, FingerprintsIn, Strings;
    if v.Object? && v.fields.Keys == TRANSITION_FIELDS {
      var added, removed := v.fields["added_fingerprints"], v.fields["removed_fingerprints"];
      WrittenIff(v.fields["id"]);
      WrittenIff(v.fields["adr"]);
      WrittenIff(v.fields["removal_condition"]);
      DigitsIff(v.fields["previous_baseline_sha256"], 64);
      FingerprintsIs(added);
      FingerprintsIs(removed);
      if FingerprintList(added) && FingerprintList(removed) {
        TextsOf(added);
        TextsOf(removed);
        assert Strings(added) !! Strings(removed) <==> forall f :: f in added.items ==> f !in removed.items by {
          assert forall s :: s in Strings(added) <==> Text(s) in added.items;
        }
      }
    }
  }

  lemma TextsOf(v: Value)
    requires FingerprintList(v)
    ensures v.List? && forall item :: item in v.items ==> item.Text?
  {
  }

  /** One reviewed transition of the manifest, for the base with this hash. */
  ghost predicate ReviewMeans(t: Value, hash: string, acceptedAdr: Value -> bool) {
    && t.Object? && t.fields.Keys == {"id", "previous_manifest_sha256", "approved_changes", "adr", "removal_condition"}
    && Written(t.fields["id"]) && t.fields["previous_manifest_sha256"] == Text(hash) && Digits(Text(hash), 64)
    && InOrder(t.fields["approved_changes"]) && t.fields["approved_changes"].items != []
    && Text("") !in t.fields["approved_changes"].items
    && acceptedAdr(t.fields["adr"]) && Written(t.fields["removal_condition"])
  }

  lemma ReviewIff(t: Value, hash: string, acceptedAdr: Value -> bool)
    ensures SoundReview(t, acceptedAdr) && Get(Fields(t), "previous_manifest_sha256") == Text(hash) <==>
              ReviewMeans(t, hash, acceptedAdr)
  {
    hide Filled, Written, Hex, Digits, InOrder, SortedUnique;
    if t.Object? && t.fields.Keys == REVIEW_FIELDS {
      WrittenIff(t.fields["id"]);
      WrittenIff(t.fields["removal_condition"]);
      DigitsIff(t.fields["previous_manifest_sha256"], 64);
      InOrderIff(t.fields["approved_changes"]);
      UniqueTexts(t.fields["approved_changes"]);
    }
  }

  lemma UniqueTexts(v: Value)
    ensures SortedUnique(v) ==> AllTexts(v)
  {
  }

  // ----- The comparison of the manifests

  /** The value under the key; where there is none, the given one. */
  function Or(m: Map, key: string, other: Value): Value {
    if key in m then m[key] else other
  }

  /** The enforcement section. */
  function Section(m: Map): Value {
    Or(m, "enforcement", Object(map[]))
  }

  function ModeIn(e: Value): Value {
    if e.Object? then Or(e.fields, "mode", Text("baseline")) else Text("baseline")
  }

  /** How strict a mode is. */
  function Strictness(mode: Value): int {
    if mode == Text("strict") then 2
    else if mode == Text("strict_with_explicit_deferrals") then 1
    else if mode == Text("baseline") then 0
    else -1
  }

  predicate IsActive(e: Value) {
    W.At(W.At(e, "strict_with_explicit_deferrals"), "active") == Bool(true)
  }

  /** The list retires the key of the application. */
  predicate Retires(v: Value, application: string, key: string) {
    v.List? && exists d :: d in v.items && W.At(d, "application") == Text(application) && W.At(d, "key") == Text(key)
  }

  /** Neither status nor mode nor target is lowered, the policy stays active, and tombstones stay. */
  predicate NothingLowered(b: Map, c: Map) {
    var be, ce := Section(b), Section(c);
    && (W.Top(b, "status") == Text("enforced") ==> W.Top(c, "status") == Text("enforced"))
    && TombstonesIn(Or(b, "retired_modules", List([])), Or(c, "retired_modules", List([])))
    && (forall d :: d in Items(Or(b, "retired_runtime_bindings", List([])))
                    && W.At(d, "application").Text? && W.At(d, "key").Text? ==>
          Retires(Or(c, "retired_runtime_bindings", List([])), W.At(d, "application").s, W.At(d, "key").s))
    && (Strictness(W.At(be, "target_mode")) >= 1 ==>
          Strictness(W.At(ce, "target_mode")) >= Strictness(W.At(be, "target_mode")))
    && (ModeIn(be) == Text("strict") ==> ModeIn(ce) == Text("strict"))
    && (ModeIn(be) == Text("strict_with_explicit_deferrals") ==>
          ModeIn(ce) in {Text("strict_with_explicit_deferrals"), Text("strict")})
    && (IsActive(be) ==> IsActive(ce) || ModeIn(ce) == Text("strict"))
  }

  /** Two lists of tombstones can only be compared if all their items are hashable; none is then lost. */
  predicate TombstonesIn(was: Value, now: Value) {
    was.List? && now.List? ==>
      && (forall v :: v in was.items ==> !v.List? && !v.Object?) && (forall v :: v in now.items ==> !v.List? && !v.Object?)
      && forall v :: v in was.items ==> v in now.items
  }

  lemma LoweredIff(b: Map, c: Map)
    requires EnforcementOf(b).Object? && EnforcementOf(c).Object?
    ensures NotWeakened(b, c, EnforcementOf(b).fields, EnforcementOf(c).fields) <==> NothingLowered(b, c)
  {
    TombstonesIs(RetiredModules(b), RetiredModules(c));
    BindingsKept(b, c);
    hide TombstonesKept, TombstonesIn, RetiredKeys, Retires;
    assert EnforcementOf(b) == Section(b) && EnforcementOf(c) == Section(c);
  }

  lemma TombstonesIs(was: Value, now: Value)
    ensures TombstonesKept(was, now) <==> TombstonesIn(was, now)
  {
    if was.List? && now.List? {
      assert forall v :: v in was.items + now.items <==> v in was.items || v in now.items;
    }
  }

  lemma BindingsKept(b: Map, c: Map)
    ensures RetiredKeys(b) <= RetiredKeys(c) <==>
              forall d :: d in Items(Or(b, "retired_runtime_bindings", List([])))
                          && W.At(d, "application").Text? && W.At(d, "key").Text? ==>
                Retires(Or(c, "retired_runtime_bindings", List([])), W.At(d, "application").s, W.At(d, "key").s)
  {
    forall application, key
      ensures (application, key) in RetiredKeys(c) <==> Retires(Or(c, "retired_runtime_bindings", List([])), application, key)
    {
      RetiredIs(c, application, key);
    }
    forall d | d in Items(RetiredBindings(b)) && W.At(d, "application").Text? && W.At(d, "key").Text?
      ensures (W.At(d, "application").s, W.At(d, "key").s) in RetiredKeys(b)
    {
      assert Get(Fields(d), "application") == W.At(d, "application") && Get(Fields(d), "key") == W.At(d, "key");
    }
    hide Retires;
    if forall d :: d in Items(RetiredBindings(b)) && W.At(d, "application").Text? && W.At(d, "key").Text? ==>
         (W.At(d, "application").s, W.At(d, "key").s) in RetiredKeys(c)
    {
      forall pair | pair in RetiredKeys(b) ensures pair in RetiredKeys(c) {
        var d :| d in Items(RetiredBindings(b)) && Get(Fields(d), "application") == Text(pair.0)
                 && Get(Fields(d), "key") == Text(pair.1);
        assert W.At(d, "application") == Text(pair.0) && W.At(d, "key") == Text(pair.1);
      }
    }
  }

  lemma RetiredIs(c: Map, application: string, key: string)
    ensures (application, key) in RetiredKeys(c) <==> Retires(Or(c, "retired_runtime_bindings", List([])), application, key)
  {
    var v := Or(c, "retired_runtime_bindings", List([]));
    assert v == RetiredBindings(c);
    if (application, key) in RetiredKeys(c) {
      var d :| d in Items(v) && Get(Fields(d), "application") == Text(application) && Get(Fields(d), "key") == Text(key);
      assert W.At(d, "application") == Text(application) && W.At(d, "key") == Text(key);
    }
    if Retires(v, application, key) {
      var d :| d in v.items && W.At(d, "application") == Text(application) && W.At(d, "key") == Text(key);
      assert d in Items(v) && Get(Fields(d), "application") == Text(application) && Get(Fields(d), "key") == Text(key);
    }
  }

  /** The reviewed transitions of the manifest: at most one, for this base, approving exactly the tokens of the
      differences. */
  ghost predicate Reviewed(r: Rendering, b: Map, hash: string, c: Map, acceptedAdr: Value -> bool) {
    && Section(c).Object?
    && var reviews := Or(Section(c).fields, "reviewed_manifest_transitions", List([]));
       && reviews.List? && |reviews.items| <= 1
       && (forall t :: t in reviews.items ==> ReviewMeans(t, hash, acceptedAdr))
       && !W.Unwalkable(W.Declarations(b)) && !W.Unwalkable(W.Declarations(c))
       && forall token :: Approved(reviews.items, token) <==> Needed(r, b, c, token)
  }

  /** A review lists the token. */
  predicate Approved(reviews: seq<Value>, token: string) {
    exists t :: t in reviews && W.Lists(W.At(t, "approved_changes"), token)
  }

  /** The token stands for a difference between the documents. */
  ghost predicate Needed(r: Rendering, b: Map, c: Map, token: string) {
    exists change :: W.Differs(r, b, c, change) && W.TokenOf(r, change) == token
  }

  lemma ReviewsIff(items: seq<Value>, hash: string, acceptedAdr: Value -> bool)
    ensures SoundReviews(items, acceptedAdr) && ForThisBase(items, hash) <==>
              |items| <= 1 && forall t :: t in items ==> ReviewMeans(t, hash, acceptedAdr)
  {
    hide SoundReview, ReviewMeans;
    forall t ensures SoundReview(t, acceptedAdr) && Get(Fields(t), "previous_manifest_sha256") == Text(hash) <==>
                       ReviewMeans(t, hash, acceptedAdr)
    {
      ReviewIff(t, hash, acceptedAdr);
    }
    if |items| > 1 && ForThisBase(items, hash) {
      assert items[0] in items && items[1] in items;
      assert !DistinctBy(items, "previous_manifest_sha256");
    }
  }

  lemma ApprovedIs(e: Map, token: string)
    requires Reviews(e).List? && |Reviews(e).items| <= 1
    ensures token in Ratchet.Approved(e) <==> Approved(Reviews(e).items, token)
  {
    var items := Reviews(e).items;
    if |items| == 1 {
      var t := items[0];
      W.ListsIs(Get(Fields(t), "approved_changes"), token);
      assert Get(Fields(t), "approved_changes") == W.At(t, "approved_changes");
      assert t in items && forall other :: other in items ==> other == t;
    }
  }

  lemma NeededIff(r: Rendering, b: Map, c: Map)
    requires AllGrowth(r, b, c).Some?
    ensures forall token :: token in AllGrowth(r, b, c).value <==> Needed(r, b, c, token)
  {
    hide AllGrowth, W.Differs, W.TokenOf;
    W.TokensIff(r, b, c);
  }

  lemma ReviewedIff(r: Rendering, b: Map, hash: string, c: Map, acceptedAdr: Value -> bool)
    ensures ReviewedWidening(r, b, hash, c, acceptedAdr) <==> Reviewed(r, b, hash, c, acceptedAdr)
  {
    hide SoundReviews, ForThisBase, ReviewMeans, AllGrowth, Ratchet.Approved, Approved, Needed, W.Differs, W.TokenOf, W.Unwalkable,
         W.Declarations;
    W.TokensIff(r, b, c);
    assert EnforcementOf(c) == Section(c);
    if Section(c).Object? && Reviews(Section(c).fields).List? {
      var e := Section(c).fields;
      var items := Reviews(e).items;
      ReviewsIff(items, hash, acceptedAdr);
      if |items| <= 1 && AllGrowth(r, b, c).Some? {
        NeededIff(r, b, c);
        forall token ensures token in Ratchet.Approved(e) <==> Approved(items, token) {
          ApprovedIs(e, token);
        }
        SameTokens(AllGrowth(r, b, c).value, Ratchet.Approved(e));
      }
    }
  }

  lemma SameTokens(a: set<string>, b: set<string>)
    ensures a == b <==> forall token :: token in a <==> token in b
  {
  }

  /** The manifests compare without an error if and only if the differences are reviewed and nothing is lowered. */
  lemma ManifestStepIff(r: Rendering, base: Revision, current: Revision)
    ensures ManifestStep(r, base, current) <==>
              && base.manifest.Parsed? && current.manifest.Parsed?
              && Section(base.manifest.fields).Object?
              && Reviewed(r, base.manifest.fields, base.manifestHash, current.manifest.fields, current.checkout.acceptedAdr)
              && NothingLowered(base.manifest.fields, current.manifest.fields)
  {
    hide ReviewedWidening, NotWeakened, NothingLowered;
    if base.manifest.Parsed? && current.manifest.Parsed? {
      var b, c := base.manifest.fields, current.manifest.fields;
      ReviewedIff(r, b, base.manifestHash, c, current.checkout.acceptedAdr);
      assert EnforcementOf(b) == Section(b) && EnforcementOf(c) == Section(c);
      if Section(b).Object? && Section(c).Object? {
        LoweredIff(b, c);
        assert Settings(base) == Section(b).fields && Settings(current) == Section(c).fields;
      }
    }
  }

  // ----- The comparison of the baselines

  const REQUIRED_POLICY := "Relative to the checked-in baseline, new, changed, or resolved fingerprints fail CI; baseline edits require architecture review."

  lemma PolicyIs()
    ensures POLICY == REQUIRED_POLICY
  {
  }

  /** One line of the baseline: four texts, of which one is the fingerprint of the others. */
  predicate LineMeans(fp: Violation -> Fingerprint, item: Value) {
    && item.Object? && item.fields.Keys == {"fingerprint", "rule", "path", "detail"}
    && (forall key :: key in item.fields ==> item.fields[key].Text? && item.fields[key].s != "")
    && item.fields["fingerprint"].s
         == fp(Violation(item.fields["rule"].s, item.fields["path"].s, item.fields["detail"].s))
  }

  /** The text under the key. */
  function TextAt(item: Value, key: string): string {
    if W.At(item, key).Text? then W.At(item, key).s else ""
  }

  /** Lines are ordered by rule, then by path, then by detail. */
  ghost predicate LineUpTo(a: Value, b: Value) {
    if TextAt(a, "rule") != TextAt(b, "rule") then UpTo(TextAt(a, "rule"), TextAt(b, "rule"))
    else if TextAt(a, "path") != TextAt(b, "path") then UpTo(TextAt(a, "path"), TextAt(b, "path"))
    else UpTo(TextAt(a, "detail"), TextAt(b, "detail"))
  }

  function Lines(d: Map): seq<Value> {
    Items(W.Top(d, "violations"))
  }

  /** A baseline file in order. */
  ghost predicate FileMeans(fp: Violation -> Fingerprint, d: Map) {
    && W.Top(d, "version") == Number(1)
    && W.Top(d, "policy") == Text(REQUIRED_POLICY)
    && W.Top(d, "violations").List? && (forall line :: line in Lines(d) ==> LineMeans(fp, line))
    && (forall i, j :: 0 <= i < j < |Lines(d)| ==> TextAt(Lines(d)[i], "fingerprint") != TextAt(Lines(d)[j], "fingerprint"))
    && forall i, j :: 0 <= i < j < |Lines(d)| ==> LineUpTo(Lines(d)[i], Lines(d)[j])
  }

  function ViolationIn(item: Value): Violation {
    Violation(TextAt(item, "rule"), TextAt(item, "path"), TextAt(item, "detail"))
  }

  lemma LineIff(fp: Violation -> Fingerprint, item: Value)
    ensures Sound(fp, item) <==> LineMeans(fp, item)
    ensures Sound(fp, item) ==> ReadEntry(item) == Some(Entry(TextAt(item, "fingerprint"), ViolationIn(item)))
  {
    if item.Object? && item.fields.Keys == {"fingerprint", "rule", "path", "detail"} {
      assert (forall key :: key in item.fields ==> item.fields[key].Text? && item.fields[key].s != "") <==>
               (forall key :: key in {"fingerprint", "rule", "path", "detail"} ==>
                  item.fields[key].Text? && item.fields[key].s != "");
      FourTexts(item.fields);
    }
  }

  lemma FourTexts(m: Map)
    requires m.Keys == {"fingerprint", "rule", "path", "detail"}
    ensures (forall key :: key in {"fingerprint", "rule", "path", "detail"} ==> m[key].Text? && m[key].s != "") <==>
              && m["fingerprint"].Text? && m["fingerprint"].s != "" && m["rule"].Text? && m["rule"].s != ""
              && m["path"].Text? && m["path"].s != "" && m["detail"].Text? && m["detail"].s != ""
  {
  }

  lemma {:induction false} EntriesAre(fp: Violation -> Fingerprint, items: seq<Value>)
    requires forall item :: item in items ==> LineMeans(fp, item)
    ensures |ReadEntries(items)| == |items|
    ensures forall i :: 0 <= i < |items| ==>
              ReadEntries(items)[i] == Entry(TextAt(items[i], "fingerprint"), ViolationIn(items[i]))
  {
    hide LineMeans, ReadEntry, TextAt, ViolationIn;
    if |items| > 0 {
      var n := |items| - 1;
      EntriesAre(fp, items[..n]);
      LineIff(fp, items[n]);
    }
  }

  lemma KeysUpTo(v: Violation, w: Violation)
    ensures ViolationLeq(v, w) <==>
              if v.rule != w.rule then UpTo(v.rule, w.rule)
              else if v.path != w.path then UpTo(v.path, w.path)
              else UpTo(v.detail, w.detail)
  {
    hide NameLeq, UpTo;
    NameLeqIff(v.rule, w.rule);
    NameLeqIff(v.path, w.path);
    NameLeqIff(v.detail, w.detail);
    NameLeqLaws(v.rule, v.rule, v.rule);
    NameLeqLaws(v.path, v.path, v.path);
    assert Key(v)[1..] == [v.path, v.detail] && Key(w)[1..] == [w.path, w.detail];
    assert [v.path, v.detail][1..] == [v.detail] && [w.path, w.detail][1..] == [w.detail];
    assert [v.detail][1..] == [] && [w.detail][1..] == [];
    assert NamesLeq([v.detail], [w.detail]) <==> NameLeq(v.detail, w.detail);
  }

  lemma FileIff(fp: Violation -> Fingerprint, d: Map)
    ensures WellFormed(fp, d) <==> FileMeans(fp, d)
  {
    PolicyIs();
    hide Sound, LineMeans, ViolationLeq, UpTo, ReadEntries, TextAt, POLICY, REQUIRED_POLICY;
    var items := Lines(d);
    assert items == Items(Get(d, "violations")) && Get(d, "violations") == W.Top(d, "violations");
    forall item ensures Sound(fp, item) <==> LineMeans(fp, item) {
      LineIff(fp, item);
    }
    if forall line :: line in items ==> LineMeans(fp, line) {
      EntriesAre(fp, items);
      var entries := ReadEntries(items);
      assert DistinctFingerprints(entries) <==>
               forall i, j :: 0 <= i < j < |items| ==> TextAt(items[i], "fingerprint") != TextAt(items[j], "fingerprint");
      assert |Entries(d)| == |items| && forall i :: 0 <= i < |items| ==> Entries(d)[i] == ViolationIn(items[i]);
      forall i, j | 0 <= i < |items| && 0 <= j < |items|
        ensures ViolationLeq(Entries(d)[i], Entries(d)[j]) <==> LineUpTo(items[i], items[j])
      {
        KeysUpTo(Entries(d)[i], Entries(d)[j]);
      }
    }
  }

  /** The file retains the fingerprint. */
  predicate Keeps(d: Map, f: Fingerprint) {
    exists line :: line in Lines(d) && W.At(line, "fingerprint") == Text(f)
  }

  lemma KeepsIff(fp: Violation -> Fingerprint, d: Map)
    requires FileMeans(fp, d)
    ensures forall f :: f in Fingerprints(fp, Entries(d)) <==> Keeps(d, f)
    ensures forall v :: v in Entries(d) <==> exists line :: line in Lines(d) && ViolationIn(line) == v
    ensures forall line :: line in Lines(d) ==>
              fp(ViolationIn(line)) == TextAt(line, "fingerprint")
              && W.At(line, "fingerprint") == Text(TextAt(line, "fingerprint"))
  {
    hide LineUpTo, ReadEntries;
    var items := Lines(d);
    EntriesAre(fp, items);
    assert |Entries(d)| == |items| && forall i :: 0 <= i < |items| ==> Entries(d)[i] == ViolationIn(items[i]);
    forall line | line in items
      ensures fp(ViolationIn(line)) == TextAt(line, "fingerprint")
              && W.At(line, "fingerprint") == Text(TextAt(line, "fingerprint"))
    {
      assert LineMeans(fp, line);
    }
    hide LineMeans, FileMeans, TextAt, ViolationIn;
    forall f ensures f in Fingerprints(fp, Entries(d)) <==> Keeps(d, f) {
      if f in Fingerprints(fp, Entries(d)) {
        var v :| v in Entries(d) && fp(v) == f;
        var i :| 0 <= i < |items| && Entries(d)[i] == v;
        assert items[i] in items;
      }
      if Keeps(d, f) {
        var line :| line in items && W.At(line, "fingerprint") == Text(f);
        var i :| 0 <= i < |items| && items[i] == line;
        assert Entries(d)[i] in Entries(d);
      }
    }
  }

  /** Once something is activated, the mode is strict and is the target. */
  predicate Locked(m: Map) {
    && Section(m).Object?
    && if Strictness(ModeIn(Section(m))) >= 1 then W.At(Section(m), "target_mode") == ModeIn(Section(m))
       else W.Top(m, "status") != Text("enforced") && W.At(Section(m), "target_mode") == Null && !IsActive(Section(m))
  }

  lemma LockedIff(m: Map)
    ensures EnforcementOf(m).Object? && ActivationLockErrors(m) == {} <==> Locked(m)
  {
    ActivationLock(m);
    hide ActivationLockErrors;
    assert EnforcementOf(m) == Section(m);
    if Section(m).Object? {
      assert Mode(Section(m).fields) == ModeIn(Section(m)) && Target(Section(m).fields) == W.At(Section(m), "target_mode");
      StrictnessIs(ModeIn(Section(m)));
      ActiveIs(Section(m).fields);
    }
  }

  lemma StrictnessIs(mode: Value)
    ensures Rank(mode) == Strictness(mode)
  {
  }

  lemma ActiveIs(e: Map)
    ensures Active(e) <==> IsActive(Object(e))
  {
  }

  /** Nothing new may be deferred under these rules. */
  predicate Protected(e: Value, rule: string) {
    || rule in {"adapter_internal_module_import", "adapter_schema_import"}
    || W.Lists(W.At(W.At(e, "strict_with_explicit_deferrals"), "no_new_deferrals_for_rules"), rule)
  }

  lemma ProtectedIs(e: Map, rule: string)
    ensures rule in ProtectedRules(e) <==> Protected(Object(e), rule)
  {
    W.ListsIs(Get(Fields(StrictPolicy(e)), "no_new_deferrals_for_rules"), rule);
    assert Get(Fields(StrictPolicy(e)), "no_new_deferrals_for_rules")
        == W.At(W.At(Object(e), "strict_with_explicit_deferrals"), "no_new_deferrals_for_rules");
  }

  /** The reviewed transitions of the baseline, where the enforcement section has any. */
  function TransitionsIn(e: Value): Value {
    if e.Object? then Or(e.fields, "reviewed_baseline_transitions", List([])) else List([])
  }

  ghost predicate TransitionsMean(e: Value, localAdr: string -> bool) {
    && TransitionsIn(e).List? && (forall t :: t in TransitionsIn(e).items ==> TransitionMeans(t, localAdr))
    && (forall i, j :: 0 <= i < j < |TransitionsIn(e).items| ==>
          && W.At(TransitionsIn(e).items[i], "id") != W.At(TransitionsIn(e).items[j], "id")
          && W.At(TransitionsIn(e).items[i], "previous_baseline_sha256")
               != W.At(TransitionsIn(e).items[j], "previous_baseline_sha256"))
    && forall t :: t in TransitionsIn(e).items ==>
         W.At(t, "previous_baseline_sha256") != W.At(W.At(e, "baseline_adoption"), "previous_baseline_sha256")
  }

  lemma TransitionsIff(e: Map, localAdr: string -> bool)
    ensures SoundTransitions(e, localAdr) && GetOr(e, "reviewed_baseline_transitions", List([])).List? <==>
              TransitionsMean(Object(e), localAdr)
  {
    hide SoundTransition, TransitionMeans;
    forall t ensures SoundTransition(t, localAdr) <==> TransitionMeans(t, localAdr) {
      TransitionIff(t, localAdr);
    }
    forall t: Value, key ensures Get(Fields(t), key) == W.At(t, key) {
    }
    assert AdoptionHash(e) == W.At(W.At(Object(e), "baseline_adoption"), "previous_baseline_sha256");
  }

  /** What is new in the baseline. */
  predicate Grows(b: Map, c: Map, f: Fingerprint) {
    Keeps(c, f) && !Keeps(b, f)
  }

  /** What is new in the baseline, and what is gone, is what the transition for this base says; without one, only
      what the adoption for this base allows is new, and all of that. */
  ghost predicate DeltaMeans(e: Value, hash: string, b: Map, c: Map) {
    && (forall t :: t in Items(TransitionsIn(e)) && W.At(t, "previous_baseline_sha256") == Text(hash) ==>
          && (forall f :: Grows(b, c, f) <==> W.Lists(W.At(t, "added_fingerprints"), f))
          && (forall f :: Grows(c, b, f) <==> W.Lists(W.At(t, "removed_fingerprints"), f)))
    && (!(exists t :: t in Items(TransitionsIn(e)) && W.At(t, "previous_baseline_sha256") == Text(hash)) ==>
          forall f :: Grows(b, c, f) <==> Adopts(e, hash, f))
  }

  predicate Adopts(e: Value, hash: string, f: Fingerprint) {
    && W.At(W.At(e, "baseline_adoption"), "previous_baseline_sha256") == Text(hash)
    && W.Lists(W.At(W.At(e, "baseline_adoption"), "allowed_discovery_fingerprints"), f)
  }

  lemma AdoptedIs(e: Map, hash: string, f: Fingerprint)
    ensures f in Adopted(e, hash) <==> Adopts(Object(e), hash, f)
  {
    W.ListsIs(Get(Fields(Get(e, "baseline_adoption")), "allowed_discovery_fingerprints"), f);
  }

  lemma {:induction false} ForIs(items: seq<Value>, hash: string)
    ensures forall t :: t in For(items, "previous_baseline_sha256", hash) <==>
              t in items && W.At(t, "previous_baseline_sha256") == Text(hash)
  {
    if |items| > 0 {
      ForIs(items[1..], hash);
      assert forall t :: t in items <==> t == items[0] || t in items[1..];
      assert Get(Fields(items[0]), "previous_baseline_sha256") == W.At(items[0], "previous_baseline_sha256");
    }
  }

  /** The fingerprints of a transition are what its two lists hold. */
  lemma DeltaOf(t: Value, added: set<Fingerprint>, removed: set<Fingerprint>)
    ensures added == Strings(Get(Fields(t), "added_fingerprints")) && removed == Strings(Get(Fields(t), "removed_fingerprints"))
       <==> (forall f :: f in added <==> W.Lists(W.At(t, "added_fingerprints"), f))
            && (forall f :: f in removed <==> W.Lists(W.At(t, "removed_fingerprints"), f))
  {
    hide Strings, W.Lists;
    forall f
      ensures f in Strings(Get(Fields(t), "added_fingerprints")) <==> W.Lists(W.At(t, "added_fingerprints"), f)
      ensures f in Strings(Get(Fields(t), "removed_fingerprints")) <==> W.Lists(W.At(t, "removed_fingerprints"), f)
    {
      W.ListsIs(Get(Fields(t), "added_fingerprints"), f);
      W.ListsIs(Get(Fields(t), "removed_fingerprints"), f);
    }
    SameTokens(added, Strings(Get(Fields(t), "added_fingerprints")));
    SameTokens(removed, Strings(Get(Fields(t), "removed_fingerprints")));
  }

  lemma OneForBase(e: Map, localAdr: string -> bool, hash: string, t: Value, u: Value)
    requires TransitionsMean(Object(e), localAdr)
    requires t in TransitionsIn(Object(e)).items && u in TransitionsIn(Object(e)).items
    requires W.At(t, "previous_baseline_sha256") == Text(hash) && W.At(u, "previous_baseline_sha256") == Text(hash)
    ensures t == u
  {
    hide TransitionMeans;
  }

  lemma DeltaIff(e: Map, localAdr: string -> bool, hash: string, b: Map, c: Map, added: set<Fingerprint>,
                 removed: set<Fingerprint>)
    requires TransitionsMean(Object(e), localAdr)
    requires (forall f :: f in added <==> Grows(b, c, f)) && forall f :: f in removed <==> Grows(c, b, f)
    ensures ReviewedDelta(e, hash, added, removed) <==> DeltaMeans(Object(e), hash, b, c)
  {
    var items := TransitionsIn(Object(e)).items;
    assert items == Items(Get(e, "reviewed_baseline_transitions"));
    ForIs(items, hash);
    var found := ForBase(e, hash);
    if found != [] {
      assert found[0] in found;
      DeltaWith(e, localAdr, hash, b, c, added, removed, found[0]);
    } else {
      forall t | t in items ensures W.At(t, "previous_baseline_sha256") != Text(hash) {
        assert t !in found;
      }
      DeltaWithout(e, hash, b, c, added);
    }
  }

  lemma DeltaWith(e: Map, localAdr: string -> bool, hash: string, b: Map, c: Map, added: set<Fingerprint>,
                  removed: set<Fingerprint>, t: Value)
    requires TransitionsMean(Object(e), localAdr)
    requires t in TransitionsIn(Object(e)).items && W.At(t, "previous_baseline_sha256") == Text(hash)
    requires (forall f :: f in added <==> Grows(b, c, f)) && forall f :: f in removed <==> Grows(c, b, f)
    ensures added == Strings(Get(Fields(t), "added_fingerprints")) && removed == Strings(Get(Fields(t), "removed_fingerprints"))
       <==> DeltaMeans(Object(e), hash, b, c)
  {
    DeltaOf(t, added, removed);
    forall u | u in TransitionsIn(Object(e)).items && W.At(u, "previous_baseline_sha256") == Text(hash) ensures u == t {
      OneForBase(e, localAdr, hash, t, u);
    }
    hide Grows, Strings, TransitionsMean, W.Lists, W.At, Adopts, TransitionsIn;
  }

  lemma DeltaWithout(e: Map, hash: string, b: Map, c: Map, added: set<Fingerprint>)
    requires forall t :: t in Items(TransitionsIn(Object(e))) ==> W.At(t, "previous_baseline_sha256") != Text(hash)
    requires forall f :: f in added <==> Grows(b, c, f)
    ensures added == Adopted(e, hash) <==> DeltaMeans(Object(e), hash, b, c)
  {
    forall f ensures f in Adopted(e, hash) <==> Adopts(Object(e), hash, f) {
      AdoptedIs(e, hash, f);
    }
    hide Grows, Adopted, Adopts, W.Lists, W.At, TransitionsIn;
    SameTokens(added, Adopted(e, hash));
  }

  /** The baselines compare without an error if and only if both files and the activation are in order, nothing
      protected is new, under a strict mode nothing is new at all, and the change is the reviewed one. */
  ghost predicate BaselinesCompare(fp: Violation -> Fingerprint, base: Revision, current: Revision) {
    && base.baseline.Parsed? && current.baseline.Parsed?
    && FileMeans(fp, base.baseline.fields) && FileMeans(fp, current.baseline.fields)
    && !current.manifest.Unreadable? && Locked(ManifestOf(current))
    && var b, c, e := base.baseline.fields, current.baseline.fields, Section(ManifestOf(current));
       && TransitionsMean(e, current.checkout.localAdr)
       && (forall line :: line in Lines(c) && Protected(e, TextAt(line, "rule")) ==> Keeps(b, TextAt(line, "fingerprint")))
       && (Strictness(ModeIn(e)) >= 1 ==> forall f :: !Grows(b, c, f))
       && DeltaMeans(e, base.baselineHash, b, c)
  }

  lemma BaselineStepIff(fp: Violation -> Fingerprint, base: Revision, current: Revision)
    ensures BaselineStep(fp, base, current) <==> BaselinesCompare(fp, base, current)
  {
    hide WellFormed, FileMeans, SoundTransitions, TransitionsMean, ReviewedDelta, DeltaMeans, ActivationLockErrors, Locked,
         ProtectedRules, Protected, Keeps, Entries, ViolationIn;
    if base.baseline.Parsed? && current.baseline.Parsed? {
      var b, c, m := base.baseline.fields, current.baseline.fields, ManifestOf(current);
      FileIff(fp, b);
      FileIff(fp, c);
      LockedIff(m);
      LockedSection(m);
      if FileMeans(fp, b) && FileMeans(fp, c) && Locked(m) {
        var e := Section(m).fields;
        assert Settings(current) == e && EnforcementOf(m) == Section(m);
        TransitionsIff(e, current.checkout.localAdr);
        GrowthIs(fp, base, current);
        ProtectedGrowthIff(fp, base, current, e);
        assert Mode(e) == ModeIn(Section(m));
        StrictnessIs(Mode(e));
        if TransitionsMean(Object(e), current.checkout.localAdr) {
          DeltaIff(e, current.checkout.localAdr, base.baselineHash, b, c, NewlyRetained(fp, base, current),
                   Retained(fp, base) - Retained(fp, current));
        }
      }
    }
  }

  lemma LockedSection(m: Map)
    ensures Locked(m) ==> Section(m).Object?
  {
  }

  lemma GrowthIs(fp: Violation -> Fingerprint, base: Revision, current: Revision)
    requires base.baseline.Parsed? && current.baseline.Parsed?
    requires FileMeans(fp, base.baseline.fields) && FileMeans(fp, current.baseline.fields)
    ensures forall f :: f in NewlyRetained(fp, base, current) <==> Grows(base.baseline.fields, current.baseline.fields, f)
    ensures forall f :: f in Retained(fp, base) - Retained(fp, current) <==>
              Grows(current.baseline.fields, base.baseline.fields, f)
    ensures NewlyRetained(fp, base, current) == {} <==>
              forall f :: !Grows(base.baseline.fields, current.baseline.fields, f)
  {
    hide FileMeans, Keeps, Entries;
    KeepsIff(fp, base.baseline.fields);
    KeepsIff(fp, current.baseline.fields);
  }

  lemma ProtectedGrowthIff(fp: Violation -> Fingerprint, base: Revision, current: Revision, e: Map)
    requires base.baseline.Parsed? && current.baseline.Parsed?
    requires FileMeans(fp, base.baseline.fields) && FileMeans(fp, current.baseline.fields)
    ensures (forall v :: v in Loaded(current.baseline) && v.rule in ProtectedRules(e) ==>
               fp(v) !in NewlyRetained(fp, base, current))
       <==> forall line :: line in Lines(current.baseline.fields) && Protected(Object(e), TextAt(line, "rule")) ==>
              Keeps(base.baseline.fields, TextAt(line, "fingerprint"))
  {
    var b, c := base.baseline.fields, current.baseline.fields;
    hide FileMeans, Entries, ProtectedRules, Protected, TextAt;
    GrowthIs(fp, base, current);
    KeepsIff(fp, c);
    forall rule ensures rule in ProtectedRules(e) <==> Protected(Object(e), rule) {
      ProtectedIs(e, rule);
    }
    forall line | line in Lines(c)
      ensures ViolationIn(line) in Entries(c) && ViolationIn(line).rule == TextAt(line, "rule")
              && fp(ViolationIn(line)) == TextAt(line, "fingerprint") && Keeps(c, TextAt(line, "fingerprint"))
    {
    }
  }

  // ----- The gate on one revision

  /** No violation of these rules may be retained. */
  predicate NeverRetained(e: Value, rule: string) {
    || rule in {
         "ambiguous_context_owner", "direct_foreign_write", "duplicate_table_mapping", "invalid_context_declaration",
         "invalid_dependency_graph_declaration", "invalid_migration_exception", "invalid_public_facade_api",
         "invalid_read_model_exception", "invalid_runtime_collaboration", "invalid_table_declaration",
         "invalid_technical_interface", "invalid_temporary_violation", "multiple_context_modules_file",
         "owner_internal_operation_access", "public_contract_is_schema", "public_contract_missing", "public_ecto_contract",
         "public_facade_is_schema", "public_facade_missing", "public_operation_missing_spec",
         "read_model_reverse_dependency", "read_model_scope_violation", "read_model_write", "retired_runtime_binding",
         "unclassified_core_module", "undeclared_migration_reference", "undeclared_migration_table",
         "undeclared_runtime_binding", "unowned_persistence_write", "unresolved_migration_target",
         "unresolved_persistence_write"}
    || W.Lists(W.At(W.At(e, "strict_with_explicit_deferrals"), "non_baselinable_rules"), rule)
  }

  lemma NeverRetainedIff(e: Map, rule: string)
    ensures rule in AbsoluteRules(e) <==> NeverRetained(Object(e), rule)
  {
    var configured := Get(Fields(StrictPolicy(e)), "non_baselinable_rules");
    W.ListsIs(configured, rule);
    assert configured == W.At(W.At(Object(e), "strict_with_explicit_deferrals"), "non_baselinable_rules");
    hide W.Lists, Strings;
  }

  /** The enforcement section and what depends on its mode. */
  ghost predicate EnforcementMeans(m: Map, violations: seq<Violation>, retained: seq<Violation>, localAdr: string -> bool) {
    && Locked(m)
    && var e := Section(m);
       && Strictness(ModeIn(e)) >= 0 && Or(e.fields, "reject_new_violations", Bool(true)) == Bool(true)
       && (ModeIn(e) == Text("strict") ==>
             violations == [] && retained == [] && W.Top(m, "temporary_violations") == Null
             && W.At(e, "baseline_adoption") == Null && W.At(e, "strict_with_explicit_deferrals") == Null)
       && (W.At(e, "strict_with_explicit_deferrals") == Null
           || PolicyMeans(W.At(e, "strict_with_explicit_deferrals"), ModeIn(e), Or(m, "contexts", Object(map[]))))
       && (W.At(e, "baseline_adoption") == Null || AdoptionMeans(W.At(e, "baseline_adoption")))
       && (W.At(e, "reviewed_baseline_transitions") == Null || TransitionsMean(e, localAdr))
  }

  predicate Switch(name: string) {
    name in {"active", "exact_mapping", "reject_missing_declarations", "reject_stale_declarations",
             "reject_duplicate_fingerprints", "require_base_branch_no_growth", "require_deterministic_report"}
  }

  /** In the mode with explicit deferrals all switches of the policy are on, and it names the contexts. */
  ghost predicate PolicyMeans(policy: Value, mode: Value, contexts: Value) {
    && policy.Object?
    && (mode == Text("strict_with_explicit_deferrals") ==>
          && (forall name :: Switch(name) ==> W.At(policy, name) == Bool(true))
          && var allowed := W.At(policy, "allowed_deferral_contexts");
             && InOrder(allowed) && allowed.items != [] && Text("") !in allowed.items
             && (contexts.Object? ==> forall name :: Text(name) in allowed.items ==> name in contexts.fields))
  }

  ghost predicate AdoptionMeans(adoption: Value) {
    && adoption.Object? && Digits(W.At(adoption, "previous_baseline_sha256"), 64)
    && FingerprintsIn(W.At(adoption, "allowed_discovery_fingerprints"))
    && W.At(adoption, "allowed_discovery_fingerprints").items != []
    && Written(W.At(adoption, "removal_condition"))
  }

  lemma AdoptionIff(e: Map)
    ensures SoundAdoption(e) <==>
              W.At(Object(e), "baseline_adoption") == Null || AdoptionMeans(W.At(Object(e), "baseline_adoption"))
  {
    hide FingerprintList, FingerprintsIn, Filled, Written, Hex, Digits;
    var adoption := Get(e, "baseline_adoption");
    assert adoption == W.At(Object(e), "baseline_adoption");
    if adoption.Object? {
      DigitsIff(Get(adoption.fields, "previous_baseline_sha256"), 64);
      FingerprintsIs(Get(adoption.fields, "allowed_discovery_fingerprints"));
      WrittenIff(Get(adoption.fields, "removal_condition"));
    }
  }

  lemma PolicyIff(e: Map, contexts: Value)
    requires StrictPolicy(e).Object?
    ensures (Mode(e) == DEFERRALS ==>
               Active(e) && forall i :: 0 <= i < |POLICY_SWITCHES| ==>
                              Get(StrictPolicy(e).fields, POLICY_SWITCHES[i]) == Bool(true))
            && SoundDeferralContexts(e, contexts)
       <==> PolicyMeans(StrictPolicy(e), Mode(e), contexts)
  {
    hide InOrder, SortedUnique;
    var policy := StrictPolicy(e);
    SwitchesOn(policy);
    var allowed := Get(policy.fields, "allowed_deferral_contexts");
    InOrderIff(allowed);
    UniqueTexts(allowed);
    forall s ensures s in Strings(allowed) <==> W.Lists(allowed, s) {
      W.ListsIs(allowed, s);
    }
    hide Strings;
  }

  lemma SwitchesOn(policy: Value)
    requires policy.Object?
    ensures (forall name :: Switch(name) ==> W.At(policy, name) == Bool(true)) <==>
            Get(policy.fields, "active") == Bool(true)
            && forall i :: 0 <= i < |POLICY_SWITCHES| ==> Get(policy.fields, POLICY_SWITCHES[i]) == Bool(true)
  {
    assert POLICY_SWITCHES[0] == "exact_mapping" && POLICY_SWITCHES[1] == "reject_missing_declarations"
           && POLICY_SWITCHES[2] == "reject_stale_declarations" && POLICY_SWITCHES[3] == "reject_duplicate_fingerprints"
           && POLICY_SWITCHES[4] == "require_base_branch_no_growth" && POLICY_SWITCHES[5] == "require_deterministic_report";
    forall name ensures W.At(policy, name) == Get(policy.fields, name) {
    }
  }

  lemma EnforcementIff(m: Map, violations: seq<Violation>, retained: seq<Violation>, localAdr: string -> bool)
    ensures SoundEnforcement(m, violations, retained, localAdr) <==> EnforcementMeans(m, violations, retained, localAdr)
  {
    hide ActivationLockErrors, Locked, SoundAdoption, AdoptionMeans, PolicyMeans, SoundDeferralContexts, SoundTransitions,
         TransitionsMean, POLICY_SWITCHES;
    LockedIff(m);
    LockedSection(m);
    if Locked(m) {
      var e := Section(m).fields;
      var policy := StrictPolicy(e);
      assert EnforcementOf(m) == Section(m) && Mode(e) == ModeIn(Section(m));
      assert policy == W.At(Section(m), "strict_with_explicit_deferrals");
      StrictnessIs(Mode(e));
      AdoptionIff(e);
      TransitionsIff(e, localAdr);
      NoTransitions(e, localAdr);
      if policy.Object? {
        PolicyIff(e, Or(m, "contexts", Object(map[])));
      } else {
        NoPolicy(e, Or(m, "contexts", Object(map[])));
      }
      PolicyObject(policy, Mode(e), Or(m, "contexts", Object(map[])));
    }
  }

  lemma PolicyObject(policy: Value, mode: Value, contexts: Value)
    ensures PolicyMeans(policy, mode, contexts) ==> policy.Object?
  {
  }

  lemma NoTransitions(e: Map, localAdr: string -> bool)
    ensures W.At(Object(e), "reviewed_baseline_transitions") == Null ==> SoundTransitions(e, localAdr)
    ensures W.At(Object(e), "reviewed_baseline_transitions") != Null && SoundTransitions(e, localAdr) ==>
              GetOr(e, "reviewed_baseline_transitions", List([])).List?
  {
  }

  lemma NoPolicy(e: Map, contexts: Value)
    requires !StrictPolicy(e).Object?
    ensures SoundDeferralContexts(e, contexts)
  {
  }

  /** The mapping that a manifest with temporary violations has to declare. */
  lemma ExactMappingIs()
    ensures EXACT_MAPPING.Object? && "group_policy" in EXACT_MAPPING.fields
    ensures EXACT_MAPPING == Object(map[
              "activation_mode" := Text("strict_with_explicit_deferrals"),
              "cardinality" := Text("one_baseline_fingerprint_to_one_declaration"),
              "required_fields" := List([Text("id"), Text("fingerprint"), Text("rule"), Text("path"), Text("detail"),
                                         Text("adr"), Text("removal_condition")]),
              "group_required_fields" := List([Text("id"), Text("fingerprints"), Text("rule"), Text("adr"),
                                               Text("removal_condition")]),
              "reject_unmapped_baseline_fingerprints" := Bool(true),
              "reject_stale_declarations" := Bool(true),
              "reject_duplicate_fingerprints" := Bool(true),
              "group_policy" := EXACT_MAPPING.fields["group_policy"]])
  {
    assert TextList(DECLARATION_FIELDS) ==
           List([Text("id"), Text("fingerprint"), Text("rule"), Text("path"), Text("detail"), Text("adr"), Text("removal_condition")]);
    assert TextList(GROUP_FIELDS) ==
           List([Text("id"), Text("fingerprints"), Text("rule"), Text("adr"), Text("removal_condition")]);
  }

  /** Every declaration of a temporary violation has seven filled fields and an accepted record. */
  lemma DeclarationIff(d: Map, localAdr: string -> bool)
    ensures SoundDeclaration(d, localAdr) <==>
              (forall field :: field in {"id", "fingerprint", "rule", "path", "detail", "adr", "removal_condition"} ==>
                 Written(W.Top(d, field))) && localAdr(W.Top(d, "adr").s)
  {
    hide Filled, Written;
    forall field
      ensures field in DECLARATION_FIELDS <==>
                field in {"id", "fingerprint", "rule", "path", "detail", "adr", "removal_condition"}
      ensures Filled(Get(d, field)) <==> Written(W.Top(d, field))
    {
      WrittenIff(Get(d, field));
    }
    WrittenText(W.Top(d, "adr"));
  }

  lemma WrittenText(v: Value)
    ensures Written(v) ==> v.Text?
  {
  }

  /** The last entry with the fingerprint. */
  predicate LastWith(fp: Violation -> Fingerprint, entries: seq<Violation>, f: Fingerprint, k: nat) {
    && k < |entries| && fp(entries[k]) == f
    && forall j :: k < j < |entries| ==> fp(entries[j]) != f
  }

  predicate NoneWith(fp: Violation -> Fingerprint, entries: seq<Violation>, f: Fingerprint) {
    forall j :: 0 <= j < |entries| ==> fp(entries[j]) != f
  }

  /** What the last entry with the fingerprint says; nothing where there is none. */
  ghost predicate SaysOf(fp: Violation -> Fingerprint, entries: seq<Violation>, f: Fingerprint, path: Value, detail: Value) {
    || (path == Null && detail == Null && NoneWith(fp, entries, f))
    || exists k: nat :: LastWith(fp, entries, f, k) && path == Text(entries[k].path) && detail == Text(entries[k].detail)
  }

  lemma {:induction false} LookupSays(fp: Violation -> Fingerprint, entries: seq<Violation>, f: Fingerprint, path: Value,
                                      detail: Value)
    ensures var entry := Lookup(fp, entries, f);
            SaysOf(fp, entries, f, path, detail) <==>
              path == (if entry.Some? then Text(entry.value.path) else Null)
              && detail == (if entry.Some? then Text(entry.value.detail) else Null)
  {
    if |entries| > 0 {
      var n := |entries| - 1;
      var front := entries[..n];
      assert entries == front + [entries[n]];
      if fp(entries[n]) != f {
        LookupSays(fp, front, f, path, detail);
        SaysFront(fp, entries, f, path, detail);
      } else {
        assert LastWith(fp, entries, f, n);
      }
    }
  }

  lemma SaysFront(fp: Violation -> Fingerprint, entries: seq<Violation>, f: Fingerprint, path: Value, detail: Value)
    requires |entries| > 0 && fp(entries[|entries| - 1]) != f
    ensures SaysOf(fp, entries, f, path, detail) <==> SaysOf(fp, entries[..|entries| - 1], f, path, detail)
  {
    hide LastWith, NoneWith;
    var front := entries[..|entries| - 1];
    NoneFront(fp, entries, f);
    forall k: nat ensures LastWith(fp, entries, f, k) <==> LastWith(fp, front, f, k) {
      LastFront(fp, entries, f, k);
    }
    forall k: nat | LastWith(fp, front, f, k) ensures k < |front| && front[k] == entries[k] {
      LastBelow(fp, front, f, k);
    }
  }

  lemma LastBelow(fp: Violation -> Fingerprint, entries: seq<Violation>, f: Fingerprint, k: nat)
    requires LastWith(fp, entries, f, k)
    ensures k < |entries|
  {
  }

  lemma NoneFront(fp: Violation -> Fingerprint, entries: seq<Violation>, f: Fingerprint)
    requires |entries| > 0 && fp(entries[|entries| - 1]) != f
    ensures NoneWith(fp, entries, f) <==> NoneWith(fp, entries[..|entries| - 1], f)
  {
    var front := entries[..|entries| - 1];
    assert forall j :: 0 <= j < |front| ==> front[j] == entries[j];
    if NoneWith(fp, front, f) {
      forall j | 0 <= j < |entries| ensures fp(entries[j]) != f {
        assert j < |front| ==> fp(front[j]) != f;
      }
    }
  }

  lemma LastFront(fp: Violation -> Fingerprint, entries: seq<Violation>, f: Fingerprint, k: nat)
    requires |entries| > 0 && fp(entries[|entries| - 1]) != f
    ensures LastWith(fp, entries, f, k) <==> LastWith(fp, entries[..|entries| - 1], f, k)
  {
    var front := entries[..|entries| - 1];
    assert forall j :: 0 <= j < |front| ==> front[j] == entries[j];
    if LastWith(fp, front, f, k) {
      forall j | k < j < |entries| ensures fp(entries[j]) != f {
        assert j < |front| ==> fp(front[j]) != f;
      }
    }
  }

  /** The declaration of the fingerprint `f`, which the item lists, with the path and the detail that the baseline says. */
  ghost predicate MadeFor(fp: Violation -> Fingerprint, item: Value, entries: seq<Violation>, f: Fingerprint, path: Value,
                          detail: Value, d: Map) {
    && W.Lists(W.At(item, "fingerprints"), f) && SaysOf(fp, entries, f, path, detail)
    && d == map["id" := W.At(item, "id"), "fingerprint" := Text(f), "rule" := W.At(item, "rule"), "path" := path,
                "detail" := detail, "adr" := W.At(item, "adr"), "removal_condition" := W.At(item, "removal_condition")]
  }

  /** The declaration of a nested violation, with the three fields that it may take over from the item. */
  predicate MadeFrom(item: Value, items: seq<Value>, nested: Map, d: Map) {
    && Object(nested) in items
    && d == nested["id" := Or(nested, "id", W.At(item, "id"))]["adr" := Or(nested, "adr", W.At(item, "adr"))]
                  ["removal_condition" := Or(nested, "removal_condition", W.At(item, "removal_condition"))]
  }

  /** The declaration `d` is one that the item makes: itself, or for one of its fingerprints with what the baseline
      says of it, or one of its violations with what that inherits. */
  ghost predicate Makes(fp: Violation -> Fingerprint, item: Value, entries: seq<Violation>, d: Map) {
    if W.At(item, "fingerprints") == Null && W.At(item, "violations") == Null then item == Object(d)
    else
      || (exists f, path, detail :: MadeFor(fp, item, entries, f, path, detail, d))
      || (exists nested: Map :: MadeFrom(item, Items(W.At(item, "violations")), nested, d))
  }

  lemma MakesIff(fp: Violation -> Fingerprint, item: Value, entries: seq<Violation>, d: Map)
    requires Expand(fp, item, entries).Some?
    ensures d in Expand(fp, item, entries).value <==> Makes(fp, item, entries, d)
  {
    hide SaysOf, Lookup, Filled;
    var fingerprints, nested := Get(item.fields, "fingerprints"), Get(item.fields, "violations");
    if fingerprints != Null {
      GroupMakes(fp, item, entries, d);
    } else if nested != Null {
      assert forall f, path, detail :: !MadeFor(fp, item, entries, f, path, detail, d);
      NestedMakes(item, nested.items, d);
      assert Items(W.At(item, "violations")) == nested.items;
      assert Expand(fp, item, entries).value == NestedMembers(item.fields, nested.items);
    }
  }

  lemma GroupMakes(fp: Violation -> Fingerprint, item: Value, entries: seq<Violation>, d: Map)
    requires item.Object? && AllTexts(Get(item.fields, "fingerprints"))
    ensures var list := Get(item.fields, "fingerprints");
            d in GroupMembers(fp, item.fields, Texts(list.items), entries) <==>
              exists f, path, detail :: MadeFor(fp, item, entries, f, path, detail, d)
  {
    hide SaysOf, Lookup;
    var list := Get(item.fields, "fingerprints");
    var fs := Texts(list.items);
    if d in GroupMembers(fp, item.fields, fs, entries) {
      var k :| 0 <= k < |fs| && d == GroupMember(fp, item.fields, fs[k], entries);
      LookupSays(fp, entries, fs[k], d["path"], d["detail"]);
      assert list.items[k] == Text(fs[k]) && W.Lists(list, fs[k]);
      assert MadeFor(fp, item, entries, fs[k], d["path"], d["detail"], d);
    }
    if f, path, detail :| MadeFor(fp, item, entries, f, path, detail, d) {
      LookupSays(fp, entries, f, path, detail);
      var k :| 0 <= k < |list.items| && list.items[k] == Text(f);
      assert GroupMembers(fp, item.fields, fs, entries)[k] == GroupMember(fp, item.fields, f, entries) == d;
    }
  }

  lemma NestedMakes(item: Value, items: seq<Value>, d: Map)
    requires item.Object? && forall nested :: nested in items ==> nested.Object?
    ensures d in NestedMembers(item.fields, items) <==>
              exists nested: Map :: MadeFrom(item, items, nested, d)
  {
    forall k | 0 <= k < |items|
      ensures var nested := items[k].fields;
              NestedMembers(item.fields, items)[k] ==
                nested["id" := Or(nested, "id", W.At(item, "id"))]["adr" := Or(nested, "adr", W.At(item, "adr"))]
                      ["removal_condition" := Or(nested, "removal_condition", W.At(item, "removal_condition"))]
    {
      assert items[k] in items;
    }
    if d in NestedMembers(item.fields, items) {
      var k :| 0 <= k < |items| && NestedMembers(item.fields, items)[k] == d;
      assert Object(items[k].fields) == items[k] && items[k] in items;
      assert MadeFrom(item, items, items[k].fields, d);
    }
    if nested: Map :| MadeFrom(item, items, nested, d) {
      var k :| 0 <= k < |items| && items[k] == Object(nested);
      assert NestedMembers(item.fields, items)[k] == d;
    }
  }

  /** Expanded, the section holds exactly the declarations that its single items and its groups make. */
  lemma {:induction false} ExpandedIff(fp: Violation -> Fingerprint, items: seq<Value>, entries: seq<Violation>, d: Map)
    requires ExpandAll(fp, items, entries).Some?
    ensures d in ExpandAll(fp, items, entries).value <==> exists item :: item in items && Makes(fp, item, entries, d)
  {
    hide Expand, Makes;
    if |items| > 0 {
      var n := |items| - 1;
      ExpandedIff(fp, items[..n], entries, d);
      MakesIff(fp, items[n], entries, d);
      assert forall item :: item in items <==> item in items[..n] || item == items[n];
    }
  }

  // ----- Tombstones

  /** The segment of a module name: a capital letter, then letters, digits and underscores. */
  predicate Segment(x: string) {
    && |x| > 0 && 'A' <= x[0] <= 'Z'
    && forall c :: c in x ==> 'A' <= c <= 'Z' || 'a' <= c <= 'z' || '0' <= c <= '9' || c == '_'
  }

  function Dotted(segments: seq<string>): string {
    if |segments| == 0 then "" else "." + segments[0] + Dotted(segments[1..])
  }

  predicate AllSegments(segments: seq<string>) {
    forall x :: x in segments ==> Segment(x)
  }

  /** A word run, and then dotted segments. */
  lemma {:induction false} RestOf(s: string) returns (run: string, segments: seq<string>)
    requires SegmentRest(s)
    ensures s == run + Dotted(segments) && AllSegments(segments) && forall c :: c in run ==> Word(c)
    decreases |s|, 1
  {
    run, segments := "", [];
    if |s| > 0 && Word(s[0]) && SegmentRest(s[1..]) {
      var more;
      more, segments := RestOf(s[1..]);
      run := [s[0]] + more;
      assert s == [s[0]] + s[1..];
    } else if |s| > 0 {
      segments := SegmentsOf(s);
    }
  }

  lemma {:induction false} SegmentsOf(s: string) returns (segments: seq<string>)
    requires ModuleSegments(s)
    ensures |segments| > 0 && AllSegments(segments) && s == Dotted(segments)
    decreases |s|, 0
  {
    var run, more := RestOf(s[2..]);
    var first := [s[1]] + run;
    segments := [first] + more;
    assert segments[1..] == more && forall x :: x in segments ==> x == first || x in more;
    assert s == "." + [s[1]] + s[2..] && "." + [s[1]] + (run + Dotted(more)) == "." + first + Dotted(more);
  }

  lemma {:induction false} RunReads(run: string, rest: string)
    requires (forall c :: c in run ==> Word(c)) && SegmentRest(rest)
    ensures SegmentRest(run + rest)
  {
    if |run| == 0 {
      assert run + rest == rest;
    } else {
      assert run[0] in run && (run + rest)[1..] == run[1..] + rest;
      RunReads(run[1..], rest);
    }
  }

  lemma {:induction false} DottedReads(segments: seq<string>)
    requires AllSegments(segments)
    ensures SegmentRest(Dotted(segments)) && (|segments| > 0 ==> ModuleSegments(Dotted(segments)))
  {
    if |segments| > 0 {
      var x, rest := segments[0], Dotted(segments[1..]);
      assert Segment(x);
      DottedReads(segments[1..]);
      forall c | c in x[1..] ensures Word(c) {
        assert c in x;
      }
      RunReads(x[1..], rest);
      assert ("." + x + rest)[2..] == x[1..] + rest && ("." + x + rest)[1] == x[0];
    }
  }

  /** A core module is the root with one or more segments behind dots. */
  lemma CoreModuleIff(s: string)
    ensures CoreModule(s) <==> exists segments :: |segments| > 0 && AllSegments(segments) && s == "CommsCore" + Dotted(segments)
  {
    var root := "CommsCore";
    if CoreModule(s) {
      var segments := SegmentsOf(s[9..]);
      assert s == root + s[9..];
    }
    if segments :| |segments| > 0 && AllSegments(segments) && s == root + Dotted(segments) {
      DottedReads(segments);
      assert s[9..] == Dotted(segments) && s[..9] == root;
    }
  }
}
