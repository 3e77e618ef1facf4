/** Temporary violations: every fingerprint that the baseline retains is declared exactly once. */
module Temporary {
  import opened Documents
  import opened Enforcement
  import opened Findings
  import opened Json
  import opened Ordering
  import opened Wrappers

  const SOURCE := Text("docs/02-architecture/context-boundary-baseline.yaml")
  const DECLARATION_FIELDS := ["id", "fingerprint", "rule", "path", "detail", "adr", "removal_condition"]
  const GROUP_FIELDS := ["id", "fingerprints", "rule", "adr", "removal_condition"]
  const EXACT_MAPPING := Object(map[
    "activation_mode" := DEFERRALS,
    "cardinality" := Text("one_baseline_fingerprint_to_one_declaration"),
    "required_fields" := TextList(DECLARATION_FIELDS),
    "group_required_fields" := TextList(GROUP_FIELDS),
    "reject_unmapped_baseline_fingerprints" := Bool(true),
    "reject_stale_declarations" := Bool(true),
    "reject_duplicate_fingerprints" := Bool(true),
    "group_policy" := Text("A group is valid only when it contains an exact fingerprints list and expands to declarations that satisfy the same one-to-one rule, path, detail, ADR, and removal-condition checks.")
  ])

  function TextList(texts: seq<string>): Value {
    List(seq(|texts|, i requires 0 <= i < |texts| => Text(texts[i])))
  }

  /** The entry of a fingerprint; of several the last, as in a dictionary. */
  function Lookup(fp: Violation -> Fingerprint, entries: seq<Violation>, f: Fingerprint): Option<Violation> {
    if |entries| == 0 then None
    else
      var last := entries[|entries| - 1];
      if fp(last) == f then Some(last) else Lookup(fp, entries[..|entries| - 1], f)
  }

  lemma {:induction false} LookupIff(fp: Violation -> Fingerprint, entries: seq<Violation>, f: Fingerprint)
    ensures Lookup(fp, entries, f).Some? <==> f in Fingerprints(fp, entries)
    ensures Lookup(fp, entries, f).Some? ==> Lookup(fp, entries, f).value in entries && fp(Lookup(fp, entries, f).value) == f
  {
    if |entries| > 0 {
      var n := |entries| - 1;
      LookupIff(fp, entries[..n], f);
      assert entries == entries[..n] + [entries[n]];
    }
  }

  // ----- Expansion

  /** The declaration that a group makes for one of its fingerprints. */
  function GroupMember(fp: Violation -> Fingerprint, group: Map, f: Fingerprint, entries: seq<Violation>): Map {
    var entry := Lookup(fp, entries, f);
    map["id" := Get(group, "id"), "fingerprint" := Text(f), "rule" := Get(group, "rule"),
        "path" := if entry.Some? then Text(entry.value.path) else Null,
        "detail" := if entry.Some? then Text(entry.value.detail) else Null,
        "adr" := Get(group, "adr"), "removal_condition" := Get(group, "removal_condition")]
  }

  /** A nested declaration with what it inherits. */
  function Nested(group: Map, item: Map): Map {
    item["id" := GetOr(item, "id", Get(group, "id"))]["adr" := GetOr(item, "adr", Get(group, "adr"))]
        ["removal_condition" := GetOr(item, "removal_condition", Get(group, "removal_condition"))]
  }

  function GroupMembers(fp: Violation -> Fingerprint, group: Map, fs: seq<Fingerprint>, entries: seq<Violation>): seq<Map> {
    seq(|fs|, i requires 0 <= i < |fs| => GroupMember(fp, group, fs[i], entries))
  }

  function NestedMembers(group: Map, items: seq<Value>): seq<Map> {
    seq(|items|, i requires 0 <= i < |items| => Nested(group, Fields(items[i])))
  }

  /** The fingerprints of a group: a list of distinct, non-empty strings. */
  predicate GroupList(v: Value) {
    AllTexts(v) && v.items != [] && Text("") !in v.items && Distinct(Texts(v.items))
  }

  predicate NestedList(v: Value) {
    v.List? && v.items != [] && forall item :: item in v.items ==> item.Object?
  }

  /** The declarations one listed item stands for, unless it is reported. */
  function Expand(fp: Violation -> Fingerprint, item: Value, entries: seq<Violation>): Option<seq<Map>> {
    if !item.Object? || !Filled(Get(item.fields, "id")) then None
    else ExpandGroup(fp, item.fields, Get(item.fields, "fingerprints"), Get(item.fields, "violations"), entries)
  }

  function ExpandGroup(fp: Violation -> Fingerprint, group: Map, fingerprints: Value, nested: Value,
                       entries: seq<Violation>): Option<seq<Map>> {
    if fingerprints == Null && nested == Null then Some([group])
    else if nested == Null && GroupList(fingerprints) then Some(GroupMembers(fp, group, Texts(fingerprints.items), entries))
    else if fingerprints == Null && NestedList(nested) then Some(NestedMembers(group, nested.items))
    else None
  }

  function ExpandAll(fp: Violation -> Fingerprint, items: seq<Value>, entries: seq<Violation>): Option<seq<Map>> {
    if |items| == 0 then Some([])
    else
      var earlier, last := ExpandAll(fp, items[..|items| - 1], entries), Expand(fp, items[|items| - 1], entries);
      if earlier.None? || last.None? then None else Some(earlier.value + last.value)
  }

  /** Everything that `temporary_violations` lists, in order. */
  function Raw(temporary: Map): seq<Value> {
    Items(GetOr(temporary, "explicit", List([]))) + Items(GetOr(temporary, "groups", List([])))
  }

  /** The expanded declarations; none while `temporary_violations` is absent. */
  function Declarations(fp: Violation -> Fingerprint, m: Map, entries: seq<Violation>): Option<seq<Map>> {
    ExpandAll(fp, Raw(Fields(Get(m, "temporary_violations"))), entries)
  }

  predicate SoundDeclaration(d: Map, localAdr: string -> bool) {
    && (forall field :: field in DECLARATION_FIELDS ==> Filled(Get(d, field)))
    && localAdr(Get(d, "adr").s)
  }

  // ----- The mapping

  predicate DeclaredAs(d: Map, f: Fingerprint) {
    Get(d, "fingerprint") == Text(f)
  }

  function Matches(declarations: seq<Map>, f: Fingerprint): seq<Map> {
    if |declarations| == 0 then []
    else (if DeclaredAs(declarations[0], f) then [declarations[0]] else []) + Matches(declarations[1..], f)
  }

  /** The declaration repeats the rule, path and detail of the entry. */
  predicate Repeats(d: Map, v: Violation) {
    Get(d, "rule") == Text(v.rule) && Get(d, "path") == Text(v.path) && Get(d, "detail") == Text(v.detail)
  }

  predicate MayStay(d: Map, v: Violation, absolute: set<string>, deferrable: Violation -> bool) {
    Repeats(d, v) && v.rule !in absolute && deferrable(v)
  }

  /** The retained fingerprint has one declaration, which repeats its entry, and the entry may be retained. */
  predicate Retainable(fp: Violation -> Fingerprint, declarations: seq<Map>, entries: seq<Violation>, f: Fingerprint,
                       absolute: set<string>, deferrable: Violation -> bool) {
    && |Matches(declarations, f)| == 1
    && Lookup(fp, entries, f).Some?
    && MayStay(Matches(declarations, f)[0], Lookup(fp, entries, f).value, absolute, deferrable)
  }

  predicate NotStale(fp: Violation -> Fingerprint, declarations: seq<Map>, entries: seq<Violation>, d: Map) {
    && Get(d, "fingerprint").Text? && Get(d, "fingerprint").s in Fingerprints(fp, entries)
    && |Matches(declarations, Get(d, "fingerprint").s)| == 1
  }

  predicate Mapped(fp: Violation -> Fingerprint, declarations: seq<Map>, entries: seq<Violation>,
                   absolute: set<string>, deferrable: Violation -> bool) {
    && (forall f :: f in Fingerprints(fp, entries) ==> Retainable(fp, declarations, entries, f, absolute, deferrable))
    && forall d :: d in declarations ==> NotStale(fp, declarations, entries, d)
  }

  /** Every retained rule has a condition under which it goes away. */
  predicate SoundRemoval(temporary: Map, entries: seq<Violation>) {
    && GetOr(temporary, "removal_conditions", Object(map[])).Object?
    && forall v :: v in entries ==> Filled(Get(Fields(GetOr(temporary, "removal_conditions", Object(map[]))), v.rule))
  }

  predicate SoundMapping(fp: Violation -> Fingerprint, m: Map, temporary: Map, entries: seq<Violation>,
                         absolute: set<string>, deferrable: Violation -> bool, localAdr: string -> bool) {
    && Get(temporary, "source") == SOURCE && Get(temporary, "exact_mapping") == EXACT_MAPPING
    && GetOr(temporary, "explicit", List([])).List? && GetOr(temporary, "groups", List([])).List?
    && DistinctBy(Raw(temporary), "id")
    && Declarations(fp, m, entries).Some?
    && (forall d :: d in Declarations(fp, m, entries).value ==> SoundDeclaration(d, localAdr))
    && Mapped(fp, Declarations(fp, m, entries).value, entries, absolute, deferrable)
    && SoundRemoval(temporary, entries)
  }

  /** The rules that hold for the temporary violations of a revision. */
  predicate SoundTemporary(fp: Violation -> Fingerprint, m: Map, entries: seq<Violation>, absolute: set<string>,
                           deferrable: Violation -> bool, localAdr: string -> bool) {
    if Get(m, "temporary_violations") == Null then entries == []
    else
      && Get(m, "temporary_violations").Object?
      && SoundMapping(fp, m, Get(m, "temporary_violations").fields, entries, absolute, deferrable, localAdr)
  }

  lemma NothingExpanded(fp: Violation -> Fingerprint, entries: seq<Violation>)
    ensures ExpandAll(fp, [], entries) == Some([])
  {
  }

  lemma ExpandedAppend(fp: Violation -> Fingerprint, raw: seq<Value>, item: Value, entries: seq<Violation>)
    ensures var all, one, whole := ExpandAll(fp, raw, entries), Expand(fp, item, entries), ExpandAll(fp, raw + [item], entries);
            && (whole.Some? <==> all.Some? && one.Some?)
            && (whole.Some? ==> whole.value == all.value + one.value)
  {
    hide Expand;
    assert (raw + [item])[..|raw|] == raw;
  }

  /** `_expanded_temporary_declarations`, for a mapping whose lists are lists. */
  method ExpandedTemporaryDeclarations(fp: Violation -> Fingerprint, raw: seq<Value>, entries: seq<Violation>,
                                       localAdr: string -> bool)
    returns (declarations: seq<Map>, problems: set<Problem>)
    ensures problems == {} <==>
              && DistinctBy(raw, "id") && ExpandAll(fp, raw, entries).Some?
              && forall d :: d in ExpandAll(fp, raw, entries).value ==> SoundDeclaration(d, localAdr)
    ensures problems == {} ==> declarations == ExpandAll(fp, raw, entries).value
  {
    hide Expand, SoundDeclaration, DistinctBy, ExpandAll;
    declarations, problems := [], {};
    NothingRepeats("id");
    NothingExpanded(fp, entries);
    var ids: set<Value> := {};
    for i := 0 to |raw|
      invariant ids == set item | item in raw[..i] :: Get(Fields(item), "id")
      invariant problems == {} <==> ExpandAll(fp, raw[..i], entries).Some? && DistinctBy(raw[..i], "id")
      invariant problems == {} ==> declarations == ExpandAll(fp, raw[..i], entries).value
    {
      assert raw[..i + 1] == raw[..i] + [raw[i]];
      DistinctByAppend(raw[..i], raw[i], "id");
      ExpandedAppend(fp, raw[..i], raw[i], entries);
      var id := Get(Fields(raw[i]), "id");
      if id in ids {
        problems := problems + {Stale("id")};
      }
      ids := ids + {id};
      var expanded := Expand(fp, raw[i], entries);
      if expanded.None? {
        problems := problems + {BadShape("temporary_violations")};
      } else {
        declarations := declarations + expanded.value;
      }
    }
    assert raw[..|raw|] == raw;
    ghost var sound := problems == {};
    for i := 0 to |declarations|
      invariant problems == {} <==> sound && forall d :: d in declarations[..i] ==> SoundDeclaration(d, localAdr)
    {
      assert declarations[..i + 1] == declarations[..i] + [declarations[i]];
      if !SoundDeclaration(declarations[i], localAdr) {
        problems := problems + {BadShape("temporary_violations")};
      }
    }
    assert declarations[..|declarations|] == declarations;
  }

  /** The two loops over the baseline and over the declarations. */
  method MappingErrors(fp: Violation -> Fingerprint, declarations: seq<Map>, entries: seq<Violation>,
                       absolute: set<string>, deferrable: Violation -> bool)
    returns (problems: set<Problem>)
    ensures problems == {} <==> Mapped(fp, declarations, entries, absolute, deferrable)
  {
    hide Retainable, NotStale;
    problems := {};
    var pending := Fingerprints(fp, entries);
    while pending != {}
      invariant pending <= Fingerprints(fp, entries)
      invariant problems == {} <==> forall f :: f in Fingerprints(fp, entries) && f !in pending ==>
                                      Retainable(fp, declarations, entries, f, absolute, deferrable)
      decreases pending
    {
      var f :| f in pending;
      pending := pending - {f};
      if !Retainable(fp, declarations, entries, f, absolute, deferrable) {
        problems := problems + {BadDeferral(f)};
      }
    }
    ghost var retainable := problems == {};
    for i := 0 to |declarations|
      invariant problems == {} <==> retainable && forall d :: d in declarations[..i] ==> NotStale(fp, declarations, entries, d)
    {
      assert declarations[..i + 1] == declarations[..i] + [declarations[i]];
      if !NotStale(fp, declarations, entries, declarations[i]) {
        problems := problems + {Stale("fingerprint")};
      }
    }
    assert declarations[..|declarations|] == declarations;
  }

  /** `_temporary_violation_errors` */
  method TemporaryViolationErrors(fp: Violation -> Fingerprint, m: Map, entries: seq<Violation>, absolute: set<string>,
                                  deferrable: Violation -> bool, localAdr: string -> bool)
    returns (problems: set<Problem>)
    ensures problems == {} <==> SoundTemporary(fp, m, entries, absolute, deferrable, localAdr)
  {
    hide Mapped, ExpandAll, SoundDeclaration, DistinctBy, EXACT_MAPPING;
    var temporary := Get(m, "temporary_violations");
    if temporary == Null {
      return if entries == [] then {} else {BadShape("temporary_violations")};
    }
    if !temporary.Object? {
      return {BadShape("temporary_violations")};
    }
    problems := {};
    if Get(temporary.fields, "source") != SOURCE {
      problems := problems + {BadShape("source")};
    }
    if Get(temporary.fields, "exact_mapping") != EXACT_MAPPING {
      problems := problems + {BadShape("exact_mapping")};
    }
    if !GetOr(temporary.fields, "explicit", List([])).List? || !GetOr(temporary.fields, "groups", List([])).List? {
      return problems + {BadShape("temporary_violations")};
    }
    var declarations, more := ExpandedTemporaryDeclarations(fp, Raw(temporary.fields), entries, localAdr);
    problems := problems + more;
    more := MappingErrors(fp, declarations, entries, absolute, deferrable);
    problems := problems + more;
    if !SoundRemoval(temporary.fields, entries) {
      problems := problems + {BadShape("removal_conditions")};
    }
  }

  // ----- The bijection

  /** A single match stands at a single place. */
  lemma {:induction false} SingleMatch(declarations: seq<Map>, f: Fingerprint) returns (i: nat)
    requires |Matches(declarations, f)| == 1
    ensures i < |declarations| && DeclaredAs(declarations[i], f) && declarations[i] == Matches(declarations, f)[0]
    ensures forall j :: 0 <= j < |declarations| && DeclaredAs(declarations[j], f) ==> j == i
  {
    var rest := declarations[1..];
    if DeclaredAs(declarations[0], f) {
      i := 0;
      NoMatch(rest, f);
      assert forall j :: 0 < j < |declarations| ==> declarations[j] == rest[j - 1];
    } else {
      var k := SingleMatch(rest, f);
      i := k + 1;
      assert forall j :: 0 < j < |declarations| ==> declarations[j] == rest[j - 1];
    }
  }

  lemma {:induction false} NoMatch(declarations: seq<Map>, f: Fingerprint)
    requires Matches(declarations, f) == []
    ensures forall j :: 0 <= j < |declarations| ==> !DeclaredAs(declarations[j], f)
  {
    if |declarations| > 0 {
      NoMatch(declarations[1..], f);
      assert forall j :: 0 < j < |declarations| ==> declarations[j] == declarations[1..][j - 1];
    }
  }

  /** The declaration is the one of this entry. */
  predicate Declares(fp: Violation -> Fingerprint, d: Map, v: Violation) {
    DeclaredAs(d, fp(v)) && Repeats(d, v)
  }

  predicate DeclaresSome(fp: Violation -> Fingerprint, d: Map, entries: seq<Violation>) {
    exists v :: v in entries && Declares(fp, d, v)
  }

  /** Where temporary violations are sound, declarations and retained entries correspond one to one. */
  lemma OneDeclarationEach(fp: Violation -> Fingerprint, declarations: seq<Map>, entries: seq<Violation>,
                           absolute: set<string>, deferrable: Violation -> bool)
    requires Fingerprinted(fp, entries) && Mapped(fp, declarations, entries, absolute, deferrable)
    ensures forall v :: v in entries ==> exists i :: 0 <= i < |declarations| && Declares(fp, declarations[i], v)
    ensures forall v, i, j | v in entries && 0 <= i < |declarations| && 0 <= j < |declarations| ::
              Declares(fp, declarations[i], v) && Declares(fp, declarations[j], v) ==> i == j
    ensures forall i :: 0 <= i < |declarations| ==> DeclaresSome(fp, declarations[i], entries)
    ensures forall i, v, w | 0 <= i < |declarations| && v in entries && w in entries ::
              Declares(fp, declarations[i], v) && Declares(fp, declarations[i], w) ==> v == w
  {
    hide Matches, Repeats;
    forall v | v in entries
      ensures exists i :: 0 <= i < |declarations| && Declares(fp, declarations[i], v)
      ensures forall i, j | 0 <= i < |declarations| && 0 <= j < |declarations| ::
                Declares(fp, declarations[i], v) && Declares(fp, declarations[j], v) ==> i == j
    {
      var k := EntryDeclared(fp, declarations, entries, absolute, deferrable, v);
    }
    forall i | 0 <= i < |declarations| ensures DeclaresSome(fp, declarations[i], entries) {
      var d := declarations[i];
      assert NotStale(fp, declarations, entries, d);
      var v :| v in entries && fp(v) == Get(d, "fingerprint").s;
      var k := EntryDeclared(fp, declarations, entries, absolute, deferrable, v);
      assert DeclaredAs(d, fp(v));
      assert k == i && Declares(fp, declarations[i], v);
    }
  }

  lemma EntryDeclared(fp: Violation -> Fingerprint, declarations: seq<Map>, entries: seq<Violation>,
                      absolute: set<string>, deferrable: Violation -> bool, v: Violation) returns (i: nat)
    requires Fingerprinted(fp, entries) && Mapped(fp, declarations, entries, absolute, deferrable) && v in entries
    ensures i < |declarations| && Declares(fp, declarations[i], v)
    ensures forall j :: 0 <= j < |declarations| && DeclaredAs(declarations[j], fp(v)) ==> j == i
  {
    hide Matches, Repeats;
    assert fp(v) in Fingerprints(fp, entries);
    assert Retainable(fp, declarations, entries, fp(v), absolute, deferrable);
    LookupIff(fp, entries, fp(v));
    i := SingleMatch(declarations, fp(v));
  }
}
