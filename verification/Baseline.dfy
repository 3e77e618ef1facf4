/** The checked-in baseline of retained violations: loading, writing, and the round trip between them. */
module Baseline {
  import opened Documents
  import opened Findings
  import opened Json
  import opened Ordering
  import opened Wrappers

  const POLICY := "Relative to the checked-in baseline, new, changed, or resolved fingerprints fail CI; baseline edits require architecture review."
  const ENTRY_FIELDS: set<string> := {"fingerprint", "rule", "path", "detail"}

  datatype Entry = Entry(fingerprint: Fingerprint, violation: Violation)

  /** The text of a non-empty string. */
  function NonEmpty(v: Value): Option<string> {
    if v.Text? && v.s != "" then Some(v.s) else None
  }

  /** The entry that an item of the list states; an item that lacks a field or has an empty one is skipped. */
  function ReadEntry(item: Value): Option<Entry> {
    if !item.Object? || !(ENTRY_FIELDS <= item.fields.Keys) then None
    else
      var fingerprint, rule := NonEmpty(Get(item.fields, "fingerprint")), NonEmpty(Get(item.fields, "rule"));
      var path, detail := NonEmpty(Get(item.fields, "path")), NonEmpty(Get(item.fields, "detail"));
      if fingerprint.None? || rule.None? || path.None? || detail.None? then None
      else Some(Entry(fingerprint.value, Violation(rule.value, path.value, detail.value)))
  }

  function ReadEntries(items: seq<Value>): seq<Entry> {
    if |items| == 0 then []
    else
      var last := ReadEntry(items[|items| - 1]);
      ReadEntries(items[..|items| - 1]) + (if last.None? then [] else [last.value])
  }

  function Violations(entries: seq<Entry>): (r: seq<Violation>)
    ensures |r| == |entries| && forall i :: 0 <= i < |r| ==> r[i] == entries[i].violation
  {
    seq(|entries|, i requires 0 <= i < |entries| => entries[i].violation)
  }

  /** The violations that loading a parsed baseline yields, whatever else is wrong with it. */
  function Entries(document: Map): seq<Violation> {
    Violations(ReadEntries(Items(Get(document, "violations"))))
  }

  /** The item states an entry with exactly its fields and the fingerprint of its own content. */
  predicate Sound(fp: Violation -> Fingerprint, item: Value) {
    && ReadEntry(item).Some? && item.fields.Keys == ENTRY_FIELDS
    && ReadEntry(item).value.fingerprint == fp(ReadEntry(item).value.violation)
  }

  predicate AllSound(fp: Violation -> Fingerprint, items: seq<Value>) {
    forall item :: item in items ==> Sound(fp, item)
  }

  lemma AllSoundAppend(fp: Violation -> Fingerprint, items: seq<Value>, i: nat)
    requires i < |items|
    ensures AllSound(fp, items[..i + 1]) <==> AllSound(fp, items[..i]) && Sound(fp, items[i])
  {
    hide Sound;
    assert items[..i + 1] == items[..i] + [items[i]];
  }

  predicate DistinctFingerprints(entries: seq<Entry>) {
    forall i, j :: 0 <= i < j < |entries| ==> entries[i].fingerprint != entries[j].fingerprint
  }

  ghost predicate WellFormed(fp: Violation -> Fingerprint, document: Map) {
    && Get(document, "version") == Number(1)
    && Get(document, "policy") == Text(POLICY)
    && Get(document, "violations").List?
    && AllSound(fp, Items(Get(document, "violations")))
    && DistinctFingerprints(ReadEntries(Items(Get(document, "violations"))))
    && Ascending(ViolationLeq, Entries(document))
  }

  lemma ReadEntriesAppend(items: seq<Value>, i: nat)
    requires i < |items|
    ensures ReadEntries(items[..i + 1]) ==
            ReadEntries(items[..i]) + (if ReadEntry(items[i]).None? then [] else [ReadEntry(items[i]).value])
  {
    assert items[..i + 1][..i] == items[..i];
  }

  lemma DistinctAppend(entries: seq<Entry>, entry: Entry)
    ensures DistinctFingerprints(entries + [entry]) <==>
            DistinctFingerprints(entries) && forall e :: e in entries ==> e.fingerprint != entry.fingerprint
  {
    var all := entries + [entry];
    assert all[|entries|] == entry && forall i :: 0 <= i < |entries| ==> all[i] == entries[i];
  }

  lemma NothingRead(fp: Violation -> Fingerprint)
    ensures DistinctFingerprints([]) && AllSound(fp, [])
  {
  }

  /** The loop over the listed items. */
  method ReadItems(fp: Violation -> Fingerprint, items: seq<Value>) returns (found: seq<Entry>, problems: set<Problem>)
    ensures found == ReadEntries(items)
    ensures problems == {} <==> AllSound(fp, items) && DistinctFingerprints(found)
  {
    hide ReadEntry, DistinctFingerprints, AllSound;
    found, problems := [], {};
    NothingRead(fp);
    var seen: set<Fingerprint> := {};
    for i := 0 to |items|
      invariant found == ReadEntries(items[..i])
      invariant seen == set e | e in found :: e.fingerprint
      invariant problems == {} <==> AllSound(fp, items[..i]) && DistinctFingerprints(found)
    {
      var item := items[i];
      ReadEntriesAppend(items, i);
      AllSoundAppend(fp, items, i);
      var entry := ReadEntry(item);
      if entry.None? {
        problems := problems + {BadBaseline};
      } else {
        var e := entry.value;
        DistinctAppend(found, e);
        assert e.fingerprint in seen <==> exists x :: x in found && x.fingerprint == e.fingerprint;
        if !Sound(fp, item) || e.fingerprint in seen {
          problems := problems + {BadBaseline};
        }
        seen := seen + {e.fingerprint};
        found := found + [e];
      }
    }
    assert items[..|items|] == items;
  }

  /** `_baseline_entries_from_document` */
  method BaselineEntries(fp: Violation -> Fingerprint, document: Map)
    returns (entries: seq<Violation>, problems: set<Problem>)
    ensures entries == Entries(document)
    ensures problems == {} <==> WellFormed(fp, document)
  {
    hide ReadEntries, Sound, ViolationLeq, POLICY, DistinctFingerprints;
    problems := {};
    if Get(document, "version") != Number(1) || Get(document, "policy") != Text(POLICY) {
      problems := {BadBaseline};
    }
    if !Get(document, "violations").List? {
      NothingListed(document);
      return [], problems + {BadBaseline};
    }
    var found, more := ReadItems(fp, Get(document, "violations").items);
    problems := problems + more;
    entries := Violations(found);
    ViolationLeqTotal();
    SortedIff(ViolationLeq, entries);
    if entries != Sort(ViolationLeq, entries) {
      problems := problems + {BadBaseline};
    }
  }

  lemma NothingListed(document: Map)
    requires !Get(document, "violations").List?
    ensures Entries(document) == []
  {
  }

  /** The violations that `load_baseline` answers. */
  function Loaded(document: Document): seq<Violation> {
    if document.Parsed? then Entries(document.fields) else []
  }

  /** A file that is missing loads as an empty baseline without an error. */
  ghost predicate Loads(fp: Violation -> Fingerprint, document: Document) {
    document.Missing? || (document.Parsed? && WellFormed(fp, document.fields))
  }

  /** `load_baseline` */
  method LoadBaseline(fp: Violation -> Fingerprint, document: Document)
    returns (entries: seq<Violation>, problems: set<Problem>)
    ensures entries == Loaded(document)
    ensures problems == {} <==> Loads(fp, document)
  {
    match document
    case Missing => return [], {};
    case Unreadable => return [], {UnreadableFile};
    case Parsed(fields) => entries, problems := BaselineEntries(fp, fields);
  }

  // ----- Writing

  function EntryOf(fp: Violation -> Fingerprint, v: Violation): Value {
    Object(map["fingerprint" := Text(fp(v)), "rule" := Text(v.rule), "path" := Text(v.path), "detail" := Text(v.detail)])
  }

  function EntriesOf(fp: Violation -> Fingerprint, vs: seq<Violation>): (r: seq<Value>)
    ensures |r| == |vs| && forall i :: 0 <= i < |r| ==> r[i] == EntryOf(fp, vs[i])
  {
    seq(|vs|, i requires 0 <= i < |vs| => EntryOf(fp, vs[i]))
  }

  /** The payload that is written; YAML itself is not part of this model. */
  function DocumentOf(fp: Violation -> Fingerprint, vs: seq<Violation>): Map {
    map["version" := Number(1), "policy" := Text(POLICY), "violations" := List(EntriesOf(fp, vs))]
  }

  predicate Complete(fp: Violation -> Fingerprint, v: Violation) {
    v.rule != "" && v.path != "" && v.detail != "" && fp(v) != ""
  }

  lemma WrittenEntry(fp: Violation -> Fingerprint, v: Violation)
    ensures ReadEntry(EntryOf(fp, v)) == if Complete(fp, v) then Some(Entry(fp(v), v)) else None
    ensures Sound(fp, EntryOf(fp, v)) <==> Complete(fp, v)
  {
  }

  lemma {:induction false} WrittenEntries(fp: Violation -> Fingerprint, vs: seq<Violation>)
    requires forall v :: v in vs ==> Complete(fp, v)
    ensures |ReadEntries(EntriesOf(fp, vs))| == |vs|
    ensures forall i :: 0 <= i < |vs| ==> ReadEntries(EntriesOf(fp, vs))[i] == Entry(fp(vs[i]), vs[i])
  {
    hide ReadEntry;
    if |vs| > 0 {
      var n := |vs| - 1;
      WrittenEntries(fp, vs[..n]);
      assert EntriesOf(fp, vs)[..n] == EntriesOf(fp, vs[..n]);
      WrittenEntry(fp, vs[n]);
    }
  }

  lemma WrittenSound(fp: Violation -> Fingerprint, vs: seq<Violation>)
    ensures (forall item :: item in EntriesOf(fp, vs) ==> Sound(fp, item)) <==> forall v :: v in vs ==> Complete(fp, v)
  {
    hide Sound, Complete, EntryOf;
    var items := EntriesOf(fp, vs);
    forall i | 0 <= i < |vs| ensures Sound(fp, items[i]) <==> Complete(fp, vs[i]) {
      WrittenEntry(fp, vs[i]);
    }
  }

  lemma WrittenDistinct(fp: Violation -> Fingerprint, vs: seq<Violation>)
    requires Distinct(vs) && forall v :: v in vs ==> Complete(fp, v)
    ensures DistinctFingerprints(ReadEntries(EntriesOf(fp, vs))) <==> Fingerprinted(fp, vs)
  {
    hide Complete, ReadEntries, EntryOf;
    WrittenEntries(fp, vs);
    var entries := ReadEntries(EntriesOf(fp, vs));
    if Fingerprinted(fp, vs) {
      forall i, j | 0 <= i < j < |entries| ensures entries[i].fingerprint != entries[j].fingerprint {
        assert vs[i] != vs[j] && vs[i] in vs && vs[j] in vs;
      }
    }
    if DistinctFingerprints(entries) {
      forall v, w | v in vs && w in vs && fp(v) == fp(w) ensures v == w {
        var i, j :| 0 <= i < |vs| && 0 <= j < |vs| && vs[i] == v && vs[j] == w;
        assert entries[i].fingerprint == entries[j].fingerprint;
        assert i == j;
      }
    }
  }

  /** A written baseline loads again without an error exactly when its violations have no empty field and
      no common fingerprint, and then loading yields the same violations in the same order. */
  lemma WrittenLoadsIff(fp: Violation -> Fingerprint, vs: seq<Violation>)
    requires Ascending(ViolationLeq, vs) && Distinct(vs)
    ensures WellFormed(fp, DocumentOf(fp, vs)) <==> (forall v :: v in vs ==> Complete(fp, v)) && Fingerprinted(fp, vs)
    ensures (forall v :: v in vs ==> Complete(fp, v)) ==> Entries(DocumentOf(fp, vs)) == vs
  {
    hide ReadEntries, Sound, Complete, EntryOf, EntriesOf, ViolationLeq, DistinctFingerprints, Fingerprinted;
    var document := DocumentOf(fp, vs);
    assert Items(Get(document, "violations")) == EntriesOf(fp, vs);
    WrittenSound(fp, vs);
    if forall v :: v in vs ==> Complete(fp, v) {
      WrittenEntries(fp, vs);
      assert Entries(document) == vs;
      WrittenDistinct(fp, vs);
    }
  }
}
