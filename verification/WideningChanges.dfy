/** What the review tokens stand for: the ways in which two revisions of the boundary manifest differ, read off
    the documents, each with the text of its token. */
module WideningChanges {
  import opened Documents
  import opened Json
  import opened Widenings
  import opened Wrappers

  // ----- Reading the documents

  /** What a mapping holds under the key; null where there is none. */
  function At(v: Value, key: string): Value {
    if v.Object? && key in v.fields then v.fields[key] else Null
  }

  function Top(m: Map, key: string): Value {
    At(Object(m), key)
  }

  /** The list holds the string. */
  predicate Lists(v: Value, item: string) {
    v.List? && Text(item) in v.items
  }

  /** The mapping `d` is what the section, itself a mapping, declares under the name. */
  predicate Names(m: Map, section: string, name: string, d: Map) {
    At(Top(m, section), name) == Object(d)
  }

  predicate Nameless(m: Map, section: string, name: string) {
    !At(Top(m, section), name).Object?
  }

  /** The mapping `d` is the last item of the section, a list, that carries the name. */
  ghost predicate LastNamed(m: Map, section: string, key: string, name: string, d: Map) {
    Top(m, section).List? && LastWith(Top(m, section).items, key, name, d)
  }

  ghost predicate LastWith(items: seq<Value>, key: string, name: string, d: Map) {
    exists i :: LastAt(items, key, name, d, i)
  }

  /** Item `i` is `d`, carries the name, and none behind it does. */
  predicate LastAt(items: seq<Value>, key: string, name: string, d: Map, i: nat) {
    && i < |items| && items[i] == Object(d) && At(items[i], key) == Text(name)
    && forall j :: i < j < |items| ==> At(items[j], key) != Text(name)
  }

  predicate NoneNamed(m: Map, section: string, key: string, name: string) {
    Top(m, section).List? ==> forall item :: item in Top(m, section).items ==> At(item, key) != Text(name)
  }

  function Declarations(m: Map): seq<Value> {
    if Top(m, "migration_exceptions").List? then Top(m, "migration_exceptions").items else []
  }

  /** The list has no entry for the path. */
  predicate NoEntry(paths: Value, path: string) {
    paths.List? ==> forall entry :: entry in paths.items ==> At(entry, "path") != Text(path)
  }

  /** The last entry for the path, over all declarations, has these rules and this hash. */
  ghost predicate Excepts(declarations: seq<Value>, path: string, rules: Value, sha256: Value) {
    exists i :: ExceptsAt(declarations, path, rules, sha256, i)
  }

  ghost predicate ExceptsAt(declarations: seq<Value>, path: string, rules: Value, sha256: Value, i: nat) {
    && i < |declarations| && EntryIn(At(declarations[i], "paths"), path, rules, sha256)
    && forall h :: i < h < |declarations| ==> NoEntry(At(declarations[h], "paths"), path)
  }

  ghost predicate EntryIn(paths: Value, path: string, rules: Value, sha256: Value) {
    paths.List? && exists d :: LastWith(paths.items, "path", path, d) && Top(d, "rules") == rules && Top(d, "sha256") == sha256
  }

  predicate NoException(declarations: seq<Value>, path: string) {
    forall i :: 0 <= i < |declarations| ==> NoEntry(At(declarations[i], "paths"), path)
  }

  /** A declaration gives something for its paths that cannot be walked over. */
  predicate Unwalkable(declarations: seq<Value>) {
    exists i :: 0 <= i < |declarations| && GivesPaths(declarations[i])
                && !At(declarations[i], "paths").List? && !At(declarations[i], "paths").Text?
                && !At(declarations[i], "paths").Object?
  }

  predicate GivesPaths(declaration: Value) {
    declaration.Object? && "paths" in declaration.fields
  }

  /** The table lets the namespace in: through its own list, or else through its owner's internal namespaces. */
  predicate LetsIn(m: Map, table: Map, namespace: string) {
    if "access_namespaces" in table then Lists(table["access_namespaces"], namespace)
    else Top(table, "owner").Text?
         && Lists(At(At(Top(m, "contexts"), Top(table, "owner").s), "internal_namespaces"), namespace)
  }

  /** A context is in the graph unless it says otherwise. */
  predicate InGraph(context: Map) {
    "graph_scope" in context ==> context["graph_scope"] == Text("included")
  }

  // ----- Changes

  datatype Change =
    | ApiHash(before: Value, after: Value)
    | NewContext(name: string, declaration: Map)
    | ContextGains(name: string, field: string, item: string)
    | ContextKind(name: string, before: Value, after: Value)
    | ContextHidden(name: string)
    | NewTable(name: string, declaration: Map)
    | TableField(name: string, field: string, before: Value, after: Value)
    | TableGains(name: string, item: string)
    | NewReadModel(name: string, declaration: Map)
    | ReadModelMode(name: string, before: Value, after: Value)
    | ReadModelOwner(name: string, item: string)
    | ReadModelAccess(name: string, field: string, item: string)
    | NewMigration(name: string, rules: Value, sha256: Value)
    | MigrationField(name: string, field: string, before: Value, after: Value)
    | NewCollaboration(section: string, name: string, declaration: Map)
    | CollaborationField(section: string, name: string, field: string, before: Value, after: Value)
    | CollaborationGains(section: string, name: string, field: string, added: Value)
    | RuleRemoved(name: string)
    | RuleFrom(name: string, before: Value, after: Value)
    | CrossingAllowed(name: string, item: string)

  /** The text under which a change is reviewed. */
  function TokenOf(r: Rendering, c: Change): string {
    match c
    case ApiHash(before, after) => "public_facade_api:sha256:" + r.show(before) + "->" + r.show(after)
    case NewContext(name, declaration) => "context:" + name + ":add:" + r.stable(Object(declaration))
    case ContextGains(name, field, item) => "context:" + name + ":" + field + ":add:" + item
    case ContextKind(name, before, after) => "context:" + name + ":kind:" + r.show(before) + "->" + r.show(after)
    case ContextHidden(name) => "context:" + name + ":graph_scope:included->excluded"
    case NewTable(name, declaration) => "table:" + name + ":add:" + r.stable(Object(declaration))
    case TableField(name, field, before, after) =>
      "table:" + name + ":" + field + ":" + r.stable(before) + "->" + r.stable(after)
    case TableGains(name, item) => "table:" + name + ":access_namespaces:add:" + item
    case NewReadModel(name, declaration) => "read_model:" + name + ":add:" + r.stable(Object(declaration))
    case ReadModelMode(name, before, after) => "read_model:" + name + ":mode:" + r.show(before) + "->" + r.show(after)
    case ReadModelOwner(name, item) => "read_model:" + name + ":owners:add:" + item
    case ReadModelAccess(name, field, item) => "read_model:" + name + ":" + field + ":add:" + item
    case NewMigration(name, rules, sha256) =>
      "migration_exception:" + name + ":add:" + r.stable(Object(map["rules" := rules, "sha256" := sha256]))
    case MigrationField(name, field, before, after) =>
      "migration_exception:" + name + ":" + field + ":" + r.stable(before) + "->" + r.stable(after)
    case NewCollaboration(section, name, declaration) =>
      section + ":" + name + ":add:" + r.stable(Object(declaration))
    case CollaborationField(section, name, field, before, after) =>
      section + ":" + name + ":" + field + ":" + r.stable(before) + "->" + r.stable(after)
    case CollaborationGains(section, name, field, added) =>
      section + ":" + name + ":" + field + ":add:" + r.stable(added)
    case RuleRemoved(name) => "namespace_rule:" + name + ":removed"
    case RuleFrom(name, before, after) => "namespace_rule:" + name + ":from:" + r.show(before) + "->" + r.show(after)
    case CrossingAllowed(name, item) => "namespace_rule:" + name + ":forbidden:remove:" + item
  }

  /** The field had the one value and now has the other. */
  predicate Turns(p: Map, d: Map, field: string, before: Value, after: Value) {
    Top(p, field) == before && Top(d, field) == after && before != after
  }

  predicate Gains(p: Map, d: Map, field: string, item: string) {
    Lists(Top(d, field), item) && !Lists(Top(p, field), item)
  }

  /** The fields of a collaboration that hold one value each. */
  predicate CollaborationScalar(section: string, field: string) {
    || (section == "runtime_collaborations"
        && field in {"consumer", "provider", "port", "result_contract", "implementation", "binding", "graph_semantics",
                     "transaction"})
    || (section == "technical_interfaces"
        && field in {"owner", "interface", "dispatch", "behaviour", "implementation", "binding", "transaction"})
  }

  predicate CollaborationList(section: string, field: string) {
    || (section == "runtime_collaborations" && field in {"callers", "operations"})
    || (section == "technical_interfaces" && field in {"callers", "operations", "contracts"})
  }

  /** The item is in the list now, and nothing that reads like it was. */
  predicate Joins(r: Rendering, p: Map, d: Map, field: string, added: Value) {
    && Top(d, field).List? && added in Top(d, field).items
    && (Top(p, field).List? ==> forall was :: was in Top(p, field).items ==> r.stable(was) != r.stable(added))
  }

  ghost predicate ApiDiffers(base: Map, current: Map, c: Change) {
    match c
    case ApiHash(before, after) =>
      && Top(base, "public_facade_api").Object? && Top(current, "public_facade_api").Object?
      && At(Top(base, "public_facade_api"), "sha256") == before
      && At(Top(current, "public_facade_api"), "sha256") == after && before != after
    case _ => false
  }

  ghost predicate ContextDiffers(base: Map, current: Map, c: Change) {
    match c
    case NewContext(name, declaration) =>
      Names(current, "contexts", name, declaration) && Nameless(base, "contexts", name)
    case ContextGains(name, field, item) =>
      && field in {"allowed_dependencies", "public_facades", "public_contracts", "internal_namespaces", "owned_modules",
                   "publishes", "consumes"}
      && exists p, d :: Names(base, "contexts", name, p) && Names(current, "contexts", name, d) && Gains(p, d, field, item)
    case ContextKind(name, before, after) =>
      exists p, d :: Names(base, "contexts", name, p) && Names(current, "contexts", name, d)
                     && Turns(p, d, "kind", before, after) && after != Null
    case ContextHidden(name) =>
      exists p, d :: Names(base, "contexts", name, p) && Names(current, "contexts", name, d)
                     && InGraph(p) && Top(d, "graph_scope") == Text("excluded")
    case _ => false
  }

  ghost predicate TableDiffers(base: Map, current: Map, c: Change) {
    match c
    case NewTable(name, declaration) =>
      Names(current, "tables", name, declaration) && Nameless(base, "tables", name)
    case TableField(name, field, before, after) =>
      && field in {"owner", "canonical_schema", "canonical_accessor", "role", "external_schema", "access"}
      && exists p, d :: Names(base, "tables", name, p) && Names(current, "tables", name, d) && Turns(p, d, field, before, after)
    case TableGains(name, item) =>
      exists p, d :: Names(base, "tables", name, p) && Names(current, "tables", name, d)
                     && LetsIn(current, d, item) && !LetsIn(base, p, item)
    case _ => false
  }

  ghost predicate ReadModelDiffers(base: Map, current: Map, c: Change) {
    match c
    case NewReadModel(name, declaration) =>
      && LastNamed(current, "read_model_exceptions", "module", name, declaration)
      && NoneNamed(base, "read_model_exceptions", "module", name)
    case ReadModelMode(name, before, after) =>
      exists p, d :: LastNamed(base, "read_model_exceptions", "module", name, p)
                     && LastNamed(current, "read_model_exceptions", "module", name, d) && Turns(p, d, "mode", before, after)
    case ReadModelOwner(name, item) =>
      exists p, d :: LastNamed(base, "read_model_exceptions", "module", name, p)
                     && LastNamed(current, "read_model_exceptions", "module", name, d) && Gains(p, d, "owners", item)
    case ReadModelAccess(name, field, item) =>
      && field in {"public_contracts", "public_queries", "source_tables"}
      && exists p, d :: LastNamed(base, "read_model_exceptions", "module", name, p)
                        && LastNamed(current, "read_model_exceptions", "module", name, d)
                        && Lists(At(Top(d, "access"), field), item) && !Lists(At(Top(p, "access"), field), item)
    case _ => false
  }

  ghost predicate MigrationDiffers(base: Map, current: Map, c: Change) {
    match c
    case NewMigration(name, rules, sha256) =>
      Excepts(Declarations(current), name, rules, sha256) && NoException(Declarations(base), name)
    case MigrationField(name, field, before, after) =>
      && before != after
      && exists rules, sha256, r0, s0 ::
           && Excepts(Declarations(base), name, r0, s0) && Excepts(Declarations(current), name, rules, sha256)
           && ((field == "rules" && before == r0 && after == rules)
               || (field == "sha256" && before == s0 && after == sha256))
    case _ => false
  }

  ghost predicate CollaborationDiffers(r: Rendering, base: Map, current: Map, c: Change) {
    match c
    case NewCollaboration(section, name, declaration) =>
      && section in {"runtime_collaborations", "technical_interfaces"}
      && LastNamed(current, section, "id", name, declaration) && NoneNamed(base, section, "id", name)
    case CollaborationField(section, name, field, before, after) =>
      && CollaborationScalar(section, field)
      && !(field == "transaction" && before == Text("independent") && after == Text("required"))
      && exists p, d :: LastNamed(base, section, "id", name, p) && LastNamed(current, section, "id", name, d)
                        && Turns(p, d, field, before, after)
    case CollaborationGains(section, name, field, added) =>
      && CollaborationList(section, field)
      && exists p, d :: LastNamed(base, section, "id", name, p) && LastNamed(current, section, "id", name, d)
                        && Joins(r, p, d, field, added)
    case _ => false
  }

  ghost predicate RuleDiffers(base: Map, current: Map, c: Change) {
    match c
    case RuleRemoved(name) =>
      && (exists p :: LastNamed(base, "namespace_dependency_rules", "id", name, p))
      && NoneNamed(current, "namespace_dependency_rules", "id", name)
    case RuleFrom(name, before, after) =>
      exists p, d :: LastNamed(base, "namespace_dependency_rules", "id", name, p)
                     && LastNamed(current, "namespace_dependency_rules", "id", name, d) && Turns(p, d, "from", before, after)
    case CrossingAllowed(name, item) =>
      exists p, d :: LastNamed(base, "namespace_dependency_rules", "id", name, p)
                     && LastNamed(current, "namespace_dependency_rules", "id", name, d) && Gains(d, p, "forbidden", item)
    case _ => false
  }

  /** The two documents differ in this way. */
  ghost predicate Differs(r: Rendering, base: Map, current: Map, c: Change) {
    || ApiDiffers(base, current, c) || ContextDiffers(base, current, c) || TableDiffers(base, current, c)
    || ReadModelDiffers(base, current, c) || MigrationDiffers(base, current, c)
    || CollaborationDiffers(r, base, current, c) || RuleDiffers(base, current, c)
  }

  // ----- The sections that the gate compares

  lemma NamesIs(m: Map, section: string, name: string, d: Map)
    ensures Names(m, section, name, d) <==>
              name in Declared(Top(m, section)) && Declared(Top(m, section))[name] == d
    ensures Nameless(m, section, name) <==> name !in Declared(Top(m, section))
  {
  }

  lemma {:induction false} LastWithIs(items: seq<Value>, key: string, name: string)
    ensures forall d :: LastWith(items, key, name, d) <==>
              name in DeclarationsBy(items, key) && DeclarationsBy(items, key)[name] == d
  {
    if |items| > 0 {
      var n := |items| - 1;
      LastWithIs(items[..n], key, name);
      forall d ensures LastWith(items, key, name, d) <==>
                         name in DeclarationsBy(items, key) && DeclarationsBy(items, key)[name] == d
      {
        LastWithStep(items, key, name, d);
      }
    }
  }

  lemma {:induction false} NoneWithIs(items: seq<Value>, key: string, name: string)
    ensures name !in DeclarationsBy(items, key) <==> forall item :: item in items ==> At(item, key) != Text(name)
  {
    if |items| > 0 {
      var n := |items| - 1;
      NoneWithIs(items[..n], key, name);
      assert items == items[..n] + [items[n]];
      assert forall item :: item in items <==> item in items[..n] || item == items[n];
      assert At(items[n], key) == Text(name) <==> items[n].Object? && Get(items[n].fields, key) == Text(name);
    }
  }

  lemma LastWithStep(items: seq<Value>, key: string, name: string, d: Map)
    requires |items| > 0
    ensures var n := |items| - 1;
            LastWith(items, key, name, d) <==>
              if At(items[n], key) == Text(name) then items[n] == Object(d) else LastWith(items[..n], key, name, d)
  {
    hide At;
    var n: nat := |items| - 1;
    var most := items[..n];
    assert forall j :: 0 <= j < n ==> most[j] == items[j];
    if At(items[n], key) == Text(name) {
      if items[n] == Object(d) {
        assert LastAt(items, key, name, d, n);
      }
    } else {
      forall i: nat | i < n ensures LastAt(items, key, name, d, i) <==> LastAt(most, key, name, d, i) {
        assert items[i] == most[i];
        if LastAt(most, key, name, d, i) {
          forall j | i < j < |items| ensures At(items[j], key) != Text(name) {
            assert j < n ==> items[j] == most[j];
          }
        }
      }
    }
  }

  lemma LastNamedIs(m: Map, section: string, key: string, name: string)
    ensures forall d :: LastNamed(m, section, key, name, d) <==>
              name in Widenings.Listed(m, section, key) && Widenings.Listed(m, section, key)[name] == d
    ensures NoneNamed(m, section, key, name) <==> name !in Widenings.Listed(m, section, key)
  {
    hide LastWith, DeclarationsBy;
    LastWithIs(Items(Top(m, section)), key, name);
    NoneWithIs(Items(Top(m, section)), key, name);
    assert Get(m, section) == Top(m, section);
  }

  lemma ListsIs(v: Value, item: string)
    ensures item in Strings(v) <==> Lists(v, item)
  {
    if Lists(v, item) {
      assert Text(item) in Items(v);
    }
  }

  lemma AddedIff(prefix: string, previous: Value, current: Value, token: string)
    ensures token in Added(prefix, Strings(previous), Strings(current)) <==>
              exists item :: Lists(current, item) && !Lists(previous, item) && token == prefix + ":add:" + item
  {
    hide Strings, Lists;
    forall item
      ensures item in Strings(previous) <==> Lists(previous, item)
      ensures item in Strings(current) <==> Lists(current, item)
    {
      ListsIs(previous, item);
      ListsIs(current, item);
    }
  }

  lemma ListTokensIff(prefix: string, fields: seq<string>, p: Map, d: Map, token: string)
    ensures token in ListTokens(prefix, fields, p, d) <==>
              exists field, item :: field in fields && Gains(p, d, field, item)
                                    && token == prefix + ":" + field + ":add:" + item
  {
    hide Strings, Lists, Added;
    forall field
      ensures token in Added(prefix + ":" + field, Strings(Get(p, field)), Strings(Get(d, field))) <==>
                exists item :: Gains(p, d, field, item) && token == prefix + ":" + field + ":add:" + item
    {
      AddedIff(prefix + ":" + field, Get(p, field), Get(d, field), token);
      assert Get(p, field) == Top(p, field) && Get(d, field) == Top(d, field);
    }
  }

  lemma ScalarTokensIff(r: Rendering, prefix: string, fields: seq<string>, p: Map, d: Map, token: string)
    ensures token in ScalarTokens(r, prefix, fields, p, d) <==>
              exists field, before, after ::
                && field in fields && Turns(p, d, field, before, after)
                && !(field == "transaction" && before == Text("independent") && after == Text("required"))
                && token == prefix + ":" + field + ":" + r.stable(before) + "->" + r.stable(after)
  {
    forall field ensures Get(p, field) == Top(p, field) && Get(d, field) == Top(d, field) {
    }
    if token in ScalarTokens(r, prefix, fields, p, d) {
      var field :| field in fields && Changed(field, p, d) && token == ChangeToken(r, prefix, field, p, d);
      assert Turns(p, d, field, Top(p, field), Top(d, field));
    }
  }

  // ----- Section by section

  lemma FromOver(section: Section, other: Section, tokensOf: (string, Option<Map>, Map) -> set<string>, token: string)
    returns (name: string)
    requires token in Over(section, other, tokensOf)
    ensures name in section && token in tokensOf(name, Find(other, name), section[name])
  {
    name :| name in section && token in tokensOf(name, Find(other, name), section[name]);
  }

  lemma ApiIff(r: Rendering, base: Map, current: Map, token: string)
    ensures token in ApiTokens(r, base, current) <==>
              exists c :: ApiDiffers(base, current, c) && TokenOf(r, c) == token
  {
    if token in ApiTokens(r, base, current) {
      var c := ApiHash(At(Top(base, "public_facade_api"), "sha256"), At(Top(current, "public_facade_api"), "sha256"));
      assert ApiDiffers(base, current, c) && TokenOf(r, c) == token;
    }
  }

  lemma ContextLists(field: string)
    ensures field in CONTEXT_LISTS <==>
              field in {"allowed_dependencies", "public_facades", "public_contracts", "internal_namespaces",
                        "owned_modules", "publishes", "consumes"}
  {
  }

  lemma ContextHas(r: Rendering, base: Map, current: Map, c: Change)
    requires ContextDiffers(base, current, c)
    ensures TokenOf(r, c) in ContextGrowth(r, base, current)
  {
    hide Over, Declared, ListTokens, Strings, Names, Nameless;
    var section, others := Declared(Object(Contexts(current))), Declared(Object(Contexts(base)));
    SameContexts(base);
    SameContexts(current);
    forall d ensures Names(current, "contexts", c.name, d) <==> c.name in section && section[c.name] == d {
      NamesIs(current, "contexts", c.name, d);
    }
    forall p ensures Names(base, "contexts", c.name, p) <==> c.name in others && others[c.name] == p {
      NamesIs(base, "contexts", c.name, p);
    }
    NamesIs(base, "contexts", c.name, map[]);
    if c.ContextGains? {
      ContextLists(c.field);
      ListTokensIff("context:" + c.name, CONTEXT_LISTS, others[c.name], section[c.name], TokenOf(r, c));
    }
    InOver(section, others, (name, previous, context) => ContextTokens(r, name, previous, context), c.name, TokenOf(r, c));
  }

  lemma SameContexts(m: Map)
    ensures Declared(Object(Contexts(m))) == Declared(Top(m, "contexts"))
  {
  }

  lemma ContextIs(r: Rendering, base: Map, current: Map, token: string) returns (c: Change)
    requires token in ContextGrowth(r, base, current)
    ensures ContextDiffers(base, current, c) && TokenOf(r, c) == token
  {
    hide Over, Declared, ListTokens, Strings, Names, Nameless;
    var section, others := Declared(Object(Contexts(current))), Declared(Object(Contexts(base)));
    var name := FromOver(section, others, (name, previous, context) => ContextTokens(r, name, previous, context), token);
    var d := section[name];
    SameContexts(base);
    SameContexts(current);
    NamesIs(current, "contexts", name, d);
    if name !in others {
      NamesIs(base, "contexts", name, map[]);
      c := NewContext(name, d);
      assert token in ContextTokens(r, name, None, d);
    } else {
      var p := others[name];
      assert token in ContextTokens(r, name, Some(p), d);
      NamesIs(base, "contexts", name, p);
      c := ContextChange(r, name, p, d, token);
    }
  }

  /** Within one context: the change of its fields that the token stands for. */
  lemma ContextChange(r: Rendering, name: string, p: Map, d: Map, token: string) returns (c: Change)
    requires token in ContextTokens(r, name, Some(p), d)
    ensures TokenOf(r, c) == token && (c.ContextGains? || c.ContextKind? || c.ContextHidden?) && c.name == name
    ensures c.ContextGains? ==>
              && c.field in {"allowed_dependencies", "public_facades", "public_contracts", "internal_namespaces",
                             "owned_modules", "publishes", "consumes"}
              && Gains(p, d, c.field, c.item)
    ensures c.ContextKind? ==> Turns(p, d, "kind", c.before, c.after) && c.after != Null
    ensures c.ContextHidden? ==> InGraph(p) && Top(d, "graph_scope") == Text("excluded")
  {
    hide ListTokens, Gains;
    if token in ListTokens("context:" + name, CONTEXT_LISTS, p, d) {
      ListTokensIff("context:" + name, CONTEXT_LISTS, p, d, token);
      var field, item :| field in CONTEXT_LISTS && Gains(p, d, field, item)
                         && token == "context:" + name + ":" + field + ":add:" + item;
      ContextLists(field);
      c := ContextGains(name, field, item);
    } else if token == TokenOf(r, ContextHidden(name)) && InGraph(p) && Top(d, "graph_scope") == Text("excluded") {
      c := ContextHidden(name);
    } else {
      c := ContextKind(name, Top(p, "kind"), Top(d, "kind"));
    }
  }

  lemma AccessIs(m: Map, table: Map, namespace: string)
    ensures namespace in Strings(Access(Contexts(m), table)) <==> LetsIn(m, table, namespace)
  {
    ListsIs(Access(Contexts(m), table), namespace);
  }

  lemma OwnershipFields(field: string)
    ensures field in OWNERSHIP_FIELDS <==>
              field in {"owner", "canonical_schema", "canonical_accessor", "role", "external_schema", "access"}
    ensures field in OWNERSHIP_FIELDS ==> field != "transaction"
  {
  }

  lemma TableAdded(m: Map, base: Map, d: Map, p: Map, name: string, token: string)
    ensures token in Added("table:" + name + ":access_namespaces", Strings(Access(Contexts(base), p)),
                           Strings(Access(Contexts(m), d))) <==>
              exists item :: LetsIn(m, d, item) && !LetsIn(base, p, item)
                             && token == "table:" + name + ":access_namespaces:add:" + item
  {
    hide LetsIn, Access, Strings;
    forall item
      ensures item in Strings(Access(Contexts(m), d)) <==> LetsIn(m, d, item)
      ensures item in Strings(Access(Contexts(base), p)) <==> LetsIn(base, p, item)
      ensures "table:" + name + ":access_namespaces" + ":add:" + item == "table:" + name + ":access_namespaces:add:" + item
    {
      AccessIs(m, d, item);
      AccessIs(base, p, item);
      assert "table:" + name + ":access_namespaces" + ":add:" == "table:" + name + ":access_namespaces:add:";
    }
  }

  lemma TableHas(r: Rendering, base: Map, current: Map, c: Change)
    requires TableDiffers(base, current, c)
    ensures TokenOf(r, c) in TableGrowth(r, base, current)
  {
    hide Over, Declared, ScalarTokens, Added, Access, LetsIn, Strings, Names, Nameless;
    var section, others := Tables(current), Tables(base);
    SameTables(base);
    SameTables(current);
    forall d ensures Names(current, "tables", c.name, d) <==> c.name in section && section[c.name] == d {
      NamesIs(current, "tables", c.name, d);
    }
    forall p ensures Names(base, "tables", c.name, p) <==> c.name in others && others[c.name] == p {
      NamesIs(base, "tables", c.name, p);
    }
    NamesIs(base, "tables", c.name, map[]);
    if c.TableField? {
      OwnershipFields(c.field);
      ScalarTokensIff(r, "table:" + c.name, OWNERSHIP_FIELDS, others[c.name], section[c.name], TokenOf(r, c));
    } else if c.TableGains? {
      TableAdded(current, base, section[c.name], others[c.name], c.name, TokenOf(r, c));
    }
    InOver(section, others, (name, previous, table) => TableTokens(r, Contexts(base), Contexts(current), name, previous, table),
           c.name, TokenOf(r, c));
  }

  lemma SameTables(m: Map)
    ensures Tables(m) == Declared(Top(m, "tables"))
  {
  }

  lemma TableIs(r: Rendering, base: Map, current: Map, token: string) returns (c: Change)
    requires token in TableGrowth(r, base, current)
    ensures TableDiffers(base, current, c) && TokenOf(r, c) == token
  {
    hide Over, Tables, ScalarTokens, Added, Access, LetsIn, Strings, Names, Nameless;
    var section, others := Tables(current), Tables(base);
    var name := FromOver(section, others, (name, previous, table) =>
                           TableTokens(r, Contexts(base), Contexts(current), name, previous, table), token);
    var d := section[name];
    SameTables(base);
    SameTables(current);
    NamesIs(current, "tables", name, d);
    if name !in others {
      NamesIs(base, "tables", name, map[]);
      c := NewTable(name, d);
    } else {
      var p := others[name];
      NamesIs(base, "tables", name, p);
      if token in ScalarTokens(r, "table:" + name, OWNERSHIP_FIELDS, p, d) {
        ScalarTokensIff(r, "table:" + name, OWNERSHIP_FIELDS, p, d, token);
        var field, before, after :| field in OWNERSHIP_FIELDS && Turns(p, d, field, before, after)
                                    && token == "table:" + name + ":" + field + ":" + r.stable(before) + "->" + r.stable(after);
        OwnershipFields(field);
        c := TableField(name, field, before, after);
      } else {
        TableAdded(current, base, d, p, name, token);
        var item :| LetsIn(current, d, item) && !LetsIn(base, p, item)
                    && token == "table:" + name + ":access_namespaces:add:" + item;
        c := Change.TableGains(name, item);
      }
    }
  }

  lemma OwnerToken(name: string, item: string)
    ensures "read_model:" + name + ":" + "owners" + ":add:" + item == "read_model:" + name + ":owners:add:" + item
  {
    assert "read_model:" + name + ":" + "owners" + ":add:" == "read_model:" + name + ":owners:add:";
  }

  lemma ReadModelLists(field: string)
    ensures field in READ_MODEL_LISTS <==> field in {"public_contracts", "public_queries", "source_tables"}
    ensures field in ["owners"] <==> field == "owners"
  {
  }

  lemma AccessFields(p: Map, field: string)
    ensures Top(Fields(Get(p, "access")), field) == At(Top(p, "access"), field)
  {
  }

  lemma ReadModelHas(r: Rendering, base: Map, current: Map, c: Change)
    requires ReadModelDiffers(base, current, c)
    ensures TokenOf(r, c) in ReadModelGrowth(r, base, current)
  {
    hide Over, Widenings.Listed, ListTokens, Lists, LastNamed, NoneNamed;
    var section := Widenings.Listed(current, "read_model_exceptions", "module");
    var others := Widenings.Listed(base, "read_model_exceptions", "module");
    LastNamedIs(base, "read_model_exceptions", "module", c.name);
    LastNamedIs(current, "read_model_exceptions", "module", c.name);
    if c.ReadModelOwner? {
      OwnerToken(c.name, c.item);
      ReadModelLists("owners");
      ListTokensIff("read_model:" + c.name, ["owners"], others[c.name], section[c.name], TokenOf(r, c));
    } else if c.ReadModelAccess? {
      ReadModelLists(c.field);
      AccessFields(others[c.name], c.field);
      AccessFields(section[c.name], c.field);
      ListTokensIff("read_model:" + c.name, READ_MODEL_LISTS, Fields(Get(others[c.name], "access")),
                    Fields(Get(section[c.name], "access")), TokenOf(r, c));
    }
    InOver(section, others, (name, previous, model) => ReadModelTokens(r, name, previous, model), c.name, TokenOf(r, c));
  }

  lemma ReadModelIs(r: Rendering, base: Map, current: Map, token: string) returns (c: Change)
    requires token in ReadModelGrowth(r, base, current)
    ensures ReadModelDiffers(base, current, c) && TokenOf(r, c) == token
  {
    hide Over, Widenings.Listed, ListTokens, Lists, LastNamed, NoneNamed;
    var section := Widenings.Listed(current, "read_model_exceptions", "module");
    var others := Widenings.Listed(base, "read_model_exceptions", "module");
    var name := FromOver(section, others, (name, previous, model) => ReadModelTokens(r, name, previous, model), token);
    var d := section[name];
    LastNamedIs(base, "read_model_exceptions", "module", name);
    LastNamedIs(current, "read_model_exceptions", "module", name);
    if name !in others {
      c := NewReadModel(name, d);
    } else {
      var p := others[name];
      c := ReadModelChange(r, name, p, d, token);
    }
  }

  lemma ReadModelChange(r: Rendering, name: string, p: Map, d: Map, token: string) returns (c: Change)
    requires token in ReadModelTokens(r, name, Some(p), d)
    ensures TokenOf(r, c) == token && (c.ReadModelMode? || c.ReadModelOwner? || c.ReadModelAccess?) && c.name == name
    ensures c.ReadModelMode? ==> Turns(p, d, "mode", c.before, c.after)
    ensures c.ReadModelOwner? ==> Gains(p, d, "owners", c.item)
    ensures c.ReadModelAccess? ==>
              && c.field in {"public_contracts", "public_queries", "source_tables"}
              && Lists(At(Top(d, "access"), c.field), c.item) && !Lists(At(Top(p, "access"), c.field), c.item)
  {
    hide ListTokens, Lists;
    var prefix, pa, da := "read_model:" + name, Fields(Get(p, "access")), Fields(Get(d, "access"));
    if token in ListTokens(prefix, ["owners"], p, d) {
      ListTokensIff(prefix, ["owners"], p, d, token);
      var field, item :| field in ["owners"] && Gains(p, d, field, item) && token == prefix + ":" + field + ":add:" + item;
      ReadModelLists(field);
      OwnerToken(name, item);
      c := ReadModelOwner(name, item);
    } else if token in ListTokens(prefix, READ_MODEL_LISTS, pa, da) {
      ListTokensIff(prefix, READ_MODEL_LISTS, pa, da, token);
      var field, item :| field in READ_MODEL_LISTS && Gains(pa, da, field, item) && token == prefix + ":" + field + ":add:" + item;
      ReadModelLists(field);
      AccessFields(p, field);
      AccessFields(d, field);
      c := ReadModelAccess(name, field, item);
    } else {
      c := ReadModelMode(name, Top(p, "mode"), Top(d, "mode"));
    }
  }

  // ----- Migrations

  lemma {:induction false} PathsOfIs(items: seq<Value>, path: string)
    ensures path in PathsOf(items) <==> path in DeclarationsBy(items, "path")
    ensures path in PathsOf(items) ==>
              PathsOf(items)[path] == map["rules" := Top(DeclarationsBy(items, "path")[path], "rules"),
                                          "sha256" := Top(DeclarationsBy(items, "path")[path], "sha256")]
  {
    if |items| > 0 {
      PathsOfIs(items[..|items| - 1], path);
    }
  }

  function Exception(rules: Value, sha256: Value): Map {
    map["rules" := rules, "sha256" := sha256]
  }

  lemma ExceptionsDiffer(rules: Value, sha256: Value, r0: Value, s0: Value)
    ensures Exception(rules, sha256) == Exception(r0, s0) ==> rules == r0 && sha256 == s0
  {
    assert Exception(rules, sha256)["rules"] == rules && Exception(rules, sha256)["sha256"] == sha256;
    assert Exception(r0, s0)["rules"] == r0 && Exception(r0, s0)["sha256"] == s0;
  }

  lemma EntryIs(items: seq<Value>, path: string, rules: Value, sha256: Value)
    ensures EntryIn(List(items), path, rules, sha256) <==>
              path in PathsOf(items) && PathsOf(items)[path] == Exception(rules, sha256)
    ensures NoEntry(List(items), path) <==> path !in PathsOf(items)
  {
    hide LastWith, DeclarationsBy, PathsOf;
    PathsOfIs(items, path);
    LastWithIs(items, "path", path);
    NoneWithIs(items, "path", path);
    if path in PathsOf(items) {
      var d := DeclarationsBy(items, "path")[path];
      ExceptionsDiffer(rules, sha256, Top(d, "rules"), Top(d, "sha256"));
    }
  }

  lemma ExceptsStep(declarations: seq<Value>, path: string, rules: Value, sha256: Value)
    requires |declarations| > 0
    ensures var n := |declarations| - 1;
            Excepts(declarations, path, rules, sha256) <==>
              if NoEntry(At(declarations[n], "paths"), path) then Excepts(declarations[..n], path, rules, sha256)
              else EntryIn(At(declarations[n], "paths"), path, rules, sha256)
  {
    hide At, NoEntry, EntryIn;
    var n: nat := |declarations| - 1;
    var most := declarations[..n];
    assert forall h :: 0 <= h < n ==> most[h] == declarations[h];
    EntryOrNone(At(declarations[n], "paths"), path, rules, sha256);
    if NoEntry(At(declarations[n], "paths"), path) {
      forall i: nat | i < n
        ensures ExceptsAt(declarations, path, rules, sha256, i) <==> ExceptsAt(most, path, rules, sha256, i)
      {
        assert declarations[i] == most[i];
        if ExceptsAt(most, path, rules, sha256, i) {
          forall h | i < h < |declarations| ensures NoEntry(At(declarations[h], "paths"), path) {
            assert h < n ==> declarations[h] == most[h];
          }
        }
      }
    } else if EntryIn(At(declarations[n], "paths"), path, rules, sha256) {
      assert ExceptsAt(declarations, path, rules, sha256, n);
    }
  }

  lemma EntryOrNone(paths: Value, path: string, rules: Value, sha256: Value)
    ensures EntryIn(paths, path, rules, sha256) ==> !NoEntry(paths, path)
  {
    if EntryIn(paths, path, rules, sha256) {
      EntryIs(paths.items, path, rules, sha256);
    }
  }

  lemma {:induction false} MigrationsRead(declarations: seq<Value>)
    ensures MigrationsOf(declarations).Some? <==> !Unwalkable(declarations)
  {
    if |declarations| > 0 {
      var n := |declarations| - 1;
      MigrationsRead(declarations[..n]);
      assert forall i :: 0 <= i < n ==> declarations[..n][i] == declarations[i];
      assert PathEntries(GetOr(Fields(declarations[n]), "paths", List([]))).None? <==>
               GivesPaths(declarations[n]) && !At(declarations[n], "paths").List? && !At(declarations[n], "paths").Text?
               && !At(declarations[n], "paths").Object?;
      hide PathsOf;
    }
  }

  lemma MigrationsStep(declarations: seq<Value>, path: string)
    requires |declarations| > 0 && MigrationsOf(declarations).Some?
    ensures var n := |declarations| - 1;
            && MigrationsOf(declarations[..n]).Some?
            && MigrationsOf(declarations).value ==
                 MigrationsOf(declarations[..n]).value + PathsOf(Items(At(declarations[n], "paths")))
  {
    var n := |declarations| - 1;
    var earlier := MigrationsOf(declarations[..n]);
    assert earlier.value + map[] == earlier.value;
    assert PathsOf([]) == map[];
    assert !At(declarations[n], "paths").List? ==> Items(At(declarations[n], "paths")) == [];
  }

  lemma NothingExcepted(path: string, rules: Value, sha256: Value)
    ensures !Excepts([], path, rules, sha256)
  {
  }

  lemma NotListed(paths: Value, path: string)
    requires !paths.List?
    ensures NoEntry(paths, path) && PathsOf(Items(paths)) == map[]
  {
  }

  lemma {:induction false} MigrationsAre(declarations: seq<Value>, path: string, rules: Value, sha256: Value)
    requires MigrationsOf(declarations).Some?
    ensures Excepts(declarations, path, rules, sha256) <==>
              path in MigrationsOf(declarations).value && MigrationsOf(declarations).value[path] == Exception(rules, sha256)
    ensures NoException(declarations, path) <==> path !in MigrationsOf(declarations).value
  {
    hide PathsOf, EntryIn, NoEntry, Excepts, PathEntries, At;
    if |declarations| == 0 {
      NothingExcepted(path, rules, sha256);
    } else {
      var n := |declarations| - 1;
      var paths := At(declarations[n], "paths");
      MigrationsStep(declarations, path);
      MigrationsAre(declarations[..n], path, rules, sha256);
      ExceptsStep(declarations, path, rules, sha256);
      assert forall i :: 0 <= i < n ==> declarations[..n][i] == declarations[i];
      if paths.List? {
        EntryIs(paths.items, path, rules, sha256);
      } else {
        NotListed(paths, path);
      }
    }
  }

  lemma SameMigrations(m: Map)
    ensures Migrations(m) == MigrationsOf(Declarations(m))
  {
  }

  lemma MigrationHas(r: Rendering, base: Map, current: Map, c: Change)
    requires Migrations(base).Some? && Migrations(current).Some?
    requires MigrationDiffers(base, current, c)
    ensures TokenOf(r, c) in MigrationGrowth(r, Migrations(base).value, Migrations(current).value)
  {
    hide Over, Migrations, Excepts, NoException, ScalarTokens, MigrationsOf;
    var section, others := Migrations(current).value, Migrations(base).value;
    SameMigrations(base);
    SameMigrations(current);
    if c.NewMigration? {
      MigrationsAre(Declarations(current), c.name, c.rules, c.sha256);
      MigrationsAre(Declarations(base), c.name, c.rules, c.sha256);
    } else {
      var rules, sha256, r0, s0 :|
        && Excepts(Declarations(base), c.name, r0, s0) && Excepts(Declarations(current), c.name, rules, sha256)
        && ((c.field == "rules" && c.before == r0 && c.after == rules)
            || (c.field == "sha256" && c.before == s0 && c.after == sha256));
      MigrationsAre(Declarations(current), c.name, rules, sha256);
      MigrationsAre(Declarations(base), c.name, r0, s0);
      assert Turns(Exception(r0, s0), Exception(rules, sha256), c.field, c.before, c.after);
      assert c.field in ["rules", "sha256"] && c.field != "transaction";
      ScalarTokensIff(r, "migration_exception:" + c.name, ["rules", "sha256"], Exception(r0, s0), Exception(rules, sha256),
                      TokenOf(r, c));
    }
    InOver(section, others, (path, previous, declaration) => MigrationTokens(r, path, previous, declaration), c.name,
           TokenOf(r, c));
  }

  /** Every entry is a pair of rules and hash. */
  lemma {:induction false} MigrationsShape(declarations: seq<Value>, path: string)
    requires MigrationsOf(declarations).Some? && path in MigrationsOf(declarations).value
    ensures exists rules, sha256 :: MigrationsOf(declarations).value[path] == Exception(rules, sha256)
  {
    hide PathsOf, PathEntries;
    var n := |declarations| - 1;
    if n >= 0 {
      MigrationsStep(declarations, path);
      var items := Items(At(declarations[n], "paths"));
      PathsOfIs(items, path);
      if path in PathsOf(items) {
        var d := DeclarationsBy(items, "path")[path];
        assert PathsOf(items)[path] == Exception(Top(d, "rules"), Top(d, "sha256"));
      } else {
        MigrationsShape(declarations[..n], path);
      }
    }
  }

  lemma MigrationIs(r: Rendering, base: Map, current: Map, token: string) returns (c: Change)
    requires Migrations(base).Some? && Migrations(current).Some?
    requires token in MigrationGrowth(r, Migrations(base).value, Migrations(current).value)
    ensures MigrationDiffers(base, current, c) && TokenOf(r, c) == token
  {
    hide Over, Migrations, Excepts, NoException, ScalarTokens, MigrationsOf;
    var section, others := Migrations(current).value, Migrations(base).value;
    SameMigrations(base);
    SameMigrations(current);
    var name := FromOver(section, others, (path, previous, declaration) => MigrationTokens(r, path, previous, declaration),
                         token);
    MigrationsShape(Declarations(current), name);
    var rules, sha256 :| section[name] == Exception(rules, sha256);
    MigrationsAre(Declarations(current), name, rules, sha256);
    if name !in others {
      MigrationsAre(Declarations(base), name, rules, sha256);
      c := NewMigration(name, rules, sha256);
    } else {
      MigrationsShape(Declarations(base), name);
      var r0, s0 :| others[name] == Exception(r0, s0);
      MigrationsAre(Declarations(base), name, r0, s0);
      c := MigrationChange(r, name, r0, s0, rules, sha256, token);
    }
  }

  lemma MigrationChange(r: Rendering, name: string, r0: Value, s0: Value, rules: Value, sha256: Value, token: string)
    returns (c: Change)
    requires token in MigrationTokens(r, name, Some(Exception(r0, s0)), Exception(rules, sha256))
    ensures TokenOf(r, c) == token && c.MigrationField? && c.name == name && c.before != c.after
    ensures (c.field == "rules" && c.before == r0 && c.after == rules)
            || (c.field == "sha256" && c.before == s0 && c.after == sha256)
  {
    hide ScalarTokens;
    var prefix, p, d := "migration_exception:" + name, Exception(r0, s0), Exception(rules, sha256);
    ScalarTokensIff(r, prefix, ["rules", "sha256"], p, d, token);
    var field, before, after :|
      && field in ["rules", "sha256"] && Turns(p, d, field, before, after)
      && token == prefix + ":" + field + ":" + r.stable(before) + "->" + r.stable(after);
    c := MigrationField(name, field, before, after);
  }

  // ----- Collaborations

  lemma CollaborationFields(section: string, field: string)
    requires section == RUNTIME || section == TECHNICAL
    ensures field in ScalarFields(section) <==> CollaborationScalar(section, field)
    ensures field in ListFields(section) <==> CollaborationList(section, field)
  {
    assert "runtime_collaborations"[0] != "technical_interfaces"[0];
  }

  lemma RenderedIs(r: Rendering, v: Value, text: string)
    ensures text in RenderedItems(r, v) <==> v.List? && exists item :: item in v.items && r.stable(item) == text
  {
  }

  lemma JoinsIff(r: Rendering, prefix: string, p: Map, d: Map, field: string, token: string)
    ensures token in Added(prefix, RenderedItems(r, Get(p, field)), RenderedItems(r, Get(d, field))) <==>
              exists added :: Joins(r, p, d, field, added) && token == prefix + ":add:" + r.stable(added)
  {
    hide RenderedItems;
    forall text
      ensures text in RenderedItems(r, Get(d, field)) <==>
                Top(d, field).List? && exists item :: item in Top(d, field).items && r.stable(item) == text
      ensures text in RenderedItems(r, Get(p, field)) <==>
                Top(p, field).List? && exists item :: item in Top(p, field).items && r.stable(item) == text
    {
      RenderedIs(r, Get(d, field), text);
      RenderedIs(r, Get(p, field), text);
    }
    if token in Added(prefix, RenderedItems(r, Get(p, field)), RenderedItems(r, Get(d, field))) {
      var text :| text in RenderedItems(r, Get(d, field)) && text !in RenderedItems(r, Get(p, field))
                  && token == prefix + ":add:" + text;
      var added :| added in Top(d, field).items && r.stable(added) == text;
      assert Joins(r, p, d, field, added);
    }
    if added :| Joins(r, p, d, field, added) && token == prefix + ":add:" + r.stable(added) {
      assert r.stable(added) in RenderedItems(r, Get(d, field));
    }
  }

  lemma CollaborationHas(r: Rendering, base: Map, current: Map, c: Change, section: string)
    requires section == "runtime_collaborations" || section == "technical_interfaces"
    requires CollaborationDiffers(r, base, current, c) && c.section == section
    ensures TokenOf(r, c) in CollaborationGrowth(r, base, current, section)
  {
    hide Over, Widenings.Listed, ScalarTokens, Added, RenderedItems, Joins, LastNamed, NoneNamed, ScalarFields, ListFields,
         CollaborationScalar, CollaborationList;
    var now, others := Widenings.Listed(current, section, "id"), Widenings.Listed(base, section, "id");
    LastNamedIs(base, section, "id", c.name);
    LastNamedIs(current, section, "id", c.name);
    if c.CollaborationField? {
      CollaborationFields(section, c.field);
      ScalarTokensIff(r, section + ":" + c.name, ScalarFields(section), others[c.name], now[c.name], TokenOf(r, c));
    } else if c.CollaborationGains? {
      CollaborationFields(section, c.field);
      JoinsIff(r, section + ":" + c.name + ":" + c.field, others[c.name], now[c.name], c.field, TokenOf(r, c));
    }
    InOver(now, others, (id, previous, declaration) => CollaborationTokens(r, section, id, previous, declaration), c.name,
           TokenOf(r, c));
  }

  lemma CollaborationIs(r: Rendering, base: Map, current: Map, token: string, section: string) returns (c: Change)
    requires section == "runtime_collaborations" || section == "technical_interfaces"
    requires token in CollaborationGrowth(r, base, current, section)
    ensures CollaborationDiffers(r, base, current, c) && TokenOf(r, c) == token
  {
    hide Over, Widenings.Listed, ScalarTokens, Added, RenderedItems, Joins, LastNamed, NoneNamed, ScalarFields, ListFields,
         CollaborationScalar, CollaborationList;
    var now, others := Widenings.Listed(current, section, "id"), Widenings.Listed(base, section, "id");
    var name := FromOver(now, others, (id, previous, declaration) =>
                           CollaborationTokens(r, section, id, previous, declaration), token);
    var d := now[name];
    LastNamedIs(base, section, "id", name);
    LastNamedIs(current, section, "id", name);
    if name !in others {
      c := NewCollaboration(section, name, d);
    } else {
      c := CollaborationChange(r, section, name, others[name], d, token);
    }
  }

  lemma CollaborationChange(r: Rendering, section: string, name: string, p: Map, d: Map, token: string) returns (c: Change)
    requires section == "runtime_collaborations" || section == "technical_interfaces"
    requires token in CollaborationTokens(r, section, name, Some(p), d)
    ensures TokenOf(r, c) == token && (c.CollaborationField? || c.CollaborationGains?) && c.section == section && c.name == name
    ensures c.CollaborationField? ==>
              && CollaborationScalar(section, c.field) && Turns(p, d, c.field, c.before, c.after)
              && !(c.field == "transaction" && c.before == Text("independent") && c.after == Text("required"))
    ensures c.CollaborationGains? ==> CollaborationList(section, c.field) && Joins(r, p, d, c.field, c.added)
  {
    hide ScalarTokens, Added, RenderedItems, Joins, ScalarFields, ListFields, CollaborationScalar, CollaborationList;
    var prefix := section + ":" + name;
    if token in ScalarTokens(r, prefix, ScalarFields(section), p, d) {
      ScalarTokensIff(r, prefix, ScalarFields(section), p, d, token);
      var field, before, after :|
        && field in ScalarFields(section) && Turns(p, d, field, before, after)
        && !(field == "transaction" && before == Text("independent") && after == Text("required"))
        && token == prefix + ":" + field + ":" + r.stable(before) + "->" + r.stable(after);
      CollaborationFields(section, field);
      c := CollaborationField(section, name, field, before, after);
    } else {
      var field :| field in ListFields(section)
        && token in Added(prefix + ":" + field, RenderedItems(r, Get(p, field)), RenderedItems(r, Get(d, field)));
      JoinsIff(r, prefix + ":" + field, p, d, field, token);
      var added :| Joins(r, p, d, field, added) && token == prefix + ":" + field + ":add:" + r.stable(added);
      CollaborationFields(section, field);
      c := Change.CollaborationGains(section, name, field, added);
    }
  }

  // ----- Namespace rules

  lemma RuleHas(r: Rendering, base: Map, current: Map, c: Change)
    requires RuleDiffers(base, current, c)
    ensures TokenOf(r, c) in NamespaceGrowth(r, base, current)
  {
    hide Over, Widenings.Listed, Strings, Lists, LastNamed, NoneNamed;
    var was := Widenings.Listed(base, "namespace_dependency_rules", "id");
    var now := Widenings.Listed(current, "namespace_dependency_rules", "id");
    LastNamedIs(base, "namespace_dependency_rules", "id", c.name);
    LastNamedIs(current, "namespace_dependency_rules", "id", c.name);
    if c.CrossingAllowed? {
      ListsIs(Get(was[c.name], "forbidden"), c.item);
      ListsIs(Get(now[c.name], "forbidden"), c.item);
      assert c.item in Strings(Get(was[c.name], "forbidden")) - Strings(Get(now[c.name], "forbidden"));
    }
    InOver(was, now, (id, declaration, previous) => NamespaceTokens(r, id, declaration, previous), c.name, TokenOf(r, c));
  }

  lemma RuleIs(r: Rendering, base: Map, current: Map, token: string) returns (c: Change)
    requires token in NamespaceGrowth(r, base, current)
    ensures RuleDiffers(base, current, c) && TokenOf(r, c) == token
  {
    hide Over, Widenings.Listed, Strings, Lists, LastNamed, NoneNamed;
    var was := Widenings.Listed(base, "namespace_dependency_rules", "id");
    var now := Widenings.Listed(current, "namespace_dependency_rules", "id");
    var name := FromOver(was, now, (id, declaration, previous) => NamespaceTokens(r, id, declaration, previous), token);
    LastNamedIs(base, "namespace_dependency_rules", "id", name);
    LastNamedIs(current, "namespace_dependency_rules", "id", name);
    var p := was[name];
    assert LastNamed(base, "namespace_dependency_rules", "id", name, p);
    if name !in now {
      c := RuleRemoved(name);
    } else {
      var d := now[name];
      assert LastNamed(current, "namespace_dependency_rules", "id", name, d);
      c := RuleChange(r, name, p, d, token);
    }
  }

  lemma RuleChange(r: Rendering, name: string, p: Map, d: Map, token: string) returns (c: Change)
    requires token in NamespaceTokens(r, name, Some(d), p)
    ensures TokenOf(r, c) == token && (c.RuleFrom? || c.CrossingAllowed?) && c.name == name
    ensures c.RuleFrom? ==> Turns(p, d, "from", c.before, c.after)
    ensures c.CrossingAllowed? ==> Gains(d, p, "forbidden", c.item)
  {
    hide Strings, Lists;
    c := RuleFrom(name, Top(p, "from"), Top(d, "from"));
    if !(TokenOf(r, c) == token && Turns(p, d, "from", Top(p, "from"), Top(d, "from"))) {
      var item :| item in Strings(Get(p, "forbidden")) - Strings(Get(d, "forbidden"))
                  && token == "namespace_rule:" + name + ":forbidden:remove:" + item;
      ListsIs(Get(p, "forbidden"), item);
      ListsIs(Get(d, "forbidden"), item);
      c := CrossingAllowed(name, item);
    }
  }

  // ----- All of them

  /** Widenings can be told exactly if all paths can be walked over; a token is then among them if and only if it
      stands for a difference between the documents. */
  lemma TokensIff(r: Rendering, base: Map, current: Map)
    ensures AllGrowth(r, base, current).Some? <==> !Unwalkable(Declarations(base)) && !Unwalkable(Declarations(current))
    ensures AllGrowth(r, base, current).Some? ==>
              forall token :: token in AllGrowth(r, base, current).value <==>
                exists c :: Differs(r, base, current, c) && TokenOf(r, c) == token
  {
    hide ApiTokens, ContextGrowth, TableGrowth, ReadModelGrowth, MigrationGrowth, CollaborationGrowth, NamespaceGrowth,
         Migrations, MigrationsOf, Unwalkable, Differs, TokenOf;
    SameMigrations(base);
    SameMigrations(current);
    MigrationsRead(Declarations(base));
    MigrationsRead(Declarations(current));
    if AllGrowth(r, base, current).Some? {
      forall token | token in AllGrowth(r, base, current).value
        ensures exists c :: Differs(r, base, current, c) && TokenOf(r, c) == token
      {
        var c := StandsFor(r, base, current, token);
      }
      forall c | Differs(r, base, current, c) ensures TokenOf(r, c) in AllGrowth(r, base, current).value {
        IsNamed(r, base, current, c);
      }
    }
  }

  lemma StandsFor(r: Rendering, base: Map, current: Map, token: string) returns (c: Change)
    requires AllGrowth(r, base, current).Some? && token in AllGrowth(r, base, current).value
    ensures Differs(r, base, current, c) && TokenOf(r, c) == token
  {
    hide ApiTokens, ContextGrowth, TableGrowth, ReadModelGrowth, MigrationGrowth, CollaborationGrowth, NamespaceGrowth,
         Migrations, TokenOf, ApiDiffers, ContextDiffers, TableDiffers, ReadModelDiffers, MigrationDiffers,
         CollaborationDiffers, RuleDiffers;
    if token in ApiTokens(r, base, current) {
      ApiIff(r, base, current, token);
      c :| ApiDiffers(base, current, c) && TokenOf(r, c) == token;
    } else if token in ContextGrowth(r, base, current) {
      c := ContextIs(r, base, current, token);
    } else if token in TableGrowth(r, base, current) {
      c := TableIs(r, base, current, token);
    } else if token in ReadModelGrowth(r, base, current) {
      c := ReadModelIs(r, base, current, token);
    } else if token in MigrationGrowth(r, Migrations(base).value, Migrations(current).value) {
      c := MigrationIs(r, base, current, token);
    } else if token in CollaborationGrowth(r, base, current, RUNTIME) {
      c := CollaborationIs(r, base, current, token, RUNTIME);
    } else if token in CollaborationGrowth(r, base, current, TECHNICAL) {
      c := CollaborationIs(r, base, current, token, TECHNICAL);
    } else {
      c := RuleIs(r, base, current, token);
    }
  }

  lemma CollaborationSection(r: Rendering, base: Map, current: Map, c: Change)
    requires CollaborationDiffers(r, base, current, c)
    ensures (c.NewCollaboration? || c.CollaborationField? || c.CollaborationGains?)
            && (c.section == RUNTIME || c.section == TECHNICAL)
  {
  }

  lemma IsNamed(r: Rendering, base: Map, current: Map, c: Change)
    requires AllGrowth(r, base, current).Some? && Differs(r, base, current, c)
    ensures TokenOf(r, c) in AllGrowth(r, base, current).value
  {
    hide ApiTokens, ContextGrowth, TableGrowth, ReadModelGrowth, MigrationGrowth, CollaborationGrowth, NamespaceGrowth,
         Migrations, TokenOf, ApiDiffers, ContextDiffers, TableDiffers, ReadModelDiffers, MigrationDiffers,
         CollaborationDiffers, RuleDiffers;
    if ApiDiffers(base, current, c) {
      ApiIff(r, base, current, TokenOf(r, c));
    } else if ContextDiffers(base, current, c) {
      ContextHas(r, base, current, c);
    } else if TableDiffers(base, current, c) {
      TableHas(r, base, current, c);
    } else if ReadModelDiffers(base, current, c) {
      ReadModelHas(r, base, current, c);
    } else if MigrationDiffers(base, current, c) {
      MigrationHas(r, base, current, c);
    } else if RuleDiffers(base, current, c) {
      RuleHas(r, base, current, c);
    } else {
      CollaborationSection(r, base, current, c);
      CollaborationHas(r, base, current, c, c.section);
    }
  }
}
