/** The review tokens for the growth of ownership or permission between two revisions of the boundary
    manifest. */
module Widenings {
  import opened Documents
  import opened Json
  import opened Wrappers

  /** Declarations by name; only mappings declare something. */
  type Section = map<string, Map>

  /** How values are written into tokens: `json.dumps` with sorted keys, and `str`. */
  datatype Rendering = Rendering(stable: Value -> string, show: Value -> string)

  const CONTEXT_LISTS := ["allowed_dependencies", "public_facades", "public_contracts", "internal_namespaces",
                          "owned_modules", "publishes", "consumes"]
  const OWNERSHIP_FIELDS := ["owner", "canonical_schema", "canonical_accessor", "role", "external_schema", "access"]
  const READ_MODEL_LISTS := ["public_contracts", "public_queries", "source_tables"]
  const RUNTIME := "runtime_collaborations"
  const TECHNICAL := "technical_interfaces"

  function ScalarFields(section: string): seq<string> {
    if section == RUNTIME then
      ["consumer", "provider", "port", "result_contract", "implementation", "binding", "graph_semantics", "transaction"]
    else
      ["owner", "interface", "dispatch", "behaviour", "implementation", "binding", "transaction"]
  }

  function ListFields(section: string): seq<string> {
    if section == RUNTIME then ["callers", "operations"] else ["callers", "operations", "contracts"]
  }

  // ----- Sections of a manifest

  function Declared(v: Value): Section {
    map name | name in Fields(v) && Fields(v)[name].Object? :: Fields(v)[name].fields
  }

  /** `_declarations_by`: of several declarations with one key the last counts. */
  function DeclarationsBy(items: seq<Value>, key: string): Section {
    if |items| == 0 then map[]
    else
      var earlier, last := DeclarationsBy(items[..|items| - 1], key), items[|items| - 1];
      if last.Object? && Get(last.fields, key).Text? then earlier[Get(last.fields, key).s := last.fields] else earlier
  }

  function Listed(m: Map, section: string, key: string): Section {
    DeclarationsBy(Items(Get(m, section)), key)
  }

  /** The entries of one `paths` list; what is neither a list nor another iterable raises. */
  function PathEntries(paths: Value): Option<Section> {
    match paths
    case List(items) => Some(PathsOf(items))
    case Text(_) => Some(map[])
    case Object(_) => Some(map[])
    case _ => None
  }

  function PathsOf(items: seq<Value>): Section {
    if |items| == 0 then map[]
    else
      var earlier, last := PathsOf(items[..|items| - 1]), items[|items| - 1];
      if last.Object? && Get(last.fields, "path").Text? then
        earlier[Get(last.fields, "path").s :=
          map["rules" := Get(last.fields, "rules"), "sha256" := Get(last.fields, "sha256")]]
      else earlier
  }

  function MigrationsOf(declarations: seq<Value>): Option<Section> {
    if |declarations| == 0 then Some(map[])
    else
      var earlier, last := MigrationsOf(declarations[..|declarations| - 1]), declarations[|declarations| - 1];
      if earlier.None? || !last.Object? then earlier
      else
        match PathEntries(GetOr(last.fields, "paths", List([])))
        case None => None
        case Some(entries) => Some(earlier.value + entries)
  }

  /** `migration_entries` */
  function Migrations(m: Map): Option<Section> {
    MigrationsOf(Items(GetOr(m, "migration_exceptions", List([]))))
  }

  function Contexts(m: Map): Map {
    Fields(GetOr(m, "contexts", Object(map[])))
  }

  function Tables(m: Map): Section {
    Declared(GetOr(m, "tables", Object(map[])))
  }

  /** The namespaces that may access a table: its own list or else its owner's internal namespaces. */
  function Access(contexts: Map, table: Map): Value {
    var owner := Get(table, "owner");
    var context := if owner.Text? then GetOr(contexts, owner.s, Object(map[])) else Object(map[]);
    GetOr(table, "access_namespaces",
          if context.Object? then GetOr(context.fields, "internal_namespaces", List([])) else List([]))
  }

  /** The items of a list, each in its stable rendering. */
  function RenderedItems(r: Rendering, v: Value): set<string> {
    set item | item in Items(v) :: r.stable(item)
  }

  // ----- Tokens

  function Find(section: Section, name: string): Option<Map> {
    if name in section then Some(section[name]) else None
  }

  /** `_added_tokens` */
  function Added(prefix: string, previous: set<string>, current: set<string>): set<string> {
    set item | item in current - previous :: prefix + ":add:" + item
  }

  function ListTokens(prefix: string, fields: seq<string>, previous: Map, declaration: Map): set<string> {
    set field, token | field in fields &&
      token in Added(prefix + ":" + field, Strings(Get(previous, field)), Strings(Get(declaration, field))) :: token
  }

  function ChangeToken(r: Rendering, prefix: string, field: string, previous: Map, declaration: Map): string {
    prefix + ":" + field + ":" + r.stable(Get(previous, field)) + "->" + r.stable(Get(declaration, field))
  }

  /** Only a transaction that turns from independent to required changes without review. */
  predicate Changed(field: string, previous: Map, declaration: Map) {
    && Get(previous, field) != Get(declaration, field)
    && !(field == "transaction" && Get(previous, field) == Text("independent")
         && Get(declaration, field) == Text("required"))
  }

  function ScalarTokens(r: Rendering, prefix: string, fields: seq<string>, previous: Map, declaration: Map): set<string> {
    set field | field in fields && Changed(field, previous, declaration) ::
      ChangeToken(r, prefix, field, previous, declaration)
  }

  function AddToken(r: Rendering, prefix: string, declaration: Map): string {
    prefix + ":add:" + r.stable(Object(declaration))
  }

  function ApiTokens(r: Rendering, base: Map, current: Map): set<string> {
    var previous, declaration := Get(base, "public_facade_api"), Get(current, "public_facade_api");
    if previous.Object? && declaration.Object? && Get(previous.fields, "sha256") != Get(declaration.fields, "sha256")
    then {"public_facade_api:sha256:" + r.show(Get(previous.fields, "sha256")) + "->" +
          r.show(Get(declaration.fields, "sha256"))}
    else {}
  }

  function ContextTokens(r: Rendering, name: string, base: Option<Map>, context: Map): set<string> {
    var prefix := "context:" + name;
    match base
    case None => {AddToken(r, prefix, context)}
    case Some(previous) =>
      ListTokens(prefix, CONTEXT_LISTS, previous, context) +
      (if Get(previous, "kind") != Get(context, "kind") && Get(context, "kind") != Null
       then {prefix + ":kind:" + r.show(Get(previous, "kind")) + "->" + r.show(Get(context, "kind"))} else {}) +
      (if GetOr(previous, "graph_scope", Text("included")) == Text("included")
          && GetOr(context, "graph_scope", Text("included")) == Text("excluded")
       then {prefix + ":graph_scope:included->excluded"} else {})
  }

  function TableTokens(r: Rendering, baseContexts: Map, contexts: Map, table: string, base: Option<Map>,
                       declaration: Map): set<string> {
    var prefix := "table:" + table;
    match base
    case None => {AddToken(r, prefix, declaration)}
    case Some(previous) =>
      ScalarTokens(r, prefix, OWNERSHIP_FIELDS, previous, declaration) +
      Added(prefix + ":access_namespaces", Strings(Access(baseContexts, previous)), Strings(Access(contexts, declaration)))
  }

  function ReadModelTokens(r: Rendering, model: string, base: Option<Map>, declaration: Map): set<string> {
    var prefix := "read_model:" + model;
    match base
    case None => {AddToken(r, prefix, declaration)}
    case Some(previous) =>
      (if Get(previous, "mode") != Get(declaration, "mode")
       then {prefix + ":mode:" + r.show(Get(previous, "mode")) + "->" + r.show(Get(declaration, "mode"))} else {}) +
      ListTokens(prefix, ["owners"], previous, declaration) +
      ListTokens(prefix, READ_MODEL_LISTS, Fields(Get(previous, "access")), Fields(Get(declaration, "access")))
  }

  function MigrationTokens(r: Rendering, path: string, base: Option<Map>, declaration: Map): set<string> {
    var prefix := "migration_exception:" + path;
    match base
    case None => {AddToken(r, prefix, declaration)}
    case Some(previous) => ScalarTokens(r, prefix, ["rules", "sha256"], previous, declaration)
  }

  function CollaborationTokens(r: Rendering, section: string, id: string, base: Option<Map>, declaration: Map)
    : set<string>
  {
    var prefix := section + ":" + id;
    match base
    case None => {AddToken(r, prefix, declaration)}
    case Some(previous) =>
      ScalarTokens(r, prefix, ScalarFields(section), previous, declaration) +
      set field, token | field in ListFields(section) &&
        token in Added(prefix + ":" + field, RenderedItems(r, Get(previous, field)),
                       RenderedItems(r, Get(declaration, field))) :: token
  }

  /** A namespace rule widens the manifest by disappearing, moving or forbidding less. */
  function NamespaceTokens(r: Rendering, rule: string, current: Option<Map>, previous: Map): set<string> {
    var prefix := "namespace_rule:" + rule;
    match current
    case None => {prefix + ":removed"}
    case Some(declaration) =>
      (if Get(previous, "from") != Get(declaration, "from")
       then {prefix + ":from:" + r.show(Get(previous, "from")) + "->" + r.show(Get(declaration, "from"))} else {}) +
      set item | item in Strings(Get(previous, "forbidden")) - Strings(Get(declaration, "forbidden")) ::
        prefix + ":forbidden:remove:" + item
  }

  /** The tokens of every declaration of `section`, each one compared with its namesake in `other`. */
  function Over(section: Section, other: Section, tokensOf: (string, Option<Map>, Map) -> set<string>): set<string> {
    set name, token | name in section && token in tokensOf(name, Find(other, name), section[name]) :: token
  }

  method Collect(section: Section, other: Section, tokensOf: (string, Option<Map>, Map) -> set<string>)
    returns (tokens: set<string>)
    ensures tokens == Over(section, other, tokensOf)
  {
    tokens := {};
    var pending := section.Keys;
    while pending != {}
      invariant pending <= section.Keys
      invariant forall token :: token in tokens <==>
                  exists name :: name in section && name !in pending && token in tokensOf(name, Find(other, name), section[name])
      decreases pending
    {
      var name :| name in pending;
      pending := pending - {name};
      tokens := tokens + tokensOf(name, Find(other, name), section[name]);
    }
  }

  function ContextGrowth(r: Rendering, base: Map, current: Map): set<string> {
    Over(Declared(Object(Contexts(current))), Declared(Object(Contexts(base))),
         (name, previous, context) => ContextTokens(r, name, previous, context))
  }

  function TableGrowth(r: Rendering, base: Map, current: Map): set<string> {
    Over(Tables(current), Tables(base),
         (name, previous, table) => TableTokens(r, Contexts(base), Contexts(current), name, previous, table))
  }

  function ReadModelGrowth(r: Rendering, base: Map, current: Map): set<string> {
    Over(Listed(current, "read_model_exceptions", "module"), Listed(base, "read_model_exceptions", "module"),
         (name, previous, model) => ReadModelTokens(r, name, previous, model))
  }

  function CollaborationGrowth(r: Rendering, base: Map, current: Map, section: string): set<string> {
    Over(Listed(current, section, "id"), Listed(base, section, "id"),
         (id, previous, declaration) => CollaborationTokens(r, section, id, previous, declaration))
  }

  function NamespaceGrowth(r: Rendering, base: Map, current: Map): set<string> {
    Over(Listed(base, "namespace_dependency_rules", "id"), Listed(current, "namespace_dependency_rules", "id"),
         (id, declaration, previous) => NamespaceTokens(r, id, declaration, previous))
  }

  function MigrationGrowth(r: Rendering, base: Section, current: Section): set<string> {
    Over(current, base, (path, previous, declaration) => MigrationTokens(r, path, previous, declaration))
  }

  /** Every token of the step from `base` to `current`; none at all if reading the migrations raises. */
  function AllGrowth(r: Rendering, base: Map, current: Map): Option<set<string>> {
    if Migrations(base).None? || Migrations(current).None? then None
    else Some(ApiTokens(r, base, current) + ContextGrowth(r, base, current) + TableGrowth(r, base, current) +
              ReadModelGrowth(r, base, current) + MigrationGrowth(r, Migrations(base).value, Migrations(current).value) +
              CollaborationGrowth(r, base, current, RUNTIME) + CollaborationGrowth(r, base, current, TECHNICAL) +
              NamespaceGrowth(r, base, current))
  }

  /** `_manifest_semantic_widenings` */
  method ManifestSemanticWidenings(r: Rendering, base: Map, current: Map) returns (tokens: Option<set<string>>)
    ensures tokens == AllGrowth(r, base, current)
  {
    var found := ApiTokens(r, base, current);
    var more := Collect(Declared(Object(Contexts(current))), Declared(Object(Contexts(base))),
                        (name, previous, context) => ContextTokens(r, name, previous, context));
    found := found + more;
    more := Collect(Tables(current), Tables(base),
                    (name, previous, table) => TableTokens(r, Contexts(base), Contexts(current), name, previous, table));
    found := found + more;
    more := Collect(Listed(current, "read_model_exceptions", "module"), Listed(base, "read_model_exceptions", "module"),
                    (name, previous, model) => ReadModelTokens(r, name, previous, model));
    found := found + more;
    var before, after := Migrations(base), Migrations(current);
    if before.None? || after.None? {
      return None;
    }
    more := Collect(after.value, before.value,
                    (path, previous, declaration) => MigrationTokens(r, path, previous, declaration));
    found := found + more;
    more := Collect(Listed(current, RUNTIME, "id"), Listed(base, RUNTIME, "id"),
                    (id, previous, declaration) => CollaborationTokens(r, RUNTIME, id, previous, declaration));
    found := found + more;
    more := Collect(Listed(current, TECHNICAL, "id"), Listed(base, TECHNICAL, "id"),
                    (id, previous, declaration) => CollaborationTokens(r, TECHNICAL, id, previous, declaration));
    found := found + more;
    more := Collect(Listed(base, "namespace_dependency_rules", "id"), Listed(current, "namespace_dependency_rules", "id"),
                    (id, declaration, previous) => NamespaceTokens(r, id, declaration, previous));
    found := found + more;
    tokens := Some(found);
  }

  // ----- Permissions

  datatype Permission =
    | ContextItem(context: string, field: string, item: string)
    | TableAccess(table: string, namespace: string)
    | ReadModelItem(model: string, field: string, item: string)
    | CollaborationItem(section: string, id: string, field: string, item: string)
    | Crossing(rule: string, namespace: string)

  /** What one read-model declaration grants under a list: its owners, or what it may access. */
  function ReadModelGrant(declaration: Map, field: string): Value {
    if field == "owners" then Get(declaration, "owners") else Get(Fields(Get(declaration, "access")), field)
  }

  /** The manifest grants the permission. A crossing is granted when no rule of that name forbids it. */
  predicate Grants(r: Rendering, m: Map, p: Permission) {
    match p
    case ContextItem(context, field, item) =>
      var contexts := Declared(Object(Contexts(m)));
      context in contexts && field in CONTEXT_LISTS && item in Strings(Get(contexts[context], field))
    case TableAccess(table, namespace) =>
      table in Tables(m) && namespace in Strings(Access(Contexts(m), Tables(m)[table]))
    case ReadModelItem(model, field, item) =>
      var models := Listed(m, "read_model_exceptions", "module");
      model in models && field in ["owners"] + READ_MODEL_LISTS && item in Strings(ReadModelGrant(models[model], field))
    case CollaborationItem(section, id, field, item) =>
      var declarations := Listed(m, section, "id");
      section in [RUNTIME, TECHNICAL] && id in declarations && field in ListFields(section)
      && item in RenderedItems(r, Get(declarations[id], field))
    case Crossing(rule, namespace) =>
      var rules := Listed(m, "namespace_dependency_rules", "id");
      !(rule in rules && namespace in Strings(Get(rules[rule], "forbidden")))
  }

  /** Where the token for growth of the declaration `name` starts. */
  function Prefix(p: Permission): string {
    match p
    case ContextItem(context, _, _) => "context:" + context
    case TableAccess(table, _) => "table:" + table
    case ReadModelItem(model, _, _) => "read_model:" + model
    case CollaborationItem(section, id, _, _) => section + ":" + id
    case Crossing(rule, _) => "namespace_rule:" + rule
  }

  /** The review token of a permission that the step from `base` to `current` adds: the whole declaration if
      that is new, else the item in its list. */
  function ReviewToken(r: Rendering, base: Map, current: Map, p: Permission): string
    requires Grants(r, current, p)
  {
    match p
    case ContextItem(context, field, item) =>
      if context in Declared(Object(Contexts(base))) then Prefix(p) + ":" + field + ":add:" + item
      else AddToken(r, Prefix(p), Declared(Object(Contexts(current)))[context])
    case TableAccess(table, namespace) =>
      if table in Tables(base) then Prefix(p) + ":access_namespaces" + ":add:" + namespace
      else AddToken(r, Prefix(p), Tables(current)[table])
    case ReadModelItem(model, field, item) =>
      if model in Listed(base, "read_model_exceptions", "module") then Prefix(p) + ":" + field + ":add:" + item
      else AddToken(r, Prefix(p), Listed(current, "read_model_exceptions", "module")[model])
    case CollaborationItem(section, id, field, item) =>
      if id in Listed(base, section, "id") then Prefix(p) + ":" + field + ":add:" + item
      else AddToken(r, Prefix(p), Listed(current, section, "id")[id])
    case Crossing(rule, namespace) =>
      if rule in Listed(current, "namespace_dependency_rules", "id") then Prefix(p) + ":forbidden:remove:" + namespace
      else Prefix(p) + ":removed"
  }

  lemma InOver(section: Section, other: Section, tokensOf: (string, Option<Map>, Map) -> set<string>, name: string,
               token: string)
    requires name in section && token in tokensOf(name, Find(other, name), section[name])
    ensures token in Over(section, other, tokensOf)
  {
  }

  lemma AddedHas(prefix: string, previous: set<string>, current: set<string>, item: string)
    requires item in current && item !in previous
    ensures prefix + ":add:" + item in Added(prefix, previous, current)
  {
  }

  lemma ListTokensHave(prefix: string, fields: seq<string>, previous: Map, declaration: Map, field: string, item: string)
    requires field in fields && item in Strings(Get(declaration, field)) && item !in Strings(Get(previous, field))
    ensures prefix + ":" + field + ":add:" + item in ListTokens(prefix, fields, previous, declaration)
  {
    hide Strings, Added;
    AddedHas(prefix + ":" + field, Strings(Get(previous, field)), Strings(Get(declaration, field)), item);
  }

  lemma ContextItemNamed(r: Rendering, base: Map, current: Map, p: Permission)
    requires p.ContextItem? && Grants(r, current, p) && !Grants(r, base, p)
    ensures ReviewToken(r, base, current, p) in ContextGrowth(r, base, current)
  {
    hide Over, ListTokens, Declared, Strings, AddToken;
    var section, other := Declared(Object(Contexts(current))), Declared(Object(Contexts(base)));
    if p.context in other {
      ListTokensHave(Prefix(p), CONTEXT_LISTS, other[p.context], section[p.context], p.field, p.item);
    }
    InOver(section, other, (name, previous, context) => ContextTokens(r, name, previous, context), p.context,
           ReviewToken(r, base, current, p));
  }

  lemma TableAccessNamed(r: Rendering, base: Map, current: Map, p: Permission)
    requires p.TableAccess? && Grants(r, current, p) && !Grants(r, base, p)
    ensures ReviewToken(r, base, current, p) in TableGrowth(r, base, current)
  {
    hide Over, Tables, Access, Strings, AddToken, ScalarTokens;
    var section, other := Tables(current), Tables(base);
    if p.table in other {
      AddedHas(Prefix(p) + ":access_namespaces", Strings(Access(Contexts(base), other[p.table])),
               Strings(Access(Contexts(current), section[p.table])), p.namespace);
    }
    InOver(section, other, (name, previous, table) => TableTokens(r, Contexts(base), Contexts(current), name, previous, table),
           p.table, ReviewToken(r, base, current, p));
  }

  lemma ReadModelItemNamed(r: Rendering, base: Map, current: Map, p: Permission)
    requires p.ReadModelItem? && Grants(r, current, p) && !Grants(r, base, p)
    ensures ReviewToken(r, base, current, p) in ReadModelGrowth(r, base, current)
  {
    hide Over, Listed, Strings, AddToken, ListTokens;
    var section, other := Listed(current, "read_model_exceptions", "module"), Listed(base, "read_model_exceptions", "module");
    if p.model in other {
      var previous, declaration := other[p.model], section[p.model];
      if p.field == "owners" {
        ListTokensHave(Prefix(p), ["owners"], previous, declaration, "owners", p.item);
      } else {
        ListTokensHave(Prefix(p), READ_MODEL_LISTS, Fields(Get(previous, "access")), Fields(Get(declaration, "access")),
                       p.field, p.item);
      }
    }
    InOver(section, other, (name, previous, model) => ReadModelTokens(r, name, previous, model), p.model,
           ReviewToken(r, base, current, p));
  }

  lemma CollaborationItemNamed(r: Rendering, base: Map, current: Map, p: Permission)
    requires p.CollaborationItem? && Grants(r, current, p) && !Grants(r, base, p)
    ensures ReviewToken(r, base, current, p) in CollaborationGrowth(r, base, current, p.section)
  {
    hide Over, Listed, RenderedItems, AddToken, ScalarTokens, Added, ListFields;
    var section, other := Listed(current, p.section, "id"), Listed(base, p.section, "id");
    if p.id in other {
      AddedHas(Prefix(p) + ":" + p.field, RenderedItems(r, Get(other[p.id], p.field)),
               RenderedItems(r, Get(section[p.id], p.field)), p.item);
    }
    InOver(section, other, (id, previous, declaration) => CollaborationTokens(r, p.section, id, previous, declaration),
           p.id, ReviewToken(r, base, current, p));
  }

  lemma CrossingNamed(r: Rendering, base: Map, current: Map, p: Permission)
    requires p.Crossing? && Grants(r, current, p) && !Grants(r, base, p)
    ensures ReviewToken(r, base, current, p) in NamespaceGrowth(r, base, current)
  {
    hide Over, Listed, Strings;
    var section, other := Listed(base, "namespace_dependency_rules", "id"), Listed(current, "namespace_dependency_rules", "id");
    InOver(section, other, (id, declaration, previous) => NamespaceTokens(r, id, declaration, previous), p.rule,
           ReviewToken(r, base, current, p));
  }

  /** A permission that `current` grants and `base` does not is named by its token in the widenings. */
  lemma GrowthIsNamed(r: Rendering, base: Map, current: Map, p: Permission)
    requires AllGrowth(r, base, current).Some?
    requires Grants(r, current, p) && !Grants(r, base, p)
    ensures ReviewToken(r, base, current, p) in AllGrowth(r, base, current).value
  {
    CollaborationIsListed(r, current, p);
    hide ContextGrowth, TableGrowth, ReadModelGrowth, CollaborationGrowth, NamespaceGrowth, MigrationGrowth, ApiTokens,
         ReviewToken, Grants, Migrations;
    match p
    case ContextItem(_, _, _) => ContextItemNamed(r, base, current, p);
    case TableAccess(_, _) => TableAccessNamed(r, base, current, p);
    case ReadModelItem(_, _, _) => ReadModelItemNamed(r, base, current, p);
    case CollaborationItem(_, _, _, _) => CollaborationItemNamed(r, base, current, p);
    case Crossing(_, _) => CrossingNamed(r, base, current, p);
  }

  lemma CollaborationIsListed(r: Rendering, m: Map, p: Permission)
    ensures p.CollaborationItem? && Grants(r, m, p) ==> p.section == RUNTIME || p.section == TECHNICAL
  {
  }

  /** A table that changes hands is named with both values of the field that changed. */
  lemma OwnershipIsNamed(r: Rendering, base: Map, current: Map, table: string, field: string)
    requires AllGrowth(r, base, current).Some?
    requires table in Tables(base) && table in Tables(current) && field in OWNERSHIP_FIELDS
    requires Get(Tables(base)[table], field) != Get(Tables(current)[table], field)
    ensures ChangeToken(r, "table:" + table, field, Tables(base)[table], Tables(current)[table])
              in AllGrowth(r, base, current).value
  {
    hide Over, Tables, Access, ContextGrowth, ReadModelGrowth, CollaborationGrowth, NamespaceGrowth, MigrationGrowth,
         ApiTokens, ChangeToken, Migrations;
    var token := ChangeToken(r, "table:" + table, field, Tables(base)[table], Tables(current)[table]);
    assert field != "transaction";
    assert Changed(field, Tables(base)[table], Tables(current)[table]);
    InOver(Tables(current), Tables(base),
           (name, previous, t) => TableTokens(r, Contexts(base), Contexts(current), name, previous, t), table, token);
  }

  lemma OverSame(section: Section, tokensOf: (string, Option<Map>, Map) -> set<string>)
    requires forall name :: name in section ==> tokensOf(name, Some(section[name]), section[name]) == {}
    ensures Over(section, section, tokensOf) == {}
  {
  }

  lemma SameListTokens(prefix: string, fields: seq<string>, m: Map)
    ensures ListTokens(prefix, fields, m, m) == {}
  {
  }

  lemma SameDeclaration(r: Rendering, m: Map, section: string, name: string, d: Map)
    ensures ContextTokens(r, name, Some(d), d) == {}
    ensures TableTokens(r, Contexts(m), Contexts(m), name, Some(d), d) == {}
    ensures ReadModelTokens(r, name, Some(d), d) == {}
    ensures MigrationTokens(r, name, Some(d), d) == {}
    ensures CollaborationTokens(r, section, name, Some(d), d) == {}
    ensures NamespaceTokens(r, name, Some(d), d) == {}
  {
    hide ListTokens, Access, ScalarFields, ListFields, Strings;
    SameListTokens("context:" + name, CONTEXT_LISTS, d);
    SameListTokens("read_model:" + name, ["owners"], d);
    SameListTokens("read_model:" + name, READ_MODEL_LISTS, Fields(Get(d, "access")));
  }

  /** A manifest that is the same again widens nothing. */
  lemma UnchangedWidensNothing(r: Rendering, m: Map)
    requires Migrations(m).Some?
    ensures AllGrowth(r, m, m) == Some({})
  {
    hide Over, Listed, Tables, Migrations, Declared, ContextTokens, TableTokens, ReadModelTokens, MigrationTokens,
         CollaborationTokens, NamespaceTokens;
    forall name, d
      ensures ContextTokens(r, name, Some(d), d) == {} && MigrationTokens(r, name, Some(d), d) == {}
      ensures TableTokens(r, Contexts(m), Contexts(m), name, Some(d), d) == {}
      ensures ReadModelTokens(r, name, Some(d), d) == {} && NamespaceTokens(r, name, Some(d), d) == {}
      ensures CollaborationTokens(r, RUNTIME, name, Some(d), d) == {}
      ensures CollaborationTokens(r, TECHNICAL, name, Some(d), d) == {}
    {
      SameDeclaration(r, m, RUNTIME, name, d);
      SameDeclaration(r, m, TECHNICAL, name, d);
    }
    OverSame(Declared(Object(Contexts(m))), (name, previous, context) => ContextTokens(r, name, previous, context));
    OverSame(Tables(m), (name, previous, table) => TableTokens(r, Contexts(m), Contexts(m), name, previous, table));
    OverSame(Listed(m, "read_model_exceptions", "module"), (name, previous, model) => ReadModelTokens(r, name, previous, model));
    OverSame(Migrations(m).value, (path, previous, declaration) => MigrationTokens(r, path, previous, declaration));
    OverSame(Listed(m, RUNTIME, "id"), (id, previous, d) => CollaborationTokens(r, RUNTIME, id, previous, d));
    OverSame(Listed(m, TECHNICAL, "id"), (id, previous, d) => CollaborationTokens(r, TECHNICAL, id, previous, d));
    OverSame(Listed(m, "namespace_dependency_rules", "id"), (id, current, d) => NamespaceTokens(r, id, current, d));
  }
}
