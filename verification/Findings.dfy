/** Boundary violations, the rules that treat some of them specially, and the problems the gates report. */
module Findings {
  import opened Ordering

  datatype Violation = Violation(rule: string, path: string, detail: string)

  type Fingerprint = string

  /** The first half of the gates' report: which problems there are, without their wording. */
  datatype Problem =
    | Raised                                    // Python raises, which fails the run as well
    | MissingFile
    | UnreadableFile
    | BadBaseline
    | BadShape(field: string)
    | BadTransition(index: nat)
    | BadActivation
    | BadMode
    | BadDeferral(fingerprint: Fingerprint)
    | NotBaselinable(violation: Violation)
    | Discovered(violation: Violation)
    | New(violation: Violation)
    | Resolved(fingerprint: Fingerprint)
    | ProtectedGrowth(violation: Violation)
    | StrictGrowth(violation: Violation)
    | Grew(violation: Violation)
    | Undeclared(item: string)
    | Stale(item: string)
    | Weakened(field: string)

  const NON_BASELINABLE: set<string> := {
    "ambiguous_context_owner", "direct_foreign_write", "duplicate_table_mapping", "invalid_context_declaration",
    "invalid_dependency_graph_declaration", "invalid_migration_exception", "invalid_public_facade_api",
    "invalid_read_model_exception", "invalid_runtime_collaboration", "invalid_table_declaration",
    "invalid_technical_interface", "invalid_temporary_violation", "multiple_context_modules_file",
    "public_contract_is_schema", "public_contract_missing", "public_ecto_contract", "public_facade_is_schema",
    "public_facade_missing", "public_operation_missing_spec", "owner_internal_operation_access",
    "read_model_scope_violation", "read_model_write", "read_model_reverse_dependency", "retired_runtime_binding",
    "undeclared_migration_reference", "undeclared_migration_table", "unowned_persistence_write",
    "unresolved_migration_target", "unresolved_persistence_write", "unclassified_core_module",
    "undeclared_runtime_binding"}

  const NO_NEW_DEFERRALS: set<string> := {"adapter_internal_module_import", "adapter_schema_import"}

  function Key(v: Violation): seq<string> {
    [v.rule, v.path, v.detail]
  }

  /** The order of the dataclass: by rule, path and detail. */
  predicate ViolationLeq(v: Violation, w: Violation) {
    NamesLeq(Key(v), Key(w))
  }

  lemma ViolationLeqTotal()
    ensures Total(ViolationLeq)
  {
    NamesLeqTotal();
    forall v, w | ViolationLeq(v, w) && ViolationLeq(w, v) ensures v == w {
      assert Key(v) == Key(w);
      assert Key(v)[0] == v.rule && Key(v)[1] == v.path && Key(v)[2] == v.detail;
      assert Key(w)[0] == w.rule && Key(w)[1] == w.path && Key(w)[2] == w.detail;
    }
  }

  function Fingerprints(fp: Violation -> Fingerprint, vs: seq<Violation>): set<Fingerprint> {
    set v | v in vs :: fp(v)
  }

  /** No two of the violations share a fingerprint. */
  predicate Fingerprinted(fp: Violation -> Fingerprint, vs: seq<Violation>) {
    forall v, w :: v in vs && w in vs && fp(v) == fp(w) ==> v == w
  }
}
