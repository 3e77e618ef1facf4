/** The snapshot of the public facades: its generator, and the validator's view of what it generates. */
module Facade {
  import opened JsonPointer
  import opened Ordering
  import opened Wrappers

  type Operation = (string, nat)

  // ----- Tokens

  predicate NameChar(c: char) {
    'a' <= c <= 'z' || 'A' <= c <= 'Z' || '0' <= c <= '9' || c == '_'
  }

  /** A function name of Elixir, with an optional mark at its end. */
  predicate FunctionName(name: string) {
    && |name| > 0 && ('a' <= name[0] <= 'z' || name[0] == '_')
    && forall i :: 0 <= i < |name| ==> NameChar(name[i]) || (i == |name| - 1 && name[i] in {'!', '?'})
  }

  /** `operation_token` */
  function Token(operation: Operation): string {
    operation.0 + "/" + Decimal(operation.1)
  }

  /** `_operation_token`: what the validator reads. */
  function ReadToken(token: string): Option<Operation> {
    var parts := Split(token);
    if |parts| == 2 && FunctionName(parts[0]) && |parts[1]| > 0 && forall i :: 0 <= i < |parts[1]| ==> IsDigit(parts[1][i])
    then Some((parts[0], ToNumber(parts[1])))
    else None
  }

  lemma {:induction false} SplitCount(a: string, b: string)
    ensures |Split(a + "/" + b)| == |Split(a)| + |Split(b)|
    ensures '/' in a ==> |Split(a)| > 1
  {
    var text := a + "/" + b;
    if |a| > 0 {
      SplitCount(a[1..], b);
      assert text[1..] == a[1..] + "/" + b;
      assert a == [a[0]] + a[1..];
    } else {
      assert text[1..] == b;
    }
  }

  /** A token reads back as its operation exactly when the name is a function name. */
  lemma TokenRoundTrip(operation: Operation)
    ensures ReadToken(Token(operation)) == if FunctionName(operation.0) then Some(operation) else None
  {
    var (name, number) := (operation.0, Decimal(operation.1));
    DecimalRoundTrip(operation.1);
    assert !IsDigit('/') && !NameChar('/');
    assert Token(operation) == name + "/" + number;
    if '/' in name {
      SplitCount(name, number);
    } else {
      SplitAtSlash(name, number);
      SplitOne(number);
    }
  }

  // ----- The generator's inputs

  datatype Call = Call(target: string, operation: Operation)

  /** A released module: its owning context, whether it is part of the core, and the calls it makes. */
  datatype Source = Source(owner: Option<string>, core: bool, calls: set<Call>)

  /** A technical interface or a runtime collaboration: the facade it is about, and its operations. */
  datatype Declaration = Declaration(facade: Option<string>, operations: seq<Operation>)

  datatype Inputs = Inputs(
    contexts: seq<(string, seq<string>)>,
    exports: map<string, set<Operation>>,
    sources: seq<Source>,
    interfaces: seq<Declaration>,
    collaborations: seq<Declaration>,
    queries: seq<(string, Operation)>)

  const RELEASE := "CommsCore.Release"
  const RELEASE_CONSOLE: set<Operation> := {
    ("assert_communication_rollback_compatible!", 0), ("assert_guest_rollback_compatible!", 0), ("bootstrap", 0),
    ("instant_room_tenant_fingerprint", 0), ("migrate", 0), ("qualification_tenant", 0),
    ("remap_restored_attachment_versions", 1), ("rollback", 2), ("set_platform_role", 2), ("set_platform_role", 5),
    ("set_platform_role", 6)}

  function OwnedBy(context: string, facades: seq<string>): map<string, string> {
    map facade | facade in facades :: context
  }

  /** The owner of every facade; of several contexts that list it, the last. */
  function Owners(contexts: seq<(string, seq<string>)>): map<string, string> {
    if |contexts| == 0 then map[]
    else Owners(contexts[..|contexts| - 1]) + OwnedBy(contexts[|contexts| - 1].0, contexts[|contexts| - 1].1)
  }

  // ----- What the generator classifies

  type Classified = map<string, set<Operation>>

  predicate Has(m: Classified, facade: string, operation: Operation) {
    facade in m && operation in m[facade]
  }

  predicate Exported(i: Inputs, facade: string, operation: Operation) {
    Has(i.exports, facade, operation)
  }

  /** The module calls an exported operation of another context's facade. */
  predicate CrossCall(i: Inputs, s: Source, facade: string, operation: Operation) {
    && facade in Owners(i.contexts) && s.owner != Some(Owners(i.contexts)[facade])
    && Call(facade, operation) in s.calls && Exported(i, facade, operation)
  }

  /** A module inside (or outside) the core makes such a call. */
  predicate Called(i: Inputs, sources: seq<Source>, core: bool, facade: string, operation: Operation) {
    exists s :: s in sources && s.core == core && CrossCall(i, s, facade, operation)
  }

  predicate Declared(declarations: seq<Declaration>, facade: string, operation: Operation) {
    exists d :: d in declarations && d.facade == Some(facade) && operation in d.operations
  }

  predicate Public(i: Inputs, facade: string, operation: Operation) {
    && facade in Owners(i.contexts)
    && (Called(i, i.sources, false, facade, operation) || Declared(i.interfaces, facade, operation)
        || (facade == RELEASE && operation in RELEASE_CONSOLE))
  }

  predicate Collaborative(i: Inputs, facade: string, operation: Operation) {
    && facade in Owners(i.contexts)
    && (Called(i, i.sources, true, facade, operation)
        || (Declared(i.collaborations, facade, operation) && Exported(i, facade, operation))
        || (facade, operation) in i.queries)
  }

  /** Every facade is a core module, whose exports are known. */
  predicate AllExported(i: Inputs) {
    Owners(i.contexts).Keys <= i.exports.Keys
  }

  /** There is an entry for every facade. */
  predicate Filled(i: Inputs, m: Classified) {
    m.Keys == Owners(i.contexts).Keys
  }

  function Put(m: Classified, facade: string, operation: Operation): Classified
    requires facade in m
  {
    m[facade := m[facade] + {operation}]
  }

  lemma PutHas(m: Classified, facade: string, operation: Operation)
    requires facade in m
    ensures Put(m, facade, operation).Keys == m.Keys
    ensures forall f, o :: Has(Put(m, facade, operation), f, o) <==> Has(m, f, o) || (f == facade && o == operation)
  {
  }

  /** The calls of one module. */
  method ClassifyCalls(i: Inputs, s: Source, m: Classified) returns (r: Option<Classified>)
    requires Filled(i, m)
    ensures AllExported(i) ==> r.Some?
    ensures r.Some? ==> Filled(i, r.value) && forall f, o :: Has(r.value, f, o) <==> Has(m, f, o) || CrossCall(i, s, f, o)
  {
    hide CrossCall, Has;
    var owners := Owners(i.contexts);
    var classified := m;
    CallsOnly(i, s);
    var pending := s.calls;
    while pending != {}
      invariant pending <= s.calls && Filled(i, classified)
      invariant forall f, o :: Has(classified, f, o) <==> Has(m, f, o) || (CrossCall(i, s, f, o) && Call(f, o) !in pending)
      decreases pending
    {
      var call :| call in pending;
      CrossCallIff(i, s, call);
      pending := pending - {call};
      if call.target in owners && s.owner != Some(owners[call.target]) {
        if call.target !in i.exports {
          return None;
        }
        if call.operation in i.exports[call.target] {
          PutHas(classified, call.target, call.operation);
          classified := Put(classified, call.target, call.operation);
        }
      }
    }
    r := Some(classified);
  }

  lemma CrossCallIff(i: Inputs, s: Source, call: Call)
    requires call in s.calls
    ensures CrossCall(i, s, call.target, call.operation) <==>
              call.target in Owners(i.contexts) && s.owner != Some(Owners(i.contexts)[call.target])
              && call.target in i.exports && call.operation in i.exports[call.target]
  {
  }

  lemma CallsOnly(i: Inputs, s: Source)
    ensures forall f, o :: CrossCall(i, s, f, o) ==> Call(f, o) in s.calls
  {
  }

  function NothingYet(i: Inputs): Classified {
    map facade | facade in Owners(i.contexts) :: {}
  }

  /** The first loop: calls from the core collaborate, all others are public. */
  method ClassifySources(i: Inputs) returns (r: Option<(Classified, Classified)>)
    ensures AllExported(i) ==> r.Some?
    ensures r.Some? ==>
              && Filled(i, r.value.0) && Filled(i, r.value.1)
              && (forall f, o :: Has(r.value.0, f, o) <==> Called(i, i.sources, false, f, o))
              && (forall f, o :: Has(r.value.1, f, o) <==> Called(i, i.sources, true, f, o))
  {
    hide Called, Has;
    var publicOnes, collaborating := NothingYet(i), NothingYet(i);
    NothingCalled(i);
    for k := 0 to |i.sources|
      invariant Filled(i, publicOnes) && Filled(i, collaborating)
      invariant forall f, o :: Has(publicOnes, f, o) <==> Called(i, i.sources[..k], false, f, o)
      invariant forall f, o :: Has(collaborating, f, o) <==> Called(i, i.sources[..k], true, f, o)
    {
      var s := i.sources[k];
      assert i.sources[..k + 1] == i.sources[..k] + [s];
      CalledAppend(i, i.sources[..k], s);
      var next := ClassifyCalls(i, s, if s.core then collaborating else publicOnes);
      if next.None? {
        return None;
      }
      if s.core {
        collaborating := next.value;
      } else {
        publicOnes := next.value;
      }
    }
    assert i.sources[..|i.sources|] == i.sources;
    r := Some((publicOnes, collaborating));
  }

  lemma NothingCalled(i: Inputs)
    ensures forall f, o :: !Has(NothingYet(i), f, o)
    ensures forall core, f, o :: !Called(i, i.sources[..0], core, f, o)
  {
  }

  lemma CalledAppend(i: Inputs, sources: seq<Source>, s: Source)
    ensures forall core, f, o :: Called(i, sources + [s], core, f, o) <==>
              Called(i, sources, core, f, o) || (s.core == core && CrossCall(i, s, f, o))
  {
  }

  /** The operations of the declarations about facades; with `exportedOnly`, those that are exported. A facade
      that is no core module raises then. */
  method ClassifyDeclarations(i: Inputs, declarations: seq<Declaration>, exportedOnly: bool, m: Classified)
    returns (r: Option<Classified>)
    requires Filled(i, m)
    ensures AllExported(i) || !exportedOnly ==> r.Some?
    ensures r.Some? ==>
              && Filled(i, r.value)
              && forall f, o :: Has(r.value, f, o) <==>
                   Has(m, f, o) ||
                   (f in Owners(i.contexts) && Declared(declarations, f, o) && (exportedOnly ==> Exported(i, f, o)))
  {
    hide Declared;
    var classified := m;
    NothingDeclared();
    for k := 0 to |declarations|
      invariant Filled(i, classified)
      invariant forall f, o :: Has(classified, f, o) <==>
                  Has(m, f, o) ||
                  (f in Owners(i.contexts) && Declared(declarations[..k], f, o) && (exportedOnly ==> Exported(i, f, o)))
    {
      var d := declarations[k];
      assert declarations[..k + 1] == declarations[..k] + [d];
      DeclaredAppend(declarations[..k], d);
      if d.facade.Some? && d.facade.value in classified {
        var facade := d.facade.value;
        if exportedOnly && facade !in i.exports {
          return None;
        }
        var added := set o | o in d.operations && (exportedOnly ==> o in i.exports[facade]);
        classified := classified[facade := classified[facade] + added];
      }
    }
    assert declarations[..|declarations|] == declarations;
    r := Some(classified);
  }

  lemma NothingDeclared()
    ensures forall f, o :: !Declared([], f, o)
  {
  }

  lemma DeclaredAppend(declarations: seq<Declaration>, d: Declaration)
    ensures forall f, o :: Declared(declarations + [d], f, o) <==>
              Declared(declarations, f, o) || (d.facade == Some(f) && o in d.operations)
  {
  }

  method ClassifyQueries(i: Inputs, m: Classified) returns (classified: Classified)
    requires Filled(i, m)
    ensures Filled(i, classified)
    ensures forall f, o :: Has(classified, f, o) <==> Has(m, f, o) || (f in Owners(i.contexts) && (f, o) in i.queries)
  {
    classified := m;
    for k := 0 to |i.queries|
      invariant Filled(i, classified)
      invariant forall f, o :: Has(classified, f, o) <==> Has(m, f, o) || (f in Owners(i.contexts) && (f, o) in i.queries[..k])
    {
      var (facade, operation) := i.queries[k];
      assert i.queries[..k + 1] == i.queries[..k] + [i.queries[k]];
      if facade in classified {
        classified := Put(classified, facade, operation);
      }
    }
    assert i.queries[..|i.queries|] == i.queries;
  }

  /** The two dictionaries of `build_snapshot`, once they are filled. */
  method Classify(i: Inputs) returns (r: Option<(Classified, Classified)>)
    ensures AllExported(i) ==> (r.Some? <==> RELEASE in Owners(i.contexts))
    ensures r.Some? ==>
              && RELEASE in Owners(i.contexts) && Filled(i, r.value.0) && Filled(i, r.value.1)
              && (forall f, o :: Has(r.value.0, f, o) <==> Public(i, f, o))
              && (forall f, o :: Has(r.value.1, f, o) <==> Collaborative(i, f, o))
  {
    hide Called, Declared;
    CalledAreOwned(i);
    var sources := ClassifySources(i);
    if sources.None? {
      return None;
    }
    var publicOnes := ClassifyDeclarations(i, i.interfaces, false, sources.value.0);
    var collaborating := ClassifyDeclarations(i, i.collaborations, true, sources.value.1);
    if publicOnes.None? || collaborating.None? {
      return None;
    }
    var withQueries := ClassifyQueries(i, collaborating.value);
    if RELEASE !in publicOnes.value {
      return None;
    }
    r := Some((publicOnes.value[RELEASE := publicOnes.value[RELEASE] + RELEASE_CONSOLE], withQueries));
  }

  lemma CalledAreOwned(i: Inputs)
    ensures forall core, f, o :: Called(i, i.sources, core, f, o) ==> f in Owners(i.contexts)
  {
  }

  // ----- Rendering

  datatype Classes = Classes(publicTokens: seq<string>, collaborationTokens: seq<string>, internalTokens: seq<string>)

  type Snapshot = map<string, map<string, Classes>>

  predicate OperationLeq(a: Operation, b: Operation) {
    NameLeq(a.0, b.0) && (a.0 != b.0 || a.1 <= b.1)
  }

  lemma OperationLeqTotal()
    ensures Total(OperationLeq)
  {
    NameLeqTotal();
  }

  function Tokens(operations: seq<Operation>): (r: seq<string>)
    ensures |r| == |operations| && forall k :: 0 <= k < |r| ==> r[k] == Token(operations[k])
  {
    seq(|operations|, k requires 0 <= k < |operations| => Token(operations[k]))
  }

  /** The tokens list the operations that satisfy `p`, in order and once each. */
  ghost predicate Lists(tokens: seq<string>, p: Operation -> bool) {
    exists xs: seq<Operation> {:trigger Tokens(xs)} ::
      Ascending(OperationLeq, xs) && Distinct(xs) && (forall o :: o in xs <==> p(o)) && tokens == Tokens(xs)
  }

  method SortedTokens(operations: set<Operation>, ghost p: Operation -> bool) returns (tokens: seq<string>)
    requires forall o :: o in operations <==> p(o)
    ensures Lists(tokens, p)
  {
    var rest, xs := operations, [];
    while rest != {}
      invariant rest <= operations && forall o :: o in xs <==> o in operations && o !in rest
      decreases rest
    {
      var o :| o in rest;
      rest, xs := rest - {o}, xs + [o];
    }
    OperationLeqTotal();
    SortedSetLaws(OperationLeq, xs);
    tokens := Tokens(SortedSet(OperationLeq, xs));
  }

  predicate CollaborativeOnly(i: Inputs, facade: string, operation: Operation) {
    Collaborative(i, facade, operation) && !Public(i, facade, operation)
  }

  predicate Internal(i: Inputs, facade: string, operation: Operation) {
    Exported(i, facade, operation) && !Public(i, facade, operation) && !Collaborative(i, facade, operation)
  }

  /** The three lists of a facade are what the generator classifies. */
  ghost predicate Classifies(i: Inputs, facade: string, c: Classes) {
    && facade in i.exports
    && Lists(c.publicTokens, o => Public(i, facade, o))
    && Lists(c.collaborationTokens, o => CollaborativeOnly(i, facade, o))
    && Lists(c.internalTokens, o => Internal(i, facade, o))
  }

  /** The snapshot has the owned facades of every context, each one classified. */
  ghost predicate Complete(i: Inputs, snapshot: Snapshot) {
    && snapshot.Keys == Owners(i.contexts).Values
    && forall context :: context in snapshot ==> ContextComplete(i, context, snapshot[context])
  }

  method ClassesOf(i: Inputs, facade: string, publicOnes: set<Operation>, collaborating: set<Operation>)
    returns (r: Option<Classes>)
    requires forall o :: o in publicOnes <==> Public(i, facade, o)
    requires forall o :: o in collaborating <==> Collaborative(i, facade, o)
    ensures r.Some? <==> facade in i.exports
    ensures r.Some? ==> Classifies(i, facade, r.value)
  {
    hide Lists, Public, Collaborative;
    if facade !in i.exports {
      return None;
    }
    var a := SortedTokens(publicOnes, o => Public(i, facade, o));
    var b := SortedTokens(collaborating - publicOnes, o => CollaborativeOnly(i, facade, o));
    var c := SortedTokens(i.exports[facade] - publicOnes - collaborating, o => Internal(i, facade, o));
    r := Some(Classes(a, b, c));
  }

  /** The facades of one context, each one classified. */
  ghost predicate ContextComplete(i: Inputs, context: string, facades: map<string, Classes>) {
    && (forall facade :: facade in facades <==> facade in Owners(i.contexts) && Owners(i.contexts)[facade] == context)
    && forall facade :: facade in facades ==> Classifies(i, facade, facades[facade])
  }

  /** The facades of one context are core modules. */
  predicate ContextExported(i: Inputs, context: string) {
    forall facade :: facade in Owners(i.contexts) && Owners(i.contexts)[facade] == context ==> facade in i.exports
  }

  method FacadesOf(i: Inputs, context: string, publicOnes: Classified, collaborating: Classified)
    returns (r: Option<map<string, Classes>>)
    requires Filled(i, publicOnes) && Filled(i, collaborating)
    requires forall f, o :: Has(publicOnes, f, o) <==> Public(i, f, o)
    requires forall f, o :: Has(collaborating, f, o) <==> Collaborative(i, f, o)
    ensures r.Some? <==> ContextExported(i, context)
    ensures r.Some? ==> ContextComplete(i, context, r.value)
  {
    hide Classifies, Public, Collaborative, Has;
    var owners := Owners(i.contexts);
    var facades: map<string, Classes> := map[];
    var pending := set facade | facade in owners && owners[facade] == context;
    ghost var all := pending;
    while pending != {}
      invariant pending <= all && facades.Keys == all - pending
      invariant forall facade :: facade in facades ==> facade in i.exports && Classifies(i, facade, facades[facade])
      decreases pending
    {
      var facade :| facade in pending;
      pending := pending - {facade};
      HasAt(i, publicOnes, collaborating, facade);
      var classes := ClassesOf(i, facade, publicOnes[facade], collaborating[facade]);
      if classes.None? {
        return None;
      }
      facades := facades[facade := classes.value];
    }
    r := Some(facades);
  }

  /** `build_snapshot`; nothing where the original raises, which is exactly where a facade is no core module or
      the release module is no facade. */
  method BuildSnapshot(i: Inputs) returns (r: Option<Snapshot>)
    ensures r.Some? <==> RELEASE in Owners(i.contexts) && AllExported(i)
    ensures r.Some? ==> Complete(i, r.value)
  {
    hide Classifies, Public, Collaborative, Has, ContextExported, ContextComplete;
    var owners := Owners(i.contexts);
    var classified := Classify(i);
    ExportedByContext(i);
    if classified.None? {
      return None;
    }
    var snapshot: Snapshot := map[];
    var contexts := owners.Values;
    while contexts != {}
      invariant contexts <= owners.Values && snapshot.Keys == owners.Values - contexts
      invariant forall context :: context in snapshot ==>
                  ContextExported(i, context) && ContextComplete(i, context, snapshot[context])
      decreases contexts
    {
      var context :| context in contexts;
      contexts := contexts - {context};
      var facades := FacadesOf(i, context, classified.value.0, classified.value.1);
      if facades.None? {
        return None;
      }
      snapshot := snapshot[context := facades.value];
    }
    r := Some(snapshot);
  }

  lemma ExportedByContext(i: Inputs)
    ensures AllExported(i) <==> forall context :: context in Owners(i.contexts).Values ==> ContextExported(i, context)
  {
    if forall context :: context in Owners(i.contexts).Values ==> ContextExported(i, context) {
      forall facade | facade in Owners(i.contexts) ensures facade in i.exports {
        assert ContextExported(i, Owners(i.contexts)[facade]);
      }
    }
  }

  lemma HasAt(i: Inputs, publicOnes: Classified, collaborating: Classified, facade: string)
    requires facade in publicOnes && facade in collaborating
    requires forall f, o :: Has(publicOnes, f, o) <==> Public(i, f, o)
    requires forall f, o :: Has(collaborating, f, o) <==> Collaborative(i, f, o)
    ensures forall o :: o in publicOnes[facade] <==> Public(i, facade, o)
    ensures forall o :: o in collaborating[facade] <==> Collaborative(i, facade, o)
  {
  }

  // ----- The validator

  /** The operations that the tokens of one list read as. */
  function Read(tokens: seq<string>): set<Operation> {
    set token | token in tokens && ReadToken(token).Some? :: ReadToken(token).value
  }

  /** Unique name/arity tokens. */
  predicate ReadableTokens(tokens: seq<string>) {
    && (forall k :: 0 <= k < |tokens| ==> ReadToken(tokens[k]).Some?)
    && forall j, k :: 0 <= j < k < |tokens| ==> ReadToken(tokens[j]) != ReadToken(tokens[k])
  }

  /** The validator accepts the three lists for a facade with these exports. */
  predicate ValidClasses(c: Classes, exports: set<Operation>) {
    && ReadableTokens(c.publicTokens) && ReadableTokens(c.collaborationTokens) && ReadableTokens(c.internalTokens)
    && Read(c.publicTokens) !! Read(c.collaborationTokens)
    && Read(c.publicTokens) !! Read(c.internalTokens)
    && Read(c.collaborationTokens) !! Read(c.internalTokens)
    && Read(c.publicTokens) + Read(c.collaborationTokens) + Read(c.internalTokens) == exports
  }

  /** The validator allows a call from a module with this owner; unowned modules may not collaborate. */
  predicate Allows(c: Classes, owner: Option<string>, operation: Operation) {
    operation in Read(c.publicTokens) || (owner.Some? && operation in Read(c.collaborationTokens))
  }

  /** The operations have function names. */
  ghost predicate Named(p: Operation -> bool) {
    forall o :: p(o) ==> FunctionName(o.0)
  }

  /** Reading a list yields the listed operations with function names; the list is readable exactly when
      every name is one. */
  lemma ListReads(tokens: seq<string>, p: Operation -> bool)
    requires Lists(tokens, p)
    ensures forall o :: o in Read(tokens) <==> p(o) && FunctionName(o.0)
    ensures ReadableTokens(tokens) <==> Named(p)
  {
    hide FunctionName, ReadToken, Token;
    var xs: seq<Operation> :| Ascending(OperationLeq, xs) && Distinct(xs) && (forall o :: o in xs <==> p(o)) && tokens == Tokens(xs);
    forall k | 0 <= k < |xs|
      ensures ReadToken(tokens[k]) == if FunctionName(xs[k].0) then Some(xs[k]) else None
    {
      TokenRoundTrip(xs[k]);
    }
    forall o ensures o in Read(tokens) <==> p(o) && FunctionName(o.0) {
      if p(o) && FunctionName(o.0) {
        var k :| 0 <= k < |xs| && xs[k] == o;
        assert tokens[k] in tokens;
      }
    }
    if Named(p) {
      forall k | 0 <= k < |tokens| ensures ReadToken(tokens[k]) == Some(xs[k]) {
        assert p(xs[k]);
      }
    }
    if ReadableTokens(tokens) {
      forall o | p(o) ensures FunctionName(o.0) {
        var k :| 0 <= k < |xs| && xs[k] == o;
        assert ReadToken(tokens[k]).Some?;
      }
    }
  }

  /** The three generated classes are disjoint, whatever the calls and declarations are. */
  lemma GeneratedDisjoint(i: Inputs, facade: string, c: Classes)
    requires Classifies(i, facade, c)
    ensures Read(c.publicTokens) !! Read(c.collaborationTokens)
    ensures Read(c.publicTokens) !! Read(c.internalTokens)
    ensures Read(c.collaborationTokens) !! Read(c.internalTokens)
  {
    hide Public, Collaborative, FunctionName, Lists, Read, ReadableTokens;
    ListReads(c.publicTokens, o => Public(i, facade, o));
    ListReads(c.collaborationTokens, o => CollaborativeOnly(i, facade, o));
    ListReads(c.internalTokens, o => Internal(i, facade, o));
  }

  /** Where exports have function names, the validator accepts the generated classes exactly when every
      public and every collaborating operation is exported. */
  lemma GeneratedValidIff(i: Inputs, facade: string, c: Classes)
    requires Classifies(i, facade, c) && forall o :: o in i.exports[facade] ==> FunctionName(o.0)
    ensures ValidClasses(c, i.exports[facade]) <==>
              forall o :: Public(i, facade, o) || Collaborative(i, facade, o) ==> Exported(i, facade, o)
  {
    hide Public, Collaborative, FunctionName, Lists, Read, ReadableTokens;
    var p, q, n := o => Public(i, facade, o), o => CollaborativeOnly(i, facade, o), o => Internal(i, facade, o);
    ListReads(c.publicTokens, p);
    ListReads(c.collaborationTokens, q);
    ListReads(c.internalTokens, n);
    var all := Read(c.publicTokens) + Read(c.collaborationTokens) + Read(c.internalTokens);
    forall o ensures o in all <==> FunctionName(o.0) && (p(o) || q(o) || n(o)) {
    }
    if ValidClasses(c, i.exports[facade]) {
      forall o | Public(i, facade, o) || Collaborative(i, facade, o) ensures Exported(i, facade, o) {
        assert p(o) || q(o);
        assert o in all;
      }
    }
    if forall o :: Public(i, facade, o) || Collaborative(i, facade, o) ==> Exported(i, facade, o) {
      assert Named(p) && Named(q) && Named(n);
      assert all == i.exports[facade];
    }
  }

  // ----- The whole snapshot

  /** The manifest is a mapping: no context is listed twice. */
  predicate DistinctContexts(i: Inputs) {
    forall j, k :: 0 <= j < k < |i.contexts| ==> i.contexts[j].0 != i.contexts[k].0
  }

  /** The context at `k` publishes the facade. */
  predicate Publishes(i: Inputs, k: int, facade: string) {
    0 <= k < |i.contexts| && facade in i.contexts[k].1
  }

  predicate PublishesAny(i: Inputs, k: int) {
    0 <= k < |i.contexts| && i.contexts[k].1 != []
  }

  ghost predicate OwnedOnce(i: Inputs) {
    forall facade, j, k :: Publishes(i, j, facade) && Publishes(i, k, facade) ==> j == k
  }

  /** The validator accepts the entry of a facade; a facade without a source is not held against its exports. */
  predicate ValidEntry(i: Inputs, facade: string, c: Classes) {
    if facade in i.exports then ValidClasses(c, i.exports[facade])
    else
      && ReadableTokens(c.publicTokens) && ReadableTokens(c.collaborationTokens) && ReadableTokens(c.internalTokens)
      && Read(c.publicTokens) !! Read(c.collaborationTokens)
      && Read(c.publicTokens) !! Read(c.internalTokens)
      && Read(c.collaborationTokens) !! Read(c.internalTokens)
  }

  /** The modules of a context are exactly its facades, each one with a valid entry. */
  ghost predicate ValidContext(i: Inputs, facades: seq<string>, entries: map<string, Classes>) {
    && (forall facade :: facade in entries <==> facade in facades)
    && forall facade :: facade in entries ==> ValidEntry(i, facade, entries[facade])
  }

  /** The validator accepts the snapshot: its contexts are exactly those that publish facades. */
  ghost predicate ValidSnapshot(i: Inputs, snapshot: Snapshot) {
    && (forall context :: context in snapshot <==> exists k :: PublishesAny(i, k) && i.contexts[k].0 == context)
    && forall k :: PublishesAny(i, k) ==> ValidContext(i, i.contexts[k].1, snapshot[i.contexts[k].0])
  }

  /** A facade is owned by a context that publishes it. */
  lemma {:induction false} OwnerPublishes(contexts: seq<(string, seq<string>)>, facade: string)
    ensures facade in Owners(contexts) <==> exists k :: 0 <= k < |contexts| && facade in contexts[k].1
    ensures facade in Owners(contexts) ==>
              exists k :: 0 <= k < |contexts| && facade in contexts[k].1 && Owners(contexts)[facade] == contexts[k].0
  {
    if |contexts| > 0 {
      var n := |contexts| - 1;
      OwnerPublishes(contexts[..n], facade);
      if facade in contexts[n].1 {
        assert Owners(contexts)[facade] == contexts[n].0;
      }
    }
  }

  lemma OwnerAt(i: Inputs, facade: string) returns (k: int)
    requires facade in Owners(i.contexts)
    ensures Publishes(i, k, facade) && Owners(i.contexts)[facade] == i.contexts[k].0
  {
    hide Owners;
    OwnerPublishes(i.contexts, facade);
    k :| 0 <= k < |i.contexts| && facade in i.contexts[k].1 && Owners(i.contexts)[facade] == i.contexts[k].0;
  }

  lemma OwnedAt(i: Inputs, k: int, facade: string)
    requires Publishes(i, k, facade)
    ensures facade in Owners(i.contexts)
    ensures OwnedOnce(i) ==> Owners(i.contexts)[facade] == i.contexts[k].0
  {
    hide Owners;
    OwnerPublishes(i.contexts, facade);
    var j := OwnerAt(i, facade);
  }

  /** A generated context has a facade's entry exactly if it owns the facade. */
  lemma EntryIff(i: Inputs, snapshot: Snapshot, context: string, facade: string)
    requires Complete(i, snapshot) && context in snapshot
    ensures facade in snapshot[context] <==> facade in Owners(i.contexts) && Owners(i.contexts)[facade] == context
    ensures facade in snapshot[context] ==> Classifies(i, facade, snapshot[context][facade])
  {
    hide Classifies, Owners;
    assert ContextComplete(i, context, snapshot[context]);
  }

  /** All classified operations of a facade are exported. */
  ghost predicate ClassifiedExported(i: Inputs, facade: string) {
    forall o :: Public(i, facade, o) || Collaborative(i, facade, o) ==> Exported(i, facade, o)
  }

  ghost predicate NamedExports(i: Inputs) {
    forall facade, o :: Exported(i, facade, o) ==> FunctionName(o.0)
  }

  lemma EntryValidIff(i: Inputs, facade: string, c: Classes)
    requires Classifies(i, facade, c) && NamedExports(i)
    ensures ValidEntry(i, facade, c) <==> ClassifiedExported(i, facade)
  {
    hide ValidClasses, Public, Collaborative, Lists, FunctionName;
    forall o | o in i.exports[facade] ensures FunctionName(o.0) {
      assert Exported(i, facade, o);
    }
    GeneratedValidIff(i, facade, c);
  }

  /** The contexts of a generated snapshot are those that own a facade. */
  lemma ContextsOwn(i: Inputs, snapshot: Snapshot)
    requires Complete(i, snapshot)
    ensures forall facade :: facade in Owners(i.contexts) ==> Owners(i.contexts)[facade] in snapshot
    ensures forall context :: context in snapshot ==>
              exists facade :: facade in Owners(i.contexts) && Owners(i.contexts)[facade] == context
  {
    hide Owners, ContextComplete;
    assert forall context :: context in snapshot <==> context in Owners(i.contexts).Values;
  }

  lemma SnapshotMeans(i: Inputs, snapshot: Snapshot)
    requires Complete(i, snapshot) && DistinctContexts(i) && NamedExports(i) && ValidSnapshot(i, snapshot)
    ensures OwnedOnce(i) && forall facade :: facade in Owners(i.contexts) ==> ClassifiedExported(i, facade)
  {
    hide Owners, Complete, ValidEntry, Classifies, NamedExports, ClassifiedExported;
    forall facade, j, k | Publishes(i, j, facade) && Publishes(i, k, facade) ensures j == k {
      assert PublishesAny(i, j) && PublishesAny(i, k);
      EntryIff(i, snapshot, i.contexts[j].0, facade);
      EntryIff(i, snapshot, i.contexts[k].0, facade);
    }
    ContextsOwn(i, snapshot);
    forall facade | facade in Owners(i.contexts) ensures ClassifiedExported(i, facade) {
      var k := OwnerAt(i, facade);
      assert PublishesAny(i, k);
      EntryIff(i, snapshot, i.contexts[k].0, facade);
      EntryValidIff(i, facade, snapshot[i.contexts[k].0][facade]);
    }
  }

  lemma ContextValid(i: Inputs, snapshot: Snapshot, k: int)
    requires Complete(i, snapshot) && DistinctContexts(i) && NamedExports(i) && OwnedOnce(i) && PublishesAny(i, k)
    requires forall facade :: facade in Owners(i.contexts) ==> ClassifiedExported(i, facade)
    ensures i.contexts[k].0 in snapshot && ValidContext(i, i.contexts[k].1, snapshot[i.contexts[k].0])
  {
    hide Owners, Complete, ValidEntry, Classifies, NamedExports, ClassifiedExported, OwnedOnce;
    var context := i.contexts[k].0;
    ContextsOwn(i, snapshot);
    assert Publishes(i, k, i.contexts[k].1[0]);
    OwnedAt(i, k, i.contexts[k].1[0]);
    forall facade
      ensures facade in snapshot[context] <==> facade in i.contexts[k].1
      ensures facade in snapshot[context] ==> ValidEntry(i, facade, snapshot[context][facade])
    {
      EntryIff(i, snapshot, context, facade);
      if facade in i.contexts[k].1 {
        OwnedAt(i, k, facade);
      }
      if facade in snapshot[context] {
        var j := OwnerAt(i, facade);
        EntryValidIff(i, facade, snapshot[context][facade]);
      }
    }
  }

  /** The validator accepts the generated snapshot if and only if no facade is published by two contexts and
      all classified operations are exported. */
  lemma SnapshotValidIff(i: Inputs, snapshot: Snapshot)
    requires Complete(i, snapshot) && DistinctContexts(i) && NamedExports(i)
    ensures ValidSnapshot(i, snapshot) <==>
              OwnedOnce(i) && forall facade :: facade in Owners(i.contexts) ==> ClassifiedExported(i, facade)
  {
    hide Owners, Complete, ValidContext, NamedExports, ClassifiedExported, DistinctContexts, OwnedOnce;
    if ValidSnapshot(i, snapshot) {
      SnapshotMeans(i, snapshot);
    }
    if OwnedOnce(i) && forall facade :: facade in Owners(i.contexts) ==> ClassifiedExported(i, facade) {
      forall k | PublishesAny(i, k)
        ensures i.contexts[k].0 in snapshot && ValidContext(i, i.contexts[k].1, snapshot[i.contexts[k].0])
      {
        ContextValid(i, snapshot, k);
      }
      ContextsOwn(i, snapshot);
      forall context | context in snapshot ensures exists k :: PublishesAny(i, k) && i.contexts[k].0 == context {
        var facade :| facade in Owners(i.contexts) && Owners(i.contexts)[facade] == context;
        var k := OwnerAt(i, facade);
        assert PublishesAny(i, k);
      }
    }
  }

  /** A call across owners to an exported operation is allowed exactly when the module is outside the core,
      has an owner, or the operation is public for another reason. */
  lemma CrossCallAllowedIff(i: Inputs, facade: string, c: Classes, s: Source, operation: Operation)
    requires Classifies(i, facade, c) && forall o :: o in i.exports[facade] ==> FunctionName(o.0)
    requires s in i.sources && CrossCall(i, s, facade, operation)
    ensures Allows(c, s.owner, operation) <==> !s.core || s.owner.Some? || Public(i, facade, operation)
  {
    hide FunctionName, Lists, Read, Declared;
    ListReads(c.publicTokens, o => Public(i, facade, o));
    ListReads(c.collaborationTokens, o => CollaborativeOnly(i, facade, o));
    assert Called(i, i.sources, s.core, facade, operation);
  }
}
