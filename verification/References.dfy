/** The reference checker: a walk over a document whose objects and lists have an identity, so that they may
    be shared and even contain themselves, and the resolution of its local references. */
module References {
  import opened Wrappers
  import opened JsonPointer

  type Id = nat

  /** A value is text, another scalar, or the identity of an object or list. */
  datatype Value = Text(s: string) | Scalar | At(id: Id)

  /** A key of an object: text, or another scalar, as YAML allows. */
  datatype Key = Name(name: string) | Other(code: int)

  datatype Cell = Dict(fields: map<Key, Value>) | Items(items: seq<Value>)

  type Store = map<Id, Cell>

  function Children(cell: Cell): set<Value> {
    match cell
    case Dict(fields) => fields.Values
    case Items(items) => set v | v in items
  }

  predicate InStore(store: Store, v: Value) {
    v.At? ==> v.id in store
  }

  /** A finite document: every identity that occurs in it has a cell. */
  predicate Complete(store: Store) {
    forall id, v :: id in store && v in Children(store[id]) ==> InStore(store, v)
  }

  // ----- Pointers

  /** One step of the walk along a pointer. */
  function Step(store: Store, target: Value, segment: string): Option<Value> {
    if !target.At? || target.id !in store then None
    else
      match store[target.id]
      case Dict(fields) => if Name(segment) in fields then Some(fields[Name(segment)]) else None
      case Items(items) =>
        if IsIndex(segment) && ToNumber(segment) < |items| then Some(items[ToNumber(segment)]) else None
  }

  function WalkAlong(store: Store, target: Value, encoded: seq<string>): Option<Value>
    decreases |encoded|
  {
    if |encoded| == 0 then Some(target)
    else if !EscapesValid(encoded[0]) then None
    else
      match Step(store, target, Decode(encoded[0]))
      case None => None
      case Some(next) => WalkAlong(store, next, encoded[1..])
  }

  /** The value that a JSON Pointer names in the document `root`. */
  function Resolve(store: Store, root: Value, pointer: string): Option<Value> {
    if pointer == "" then Some(root)
    else if pointer[0] != '/' then None
    else WalkAlong(store, root, Split(pointer[1..]))
  }

  /** A path of keys of any kind and indices, as the document is built. */
  datatype Hop = Under(key: Key) | Index(n: nat)

  function Follow(store: Store, v: Value, path: seq<Hop>): Option<Value>
    decreases |path|
  {
    if |path| == 0 then Some(v)
    else if !v.At? || v.id !in store then None
    else
      match (store[v.id], path[0])
      case (Dict(fields), Under(key)) => if key in fields then Follow(store, fields[key], path[1..]) else None
      case (Items(items), Index(n)) => if n < |items| then Follow(store, items[n], path[1..]) else None
      case _ => None
  }

  predicate TextualHop(hop: Hop) {
    hop.Under? ==> hop.key.Name?
  }

  /** The path goes by textual keys and by indices. */
  predicate Textual(path: seq<Hop>) {
    forall i :: 0 <= i < |path| ==> TextualHop(path[i])
  }

  function HopSegment(hop: Hop): string
    requires TextualHop(hop)
  {
    match hop
    case Under(key) => Encode(key.name)
    case Index(n) => Decimal(n)
  }

  function Segments(path: seq<Hop>): seq<string>
    requires Textual(path)
  {
    if |path| == 0 then [] else [HopSegment(path[0])] + Segments(path[1..])
  }

  function PointerTo(path: seq<Hop>): string
    requires Textual(path)
  {
    if |path| == 0 then "" else "/" + Join(Segments(path))
  }

  lemma {:induction false} DecimalPlain(n: nat)
    ensures '~' !in Decimal(n) && '/' !in Decimal(n)
  {
    if n >= 10 {
      DecimalPlain(n / 10);
    }
  }

  lemma HopSafe(hop: Hop)
    requires TextualHop(hop)
    ensures EscapesValid(HopSegment(hop)) && '/' !in HopSegment(hop)
    ensures Decode(HopSegment(hop)) == if hop.Under? then hop.key.name else Decimal(hop.n)
  {
    match hop
    case Under(key) =>
      EncodedSafe(key.name);
      EncodeDecode(key.name);
    case Index(n) =>
      DecimalPlain(n);
      PlainDecode(Decimal(n));
  }

  lemma {:induction false} WalkFollows(store: Store, v: Value, path: seq<Hop>)
    requires Textual(path) && Follow(store, v, path).Some?
    ensures WalkAlong(store, v, Segments(path)) == Follow(store, v, path)
    decreases |path|
  {
    if |path| > 0 {
      HopSafe(path[0]);
      assert Segments(path)[1..] == Segments(path[1..]);
      match (store[v.id], path[0])
      case (Dict(fields), Under(key)) => WalkFollows(store, fields[key], path[1..]);
      case (Items(items), Index(n)) =>
        DecimalRoundTrip(n);
        WalkFollows(store, items[n], path[1..]);
    }
  }

  lemma {:induction false} SegmentsSafe(path: seq<Hop>)
    requires Textual(path)
    ensures |Segments(path)| == |path|
    ensures forall i :: 0 <= i < |path| ==> '/' !in Segments(path)[i]
  {
    if |path| > 0 {
      HopSafe(path[0]);
      SegmentsSafe(path[1..]);
    }
  }

  /** Every value that textual keys and indices lead to has a pointer, and the walk along it ends there. */
  lemma PointerResolves(store: Store, root: Value, path: seq<Hop>)
    requires Textual(path) && Follow(store, root, path).Some?
    ensures Resolve(store, root, PointerTo(path)) == Follow(store, root, path)
  {
    if |path| > 0 {
      SegmentsSafe(path);
      SplitJoin(Segments(path));
      assert PointerTo(path)[1..] == Join(Segments(path));
      WalkFollows(store, root, path);
    }
  }

  /** What a walk along a pointer does, as a path. */
  lemma {:induction false} WalkIsPath(store: Store, target: Value, encoded: seq<string>) returns (path: seq<Hop>)
    requires WalkAlong(store, target, encoded).Some?
    ensures Textual(path) && Follow(store, target, path) == WalkAlong(store, target, encoded)
    decreases |encoded|
  {
    path := [];
    if |encoded| > 0 {
      var segment := Decode(encoded[0]);
      var rest := WalkIsPath(store, Step(store, target, segment).value, encoded[1..]);
      var hop := if store[target.id].Dict? then Under(Name(segment)) else Index(ToNumber(segment));
      path := [hop] + rest;
      assert path[1..] == rest;
    }
  }

  ghost predicate HasPointer(store: Store, root: Value, v: Value) {
    exists pointer :: Resolve(store, root, pointer) == Some(v)
  }

  ghost predicate HasTextualPath(store: Store, root: Value, v: Value) {
    exists path :: Textual(path) && Follow(store, root, path) == Some(v)
  }

  /** A pointer resolves to a value if and only if textual keys and indices lead to it. */
  lemma HasPointerIff(store: Store, root: Value, v: Value)
    ensures HasPointer(store, root, v) <==> HasTextualPath(store, root, v)
  {
    if pointer :| Resolve(store, root, pointer) == Some(v) {
      if pointer == "" {
        assert Textual([]) && Follow(store, root, []) == Some(v);
      } else {
        var path := WalkIsPath(store, root, Split(pointer[1..]));
      }
    }
    if path :| Textual(path) && Follow(store, root, path) == Some(v) {
      PointerResolves(store, root, path);
    }
  }

  method EscapesOk(segment: string) returns (ok: bool)
    ensures ok <==> EscapesValid(segment)
  {
    for index := 0 to |segment|
      invariant forall i :: 0 <= i < index && segment[i] == '~' ==> i + 1 < |segment| && segment[i + 1] in {'0', '1'}
    {
      if segment[index] == '~' && (index + 1 == |segment| || segment[index + 1] !in {'0', '1'}) {
        return false;
      }
    }
    ok := true;
  }

  /** `validate_local_pointer`, on the percent-decoded pointer. */
  method LocalPointerResolves(store: Store, root: Value, pointer: string) returns (ok: bool)
    ensures ok <==> Resolve(store, root, pointer).Some?
  {
    if pointer == "" {
      return true;
    }
    if pointer[0] != '/' {
      return false;
    }
    var target, segments := root, Split(pointer[1..]);
    for index := 0 to |segments|
      invariant WalkAlong(store, target, segments[index..]) == Resolve(store, root, pointer)
    {
      assert segments[index..][0] == segments[index] && segments[index..][1..] == segments[index + 1..];
      var valid := EscapesOk(segments[index]);
      if !valid {
        return false;
      }
      var next := Step(store, target, Decode(segments[index]));
      if next.None? {
        return false;
      }
      target := next.value;
    }
    ok := true;
  }

  // ----- The walk over the document

  /** What the checker asks of its surroundings: percent-decoding, and whether a file exists. */
  datatype Surroundings = Surroundings(unquote: string -> Option<string>, isFile: string -> bool)

  const REF := Name("$ref")

  /** The part of a reference before its first `#`. */
  function BeforeHash(ref: string): string {
    if |ref| == 0 || ref[0] == '#' then "" else [ref[0]] + BeforeHash(ref[1..])
  }

  predicate ReferenceResolves(env: Surroundings, store: Store, root: Value, ref: string) {
    if ref != "" && ref[0] == '#' then
      var pointer := env.unquote(ref[1..]);
      pointer.Some? && Resolve(store, root, pointer.value).Some?
    else env.isFile(BeforeHash(ref))
  }

  /** The cell holds no `$ref` text, or one that resolves. */
  predicate CellResolves(env: Surroundings, store: Store, root: Value, cell: Cell) {
    cell.Dict? && REF in cell.fields && cell.fields[REF].Text? ==>
      ReferenceResolves(env, store, root, cell.fields[REF].s)
  }

  /** With an identity, `ids` holds everything inside its cell. */
  ghost predicate Closed(store: Store, ids: set<Id>) {
    forall id, v :: id in ids && id in store && v in Children(store[id]) && v.At? ==> v.id in ids
  }

  /** `id` is part of the document `root`: it is in every closed set that holds the root. */
  ghost predicate Reachable(store: Store, root: Value, id: Id) {
    root.At? && forall ids {:trigger Closed(store, ids)} :: Closed(store, ids) && root.id in ids ==> id in ids
  }

  /** `validate_refs`: ends on every finite document, and succeeds if and only if every reference in the
      document resolves. */
  method ValidateRefs(env: Surroundings, store: Store, root: Value) returns (ok: bool)
    requires Complete(store) && InStore(store, root)
    ensures ok <==> forall id :: id in store && Reachable(store, root, id) ==>
                                   CellResolves(env, store, root, store[id])
  {
    hide ReferenceResolves, Reachable, Closed, Complete;
    RootReachable(store, root);
    var pending: seq<Value> := [root];
    var visited: set<Id> := {};
    while pending != []
      invariant forall v :: v in pending ==> InStore(store, v)
      invariant visited <= store.Keys
      invariant forall v :: v in pending && v.At? ==> Reachable(store, root, v.id)
      invariant forall id :: id in visited ==> Reachable(store, root, id)
      invariant root.At? ==> root.id in visited || root in pending
      invariant forall id, v :: id in visited && v in Children(store[id]) && v.At? ==> v.id in visited || v in pending
      invariant forall id :: id in visited ==> CellResolves(env, store, root, store[id])
      decreases store.Keys - visited, |pending|
    {
      var node := pending[|pending| - 1];
      assert node in pending && InStore(store, node);
      ghost var before := pending;
      pending := pending[..|pending| - 1];
      assert before == pending + [node];
      if !node.At? || node.id in visited {
        continue;
      }
      visited := visited + {node.id};
      var cell := store[node.id];
      if cell.Dict? && REF in cell.fields && cell.fields[REF].Text? {
        var resolves := CheckReference(env, store, root, cell.fields[REF].s);
        if !resolves {
          return false;
        }
      }
      var children := Listed(cell);
      forall v | v in children ensures InStore(store, v) && (v.At? ==> Reachable(store, root, v.id)) {
        ChildInStore(store, node.id, v);
        if v.At? {
          ReachableChild(store, root, node.id, v);
        }
      }
      pending := pending + children;
    }
    ok := true;
    AllVisited(store, root, visited);
  }

  lemma RootReachable(store: Store, root: Value)
    ensures root.At? ==> Reachable(store, root, root.id)
  {
  }

  lemma ChildInStore(store: Store, id: Id, v: Value)
    requires Complete(store) && id in store && v in Children(store[id])
    ensures InStore(store, v)
  {
  }

  lemma AllVisited(store: Store, root: Value, visited: set<Id>)
    requires visited <= store.Keys && (root.At? ==> root.id in visited)
    requires forall id, v :: id in visited && v in Children(store[id]) && v.At? ==> v.id in visited
    ensures forall id :: Reachable(store, root, id) ==> id in visited
  {
    assert Closed(store, visited);
  }

  lemma {:induction false} FollowOn(store: Store, v: Value, path: seq<Hop>, hop: Hop)
    requires Follow(store, v, path).Some?
    ensures Follow(store, v, path + [hop]) == Follow(store, Follow(store, v, path).value, [hop])
    decreases |path|
  {
    if |path| == 0 {
      assert path + [hop] == [hop];
    } else {
      assert (path + [hop])[1..] == path[1..] + [hop];
      match (store[v.id], path[0])
      case (Dict(fields), Under(key)) => FollowOn(store, fields[key], path[1..], hop);
      case (Items(items), Index(n)) => FollowOn(store, items[n], path[1..], hop);
    }
  }

  lemma {:induction false} FollowReaches(store: Store, ids: set<Id>, v: Value, path: seq<Hop>)
    requires Closed(store, ids) && v.At? && v.id in ids
    requires Follow(store, v, path).Some? && Follow(store, v, path).value.At?
    ensures Follow(store, v, path).value.id in ids
    decreases |path|
  {
    if |path| > 0 {
      match (store[v.id], path[0])
      case (Dict(fields), Under(key)) =>
        assert fields[key] in Children(store[v.id]);
        FollowInside(store, fields[key], path[1..]);
        FollowReaches(store, ids, fields[key], path[1..]);
      case (Items(items), Index(n)) =>
        assert items[n] in Children(store[v.id]);
        FollowInside(store, items[n], path[1..]);
        FollowReaches(store, ids, items[n], path[1..]);
    }
  }

  lemma FollowInside(store: Store, v: Value, path: seq<Hop>)
    requires Follow(store, v, path).Some? && Follow(store, v, path).value.At?
    ensures v.At?
  {
  }

  ghost predicate LeadsTo(store: Store, root: Value, path: seq<Hop>, id: Id) {
    Follow(store, root, path) == Some(At(id))
  }

  /** A cell is part of the document exactly when keys, of any kind, and indices lead to it. */
  lemma ReachableIffPath(store: Store, root: Value, id: Id)
    requires Complete(store) && InStore(store, root)
    ensures Reachable(store, root, id) <==> exists path :: LeadsTo(store, root, path, id)
  {
    if root.At? {
      var found := set i | i in store && exists path :: LeadsTo(store, root, path, i);
      assert LeadsTo(store, root, [], root.id);
      forall i, v | i in found && v in Children(store[i]) && v.At? ensures v.id in found {
        var path :| LeadsTo(store, root, path, i);
        assert InStore(store, v);
        var hop := HopTo(store, i, v);
        FollowOn(store, root, path, hop);
        assert v == At(v.id) && LeadsTo(store, root, path + [hop], v.id);
      }
      assert Closed(store, found);
      if exists path :: LeadsTo(store, root, path, id) {
        var path :| LeadsTo(store, root, path, id);
        forall ids | Closed(store, ids) && root.id in ids ensures id in ids {
          FollowReaches(store, ids, root, path);
        }
      }
    }
  }

  lemma HopTo(store: Store, id: Id, v: Value) returns (hop: Hop)
    requires id in store && v in Children(store[id])
    ensures Follow(store, At(id), [hop]) == Some(v)
  {
    match store[id]
    case Dict(fields) =>
      var key :| key in fields && fields[key] == v;
      hop := Under(key);
    case Items(items) =>
      var n: nat :| n < |items| && items[n] == v;
      hop := Index(n);
  }

  lemma ReachableChild(store: Store, root: Value, id: Id, v: Value)
    requires id in store && Reachable(store, root, id) && v in Children(store[id]) && v.At?
    ensures Reachable(store, root, v.id)
  {
  }

  method CheckReference(env: Surroundings, store: Store, root: Value, ref: string) returns (ok: bool)
    ensures ok <==> ReferenceResolves(env, store, root, ref)
  {
    if ref != "" && ref[0] == '#' {
      var pointer := env.unquote(ref[1..]);
      if pointer.None? {
        return false;
      }
      ok := LocalPointerResolves(store, root, pointer.value);
    } else {
      ok := env.isFile(BeforeHash(ref));
    }
  }

  /** The values inside a cell; those of an object in any order. */
  method Listed(cell: Cell) returns (children: seq<Value>)
    ensures forall v :: v in children <==> v in Children(cell)
  {
    match cell
    case Items(items) => children := items;
    case Dict(fields) =>
      children := [];
      var rest := fields.Values;
      while rest != {}
        invariant rest <= fields.Values
        invariant forall v :: v in children <==> v in fields.Values && v !in rest
        decreases rest
      {
        var v :| v in rest;
        rest := rest - {v};
        children := children + [v];
      }
  }
}
