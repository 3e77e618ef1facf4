/** Which context owns a module: an explicit declaration, or else the longest namespace it lies in. */
module Owners {
  /** A context with the modules it owns by name and the namespaces it declares: its facades, contracts and
      internal namespaces. */
  datatype Context = Context(name: string, owned: seq<string>, namespaces: seq<string>)

  /** The module is the namespace or lies below it. */
  predicate Inside(name: string, namespace: string) {
    name == namespace || namespace + "." <= name
  }

  lemma InsideIff(name: string, namespace: string)
    ensures Inside(name, namespace) <==> name == namespace || exists below :: name == namespace + "." + below
  {
    if namespace + "." <= name {
      assert name == namespace + "." + name[|namespace| + 1..];
    }
  }

  predicate Owns(contexts: seq<Context>, context: string, name: string) {
    exists c :: c in contexts && c.name == context && name in c.owned
  }

  /** The context declares a namespace of this length that the module lies in. */
  predicate Declares(contexts: seq<Context>, context: string, namespace: string) {
    exists c :: c in contexts && c.name == context && namespace in c.namespaces
  }

  /** No declared namespace that the module lies in is longer. */
  ghost predicate Longest(contexts: seq<Context>, name: string, length: nat) {
    forall context, namespace :: Declares(contexts, context, namespace) && Inside(name, namespace) ==> |namespace| <= length
  }

  ghost predicate DeclaresLongest(contexts: seq<Context>, name: string, context: string) {
    exists namespace :: Declares(contexts, context, namespace) && Inside(name, namespace)
                        && Longest(contexts, name, |namespace|)
  }

  /** The namespaces of one context that the module lies in, as pairs with the length in front. */
  function MatchesOf(c: Context, name: string): set<(nat, string)> {
    set namespace | namespace in c.namespaces && Inside(name, namespace) :: (|namespace|, c.name)
  }

  ghost predicate Matched(contexts: seq<Context>, name: string, length: nat, context: string) {
    exists namespace :: Declares(contexts, context, namespace) && Inside(name, namespace) && |namespace| == length
  }

  lemma MatchedAppend(contexts: seq<Context>, c: Context, name: string)
    ensures forall length: nat, context :: Matched(contexts + [c], name, length, context) <==>
              Matched(contexts, name, length, context) || (length, context) in MatchesOf(c, name)
  {
  }

  /** `module_owner_candidates` */
  method ModuleOwnerCandidates(name: string, contexts: seq<Context>) returns (owners: set<string>)
    ensures (exists context :: Owns(contexts, context, name)) ==>
              forall context :: context in owners <==> Owns(contexts, context, name)
    ensures (forall context :: !Owns(contexts, context, name)) ==>
              forall context :: context in owners <==> DeclaresLongest(contexts, name, context)
  {
    hide Inside, MatchesOf;
    var exact := set c | c in contexts && name in c.owned :: c.name;
    assert forall context :: context in exact <==> Owns(contexts, context, name);
    if exact != {} {
      return exact;
    }
    var matches: set<(nat, string)> := {};
    for i := 0 to |contexts|
      invariant forall length: nat, context :: (length, context) in matches <==> Matched(contexts[..i], name, length, context)
    {
      assert contexts[..i + 1] == contexts[..i] + [contexts[i]];
      MatchedAppend(contexts[..i], contexts[i], name);
      matches := matches + MatchesOf(contexts[i], name);
    }
    assert contexts[..|contexts|] == contexts;
    var longest := Max(matches);
    owners := set m | m in matches && m.0 == longest :: m.1;
    forall context ensures context in owners <==> DeclaresLongest(contexts, name, context) {
      LongestMatch(contexts, name, matches, longest, context);
    }
  }

  method Max(matches: set<(nat, string)>) returns (longest: nat)
    ensures forall m :: m in matches ==> m.0 <= longest
    ensures matches != {} ==> exists m :: m in matches && m.0 == longest
  {
    longest := 0;
    var rest := matches;
    while rest != {}
      invariant rest <= matches && forall m :: m in matches && m !in rest ==> m.0 <= longest
      invariant longest == 0 || exists m :: m in matches && m.0 == longest
      decreases rest
    {
      var m: (nat, string) :| m in rest;
      rest := rest - {m};
      longest := if m.0 > longest then m.0 else longest;
    }
    if matches != {} && longest == 0 {
      var m :| m in matches;
    }
  }

  lemma LongestMatch(contexts: seq<Context>, name: string, matches: set<(nat, string)>, longest: nat, context: string)
    requires forall length: nat, c :: (length, c) in matches <==> Matched(contexts, name, length, c)
    requires forall m :: m in matches ==> m.0 <= longest
    requires matches != {} ==> exists m :: m in matches && m.0 == longest
    ensures (longest, context) in matches <==> DeclaresLongest(contexts, name, context)
  {
    hide Inside;
    forall c, namespace | Declares(contexts, c, namespace) && Inside(name, namespace) ensures |namespace| <= longest {
      assert Matched(contexts, name, |namespace|, c);
      assert (|namespace|, c) in matches;
    }
    if DeclaresLongest(contexts, name, context) {
      var namespace :| Declares(contexts, context, namespace) && Inside(name, namespace)
                       && Longest(contexts, name, |namespace|);
      assert Matched(contexts, name, |namespace|, context);
      assert (|namespace|, context) in matches;
      var m :| m in matches && m.0 == longest;
      assert Matched(contexts, name, m.0, m.1);
      assert |namespace| == longest;
    }
  }

  /** Of two namespaces that a module lies in, the shorter one contains the longer one. */
  lemma Nested(name: string, a: string, b: string)
    requires Inside(name, a) && Inside(name, b) && |a| <= |b|
    ensures Inside(b, a)
  {
    assert a == name[..|a|] && b == name[..|b|];
    if |a| < |b| {
      assert name[|a|] == '.';
      assert (a + ".") == b[..|a| + 1];
    }
  }

  /** A module without an explicit owner has several candidates only where they declare the very same
      namespace. */
  lemma AmbiguousMeansShared(contexts: seq<Context>, name: string, a: string, b: string) returns (namespace: string)
    requires DeclaresLongest(contexts, name, a) && DeclaresLongest(contexts, name, b)
    ensures Declares(contexts, a, namespace) && Declares(contexts, b, namespace) && Inside(name, namespace)
    ensures Longest(contexts, name, |namespace|)
  {
    namespace :| Declares(contexts, a, namespace) && Inside(name, namespace) && Longest(contexts, name, |namespace|);
    var other :| Declares(contexts, b, other) && Inside(name, other) && Longest(contexts, name, |other|);
    assert |namespace| == |other|;
    Nested(name, namespace, other);
  }

  /** Ownership is inherited: below a module, as long as no longer namespace is declared, the candidates stay
      the same. */
  lemma Inherited(contexts: seq<Context>, name: string, below: string, context: string)
    requires Inside(below, name)
    requires forall c, namespace :: Declares(contexts, c, namespace) && Inside(below, namespace) ==> |namespace| <= |name|
    ensures DeclaresLongest(contexts, below, context) <==> DeclaresLongest(contexts, name, context)
  {
    forall c, namespace | Declares(contexts, c, namespace)
      ensures Inside(below, namespace) <==> Inside(name, namespace)
    {
      if Inside(below, namespace) {
        Nested(below, namespace, name);
      } else if Inside(name, namespace) {
        Descends(below, name, namespace);
      }
    }
    hide Inside;
    if DeclaresLongest(contexts, below, context) {
      var n :| Declares(contexts, context, n) && Inside(below, n) && Longest(contexts, below, |n|);
      assert Longest(contexts, name, |n|);
    }
    if DeclaresLongest(contexts, name, context) {
      var n :| Declares(contexts, context, n) && Inside(name, n) && Longest(contexts, name, |n|);
      assert Longest(contexts, below, |n|);
    }
  }

  lemma Descends(below: string, name: string, namespace: string)
    requires Inside(below, name) && Inside(name, namespace)
    ensures Inside(below, namespace)
  {
  }
}
