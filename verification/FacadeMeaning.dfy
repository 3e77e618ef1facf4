/** What the facade snapshot holds, read off the inputs: who owns a facade, which of its operations are public,
    collaborating or internal, and how they are written. */
module FacadeMeaning {
  import opened Facade
  import opened GateMeaning
  import opened Ordering
  import opened Wrappers
  import J = JsonPointer
  import P = PointerMeaning

  /** Of the contexts that list the facade, this one is the last. */
  ghost predicate OwnerIs(contexts: seq<(string, seq<string>)>, facade: string, context: string) {
    exists k :: LastListing(contexts, facade, context, k)
  }

  predicate LastListing(contexts: seq<(string, seq<string>)>, facade: string, context: string, k: nat) {
    && k < |contexts| && contexts[k].0 == context && facade in contexts[k].1
    && forall j :: k < j < |contexts| ==> facade !in contexts[j].1
  }

  lemma {:induction false} OwnersIff(contexts: seq<(string, seq<string>)>, facade: string, context: string)
    ensures facade in Owners(contexts) && Owners(contexts)[facade] == context <==> OwnerIs(contexts, facade, context)
  {
    if |contexts| > 0 {
      OwnersIff(contexts[..|contexts| - 1], facade, context);
      OwnerStep(contexts, facade, context);
      hide OwnerIs;
    }
  }

  lemma OwnerStep(contexts: seq<(string, seq<string>)>, facade: string, context: string)
    requires |contexts| > 0
    ensures var n := |contexts| - 1;
            OwnerIs(contexts, facade, context) <==>
              if facade in contexts[n].1 then contexts[n].0 == context else OwnerIs(contexts[..n], facade, context)
  {
    var n: nat := |contexts| - 1;
    var front := contexts[..n];
    if facade in contexts[n].1 {
      if contexts[n].0 == context {
        assert LastListing(contexts, facade, context, n);
      }
    } else {
      forall k: nat | k < n ensures LastListing(contexts, facade, context, k) <==> LastListing(front, facade, context, k) {
        assert front[k] == contexts[k] && forall j :: k < j < n ==> front[j] == contexts[j];
      }
    }
  }

  ghost predicate Owned(i: Inputs, facade: string) {
    exists context :: OwnerIs(i.contexts, facade, context)
  }

  lemma OwnedIff(i: Inputs, facade: string)
    ensures facade in Owners(i.contexts) <==> Owned(i, facade)
  {
    hide OwnerIs;
    if facade in Owners(i.contexts) {
      OwnersIff(i.contexts, facade, Owners(i.contexts)[facade]);
    }
    if context :| OwnerIs(i.contexts, facade, context) {
      OwnersIff(i.contexts, facade, context);
    }
  }

  /** The module, which is not the owner's, calls the operation, and the facade exports it. */
  ghost predicate CallsAcross(i: Inputs, s: Source, facade: string, operation: Operation) {
    && (exists context :: OwnerIs(i.contexts, facade, context) && s.owner != Some(context))
    && Call(facade, operation) in s.calls && facade in i.exports && operation in i.exports[facade]
  }

  lemma CallsAcrossIff(i: Inputs, s: Source, facade: string, operation: Operation)
    ensures CrossCall(i, s, facade, operation) <==> CallsAcross(i, s, facade, operation)
  {
    hide OwnerIs;
    forall context ensures facade in Owners(i.contexts) && Owners(i.contexts)[facade] == context <==>
                             OwnerIs(i.contexts, facade, context)
    {
      OwnersIff(i.contexts, facade, context);
    }
  }

  /** Called from outside the core, published through a technical interface, or for the release console. */
  ghost predicate PublicMeans(i: Inputs, facade: string, operation: Operation) {
    && Owned(i, facade)
    && ((exists s :: s in i.sources && !s.core && CallsAcross(i, s, facade, operation))
        || (exists d :: d in i.interfaces && d.facade == Some(facade) && operation in d.operations)
        || (facade == "CommsCore.Release"
            && operation in {
                 ("assert_communication_rollback_compatible!", 0), ("assert_guest_rollback_compatible!", 0),
                 ("bootstrap", 0), ("instant_room_tenant_fingerprint", 0), ("migrate", 0), ("qualification_tenant", 0),
                 ("remap_restored_attachment_versions", 1), ("rollback", 2), ("set_platform_role", 2),
                 ("set_platform_role", 5), ("set_platform_role", 6)}))
  }

  /** Called from the core, collaborating and exported, or queried by a read model. */
  ghost predicate CollaborationMeans(i: Inputs, facade: string, operation: Operation) {
    && Owned(i, facade)
    && ((exists s :: s in i.sources && s.core && CallsAcross(i, s, facade, operation))
        || ((exists d :: d in i.collaborations && d.facade == Some(facade) && operation in d.operations)
            && facade in i.exports && operation in i.exports[facade])
        || (facade, operation) in i.queries)
  }

  lemma PublicIff(i: Inputs, facade: string, operation: Operation)
    ensures Public(i, facade, operation) <==> PublicMeans(i, facade, operation)
  {
    hide Owned, CrossCall, CallsAcross;
    OwnedIff(i, facade);
    forall s ensures CrossCall(i, s, facade, operation) <==> CallsAcross(i, s, facade, operation) {
      CallsAcrossIff(i, s, facade, operation);
    }
  }

  lemma CollaborationIff(i: Inputs, facade: string, operation: Operation)
    ensures Collaborative(i, facade, operation) <==> CollaborationMeans(i, facade, operation)
  {
    hide Owned, CrossCall, CallsAcross;
    OwnedIff(i, facade);
    forall s ensures CrossCall(i, s, facade, operation) <==> CallsAcross(i, s, facade, operation) {
      CallsAcrossIff(i, s, facade, operation);
    }
  }

  /** By name, then by arity. */
  ghost predicate Before(a: Operation, b: Operation) {
    if a.0 == b.0 then a.1 < b.1 else UpTo(a.0, b.0)
  }

  function Name(operation: Operation): string {
    operation.0 + "/" + P.Numeral(operation.1)
  }

  /** The names of exactly these operations, in order. */
  ghost predicate Names(tokens: seq<string>, operations: iset<Operation>) {
    exists xs: seq<Operation> {:trigger Spell(xs, tokens)} ::
      && Spell(xs, tokens) && Sorted(xs) && forall o :: o in xs <==> o in operations
  }

  predicate Spell(xs: seq<Operation>, tokens: seq<string>) {
    |tokens| == |xs| && forall k :: 0 <= k < |xs| ==> tokens[k] == Name(xs[k])
  }

  lemma SpellIff(xs: seq<Operation>, tokens: seq<string>)
    ensures Spell(xs, tokens) <==> tokens == Tokens(xs)
  {
    forall o: Operation ensures Name(o) == Token(o) {
      P.NumeralIs(o.1);
    }
  }

  ghost predicate Sorted(xs: seq<Operation>) {
    forall j, k :: 0 <= j < k < |xs| ==> Before(xs[j], xs[k])
  }

  lemma OrderIff(xs: seq<Operation>)
    ensures Ascending(OperationLeq, xs) && Distinct(xs) <==> Sorted(xs)
  {
    hide NameLeq, UpTo;
    forall a: Operation, b: Operation ensures Before(a, b) <==> OperationLeq(a, b) && a != b {
      NameLeqIff(a.0, b.0);
      NameLeqLaws(a.0, b.0, a.0);
    }
  }

  lemma NamesIff(tokens: seq<string>, p: Operation -> bool, operations: iset<Operation>)
    requires forall o :: p(o) <==> o in operations
    ensures Lists(tokens, p) <==> Names(tokens, operations)
  {
    hide Ascending, Distinct, Sorted, Spell, Tokens;
    forall xs: seq<Operation> ensures Spell(xs, tokens) <==> tokens == Tokens(xs) {
      SpellIff(xs, tokens);
    }
    if Lists(tokens, p) {
      var xs: seq<Operation> :| Ascending(OperationLeq, xs) && Distinct(xs) && (forall o :: o in xs <==> p(o)) && tokens == Tokens(xs);
      OrderIff(xs);
      assert Spell(xs, tokens);
    }
    if Names(tokens, operations) {
      var xs: seq<Operation> :| Spell(xs, tokens) && Sorted(xs) && forall o :: o in xs <==> o in operations;
      OrderIff(xs);
      assert tokens == Tokens(xs);
    }
  }

  /** The three lists of one facade: public, collaborating only, and exported but neither. */
  ghost predicate ClassesMean(i: Inputs, facade: string, c: Classes) {
    && facade in i.exports
    && Names(c.publicTokens, iset o: Operation | PublicMeans(i, facade, o))
    && Names(c.collaborationTokens, iset o: Operation | CollaborationMeans(i, facade, o) && !PublicMeans(i, facade, o))
    && Names(c.internalTokens, iset o: Operation | o in i.exports[facade] && !PublicMeans(i, facade, o)
                                                   && !CollaborationMeans(i, facade, o))
  }

  lemma ClassesIff(i: Inputs, facade: string, c: Classes)
    ensures Classifies(i, facade, c) <==> ClassesMean(i, facade, c)
  {
    forall o ensures Public(i, facade, o) <==> PublicMeans(i, facade, o) {
      PublicIff(i, facade, o);
    }
    forall o ensures Collaborative(i, facade, o) <==> CollaborationMeans(i, facade, o) {
      CollaborationIff(i, facade, o);
    }
    hide Public, Collaborative, PublicMeans, CollaborationMeans, Lists, Names;
    NamesIff(c.publicTokens, o => Public(i, facade, o), iset o: Operation | PublicMeans(i, facade, o));
    NamesIff(c.collaborationTokens, o => CollaborativeOnly(i, facade, o),
             iset o: Operation | CollaborationMeans(i, facade, o) && !PublicMeans(i, facade, o));
    if facade in i.exports {
      NamesIff(c.internalTokens, o => Internal(i, facade, o),
               iset o: Operation | o in i.exports[facade] && !PublicMeans(i, facade, o) && !CollaborationMeans(i, facade, o));
    }
  }

  /** Every owned facade, under its owner, with its three lists, and nothing else. */
  ghost predicate SnapshotMeans(i: Inputs, snapshot: Snapshot) {
    && (forall context :: context in snapshot <==> exists facade :: OwnerIs(i.contexts, facade, context))
    && forall context :: context in snapshot ==>
         && (forall facade :: facade in snapshot[context] <==> OwnerIs(i.contexts, facade, context))
         && forall facade :: facade in snapshot[context] ==> ClassesMean(i, facade, snapshot[context][facade])
  }

  lemma SnapshotIff(i: Inputs, snapshot: Snapshot)
    ensures Complete(i, snapshot) <==> SnapshotMeans(i, snapshot)
  {
    hide OwnerIs, Classifies, ClassesMean;
    forall facade, context
      ensures facade in Owners(i.contexts) && Owners(i.contexts)[facade] == context <==> OwnerIs(i.contexts, facade, context)
    {
      OwnersIff(i.contexts, facade, context);
    }
    forall facade, c ensures Classifies(i, facade, c) <==> ClassesMean(i, facade, c) {
      ClassesIff(i, facade, c);
    }
    forall context
      ensures context in Owners(i.contexts).Values <==> exists facade :: OwnerIs(i.contexts, facade, context)
    {
      if context in Owners(i.contexts).Values {
        var facade :| facade in Owners(i.contexts) && Owners(i.contexts)[facade] == context;
        assert OwnerIs(i.contexts, facade, context);
      }
    }
  }

  /** A snapshot is built exactly if the release module is a facade and every facade has known exports. */
  lemma BuiltIff(i: Inputs)
    ensures RELEASE in Owners(i.contexts) && AllExported(i) <==>
              Owned(i, "CommsCore.Release") && forall facade :: Owned(i, facade) ==> facade in i.exports
  {
    hide Owned;
    forall facade ensures facade in Owners(i.contexts) <==> Owned(i, facade) {
      OwnedIff(i, facade);
    }
  }

  /** A small letter or an underscore, then letters, digits and underscores, then at most one mark. */
  predicate SpelledName(first: char, rest: string, mark: string) {
    && ('a' <= first <= 'z' || first == '_') && mark in {"", "!", "?"}
    && forall c :: c in rest ==> 'a' <= c <= 'z' || 'A' <= c <= 'Z' || '0' <= c <= '9' || c == '_'
  }

  lemma FunctionNameIff(name: string)
    ensures FunctionName(name) <==> exists first, rest, mark :: SpelledName(first, rest, mark) && name == [first] + rest + mark
  {
    if FunctionName(name) {
      var n := |name| - 1;
      if n > 0 && name[n] in {'!', '?'} {
        assert name == [name[0]] + name[1..n] + [name[n]];
        assert SpelledName(name[0], name[1..n], [name[n]]);
      } else {
        assert name == [name[0]] + name[1..] + "";
        assert SpelledName(name[0], name[1..], "");
      }
    }
    if first, rest, mark :| SpelledName(first, rest, mark) && name == [first] + rest + mark {
      NameSpelled(first, rest, mark);
    }
  }

  lemma NameSpelled(first: char, rest: string, mark: string)
    requires SpelledName(first, rest, mark)
    ensures FunctionName([first] + rest + mark)
  {
    var name := [first] + rest + mark;
    forall i | 0 <= i < |name| ensures NameChar(name[i]) || (i == |name| - 1 && name[i] in {'!', '?'}) {
      if 0 < i <= |rest| {
        assert name[i] == rest[i - 1] && rest[i - 1] in rest;
      } else if i > |rest| {
        assert name[i] == mark[i - 1 - |rest|];
      }
    }
  }
}
