/** The in-place passes over a file's alias table, and which tables resolve every reference as before. */
module AliasExpansion {
  import opened Aliases
  import opened Graphs

  // ----- One assignment

  /** A target that is written without the prefix starts with an alias as it stands. */
  predicate Live(t: Table, x: string) {
    x in t && t[x][0] in t
  }

  /** One assignment of a pass. */
  function Expanded(t: Table, x: string): Table
    requires Live(t, x)
  {
    t[x := t[t[x][0]] + t[x][1..]]
  }

  // ----- Following without normalization

  /** The name after `k` rounds of following what is written. */
  function RawRounds(aliases: Table, n: Name, k: nat): Name
    decreases k
  {
    if k == 0 then n else RawRounds(aliases, Expand(aliases, n), k - 1)
  }

  /** Every entry is what following its alias in the table `aliases` gives, for some rounds. */
  ghost predicate Followed(aliases: Table, t: Table) {
    t.Keys == aliases.Keys && forall x :: x in t ==> RawReached(aliases, x, t[x])
  }

  ghost predicate RawReached(aliases: Table, x: string, m: Name) {
    exists k: nat :: k > 0 && m == RawRounds(aliases, [x], k)
  }

  lemma {:induction false} RawAdd(aliases: Table, n: Name, j: nat, k: nat)
    ensures RawRounds(aliases, n, j + k) == RawRounds(aliases, RawRounds(aliases, n, j), k)
    decreases j
  {
    if j > 0 {
      RawAdd(aliases, Expand(aliases, n), j - 1, k);
    }
  }

  lemma {:induction false} RawSuffix(aliases: Table, n: Name, s: seq<string>, k: nat)
    ensures RawRounds(aliases, n + s, k) == RawRounds(aliases, n, k) + s
    decreases k
  {
    if k > 0 {
      assert (n + s)[1..] == n[1..] + s;
      assert Expand(aliases, n + s) == Expand(aliases, n) + s;
      RawSuffix(aliases, Expand(aliases, n), s, k - 1);
    }
  }

  lemma FollowedSelf(aliases: Table)
    ensures Followed(aliases, aliases)
  {
    forall x | x in aliases ensures RawReached(aliases, x, aliases[x]) {
      assert Expand(aliases, [x]) == aliases[x];
      assert RawRounds(aliases, aliases[x], 0) == aliases[x];
      assert RawRounds(aliases, [x], 1) == aliases[x];
    }
  }

  /** An assignment of a pass follows further, on any table. */
  lemma FollowedStep(aliases: Table, t: Table, x: string)
    requires Followed(aliases, t) && Live(t, x)
    ensures Followed(aliases, Expanded(t, x))
  {
    hide RawRounds;
    var m, u := t[x], Expanded(t, x);
    assert RawReached(aliases, x, m) && RawReached(aliases, m[0], t[m[0]]);
    var k: nat :| k > 0 && m == RawRounds(aliases, [x], k);
    var j: nat :| j > 0 && t[m[0]] == RawRounds(aliases, [m[0]], j);
    assert m == [m[0]] + m[1..];
    RawSuffix(aliases, [m[0]], m[1..], j);
    RawAdd(aliases, [x], k, j);
    assert u[x] == RawRounds(aliases, [x], k + j);
    forall z | z in u ensures RawReached(aliases, z, u[z]) {
      assert z != x ==> RawReached(aliases, z, t[z]);
    }
  }

  // ----- Following with normalization

  /** The name is what following the alias `x` gives after some rounds. */
  ghost predicate Reached(aliases: Table, x: string, m: Name) {
    exists k: nat :: k > 0 && m == Rounds(aliases, [x], k)
  }

  /** The table has the same aliases, each one followed for some rounds. */
  ghost predicate Along(aliases: Table, t: Table) {
    t.Keys == aliases.Keys && forall x :: x in t ==> Reached(aliases, x, Target(t, x))
  }

  lemma AlongSelf(aliases: Table)
    ensures Along(aliases, aliases)
  {
    forall x | x in aliases ensures Reached(aliases, x, Target(aliases, x)) {
      OneRound(aliases, [x]);
    }
  }

  /** Following in a table that was followed along another one is following there, at least as far. */
  lemma {:induction false} OrbitAlong(aliases: Table, t: Table, n: Name, j: nat) returns (i: nat)
    requires Along(aliases, t)
    ensures i >= j && Rounds(t, n, j) == Rounds(aliases, n, i)
    decreases j
  {
    i := 0;
    if j > 0 {
      var rest := OrbitAlong(aliases, t, Next(t, n), j - 1);
      if n[0] in t {
        var k: nat :| k > 0 && Target(t, n[0]) == Rounds(aliases, [n[0]], k);
        assert n == [n[0]] + n[1..];
        RoundsSuffix(aliases, [n[0]], n[1..], k);
        RoundsAdd(aliases, n, k, rest);
        i := k + rest;
      } else {
        RoundsAdd(aliases, n, 1, rest);
        OneRound(aliases, n);
        i := rest + 1;
      }
    }
  }

  lemma OrbitFirst(aliases: Table, t: Table, x: string, j: nat) returns (i: nat)
    requires Along(aliases, t)
    ensures i >= j && First(t, x, j) == First(aliases, x, i)
  {
    i := OrbitAlong(aliases, t, [x], j);
    RoundsFirst(t, [x], j);
    RoundsFirst(aliases, [x], i);
  }

  lemma CyclesAlong(aliases: Table, t: Table, x: string)
    requires Along(aliases, t) && OnCycle(t, x)
    ensures OnCycle(aliases, x)
  {
    var c: nat :| c > 0 && First(t, x, c) == x;
    var i := OrbitFirst(aliases, t, x, c);
  }

  lemma CalmEverywhere(aliases: Table, x: string)
    requires Calm(aliases)
    ensures CalmFrom(aliases, x)
  {
  }

  /** Following the aliases of a calm table leaves it calm. */
  lemma CalmAlong(aliases: Table, t: Table)
    requires Along(aliases, t) && Calm(aliases)
    ensures Calm(t)
  {
    forall x | OnCycle(t, x) ensures |Target(t, x)| == 1 {
      CyclesAlong(aliases, t, x);
      var k: nat :| k > 0 && Target(t, x) == Rounds(aliases, [x], k);
      CalmEverywhere(aliases, x);
      CalmCycle(aliases, [x], k);
    }
  }

  lemma {:induction false} FirstUnprefixed(aliases: Table, x: string, k: nat)
    requires PrefixReserved(aliases) && x != PREFIX
    ensures First(aliases, x, k) != PREFIX
    decreases k
  {
    if k > 0 && x in aliases {
      NormalizeExtend(aliases[x], []);
      FirstUnprefixed(aliases, Target(aliases, x)[0], k - 1);
    }
  }

  lemma PrefixAlong(aliases: Table, t: Table)
    requires PrefixReserved(aliases) && Along(aliases, t)
    ensures PrefixReserved(t)
  {
    forall x | x in t ensures Normalize(t[x]) != [PREFIX] {
      assert Reached(aliases, x, Target(t, x));
      var k: nat :| k > 0 && Target(t, x) == Rounds(aliases, [x], k);
      RoundsFirst(aliases, [x], k);
      FirstUnprefixed(aliases, x, k);
    }
  }

  lemma ExpandedTarget(aliases: Table, t: Table, x: string)
    requires PrefixReserved(aliases) && Along(aliases, t) && Live(t, x)
    ensures Target(t, x) == t[x]
    ensures Target(Expanded(t, x), x) == Target(t, t[x][0]) + t[x][1..]
  {
    PrefixAlong(aliases, t);
    NormalizeExtend(t[t[x][0]], t[x][1..]);
  }

  lemma ReachedJoin(aliases: Table, x: string, m: Name, k: nat, j: nat)
    requires m == Rounds(aliases, [x], k)
    ensures Rounds(aliases, [m[0]], j) + m[1..] == Rounds(aliases, [x], k + j)
  {
    assert m == [m[0]] + m[1..];
    RoundsSuffix(aliases, [m[0]], m[1..], j);
    RoundsAdd(aliases, [x], k, j);
  }

  lemma ExpandAlong(aliases: Table, t: Table, x: string)
    requires PrefixReserved(aliases) && Along(aliases, t) && Live(t, x)
    ensures Along(aliases, Expanded(t, x))
  {
    ExpandedTarget(aliases, t, x);
    var m, u := t[x], Expanded(t, x);
    assert Reached(aliases, x, Target(t, x)) && Reached(aliases, m[0], Target(t, m[0]));
    var k: nat :| k > 0 && m == Rounds(aliases, [x], k);
    var j: nat :| j > 0 && Target(t, m[0]) == Rounds(aliases, [m[0]], j);
    ReachedJoin(aliases, x, m, k, j);
    forall z | z in u ensures Reached(aliases, z, Target(u, z)) {
      assert z != x ==> Reached(aliases, z, Target(t, z));
    }
  }

  // ----- Tables whose expansion keeps every meaning

  /** No target that is written without the prefix starts with an alias on a cycle of several aliases. */
  ghost predicate Untangled(aliases: Table) {
    forall x :: Live(aliases, x) && OnCycle(aliases, aliases[x][0]) ==>
      Target(aliases, aliases[x][0])[0] == aliases[x][0]
  }

  /** The name is what following `x` gives before its depth is passed. */
  ghost predicate Near(aliases: Table, x: string, m: Name) {
    exists k: nat :: 0 < k <= Depth(aliases, x) && m == Rounds(aliases, [x], k)
  }

  /** Aliases on cycles are as they were, and no other one was followed beyond its depth. */
  ghost predicate Meant(aliases: Table, t: Table) {
    && t.Keys == aliases.Keys
    && forall x :: x in t ==>
         if OnCycle(aliases, x) then Target(t, x) == Target(aliases, x) else Near(aliases, x, Target(t, x))
  }

  lemma MeantAlong(aliases: Table, t: Table)
    requires Meant(aliases, t)
    ensures Along(aliases, t)
  {
    forall x | x in t ensures Reached(aliases, x, Target(t, x)) {
      if OnCycle(aliases, x) {
        OneRound(aliases, [x]);
      } else {
        assert Near(aliases, x, Target(t, x));
      }
    }
  }

  lemma {:induction false} SameCycle(aliases: Table, t: Table, x: string, k: nat)
    requires t.Keys == aliases.Keys && forall v :: OnCycle(aliases, v) ==> Target(t, v) == Target(aliases, v)
    requires OnCycle(aliases, x)
    ensures First(t, x, k) == First(aliases, x, k)
    decreases k
  {
    if k > 0 {
      OnCycleStays(aliases, x, 1);
      assert First(aliases, x, 1) == Target(aliases, x)[0];
      SameCycle(aliases, t, Target(aliases, x)[0], k - 1);
    }
  }

  lemma CycleKept(aliases: Table, t: Table, x: string)
    requires t.Keys == aliases.Keys && forall v :: OnCycle(aliases, v) ==> Target(t, v) == Target(aliases, v)
    requires OnCycle(aliases, x)
    ensures OnCycle(t, x)
  {
    var c: nat :| c > 0 && First(aliases, x, c) == x;
    SameCycle(aliases, t, x, c);
  }

  lemma TerminalMeaning(aliases: Table, n: Name)
    requires Terminal(aliases, n[0])
    ensures Meaning(aliases, n) == n && Depth(aliases, n[0]) == 0
  {
    assert First(aliases, n[0], 0) == n[0];
    DepthIs(aliases, n[0], 0);
  }

  lemma MeaningStep(aliases: Table, n: Name)
    requires !Terminal(aliases, n[0])
    ensures Meaning(aliases, Next(aliases, n)) == Meaning(aliases, n)
    ensures Depth(aliases, n[0]) > 0
  {
    assert First(aliases, n[0], 0) == n[0];
    OneRound(aliases, n);
    MeaningLater(aliases, n, 1);
  }

  /** Every name stands for the same module in both tables. */
  lemma {:induction false} MeantSame(aliases: Table, t: Table, n: Name)
    requires Meant(aliases, t)
    ensures Meaning(t, n) == Meaning(aliases, n)
    decreases Depth(aliases, n[0])
  {
    MeantAlong(aliases, t);
    if Terminal(aliases, n[0]) {
      TerminalMeaning(aliases, n);
      if n[0] in aliases {
        CycleKept(aliases, t, n[0]);
      }
      TerminalMeaning(t, n);
    } else {
      if OnCycle(t, n[0]) {
        CyclesAlong(aliases, t, n[0]);
      }
      assert Near(aliases, n[0], Target(t, n[0]));
      var k: nat :| 0 < k <= Depth(aliases, n[0]) && Target(t, n[0]) == Rounds(aliases, [n[0]], k);
      assert n == [n[0]] + n[1..];
      RoundsSuffix(aliases, [n[0]], n[1..], k);
      MeaningLater(aliases, n, k);
      MeaningStep(t, n);
      MeantSame(aliases, t, Next(t, n));
    }
  }

  /** Every reference ends at the same module through both tables, or does not end through either. */
  ghost predicate SameModules(aliases: Table, t: Table) {
    forall m: Name, r: Name :: EndsAt(aliases, m, r) <==> EndsAt(t, m, r)
  }

  lemma EndsAlike(aliases: Table, t: Table, m: Name, r: Name)
    requires PrefixReserved(aliases) && PrefixReserved(t) && Calm(aliases) && Calm(t)
    ensures EndsAt(aliases, m, r) <==> r == Meaning(aliases, Normalize(m))
    ensures EndsAt(t, m, r) <==> r == Meaning(t, Normalize(m))
  {
    hide EndsAt, Meaning, PrefixReserved, Calm;
    CalmEverywhere(aliases, Normalize(m)[0]);
    CalmEverywhere(t, Normalize(m)[0]);
    EndsAtIff(aliases, m, r);
    EndsAtIff(t, m, r);
  }

  /** Both tables give every reference the same meaning. */
  ghost predicate SameMeanings(aliases: Table, t: Table) {
    forall m: Name :: Meaning(t, Normalize(m)) == Meaning(aliases, Normalize(m))
  }

  lemma SameModulesIff(aliases: Table, t: Table)
    requires PrefixReserved(aliases) && PrefixReserved(t) && Calm(aliases) && Calm(t)
    ensures SameModules(aliases, t) <==> SameMeanings(aliases, t)
  {
    hide EndsAt, Meaning, PrefixReserved, Normalize, Calm;
    if SameModules(aliases, t) {
      forall m: Name ensures Meaning(t, Normalize(m)) == Meaning(aliases, Normalize(m)) {
        EndsAlike(aliases, t, m, Meaning(t, Normalize(m)));
      }
    }
    if SameMeanings(aliases, t) {
      forall m: Name, r: Name ensures EndsAt(aliases, m, r) <==> EndsAt(t, m, r) {
        EndsAlike(aliases, t, m, r);
      }
    }
  }

  /** Where resolution always ends, a table that keeps every meaning resolves every reference alike. */
  lemma ResolvedAlike(aliases: Table, t: Table)
    requires PrefixReserved(aliases) && Calm(aliases) && Meant(aliases, t)
    ensures SameModules(aliases, t)
  {
    hide Meaning, PrefixReserved, Calm, Meant, Along, SameModules, Normalize;
    MeantAlong(aliases, t);
    PrefixAlong(aliases, t);
    CalmAlong(aliases, t);
    forall m: Name ensures Meaning(t, Normalize(m)) == Meaning(aliases, Normalize(m)) {
      MeantSame(aliases, t, Normalize(m));
    }
    SameModulesIff(aliases, t);
  }

  /** An alias for itself, written without the prefix: nothing that starts with it is ever expanded. */
  predicate Still(aliases: Table, y: string) {
    y in aliases && aliases[y] == [y]
  }

  /** What the passes over an untangled, calm table keep. */
  ghost predicate Kept(aliases: Table, t: Table) {
    && Meant(aliases, t) && Untangled(aliases)
    && (forall x :: OnCycle(aliases, x) ==> t[x] == aliases[x])
    && forall x :: Live(t, x) && OnCycle(aliases, t[x][0]) ==> Target(aliases, t[x][0])[0] == t[x][0]
  }

  /** After some passes an entry that still starts with an alias has lost that much depth. */
  ghost predicate Shortened(aliases: Table, t: Table, passes: nat) {
    forall x :: Live(t, x) && !Still(aliases, t[x][0]) ==> Depth(aliases, t[x][0]) + passes < Depth(aliases, x)
  }

  lemma KeptSelf(aliases: Table)
    requires Untangled(aliases) && Calm(aliases) && PrefixReserved(aliases)
    ensures Kept(aliases, aliases) && Shortened(aliases, aliases, 0)
  {
    forall x | x in aliases && !OnCycle(aliases, x) ensures Near(aliases, x, Target(aliases, x)) {
      OneRound(aliases, [x]);
      MeaningStep(aliases, [x]);
    }
    forall x | Live(aliases, x) && !Still(aliases, aliases[x][0])
      ensures Depth(aliases, aliases[x][0]) < Depth(aliases, x)
    {
      assert Target(aliases, x) == aliases[x];
      if OnCycle(aliases, x) {
        OnlySelf(aliases, x);
      } else {
        MeaningStep(aliases, [x]);
        OneRound(aliases, [x]);
        MeaningLater(aliases, [x], 1);
      }
    }
  }

  /** On a cycle of an untangled, calm table an unprefixed target is the alias itself. */
  lemma OnlySelf(aliases: Table, x: string)
    requires Untangled(aliases) && Calm(aliases) && PrefixReserved(aliases) && OnCycle(aliases, x) && Live(aliases, x)
    ensures Still(aliases, x) && aliases[x][0] == x
  {
    assert Target(aliases, x) == aliases[x];
    OnCycleStays(aliases, x, 1);
    assert First(aliases, x, 1) == Target(aliases, x)[0];
    CycleInjective(aliases, x, aliases[x][0]);
  }

  /** An assignment keeps the meaning of the table. */
  lemma ExpandMeant(aliases: Table, t: Table, x: string)
    requires PrefixReserved(aliases) && Calm(aliases) && Kept(aliases, t) && Live(t, x) && !OnCycle(aliases, x)
    ensures Near(aliases, x, Target(Expanded(t, x), x))
  {
    hide Untangled, Calm, PrefixReserved, Meaning, Depth, Near, Meant, Target, OnCycle, Along;
    MeantAlong(aliases, t);
    ExpandedTarget(aliases, t, x);
    NearAt(aliases, t, x);
    if OnCycle(aliases, t[x][0]) {
      CalmTarget(aliases, t[x][0]);
      SameTargetOnCycle(aliases, t, t[x][0]);
      assert Target(aliases, t[x][0]) == [t[x][0]];
      assert [t[x][0]] + t[x][1..] == t[x];
    } else {
      NearAt(aliases, t, t[x][0]);
      NearJoin(aliases, x, t[x], Target(t, t[x][0]));
    }
  }

  /** Going on at the first segment stays near. */
  lemma NearJoin(aliases: Table, x: string, m: Name, n: Name)
    requires Near(aliases, x, m) && Near(aliases, m[0], n)
    ensures Near(aliases, x, n + m[1..])
  {
    hide Depth, Rounds;
    var k: nat :| 0 < k <= Depth(aliases, x) && m == Rounds(aliases, [x], k);
    var j: nat :| 0 < j <= Depth(aliases, m[0]) && n == Rounds(aliases, [m[0]], j);
    MeaningLater(aliases, [x], k);
    ReachedJoin(aliases, x, m, k, j);
  }

  lemma SameTargetOnCycle(aliases: Table, t: Table, x: string)
    requires Meant(aliases, t) && OnCycle(aliases, x)
    ensures x in t && Target(t, x) == Target(aliases, x)
  {
  }

  lemma NearAt(aliases: Table, t: Table, x: string)
    requires Meant(aliases, t) && x in t && !OnCycle(aliases, x)
    ensures Near(aliases, x, Target(t, x))
  {
  }

  lemma CalmTarget(aliases: Table, x: string)
    requires Calm(aliases) && OnCycle(aliases, x)
    ensures |Target(aliases, x)| == 1
  {
  }

  lemma ExpandKept(aliases: Table, t: Table, x: string, passes: nat)
    requires PrefixReserved(aliases) && Calm(aliases) && Kept(aliases, t) && Shortened(aliases, t, passes)
    requires Live(t, x) && !OnCycle(aliases, x) && !Still(aliases, t[x][0])
    ensures Kept(aliases, Expanded(t, x)) && Shortened(aliases, Expanded(t, x), passes)
    ensures var u := Expanded(t, x);
            Live(u, x) && !Still(aliases, u[x][0]) ==> Depth(aliases, u[x][0]) + passes + 1 < Depth(aliases, x)
  {
    hide Depth, Near, Target, Meant, OnCycle, Untangled, Calm;
    var u, y := Expanded(t, x), t[x][0];
    ExpandedLive(t, x);
    ExpandMeant(aliases, t, x);
    OthersMeant(aliases, t, x);
    assert Depth(aliases, y) + passes < Depth(aliases, x);
  }

  lemma ExpandedLive(t: Table, x: string)
    requires Live(t, x)
    ensures forall z :: Live(Expanded(t, x), z) ==> if z == x then Live(t, t[x][0]) else Live(t, z)
    ensures Expanded(t, x)[x][0] == t[t[x][0]][0]
  {
  }

  lemma OthersMeant(aliases: Table, t: Table, x: string)
    requires Meant(aliases, t) && Live(t, x) && !OnCycle(aliases, x)
    requires Near(aliases, x, Target(Expanded(t, x), x))
    ensures Meant(aliases, Expanded(t, x))
  {
    hide Depth, Near, Target;
    var u := Expanded(t, x);
    forall z | z in u && z != x ensures Target(u, z) == Target(t, z) {
      SameTarget(u, t, z);
    }
  }

  lemma SameTarget(u: Table, t: Table, z: string)
    requires z in u && z in t && u[z] == t[z]
    ensures Target(u, z) == Target(t, z)
  {
  }

  // ----- Tables whose expansion changes a meaning

  /** An unprefixed target on a cycle of several aliases. */
  ghost predicate LiveOnCycle(aliases: Table, v: string) {
    Live(aliases, v) && OnCycle(aliases, v) && aliases[v][0] != v
  }

  /** An unprefixed target that leads from outside into a cycle of several aliases. */
  ghost predicate Hook(aliases: Table, x: string) {
    && Live(aliases, x) && !OnCycle(aliases, x) && OnCycle(aliases, aliases[x][0])
    && Target(aliases, aliases[x][0])[0] != aliases[x][0]
  }

  lemma TangledIff(aliases: Table)
    requires PrefixReserved(aliases)
    ensures Untangled(aliases) <==> !(exists v :: LiveOnCycle(aliases, v)) && !(exists x :: Hook(aliases, x))
  {
    forall v | LiveOnCycle(aliases, v)
      ensures OnCycle(aliases, aliases[v][0]) && Target(aliases, aliases[v][0])[0] != aliases[v][0]
    {
      LiveNext(aliases, v);
    }
    if !Untangled(aliases) {
      var x :| Live(aliases, x) && OnCycle(aliases, aliases[x][0]) && Target(aliases, aliases[x][0])[0] != aliases[x][0];
      if OnCycle(aliases, x) {
        assert LiveOnCycle(aliases, x);
      } else {
        assert Hook(aliases, x);
      }
    }
  }

  /** The next alias on the cycle, and that it moves on. */
  lemma LiveNext(aliases: Table, v: string)
    requires LiveOnCycle(aliases, v) && PrefixReserved(aliases)
    ensures OnCycle(aliases, aliases[v][0]) && Target(aliases, v) == aliases[v]
    ensures Target(aliases, aliases[v][0])[0] != aliases[v][0]
  {
    OnCycleStays(aliases, v, 1);
    assert First(aliases, v, 1) == Target(aliases, v)[0];
    if Target(aliases, aliases[v][0])[0] == aliases[v][0] {
      CycleInjective(aliases, v, aliases[v][0]);
    }
  }

  ghost predicate Intact(aliases: Table, t: Table) {
    t.Keys == aliases.Keys && forall v :: OnCycle(aliases, v) ==> t[v] == aliases[v]
  }

  /** No alias on a cycle leads to `y` any more. */
  ghost predicate Orphan(aliases: Table, t: Table, y: string) {
    OnCycle(aliases, y) && forall w :: OnCycle(aliases, w) && w in t ==> Target(t, w)[0] != y
  }

  ghost predicate HasOrphan(aliases: Table, t: Table) {
    exists y :: Orphan(aliases, t, y)
  }

  /** On cycles, the targets in a followed table are on cycles. */
  lemma CycleTarget(aliases: Table, t: Table, w: string)
    requires Along(aliases, t) && w in t && OnCycle(aliases, w)
    ensures OnCycle(aliases, Target(t, w)[0])
  {
    assert Reached(aliases, w, Target(t, w));
    var k: nat :| k > 0 && Target(t, w) == Rounds(aliases, [w], k);
    RoundsFirst(aliases, [w], k);
    OnCycleStays(aliases, w, k);
  }

  lemma OrphanStays(aliases: Table, t: Table, x: string, y: string)
    requires PrefixReserved(aliases) && Along(aliases, t) && Live(t, x) && Orphan(aliases, t, y)
    ensures Orphan(aliases, Expanded(t, x), y)
  {
    ExpandedTarget(aliases, t, x);
    var u := Expanded(t, x);
    forall w | OnCycle(aliases, w) && w in u ensures Target(u, w)[0] != y {
      if w == x {
        CycleTarget(aliases, t, x);
      } else {
        SameTarget(u, t, w);
      }
    }
  }

  /** The first assignment on a cycle of several aliases leaves one of them behind. */
  lemma OrphanAppears(aliases: Table, t: Table, v: string)
    requires PrefixReserved(aliases) && Along(aliases, t) && Intact(aliases, t) && LiveOnCycle(aliases, v)
    ensures Live(t, v) && Orphan(aliases, Expanded(t, v), aliases[v][0])
    ensures t[t[v][0]] != t[v] && t[t[v][0]] + t[v][1..] != t[v]
  {
    LiveNext(aliases, v);
    ExpandedTarget(aliases, t, v);
    var u, y := Expanded(t, v), aliases[v][0];
    SameTarget(t, aliases, y);
    forall w | OnCycle(aliases, w) && w in u ensures Target(u, w)[0] != y {
      if w != v {
        SameTarget(u, aliases, w);
        if Target(aliases, w)[0] == Target(aliases, v)[0] {
          CycleInjective(aliases, w, v);
        }
      }
    }
    assert Target(u, v)[0] != y && Target(t, v) == t[v];
  }

  /** An alias that is left behind stands for something else. */
  lemma OrphanDiffers(aliases: Table, t: Table, y: string)
    requires Along(aliases, t) && Orphan(aliases, t, y)
    ensures Meaning(t, [y]) != Meaning(aliases, [y])
  {
    TerminalMeaning(aliases, [y]);
    forall j: nat | j > 0 ensures First(t, y, j) != y {
      OrphanPath(aliases, t, y, j);
    }
    assert !OnCycle(t, y);
    var d := Depth(t, y);
    assert First(t, y, 0) == y;
    RoundsFirst(t, [y], d);
  }

  lemma {:induction false} OrphanPath(aliases: Table, t: Table, y: string, j: nat)
    requires Along(aliases, t) && Orphan(aliases, t, y) && j > 0
    ensures OnCycle(aliases, First(t, y, j)) && First(t, y, j) != y
    decreases j
  {
    var before := First(t, y, j - 1);
    if j > 1 {
      OrphanPath(aliases, t, y, j - 1);
    }
    assert OnCycle(aliases, before);
    FirstAdd(t, y, j - 1, 1);
    assert First(t, before, 1) == Target(t, before)[0];
    CycleTarget(aliases, t, before);
  }

  /** The entry was followed one round beyond the entrance of its cycle. */
  ghost predicate Overshot(aliases: Table, t: Table, x: string) {
    Hook(aliases, x) && x in t && t[x] == aliases[aliases[x][0]] + aliases[x][1..]
  }

  lemma LiveTarget(aliases: Table, y: string)
    requires PrefixReserved(aliases)
    ensures Live(aliases, y) ==> Target(aliases, y) == aliases[y]
  {
  }

  lemma OvershotFrozen(aliases: Table, t: Table, x: string)
    requires PrefixReserved(aliases) && Overshot(aliases, t, x) && t.Keys == aliases.Keys
    requires forall v :: !LiveOnCycle(aliases, v)
    ensures !Live(t, x)
  {
    var y := aliases[x][0];
    assert !LiveOnCycle(aliases, y);
    LiveTarget(aliases, y);
  }

  lemma OvershotDiffers(aliases: Table, t: Table, x: string)
    requires PrefixReserved(aliases) && Along(aliases, t) && Calm(aliases) && Intact(aliases, t) && Overshot(aliases, t, x)
    ensures Meaning(t, [x]) != Meaning(aliases, [x])
  {
    hide First, Along, Intact, Calm, PrefixReserved, OnCycle, Meaning;
    var y := aliases[x][0];
    var s, z := aliases[x][1..], Target(aliases, y)[0];
    OvershotTargets(aliases, t, x);
    MeaningStep(aliases, [x]);
    assert Next(aliases, [x]) == [y] + s;
    TerminalMeaning(aliases, [y] + s);
    OvershotEntry(aliases, t, x, z);
    MeaningStep(t, [x]);
    assert Next(t, [x]) == [z] + s;
    TerminalMeaning(t, [z] + s);
    assert ([z] + s)[0] != ([y] + s)[0];
  }

  lemma OvershotTargets(aliases: Table, t: Table, x: string)
    requires PrefixReserved(aliases) && Calm(aliases) && Overshot(aliases, t, x)
    ensures var y, s := aliases[x][0], aliases[x][1..];
            Target(aliases, x) == [y] + s && Target(t, x) == [Target(aliases, y)[0]] + s
  {
    var y, s := aliases[x][0], aliases[x][1..];
    assert aliases[x] == [y] + s;
    NormalizeExtend(aliases[y], s);
    assert |Target(aliases, y)| == 1;
  }

  lemma OvershotEntry(aliases: Table, t: Table, x: string, z: string)
    requires Along(aliases, t) && Intact(aliases, t) && Overshot(aliases, t, x) && z == Target(aliases, aliases[x][0])[0]
    ensures OnCycle(t, z) && !OnCycle(t, x)
  {
    var y := aliases[x][0];
    OnCycleStays(aliases, y, 1);
    assert First(aliases, y, 1) == z;
    IntactTargets(aliases, t);
    CycleKept(aliases, t, z);
    if OnCycle(t, x) {
      CyclesAlong(aliases, t, x);
    }
  }

  lemma IntactTargets(aliases: Table, t: Table)
    requires Intact(aliases, t)
    ensures forall v :: OnCycle(aliases, v) ==> Target(t, v) == Target(aliases, v)
  {
    forall v | OnCycle(aliases, v) ensures Target(t, v) == Target(aliases, v) {
      SameTarget(t, aliases, v);
    }
  }

  // ----- The passes

  /** What all passes keep, whatever the table. */
  ghost predicate State(aliases: Table, t: Table) {
    && Along(aliases, t)
    && (Intact(aliases, t) || HasOrphan(aliases, t))
    && ((forall v :: !LiveOnCycle(aliases, v)) ==>
          Intact(aliases, t) && forall x :: Hook(aliases, x) ==> t[x] == aliases[x] || Overshot(aliases, t, x))
    && (Calm(aliases) && Untangled(aliases) ==> Kept(aliases, t))
  }

  /** What has happened to an entry whose turn has come. */
  ghost predicate Handled(aliases: Table, t: Table, x: string) {
    && (LiveOnCycle(aliases, x) ==> HasOrphan(aliases, t))
    && ((forall v :: !LiveOnCycle(aliases, v)) && Hook(aliases, x) ==> Overshot(aliases, t, x))
  }

  lemma StateSelf(aliases: Table)
    ensures Underway(aliases, aliases)
    ensures Fine(aliases) ==> Shortened(aliases, aliases, 0)
  {
    hide Shortened, Followed, Along, Kept;
    FollowedSelf(aliases);
    if PrefixReserved(aliases) {
      AlongSelf(aliases);
      if Calm(aliases) && Untangled(aliases) {
        KeptSelf(aliases);
      }
    }
  }

  /** An assignment of a pass takes place: the guards of the loop are true. */
  predicate Assigns(t: Table, x: string) {
    Live(t, x) && t[t[x][0]] != t[x] && t[t[x][0]] + t[x][1..] != t[x]
  }

  /** An assignment on a cycle leaves an alias behind; any other one leaves the cycles as they are. */
  lemma AssignOrphan(aliases: Table, t: Table, x: string)
    requires PrefixReserved(aliases) && Along(aliases, t) && Assigns(t, x)
    ensures HasOrphan(aliases, t) ==> HasOrphan(aliases, Expanded(t, x))
    ensures Intact(aliases, t) && OnCycle(aliases, x) ==> LiveOnCycle(aliases, x) && HasOrphan(aliases, Expanded(t, x))
    ensures Intact(aliases, t) && !OnCycle(aliases, x) ==> Intact(aliases, Expanded(t, x))
  {
    hide Along, Target, OnCycle;
    if y :| Orphan(aliases, t, y) {
      OrphanStays(aliases, t, x, y);
    }
    if Intact(aliases, t) && OnCycle(aliases, x) {
      assert t[x] == aliases[x] && aliases[x][0] != x;
      OrphanAppears(aliases, t, x);
    }
  }

  /** Where no cycle has an unprefixed target, cycles stay, and a hook overshoots at its turn. */
  lemma AssignHooks(aliases: Table, t: Table, x: string)
    requires PrefixReserved(aliases) && State(aliases, t) && Assigns(t, x) && forall v :: !LiveOnCycle(aliases, v)
    ensures Intact(aliases, Expanded(t, x))
    ensures forall z :: Hook(aliases, z) ==> Expanded(t, x)[z] == aliases[z] || Overshot(aliases, Expanded(t, x), z)
    ensures Hook(aliases, x) ==> Overshot(aliases, Expanded(t, x), x)
    ensures forall z :: Overshot(aliases, t, z) ==> Overshot(aliases, Expanded(t, x), z)
  {
    AssignOrphan(aliases, t, x);
    hide Along, OnCycle, Kept, HasOrphan;
    forall z | Overshot(aliases, t, z) ensures z != x {
      OvershotFrozen(aliases, t, z);
    }
    if Hook(aliases, x) {
      assert t[x] == aliases[x] && t[aliases[x][0]] == aliases[aliases[x][0]];
    }
  }

  lemma AssignState(aliases: Table, t: Table, x: string)
    requires PrefixReserved(aliases) && State(aliases, t) && Assigns(t, x)
    requires Calm(aliases) && Untangled(aliases) ==> Kept(aliases, Expanded(t, x))
    ensures State(aliases, Expanded(t, x)) && Handled(aliases, Expanded(t, x), x)
    ensures forall z :: Handled(aliases, t, z) ==> Handled(aliases, Expanded(t, x), z)
  {
    hide Along, Intact, Kept, HasOrphan, LiveOnCycle, Hook, Overshot, Calm, Untangled, OnCycle, Expanded;
    ExpandAlong(aliases, t, x);
    AssignOrphan(aliases, t, x);
    if forall v :: !LiveOnCycle(aliases, v) {
      AssignHooks(aliases, t, x);
    }
    LiveIsOnCycle(aliases, x);
  }

  lemma LiveIsOnCycle(aliases: Table, v: string)
    ensures LiveOnCycle(aliases, v) ==> OnCycle(aliases, v)
  {
  }

  lemma KeepsState(aliases: Table, t: Table, x: string)
    requires PrefixReserved(aliases) && State(aliases, t) && x in t && !Assigns(t, x)
    ensures Handled(aliases, t, x)
  {
    if LiveOnCycle(aliases, x) && Intact(aliases, t) {
      OrphanAppears(aliases, t, x);
    }
    if (forall v :: !LiveOnCycle(aliases, v)) && Hook(aliases, x) && t[x] == aliases[x] {
      var y := aliases[x][0];
      PrefixAlong(aliases, t);
      ExpandedTarget(aliases, t, x);
      SameTarget(t, aliases, y);
    }
  }

  /** What is known between the assignments of the passes: on any table that entries are followed, and more
      where the prefix is reserved. */
  ghost predicate Underway(aliases: Table, t: Table) {
    Followed(aliases, t) && (PrefixReserved(aliases) ==> State(aliases, t))
  }

  /** The prefix is reserved, resolution always ends, and the table is untangled. */
  ghost predicate Fine(aliases: Table) {
    PrefixReserved(aliases) && Calm(aliases) && Untangled(aliases)
  }

  /** All entries have had their turn, as far as that is known for them. */
  ghost predicate AllHandled(aliases: Table, t: Table, names: set<string>) {
    PrefixReserved(aliases) ==> forall x :: x in aliases && x !in names ==> Handled(aliases, t, x)
  }

  /** One pass over any table, in any order of the names; `aliases` is the table that the passes began with. */
  method ExpandPass(ghost aliases: Table, table: Table, ghost passes: nat) returns (next: Table, changed: bool)
    requires Underway(aliases, table)
    requires Fine(aliases) ==> Shortened(aliases, table, passes)
    ensures Underway(aliases, next) && AllHandled(aliases, next, {})
    ensures Fine(aliases) ==> Shortened(aliases, next, passes + 1)
    ensures !changed ==> next == table && forall x :: x in table ==> !Assigns(table, x)
    ensures Fine(aliases) && changed ==> passes < |aliases|
  {
    hide Underway, Handled, Shortened, ShorterOutside, AllHandled, Assigns, Turn, Fine;
    next, changed := table, false;
    StateKeys(aliases, table);
    NoneHandled(aliases, table);
    var names := table.Keys;
    while names != {}
      invariant names <= table.Keys == next.Keys == aliases.Keys
      invariant Underway(aliases, next) && AllHandled(aliases, next, names)
      invariant Fine(aliases) ==> Shortened(aliases, next, passes) && ShorterOutside(aliases, next, passes, names)
      invariant !changed ==> next == table && forall x :: x in table && x !in names ==> !Assigns(table, x)
      invariant Fine(aliases) && changed ==> passes < |aliases|
      decreases names
    {
      var name :| name in names;
      ghost var before, names0 := next, names;
      names := names - {name};
      assert names + {name} == names0;
      var m := next[name];
      TurnState(aliases, next, name, passes, names);
      if m[0] in next && next[m[0]] != m {
        var expanded := next[m[0]] + m[1..];
        if expanded != m {
          next := next[name := expanded];
          changed := true;
        }
      }
      TurnIs(before, next, name, m);
    }
    if Fine(aliases) {
      ShorterEverywhere(aliases, next, passes);
    }
  }

  lemma NoneHandled(aliases: Table, t: Table)
    requires t.Keys == aliases.Keys
    ensures AllHandled(aliases, t, aliases.Keys)
    ensures forall passes: nat :: Fine(aliases) && Shortened(aliases, t, passes) ==>
              ShorterOutside(aliases, t, passes, aliases.Keys)
  {
  }

  lemma StateKeys(aliases: Table, t: Table)
    requires Underway(aliases, t)
    ensures t.Keys == aliases.Keys
  {
  }

  /** The table after the turn of one entry. */
  function Turn(t: Table, x: string): Table {
    if Assigns(t, x) then Expanded(t, x) else t
  }

  /** The guards of the loop body. */
  lemma TurnIs(before: Table, after: Table, x: string, m: Name)
    requires x in before && m == before[x]
    requires after == if m[0] in before && before[m[0]] != m && before[m[0]] + m[1..] != m
                      then before[x := before[m[0]] + m[1..]] else before
    ensures after == Turn(before, x)
    ensures Assigns(before, x) <==> m[0] in before && before[m[0]] != m && before[m[0]] + m[1..] != m
  {
  }

  /** The entries whose turn has come have lost one more. */
  ghost predicate ShorterOutside(aliases: Table, t: Table, passes: nat, names: set<string>) {
    forall x :: x !in names && Live(t, x) && !Still(aliases, t[x][0]) ==>
      Depth(aliases, t[x][0]) + passes + 1 < Depth(aliases, x)
  }

  lemma ShorterEverywhere(aliases: Table, t: Table, passes: nat)
    requires ShorterOutside(aliases, t, passes, {})
    ensures Shortened(aliases, t, passes + 1)
  {
  }

  /** The turn of one entry. */
  lemma TurnState(aliases: Table, t: Table, x: string, passes: nat, names: set<string>)
    requires Underway(aliases, t) && AllHandled(aliases, t, names + {x}) && x in t
    requires Fine(aliases) ==> Shortened(aliases, t, passes) && ShorterOutside(aliases, t, passes, names + {x})
    ensures Turn(t, x).Keys == t.Keys && Underway(aliases, Turn(t, x)) && AllHandled(aliases, Turn(t, x), names)
    ensures Fine(aliases) ==>
              Shortened(aliases, Turn(t, x), passes) && ShorterOutside(aliases, Turn(t, x), passes, names)
    ensures Fine(aliases) && Assigns(t, x) ==> passes < |aliases|
  {
    hide State, Handled, Shortened, ShorterOutside, PrefixReserved, Calm, Untangled, Followed;
    if Fine(aliases) {
      FineTurn(aliases, t, x, passes, names);
    }
    if Assigns(t, x) {
      FollowedStep(aliases, t, x);
      if PrefixReserved(aliases) {
        AssignState(aliases, t, x);
      }
    } else if PrefixReserved(aliases) {
      KeepsState(aliases, t, x);
    }
  }

  lemma FineTurn(aliases: Table, t: Table, x: string, passes: nat, names: set<string>)
    requires Fine(aliases) && State(aliases, t) && x in t
    requires Shortened(aliases, t, passes) && ShorterOutside(aliases, t, passes, names + {x})
    ensures Shortened(aliases, Turn(t, x), passes) && ShorterOutside(aliases, Turn(t, x), passes, names)
    ensures Assigns(t, x) ==> passes < |aliases| && Kept(aliases, Expanded(t, x))
  {
    hide Shortened, ShorterOutside, PrefixReserved, Calm, Untangled, Kept, Intact, HasOrphan, Along;
    if Assigns(t, x) {
      AssignMoves(aliases, t, x, passes);
      ExpandKept(aliases, t, x, passes);
      ShorterAfter(aliases, t, x, passes, names);
    } else {
      StaysShorter(aliases, t, x, passes, names);
    }
  }

  /** In an untangled, calm table only an alias off the cycles is assigned to, and not for a still one. */
  lemma AssignMoves(aliases: Table, t: Table, x: string, passes: nat)
    requires PrefixReserved(aliases) && Calm(aliases) && Kept(aliases, t) && Shortened(aliases, t, passes) && Assigns(t, x)
    ensures !OnCycle(aliases, x) && !Still(aliases, t[x][0]) && passes < |aliases|
  {
    var y := t[x][0];
    if OnCycle(aliases, x) {
      OnlySelf(aliases, x);
    }
    if Still(aliases, y) {
      StillBlocks(aliases, t, x);
    }
    assert Depth(aliases, y) + passes < Depth(aliases, x) <= |aliases|;
  }

  lemma StillOnCycle(aliases: Table, y: string)
    requires Still(aliases, y)
    ensures OnCycle(aliases, y)
  {
    assert First(aliases, y, 1) == y;
  }

  lemma StillBlocks(aliases: Table, t: Table, x: string)
    requires Kept(aliases, t) && Live(t, x) && Still(aliases, t[x][0])
    ensures !Assigns(t, x)
  {
    hide Meant, Untangled;
    var y := t[x][0];
    StillOnCycle(aliases, y);
    assert t[y] == aliases[y];
    assert [y] + t[x][1..] == t[x];
  }

  lemma ShorterAfter(aliases: Table, t: Table, x: string, passes: nat, names: set<string>)
    requires Live(t, x) && ShorterOutside(aliases, t, passes, names + {x})
    requires var u := Expanded(t, x);
             Live(u, x) && !Still(aliases, u[x][0]) ==> Depth(aliases, u[x][0]) + passes + 1 < Depth(aliases, x)
    ensures ShorterOutside(aliases, Expanded(t, x), passes, names)
  {
    hide Depth, Still;
    var u := Expanded(t, x);
    forall z | z !in names && Live(u, z) && !Still(aliases, u[z][0])
      ensures Depth(aliases, u[z][0]) + passes + 1 < Depth(aliases, z)
    {
      assert z != x ==> Live(t, z) && z !in names + {x};
    }
  }

  /** An entry that no assignment is made to starts with no alias, or with a still one. */
  lemma NoMoveLeft(aliases: Table, t: Table, x: string, passes: nat)
    requires Shortened(aliases, t, passes) && x in t && !Assigns(t, x)
    ensures Live(t, x) ==> Still(aliases, t[x][0])
  {
    if Live(t, x) {
      var y := t[x][0];
      assert t[y][0] == y;
      assert Live(t, y);
    }
  }

  lemma StaysShorter(aliases: Table, t: Table, x: string, passes: nat, names: set<string>)
    requires x in t && !Assigns(t, x)
    requires Shortened(aliases, t, passes) && ShorterOutside(aliases, t, passes, names + {x})
    ensures ShorterOutside(aliases, t, passes, names)
  {
    NoMoveLeft(aliases, t, x, passes);
  }

  function Normalized(t: Table): Table {
    map name | name in t :: Normalize(t[name])
  }

  /** Normalizing the targets changes no meaning. */
  lemma NormalizedMeant(t: Table)
    ensures Meant(t, Normalized(t))
  {
    var u := Normalized(t);
    forall x | x in u
      ensures Target(u, x) == Target(t, x) && (!OnCycle(t, x) ==> Near(t, x, Target(u, x)))
    {
      NormalizeTwice(t[x]);
      if !OnCycle(t, x) {
        OneRound(t, [x]);
        MeaningStep(t, [x]);
      }
    }
  }

  lemma AlongTrans(aliases: Table, t: Table, u: Table)
    requires Along(aliases, t) && Along(t, u)
    ensures Along(aliases, u)
  {
    forall x | x in u ensures Reached(aliases, x, Target(u, x)) {
      assert Reached(t, x, Target(u, x));
      var k: nat :| k > 0 && Target(u, x) == Rounds(t, [x], k);
      var i := OrbitAlong(aliases, t, [x], k);
    }
  }

  /** After the passes, every reference ends at the same module as before exactly if the table was untangled. */
  lemma ExpansionKeepsIff(aliases: Table, t: Table)
    requires PrefixReserved(aliases) && Calm(aliases) && State(aliases, t)
    requires forall x :: x in aliases ==> Handled(aliases, t, x)
    ensures SameModules(aliases, Normalized(t)) <==> Untangled(aliases)
  {
    hide Meaning, Along, Target, State, Handled, Meant, Calm, Untangled, Kept, PrefixReserved, SameModules;
    var u := Normalized(t);
    NormalizedMeant(t);
    NormalizedAlong(aliases, t);
    CalmAlong(aliases, u);
    SameModulesIff(aliases, u);
    if Untangled(aliases) {
      KeptMeant(aliases, t);
      forall m: Name ensures Meaning(u, Normalize(m)) == Meaning(aliases, Normalize(m)) {
        MeantSame(t, u, Normalize(m));
        MeantSame(aliases, t, Normalize(m));
      }
    } else {
      var x := Different(aliases, t);
      MeantSame(t, u, [x]);
      assert Normalize([x]) == [x];
      assert Meaning(u, Normalize([x])) != Meaning(aliases, Normalize([x]));
    }
  }

  lemma KeptMeant(aliases: Table, t: Table)
    requires State(aliases, t) && Calm(aliases) && Untangled(aliases)
    ensures Meant(aliases, t)
  {
  }

  lemma Different(aliases: Table, t: Table) returns (x: string)
    requires PrefixReserved(aliases) && Calm(aliases) && State(aliases, t) && !Untangled(aliases)
    requires forall x :: x in aliases ==> Handled(aliases, t, x)
    ensures Meaning(t, [x]) != Meaning(aliases, [x])
  {
    hide Meaning, Along, Calm, Orphan, Overshot, Intact;
    TangledIff(aliases);
    if v :| LiveOnCycle(aliases, v) {
      assert Handled(aliases, t, v);
      x :| Orphan(aliases, t, x);
      OrphanDiffers(aliases, t, x);
    } else {
      x :| Hook(aliases, x);
      assert Handled(aliases, t, x);
      OvershotDiffers(aliases, t, x);
    }
  }

  /** The table holds, normalized, what following every alias gives; on a fine table as far as possible. */
  ghost predicate Expansion(aliases: Table, expanded: Table) {
    exists t: Table :: Followed(aliases, t) && expanded == Normalized(t) && (Fine(aliases) ==> Exhausted(aliases, t))
  }

  /** No entry starts with an alias any more, except one that stands for itself. */
  ghost predicate Exhausted(aliases: Table, t: Table) {
    forall x :: Live(t, x) ==> Still(aliases, t[x][0])
  }

  /** `module_aliases`, on any table: expanded in place, then normalized. If the prefix is reserved and every
      resolution ends, every reference keeps its module exactly if the table is untangled; and then the passes
      reach a fixpoint within their bound. */
  method ModuleAliases(aliases: Table) returns (expanded: Table)
    ensures Expansion(aliases, expanded)
    ensures PrefixReserved(aliases) ==> PrefixReserved(expanded)
    ensures PrefixReserved(aliases) && Calm(aliases) ==>
              Calm(expanded) && (SameModules(aliases, expanded) <==> Untangled(aliases))
  {
    hide Calm, Untangled, PrefixReserved, Underway, AllHandled, Shortened, Assigns, Normalized, SameModules, Exhausted;
    StateSelf(aliases);
    var table := aliases;
    var stable := false;
    var iteration := 0;
    while iteration < |aliases| + 1 && !stable
      invariant iteration <= |aliases| + 1 && Underway(aliases, table)
      invariant iteration > 0 ==> AllHandled(aliases, table, {})
      invariant Fine(aliases) ==> Shortened(aliases, table, iteration)
      invariant stable ==> forall x :: x in table ==> !Assigns(table, x)
      invariant iteration == 0 ==> !stable
      invariant Fine(aliases) && iteration > |aliases| ==> stable
      decreases |aliases| + 1 - iteration
    {
      var next, changed := ExpandPass(aliases, table, iteration);
      table, stable := next, !changed;
      iteration := iteration + 1;
    }
    expanded := map name | name in table :: Normalize(table[name]);
    NormalizedIs(table, expanded);
    if Fine(aliases) {
      Fixpoint(aliases, table, iteration);
    }
    UnderwayParts(aliases, table);
    if PrefixReserved(aliases) {
      NormalizedAlong(aliases, table);
      if Calm(aliases) {
        CalmAlong(aliases, expanded);
        ExpansionKeepsIff(aliases, table);
      }
    }
  }

  lemma UnderwayParts(aliases: Table, t: Table)
    requires Underway(aliases, t) && AllHandled(aliases, t, {})
    ensures Followed(aliases, t)
    ensures PrefixReserved(aliases) ==> State(aliases, t) && forall x :: x in aliases ==> Handled(aliases, t, x)
  {
  }

  lemma NormalizedIs(t: Table, u: Table)
    requires u.Keys == t.Keys && forall name :: name in t ==> u[name] == Normalize(t[name])
    ensures u == Normalized(t)
  {
  }

  lemma NormalizedAlong(aliases: Table, t: Table)
    requires PrefixReserved(aliases) && State(aliases, t)
    ensures Along(aliases, Normalized(t)) && PrefixReserved(Normalized(t)) && t.Keys == aliases.Keys
  {
    NormalizedMeant(t);
    MeantAlong(t, Normalized(t));
    AlongTrans(aliases, t, Normalized(t));
    PrefixAlong(aliases, Normalized(t));
  }

  lemma Fixpoint(aliases: Table, t: Table, passes: nat)
    requires Shortened(aliases, t, passes) && forall x :: x in t ==> !Assigns(t, x)
    ensures Exhausted(aliases, t)
  {
    forall x | Live(t, x) ensures Still(aliases, t[x][0]) {
      NoMoveLeft(aliases, t, x, passes);
    }
  }

  // ----- Which tables these are

  /** A table whose cycles are aliases for themselves, and so one without cycles, is calm and untangled. */
  lemma SelfAliasesOnly(aliases: Table)
    requires PrefixReserved(aliases) && forall x :: OnCycle(aliases, x) ==> Target(aliases, x) == [x]
    ensures Calm(aliases) && Untangled(aliases)
  {
  }

  lemma AcyclicIsFine(aliases: Table)
    requires PrefixReserved(aliases) && !HasCycle(FirstSegments(aliases))
    ensures Calm(aliases) && Untangled(aliases)
  {
    forall x ensures !OnCycle(aliases, x) {
      OnCycleIff(aliases, x);
    }
    SelfAliasesOnly(aliases);
  }

}
