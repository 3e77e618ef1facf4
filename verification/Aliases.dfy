/** The resolution of a module reference through a file's alias table. Dotted module names are lists of
    segments. */
module Aliases {
  import opened Graphs
  import opened Ordering

  type Name = m: seq<string> | |m| > 0 witness [""]
  type Table = map<string, Name>

  const PREFIX := "Elixir"

  /** `normalize_module_name`: drops leading `Elixir.` segments. */
  function Normalize(m: Name): Name {
    if |m| > 1 && m[0] == PREFIX then Normalize(m[1..]) else m
  }

  /** The prefix itself is neither an alias nor the whole target of one. */
  predicate PrefixReserved(aliases: Table) {
    PREFIX !in aliases && forall name :: name in aliases ==> Normalize(aliases[name]) != [PREFIX]
  }

  lemma {:induction false} NormalizeExtend(m: Name, suffix: seq<string>)
    requires Normalize(m) != [PREFIX]
    ensures Normalize(m + suffix) == Normalize(m) + suffix
    ensures Normalize(m)[0] != PREFIX
  {
    if |m| > 1 && m[0] == PREFIX {
      assert (m + suffix)[1..] == m[1..] + suffix;
      NormalizeExtend(m[1..], suffix);
    }
  }

  /** The prefix goes away as often as it leads, except where it is all there is. */
  lemma {:induction false} NormalizeIff(m: Name, r: Name)
    ensures Normalize(m) == r <==>
              exists k :: 0 <= k < |m| && r == m[k..] && (forall i :: 0 <= i < k ==> m[i] == "Elixir")
                          && (k == |m| - 1 || m[k] != "Elixir")
  {
    if |m| > 1 && m[0] == "Elixir" {
      NormalizeIff(m[1..], r);
      if k :| 0 <= k < |m[1..]| && r == m[1..][k..] && (forall i :: 0 <= i < k ==> m[1..][i] == "Elixir")
              && (k == |m[1..]| - 1 || m[1..][k] != "Elixir")
      {
        assert m[k + 1..] == m[1..][k..] && forall i :: 0 < i < k + 1 ==> m[i] == m[1..][i - 1];
      }
      if k :| 0 <= k < |m| && r == m[k..] && (forall i :: 0 <= i < k ==> m[i] == "Elixir")
              && (k == |m| - 1 || m[k] != "Elixir")
      {
        assert k > 0 && m[1..][k - 1..] == m[k..] && forall i :: 0 <= i < k - 1 ==> m[1..][i] == m[i + 1];
      }
    } else {
      assert m[0..] == m;
    }
  }

  lemma {:induction false} NormalizeTwice(m: Name)
    ensures Normalize(Normalize(m)) == Normalize(m)
  {
    if |m| > 1 && m[0] == PREFIX {
      NormalizeTwice(m[1..]);
    }
  }

  // ----- The rounds of `resolve_module_reference`

  /** The first segment, if it is an alias, is replaced by what is written for it. */
  function Expand(aliases: Table, m: Name): Name {
    if m[0] in aliases then aliases[m[0]] + m[1..] else m
  }

  /** The reference after `k` rounds. */
  function PlainRounds(aliases: Table, m: Name, k: nat): Name {
    if k == 0 then m else Normalize(Expand(aliases, PlainRounds(aliases, m, k - 1)))
  }

  /** Resolution stops at the round `k`: no alias is left, or the name was there before. */
  ghost predicate Stops(aliases: Table, m: Name, k: nat) {
    || PlainRounds(aliases, Normalize(m), k)[0] !in aliases
    || exists j: nat :: j < k && PlainRounds(aliases, Normalize(m), j) == PlainRounds(aliases, Normalize(m), k)
  }

  ghost predicate StopsFirst(aliases: Table, m: Name, k: nat) {
    Stops(aliases, m, k) && forall j: nat :: j < k ==> !Stops(aliases, m, j)
  }

  ghost predicate Ends(aliases: Table, m: Name) {
    exists k: nat :: Stops(aliases, m, k)
  }

  /** The resolution of the reference `m` ends at `r`. */
  ghost predicate EndsAt(aliases: Table, m: Name, r: Name) {
    exists k: nat :: StopsFirst(aliases, m, k) && r == PlainRounds(aliases, Normalize(m), k)
  }

  lemma {:induction false} SomeStopsFirst(aliases: Table, m: Name, k: nat)
    requires Stops(aliases, m, k)
    ensures exists e: nat :: StopsFirst(aliases, m, e)
    decreases k
  {
    if j: nat :| j < k && Stops(aliases, m, j) {
      SomeStopsFirst(aliases, m, j);
    } else {
      assert StopsFirst(aliases, m, k);
    }
  }

  /** `resolve_module_reference`, on any table on which it ends. */
  method ResolveModuleReference(m: Name, aliases: Table) returns (resolved: Name)
    requires Ends(aliases, m)
    ensures EndsAt(aliases, m, resolved)
  {
    hide Normalize, PlainRounds;
    ghost var last: nat :| Stops(aliases, m, last);
    ghost var start := Normalize(m);
    resolved := Normalize(m);
    var seen: set<Name> := {};
    ghost var i: nat := 0;
    NoPlainRound(aliases, start);
    while resolved !in seen
      invariant i <= last && resolved == PlainRounds(aliases, start, i)
      invariant forall n :: n in seen <==> exists j: nat :: j < i && n == PlainRounds(aliases, start, j)
      invariant forall j: nat :: j < i ==> !Stops(aliases, m, j)
      decreases last - i
    {
      seen := seen + {resolved};
      if resolved[0] !in aliases {
        assert StopsFirst(aliases, m, i);
        return;
      }
      assert !Stops(aliases, m, i);
      NextPlainRound(aliases, start, i);
      resolved := Normalize(Expand(aliases, resolved));
      i := i + 1;
    }
    assert StopsFirst(aliases, m, i);
  }

  lemma NoPlainRound(aliases: Table, n: Name)
    ensures PlainRounds(aliases, n, 0) == n
  {
  }

  lemma NextPlainRound(aliases: Table, n: Name, k: nat)
    ensures PlainRounds(aliases, n, k + 1) == Normalize(Expand(aliases, PlainRounds(aliases, n, k)))
  {
  }

  // ----- Following aliases

  function Target(aliases: Table, x: string): Name
    requires x in aliases
  {
    Normalize(aliases[x])
  }

  /** One round: the first segment of a name is replaced by its target. */
  function Next(aliases: Table, n: Name): Name {
    if n[0] in aliases then Target(aliases, n[0]) + n[1..] else n
  }

  function Rounds(aliases: Table, n: Name, k: nat): Name
    decreases k
  {
    if k == 0 then n else Rounds(aliases, Next(aliases, n), k - 1)
  }

  /** The first segment after `k` rounds. */
  function First(aliases: Table, x: string, k: nat): string
    decreases k
  {
    if k == 0 || x !in aliases then x else First(aliases, Target(aliases, x)[0], k - 1)
  }

  /** The graph of first segments: an alias leads to the first segment of its target. */
  function FirstSegments(aliases: Table): Graph {
    map name | name in aliases :: {Target(aliases, name)[0]}
  }

  lemma {:induction false} RoundsAdd(aliases: Table, n: Name, j: nat, k: nat)
    ensures Rounds(aliases, n, j + k) == Rounds(aliases, Rounds(aliases, n, j), k)
    decreases j
  {
    if j > 0 {
      RoundsAdd(aliases, Next(aliases, n), j - 1, k);
    }
  }

  lemma {:induction false} FirstAdd(aliases: Table, x: string, j: nat, k: nat)
    ensures First(aliases, x, j + k) == First(aliases, First(aliases, x, j), k)
    decreases j
  {
    if j > 0 && x in aliases {
      FirstAdd(aliases, Target(aliases, x)[0], j - 1, k);
    }
  }

  lemma {:induction false} RoundsFirst(aliases: Table, n: Name, k: nat)
    ensures Rounds(aliases, n, k)[0] == First(aliases, n[0], k)
    ensures |Rounds(aliases, n, k)| >= |n|
    decreases k
  {
    if k > 0 {
      RoundsFirst(aliases, Next(aliases, n), k - 1);
    }
  }

  lemma OneRound(aliases: Table, n: Name)
    ensures Rounds(aliases, n, 1) == Next(aliases, n)
  {
    assert Rounds(aliases, Next(aliases, n), 0) == Next(aliases, n);
  }

  /** On a table that reserves the prefix, expanding and normalizing is one round. */
  lemma RoundIs(aliases: Table, n: Name)
    requires PrefixReserved(aliases) && n[0] in aliases
    ensures Normalize(Expand(aliases, n)) == Next(aliases, n)
  {
    NormalizeExtend(aliases[n[0]], n[1..]);
  }

  /** Where the prefix is reserved, the rounds of the resolution follow normalized targets. */
  lemma {:induction false} PlainIsRounds(aliases: Table, n: Name, k: nat)
    requires PrefixReserved(aliases) && Normalize(n) == n
    ensures PlainRounds(aliases, n, k) == Rounds(aliases, n, k)
    ensures Normalize(PlainRounds(aliases, n, k)) == PlainRounds(aliases, n, k)
    decreases k
  {
    if k > 0 {
      PlainIsRounds(aliases, n, k - 1);
      var p := PlainRounds(aliases, n, k - 1);
      RoundsAdd(aliases, n, k - 1, 1);
      OneRound(aliases, p);
      if p[0] in aliases {
        RoundIs(aliases, p);
      }
      NormalizeTwice(Expand(aliases, p));
    }
  }

  lemma {:induction false} RoundsSuffix(aliases: Table, n: Name, s: seq<string>, k: nat)
    ensures Rounds(aliases, n + s, k) == Rounds(aliases, n, k) + s
    decreases k
  {
    if k > 0 {
      assert (n + s)[1..] == n[1..] + s;
      assert Next(aliases, n + s) == Next(aliases, n) + s;
      RoundsSuffix(aliases, Next(aliases, n), s, k - 1);
    }
  }

  // ----- Cycles of first segments

  ghost predicate OnCycle(aliases: Table, x: string) {
    x in aliases && exists k: nat :: k > 0 && First(aliases, x, k) == x
  }

  lemma {:induction false} Laps(aliases: Table, x: string, c: nat, t: nat)
    requires First(aliases, x, c) == x
    ensures First(aliases, x, c * t) == x
    decreases t
  {
    if t > 0 {
      Laps(aliases, x, c, t - 1);
      assert c * t == c + c * (t - 1);
      FirstAdd(aliases, x, c, c * (t - 1));
    }
  }

  lemma {:induction false} LapsReach(c: nat, k: nat)
    requires c > 0
    ensures c * (k + 1) >= k
  {
    if k > 0 {
      LapsReach(c, k - 1);
    }
  }

  /** Whoever is on a cycle stays on it, with the same period. */
  lemma CycleStays(aliases: Table, x: string, c: nat, k: nat)
    requires x in aliases && c > 0 && First(aliases, x, c) == x
    ensures var y := First(aliases, x, k); OnCycle(aliases, y) && First(aliases, y, c) == y
  {
    var y := First(aliases, x, k);
    FirstAdd(aliases, x, k, c);
    FirstAdd(aliases, x, c, k);
    Laps(aliases, x, c, k + 1);
    LapsReach(c, k);
    FirstAdd(aliases, x, k, c * (k + 1) - k);
    assert y !in aliases ==> y == x;
  }

  lemma OnCycleStays(aliases: Table, x: string, k: nat)
    requires OnCycle(aliases, x)
    ensures OnCycle(aliases, First(aliases, x, k))
  {
    var c: nat :| c > 0 && First(aliases, x, c) == x;
    CycleStays(aliases, x, c, k);
  }

  /** On cycles the first segment of the target determines the alias. */
  lemma CycleInjective(aliases: Table, u: string, v: string)
    requires OnCycle(aliases, u) && OnCycle(aliases, v)
    requires Target(aliases, u)[0] == Target(aliases, v)[0]
    ensures u == v
  {
    var a: nat :| a > 0 && First(aliases, u, a) == u;
    var b: nat :| b > 0 && First(aliases, v, b) == v;
    Laps(aliases, u, a, b);
    Laps(aliases, v, b, a);
    assert a * b == b * a && a * b > 0;
    FirstAdd(aliases, u, 1, a * b - 1);
    FirstAdd(aliases, v, 1, a * b - 1);
    assert First(aliases, u, 1) == Target(aliases, u)[0] && First(aliases, v, 1) == Target(aliases, v)[0];
  }

  /** The cycles are those of the graph of first segments. */
  lemma OnCycleIff(aliases: Table, x: string)
    ensures OnCycle(aliases, x) <==> exists p :: ClosedWalk(FirstSegments(aliases), p) && p[0] == x
  {
    var g := FirstSegments(aliases);
    if OnCycle(aliases, x) {
      var c: nat :| c > 0 && First(aliases, x, c) == x;
      forall i: nat | i < c ensures First(aliases, x, i) in aliases {
        CycleStays(aliases, x, c, i);
      }
      var p := FirstWalk(aliases, x, c);
      assert ClosedWalk(g, p);
    }
    if p :| ClosedWalk(g, p) && p[0] == x {
      WalkFirst(aliases, p);
      assert Edge(g, p[0], p[1]);
      assert First(aliases, x, |p| - 1) == x;
    }
  }

  lemma {:induction false} FirstWalk(aliases: Table, x: string, k: nat) returns (p: seq<string>)
    requires forall i: nat :: i < k ==> First(aliases, x, i) in aliases
    ensures WalkFromTo(FirstSegments(aliases), p, x, First(aliases, x, k)) && |p| == k + 1
    decreases k
  {
    if k == 0 {
      p := [x];
    } else {
      assert First(aliases, x, 0) in aliases;
      var y := Target(aliases, x)[0];
      forall i: nat | i < k - 1 ensures First(aliases, y, i) in aliases {
        assert First(aliases, x, i + 1) in aliases;
      }
      var q := FirstWalk(aliases, y, k - 1);
      p := [x] + q;
      assert p[1..] == q;
    }
  }

  lemma {:induction false} WalkFirst(aliases: Table, p: seq<string>)
    requires Walk(FirstSegments(aliases), p)
    ensures First(aliases, p[0], |p| - 1) == p[|p| - 1]
  {
    if |p| > 1 {
      assert Edge(FirstSegments(aliases), p[0], p[1]);
      WalkFirst(aliases, p[1..]);
    }
  }

  // ----- Where following aliases leads

  /** Nothing is left to follow, or following comes back. */
  ghost predicate Terminal(aliases: Table, x: string) {
    x !in aliases || OnCycle(aliases, x)
  }

  ghost predicate IsDepth(aliases: Table, x: string, d: nat) {
    Terminal(aliases, First(aliases, x, d)) && forall i: nat :: i < d ==> !Terminal(aliases, First(aliases, x, i))
  }

  lemma SomeTerminal(aliases: Table, x: string)
    ensures exists d: nat :: d <= |aliases| && Terminal(aliases, First(aliases, x, d))
  {
    if forall i: nat :: i <= |aliases| ==> First(aliases, x, i) in aliases {
      var xs := seq(|aliases| + 1, i requires 0 <= i <= |aliases| => First(aliases, x, i));
      assert Elements(xs) <= aliases.Keys;
      SubsetSize(Elements(xs), aliases.Keys);
      DistinctCardinality(xs);
      var i, j :| 0 <= i < j < |xs| && xs[i] == xs[j];
      FirstAdd(aliases, x, i, j - i);
      assert First(aliases, First(aliases, x, i), j - i) == First(aliases, x, i);
    }
  }

  lemma {:induction false} SubsetSize<T>(a: set<T>, b: set<T>)
    requires a <= b
    ensures |a| <= |b|
  {
    if a != {} {
      var x :| x in a;
      SubsetSize(a - {x}, b - {x});
    }
  }

  lemma {:induction false} LeastTerminal(aliases: Table, x: string, d: nat)
    requires Terminal(aliases, First(aliases, x, d))
    ensures exists e: nat :: e <= d && IsDepth(aliases, x, e)
    decreases d
  {
    if i: nat :| i < d && Terminal(aliases, First(aliases, x, i)) {
      LeastTerminal(aliases, x, i);
    } else {
      assert IsDepth(aliases, x, d);
    }
  }

  /** The number of rounds after which nothing is left to follow or a cycle is reached. */
  ghost function Depth(aliases: Table, x: string): (d: nat)
    ensures IsDepth(aliases, x, d) && d <= |aliases|
  {
    SomeTerminal(aliases, x);
    var t: nat :| t <= |aliases| && Terminal(aliases, First(aliases, x, t));
    LeastTerminal(aliases, x, t);
    var d: nat :| d <= t && IsDepth(aliases, x, d);
    d
  }

  /** The module that a name stands for: aliases followed until the first segment is no alias or lies on a
      cycle. */
  ghost function Meaning(aliases: Table, n: Name): Name {
    Rounds(aliases, n, Depth(aliases, n[0]))
  }

  lemma DepthIs(aliases: Table, x: string, d: nat)
    requires IsDepth(aliases, x, d)
    ensures Depth(aliases, x) == d
  {
    var e := Depth(aliases, x);
    assert Terminal(aliases, First(aliases, x, d)) && Terminal(aliases, First(aliases, x, e));
  }

  lemma DepthLater(aliases: Table, x: string, k: nat)
    requires k <= Depth(aliases, x)
    ensures Depth(aliases, First(aliases, x, k)) == Depth(aliases, x) - k
  {
    var d, y := Depth(aliases, x), First(aliases, x, k);
    FirstAdd(aliases, x, k, d - k);
    forall i: nat | i < d - k ensures !Terminal(aliases, First(aliases, y, i)) {
      FirstAdd(aliases, x, k, i);
    }
    DepthIs(aliases, y, d - k);
  }

  /** Up to its depth, following a name keeps what it stands for. */
  lemma MeaningLater(aliases: Table, n: Name, k: nat)
    requires k <= Depth(aliases, n[0])
    ensures Meaning(aliases, Rounds(aliases, n, k)) == Meaning(aliases, n)
    ensures Depth(aliases, Rounds(aliases, n, k)[0]) == Depth(aliases, n[0]) - k
  {
    RoundsFirst(aliases, n, k);
    DepthLater(aliases, n[0], k);
    RoundsAdd(aliases, n, k, Depth(aliases, n[0]) - k);
  }

  // ----- When resolution ends

  /** From this alias on, no target on a cycle has more than one segment. */
  ghost predicate CalmFrom(aliases: Table, x: string) {
    forall k: nat :: OnCycle(aliases, First(aliases, x, k)) ==> |Target(aliases, First(aliases, x, k))| == 1
  }

  /** No target on a cycle of first segments has more than one segment. */
  ghost predicate Calm(aliases: Table) {
    forall x :: OnCycle(aliases, x) ==> |Target(aliases, x)| == 1
  }

  /** Following stops at the round `k`. */
  ghost predicate Halts(aliases: Table, n: Name, k: nat) {
    || Rounds(aliases, n, k)[0] !in aliases
    || exists j: nat :: j < k && Rounds(aliases, n, j) == Rounds(aliases, n, k)
  }

  lemma StopsIff(aliases: Table, m: Name, k: nat)
    requires PrefixReserved(aliases)
    ensures Stops(aliases, m, k) <==> Halts(aliases, Normalize(m), k)
  {
    hide Normalize, PlainRounds, Rounds, PrefixReserved;
    NormalizeTwice(m);
    forall j: nat ensures PlainRounds(aliases, Normalize(m), j) == Rounds(aliases, Normalize(m), j) {
      PlainIsRounds(aliases, Normalize(m), j);
    }
  }

  lemma CalmLater(aliases: Table, x: string, k: nat)
    requires CalmFrom(aliases, x)
    ensures CalmFrom(aliases, First(aliases, x, k))
  {
    forall i: nat | OnCycle(aliases, First(aliases, First(aliases, x, k), i))
      ensures |Target(aliases, First(aliases, First(aliases, x, k), i))| == 1
    {
      FirstAdd(aliases, x, k, i);
    }
  }

  /** On a calm cycle only the first segment changes. */
  lemma {:induction false} CalmCycle(aliases: Table, n: Name, k: nat)
    requires CalmFrom(aliases, n[0]) && OnCycle(aliases, n[0])
    ensures Rounds(aliases, n, k) == [First(aliases, n[0], k)] + n[1..]
    decreases k
  {
    if k > 0 {
      assert |Target(aliases, First(aliases, n[0], 0))| == 1;
      assert First(aliases, n[0], 1) == Target(aliases, n[0])[0];
      OnCycleStays(aliases, n[0], 1);
      CalmLater(aliases, n[0], 1);
      assert Next(aliases, n)[1..] == n[1..];
      CalmCycle(aliases, Next(aliases, n), k - 1);
    }
  }

  lemma HaltsWhenCalm(aliases: Table, n: Name) returns (k: nat)
    requires CalmFrom(aliases, n[0])
    ensures Halts(aliases, n, k)
  {
    var d := Depth(aliases, n[0]);
    RoundsFirst(aliases, n, d);
    k := d;
    var end := Rounds(aliases, n, d);
    if end[0] in aliases {
      var c: nat :| c > 0 && First(aliases, end[0], c) == end[0];
      CalmLater(aliases, n[0], d);
      CalmCycle(aliases, end, c);
      RoundsAdd(aliases, n, d, c);
      k := d + c;
    }
  }

  lemma {:induction false} RepeatAgain(aliases: Table, n: Name, j: nat, d: nat, t: nat)
    requires Rounds(aliases, n, j + d) == Rounds(aliases, n, j)
    ensures Rounds(aliases, n, j + d * t) == Rounds(aliases, n, j)
    decreases t
  {
    if t > 0 {
      RepeatAgain(aliases, n, j, d, t - 1);
      assert j + d * t == (j + d) + d * (t - 1);
      RoundsAdd(aliases, n, j + d, d * (t - 1));
      RoundsAdd(aliases, n, j, d * (t - 1));
    }
  }

  lemma RoundsLonger(aliases: Table, n: Name, j: nat, k: nat)
    requires j <= k
    ensures |Rounds(aliases, n, j)| <= |Rounds(aliases, n, k)|
  {
    RoundsAdd(aliases, n, j, k - j);
    RoundsFirst(aliases, Rounds(aliases, n, j), k - j);
  }

  /** A round at an alias with a long target makes the name longer. */
  lemma RoundGrows(aliases: Table, n: Name, u: nat)
    requires var x := First(aliases, n[0], u); x in aliases && |Target(aliases, x)| > 1
    ensures |Rounds(aliases, n, u + 1)| > |Rounds(aliases, n, u)|
  {
    RoundsFirst(aliases, n, u);
    RoundsAdd(aliases, n, u, 1);
    assert Rounds(aliases, Rounds(aliases, n, u), 1) == Next(aliases, Rounds(aliases, n, u));
  }

  lemma NeverRepeats(aliases: Table, n: Name, a: nat, c: nat, j: nat, d: nat)
    requires var y := First(aliases, n[0], a); y in aliases && |Target(aliases, y)| > 1 && First(aliases, y, c) == y
    requires c > 0 && d > 0
    ensures Rounds(aliases, n, j + d) != Rounds(aliases, n, j)
  {
    hide Rounds;
    var u := a + c * j;
    Laps(aliases, First(aliases, n[0], a), c, j);
    FirstAdd(aliases, n[0], a, c * j);
    assert c * j >= j && d * (u + 1) >= u + 1;
    RoundGrows(aliases, n, u);
    RoundsLonger(aliases, n, j, u);
    RoundsLonger(aliases, n, u + 1, j + d * (u + 1));
    if Rounds(aliases, n, j + d) == Rounds(aliases, n, j) {
      RepeatAgain(aliases, n, j, d, u + 1);
    }
  }

  /** A cycle with a long target makes the name grow for ever, so no name comes back. */
  lemma NeverHalts(aliases: Table, n: Name, a: nat, k: nat)
    requires var y := First(aliases, n[0], a); OnCycle(aliases, y) && |Target(aliases, y)| > 1
    ensures !Halts(aliases, n, k)
  {
    hide Rounds;
    var y := First(aliases, n[0], a);
    var c: nat :| c > 0 && First(aliases, y, c) == y;
    RoundsFirst(aliases, n, k);
    if k < a {
      FirstAdd(aliases, n[0], k, a - k);
    } else {
      CycleStays(aliases, y, c, k - a);
      FirstAdd(aliases, n[0], a, k - a);
    }
    forall j: nat | j < k ensures Rounds(aliases, n, j) != Rounds(aliases, n, k) {
      NeverRepeats(aliases, n, a, c, j, k - j);
    }
  }

  /** Resolving a reference ends if and only if no target on the cycle it leads to has more than one segment. */
  lemma EndsIff(aliases: Table, m: Name)
    requires PrefixReserved(aliases)
    ensures Ends(aliases, m) <==> CalmFrom(aliases, Normalize(m)[0])
  {
    hide Stops, Halts, Normalize, PrefixReserved;
    var n := Normalize(m);
    if CalmFrom(aliases, n[0]) {
      var k := HaltsWhenCalm(aliases, n);
      StopsIff(aliases, m, k);
    } else {
      var a: nat :| OnCycle(aliases, First(aliases, n[0], a)) && |Target(aliases, First(aliases, n[0], a))| != 1;
      forall k: nat ensures !Stops(aliases, m, k) {
        NeverHalts(aliases, n, a, k);
        StopsIff(aliases, m, k);
      }
    }
  }

  /** Resolving ends for every reference if and only if every alias on a cycle of first segments has a target
      of one segment. */
  lemma AllEndIff(aliases: Table)
    requires PrefixReserved(aliases)
    ensures (forall m :: Ends(aliases, m)) <==> Calm(aliases)
  {
    hide Ends, PrefixReserved;
    if Calm(aliases) {
      forall m ensures Ends(aliases, m) {
        EndsIff(aliases, m);
      }
    }
    if forall m :: Ends(aliases, m) {
      forall x | OnCycle(aliases, x) ensures |Target(aliases, x)| == 1 {
        EndsIff(aliases, [x]);
        assert Ends(aliases, [x]) && Normalize([x]) == [x];
        assert First(aliases, x, 0) == x;
      }
    }
  }

  /** The first name that comes back is the one at which the cycle was entered. */
  lemma RepeatIsMeaning(aliases: Table, n: Name, j: nat, i: nat)
    requires CalmFrom(aliases, n[0]) && j < i && Rounds(aliases, n, j) == Rounds(aliases, n, i)
    requires forall l: nat :: l < i ==> Rounds(aliases, n, l)[0] in aliases
    requires forall a: nat, b: nat :: a < b < i ==> Rounds(aliases, n, a) != Rounds(aliases, n, b)
    ensures Rounds(aliases, n, i) == Meaning(aliases, n)
  {
    hide Rounds, First, CalmFrom;
    var x, d := n[0], Depth(aliases, n[0]);
    RoundsFirst(aliases, n, j);
    RoundsFirst(aliases, n, i);
    FirstAdd(aliases, x, j, i - j);
    var y := First(aliases, x, j);
    assert y in aliases && First(aliases, y, i - j) == y;
    assert OnCycle(aliases, y);
    assert d <= j;
    if d < j {
      RoundsFirst(aliases, n, d);
      CycleTails(aliases, n, j - 1, i - 1);
    }
  }

  /** Two rounds after the cycle was entered that lead to the same first segment are at the same name. */
  lemma CycleTails(aliases: Table, n: Name, a: nat, b: nat)
    requires CalmFrom(aliases, n[0]) && Depth(aliases, n[0]) <= a && Depth(aliases, n[0]) <= b
    requires First(aliases, n[0], Depth(aliases, n[0])) in aliases
    requires First(aliases, n[0], a + 1) == First(aliases, n[0], b + 1)
    ensures Rounds(aliases, n, a) == Rounds(aliases, n, b)
  {
    var x, d := n[0], Depth(aliases, n[0]);
    var end := Rounds(aliases, n, d);
    RoundsFirst(aliases, n, d);
    CalmLater(aliases, x, d);
    CalmCycle(aliases, end, a - d);
    CalmCycle(aliases, end, b - d);
    RoundsAdd(aliases, n, d, a - d);
    RoundsAdd(aliases, n, d, b - d);
    OnCycleStays(aliases, end[0], a - d);
    OnCycleStays(aliases, end[0], b - d);
    FirstAdd(aliases, x, d, a - d);
    FirstAdd(aliases, x, d, b - d);
    FirstAdd(aliases, x, a, 1);
    FirstAdd(aliases, x, b, 1);
    var u, v := First(aliases, x, a), First(aliases, x, b);
    assert First(aliases, u, 1) == Target(aliases, u)[0] && First(aliases, v, 1) == Target(aliases, v)[0];
    CycleInjective(aliases, u, v);
  }

  /** A name that leads out of the table ends at its depth. */
  lemma ExitIsMeaning(aliases: Table, n: Name, i: nat)
    requires Rounds(aliases, n, i)[0] !in aliases
    requires forall l: nat :: l < i ==> Rounds(aliases, n, l)[0] in aliases
    ensures Rounds(aliases, n, i) == Meaning(aliases, n)
  {
    RoundsFirst(aliases, n, i);
    forall l: nat | l < i ensures !Terminal(aliases, First(aliases, n[0], l)) {
      RoundsFirst(aliases, n, l);
      FirstAdd(aliases, n[0], l, i - l);
      if OnCycle(aliases, First(aliases, n[0], l)) {
        OnCycleStays(aliases, First(aliases, n[0], l), i - l);
      }
    }
    DepthIs(aliases, n[0], i);
  }

  lemma MeaningTerminal(aliases: Table, n: Name)
    ensures Terminal(aliases, Meaning(aliases, n)[0])
  {
    RoundsFirst(aliases, n, Depth(aliases, n[0]));
  }

  lemma NotHalted(aliases: Table, n: Name, k: nat)
    requires forall j: nat :: j < k ==> !Halts(aliases, n, j)
    ensures forall l: nat :: l < k ==> Rounds(aliases, n, l)[0] in aliases
    ensures forall a: nat, b: nat :: a < b < k ==> Rounds(aliases, n, a) != Rounds(aliases, n, b)
  {
    hide Rounds;
    forall l: nat | l < k ensures Rounds(aliases, n, l)[0] in aliases {
      assert !Halts(aliases, n, l);
    }
    forall a: nat, b: nat | a < b < k ensures Rounds(aliases, n, a) != Rounds(aliases, n, b) {
      assert !Halts(aliases, n, b);
    }
  }

  /** Where the prefix is reserved, resolution ends at what the reference stands for. */
  lemma EndIsMeaning(aliases: Table, m: Name, r: Name)
    requires PrefixReserved(aliases) && EndsAt(aliases, m, r)
    ensures r == Meaning(aliases, Normalize(m)) && Terminal(aliases, r[0])
  {
    hide PlainRounds, Rounds, PrefixReserved, CalmFrom, Stops, Meaning, Terminal;
    var start := Normalize(m);
    var k: nat :| StopsFirst(aliases, m, k) && r == PlainRounds(aliases, start, k);
    NormalizeTwice(m);
    PlainIsRounds(aliases, start, k);
    StopsIff(aliases, m, k);
    forall j: nat | j < k ensures !Halts(aliases, start, j) {
      StopsIff(aliases, m, j);
    }
    NotHalted(aliases, start, k);
    if Rounds(aliases, start, k)[0] !in aliases {
      ExitIsMeaning(aliases, start, k);
    } else {
      EndsIff(aliases, m);
      var j: nat :| j < k && Rounds(aliases, start, j) == Rounds(aliases, start, k);
      RepeatIsMeaning(aliases, start, j, k);
    }
    MeaningTerminal(aliases, start);
  }

  /** If the prefix is reserved and the reference leads to a calm cycle or out of the table, its resolution
      ends at what it stands for, and nowhere else. */
  lemma EndsAtIff(aliases: Table, m: Name, r: Name)
    requires PrefixReserved(aliases) && CalmFrom(aliases, Normalize(m)[0])
    ensures EndsAt(aliases, m, r) <==> r == Meaning(aliases, Normalize(m))
  {
    hide Normalize, PlainRounds, PrefixReserved, CalmFrom, Stops, Meaning;
    EndsIff(aliases, m);
    var k: nat :| Stops(aliases, m, k);
    SomeStopsFirst(aliases, m, k);
    var e: nat :| StopsFirst(aliases, m, e);
    var found := PlainRounds(aliases, Normalize(m), e);
    assert EndsAt(aliases, m, found);
    EndIsMeaning(aliases, m, found);
    if EndsAt(aliases, m, r) {
      EndIsMeaning(aliases, m, r);
    }
  }
}
