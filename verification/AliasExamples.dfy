/** Alias tables on which resolution does not end, or on which the expanded table resolves differently. */
module AliasExamples {
  import opened Aliases
  import opened AliasExpansion

  // ----- Resolution that does not end

  function SelfRooted(): Table {
    map["Foo" := ["Foo", "Foo"]]
  }

  lemma {:induction false} SelfRootedRound(n: nat)
    ensures var m := PlainRounds(SelfRooted(), ["Foo"], n);
            |m| == n + 1 && m[0] == "Foo"
  {
    if n > 0 {
      SelfRootedRound(n - 1);
    }
  }

  /** `Foo -> Foo.Foo`: every round adds a segment. */
  lemma SelfRootedGrows()
    ensures PrefixReserved(SelfRooted()) && !Ends(SelfRooted(), ["Foo"])
  {
    assert Normalize(["Foo", "Foo"]) == ["Foo", "Foo"] && Normalize(["Foo"]) == ["Foo"];
    hide PlainRounds, Normalize;
    forall k: nat ensures !Stops(SelfRooted(), ["Foo"], k) {
      SelfRootedRound(k);
      forall j: nat | j < k
        ensures PlainRounds(SelfRooted(), ["Foo"], j) != PlainRounds(SelfRooted(), ["Foo"], k)
      {
        SelfRootedRound(j);
      }
    }
  }

  function BarePrefix(): Table {
    map["Foo" := [PREFIX], "A" := ["Foo", "A", "A"]]
  }

  function As(k: nat): seq<string> {
    seq(k, i => "A")
  }

  lemma AsGrow(k: nat)
    ensures k > 0 ==> As(k)[0] == "A" && As(k)[1..] == As(k - 1)
    ensures ["Foo", "A", "A"] + As(k) == ["Foo"] + As(k + 2)
    ensures Normalize([PREFIX] + As(k + 1)) == As(k + 1)
  {
    assert ([PREFIX] + As(k + 1))[1..] == As(k + 1);
  }

  lemma {:induction false} BarePrefixRounds(k: nat)
    ensures PlainRounds(BarePrefix(), ["A"], 2 * k) == As(k + 1)
    ensures PlainRounds(BarePrefix(), ["A"], 2 * k + 1) == ["Foo"] + As(k + 2)
  {
    hide PlainRounds, Normalize;
    if k == 0 {
      NoPlainRound(BarePrefix(), ["A"]);
      assert As(1) == ["A"];
    } else {
      BarePrefixRounds(k - 1);
      NextPlainRound(BarePrefix(), ["A"], 2 * k - 1);
      assert (["Foo"] + As(k + 1))[1..] == As(k + 1);
      AsGrow(k);
    }
    NextPlainRound(BarePrefix(), ["A"], 2 * k);
    AsGrow(k + 1);
    AsGrow(k);
    UnprefixedFoo(As(k + 2));
  }

  lemma UnprefixedFoo(s: seq<string>)
    ensures Normalize(["Foo"] + s) == ["Foo"] + s
  {
  }

  /** `Foo -> Elixir`, `A -> Foo.A.A`: no cycle of first segments, and still every second round adds a segment. */
  lemma BarePrefixGrows()
    ensures !PrefixReserved(BarePrefix()) && Calm(BarePrefix()) && !Ends(BarePrefix(), ["A"])
  {
    BarePrefixCalm();
    assert Normalize(["A"]) == ["A"] && Normalize(BarePrefix()["Foo"]) == [PREFIX];
    hide PlainRounds, Normalize, Calm;
    forall k: nat ensures !Stops(BarePrefix(), ["A"], k) {
      BarePrefixRounds(k / 2);
      forall j: nat | j < k
        ensures PlainRounds(BarePrefix(), ["A"], j) != PlainRounds(BarePrefix(), ["A"], k)
      {
        BarePrefixRounds(j / 2);
      }
    }
  }

  lemma BarePrefixCalm()
    ensures Calm(BarePrefix())
  {
    var t := BarePrefix();
    assert Target(t, "Foo") == [PREFIX] && Target(t, "A") == ["Foo", "A", "A"];
    forall x ensures !OnCycle(t, x) {
      forall k: nat | k > 0 && x in t ensures First(t, x, k) != x {
        assert x == "A" ==> First(t, x, k) == First(t, "Foo", k - 1);
        assert k > 1 ==> First(t, "Foo", k - 1) == First(t, PREFIX, k - 2);
      }
    }
  }

  // ----- Expansion that changes a module

  function Pair(): Table {
    map["A" := ["B"], "B" := ["A"]]
  }

  function PairExpanded(): Table {
    map["A" := ["A"], "B" := ["A"]]
  }

  lemma PairEntangled()
    ensures PrefixReserved(Pair()) && Calm(Pair()) && !Untangled(Pair())
  {
    var t := Pair();
    assert Normalize(["A"]) == ["A"] && Normalize(["B"]) == ["B"];
    assert Target(t, "A") == ["B"] && Target(t, "B") == ["A"];
    assert First(t, "B", 2) == First(t, "A", 1) == First(t, "B", 0) == "B";
  }

  lemma PairTurns()
    ensures PairExpanded() == Turn(Pair(), "A")
    ensures Turn(PairExpanded(), "A") == PairExpanded() && Turn(PairExpanded(), "B") == PairExpanded()
    ensures Normalized(PairExpanded()) == PairExpanded()
  {
    assert Normalize(["A"]) == ["A"];
    assert ["A"] + ["B"][1..] == ["A"];
  }

  /** Two aliases for each other: every resolution ends, but the first assignment of a pass makes one of them
      stand for itself, and the other one changes its module. */
  lemma EntangledPair()
    ensures var t, u := Pair(), PairExpanded();
            && PrefixReserved(t) && Calm(t) && !Untangled(t)
            && u == Turn(t, "A") && Turn(u, "A") == u && Turn(u, "B") == u && Normalized(u) == u
            && EndsAt(t, ["B"], ["B"]) && EndsAt(u, ["B"], ["A"])
  {
    PairEntangled();
    PairTurns();
    PairRounds(Pair(), PairExpanded());
    assert Normalize(["B"]) == ["B"];
    hide PlainRounds, PrefixReserved, Calm, Untangled, Turn, Normalized, Normalize;
    assert StopsFirst(Pair(), ["B"], 2) && StopsFirst(PairExpanded(), ["B"], 2);
  }

  lemma PairRounds(t: Table, u: Table)
    requires t == map["A" := ["B"], "B" := ["A"]] && u == map["A" := ["A"], "B" := ["A"]]
    ensures PlainRounds(t, ["B"], 0) == ["B"] && PlainRounds(t, ["B"], 1) == ["A"] && PlainRounds(t, ["B"], 2) == ["B"]
    ensures PlainRounds(u, ["B"], 0) == ["B"] && PlainRounds(u, ["B"], 1) == ["A"] && PlainRounds(u, ["B"], 2) == ["A"]
  {
    hide PlainRounds;
    NoPlainRound(t, ["B"]);
    NoPlainRound(u, ["B"]);
    NextPlainRound(t, ["B"], 0);
    NextPlainRound(u, ["B"], 0);
    NextPlainRound(t, ["B"], 1);
    NextPlainRound(u, ["B"], 1);
  }

  function PrefixAlias(): Table {
    map[PREFIX := ["X"], "Foo" := [PREFIX, "Bar"]]
  }

  function PrefixAliasExpanded(): Table {
    map[PREFIX := ["X"], "Foo" := ["X", "Bar"]]
  }

  lemma PrefixAliasTurns()
    ensures PrefixAliasExpanded() == Turn(PrefixAlias(), "Foo")
    ensures Turn(PrefixAliasExpanded(), "Foo") == PrefixAliasExpanded()
    ensures Turn(PrefixAliasExpanded(), PREFIX) == PrefixAliasExpanded()
    ensures Normalized(PrefixAliasExpanded()) == PrefixAliasExpanded()
  {
    assert [PREFIX, "Bar"][1..] == ["Bar"] && ["X"] + ["Bar"] == ["X", "Bar"];
    assert Normalize(["X"]) == ["X"] && Normalize(["X", "Bar"]) == ["X", "Bar"];
  }

  lemma PrefixAliasRounds()
    ensures PlainRounds(PrefixAlias(), ["Foo"], 0) == ["Foo"] == PlainRounds(PrefixAliasExpanded(), ["Foo"], 0)
    ensures PlainRounds(PrefixAlias(), ["Foo"], 1) == ["Bar"]
    ensures PlainRounds(PrefixAliasExpanded(), ["Foo"], 1) == ["X", "Bar"]
  {
    hide PlainRounds;
    NoPlainRound(PrefixAlias(), ["Foo"]);
    NoPlainRound(PrefixAliasExpanded(), ["Foo"]);
    NextPlainRound(PrefixAlias(), ["Foo"], 0);
    NextPlainRound(PrefixAliasExpanded(), ["Foo"], 0);
    assert [PREFIX, "Bar"][1..] == ["Bar"] && Normalize(["Bar"]) == ["Bar"];
    assert Normalize([PREFIX, "Bar"]) == ["Bar"] && Normalize(["X", "Bar"]) == ["X", "Bar"];
  }

  /** An alias named `Elixir` is followed by a pass over the table but not by resolution, which drops it. */
  lemma PrefixAliasDiffers()
    ensures var t, u := PrefixAlias(), PrefixAliasExpanded();
            && u == Turn(t, "Foo") && Turn(u, "Foo") == u && Turn(u, PREFIX) == u && Normalized(u) == u
            && EndsAt(t, ["Foo"], ["Bar"]) && EndsAt(u, ["Foo"], ["X", "Bar"])
  {
    PrefixAliasTurns();
    PrefixAliasRounds();
    assert Normalize(["Foo"]) == ["Foo"];
    hide PlainRounds, Turn, Normalized, Normalize;
    assert StopsFirst(PrefixAlias(), ["Foo"], 1) && StopsFirst(PrefixAliasExpanded(), ["Foo"], 1);
  }
}
