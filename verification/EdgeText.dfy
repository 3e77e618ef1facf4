/** A cycle finding as text, and the edges that the deferral decision reads back from it. */
module EdgeText {
  import opened Cycles
  import opened Graphs
  import opened Ordering

  // ----- Reading

  predicate Letter(c: char) {
    'A' <= c <= 'Z' || 'a' <= c <= 'z'
  }

  predicate NameChar(c: char) {
    Letter(c) || '0' <= c <= '9' || c == '_' || c == '-'
  }

  /** A name that the edge pattern can match as a whole. */
  predicate Readable(name: string) {
    |name| > 0 && Letter(name[0]) && forall i :: 0 <= i < |name| ==> NameChar(name[i])
  }

  /** A readable name starts with a letter and goes on with letters, digits, underscores and dashes. */
  lemma ReadableIff(name: string)
    ensures Readable(name) <==>
              exists first: char, rest: string ::
                && name == [first] + rest && ('A' <= first <= 'Z' || 'a' <= first <= 'z')
                && forall c :: c in rest ==>
                     'A' <= c <= 'Z' || 'a' <= c <= 'z' || '0' <= c <= '9' || c in {'_', '-'}
  {
    if Readable(name) {
      assert name == [name[0]] + name[1..];
      assert forall c :: c in name[1..] ==> NameChar(c);
    }
    if first: char, rest: string :|
      && name == [first] + rest && ('A' <= first <= 'Z' || 'a' <= first <= 'z')
      && forall c :: c in rest ==> 'A' <= c <= 'Z' || 'a' <= c <= 'z' || '0' <= c <= '9' || c in {'_', '-'}
    {
      forall i | 0 <= i < |name| ensures NameChar(name[i]) {
        assert i > 0 ==> name[i] == rest[i - 1] && rest[i - 1] in rest;
      }
    }
  }

  /** The length of the run of name characters at the start. */
  function RunLength(text: string): (n: nat)
    ensures n <= |text| && (forall i :: 0 <= i < n ==> NameChar(text[i])) && (n < |text| ==> !NameChar(text[n]))
  {
    if |text| > 0 && NameChar(text[0]) then 1 + RunLength(text[1..]) else 0
  }

  /** The pairs that the edge pattern finds, from a place with no name character before it. A dash is a name
      character, so a source is a whole run but its last dash, before the tip of the arrow. */
  function ReadEdges(text: string): seq<Pair>
    decreases |text|
  {
    if |text| == 0 then []
    else if !NameChar(text[0]) then ReadEdges(text[1..])
    else
      var n := RunLength(text);
      var rest := text[n..];
      if Letter(text[0]) && n > 1 && text[n - 1] == '-' && |rest| > 1 && rest[0] == '>' && Letter(rest[1]) then
        var m := RunLength(rest[1..]);
        [(text[..n - 1], rest[1..][..m])] + ReadEdges(rest[1..][m..])
      else ReadEdges(rest)
  }

  // ----- Writing

  function Commas(items: seq<string>): string {
    if |items| == 0 then "" else if |items| == 1 then items[0] else items[0] + ", " + Commas(items[1..])
  }

  function EdgeTexts(edges: seq<Pair>): (r: seq<string>)
    ensures |r| == |edges| && forall i :: 0 <= i < |r| ==> r[i] == EdgeText(edges[i])
  {
    seq(|edges|, i requires 0 <= i < |edges| => EdgeText(edges[i]))
  }

  /** The detail of a finding. */
  function Detail(members: seq<string>, edges: seq<Pair>): string {
    "members: " + Commas(members) + "; edges: " + Commas(EdgeTexts(edges))
  }

  // ----- Reading what was written

  predicate Stops(rest: string) {
    |rest| == 0 || !NameChar(rest[0])
  }

  lemma {:induction false} RunIs(run: string, rest: string)
    requires forall i :: 0 <= i < |run| ==> NameChar(run[i])
    requires Stops(rest)
    ensures RunLength(run + rest) == |run|
  {
    if |run| > 0 {
      assert (run + rest)[1..] == run[1..] + rest;
      RunIs(run[1..], rest);
    } else {
      assert run + rest == rest;
    }
  }

  lemma SkipOne(c: char, rest: string)
    requires !NameChar(c)
    ensures ReadEdges([c] + rest) == ReadEdges(rest)
  {
    assert ([c] + rest)[1..] == rest;
  }

  /** A run that no arrow follows is skipped. */
  lemma SkipRun(run: string, rest: string)
    requires |run| > 0 && (forall i :: 0 <= i < |run| ==> NameChar(run[i]))
    requires Stops(rest) && (|rest| > 0 ==> rest[0] != '>')
    ensures ReadEdges(run + rest) == ReadEdges(rest)
  {
    RunIs(run, rest);
    assert (run + rest)[|run|..] == rest;
  }

  /** One match of the pattern. */
  lemma ArrowStep(text: string, n: nat, m: nat)
    requires n == RunLength(text) && n > 1 && Letter(text[0]) && text[n - 1] == '-'
    requires n + 1 < |text| && text[n] == '>' && Letter(text[n + 1]) && m == RunLength(text[n + 1..])
    ensures ReadEdges(text) == [(text[..n - 1], text[n + 1..][..m])] + ReadEdges(text[n + 1..][m..])
  {
    assert text[n..][1..] == text[n + 1..];
  }

  lemma Cut(text: string, x: string, y: string)
    requires text == x + y
    ensures text[..|x|] == x && text[|x|..] == y
  {
  }

  lemma ReadableChars(name: string)
    requires Readable(name)
    ensures |name| > 0 && Letter(name[0]) && RunChars(name) && RunChars(name + "-")
  {
  }

  predicate RunChars(run: string) {
    forall i :: 0 <= i < |run| ==> NameChar(run[i])
  }

  lemma RunCharsIs(run: string, rest: string)
    requires RunChars(run) && Stops(rest)
    ensures RunLength(run + rest) == |run|
  {
    hide NameChar, Stops;
    RunIs(run, rest);
  }

  lemma EdgeParts(a: string, b: string, rest: string)
    ensures EdgeText((a, b)) + rest == (a + "-") + (">" + (b + rest))
  {
    assert "->" == "-" + ">";
  }

  /** The parts of an edge text at which the pattern cuts. */
  lemma EdgeCuts(a: string, b: string, rest: string, text: string)
    requires text == (a + "-") + (">" + (b + rest)) && |a| > 0
    ensures |a| + 1 < |text| && text[0] == a[0] && text[|a|] == '-' && text[|a| + 1] == '>'
    ensures text[..|a|] == a && text[|a| + 2..] == b + rest
    ensures |b| > 0 ==> |a| + 2 < |text| && text[|a| + 2] == b[0]
  {
  }

  lemma ReadOne(edge: Pair, rest: string)
    requires Readable(edge.0) && Readable(edge.1) && Stops(rest)
    ensures ReadEdges(EdgeText(edge) + rest) == [edge] + ReadEdges(rest)
  {
    hide *;
    var (a, b) := edge;
    var text := EdgeText(edge) + rest;
    ReadableChars(a);
    ReadableChars(b);
    EdgeParts(a, b, rest);
    EdgeCuts(a, b, rest, text);
    ArrowStops(b + rest);
    RunCharsIs(a + "-", ">" + (b + rest));
    RunCharsIs(b, rest);
    ArrowStep(text, |a| + 1, |b|);
    Cut(b + rest, b, rest);
  }

  lemma ArrowStops(rest: string)
    ensures Stops(">" + rest)
  {
  }

  lemma NothingRead()
    ensures ReadEdges("") == []
  {
  }

  lemma {:induction false} ReadCommas(edges: seq<Pair>)
    requires forall e :: e in edges ==> Readable(e.0) && Readable(e.1)
    ensures ReadEdges(Commas(EdgeTexts(edges))) == edges
  {
    NothingRead();
    hide ReadEdges, EdgeText, Readable;
    if |edges| == 1 {
      ReadOne(edges[0], "");
      assert EdgeText(edges[0]) + "" == EdgeText(edges[0]);
    } else if |edges| > 1 {
      var more := Commas(EdgeTexts(edges[1..]));
      assert EdgeTexts(edges)[1..] == EdgeTexts(edges[1..]);
      assert Commas(EdgeTexts(edges)) == EdgeText(edges[0]) + (", " + more);
      ReadOne(edges[0], ", " + more);
      SkipOne(' ', more);
      assert ", " + more == [','] + ([' '] + more);
      SkipOne(',', [' '] + more);
      ReadCommas(edges[1..]);
      assert edges == [edges[0]] + edges[1..];
    }
  }

  lemma {:induction false} SkipMembers(members: seq<string>, rest: string)
    requires forall m :: m in members ==> Readable(m)
    ensures ReadEdges(Commas(members) + "; " + rest) == ReadEdges(rest)
  {
    hide ReadEdges, RunLength;
    assert "; " + rest == [';'] + ([' '] + rest);
    SkipOne(';', [' '] + rest);
    SkipOne(' ', rest);
    if |members| == 0 {
      assert Commas(members) + "; " + rest == "; " + rest;
    } else if |members| == 1 {
      assert Readable(members[0]);
      SkipRun(members[0], "; " + rest);
      assert members[0] + "; " + rest == members[0] + ("; " + rest);
    } else {
      var more := Commas(members[1..]) + "; " + rest;
      assert Commas(members) + "; " + rest == members[0] + ([','] + ([' '] + more));
      assert Readable(members[0]);
      SkipRun(members[0], [','] + ([' '] + more));
      SkipOne(',', [' '] + more);
      SkipOne(' ', more);
      SkipMembers(members[1..], rest);
    }
  }

  lemma SkipLabel(word: string, rest: string)
    requires |word| > 0 && forall i :: 0 <= i < |word| ==> NameChar(word[i])
    ensures ReadEdges(word + (": " + rest)) == ReadEdges(rest)
  {
    hide ReadEdges;
    assert ": " + rest == [':'] + ([' '] + rest);
    SkipRun(word, [':'] + ([' '] + rest));
    SkipOne(':', [' '] + rest);
    SkipOne(' ', rest);
  }

  /** A detail whose names are readable is read back exactly, in order. */
  lemma DetailReads(members: seq<string>, edges: seq<Pair>)
    requires forall m :: m in members ==> Readable(m)
    requires forall e :: e in edges ==> Readable(e.0) && Readable(e.1)
    ensures ReadEdges(Detail(members, edges)) == edges
  {
    hide ReadEdges, Commas, EdgeTexts, Readable;
    var texts := Commas(EdgeTexts(edges));
    var tail := "edges" + (": " + texts);
    DetailParts(Commas(members), texts);
    SkipLabel("members", Commas(members) + "; " + tail);
    SkipMembers(members, tail);
    SkipLabel("edges", texts);
    ReadCommas(edges);
  }

  lemma DetailParts(names: string, texts: string)
    ensures "members: " + names + "; edges: " + texts == "members" + (": " + (names + "; " + ("edges" + (": " + texts))))
  {
    assert "members: " == "members" + ": " && "; edges: " == "; " + ("edges" + ": ");
  }

  /** Whatever is read has readable names. */
  lemma {:induction false} OnlyReadable(text: string)
    ensures forall e :: e in ReadEdges(text) ==> Readable(e.0) && Readable(e.1)
    decreases |text|
  {
    if |text| > 0 {
      if !NameChar(text[0]) {
        OnlyReadable(text[1..]);
      } else {
        var n := RunLength(text);
        var rest := text[n..];
        OnlyReadable(rest);
        if |rest| > 0 {
          OnlyReadable(rest[1..][RunLength(rest[1..])..]);
        }
      }
    }
  }

  /** Every member of a reported component is the start of a listed edge. */
  lemma MembersStartEdges(g: Graph, f: CycleFinding)
    requires Reports(g, f)
    ensures forall m :: m in f.members ==> exists t :: (m, t) in f.edges
  {
    var c := Elements(f.members);
    forall m | m in f.members ensures exists t :: (m, t) in f.edges {
      assert m in c;
      DistinctCardinality(f.members);
      var y := AnotherMember(c, m);
      assert Mutual(g, m, y);
      var t := ReachFirstStep(g, m, y);
      ReachEdge(g, m, t);
      ReachTrans(g, t, y, m);
      assert Mutual(g, m, t);
      assert t in c && t in f.members;
      assert (m, t) in f.edges;
    }
  }

  lemma AnotherMember(c: set<Node>, m: Node) returns (y: Node)
    requires |c| > 1 && m in c
    ensures y in c && y != m
  {
    assert |c - {m}| > 0;
    y :| y in c - {m};
  }

  lemma ReportedReadable(g: Graph, f: CycleFinding)
    requires Reports(g, f) && Elements(ReadEdges(Detail(f.members, f.edges))) == Elements(f.edges)
    ensures forall m :: m in f.members ==> Readable(m)
  {
    hide ReadEdges, Detail, Readable, Reports;
    var read := ReadEdges(Detail(f.members, f.edges));
    OnlyReadable(Detail(f.members, f.edges));
    MembersStartEdges(g, f);
    forall m | m in f.members ensures Readable(m) {
      var t :| (m, t) in f.edges;
      assert (m, t) in Elements(f.edges);
      assert (m, t) in read;
    }
  }

  /** The edges that are read back from a reported finding are the listed ones if and only if the pattern can
      match the name of every member: it starts with a letter and has only letters, digits, dashes and
      underscores. */
  lemma ReportedReadIff(g: Graph, f: CycleFinding)
    requires Reports(g, f)
    ensures Elements(ReadEdges(Detail(f.members, f.edges))) == Elements(f.edges) <==>
              forall m :: m in f.members ==> Readable(m)
    ensures (forall m :: m in f.members ==> Readable(m)) ==> ReadEdges(Detail(f.members, f.edges)) == f.edges
  {
    hide ReadEdges, Detail, Readable;
    if forall m :: m in f.members ==> Readable(m) {
      forall e | e in f.edges ensures Readable(e.0) && Readable(e.1) {
        assert (e.0, e.1) == e;
      }
      DetailReads(f.members, f.edges);
    }
    if Elements(ReadEdges(Detail(f.members, f.edges))) == Elements(f.edges) {
      ReportedReadable(g, f);
    }
  }

  // ----- A context whose edges are lost

  function Unreadable(): Graph {
    map["2fa" := {"a"}, "a" := {"2fa"}]
  }

  function UnreadableFinding(rule: string): CycleFinding {
    CycleFinding(rule, ["2fa", "a"], [("2fa", "a"), ("a", "2fa")])
  }

  /** The cycle between `2fa` and `a` is reported with its two edges, and none is read back. */
  lemma UnreadableLost(rule: string)
    ensures Reports(Unreadable(), UnreadableFinding(rule))
    ensures ReadEdges(Detail(UnreadableFinding(rule).members, UnreadableFinding(rule).edges)) == []
  {
    UnreadableReported(rule);
    hide ReadEdges, Commas, EdgeTexts, Reports, Unreadable, NameChar;
    var f := UnreadableFinding(rule);
    var names, texts := Commas(f.members), Commas(EdgeTexts(f.edges));
    var tail := "edges" + (": " + texts);
    DetailParts(names, texts);
    LabelChars();
    SkipLabel("members", names + "; " + tail);
    SkipUnreadableNames(tail);
    SkipLabel("edges", texts);
    UnreadableEdges();
  }

  lemma LabelChars()
    ensures forall i :: 0 <= i < |"members"| ==> NameChar("members"[i])
    ensures forall i :: 0 <= i < |"edges"| ==> NameChar("edges"[i])
  {
  }

  lemma UnreadableDetail()
    ensures Commas(EdgeTexts([("2fa", "a"), ("a", "2fa")])) == "2fa->a, a->2fa"
  {
    var texts := EdgeTexts([("2fa", "a"), ("a", "2fa")]);
    assert texts[0] == "2fa->a" && texts[1] == "a->2fa";
    assert Commas(texts[1..]) == texts[1];
  }

  lemma SkipUnreadableNames(rest: string)
    ensures ReadEdges(Commas(["2fa", "a"]) + "; " + rest) == ReadEdges(rest)
  {
    assert Commas(["2fa", "a"][1..]) == "a";
    assert Commas(["2fa", "a"]) == "2fa, a";
    hide ReadEdges, RunLength, Commas;
    var tail := [';'] + ([' '] + rest);
    assert "2fa, a" + "; " + rest == "2fa" + ([','] + ([' '] + ("a" + tail)));
    SkipRun("2fa", [','] + ([' '] + ("a" + tail)));
    SkipOne(',', [' '] + ("a" + tail));
    SkipOne(' ', "a" + tail);
    SkipRun("a", tail);
    SkipOne(';', [' '] + rest);
    SkipOne(' ', rest);
  }

  /** A run that is no match, up to the tip of an arrow. */
  lemma SkipTip(run: string, rest: string)
    requires |run| > 0 && (forall i :: 0 <= i < |run| ==> NameChar(run[i]))
    requires !Letter(run[0]) || (|rest| > 0 && !Letter(rest[0]))
    ensures ReadEdges(run + (">" + rest)) == ReadEdges(rest)
  {
    RunIs(run, ">" + rest);
    assert (run + (">" + rest))[|run|..] == ">" + rest;
    SkipOne('>', rest);
    assert ['>'] + rest == ">" + rest;
  }

  lemma UnreadableEdges()
    ensures ReadEdges(Commas(EdgeTexts([("2fa", "a"), ("a", "2fa")]))) == []
  {
    NothingRead();
    UnreadableDetail();
    hide ReadEdges, RunLength;
    var last := "a-" + (">" + "2fa");
    var tail := [','] + ([' '] + last);
    assert "2fa->a, a->2fa" == "2fa-" + (">" + ("a" + tail));
    SkipTip("2fa-", "a" + tail);
    SkipRun("a", tail);
    SkipOne(',', [' '] + last);
    SkipOne(' ', last);
    SkipTip("a-", "2fa");
    assert "2fa" + "" == "2fa";
    SkipRun("2fa", "");
  }

  lemma UnreadableReported(rule: string)
    ensures Reports(Unreadable(), UnreadableFinding(rule))
  {
    var f := UnreadableFinding(rule);
    UnreadableComponent();
    UnreadableOrder();
    hide IsComponent, NameLeq, EdgeText;
    assert Elements(f.members) == {"2fa", "a"} by {
      assert f.members[0] == "2fa" && f.members[1] == "a";
    }
  }

  lemma UnreadableOrder()
    ensures NameLeq("2fa", "a") && EdgeLeq(("2fa", "a"), ("a", "2fa"))
  {
    assert "2fa" != "a" && EdgeText(("2fa", "a"))[0] == '2' && EdgeText(("a", "2fa"))[0] == 'a';
  }

  lemma UnreadableComponent()
    ensures IsComponent(Unreadable(), {"2fa", "a"}) && |{"2fa", "a"}| == 2
  {
    hide Reach;
    var g, c := Unreadable(), {"2fa", "a"};
    ReachEdge(g, "2fa", "a");
    ReachEdge(g, "a", "2fa");
    ReachSelf(g, "2fa");
    ReachSelf(g, "a");
    forall x, y | x in c ensures y in c <==> Mutual(g, x, y) {
      if Mutual(g, x, y) {
        ReachStaysInside(g, c, x, y);
      }
    }
  }
}
