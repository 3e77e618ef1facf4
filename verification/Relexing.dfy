/** Exactly when taking the view that keeps only code a second time changes nothing. */
module Relexing {
  import opened Wrappers
  import opened Lexing
  import opened LexingLaws

  /** The literal ends in `?` (it is a sigil delimited by question marks) and a `#` follows directly.
      That `#` is read as code, but the `?` before it is blanked. */
  predicate HashBehind(text: string, span: Span) {
    0 < span.end < |text| && text[span.end] == '#' && text[span.end - 1] == '?'
  }

  /** No literal that is read from `cursor` on, at any depth of interpolation, has a `#` behind its `?`. */
  predicate SteadyFrom(k: Letters, text: string, cursor: nat)
    requires cursor <= |text|
    decreases |text|, 1, |text| - cursor
  {
    if cursor == |text| then true
    else
      match NextToken(k, text, 0, cursor)
      case Comment(end) => SteadyFrom(k, text, end)
      case Character(end) => SteadyFrom(k, text, end)
      case Literal(literal) =>
        SpanNested(k, text, cursor);
        && SteadyInside(k, text, literal.ranges, cursor + 1, literal.end)
        && !HashBehind(text, literal)
        && SteadyFrom(k, text, literal.end)
      case Plain => SteadyFrom(k, text, cursor + 1)
  }

  predicate SteadyInside(k: Letters, text: string, ranges: seq<Range>, from: nat, end: nat)
    requires Nested(text, ranges, from, end)
    decreases |text|, 0, |ranges|
  {
    if |ranges| == 0 then true
    else
      var (a, b) := ranges[0];
      Steady(k, text[a..b]) && SteadyInside(k, text, ranges[1..], b + 1, end)
  }

  predicate Steady(k: Letters, text: string)
    decreases |text|, 2
  {
    SteadyFrom(k, text, 0)
  }

  lemma SteadyStep(k: Letters, text: string, cursor: nat)
    requires cursor < |text|
    ensures var t := NextToken(k, text, 0, cursor); t.Literal? ==> Nested(text, t.span.ranges, cursor + 1, t.span.end)
    ensures SteadyFrom(k, text, cursor) <==>
              match NextToken(k, text, 0, cursor)
              case Comment(end) => SteadyFrom(k, text, end)
              case Character(end) => SteadyFrom(k, text, end)
              case Literal(literal) =>
                && SteadyInside(k, text, literal.ranges, cursor + 1, literal.end)
                && !HashBehind(text, literal)
                && SteadyFrom(k, text, literal.end)
              case Plain => SteadyFrom(k, text, cursor + 1)
  {
    SpanNested(k, text, cursor);
  }

  /** `s` holds `shown` at `p`. */
  predicate Holds(s: string, p: nat, shown: string) {
    p + |shown| <= |s| && s[p..p + |shown|] == shown
  }

  /** Read again at `p`, the stretch `shown` stays what it is, or, if not `steady`, does not. */
  ghost predicate Reread(k: Letters, s: string, p: nat, shown: string, steady: bool) {
    && p + |shown| <= |s|
    && (steady ==> CodeFrom(k, s, p) == shown + CodeFrom(k, s, p + |shown|))
    && (!steady ==> CodeFrom(k, s, p)[..|shown|] != shown)
  }

  lemma RereadJoin(k: Letters, s: string, p: nat, x: string, y: string, steadyX: bool, steadyY: bool)
    requires Reread(k, s, p, x, steadyX)
    requires steadyX ==> Reread(k, s, p + |x|, y, steadyY)
    requires p + |x| + |y| <= |s|
    ensures Reread(k, s, p, x + y, steadyX && steadyY)
  {
    hide CodeFrom;
    var z := CodeFrom(k, s, p);
    if steadyX {
      var rest := CodeFrom(k, s, p + |x|);
      assert z == x + rest;
      if steadyY {
        assert x + (y + CodeFrom(k, s, p + |x| + |y|)) == (x + y) + CodeFrom(k, s, p + |x| + |y|);
      } else {
        assert z[..|x + y|][|x|..] == rest[..|y|];
        assert (x + y)[|x|..] == y;
      }
    } else {
      assert z[..|x + y|][..|x|] == z[..|x|];
      assert (x + y)[..|x|] == x;
    }
  }

  lemma HoldsParts(s: string, p: nat, x: string, y: string)
    requires Holds(s, p, x + y)
    ensures Holds(s, p, x) && Holds(s, p + |x|, y)
  {
    assert s[p..p + |x|] == (x + y)[..|x|];
    assert s[p + |x|..p + |x| + |y|] == (x + y)[|x|..];
  }

  lemma HoldsFour(s: string, p: nat, x: string, y: string, z: string, w: string)
    requires Holds(s, p, x + (y + (z + w)))
    ensures Holds(s, p, x) && Holds(s, p + |x|, y) && Holds(s, p + |x| + |y|, z)
    ensures Holds(s, p + |x| + |y| + |z|, w)
  {
    hide Holds;
    HoldsParts(s, p, x, y + (z + w));
    HoldsParts(s, p + |x|, y, z + w);
    HoldsParts(s, p + |x| + |y|, z, w);
  }

  /** Four stretches, of which the first and the third one always stay. */
  lemma RereadFour(k: Letters, s: string, p: nat, x: string, y: string, z: string, w: string, steadyY: bool, steadyW: bool)
    requires Reread(k, s, p, x, true) && Reread(k, s, p + |x|, y, steadyY)
    requires Reread(k, s, p + |x| + |y|, z, true) && Reread(k, s, p + |x| + |y| + |z|, w, steadyW)
    ensures Reread(k, s, p, x + (y + (z + w)), steadyY && steadyW)
  {
    hide *;
    RereadEnds(k, s, p + |x| + |y| + |z|, w, steadyW);
    RereadJoin(k, s, p + |x| + |y|, z, w, true, steadyW);
    RereadJoin(k, s, p + |x|, y, z + w, steadyY, steadyW);
    RereadJoin(k, s, p, x, y + (z + w), true, steadyY && steadyW);
  }

  lemma RereadEnds(k: Letters, s: string, p: nat, x: string, steady: bool)
    requires Reread(k, s, p, x, steady)
    ensures p + |x| <= |s|
  {
  }

  lemma HeldAt(s: string, p: nat, x: string, i: nat)
    requires Holds(s, p, x) && i < |x|
    ensures p + i < |s| && s[p + i] == x[i]
  {
    assert s[p..p + |x|][i] == s[p + i];
  }

  predicate Inert(c: char) {
    c == ' ' || c == '0' || IsLineBreak(c)
  }

  /** A character that starts no token is read as it stands. */
  lemma PlainStep(k: Letters, s: string, p: nat)
    requires p < |s| && NextToken(k, s, 0, p).Plain?
    ensures Reread(k, s, p, [s[p]], true)
  {
  }

  lemma {:induction false} InertRun(k: Letters, s: string, p: nat, shown: string)
    requires Holds(s, p, shown) && forall c :: c in shown ==> Inert(c)
    ensures Reread(k, s, p, shown, true)
    decreases |shown|
  {
    hide CodeFrom, LiteralSpan;
    if |shown| > 0 {
      assert s[p] == shown[0] && shown[0] in shown && Inert(s[p]);
      assert NextToken(k, s, 0, p).Plain?;
      PlainStep(k, s, p);
      assert shown == [shown[0]] + shown[1..];
      HoldsParts(s, p, [shown[0]], shown[1..]);
      InertRun(k, s, p + 1, shown[1..]);
      RereadJoin(k, s, p, [shown[0]], shown[1..], true, true);
    }
  }

  lemma BlankInert(text: string, from: nat, end: nat)
    requires from <= end <= |text|
    ensures forall c :: c in Blank(text, from, end) ==> Inert(c) && c != '?' && c != '#'
  {
  }

  lemma {:induction false} InsideLast(k: Letters, text: string, ranges: seq<Range>, from: nat, end: nat)
    requires Nested(text, ranges, from, end) && 0 < from < end
    ensures LiteralInside(k, text, ranges, from, end)[end - 1 - from] == Blanked(text[end - 1])
    decreases |ranges|
  {
    hide LiteralInside, CodeOnly, Blanked;
    if |ranges| == 0 {
      InsideNil(k, text, from, end);
    } else {
      InsideAt(k, text, ranges, from, end, end - 1);
      var (a, b) := ranges[0];
      if b + 1 < end {
        InsideLast(k, text, ranges[1..], b + 1, end);
      }
    }
  }

  /** What must hold around `text[cursor..]`, shown at `s[p..]`, for both to be read alike. */
  ghost predicate Fits(k: Letters, text: string, cursor: nat, s: string, p: nat) {
    && cursor <= |text|
    && Holds(s, p, CodeFrom(k, text, cursor))
    && (cursor < |text| && text[cursor] == '#' ==> (AfterQuestion(text, 0, cursor) <==> AfterQuestion(s, 0, p)))
    && (p + |text| - cursor == |s| || (s[p + |text| - cursor] == ' ' && ClosedFrom(k, text, cursor)))
  }

  /** What is behind a token fits where the token's view ends. */
  lemma FitsLater(k: Letters, text: string, cursor: nat, end: nat, s: string, p: nat)
    requires Fits(k, text, cursor, s, p) && cursor <= end <= |text|
    requires Holds(s, p + (end - cursor), CodeFrom(k, text, end))
    requires ClosedFrom(k, text, cursor) ==> ClosedFrom(k, text, end)
    requires end < |text| && text[end] == '#' ==> (AfterQuestion(text, 0, end) <==> AfterQuestion(s, 0, p + (end - cursor)))
    ensures Fits(k, text, end, s, p + (end - cursor))
  {
    hide CodeFrom, ClosedFrom, AfterQuestion, Holds;
  }

  lemma FitsHolds(k: Letters, text: string, cursor: nat, s: string, p: nat)
    requires Fits(k, text, cursor, s, p)
    ensures Holds(s, p, CodeFrom(k, text, cursor))
  {
  }

  lemma InsideStep(k: Letters, text: string, ranges: seq<Range>, from: nat, end: nat)
    requires Nested(text, ranges, from, end) && from > 0 && |ranges| > 0
    ensures var (a, b) := ranges[0];
            && from + 2 <= a <= b < end <= |text| && Nested(text, ranges[1..], b + 1, end)
            && LiteralInside(k, text, ranges, from, end) ==
                 Blank(text, from, a) + (CodeOnly(k, text[a..b]) +
                 (Blank(text, b, b + 1) + LiteralInside(k, text, ranges[1..], b + 1, end)))
            && (SteadyInside(k, text, ranges, from, end) <==>
                  Steady(k, text[a..b]) && SteadyInside(k, text, ranges[1..], b + 1, end))
  {
  }

  lemma BlankRun(k: Letters, text: string, from: nat, end: nat, s: string, p: nat)
    requires from <= end <= |text| && Holds(s, p, Blank(text, from, end))
    ensures Reread(k, s, p, Blank(text, from, end), true)
  {
    BlankInert(text, from, end);
    InertRun(k, s, p, Blank(text, from, end));
  }

  /** The code of an interpolation, shown between the blanks of its braces, fits there. */
  lemma InterpolationFits(k: Letters, text: string, from: nat, a: nat, b: nat, s: string, p: nat, rest: string)
    requires from + 2 <= a <= b < |text| && text[a - 1] == '{' && text[b] == '}'
    requires InterpolationEnd(k, text, a) == Some(b)
    requires Holds(s, p, Blank(text, from, a))
    requires Holds(s, p + (a - from), CodeOnly(k, text[a..b]))
    requires Holds(s, p + (b - from), Blank(text, b, b + 1))
    ensures Fits(k, text[a..b], 0, s, p + (a - from))
  {
    hide CodeFrom, ClosedFrom, InterpolationEnd, Holds, Blank;
    var before, brace := Blank(text, from, a), Blank(text, b, b + 1);
    HeldAt(s, p, before, |before| - 1);
    HeldAt(s, p + (b - from), brace, 0);
    InterpolationClosed(k, text, a, b);
  }

  /** The interpolations inside a literal, shown between blanks, are read again one by one. */
  lemma {:induction false} RereadInside(k: Letters, text: string, ranges: seq<Range>, from: nat, end: nat, s: string, p: nat)
    requires Nested(text, ranges, from, end) && from > 0 && Scanned(k, text, ranges)
    requires Holds(s, p, LiteralInside(k, text, ranges, from, end))
    ensures Reread(k, s, p, LiteralInside(k, text, ranges, from, end), SteadyInside(k, text, ranges, from, end))
    decreases |text|, 0, |ranges|
  {
    hide CodeFrom, ClosedFrom, SteadyFrom, InterpolationEnd, Reread, Holds, Blank;
    if |ranges| == 0 {
      BlankRun(k, text, from, end, s, p);
    } else {
      InsideStep(k, text, ranges, from, end);
      RereadFirst(k, text, ranges[0], ranges[1..], from, end, s, p,
                  LiteralInside(k, text, ranges[1..], ranges[0].1 + 1, end));
    }
  }

  lemma {:induction false} RereadFirst(k: Letters, text: string, range: Range, others: seq<Range>, from: nat, end: nat,
                                       s: string, p: nat, rest: string)
    requires var (a, b) := range;
             && 0 < from && from + 2 <= a <= b < end <= |text| && text[a - 1] == '{' && text[b] == '}'
             && InterpolationEnd(k, text, a) == Some(b)
             && Nested(text, others, b + 1, end) && Scanned(k, text, others)
             && rest == LiteralInside(k, text, others, b + 1, end)
             && Holds(s, p, Blank(text, from, a) + (CodeOnly(k, text[a..b]) + (Blank(text, b, b + 1) + rest)))
    ensures var (a, b) := range;
            Reread(k, s, p, Blank(text, from, a) + (CodeOnly(k, text[a..b]) + (Blank(text, b, b + 1) + rest)),
                   Steady(k, text[a..b]) && SteadyInside(k, text, others, b + 1, end))
    decreases |text|, 0, |others| + 1, 0
  {
    hide CodeFrom, ClosedFrom, InterpolationEnd, SteadyInside, SteadyFrom, LiteralInside, Fits, Nested, Scanned, Holds, Blank,
         Blanked, Reread, NextToken;
    var (a, b) := range;
    var before, code, brace := Blank(text, from, a), CodeOnly(k, text[a..b]), Blank(text, b, b + 1);
    var q := p + |before|;
    HoldsFour(s, p, before, code, brace, rest);
    BlankRun(k, text, from, a, s, p);
    InterpolationFits(k, text, from, a, b, s, p, rest);
    RereadCode(k, text[a..b], 0, s, q);
    BlankRun(k, text, b, b + 1, s, q + |code|);
    RereadInside(k, text, others, b + 1, end, s, q + |code| + 1);
    RereadFour(k, s, p, before, code, brace, rest, Steady(k, text[a..b]), SteadyInside(k, text, others, b + 1, end));
  }

  lemma InterpolationClosed(k: Letters, text: string, a: nat, b: nat)
    requires a <= |text| && InterpolationEnd(k, text, a) == Some(b)
    ensures ClosedFrom(k, text[a..b], 0)
  {
    ScanClosed(k, text, a, a, 1);
  }

  /** The view `CodeFrom(text, cursor)`, standing at `p` in any text that it fits into, is read there as
      itself if and only if `text` is steady from `cursor` on. */
  lemma {:induction false} RereadCode(k: Letters, text: string, cursor: nat, s: string, p: nat)
    requires Fits(k, text, cursor, s, p)
    ensures Reread(k, s, p, CodeFrom(k, text, cursor), SteadyFrom(k, text, cursor))
    decreases |text|, 1, |text| - cursor
  {
    hide CodeFrom, ClosedFrom, SteadyFrom, NextToken;
    if cursor == |text| {
      assert CodeFrom(k, text, cursor) == [];
      SteadyEmpty(k, text);
    } else {
      SteadyStep(k, text, cursor);
      match NextToken(k, text, 0, cursor)
      case Comment(end) => RereadComment(k, text, cursor, end, s, p);
      case Character(end) => RereadCharacter(k, text, cursor, end, s, p);
      case Literal(literal) => RereadLiteral(k, text, cursor, literal, s, p);
      case Plain => RereadPlain(k, text, cursor, s, p);
    }
  }

  lemma SteadyEmpty(k: Letters, text: string)
    ensures SteadyFrom(k, text, |text|) && ClosedFrom(k, text, |text|)
  {
  }

  lemma {:induction false} RereadComment(k: Letters, text: string, cursor: nat, end: nat, s: string, p: nat)
    requires Fits(k, text, cursor, s, p) && cursor < |text| && NextToken(k, text, 0, cursor) == Comment(end)
    ensures Reread(k, s, p, CodeFrom(k, text, cursor), SteadyFrom(k, text, end))
    decreases |text|, 1, |text| - cursor, 0
  {
    hide *;
    CodeStep(k, text, cursor);
    ClosedStep(k, text, cursor);
    FitsHolds(k, text, cursor, s, p);
    var blank, rest := Blank(text, cursor, end), CodeFrom(k, text, end);
    HoldsParts(s, p, blank, rest);
    BlankRun(k, text, cursor, end, s, p);
    FitsLater(k, text, cursor, end, s, p);
    RereadCode(k, text, end, s, p + |blank|);
    RereadEnds(k, s, p + |blank|, rest, SteadyFrom(k, text, end));
    RereadJoin(k, s, p, blank, rest, true, SteadyFrom(k, text, end));
  }

  lemma CharacterRead(k: Letters, s: string, p: nat)
    requires p + 1 < |s| && s[p] == '?'
    ensures CharEnd(s, p) <= |s| && Reread(k, s, p, s[p..CharEnd(s, p)], true)
  {
    hide CodeFrom, LiteralSpan, LineEnd, AfterQuestion;
    assert NextToken(k, s, 0, p) == Character(CharEnd(s, p));
    CodeStep(k, s, p);
  }

  /** A character literal that is shown is read as the same one. */
  lemma CharacterAgain(k: Letters, text: string, cursor: nat, end: nat, s: string, p: nat)
    requires cursor + 1 < |text| && text[cursor] == '?' && end == CharEnd(text, cursor) <= |text|
    requires Holds(s, p, text[cursor..end])
    requires end == |text| && end == cursor + 2 && text[cursor + 1] == '\\' ==> p + 2 == |s|
    ensures Reread(k, s, p, text[cursor..end], true)
    ensures AfterQuestion(text, 0, end) <==> AfterQuestion(s, 0, p + (end - cursor))
  {
    hide Reread;
    var kept := text[cursor..end];
    HeldAt(s, p, kept, 0);
    HeldAt(s, p, kept, 1);
    HeldAt(s, p, kept, |kept| - 1);
    assert CharEnd(s, p) == p + |kept|;
    CharacterRead(k, s, p);
  }

  /** A `?` and a backslash at the very end of the text also stand at the very end where they are shown. */
  lemma OpenAtEnd(k: Letters, text: string, cursor: nat, s: string, p: nat)
    requires Fits(k, text, cursor, s, p) && !ClosedFrom(k, text, cursor)
    ensures p + (|text| - cursor) == |s|
  {
    hide CodeFrom, ClosedFrom;
  }

  lemma {:induction false} RereadCharacter(k: Letters, text: string, cursor: nat, end: nat, s: string, p: nat)
    requires Fits(k, text, cursor, s, p) && cursor < |text| && NextToken(k, text, 0, cursor) == Character(end)
    ensures Reread(k, s, p, CodeFrom(k, text, cursor), SteadyFrom(k, text, end))
    decreases |text|, 1, |text| - cursor, 0
  {
    hide *;
    CodeStep(k, text, cursor);
    ClosedStep(k, text, cursor);
    FitsHolds(k, text, cursor, s, p);
    var kept, rest := text[cursor..end], CodeFrom(k, text, end);
    HoldsParts(s, p, kept, rest);
    if !ClosedFrom(k, text, cursor) {
      OpenAtEnd(k, text, cursor, s, p);
    }
    CharacterAgain(k, text, cursor, end, s, p);
    FitsLater(k, text, cursor, end, s, p);
    RereadCode(k, text, end, s, p + |kept|);
    RereadEnds(k, s, p + |kept|, rest, SteadyFrom(k, text, end));
    RereadJoin(k, s, p, kept, rest, true, SteadyFrom(k, text, end));
  }

  lemma SameChar(text: string, cursor: nat, s: string, p: nat)
    requires cursor < |text| && Holds(s, p, [text[cursor]])
    ensures p < |s| && s[p] == text[cursor]
    ensures AfterQuestion(text, 0, cursor + 1) <==> AfterQuestion(s, 0, p + 1)
  {
    HeldAt(s, p, [text[cursor]], 0);
  }

  lemma {:induction false} RereadPlain(k: Letters, text: string, cursor: nat, s: string, p: nat)
    requires Fits(k, text, cursor, s, p) && cursor < |text| && NextToken(k, text, 0, cursor) == Plain
    ensures Reread(k, s, p, CodeFrom(k, text, cursor), SteadyFrom(k, text, cursor + 1))
    decreases |text|, 1, |text| - cursor, 0
  {
    hide *;
    var rest := CodeFrom(k, text, cursor + 1);
    PlainShown(k, text, cursor, s, p);
    FitsLater(k, text, cursor, cursor + 1, s, p);
    RereadCode(k, text, cursor + 1, s, p + 1);
    RereadEnds(k, s, p + 1, rest, SteadyFrom(k, text, cursor + 1));
    RereadJoin(k, s, p, [text[cursor]], rest, true, SteadyFrom(k, text, cursor + 1));
  }

  lemma PlainShown(k: Letters, text: string, cursor: nat, s: string, p: nat)
    requires Fits(k, text, cursor, s, p) && cursor < |text| && NextToken(k, text, 0, cursor) == Plain
    ensures CodeFrom(k, text, cursor) == [text[cursor]] + CodeFrom(k, text, cursor + 1)
    ensures Reread(k, s, p, [text[cursor]], true) && Holds(s, p + 1, CodeFrom(k, text, cursor + 1))
    ensures ClosedFrom(k, text, cursor) ==> ClosedFrom(k, text, cursor + 1)
    ensures AfterQuestion(text, 0, cursor + 1) <==> AfterQuestion(s, 0, p + 1)
  {
    hide *;
    CodeStep(k, text, cursor);
    ClosedStep(k, text, cursor);
    FitsHolds(k, text, cursor, s, p);
    HoldsParts(s, p, [text[cursor]], CodeFrom(k, text, cursor + 1));
    SameChar(text, cursor, s, p);
    StaysPlain(k, text, cursor, s, p);
    PlainStep(k, s, p);
  }

  lemma NoLiteral(k: Letters, s: string, p: nat)
    requires p < |s| && NoLiteralAt(k, s, p)
    ensures LiteralSpan(k, s, p).None?
  {
  }

  lemma TildeStaysPlain(k: Letters, text: string, cursor: nat, s: string, p: nat)
    requires Fits(k, text, cursor, s, p) && cursor < |text| && NextToken(k, text, 0, cursor) == Plain
    requires text[cursor] == '~'
    ensures p + 2 < |s| ==> !k.isAlpha(s[p + 1])
  {
    hide CodeFrom, ClosedFrom, NextToken, LiteralSpan, AfterQuestion;
    CodeStep(k, text, cursor);
    ClosedStep(k, text, cursor);
    if cursor + 1 < |text| {
      var rest := CodeFrom(k, text, cursor + 1);
      HoldsParts(s, p, [text[cursor]], rest);
      HeldAt(s, p + 1, rest, 0);
      CodeShows(k, text, cursor + 1, cursor + 1);
    }
  }

  lemma StaysPlain(k: Letters, text: string, cursor: nat, s: string, p: nat)
    requires Fits(k, text, cursor, s, p) && cursor < |text| && NextToken(k, text, 0, cursor) == Plain
    ensures p < |s| && NextToken(k, s, 0, p).Plain?
  {
    hide CodeFrom, ClosedFrom, LiteralSpan, Holds;
    CodeStep(k, text, cursor);
    ClosedStep(k, text, cursor);
    FitsHolds(k, text, cursor, s, p);
    HoldsParts(s, p, [text[cursor]], CodeFrom(k, text, cursor + 1));
    SameChar(text, cursor, s, p);
    if text[cursor] == '~' {
      TildeStaysPlain(k, text, cursor, s, p);
    }
    NoLiteral(k, s, p);
  }

  lemma InsideEndsBlank(k: Letters, text: string, ranges: seq<Range>, from: nat, end: nat)
    requires Nested(text, ranges, from, end) && from > 0
    ensures var inside := LiteralInside(k, text, ranges, from, end);
            |inside| > 0 ==> inside[|inside| - 1] != '?'
  {
  }

  lemma LiteralShape(k: Letters, text: string, cursor: nat, literal: Span)
    requires cursor < |text| && NextToken(k, text, 0, cursor) == Literal(literal)
    requires Nested(text, literal.ranges, cursor + 1, literal.end)
    ensures CodeFrom(k, text, cursor) ==
              "0" + (LiteralInside(k, text, literal.ranges, cursor + 1, literal.end) + CodeFrom(k, text, literal.end))
  {
    hide *;
    CodeStep(k, text, cursor);
    var inside, rest := LiteralInside(k, text, literal.ranges, cursor + 1, literal.end), CodeFrom(k, text, literal.end);
    assert "0" + inside + rest == "0" + (inside + rest);
  }

  /** Behind a shown literal stands no `?`. */
  lemma BehindLiteral(s: string, p: nat, inside: string, rest: string)
    requires Holds(s, p, "0" + (inside + rest)) && (|inside| > 0 ==> inside[|inside| - 1] != '?')
    ensures Holds(s, p, "0") && Holds(s, p + 1, inside) && Holds(s, p + 1 + |inside|, rest)
    ensures !AfterQuestion(s, 0, p + 1 + |inside|)
  {
    HoldsParts(s, p, "0", inside + rest);
    HoldsParts(s, p + 1, inside, rest);
    HeldAt(s, p, "0", 0);
    if |inside| > 0 {
      HeldAt(s, p + 1, inside, |inside| - 1);
    }
  }

  lemma {:induction false} RereadLiteral(k: Letters, text: string, cursor: nat, literal: Span, s: string, p: nat)
    requires Fits(k, text, cursor, s, p) && cursor < |text| && NextToken(k, text, 0, cursor) == Literal(literal)
    requires Nested(text, literal.ranges, cursor + 1, literal.end)
    ensures Reread(k, s, p, CodeFrom(k, text, cursor),
                   && SteadyInside(k, text, literal.ranges, cursor + 1, literal.end)
                   && !HashBehind(text, literal)
                   && SteadyFrom(k, text, literal.end))
    decreases |text|, 1, |text| - cursor, 0
  {
    hide CodeFrom, ClosedFrom, SteadyFrom, NextToken, SteadyInside, LiteralInside, Nested, Scanned, Reread, Holds, Fits,
         AfterQuestion;
    LiteralShape(k, text, cursor, literal);
    ClosedStep(k, text, cursor);
    SpanScanned(k, text, cursor);
    FitsHolds(k, text, cursor, s, p);
    var end := literal.end;
    var inside, rest := LiteralInside(k, text, literal.ranges, cursor + 1, end), CodeFrom(k, text, end);
    InsideEndsBlank(k, text, literal.ranges, cursor + 1, end);
    BehindLiteral(s, p, inside, rest);
    var q := p + 1 + |inside|;
    var steadyInside := SteadyInside(k, text, literal.ranges, cursor + 1, end);
    var steadyRest := !HashBehind(text, literal) && SteadyFrom(k, text, end);
    InertRun(k, s, p, "0");
    RereadInside(k, text, literal.ranges, cursor + 1, end, s, p + 1);
    if HashBehind(text, literal) {
      HashIsLost(k, text, end, s, q);
    } else {
      NoQuestion(text, end);
      FitsLater(k, text, cursor, end, s, p);
      RereadCode(k, text, end, s, q);
    }
    RereadEnds(k, s, q, rest, steadyRest);
    RereadJoin(k, s, p + 1, inside, rest, steadyInside, steadyRest);
    RereadJoin(k, s, p, "0", inside + rest, true, steadyInside && steadyRest);
  }

  lemma NoQuestion(text: string, end: nat)
    requires 0 < end <= |text| && (end < |text| && text[end] == '#' ==> text[end - 1] != '?')
    ensures end < |text| && text[end] == '#' ==> !AfterQuestion(text, 0, end)
  {
  }

  lemma SpanScanned(k: Letters, text: string, start: nat)
    requires start <= |text|
    ensures LiteralSpan(k, text, start).Some? ==> Scanned(k, text, LiteralSpan(k, text, start).value.ranges)
  {
    var o := LiteralOpening(k, text, start);
    if o.Some? {
      BodyScanned(k, text, o.value, o.value.content, if o.value.paired then 1 else 0);
    }
  }

  /** A `#` kept as code because a `?` stood before it is a comment once that `?` is gone. */
  lemma HashIsLost(k: Letters, text: string, end: nat, s: string, q: nat)
    requires 0 < end < |text| && text[end] == '#' && text[end - 1] == '?'
    requires Holds(s, q, CodeFrom(k, text, end)) && q <= |s| && !AfterQuestion(s, 0, q)
    ensures Reread(k, s, q, CodeFrom(k, text, end), false)
  {
    hide CodeFrom, LiteralSpan;
    var shown := CodeFrom(k, text, end);
    assert NextToken(k, text, 0, end).Plain?;
    CodeStep(k, text, end);
    assert shown[0] == '#';
    HeldAt(s, q, shown, 0);
    CodeStep(k, s, q);
    assert CodeFrom(k, s, q)[0] == ' ';
    assert CodeFrom(k, s, q)[..|shown|][0] == ' ';
  }

  /** `elixir_code_only(elixir_code_only(text)) == elixir_code_only(text)` if and only if nowhere in `text`
      a `#` stands directly behind a literal that ends in `?`. */
  lemma CodeOnlyIdempotentIff(k: Letters, text: string)
    ensures CodeOnly(k, CodeOnly(k, text)) == CodeOnly(k, text) <==> Steady(k, text)
  {
    var s := CodeOnly(k, text);
    assert s[0..|s|] == s;
    assert Fits(k, text, 0, s, 0);
    RereadCode(k, text, 0, s, 0);
    assert CodeFrom(k, s, |s|) == [];
    assert CodeOnly(k, s)[..|s|] == CodeOnly(k, s);
  }

  lemma {:induction false} SteadyInsideWithoutPair(k: Letters, text: string, ranges: seq<Range>, from: nat, end: nat)
    requires Nested(text, ranges, from, end)
    requires forall i :: 0 < i < |text| ==> !(text[i - 1] == '?' && text[i] == '#')
    ensures SteadyInside(k, text, ranges, from, end)
    decreases |text|, 0, |ranges|
  {
    if |ranges| > 0 {
      var (a, b) := ranges[0];
      var sub := text[a..b];
      forall i | 0 < i < |sub| ensures !(sub[i - 1] == '?' && sub[i] == '#') {
        assert !(text[a + i - 1] == '?' && text[a + i] == '#');
      }
      SteadyWithoutPair(k, sub, 0);
      SteadyInsideWithoutPair(k, text, ranges[1..], b + 1, end);
    }
  }

  /** A text without the two characters `?#` in sequence is steady. */
  lemma {:induction false} SteadyWithoutPair(k: Letters, text: string, cursor: nat)
    requires cursor <= |text|
    requires forall i :: 0 < i < |text| ==> !(text[i - 1] == '?' && text[i] == '#')
    ensures SteadyFrom(k, text, cursor)
    decreases |text|, 1, |text| - cursor
  {
    hide SteadyFrom, NextToken, LiteralSpan, SteadyInside;
    SteadyEmpty(k, text);
    if cursor < |text| {
      SteadyStep(k, text, cursor);
      match NextToken(k, text, 0, cursor)
      case Comment(end) => SteadyWithoutPair(k, text, end);
      case Character(end) => SteadyWithoutPair(k, text, end);
      case Literal(literal) =>
        SteadyInsideWithoutPair(k, text, literal.ranges, cursor + 1, literal.end);
        SteadyWithoutPair(k, text, literal.end);
      case Plain => SteadyWithoutPair(k, text, cursor + 1);
    }
  }

  lemma SigilToken(k: Letters, text: string)
    requires text == "~s?a?#b" && k.isAlpha('s') && !k.isAlpha('#')
    ensures NextToken(k, text, 0, 0) == Literal(Span(5, []))
  {
    hide LiteralBody, StartsWith;
    var o := Opening(k.isLower('s'), "?", "?", 3, false);
    SigilOpening(k, text);
    StartsWithOne(text, '?', 4);
    StartsWithOne(text, '?', 3);
    NoInterpolation(text, 3);
    NoInterpolation(text, 4);
    BodyStep(k, text, o, 4, 0);
    BodyStep(k, text, o, 3, 0);
    hide LiteralOpening;
    assert LiteralSpan(k, text, 0) == Some(Span(5, []));
  }

  lemma SigilOpening(k: Letters, text: string)
    requires text == "~s?a?#b" && k.isAlpha('s')
    ensures LiteralOpening(k, text, 0) == Some(Opening(k.isLower('s'), "?", "?", 3, false))
  {
    assert TripleQuote(text, 0).None? && TripleQuote(text, 2).None?;
  }

  lemma NoInterpolation(text: string, i: nat)
    requires i + 1 < |text| && !(text[i] == '#' && text[i + 1] == '{')
    ensures !StartsWith(text, "#{", i)
  {
    if StartsWith(text, "#{", i) {
      StartsWithChars(text, "#{", i);
    }
  }

  /** The idempotence that callers rely on fails: in `~s?a?#b` the first view keeps `#b` as code, the
      second one blanks it as a comment. */
  lemma CodeOnlyNotIdempotent(k: Letters)
    requires k.isAlpha('s') && !k.isAlpha('#')
    ensures CodeOnly(k, CodeOnly(k, "~s?a?#b")) != CodeOnly(k, "~s?a?#b")
  {
    var text := "~s?a?#b";
    assert text[4] == '?' && text[5] == '#';
    SigilToken(k, text);
    hide NextToken, SteadyFrom, SteadyInside, CodeOnly, CodeFrom;
    SteadyStep(k, text, 0);
    CodeOnlyIdempotentIff(k, text);
  }

  lemma StartsWithOne(text: string, c: char, i: nat)
    requires i < |text|
    ensures StartsWith(text, [c], i) <==> text[i] == c
  {
    assert StartsWith(text, [c], i) ==> text[i + 0] == [c][0];
  }
}
