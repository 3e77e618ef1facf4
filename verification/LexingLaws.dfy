/** What the view that keeps only code guarantees, and exactly when taking it twice changes nothing. */
module LexingLaws {
  import opened Wrappers
  import opened Lexing

  /** At each offset: the original character, or, where that is no line break, a space or a `0`. */
  predicate Shows(shown: char, original: char) {
    shown == original || (!IsLineBreak(original) && (shown == ' ' || shown == '0'))
  }

  lemma {:induction false} InsideShows(k: Letters, text: string, ranges: seq<Range>, from: nat, end: nat, i: nat)
    requires 0 < from <= i < end <= |text| && Nested(text, ranges, from, end)
    ensures Shows(LiteralInside(k, text, ranges, from, end)[i - from], text[i])
    decreases |text|, 0, |ranges|
  {
    hide LiteralInside, CodeFrom, CodeOnly, Nested;
    InsideNil(k, text, from, end);
    if |ranges| > 0 {
      InsideAt(k, text, ranges, from, end, i);
      var (a, b) := ranges[0];
      CodeOnlyIs(k, text[a..b]);
      if a <= i < b {
        CodeShows(k, text[a..b], 0, i - a);
      } else if i > b {
        InsideShows(k, text, ranges[1..], b + 1, end, i);
      }
    }
  }

  lemma InsideNil(k: Letters, text: string, from: nat, end: nat)
    requires 0 < from <= end <= |text|
    ensures Nested(text, [], from, end) && LiteralInside(k, text, [], from, end) == Blank(text, from, end)
  {
  }

  lemma InsideHead(k: Letters, text: string, ranges: seq<Range>, from: nat, end: nat)
    requires Nested(text, ranges, from, end) && from > 0 && |ranges| > 0
    ensures var (a, b) := ranges[0];
            && from + 2 <= a <= b < end <= |text| && Nested(text, ranges[1..], b + 1, end)
            && LiteralInside(k, text, ranges, from, end) ==
                 Blank(text, from, a) + CodeOnly(k, text[a..b]) + Blank(text, b, b + 1) +
                 LiteralInside(k, text, ranges[1..], b + 1, end)
  {
  }

  lemma CodeOnlyIs(k: Letters, text: string)
    ensures CodeOnly(k, text) == CodeFrom(k, text, 0)
  {
  }

  lemma InsideAt(k: Letters, text: string, ranges: seq<Range>, from: nat, end: nat, i: nat)
    requires Nested(text, ranges, from, end) && 0 < from <= i < end && |ranges| > 0
    ensures var (a, b) := ranges[0];
            && a <= b < end && Nested(text, ranges[1..], b + 1, end)
            && LiteralInside(k, text, ranges, from, end)[i - from] ==
                 if a <= i < b then CodeOnly(k, text[a..b])[i - a]
                 else if i <= b then Blanked(text[i])
                 else LiteralInside(k, text, ranges[1..], b + 1, end)[i - (b + 1)]
  {
    hide LiteralInside, CodeOnly, Nested, Blank;
    InsideHead(k, text, ranges, from, end);
    var (a, b) := ranges[0];
    FourAt(Blank(text, from, a), CodeOnly(k, text[a..b]), Blank(text, b, b + 1),
           LiteralInside(k, text, ranges[1..], b + 1, end), i - from);
  }

  lemma FourAt(x: string, y: string, z: string, w: string, i: nat)
    requires i < |x| + |y| + |z| + |w|
    ensures (x + y + z + w)[i] ==
              if i < |x| then x[i]
              else if i < |x| + |y| then y[i - |x|]
              else if i < |x| + |y| + |z| then z[i - |x| - |y|]
              else w[i - |x| - |y| - |z|]
  {
  }

  /** `elixir_code_only` keeps every offset: code and line breaks stay, everything else is blanked. */
  lemma {:induction false} CodeShows(k: Letters, text: string, cursor: nat, i: nat)
    requires cursor <= i < |text|
    ensures Shows(CodeFrom(k, text, cursor)[i - cursor], text[i])
    decreases |text|, 1, |text| - cursor
  {
    hide CodeFrom, NextToken, LiteralSpan, LiteralInside, LineEnd, CharEnd, Nested, Blank, AfterQuestion;
    CodeStep(k, text, cursor);
    match NextToken(k, text, 0, cursor)
    case Comment(end) =>
      TwoAt(Blank(text, cursor, end), CodeFrom(k, text, end), i - cursor);
      if i >= end {
        CodeShows(k, text, end, i);
      }
    case Character(end) =>
      TwoAt(text[cursor..end], CodeFrom(k, text, end), i - cursor);
      if i >= end {
        CodeShows(k, text, end, i);
      }
    case Literal(literal) =>
      SpanNested(k, text, cursor);
      var inside, rest := LiteralInside(k, text, literal.ranges, cursor + 1, literal.end), CodeFrom(k, text, literal.end);
      TwoAt("0" + inside, rest, i - cursor);
      if i >= literal.end {
        CodeShows(k, text, literal.end, i);
      } else {
        TwoAt("0", inside, i - cursor);
        if i > cursor {
          InsideShows(k, text, literal.ranges, cursor + 1, literal.end, i);
        }
      }
    case Plain =>
      TwoAt([text[cursor]], CodeFrom(k, text, cursor + 1), i - cursor);
      if i > cursor {
        CodeShows(k, text, cursor + 1, i);
      }
  }

  lemma TwoAt(x: string, y: string, i: nat)
    requires i < |x| + |y|
    ensures (x + y)[i] == if i < |x| then x[i] else y[i - |x|]
  {
  }

  // ----- One step of each reader, so that the proofs below can go token by token.

  lemma CodeStep(k: Letters, text: string, cursor: nat)
    requires cursor < |text|
    ensures var t := NextToken(k, text, 0, cursor); t.Literal? ==> Nested(text, t.span.ranges, cursor + 1, t.span.end)
    ensures CodeFrom(k, text, cursor) ==
              match NextToken(k, text, 0, cursor)
              case Comment(end) => Blank(text, cursor, end) + CodeFrom(k, text, end)
              case Character(end) => text[cursor..end] + CodeFrom(k, text, end)
              case Literal(literal) =>
                "0" + LiteralInside(k, text, literal.ranges, cursor + 1, literal.end) + CodeFrom(k, text, literal.end)
              case Plain => [text[cursor]] + CodeFrom(k, text, cursor + 1)
  {
    SpanNested(k, text, cursor);
  }

  function TokenEnd(token: Token, cursor: nat): nat {
    match token
    case Comment(end) => end + 1
    case Character(end) => end
    case Literal(span) => span.end
    case Plain => cursor + 1
  }

  /** A search for the end of an interpolation stops at a token, or goes on behind it. */
  lemma ScanStep(k: Letters, text: string, start: nat, cursor: nat, depth: nat)
    requires start <= cursor < |text|
    ensures var t := NextToken(k, text, start, cursor);
            var depth' := if t.Plain? then Deeper(text[cursor], depth) else depth;
            InterpolationScan(k, text, start, cursor, depth) ==
              if t.Plain? && text[cursor] == '}' && depth <= 1 then Some(cursor)
              else if TokenEnd(t, cursor) > |text| then None
              else InterpolationScan(k, text, start, TokenEnd(t, cursor), depth')
  {
  }

  lemma ScanEnd(k: Letters, text: string, start: nat)
    requires start <= |text|
    ensures forall depth :: InterpolationScan(k, text, start, |text|, depth) == None
    ensures InterpolationEnd(k, text, start) == InterpolationScan(k, text, start, start, 1)
  {
  }

  lemma DeeperIs(c: char, depth: nat)
    ensures Deeper(c, depth) == if c == '{' then depth + 1 else if c == '}' && depth > 0 then depth - 1 else depth
  {
  }

  lemma BodyEnd(k: Letters, text: string, o: Opening, depth: nat)
    requires |o.closing| > 0
    ensures LiteralBody(k, text, o, |text|, depth) == Span(|text|, [])
  {
  }

  lemma BodyStep(k: Letters, text: string, o: Opening, cursor: nat, depth: nat)
    requires cursor < |text| && |o.closing| > 0
    ensures LiteralBody(k, text, o, cursor, depth) ==
              if text[cursor] == '\\' then
                LiteralBody(k, text, o, if cursor + 2 <= |text| then cursor + 2 else |text|, depth)
              else if o.interpolates && StartsWith(text, "#{", cursor) then
                match InterpolationScan(k, text, cursor + 2, cursor + 2, 1)
                case None => Span(|text|, [])
                case Some(e) =>
                  var rest := LiteralBody(k, text, o, e + 1, depth);
                  Span(rest.end, [(cursor + 2, e)] + rest.ranges)
              else if o.paired then
                if [text[cursor]] == o.opening then LiteralBody(k, text, o, cursor + 1, depth + 1)
                else if [text[cursor]] != o.closing then LiteralBody(k, text, o, cursor + 1, depth)
                else if depth <= 1 then Span(cursor + 1, [])
                else LiteralBody(k, text, o, cursor + 1, depth - 1)
              else if StartsWith(text, o.closing, cursor) then Span(cursor + |o.closing|, [])
              else LiteralBody(k, text, o, cursor + 1, depth)
  {
  }

  // ----- A literal or an interpolation is read the same way in a piece of the text that holds all of it.

  function Moved(ranges: seq<Range>, offset: nat): seq<Range> {
    if |ranges| == 0 then [] else [(ranges[0].0 + offset, ranges[0].1 + offset)] + Moved(ranges[1..], offset)
  }

  lemma MovedNil(offset: nat)
    ensures Moved([], offset) == []
  {
  }

  lemma MovedCons(r: Range, ranges: seq<Range>, offset: nat)
    ensures Moved([r] + ranges, offset) == [(r.0 + offset, r.1 + offset)] + Moved(ranges, offset)
  {
  }

  lemma TokenLocal(text: string, a: nat, b: nat, token: string, i: nat)
    requires a <= i && i + |token| <= b <= |text|
    ensures StartsWith(text[a..b], token, i - a) <==> StartsWith(text, token, i)
  {
  }

  lemma TokenOutside(text: string, a: nat, b: nat, token: string, i: nat)
    requires a <= i <= b <= |text| && !StartsWith(text, token, i)
    ensures !StartsWith(text[a..b], token, i - a)
  {
  }

  lemma {:induction false} LineEndLocal(text: string, a: nat, b: nat, i: nat)
    requires a <= i <= b <= |text|
    ensures LineEnd(text[a..b], i - a) == if LineEnd(text, i) < b then LineEnd(text, i) - a else b - a
    decreases b - i
  {
  }

  lemma {:induction false} SkipLocal(k: Letters, text: string, a: nat, b: nat, i: nat)
    requires a <= i <= b <= |text| && SkipLetters(k, text, i) <= b
    ensures SkipLetters(k, text[a..b], i - a) == SkipLetters(k, text, i) - a
    decreases b - i
  {
    if i < b && k.isAlpha(text[i]) {
      SkipLocal(k, text, a, b, i + 1);
    }
  }

  lemma OpeningLocal(k: Letters, text: string, a: nat, b: nat, start: nat)
    requires a <= start <= b <= |text|
    ensures LiteralOpening(k, text, start).None? ==> LiteralOpening(k, text[a..b], start - a).None?
    ensures var o := LiteralOpening(k, text, start);
            o.Some? && o.value.content <= b ==>
              LiteralOpening(k, text[a..b], start - a) == Some(o.value.(content := o.value.content - a))
  {
    var sub := text[a..b];
    forall i | start <= i <= start + 2 && i <= b
      ensures TripleQuote(sub, i - a).Some? ==> TripleQuote(text, i).Some?
      ensures TripleQuote(text, i).Some? && i + 3 <= b ==> TripleQuote(sub, i - a) == TripleQuote(text, i)
    {
      if i + 3 <= b {
        TokenLocal(text, a, b, "\"\"\"", i);
        TokenLocal(text, a, b, "'''", i);
      }
    }
  }

  lemma {:induction false} BodyLocal(k: Letters, text: string, a: nat, b: nat, o: Opening, o': Opening, cursor: nat, depth: nat)
    requires a <= cursor <= b < |text| && |o.closing| > 0
    requires o' == o.(content := o'.content)
    requires LiteralBody(k, text, o, cursor, depth).end <= b
    ensures var r := LiteralBody(k, text[a..b], o', cursor - a, depth);
            LiteralBody(k, text, o, cursor, depth) == Span(r.end + a, Moved(r.ranges, a))
    decreases |text| - cursor, 0, 1
  {
    hide LiteralBody, InterpolationScan, StartsWith, Moved;
    MovedNil(a);
    BodyStep(k, text, o, cursor, depth);
    if cursor < b {
      BodyStep(k, text[a..b], o', cursor - a, depth);
      if text[cursor] == '\\' {
        BodyLocal(k, text, a, b, o, o', cursor + 2, depth);
      } else if o.interpolates && StartsWith(text, "#{", cursor) {
        InterpolationLocal(k, text, a, b, o, o', cursor, depth);
      } else {
        if o.interpolates {
          TokenOutside(text, a, b, "#{", cursor);
        }
        if o.paired {
          if [text[cursor]] == o.opening {
            BodyLocal(k, text, a, b, o, o', cursor + 1, depth + 1);
          } else if [text[cursor]] != o.closing {
            BodyLocal(k, text, a, b, o, o', cursor + 1, depth);
          } else if depth > 1 {
            BodyLocal(k, text, a, b, o, o', cursor + 1, depth - 1);
          }
        } else if StartsWith(text, o.closing, cursor) {
          TokenLocal(text, a, b, o.closing, cursor);
        } else {
          TokenOutside(text, a, b, o.closing, cursor);
          BodyLocal(k, text, a, b, o, o', cursor + 1, depth);
        }
      }
    }
  }

  lemma {:induction false} InterpolationLocal(k: Letters, text: string, a: nat, b: nat, o: Opening, o': Opening, cursor: nat, depth: nat)
    requires a <= cursor < b < |text| && |o.closing| > 0 && text[cursor] != '\\'
    requires o' == o.(content := o'.content) && o.interpolates && StartsWith(text, "#{", cursor)
    requires LiteralBody(k, text, o, cursor, depth).end <= b
    ensures var r := LiteralBody(k, text[a..b], o', cursor - a, depth);
            LiteralBody(k, text, o, cursor, depth) == Span(r.end + a, Moved(r.ranges, a))
    decreases |text| - cursor, 0, 0
  {
    hide LiteralBody, InterpolationScan, StartsWith, Moved;
    BodyStep(k, text, o, cursor, depth);
    BodyStep(k, text[a..b], o', cursor - a, depth);
    var e := InterpolationScan(k, text, cursor + 2, cursor + 2, 1).value;
    TokenLocal(text, a, b, "#{", cursor);
    ScanLocal(k, text, a, b, cursor + 2, cursor + 2, 1);
    BodyLocal(k, text, a, b, o, o', e + 1, depth);
    MovedCons((cursor + 2 - a, e - a), LiteralBody(k, text[a..b], o', e + 1 - a, depth).ranges, a);
  }

  lemma {:induction false} SpanLocal(k: Letters, text: string, a: nat, b: nat, start: nat)
    requires a <= start <= b < |text|
    ensures LiteralSpan(k, text, start).None? ==> LiteralSpan(k, text[a..b], start - a).None?
    ensures var r := LiteralSpan(k, text, start);
            r.Some? && r.value.end <= b ==>
              && LiteralSpan(k, text[a..b], start - a).Some?
              && LiteralSpan(k, text[a..b], start - a).value.end == r.value.end - a
    decreases |text| - start, 1
  {
    hide LiteralBody, InterpolationScan, LiteralOpening;
    OpeningLocal(k, text, a, b, start);
    var r, sub := LiteralSpan(k, text, start), text[a..b];
    if r.Some? && r.value.end <= b {
      var o := LiteralOpening(k, text, start).value;
      var o' := LiteralOpening(k, sub, start - a).value;
      var depth := if o.paired then 1 else 0;
      BodyLocal(k, text, a, b, o, o', o.content, depth);
      var body := LiteralBody(k, text, o, o.content, depth);
      if text[start] == '~' {
        SkipLocal(k, text, a, b, body.end);
      }
    }
  }

  lemma {:induction false} ScanLocal(k: Letters, text: string, a: nat, b: nat, start: nat, cursor: nat, depth: nat)
    requires a <= start <= cursor <= b < |text|
    requires InterpolationScan(k, text, start, cursor, depth).Some?
    requires InterpolationScan(k, text, start, cursor, depth).value < b
    ensures InterpolationScan(k, text[a..b], start - a, cursor - a, depth)
         == Some(InterpolationScan(k, text, start, cursor, depth).value - a)
    decreases |text| - cursor, 3
  {
    hide InterpolationScan, NextToken, LiteralSpan, LineEnd, AfterQuestion, Deeper;
    var t := NextToken(k, text, start, cursor);
    ScanStep(k, text, start, cursor, depth);
    ScanStep(k, text[a..b], start - a, cursor - a, depth);
    TokenLocalAt(k, text, a, b, start, cursor);
    if !(t.Plain? && text[cursor] == '}' && depth <= 1) {
      ScanLocal(k, text, a, b, start, TokenEnd(t, cursor), if t.Plain? then Deeper(text[cursor], depth) else depth);
    }
  }

  /** Two tokens that differ at most in where the text starts that they were read from. */
  predicate SameToken(t: Token, t': Token, offset: nat)
  {
    match t
    case Comment(end) => t'.Comment? && t'.end + offset == end
    case Character(end) => t'.Character? && t'.end + offset == end
    case Literal(span) => t'.Literal? && t'.span.end + offset == span.end
    case Plain => t'.Plain?
  }

  lemma {:induction false} TokenLocalAt(k: Letters, text: string, a: nat, b: nat, start: nat, cursor: nat)
    requires a <= start <= cursor < b < |text|
    requires TokenEnd(NextToken(k, text, start, cursor), cursor) <= b
    ensures SameToken(NextToken(k, text, start, cursor), NextToken(k, text[a..b], start - a, cursor - a), a)
    ensures TokenEnd(NextToken(k, text, start, cursor), cursor)
         == TokenEnd(NextToken(k, text[a..b], start - a, cursor - a), cursor - a) + a
    decreases |text| - cursor, 2
  {
    LineEndLocal(text, a, b, cursor);
    if !NextToken(k, text, start, cursor).Comment? && !NextToken(k, text, start, cursor).Character? {
      SpanLocal(k, text, a, b, cursor);
    }
  }

  // ----- Reading on behind the end of an interpolation does not change how its code is read.

  /** Read as code from `cursor` on, `text` does not end inside a token that more text would continue. */
  predicate ClosedFrom(k: Letters, text: string, cursor: nat)
    requires cursor <= |text|
    decreases |text| - cursor
  {
    if cursor == |text| then true
    else
      match NextToken(k, text, 0, cursor)
      case Comment(end) => ClosedFrom(k, text, end)
      case Character(end) => !(end == |text| && end == cursor + 2 && text[cursor + 1] == '\\') && ClosedFrom(k, text, end)
      case Literal(literal) => ClosedFrom(k, text, literal.end)
      case Plain =>
        && !(text[cursor] == '?' && cursor + 1 == |text|)
        && !(text[cursor] == '~' && cursor + 2 == |text| && k.isAlpha(text[cursor + 1]))
        && ClosedFrom(k, text, cursor + 1)
  }

  lemma ClosedStep(k: Letters, text: string, cursor: nat)
    requires cursor <= |text|
    ensures ClosedFrom(k, text, cursor) <==>
              if cursor == |text| then true
              else
                match NextToken(k, text, 0, cursor)
                case Comment(end) => ClosedFrom(k, text, end)
                case Character(end) => !(end == |text| && end == cursor + 2 && text[cursor + 1] == '\\') && ClosedFrom(k, text, end)
                case Literal(literal) => ClosedFrom(k, text, literal.end)
                case Plain =>
                  && !(text[cursor] == '?' && cursor + 1 == |text|)
                  && !(text[cursor] == '~' && cursor + 2 == |text| && k.isAlpha(text[cursor + 1]))
                  && ClosedFrom(k, text, cursor + 1)
  {
  }

  lemma NewlineClosed(k: Letters, text: string, i: nat)
    requires i < |text| && text[i] == '\n'
    ensures ClosedFrom(k, text, i) == ClosedFrom(k, text, i + 1)
  {
  }

  lemma {:induction false} ScanClosed(k: Letters, text: string, a: nat, cursor: nat, depth: nat)
    requires a <= cursor <= |text| && InterpolationScan(k, text, a, cursor, depth).Some?
    ensures ClosedFrom(k, text[a..InterpolationScan(k, text, a, cursor, depth).value], cursor - a)
    decreases |text| - cursor
  {
    hide InterpolationScan, NextToken, LiteralSpan, ClosedFrom, AfterQuestion, Deeper, LineEnd;
    var b := InterpolationScan(k, text, a, cursor, depth).value;
    var sub := text[a..b];
    ScanStep(k, text, a, cursor, depth);
    ClosedStep(k, sub, cursor - a);
    if cursor < b {
      TokenLocalAt(k, text, a, b, a, cursor);
      match NextToken(k, text, a, cursor)
      case Comment(newline) =>
        ScanClosed(k, text, a, newline + 1, depth);
        NewlineClosed(k, sub, newline - a);
      case Character(end) => ScanClosed(k, text, a, end, depth);
      case Literal(literal) => ScanClosed(k, text, a, literal.end, depth);
      case Plain =>
        ScanClosed(k, text, a, cursor + 1, Deeper(text[cursor], depth));
    }
  }

  ghost predicate Scanned(k: Letters, text: string, ranges: seq<Range>) {
    forall r :: r in ranges ==> r.0 <= |text| && InterpolationEnd(k, text, r.0) == Some(r.1)
  }

  lemma {:induction false} BodyScanned(k: Letters, text: string, o: Opening, cursor: nat, depth: nat)
    requires cursor <= |text| && |o.closing| > 0
    ensures Scanned(k, text, LiteralBody(k, text, o, cursor, depth).ranges)
    decreases |text| - cursor
  {
    if cursor < |text| {
      if text[cursor] == '\\' {
        BodyScanned(k, text, o, if cursor + 2 <= |text| then cursor + 2 else |text|, depth);
      } else if o.interpolates && StartsWith(text, "#{", cursor) {
        var e := InterpolationEnd(k, text, cursor + 2);
        if e.Some? {
          BodyScanned(k, text, o, e.value + 1, depth);
        }
      } else if o.paired {
        if [text[cursor]] == o.opening {
          BodyScanned(k, text, o, cursor + 1, depth + 1);
        } else if [text[cursor]] != o.closing {
          BodyScanned(k, text, o, cursor + 1, depth);
        } else if depth > 1 {
          BodyScanned(k, text, o, cursor + 1, depth - 1);
        }
      } else if !StartsWith(text, o.closing, cursor) {
        BodyScanned(k, text, o, cursor + 1, depth);
      }
    }
  }
}
