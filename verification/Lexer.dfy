/** The lexer as the gate runs it: cursors that move over the text and a buffer that is overwritten.
    Each method computes the function of `Lexing` that specifies it. */
module Lexer {
  import opened Wrappers
  import opened Lexing
  import LexingLaws

  method SkipLettersFrom(k: Letters, text: string, start: nat) returns (cursor: nat)
    requires start <= |text|
    ensures cursor == SkipLetters(k, text, start)
  {
    cursor := start;
    while cursor < |text| && k.isAlpha(text[cursor])
      invariant start <= cursor <= |text| && SkipLetters(k, text, cursor) == SkipLetters(k, text, start)
    {
      cursor := cursor + 1;
    }
  }

  /** `text.find("\n", start)`, with the length of the text when there is no newline. */
  method FindNewline(text: string, start: nat) returns (cursor: nat)
    requires start <= |text|
    ensures cursor == LineEnd(text, start)
  {
    cursor := start;
    while cursor < |text| && text[cursor] != '\n'
      invariant start <= cursor <= |text| && LineEnd(text, cursor) == LineEnd(text, start)
    {
      cursor := cursor + 1;
    }
  }

  /** What is read of a literal, behind what has been read of it already. */
  ghost function Behind(ranges: seq<Range>, rest: Span): Span {
    Span(rest.end, ranges + rest.ranges)
  }

  lemma BehindNone(ranges: seq<Range>, end: nat)
    ensures Behind(ranges, Span(end, [])) == Span(end, ranges)
  {
    assert ranges + [] == ranges;
  }

  lemma BehindOne(ranges: seq<Range>, range: Range, rest: Span)
    ensures Behind(ranges, Span(rest.end, [range] + rest.ranges)) == Behind(ranges + [range], rest)
  {
    assert ranges + ([range] + rest.ranges) == ranges + [range] + rest.ranges;
  }

  lemma NothingBehind(rest: Span)
    ensures Behind([], rest) == rest
  {
    assert [] + rest.ranges == rest.ranges;
  }

  lemma SpanIs(k: Letters, text: string, start: nat)
    requires start <= |text|
    ensures LiteralSpan(k, text, start) ==
              match LiteralOpening(k, text, start)
              case None => None
              case Some(o) =>
                var body := LiteralBody(k, text, o, o.content, if o.paired then 1 else 0);
                Some(if text[start] == '~' then body.(end := SkipLetters(k, text, body.end)) else body)
  {
  }

  /** `_elixir_literal_span` */
  method ReadLiteral(k: Letters, text: string, start: nat) returns (r: Option<Span>)
    requires start <= |text|
    ensures r == LiteralSpan(k, text, start)
    decreases |text| - start, 1
  {
    hide LiteralBody, InterpolationScan, SkipLetters, LiteralSpan, LiteralOpening, Behind, StartsWith;
    SpanIs(k, text, start);
    var o := LiteralOpening(k, text, start);
    if o.None? {
      return None;
    }
    var opening := o.value;
    var cursor, depth := opening.content, if opening.paired then 1 else 0;
    var ranges: seq<Range> := [];
    ghost var body := LiteralBody(k, text, opening, cursor, depth);
    NothingBehind(body);
    while cursor < |text|
      invariant opening.content <= cursor <= |text|
      invariant body == Behind(ranges, LiteralBody(k, text, opening, cursor, depth))
      decreases |text| - cursor
    {
      LexingLaws.BodyStep(k, text, opening, cursor, depth);
      if text[cursor] == '\\' {
        cursor := if cursor + 2 <= |text| then cursor + 2 else |text|;
        continue;
      }
      if opening.interpolates && StartsWith(text, "#{", cursor) {
        StartsWithChars(text, "#{", cursor);
        var interpolationEnd := ReadInterpolation(k, text, cursor + 2);
        if interpolationEnd.None? {
          cursor := |text|;
          BehindNone(ranges, cursor);
          break;
        }
        var range := (cursor + 2, interpolationEnd.value);
        BehindOne(ranges, range, LiteralBody(k, text, opening, interpolationEnd.value + 1, depth));
        ranges := ranges + [range];
        cursor := interpolationEnd.value + 1;
        continue;
      }
      if opening.paired {
        if [text[cursor]] == opening.opening {
          depth := depth + 1;
        } else if [text[cursor]] == opening.closing {
          if depth <= 1 {
            cursor := cursor + 1;
            BehindNone(ranges, cursor);
            break;
          }
          depth := depth - 1;
        }
        cursor := cursor + 1;
        continue;
      }
      if StartsWith(text, opening.closing, cursor) {
        cursor := cursor + |opening.closing|;
        BehindNone(ranges, cursor);
        break;
      }
      cursor := cursor + 1;
    }
    LexingLaws.BodyEnd(k, text, opening, depth);
    BehindNone(ranges, |text|);
    assert body == Span(cursor, ranges);
    if text[start] == '~' {
      cursor := SkipLettersFrom(k, text, cursor);
    }
    r := Some(Span(cursor, ranges));
  }

  /** `_elixir_interpolation_end` */
  method ReadInterpolation(k: Letters, text: string, start: nat) returns (r: Option<nat>)
    requires start <= |text|
    ensures r == InterpolationEnd(k, text, start)
    decreases |text| - start, 2
  {
    hide InterpolationScan, LiteralSpan, Deeper;
    LexingLaws.ScanEnd(k, text, start);
    var cursor, depth := start, 1;
    while cursor < |text|
      invariant start <= cursor <= |text| && depth >= 1
      invariant InterpolationScan(k, text, start, cursor, depth) == InterpolationEnd(k, text, start)
      decreases |text| - cursor
    {
      LexingLaws.ScanStep(k, text, start, cursor, depth);
      LexingLaws.DeeperIs(text[cursor], depth);
      if text[cursor] == '#' && !AfterQuestion(text, start, cursor) {
        var newline := FindNewline(text, cursor);
        if newline == |text| {
          return None;
        }
        cursor := newline + 1;
        continue;
      }
      if text[cursor] == '?' && cursor + 1 < |text| {
        cursor := CharEnd(text, cursor);
        continue;
      }
      var literal := ReadLiteral(k, text, cursor);
      if literal.Some? {
        cursor := literal.value.end;
        continue;
      }
      if text[cursor] == '{' {
        depth := depth + 1;
      } else if text[cursor] == '}' {
        if depth == 1 {
          return Some(cursor);
        }
        depth := depth - 1;
      }
      cursor := cursor + 1;
    }
    r := None;
  }

  /** `_blank_elixir_non_code` */
  method BlankNonCode(output: array<char>, start: nat, end: nat)
    requires start <= end <= output.Length
    modifies output
    ensures output[..] == old(output[..start]) + Blank(old(output[..]), start, end) + old(output[end..])
  {
    var index := start;
    while index < end
      invariant start <= index <= end
      invariant forall i :: 0 <= i < output.Length ==>
                  output[i] == if start <= i < index then Blanked(old(output[i])) else old(output[i])
    {
      if output[index] != '\r' && output[index] != '\n' {
        output[index] := ' ';
      }
      index := index + 1;
    }
  }

  /** `output[start:end] = code` for a `code` of the same length. */
  method Overwrite(output: array<char>, start: nat, code: string)
    requires start + |code| <= output.Length
    modifies output
    ensures output[..] == old(output[..start]) + code + old(output[start + |code|..])
  {
    for i := 0 to |code|
      invariant forall j :: 0 <= j < output.Length ==>
                  output[j] == if start <= j < start + i then code[j - start] else old(output[j])
    {
      output[start + i] := code[i];
    }
  }

  lemma BlankSame(s: string, t: string, from: nat, end: nat)
    requires from <= end <= |s| && |s| == |t| && s[from..] == t[from..]
    ensures Blank(s, from, end) == Blank(t, from, end)
  {
  }

  lemma BlankPart(text: string, x: string, pos: nat, end: nat, a: nat, b: nat)
    requires pos <= a <= b <= end <= |text| == |x| && x[pos..end] == Blank(text, pos, end)
    ensures x[a..b] == Blank(text, a, b)
  {
    hide Blank;
    forall i | 0 <= i < b - a ensures x[a..b][i] == Blank(text, a, b)[i] {
      assert x[a + i] == x[pos..end][a + i - pos] == Blanked(text[a + i]);
    }
  }

  lemma Overwritten(x: string, y: string, a: nat, b: nat, code: string)
    requires a <= b <= |x| && |code| == b - a && y == x[..a] + code + x[b..]
    ensures |y| == |x| && y[..a] == x[..a] && y[a..b] == code && y[b..] == x[b..]
  {
  }

  lemma SameTail(x: string, y: string, b: nat, c: nat, d: nat)
    requires b <= c <= d <= |x| == |y| && y[b..] == x[b..]
    ensures y[c..d] == x[c..d] && y[d..] == x[d..]
  {
    forall i | c <= i < |y| ensures y[i] == x[i] {
      assert y[i] == y[b..][i - b] && x[i] == x[b..][i - b];
    }
  }

  lemma SameHead(x: string, y: string, pos: nat, a: nat)
    requires pos <= a <= |x| && |x| == |y| && y[..a] == x[..a]
    ensures y[..pos] == x[..pos] && y[pos..a] == x[pos..a]
  {
    forall i | 0 <= i < a ensures y[i] == x[i] {
      assert y[i] == y[..a][i] && x[i] == x[..a][i];
    }
  }

  lemma Pieces(y: string, pos: nat, a: nat, b: nat, c: nat)
    requires pos <= a <= b <= c <= |y|
    ensures y[..c] == y[..pos] + (y[pos..a] + y[a..b] + y[b..c])
  {
  }

  /** Code written between `a` and `b` into a buffer that is blanked from `pos` to `end`. */
  lemma WrittenBetween(text: string, x: string, y: string, pos: nat, a: nat, b: nat, end: nat, code: string)
    requires pos <= a <= b < end <= |text| == |x| && |code| == b - a
    requires x[pos..end] == Blank(text, pos, end) && y == x[..a] + code + x[b..]
    ensures |y| == |text| && y[b + 1..end] == Blank(text, b + 1, end) && y[end..] == x[end..]
    ensures y[..b + 1] == x[..pos] + (Blank(text, pos, a) + code + Blank(text, b, b + 1))
  {
    hide Blank;
    BlankPart(text, x, pos, end, pos, a);
    BlankPart(text, x, pos, end, b, b + 1);
    BlankPart(text, x, pos, end, b + 1, end);
    Overwritten(x, y, a, b, code);
    SameTail(x, y, b, b, b + 1);
    SameTail(x, y, b, b + 1, end);
    SameHead(x, y, pos, a);
    Pieces(y, pos, a, b, b + 1);
  }

  /** One interpolation written into a blanked buffer `x` gives `y`. */
  lemma ShownStep(k: Letters, text: string, x: string, y: string, ranges: seq<Range>, pos: nat, end: nat)
    requires Nested(text, ranges, pos, end) && pos > 0 && |ranges| > 0 && |x| == |text|
    requires x[pos..end] == Blank(text, pos, end)
    requires y == x[..ranges[0].0] + CodeOnly(k, text[ranges[0].0..ranges[0].1]) + x[ranges[0].1..]
    ensures var b := ranges[0].1;
            && Nested(text, ranges[1..], b + 1, end) && |y| == |text|
            && y[b + 1..end] == Blank(text, b + 1, end) && y[end..] == x[end..]
            && y[..b + 1] + LiteralInside(k, text, ranges[1..], b + 1, end)
            == x[..pos] + LiteralInside(k, text, ranges, pos, end)
  {
    hide LiteralInside, CodeOnly, CodeFrom, Nested, Blank;
    LexingLaws.InsideHead(k, text, ranges, pos, end);
    var (a, b) := ranges[0];
    var code, rest := CodeOnly(k, text[a..b]), LiteralInside(k, text, ranges[1..], b + 1, end);
    var written := Blank(text, pos, a) + code + Blank(text, b, b + 1);
    WrittenBetween(text, x, y, pos, a, b, end, code);
    assert x[..pos] + written + rest == x[..pos] + (written + rest);
  }

  /** The buffer while the interpolations are put back: shown up to `pos`, blanked from there to `end`. */
  ghost predicate Showing(k: Letters, text: string, output: string, rest: seq<Range>, pos: nat, end: nat,
                          whole: string, tail: string) {
    && 0 < pos <= end <= |text| == |output| && Nested(text, rest, pos, end)
    && output[pos..end] == Blank(text, pos, end) && output[end..] == tail
    && output[..pos] + LiteralInside(k, text, rest, pos, end) == whole
  }

  lemma ShowingStep(k: Letters, text: string, x: string, y: string, rest: seq<Range>, pos: nat, end: nat,
                    whole: string, tail: string)
    requires Showing(k, text, x, rest, pos, end, whole, tail) && |rest| > 0
    requires rest[0].0 <= rest[0].1 <= |x|
    requires y == x[..rest[0].0] + CodeOnly(k, text[rest[0].0..rest[0].1]) + x[rest[0].1..]
    ensures Showing(k, text, y, rest[1..], rest[0].1 + 1, end, whole, tail)
  {
    hide LiteralInside, CodeOnly, Nested, Blank;
    ShownStep(k, text, x, y, rest, pos, end);
    NestedBounds(text, rest[1..], rest[0].1 + 1, end);
  }

  lemma ShowingBounds(k: Letters, text: string, output: string, rest: seq<Range>, pos: nat, end: nat,
                      whole: string, tail: string)
    requires Showing(k, text, output, rest, pos, end, whole, tail)
    ensures |rest| > 0 ==> rest[0].0 <= rest[0].1 < end <= |text|
    ensures |rest| == 0 ==> output == whole + tail
  {
    hide LiteralInside, CodeOnly, Nested, Blank;
    NestedBounds(text, rest, pos, end);
    if |rest| == 0 {
      LexingLaws.InsideNil(k, text, pos, end);
      ThreeParts(output, pos, end, Blank(text, pos, end), whole);
    }
  }

  /** Puts the code of the interpolations back into a literal that is blanked already. */
  method ShowInterpolations(k: Letters, text: string, output: array<char>, ranges: seq<Range>, from: nat, end: nat)
    requires Nested(text, ranges, from, end) && from > 0 && output.Length == |text|
    requires output[from..end] == Blank(text, from, end)
    modifies output
    ensures output[..] == old(output[..from]) + LiteralInside(k, text, ranges, from, end) + old(output[end..])
    decreases |text|, 0
  {
    hide *;
    NestedBounds(text, ranges, from, end);
    ghost var pos := from;
    ghost var whole, tail := output[..from] + LiteralInside(k, text, ranges, from, end), output[end..];
    ShowingStarts(k, text, output[..], ranges, from, end);
    assert ranges[0..] == ranges;
    for i := 0 to |ranges|
      invariant Showing(k, text, output[..], ranges[i..], pos, end, whole, tail)
    {
      ghost var before := output[..];
      ShowingBounds(k, text, before, ranges[i..], pos, end, whole, tail);
      assert ranges[i..][0] == ranges[i] && ranges[i..][1..] == ranges[i + 1..];
      var code := ReadCode(k, text[ranges[i].0..ranges[i].1]);
      Overwrite(output, ranges[i].0, code);
      ShowingStep(k, text, before, output[..], ranges[i..], pos, end, whole, tail);
      pos := ranges[i].1 + 1;
    }
    ShowingBounds(k, text, output[..], ranges[|ranges|..], pos, end, whole, tail);
  }

  lemma ShowingStarts(k: Letters, text: string, output: string, ranges: seq<Range>, from: nat, end: nat)
    requires Nested(text, ranges, from, end) && from > 0 && |output| == |text|
    requires end <= |text| && from <= end && output[from..end] == Blank(text, from, end)
    ensures Showing(k, text, output, ranges, from, end, output[..from] + LiteralInside(k, text, ranges, from, end), output[end..])
  {
    hide LiteralInside, CodeOnly, Nested, Blank;
  }

  lemma ThreeParts(output: string, pos: nat, end: nat, middle: string, whole: string)
    requires pos <= end <= |output| && output[pos..end] == middle && output[..pos] + middle == whole
    ensures output == whole + output[end..]
  {
    assert output == output[..pos] + output[pos..end] + output[end..];
  }

  lemma NestedBounds(text: string, ranges: seq<Range>, from: nat, end: nat)
    requires Nested(text, ranges, from, end)
    ensures from <= end <= |text|
    ensures |ranges| > 0 ==> from + 2 <= ranges[0].0 <= ranges[0].1 < end
  {
  }

  /** The buffer while code is read: the view up to the cursor, the text from there on. */
  ghost predicate Viewing(k: Letters, text: string, output: string, cursor: nat) {
    && cursor <= |text| == |output| && output[cursor..] == text[cursor..]
    && output[..cursor] + CodeFrom(k, text, cursor) == CodeOnly(k, text)
  }

  lemma ViewingBounds(k: Letters, text: string, output: string, cursor: nat)
    requires Viewing(k, text, output, cursor)
    ensures cursor <= |text| == |output| && output[cursor..] == text[cursor..]
    ensures cursor == |text| ==> output == CodeOnly(k, text)
  {
    hide CodeFrom, CodeOnly;
    assert output[..cursor] + output[cursor..] == output;
  }

  lemma ViewingStarts(k: Letters, text: string)
    ensures Viewing(k, text, text, 0)
  {
    hide CodeFrom;
    assert text[..0] + CodeFrom(k, text, 0) == CodeFrom(k, text, 0);
  }

  lemma ViewingStep(k: Letters, text: string, before: string, after: string, cursor: nat, end: nat, shown: string)
    requires Viewing(k, text, before, cursor) && cursor < end <= |text| && |shown| == end - cursor
    requires CodeFrom(k, text, cursor) == shown + CodeFrom(k, text, end)
    requires after == before[..cursor] + shown + before[end..]
          || (after == before && shown == text[cursor..end])
    ensures Viewing(k, text, after, end)
  {
    hide CodeFrom, CodeOnly;
    Advanced(before, after, text, cursor, end, shown, CodeFrom(k, text, end));
  }

  lemma CommentView(k: Letters, text: string, cursor: nat)
    requires cursor < |text| && text[cursor] == '#' && !AfterQuestion(text, 0, cursor)
    ensures cursor < LineEnd(text, cursor)
    ensures CodeFrom(k, text, cursor) ==
              Blank(text, cursor, LineEnd(text, cursor)) + CodeFrom(k, text, LineEnd(text, cursor))
  {
    hide CodeFrom, LineEnd, Blank, AfterQuestion;
    LexingLaws.CodeStep(k, text, cursor);
  }

  lemma CharacterView(k: Letters, text: string, cursor: nat)
    requires cursor + 1 < |text| && text[cursor] == '?'
    ensures CodeFrom(k, text, cursor) == text[cursor..CharEnd(text, cursor)] + CodeFrom(k, text, CharEnd(text, cursor))
  {
    hide CodeFrom, CharEnd, Blank;
    LexingLaws.CodeStep(k, text, cursor);
  }

  /** Neither a comment nor a character literal starts here. */
  predicate OtherAt(text: string, cursor: nat)
    requires cursor < |text|
  {
    (text[cursor] == '#' ==> AfterQuestion(text, 0, cursor)) && (text[cursor] == '?' ==> cursor + 1 == |text|)
  }

  lemma LiteralView(k: Letters, text: string, cursor: nat)
    requires cursor < |text| && OtherAt(text, cursor) && LiteralSpan(k, text, cursor).Some?
    ensures var literal := LiteralSpan(k, text, cursor).value;
            && Nested(text, literal.ranges, cursor + 1, literal.end)
            && CodeFrom(k, text, cursor) ==
                 "0" + LiteralInside(k, text, literal.ranges, cursor + 1, literal.end) + CodeFrom(k, text, literal.end)
  {
    hide CodeFrom, LiteralSpan, LiteralInside, Nested, AfterQuestion, Blank;
    LexingLaws.CodeStep(k, text, cursor);
  }

  lemma PlainView(k: Letters, text: string, cursor: nat)
    requires cursor < |text| && OtherAt(text, cursor) && LiteralSpan(k, text, cursor).None?
    ensures CodeFrom(k, text, cursor) == text[cursor..cursor + 1] + CodeFrom(k, text, cursor + 1)
  {
    hide CodeFrom, LiteralSpan, AfterQuestion, Blank;
    LexingLaws.CodeStep(k, text, cursor);
    assert text[cursor..cursor + 1] == [text[cursor]];
  }

  /** `elixir_code_only` */
  method ReadCode(k: Letters, text: string) returns (view: string)
    ensures view == CodeOnly(k, text)
    decreases |text|, 2
  {
    hide CodeFrom, CodeOnly, LiteralInside, Nested, Blank, AfterQuestion, CharEnd, LineEnd, LiteralSpan, Viewing, NextToken;
    var output := new char[|text|](i requires 0 <= i < |text| => text[i]);
    var cursor := 0;
    assert output[..] == text;
    ViewingStarts(k, text);
    while cursor < |text|
      invariant Viewing(k, text, output[..], cursor)
      decreases |text| - cursor
    {
      ghost var before := output[..];
      ViewingBounds(k, text, before, cursor);
      if text[cursor] == '#' && !AfterQuestion(text, 0, cursor) {
        var end := FindNewline(text, cursor);
        CommentView(k, text, cursor);
        BlankSame(before, text, cursor, end);
        BlankNonCode(output, cursor, end);
        ViewingStep(k, text, before, output[..], cursor, end, Blank(text, cursor, end));
        cursor := end;
        continue;
      }
      if text[cursor] == '?' && cursor + 1 < |text| {
        var end := CharEnd(text, cursor);
        CharacterView(k, text, cursor);
        ViewingStep(k, text, before, before, cursor, end, text[cursor..end]);
        cursor := end;
        continue;
      }
      var literal := ReadLiteral(k, text, cursor);
      if literal.Some? {
        var end := literal.value.end;
        LiteralView(k, text, cursor);
        ShowLiteral(k, text, output, literal.value, cursor);
        ViewingStep(k, text, before, output[..], cursor, end,
                    "0" + LiteralInside(k, text, literal.value.ranges, cursor + 1, end));
        cursor := end;
        continue;
      }
      PlainView(k, text, cursor);
      ViewingStep(k, text, before, before, cursor, cursor + 1, text[cursor..cursor + 1]);
      cursor := cursor + 1;
    }
    ViewingBounds(k, text, output[..], cursor);
    view := output[..];
  }

  /** Writing `shown` over the next stretch of the buffer moves the cursor from `cursor` to `end`. */
  lemma Advanced(before: string, after: string, text: string, cursor: nat, end: nat, shown: string, rest: string)
    requires cursor < end <= |text| && |before| == |text| && before[cursor..] == text[cursor..]
    requires |shown| == end - cursor
    requires after == before[..cursor] + shown + before[end..]
          || (after == before && shown == text[cursor..end])
    ensures |after| == |text| && after[end..] == text[end..]
    ensures after[..end] + rest == before[..cursor] + (shown + rest)
  {
  }

  method ShowLiteral(k: Letters, text: string, output: array<char>, literal: Span, cursor: nat)
    requires cursor < literal.end <= |text| == output.Length && output[cursor..] == text[cursor..]
    requires Nested(text, literal.ranges, cursor + 1, literal.end)
    modifies output
    ensures output[..] == old(output[..cursor]) + ("0" + LiteralInside(k, text, literal.ranges, cursor + 1, literal.end)) +
                          old(output[literal.end..])
    decreases |text|, 1
  {
    hide CodeFrom, CodeOnly, LiteralInside, Nested;
    ghost var before := output[..];
    BlankSame(before, text, cursor, literal.end);
    hide Blank;
    BlankNonCode(output, cursor, literal.end);
    ghost var blanked := output[..];
    output[cursor] := '0';
    ghost var mid := output[..];
    assert mid == blanked[cursor := '0'];
    BlankedTail(text, before, mid, cursor, literal.end);
    assert output[cursor + 1..literal.end] == mid[cursor + 1..literal.end];
    ShowInterpolations(k, text, output, literal.ranges, cursor + 1, literal.end);
    Regroup(before[..cursor], "0", LiteralInside(k, text, literal.ranges, cursor + 1, literal.end));
  }

  lemma Regroup(x: string, y: string, z: string)
    ensures x + y + z == x + (y + z)
  {
  }

  lemma BlankedTail(text: string, before: string, mid: string, cursor: nat, end: nat)
    requires cursor < end <= |text| == |before|
    requires mid == (before[..cursor] + Blank(text, cursor, end) + before[end..])[cursor := '0']
    ensures |mid| == |text| && mid[cursor + 1..end] == Blank(text, cursor + 1, end)
    ensures mid[..cursor + 1] == before[..cursor] + "0" && mid[end..] == before[end..]
  {
  }
}
