/** The Elixir lexer of the architecture gate, as functions of the text: where literals end, which
    interpolations they contain, and the offset-preserving view in which only code remains. */
module Lexing {
  import opened Wrappers

  /** `str.isalpha` and `str.islower`, of which only this much matters: the characters that the lexer
      writes, and the brace that closes an interpolation, are not letters. */
  datatype Alphabet = Alphabet(isAlpha: char -> bool, isLower: char -> bool)

  type Letters = k: Alphabet | !k.isAlpha(' ') && !k.isAlpha('0') && !k.isAlpha('}')
    witness Alphabet(c => false, c => false)

  const LITERAL_STARTS: set<char> := {'"', '\'', '~'}

  type Range = (nat, nat)

  datatype Span = Span(end: nat, ranges: seq<Range>)

  /** What the lexer reads at a position that is not inside a literal or comment. */
  datatype Token = Comment(end: nat) | Character(end: nat) | Literal(span: Span) | Plain

  /** How a literal starts: what closes it, where its content begins, whether code can be interpolated. */
  datatype Opening = Opening(interpolates: bool, opening: string, closing: string, content: nat, paired: bool)

  predicate StartsWith(text: string, token: string, i: nat) {
    i + |token| <= |text| && forall j :: 0 <= j < |token| ==> text[i + j] == token[j]
  }

  lemma StartsWithChars(text: string, token: string, i: nat)
    requires StartsWith(text, token, i)
    ensures i + |token| <= |text|
    ensures |token| > 0 ==> text[i] == token[0]
    ensures |token| > 1 ==> text[i + 1] == token[1]
  {
  }

  /** The index of the next newline at or after `i`, or the length of the text. */
  function LineEnd(text: string, i: nat): (r: nat)
    requires i <= |text|
    ensures i <= r <= |text| && (r < |text| ==> text[r] == '\n')
    ensures forall j :: i <= j < r ==> text[j] != '\n'
    decreases |text| - i
  {
    if i == |text| || text[i] == '\n' then i else LineEnd(text, i + 1)
  }

  /** The end of the character literal whose `?` stands at `i`. */
  function CharEnd(text: string, i: nat): (r: nat)
    requires i + 1 < |text|
    ensures i + 1 < r <= |text|
  {
    if text[i + 1] == '\\' && i + 2 < |text| then i + 3 else i + 2
  }

  function TripleQuote(text: string, i: nat): (r: Option<string>)
    ensures r.Some? ==> i + 3 <= |text| && text[i] in {'"', '\''} && |r.value| == 3
  {
    assert StartsWith(text, "\"\"\"", i) ==> text[i + 0] == "\"\"\""[0];
    assert StartsWith(text, "'''", i) ==> text[i + 0] == "'''"[0];
    if StartsWith(text, "\"\"\"", i) then Some("\"\"\"")
    else if StartsWith(text, "'''", i) then Some("'''")
    else None
  }

  function PairedCloser(c: char): Option<char> {
    match c
    case '(' => Some(')')
    case '[' => Some(']')
    case '{' => Some('}')
    case '<' => Some('>')
    case _ => None
  }

  predicate NoLiteralAt(k: Letters, text: string, i: nat) {
    i < |text| ==>
      && text[i] !in {'"', '\''}
      && (text[i] == '~' && i + 2 < |text| ==> !k.isAlpha(text[i + 1]))
  }

  function LiteralOpening(k: Letters, text: string, start: nat): (r: Option<Opening>)
    requires start <= |text|
    ensures r.Some? ==> start < r.value.content <= |text| && |r.value.closing| > 0 && text[start] in LITERAL_STARTS
    ensures r.None? ==> NoLiteralAt(k, text, start)
  {
    var quotes := TripleQuote(text, start);
    if quotes.Some? then Some(Opening(true, quotes.value, quotes.value, start + 3, false))
    else if start < |text| && text[start] in {'"', '\''} then
      Some(Opening(true, [text[start]], [text[start]], start + 1, false))
    else if start + 2 < |text| && text[start] == '~' && k.isAlpha(text[start + 1]) then
      var interpolates, inner := k.isLower(text[start + 1]), TripleQuote(text, start + 2);
      if inner.Some? then Some(Opening(interpolates, inner.value, inner.value, start + 5, false))
      else
        var closer := PairedCloser(text[start + 2]);
        Some(Opening(interpolates, [text[start + 2]],
                     if closer.Some? then [closer.value] else [text[start + 2]], start + 3, closer.Some?))
    else None
  }

  /** The rest of a literal from `cursor` on: its end and the interpolations still ahead. */
  function LiteralBody(k: Letters, text: string, o: Opening, cursor: nat, depth: nat): (r: Span)
    requires cursor <= |text| && |o.closing| > 0
    ensures cursor <= r.end <= |text|
    decreases |text| - cursor, 0
  {
    if cursor == |text| then Span(cursor, [])
    else if text[cursor] == '\\' then
      LiteralBody(k, text, o, if cursor + 2 <= |text| then cursor + 2 else |text|, depth)
    else if o.interpolates && StartsWith(text, "#{", cursor) then
      match InterpolationEnd(k, text, cursor + 2)
      case None => Span(|text|, [])
      case Some(e) =>
        var rest := LiteralBody(k, text, o, e + 1, depth);
        Span(rest.end, [(cursor + 2, e)] + rest.ranges)
    else if o.paired then
      if [text[cursor]] == o.opening then LiteralBody(k, text, o, cursor + 1, depth + 1)
      else if [text[cursor]] == o.closing then
        if depth <= 1 then Span(cursor + 1, []) else LiteralBody(k, text, o, cursor + 1, depth - 1)
      else LiteralBody(k, text, o, cursor + 1, depth)
    else if StartsWith(text, o.closing, cursor) then Span(cursor + |o.closing|, [])
    else LiteralBody(k, text, o, cursor + 1, depth)
  }

  function SkipLetters(k: Letters, text: string, i: nat): (r: nat)
    requires i <= |text|
    ensures i <= r <= |text|
    decreases |text| - i
  {
    if i < |text| && k.isAlpha(text[i]) then SkipLetters(k, text, i + 1) else i
  }

  /** `_elixir_literal_span` */
  function LiteralSpan(k: Letters, text: string, start: nat): (r: Option<Span>)
    requires start <= |text|
    ensures r.Some? ==> start < r.value.end <= |text| && text[start] in LITERAL_STARTS
    ensures r.None? ==> NoLiteralAt(k, text, start)
    decreases |text| - start, 1
  {
    match LiteralOpening(k, text, start)
    case None => None
    case Some(o) =>
      var body := LiteralBody(k, text, o, o.content, if o.paired then 1 else 0);
      Some(if text[start] == '~' then body.(end := SkipLetters(k, text, body.end)) else body)
  }

  predicate AfterQuestion(text: string, from: nat, i: nat)
    requires i <= |text|
  {
    i > from && text[i - 1] == '?'
  }

  /** The token at `cursor`, when reading started at `start`. */
  function NextToken(k: Letters, text: string, start: nat, cursor: nat): (r: Token)
    requires start <= cursor < |text|
    ensures r.Comment? ==> text[cursor] == '#' && r.end == LineEnd(text, cursor) && cursor < r.end
    ensures r.Character? ==> text[cursor] == '?' && cursor + 1 < |text| && r.end == CharEnd(text, cursor) <= |text|
    ensures r.Literal? ==> cursor < r.span.end <= |text| && text[cursor] in LITERAL_STARTS && LiteralSpan(k, text, cursor) == Some(r.span)
    ensures r.Plain? ==> NoLiteralAt(k, text, cursor) && (text[cursor] == '?' ==> cursor + 1 == |text|)
    decreases |text| - cursor, 2
  {
    if text[cursor] == '#' && !AfterQuestion(text, start, cursor) then Comment(LineEnd(text, cursor))
    else if text[cursor] == '?' && cursor + 1 < |text| then Character(CharEnd(text, cursor))
    else
      match LiteralSpan(k, text, cursor)
      case Some(literal) => Literal(literal)
      case None => Plain
  }

  /** The brace depth behind the character `c`. */
  function Deeper(c: char, depth: nat): nat {
    if c == '{' then depth + 1 else if c == '}' && depth > 0 then depth - 1 else depth
  }

  /** The search of `_elixir_interpolation_end`, started at `start`, from `cursor` on. */
  function InterpolationScan(k: Letters, text: string, start: nat, cursor: nat, depth: nat): (r: Option<nat>)
    requires start <= cursor <= |text|
    ensures r.Some? ==> cursor <= r.value < |text| && text[r.value] == '}'
    decreases |text| - cursor, 3
  {
    if cursor == |text| then None
    else
      match NextToken(k, text, start, cursor)
      case Comment(newline) =>
        if newline == |text| then None else InterpolationScan(k, text, start, newline + 1, depth)
      case Character(end) => InterpolationScan(k, text, start, end, depth)
      case Literal(literal) => InterpolationScan(k, text, start, literal.end, depth)
      case Plain =>
        if text[cursor] == '}' && depth <= 1 then Some(cursor)
        else InterpolationScan(k, text, start, cursor + 1, Deeper(text[cursor], depth))
  }

  /** `_elixir_interpolation_end` */
  function InterpolationEnd(k: Letters, text: string, start: nat): (r: Option<nat>)
    requires start <= |text|
    ensures r.Some? ==> start <= r.value < |text| && text[r.value] == '}'
    decreases |text| - start, 4
  {
    InterpolationScan(k, text, start, start, 1)
  }

  /** Interpolations follow each other between `from` and `end`, each one behind `#{` and before `}`. */
  predicate Nested(text: string, ranges: seq<Range>, from: nat, end: nat) {
    if |ranges| == 0 then from <= end <= |text|
    else
      var (a, b) := ranges[0];
      && from + 2 <= a <= b < end <= |text|
      && text[a - 2] == '#' && text[a - 1] == '{' && text[b] == '}'
      && Nested(text, ranges[1..], b + 1, end)
  }

  lemma {:induction false} NestedWider(text: string, ranges: seq<Range>, from: nat, from': nat, end: nat, end': nat)
    requires Nested(text, ranges, from, end) && from' <= from && end <= end' <= |text|
    ensures Nested(text, ranges, from', end')
  {
    if |ranges| > 0 {
      NestedWider(text, ranges[1..], ranges[0].1 + 1, ranges[0].1 + 1, end, end');
    }
  }

  lemma {:induction false} BodyNested(k: Letters, text: string, o: Opening, cursor: nat, depth: nat)
    requires cursor <= |text| && |o.closing| > 0
    ensures Nested(text, LiteralBody(k, text, o, cursor, depth).ranges, cursor, LiteralBody(k, text, o, cursor, depth).end)
    decreases |text| - cursor
  {
    var r := LiteralBody(k, text, o, cursor, depth);
    if cursor == |text| {
    } else if text[cursor] == '\\' {
      var next := if cursor + 2 <= |text| then cursor + 2 else |text|;
      BodyNested(k, text, o, next, depth);
      NestedWider(text, r.ranges, next, cursor, r.end, r.end);
    } else if o.interpolates && StartsWith(text, "#{", cursor) {
      StartsWithChars(text, "#{", cursor);
      var e := InterpolationEnd(k, text, cursor + 2);
      if e.Some? {
        BodyNested(k, text, o, e.value + 1, depth);
        var rest := LiteralBody(k, text, o, e.value + 1, depth);
        assert r.ranges[1..] == rest.ranges;
      }
    } else if o.paired {
      if [text[cursor]] == o.opening {
        BodyNested(k, text, o, cursor + 1, depth + 1);
        NestedWider(text, r.ranges, cursor + 1, cursor, r.end, r.end);
      } else if [text[cursor]] == o.closing {
        if depth > 1 {
          BodyNested(k, text, o, cursor + 1, depth - 1);
          NestedWider(text, r.ranges, cursor + 1, cursor, r.end, r.end);
        }
      } else {
        BodyNested(k, text, o, cursor + 1, depth);
        NestedWider(text, r.ranges, cursor + 1, cursor, r.end, r.end);
      }
    } else if !StartsWith(text, o.closing, cursor) {
      BodyNested(k, text, o, cursor + 1, depth);
      NestedWider(text, r.ranges, cursor + 1, cursor, r.end, r.end);
    }
  }

  /** The interpolations of a literal are ordered, disjoint and strictly inside its span. */
  lemma SpanNested(k: Letters, text: string, start: nat)
    requires start <= |text|
    ensures var r := LiteralSpan(k, text, start);
            r.Some? ==> Nested(text, r.value.ranges, start + 1, r.value.end)
  {
    var o := LiteralOpening(k, text, start);
    if o.Some? {
      var depth := if o.value.paired then 1 else 0;
      BodyNested(k, text, o.value, o.value.content, depth);
      var body := LiteralBody(k, text, o.value, o.value.content, depth);
      NestedWider(text, body.ranges, o.value.content, start + 1, body.end, LiteralSpan(k, text, start).value.end);
    }
  }

  predicate IsLineBreak(c: char) {
    c == '\r' || c == '\n'
  }

  function Blanked(c: char): char {
    if IsLineBreak(c) then c else ' '
  }

  /** `_blank_elixir_non_code` on `text[from..end]` */
  function Blank(text: string, from: nat, end: nat): (r: string)
    requires from <= end <= |text|
    ensures |r| == end - from
    ensures forall i :: 0 <= i < |r| ==> r[i] == Blanked(text[from + i])
    decreases end - from
  {
    if from == end then [] else [Blanked(text[from])] + Blank(text, from + 1, end)
  }

  /** The view of `text[from..end]` inside a literal: blanks, except for the code of the interpolations. */
  function LiteralInside(k: Letters, text: string, ranges: seq<Range>, from: nat, end: nat): (r: string)
    requires Nested(text, ranges, from, end) && from > 0
    ensures |r| == end - from
    decreases |text|, 0, |ranges|
  {
    if |ranges| == 0 then Blank(text, from, end)
    else
      var (a, b) := ranges[0];
      Blank(text, from, a) + CodeOnly(k, text[a..b]) + Blank(text, b, b + 1) +
      LiteralInside(k, text, ranges[1..], b + 1, end)
  }

  /** The view of `text[cursor..]` when the lexer reads code at `cursor`. */
  function CodeFrom(k: Letters, text: string, cursor: nat): (r: string)
    requires cursor <= |text|
    ensures |r| == |text| - cursor
    decreases |text|, 1, |text| - cursor
  {
    if cursor == |text| then []
    else
      match NextToken(k, text, 0, cursor)
      case Comment(end) => Blank(text, cursor, end) + CodeFrom(k, text, end)
      case Character(end) => text[cursor..end] + CodeFrom(k, text, end)
      case Literal(literal) =>
        SpanNested(k, text, cursor);
        "0" + LiteralInside(k, text, literal.ranges, cursor + 1, literal.end) + CodeFrom(k, text, literal.end)
      case Plain => [text[cursor]] + CodeFrom(k, text, cursor + 1)
  }

  /** `elixir_code_only` */
  function CodeOnly(k: Letters, text: string): (r: string)
    ensures |r| == |text|
    decreases |text|, 2
  {
    CodeFrom(k, text, 0)
  }
}
