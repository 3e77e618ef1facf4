/** Elixir text written from a grammar, and what the view of the lexer shows of it. */
module LexingGrammar {
  import opened Lexing
  import opened LexingLaws
  import opened Relexing
  import opened Wrappers

  /** What surrounds a literal: a pair of brackets, one character, or the same quote three times. */
  datatype Delimiter = Round | Square | Curly | Angle | Same(c: char) | Triple(quote: char)

  datatype Tok =
    | Sign(c: char)
    | Remark(body: string)
    | Char(c: char)
    | EscapedChar(c: char)
    | Block(inside: seq<Tok>)
    | Text(delimiter: Delimiter, parts: seq<Part>)
    | Sigil(letter: char, delimiter: Delimiter, parts: seq<Part>, modifiers: string)

  /** What stands inside a literal. */
  datatype Part = Content(c: char) | Escape(c: char) | Group(parts: seq<Part>) | Interpolation(code: seq<Tok>)

  function Open(d: Delimiter): (r: string)
    ensures |r| > 0
  {
    match d
    case Round => "("
    case Square => "["
    case Curly => "{"
    case Angle => "<"
    case Same(c) => [c]
    case Triple(quote) => [quote, quote, quote]
  }

  function Close(d: Delimiter): (r: string)
    ensures |r| > 0
  {
    match d
    case Round => ")"
    case Square => "]"
    case Curly => "}"
    case Angle => ">"
    case Same(c) => [c]
    case Triple(quote) => [quote, quote, quote]
  }

  predicate Paired(d: Delimiter) {
    d.Round? || d.Square? || d.Curly? || d.Angle?
  }

  // ----- The text

  function Render(ts: seq<Tok>): string
    decreases ts
  {
    if |ts| == 0 then "" else RenderTok(ts[0]) + Render(ts[1..])
  }

  function RenderTok(t: Tok): (r: string)
    ensures |r| > 0
    decreases t
  {
    match t
    case Sign(c) => [c]
    case Remark(body) => "#" + body + "\n"
    case Char(c) => ['?', c]
    case EscapedChar(c) => ['?', '\\', c]
    case Block(inside) => "{" + Render(inside) + "}"
    case Text(d, parts) => Open(d) + RenderParts(d, parts) + Close(d)
    case Sigil(letter, d, parts, modifiers) =>
      ['~', letter] + Open(d) + RenderParts(d, parts) + Close(d) + modifiers
  }

  function RenderParts(d: Delimiter, parts: seq<Part>): string
    decreases parts
  {
    if |parts| == 0 then "" else RenderPart(d, parts[0]) + RenderParts(d, parts[1..])
  }

  function RenderPart(d: Delimiter, part: Part): (r: string)
    ensures |r| > 0
    decreases part
  {
    match part
    case Content(c) => [c]
    case Escape(c) => ['\\', c]
    case Group(parts) => Open(d) + RenderParts(d, parts) + Close(d)
    case Interpolation(code) => "#{" + Render(code) + "}"
  }

  // ----- The view

  /** A space for every character but the line breaks. */
  function Hidden(s: string): (r: string)
    ensures |r| == |s|
  {
    if |s| == 0 then "" else [if s[0] == '\n' || s[0] == '\r' then s[0] else ' '] + Hidden(s[1..])
  }

  /** Code stays; of a literal there remain a zero at its start, its line breaks and its interpolated code. */
  function Shown(ts: seq<Tok>): string
    decreases ts
  {
    if |ts| == 0 then "" else ShownTok(ts[0]) + Shown(ts[1..])
  }

  function ShownTok(t: Tok): string
    decreases t
  {
    match t
    case Sign(c) => [c]
    case Remark(body) => " " + Hidden(body) + "\n"
    case Char(c) => ['?', c]
    case EscapedChar(c) => ['?', '\\', c]
    case Block(inside) => "{" + Shown(inside) + "}"
    case Text(d, parts) => "0" + Hidden(Open(d)[1..]) + ShownParts(d, parts) + Hidden(Close(d))
    case Sigil(letter, d, parts, modifiers) =>
      "0" + Hidden([letter] + Open(d)) + ShownParts(d, parts) + Hidden(Close(d) + modifiers)
  }

  function ShownParts(d: Delimiter, parts: seq<Part>): string
    decreases parts
  {
    if |parts| == 0 then "" else ShownPart(d, parts[0]) + ShownParts(d, parts[1..])
  }

  function ShownPart(d: Delimiter, part: Part): string
    decreases part
  {
    match part
    case Content(c) => Hidden([c])
    case Escape(c) => Hidden(['\\', c])
    case Group(parts) => Hidden(Open(d)) + ShownParts(d, parts) + Hidden(Close(d))
    case Interpolation(code) => "  " + Shown(code) + " "
  }

  // ----- When the pieces can be told apart

  /** The first character, or what comes behind. */
  function First(s: string, after: Option<char>): Option<char> {
    if |s| > 0 then Some(s[0]) else after
  }

  function Last(s: string): char
    requires |s| > 0
  {
    s[|s| - 1]
  }

  /** Between `before` and `after`, the tokens do not run into each other. In code of an interpolation, where
      braces count, they only stand around blocks. */
  predicate Sound(k: Letters, braces: bool, before: Option<char>, ts: seq<Tok>, after: Option<char>)
    decreases ts
  {
    |ts| > 0 ==>
      && SoundTok(k, braces, before, ts[0], First(Render(ts[1..]), after))
      && Sound(k, braces, Some(Last(RenderTok(ts[0]))), ts[1..], after)
  }

  predicate SoundTok(k: Letters, braces: bool, before: Option<char>, t: Tok, after: Option<char>)
    decreases t
  {
    match t
    case Sign(c) =>
      && c !in {'"', '\'', '#', '?'} && (c in {'{', '}'} ==> braces)
      && (c == '~' ==> !LetterNext(k, after))
    case Remark(body) => before != Some('?') && '\n' !in body
    case Char(c) => c != '\\'
    case EscapedChar(_) => true
    case Block(inside) => Sound(k, braces, Some('{'), inside, Some('}'))
    case Text(d, parts) =>
      && d in {Same('"'), Same('\''), Triple('"'), Triple('\'')} && SoundParts(k, true, d, parts)
      && (d.Same? && parts == [] ==> after != Some(d.c))
    case Sigil(letter, d, parts, modifiers) =>
      && k.isAlpha(letter) && SoundDelimiter(d) && SoundParts(k, k.isLower(letter), d, parts)
      && (forall c :: c in modifiers ==> k.isAlpha(c)) && !LetterNext(k, after)
      && (d in {Same('"'), Same('\'')} && parts == [] ==> First(modifiers, after) != Some(d.c))
  }

  predicate LetterNext(k: Letters, after: Option<char>) {
    after.Some? && k.isAlpha(after.value)
  }

  predicate SoundDelimiter(d: Delimiter) {
    match d
    case Same(c) => c !in {'\\', '#', '(', '[', '{', '<'}
    case Triple(quote) => quote in {'"', '\''}
    case _ => true
  }

  predicate SoundParts(k: Letters, interpolates: bool, d: Delimiter, parts: seq<Part>)
    decreases parts
  {
    |parts| > 0 ==>
      && SoundPart(k, interpolates, d, parts[0], RenderParts(d, parts[1..]))
      && SoundParts(k, interpolates, d, parts[1..])
  }

  /** Content neither ends the literal nor starts an interpolation. */
  predicate SoundPart(k: Letters, interpolates: bool, d: Delimiter, part: Part, next: string)
    decreases part
  {
    match part
    case Content(c) =>
      && c != '\\' && (interpolates && c == '#' ==> !(|next| > 0 && next[0] == '{'))
      && (match d
          case Same(s) => c != s
          case Triple(quote) =>
            c == quote ==> (next + [quote, quote])[0] != quote || (next + [quote, quote])[1] != quote
          case _ => [c] != Open(d) && [c] != Close(d))
    case Escape(_) => true
    case Group(parts) => Paired(d) && SoundParts(k, interpolates, d, parts)
    case Interpolation(code) => interpolates && Sound(k, false, None, code, Some('}'))
  }

  // ----- Where the pieces stand in the text

  /** What stands behind the position, if anything does. */
  function At(text: string, p: nat): Option<char> {
    if p < |text| then Some(text[p]) else None
  }

  /** What was read before the position. */
  function Before(text: string, start: nat, p: nat): Option<char>
    requires start <= p <= |text|
  {
    if p > start then Some(text[p - 1]) else None
  }

  /** The interpolations of the parts, when those start at `p`. */
  function RangesOf(d: Delimiter, parts: seq<Part>, p: nat): seq<Range>
    decreases parts
  {
    if |parts| == 0 then [] else RangesIn(d, parts[0], p) + RangesOf(d, parts[1..], p + |RenderPart(d, parts[0])|)
  }

  function RangesIn(d: Delimiter, part: Part, p: nat): seq<Range>
    decreases part
  {
    match part
    case Group(parts) => RangesOf(d, parts, p + |Open(d)|)
    case Interpolation(code) => [(p + 2, p + 2 + |Render(code)|)]
    case _ => []
  }

  /** What the lexer reads for a token, unless it is a block. */
  function ReadAs(t: Tok, p: nat): Token
    requires !t.Block?
  {
    match t
    case Sign(_) => Plain
    case Remark(body) => Comment(p + 1 + |body|)
    case Char(_) => Character(p + 2)
    case EscapedChar(_) => Character(p + 3)
    case Text(d, parts) => Literal(Span(p + |RenderTok(t)|, RangesOf(d, parts, p + |Open(d)|)))
    case Sigil(_, d, parts, _) => Literal(Span(p + |RenderTok(t)|, RangesOf(d, parts, p + 2 + |Open(d)|)))
  }

  lemma TwoHeld(s: string, p: nat, x: string, y: string)
    requires Holds(s, p, x) && Holds(s, p + |x|, y)
    ensures Holds(s, p, x + y)
  {
    assert s[p..p + |x| + |y|] == s[p..p + |x|] + s[p + |x|..p + |x| + |y|];
  }

  lemma ThreeHeld(s: string, p: nat, x: string, y: string, z: string)
    requires Holds(s, p, x + y + z)
    ensures Holds(s, p, x) && Holds(s, p + |x|, y) && Holds(s, p + |x| + |y|, z)
  {
    hide Holds;
    HoldsParts(s, p, x + y, z);
    HoldsParts(s, p, x, y);
  }

  // ----- How a literal opens

  lemma {:induction false} FirstPart(k: Letters, interpolates: bool, d: Delimiter, parts: seq<Part>)
    requires d in {Same('"'), Same('\'')} && |parts| > 0 && SoundParts(k, interpolates, d, parts)
    ensures |RenderParts(d, parts)| > 0 && RenderParts(d, parts)[0] != d.c
  {
  }

  lemma NoTriple(text: string, p: nat)
    requires p < |text| && (text[p] in {'"', '\''} ==> At(text, p + 1) != Some(text[p]) || At(text, p + 2) != Some(text[p]))
    ensures TripleQuote(text, p) == None
  {
    StartsWithThree(text, "\"\"\"", p);
    StartsWithThree(text, "'''", p);
  }

  lemma StartsWithThree(text: string, token: string, p: nat)
    requires |token| == 3
    ensures StartsWith(text, token, p) <==>
              At(text, p) == Some(token[0]) && At(text, p + 1) == Some(token[1]) && At(text, p + 2) == Some(token[2])
  {
    if StartsWith(text, token, p) {
      assert text[p + 0] == token[0] && text[p + 1] == token[1] && text[p + 2] == token[2];
    }
  }

  lemma IsTriple(text: string, p: nat, quote: char)
    requires quote in {'"', '\''} && Holds(text, p, [quote, quote, quote])
    ensures TripleQuote(text, p) == Some([quote, quote, quote])
  {
    var token := [quote, quote, quote];
    HeldAt(text, p, token, 0);
    HeldAt(text, p, token, 1);
    HeldAt(text, p, token, 2);
    if quote == '\'' {
      assert text[p + 0] != "\"\"\""[0];
      assert token == "'''";
    } else {
      assert token == "\"\"\"";
    }
  }

  /** The delimiter is three quotes exactly if the grammar says so. */
  lemma DelimiterAt(k: Letters, text: string, p: nat, interpolates: bool, d: Delimiter, parts: seq<Part>)
    requires SoundDelimiter(d) && SoundParts(k, interpolates, d, parts)
    requires Holds(text, p, Open(d)) && Holds(text, p + |Open(d)|, RenderParts(d, parts) + Close(d))
    requires d in {Same('"'), Same('\'')} && parts == [] ==> At(text, p + 2) != Some(d.c)
    ensures TripleQuote(text, p) == if d.Triple? then Some(Open(d)) else None
    ensures p < |text| && text[p] == Open(d)[0]
  {
    HeldAt(text, p, Open(d), 0);
    if d.Triple? {
      IsTriple(text, p, d.quote);
    } else {
      if d in {Same('"'), Same('\'')} && parts != [] {
        FirstPart(k, interpolates, d, parts);
        HeldAt(text, p + 1, RenderParts(d, parts) + Close(d), 0);
      }
      NoTriple(text, p);
    }
  }

  // ----- How the tokens are read

  lemma SignRead(k: Letters, text: string, start: nat, p: nat, c: char, braces: bool, before: Option<char>)
    requires start <= p < |text| && text[p] == c && SoundTok(k, braces, before, Sign(c), At(text, p + 1))
    ensures NextToken(k, text, start, p) == Plain
  {
    NoTriple(text, p);
  }

  lemma {:induction false} LineEndAt(text: string, p: nat, e: nat)
    requires p <= e < |text| && text[e] == '\n' && forall j :: p <= j < e ==> text[j] != '\n'
    ensures LineEnd(text, p) == e
    decreases e - p
  {
    if p < e {
      LineEndAt(text, p + 1, e);
    }
  }

  lemma RemarkRead(k: Letters, text: string, start: nat, p: nat, body: string)
    requires start <= p && Holds(text, p, "#" + body + "\n") && '\n' !in body && Before(text, start, p) != Some('?')
    ensures NextToken(k, text, start, p) == Comment(p + 1 + |body|)
  {
    var e := p + 1 + |body|;
    ThreeHeld(text, p, "#", body, "\n");
    HeldAt(text, p, "#", 0);
    HeldAt(text, e, "\n", 0);
    forall j | p <= j < e ensures text[j] != '\n' {
      if j > p {
        HeldAt(text, p + 1, body, j - p - 1);
        assert body[j - p - 1] in body;
      }
    }
    LineEndAt(text, p, e);
  }

  lemma CharRead(k: Letters, text: string, start: nat, p: nat, c: char)
    requires start <= p && Holds(text, p, ['?', c]) && c != '\\'
    ensures NextToken(k, text, start, p) == Character(p + 2)
  {
    HeldAt(text, p, ['?', c], 0);
    HeldAt(text, p, ['?', c], 1);
  }

  lemma EscapedCharRead(k: Letters, text: string, start: nat, p: nat, c: char)
    requires start <= p && Holds(text, p, ['?', '\\', c])
    ensures NextToken(k, text, start, p) == Character(p + 3)
  {
    HeldAt(text, p, ['?', '\\', c], 0);
    HeldAt(text, p, ['?', '\\', c], 1);
    HeldAt(text, p, ['?', '\\', c], 2);
  }

  lemma {:induction false} ModifiersRead(k: Letters, text: string, p: nat, modifiers: string)
    requires Holds(text, p, modifiers) && !LetterNext(k, At(text, p + |modifiers|))
    requires forall c :: c in modifiers ==> k.isAlpha(c)
    ensures SkipLetters(k, text, p) == p + |modifiers|
    decreases |modifiers|
  {
    if |modifiers| > 0 {
      HeldAt(text, p, modifiers, 0);
      assert modifiers[0] in modifiers && modifiers == [modifiers[0]] + modifiers[1..];
      HoldsParts(text, p, [modifiers[0]], modifiers[1..]);
      ModifiersRead(k, text, p + 1, modifiers[1..]);
    }
  }

  /** The opening that the grammar gives a literal whose content begins at `content`. */
  function Opened(interpolates: bool, d: Delimiter, content: nat): Opening {
    Opening(interpolates, Open(d), Close(d), content, Paired(d))
  }

  /** Behind its parts a literal closes. */
  lemma ClosesThere(k: Letters, text: string, o: Opening, d: Delimiter, q: nat)
    requires o == Opened(o.interpolates, d, o.content) && SoundDelimiter(d) && Holds(text, q, Close(d))
    ensures LiteralBody(k, text, o, q, if Paired(d) then 1 else 0) == Span(q + |Close(d)|, [])
  {
    HeldAt(text, q, Close(d), 0);
    NoHashThere(text, q);
    if !Paired(d) {
      StartsHere(text, Close(d), q);
    }
    BodyStep(k, text, o, q, if Paired(d) then 1 else 0);
  }

  lemma NoHashThere(text: string, q: nat)
    requires q < |text| && (text[q] != '#' || At(text, q + 1) != Some('{'))
    ensures !StartsWith(text, "#{", q)
  {
    if StartsWith(text, "#{", q) {
      StartsWithChars(text, "#{", q);
    }
  }

  lemma StartsHere(text: string, token: string, q: nat)
    requires Holds(text, q, token)
    ensures StartsWith(text, token, q)
  {
    forall j | 0 <= j < |token| ensures text[q + j] == token[j] {
      HeldAt(text, q, token, j);
    }
  }

  // ----- How the inside of a literal is read

  /** The ranges, and then what a span has. */
  function Put(ranges: seq<Range>, span: Span): Span {
    Span(span.end, ranges + span.ranges)
  }

  lemma PutPut(a: seq<Range>, b: seq<Range>, span: Span)
    ensures Put(a, Put(b, span)) == Put(a + b, span) && Put([], span) == span
  {
    assert a + (b + span.ranges) == a + b + span.ranges && [] + span.ranges == span.ranges;
  }

  lemma ContentRead(k: Letters, text: string, p: nat, o: Opening, d: Delimiter, c: char, next: string, depth: nat)
    requires o == Opened(o.interpolates, d, o.content) && SoundDelimiter(d)
    requires SoundPart(k, o.interpolates, d, Content(c), next) && Holds(text, p, [c] + (next + Close(d)))
    ensures LiteralBody(k, text, o, p, depth) == LiteralBody(k, text, o, p + 1, depth)
  {
    var s := [c] + (next + Close(d));
    HeldAt(text, p, s, 0);
    HeldAt(text, p, s, 1);
    if o.interpolates {
      assert c == '#' ==> s[1] != '{' by {
        assert s[1] == if |next| > 0 then next[0] else Close(d)[0];
      }
      NoHashThere(text, p);
    }
    if !Paired(d) {
      NoCloseThere(text, p, d, c, next);
    }
    BodyStep(k, text, o, p, depth);
  }

  lemma NoCloseThere(text: string, p: nat, d: Delimiter, c: char, next: string)
    requires !Paired(d) && Holds(text, p, [c] + (next + Close(d)))
    requires match d
             case Same(s) => c != s
             case Triple(quote) => c == quote ==> (next + [quote, quote])[0] != quote || (next + [quote, quote])[1] != quote
             case _ => true
    ensures !StartsWith(text, Close(d), p)
  {
    var s := [c] + (next + Close(d));
    HeldAt(text, p, s, 0);
    match d
    case Same(_) => StartsWithOne(text, Close(d)[0], p);
    case Triple(quote) =>
      HeldAt(text, p, s, 1);
      HeldAt(text, p, s, 2);
      assert s[1] == (next + [quote, quote])[0] && s[2] == (next + [quote, quote])[1];
      StartsWithThree(text, Close(d), p);
    case _ =>
  }

  lemma EscapeRead(k: Letters, text: string, p: nat, o: Opening, c: char, depth: nat)
    requires |o.closing| > 0 && Holds(text, p, ['\\', c])
    ensures LiteralBody(k, text, o, p, depth) == LiteralBody(k, text, o, p + 2, depth)
  {
    HeldAt(text, p, ['\\', c], 0);
    HeldAt(text, p, ['\\', c], 1);
    BodyStep(k, text, o, p, depth);
  }

  lemma BracketRead(k: Letters, text: string, p: nat, o: Opening, d: Delimiter, depth: nat)
    requires o == Opened(o.interpolates, d, o.content) && Paired(d) && depth >= 1
    ensures Holds(text, p, Open(d)) ==> LiteralBody(k, text, o, p, depth) == LiteralBody(k, text, o, p + 1, depth + 1)
    ensures Holds(text, p, Close(d)) && depth > 1 ==>
              LiteralBody(k, text, o, p, depth) == LiteralBody(k, text, o, p + 1, depth - 1)
  {
    if Holds(text, p, Open(d)) {
      HeldAt(text, p, Open(d), 0);
      NoHashThere(text, p);
      BodyStep(k, text, o, p, depth);
    }
    if Holds(text, p, Close(d)) {
      HeldAt(text, p, Close(d), 0);
      NoHashThere(text, p);
      BodyStep(k, text, o, p, depth);
    }
  }

  lemma {:induction false} BodyParts(k: Letters, text: string, p: nat, o: Opening, d: Delimiter, parts: seq<Part>, depth: nat)
    requires o == Opened(o.interpolates, d, o.content) && SoundDelimiter(d) && (Paired(d) ==> depth >= 1)
    requires SoundParts(k, o.interpolates, d, parts) && Holds(text, p, RenderParts(d, parts) + Close(d))
    ensures LiteralBody(k, text, o, p, depth) ==
              Put(RangesOf(d, parts, p), LiteralBody(k, text, o, p + |RenderParts(d, parts)|, depth))
    decreases parts, 0
  {
    hide LiteralBody, Put, RenderPart, RangesIn, SoundPart, Holds;
    if |parts| == 0 {
      HoldsParts(text, p, RenderParts(d, parts), Close(d));
      PutPut([], [], LiteralBody(k, text, o, p, depth));
    } else {
      var head, next := RenderPart(d, parts[0]), RenderParts(d, parts[1..]);
      assert RenderParts(d, parts) + Close(d) == head + (next + Close(d));
      HoldsParts(text, p, head, next + Close(d));
      BodyPart(k, text, p, o, d, parts[0], next, depth);
      BodyParts(k, text, p + |head|, o, d, parts[1..], depth);
      PutPut(RangesIn(d, parts[0], p), RangesOf(d, parts[1..], p + |head|),
             LiteralBody(k, text, o, p + |head| + |next|, depth));
    }
  }

  lemma {:induction false} BodyPart(k: Letters, text: string, p: nat, o: Opening, d: Delimiter, part: Part, next: string, depth: nat)
    requires o == Opened(o.interpolates, d, o.content) && SoundDelimiter(d) && (Paired(d) ==> depth >= 1)
    requires SoundPart(k, o.interpolates, d, part, next) && Holds(text, p, RenderPart(d, part) + (next + Close(d)))
    ensures p + |RenderPart(d, part)| <= |text|
    ensures LiteralBody(k, text, o, p, depth) ==
              Put(RangesIn(d, part, p), LiteralBody(k, text, o, p + |RenderPart(d, part)|, depth))
    decreases part, 0
  {
    hide LiteralBody, Put, Holds, SoundParts, Sound, Render, RenderParts, RangesOf, Opened;
    HoldsParts(text, p, RenderPart(d, part), next + Close(d));
    HeldFits(text, p, RenderPart(d, part));
    OpenedCloses(o, d);
    match part
    case Content(c) =>
      ContentRead(k, text, p, o, d, c, next, depth);
      PutPut([], [], LiteralBody(k, text, o, p + 1, depth));
    case Escape(c) =>
      EscapeRead(k, text, p, o, c, depth);
      PutPut([], [], LiteralBody(k, text, o, p + 2, depth));
    case Group(parts) =>
      GroupRead(k, text, p, o, d, parts, depth);
    case Interpolation(code) =>
      InterpolationRead(k, text, p, o, code, depth);
  }

  lemma HeldFits(s: string, p: nat, x: string)
    requires Holds(s, p, x)
    ensures p + |x| <= |s|
  {
  }

  lemma OpenedCloses(o: Opening, d: Delimiter)
    requires o == Opened(o.interpolates, d, o.content)
    ensures |o.closing| > 0
  {
  }

  lemma GroupHeld(text: string, p: nat, o: Opening, d: Delimiter, inner: string)
    requires Paired(d) && o == Opened(o.interpolates, d, o.content) && Holds(text, p, Open(d) + inner + Close(d))
    ensures |o.closing| > 0 && Holds(text, p, Open(d)) && Holds(text, p + 1, inner + Close(d))
    ensures Holds(text, p + 1 + |inner|, Close(d)) && p + 2 + |inner| <= |text|
  {
    hide Holds;
    ThreeHeld(text, p, Open(d), inner, Close(d));
    TwoHeld(text, p + 1, inner, Close(d));
    HeldFits(text, p + 1 + |inner|, Close(d));
  }

  lemma {:induction false} GroupRead(k: Letters, text: string, p: nat, o: Opening, d: Delimiter, parts: seq<Part>, depth: nat)
    requires o == Opened(o.interpolates, d, o.content) && SoundDelimiter(d) && Paired(d) && depth >= 1
    requires SoundParts(k, o.interpolates, d, parts) && Holds(text, p, Open(d) + RenderParts(d, parts) + Close(d))
    ensures p + 2 + |RenderParts(d, parts)| <= |text|
    ensures LiteralBody(k, text, o, p, depth) ==
              Put(RangesOf(d, parts, p + 1), LiteralBody(k, text, o, p + 2 + |RenderParts(d, parts)|, depth))
    decreases parts, 1
  {
    hide *;
    var inner := RenderParts(d, parts);
    GroupHeld(text, p, o, d, inner);
    BracketRead(k, text, p, o, d, depth);
    BodyParts(k, text, p + 1, o, d, parts, depth + 1);
    BracketRead(k, text, p + 1 + |inner|, o, d, depth + 1);
  }

  lemma {:induction false} InterpolationRead(k: Letters, text: string, p: nat, o: Opening, code: seq<Tok>, depth: nat)
    requires |o.closing| > 0 && o.interpolates && Sound(k, false, None, code, Some('}'))
    requires Holds(text, p, "#{" + Render(code) + "}")
    ensures p + 3 + |Render(code)| <= |text|
    ensures LiteralBody(k, text, o, p, depth) ==
              Put([(p + 2, p + 2 + |Render(code)|)], LiteralBody(k, text, o, p + 3 + |Render(code)|, depth))
    decreases code, 1
  {
    hide LiteralBody, LiteralSpan, LiteralOpening, NextToken, InterpolationScan, InterpolationEnd, Holds, Sound, SoundParts,
         Render, RenderParts, StartsWith, RangesOf;
    var e := p + 2 + |Render(code)|;
    ThreeHeld(text, p, "#{", Render(code), "}");
    HeldFits(text, e, "}");
    HeldAt(text, e, "}", 0);
    StartsHere(text, "#{", p);
    HeldAt(text, p, "#{", 0);
    ScanToks(k, text, p + 2, p + 2, None, code, 1);
    BraceRead(k, text, p + 2, e, "}");
    ScanStep(k, text, p + 2, e, 1);
    BodyStep(k, text, o, p, depth);
  }

  /** A brace in code is no token of its own. */
  lemma BraceRead(k: Letters, text: string, start: nat, p: nat, brace: string)
    requires start <= p && brace in {"{", "}"} && Holds(text, p, brace)
    ensures p < |text| && text[p] == brace[0] && NextToken(k, text, start, p) == Plain
  {
    HeldAt(text, p, brace, 0);
    SignRead(k, text, start, p, text[p], true, None);
  }

  lemma SoundCons(k: Letters, braces: bool, before: Option<char>, ts: seq<Tok>, after: Option<char>)
    requires |ts| > 0 && Sound(k, braces, before, ts, after)
    ensures Render(ts) == RenderTok(ts[0]) + Render(ts[1..]) && Shown(ts) == ShownTok(ts[0]) + Shown(ts[1..])
    ensures SoundTok(k, braces, before, ts[0], First(Render(ts[1..]), after))
    ensures Sound(k, braces, Some(Last(RenderTok(ts[0]))), ts[1..], after)
  {
  }

  lemma NoToks()
    ensures Render([]) == "" && Shown([]) == ""
  {
  }

  /** Between a token and what follows it in the text. */
  lemma Between(text: string, start: nat, p: nat, head: string, rest: string, after: Option<char>)
    requires start <= p && |head| > 0 && Holds(text, p, head + rest) && At(text, p + |head| + |rest|) == after
    ensures Holds(text, p, head) && Holds(text, p + |head|, rest) && p + |head| + |rest| <= |text|
    ensures At(text, p + |head|) == First(rest, after)
    ensures Before(text, start, p + |head|) == Some(Last(head))
  {
    HoldsParts(text, p, head, rest);
    HeldFits(text, p + |head|, rest);
    HeldAt(text, p, head, |head| - 1);
    if |rest| > 0 {
      HeldAt(text, p + |head|, rest, 0);
    }
  }

  lemma AtIs(text: string, p: nat)
    ensures At(text, p) == if p < |text| then Some(text[p]) else None
  {
  }

  lemma {:induction false} ScanToks(k: Letters, text: string, start: nat, p: nat, before: Option<char>, ts: seq<Tok>, depth: nat)
    requires start <= p && depth >= 1 && Sound(k, false, before, ts, Some('}')) && Holds(text, p, Render(ts))
    requires p + |Render(ts)| < |text| && text[p + |Render(ts)|] == '}' && before == Before(text, start, p)
    ensures InterpolationScan(k, text, start, p, depth) == InterpolationScan(k, text, start, p + |Render(ts)|, depth)
    decreases ts, 0
  {
    hide *;
    if |ts| == 0 {
      NoToks();
      assert ts == [];
    } else {
      var head, rest := RenderTok(ts[0]), Render(ts[1..]);
      SoundCons(k, false, before, ts, Some('}'));
      AtIs(text, p + |Render(ts)|);
      Between(text, start, p, head, rest, Some('}'));
      ScanTok(k, text, start, p, before, ts[0], depth);
      ScanToks(k, text, start, p + |head|, Some(Last(head)), ts[1..], depth);
    }
  }

  lemma {:induction false} ScanTok(k: Letters, text: string, start: nat, p: nat, before: Option<char>, t: Tok, depth: nat)
    requires start <= p && depth >= 1 && Holds(text, p, RenderTok(t)) && before == Before(text, start, p)
    requires SoundTok(k, false, before, t, At(text, p + |RenderTok(t)|))
    ensures p + |RenderTok(t)| <= |text|
    ensures InterpolationScan(k, text, start, p, depth) == InterpolationScan(k, text, start, p + |RenderTok(t)|, depth)
    decreases t, 1
  {
    hide *;
    if t.Block? {
      BlockTok(k, false, before, t, At(text, p + |RenderTok(t)|));
      BlockScan(k, text, start, p, t.inside, depth);
    } else {
      TokRead(k, text, start, p, false, before, t);
      ScanStep(k, text, start, p, depth);
      TokScanned(k, text, p, before, t, depth);
    }
  }

  lemma TokScanned(k: Letters, text: string, p: nat, before: Option<char>, t: Tok, depth: nat)
    requires !t.Block? && Holds(text, p, RenderTok(t)) && SoundTok(k, false, before, t, At(text, p + |RenderTok(t)|))
    ensures p + |RenderTok(t)| <= |text| && TokenEnd(ReadAs(t, p), p) == p + |RenderTok(t)|
    ensures ReadAs(t, p).Plain? ==> text[p] != '}' && Deeper(text[p], depth) == depth
  {
    HeldAt(text, p, RenderTok(t), 0);
    hide SoundParts, Sound, RangesOf;
  }

  lemma {:induction false} BlockScan(k: Letters, text: string, start: nat, p: nat, inside: seq<Tok>, depth: nat)
    requires start <= p && depth >= 1 && Holds(text, p, "{" + Render(inside) + "}")
    requires Sound(k, false, Some('{'), inside, Some('}'))
    ensures p + 2 + |Render(inside)| <= |text|
    ensures InterpolationScan(k, text, start, p, depth) == InterpolationScan(k, text, start, p + 2 + |Render(inside)|, depth)
    decreases inside, 1
  {
    hide LiteralBody, LiteralSpan, LiteralOpening, NextToken, InterpolationScan, InterpolationEnd, Holds, Sound, SoundParts,
         Render, RenderParts, StartsWith, RangesOf;
    var inner := Render(inside);
    ThreeHeld(text, p, "{", inner, "}");
    HeldFits(text, p + 1 + |inner|, "}");
    HeldAt(text, p + 1 + |inner|, "}", 0);
    BraceRead(k, text, start, p, "{");
    ScanStep(k, text, start, p, depth);
    ScanToks(k, text, start, p + 1, Some('{'), inside, depth + 1);
    BraceRead(k, text, start, p + 1 + |inner|, "}");
    ScanStep(k, text, start, p + 1 + |inner|, depth + 1);
  }

  /** Every token but a block is read as what it is. */
  lemma {:induction false} TokRead(k: Letters, text: string, start: nat, p: nat, braces: bool, before: Option<char>, t: Tok)
    requires start <= p && !t.Block? && Holds(text, p, RenderTok(t)) && before == Before(text, start, p)
    requires SoundTok(k, braces, before, t, At(text, p + |RenderTok(t)|))
    ensures p < |text| && NextToken(k, text, start, p) == ReadAs(t, p)
    decreases t, 0
  {
    hide LiteralBody, LiteralSpan, LiteralOpening, NextToken, InterpolationScan, InterpolationEnd, Holds, Sound, SoundParts,
         Render, RenderParts, StartsWith, RangesOf;
    HeldFits(text, p, RenderTok(t));
    HeldAt(text, p, RenderTok(t), 0);
    match t
    case Sign(c) => SignRead(k, text, start, p, c, braces, before);
    case Remark(body) => RemarkRead(k, text, start, p, body);
    case Char(c) => CharRead(k, text, start, p, c);
    case EscapedChar(c) => EscapedCharRead(k, text, start, p, c);
    case Text(d, parts) => TextRead(k, text, start, p, braces, before, d, parts);
    case Sigil(letter, d, parts, modifiers) => SigilRead(k, text, start, p, braces, before, letter, d, parts, modifiers);
  }

  lemma PutNothing(ranges: seq<Range>, end: nat)
    ensures Put(ranges, Span(end, [])) == Span(end, ranges)
  {
    assert ranges + [] == ranges;
  }

  lemma TextHeld(k: Letters, text: string, p: nat, braces: bool, before: Option<char>, d: Delimiter, parts: seq<Part>)
    requires Holds(text, p, Open(d) + RenderParts(d, parts) + Close(d))
    requires SoundTok(k, braces, before, Text(d, parts), At(text, p + |Open(d) + RenderParts(d, parts) + Close(d)|))
    ensures var o := Opened(true, d, p + |Open(d)|);
            && SoundDelimiter(d) && !Paired(d) && SoundParts(k, true, d, parts)
            && o.interpolates && !o.paired && o == Opened(o.interpolates, d, o.content) && o.content == p + |Open(d)|
            && |o.closing| > 0
    ensures p < |text| && text[p] in LITERAL_STARTS && text[p] != '~'
    ensures Holds(text, p + |Open(d)|, RenderParts(d, parts) + Close(d))
    ensures Holds(text, p + |Open(d)| + |RenderParts(d, parts)|, Close(d))
    ensures p + |Open(d)| + |RenderParts(d, parts)| + |Close(d)| <= |text|
  {
    hide SoundParts, RenderParts, Holds;
    ThreeHeld(text, p, Open(d), RenderParts(d, parts), Close(d));
    TwoHeld(text, p + |Open(d)|, RenderParts(d, parts), Close(d));
    HeldFits(text, p + |Open(d)| + |RenderParts(d, parts)|, Close(d));
    HeldAt(text, p, Open(d), 0);
  }

  lemma {:induction false} TextRead(k: Letters, text: string, start: nat, p: nat, braces: bool, before: Option<char>,
                                    d: Delimiter, parts: seq<Part>)
    requires start <= p && Holds(text, p, Open(d) + RenderParts(d, parts) + Close(d))
    requires SoundTok(k, braces, before, Text(d, parts), At(text, p + |Open(d) + RenderParts(d, parts) + Close(d)|))
    ensures p < |text| && NextToken(k, text, start, p) ==
              Literal(Span(p + |Open(d) + RenderParts(d, parts) + Close(d)|, RangesOf(d, parts, p + |Open(d)|)))
    decreases parts, 1
  {
    hide *;
    var content := p + |Open(d)|;
    var q := content + |RenderParts(d, parts)|;
    var o := Opened(true, d, content);
    TextOpens(k, text, p, braces, before, d, parts);
    TextHeld(k, text, p, braces, before, d, parts);
    BodyParts(k, text, content, o, d, parts, 0);
    ClosesThere(k, text, o, d, q);
    PutNothing(RangesOf(d, parts, content), q + |Close(d)|);
    SpanIs(k, text, p, o, Span(q + |Close(d)|, RangesOf(d, parts, content)));
    LiteralIs(k, text, start, p, Span(q + |Close(d)|, RangesOf(d, parts, content)));
  }

  lemma TextOpens(k: Letters, text: string, p: nat, braces: bool, before: Option<char>, d: Delimiter, parts: seq<Part>)
    requires Holds(text, p, Open(d) + RenderParts(d, parts) + Close(d))
    requires SoundTok(k, braces, before, Text(d, parts), At(text, p + |Open(d) + RenderParts(d, parts) + Close(d)|))
    ensures LiteralOpening(k, text, p) == Some(Opened(true, d, p + |Open(d)|))
  {
    hide SoundParts, StartsWith, Holds;
    ThreeHeld(text, p, Open(d), RenderParts(d, parts), Close(d));
    TwoHeld(text, p + |Open(d)|, RenderParts(d, parts), Close(d));
    HeldFits(text, p, Open(d) + RenderParts(d, parts) + Close(d));
    DelimiterAt(k, text, p, true, d, parts);
  }

  /** A literal without modifiers ends with its body. */
  lemma SpanIs(k: Letters, text: string, p: nat, o: Opening, body: Span)
    requires p < |text| && LiteralOpening(k, text, p) == Some(o) && text[p] != '~'
    requires LiteralBody(k, text, o, o.content, if o.paired then 1 else 0) == body
    ensures LiteralSpan(k, text, p) == Some(body)
  {
    hide LiteralOpening, LiteralBody;
  }

  lemma SigilSpanIs(k: Letters, text: string, p: nat, o: Opening, body: Span, e: nat)
    requires p < |text| && LiteralOpening(k, text, p) == Some(o) && text[p] == '~'
    requires LiteralBody(k, text, o, o.content, if o.paired then 1 else 0) == body && SkipLetters(k, text, body.end) == e
    ensures LiteralSpan(k, text, p) == Some(Span(e, body.ranges))
  {
    hide LiteralOpening, LiteralBody, SkipLetters;
  }

  lemma LiteralIs(k: Letters, text: string, start: nat, p: nat, span: Span)
    requires start <= p < |text| && text[p] in LITERAL_STARTS && LiteralSpan(k, text, p) == Some(span)
    ensures NextToken(k, text, start, p) == Literal(span)
  {
    hide LiteralSpan;
  }

  lemma SigilSound(k: Letters, text: string, p: nat, braces: bool, before: Option<char>, letter: char, d: Delimiter,
                   parts: seq<Part>, modifiers: string)
    requires SoundTok(k, braces, before, Sigil(letter, d, parts, modifiers),
                      At(text, p + |['~', letter] + Open(d) + RenderParts(d, parts) + Close(d) + modifiers|))
    ensures var o := Opened(k.isLower(letter), d, p + 2 + |Open(d)|);
            && SoundDelimiter(d) && SoundParts(k, o.interpolates, d, parts) && o.paired == Paired(d)
            && o.interpolates == k.isLower(letter)
            && o == Opened(o.interpolates, d, o.content) && o.content == p + 2 + |Open(d)| && |o.closing| > 0
    ensures k.isAlpha(letter) && forall c :: c in modifiers ==> k.isAlpha(c)
    ensures !LetterNext(k, At(text, p + 2 + |Open(d)| + |RenderParts(d, parts)| + |Close(d)| + |modifiers|))
    ensures '~' in LITERAL_STARTS
  {
    hide SoundParts, RenderParts;
  }

  lemma {:induction false} SigilRead(k: Letters, text: string, start: nat, p: nat, braces: bool, before: Option<char>,
                                     letter: char, d: Delimiter, parts: seq<Part>, modifiers: string)
    requires start <= p && Holds(text, p, ['~', letter] + Open(d) + RenderParts(d, parts) + Close(d) + modifiers)
    requires SoundTok(k, braces, before, Sigil(letter, d, parts, modifiers),
                      At(text, p + |['~', letter] + Open(d) + RenderParts(d, parts) + Close(d) + modifiers|))
    ensures p < |text| && NextToken(k, text, start, p) ==
              Literal(Span(p + |['~', letter] + Open(d) + RenderParts(d, parts) + Close(d) + modifiers|,
                           RangesOf(d, parts, p + 2 + |Open(d)|)))
    decreases parts, 1
  {
    hide *;
    var content := p + 2 + |Open(d)|;
    var q := content + |RenderParts(d, parts)|;
    var e := q + |Close(d)|;
    var o := Opened(k.isLower(letter), d, content);
    SigilSound(k, text, p, braces, before, letter, d, parts, modifiers);
    SigilHeld(text, p, letter, d, RenderParts(d, parts), modifiers);
    SigilOpens(k, text, p, braces, before, letter, d, parts, modifiers);
    HeldFits(text, e, modifiers);
    BodyParts(k, text, content, o, d, parts, if Paired(d) then 1 else 0);
    ClosesThere(k, text, o, d, q);
    PutNothing(RangesOf(d, parts, content), e);
    ModifiersRead(k, text, e, modifiers);
    SigilSpanIs(k, text, p, o, Span(e, RangesOf(d, parts, content)), e + |modifiers|);
    LiteralIs(k, text, start, p, Span(e + |modifiers|, RangesOf(d, parts, content)));
  }

  lemma SigilHeld(text: string, p: nat, letter: char, d: Delimiter, inner: string, modifiers: string)
    requires Holds(text, p, ['~', letter] + Open(d) + inner + Close(d) + modifiers)
    ensures p + 1 < |text| && text[p] == '~' && text[p + 1] == letter && Holds(text, p + 2, Open(d))
    ensures var content := p + 2 + |Open(d)|;
            && Holds(text, content, inner + Close(d)) && Holds(text, content + |inner|, Close(d))
            && Holds(text, content + |inner| + |Close(d)|, modifiers)
  {
    HoldsParts(text, p, ['~', letter] + Open(d) + inner + Close(d), modifiers);
    HoldsParts(text, p, ['~', letter] + Open(d) + inner, Close(d));
    ThreeHeld(text, p, ['~', letter], Open(d), inner);
    TwoHeld(text, p + 2 + |Open(d)|, inner, Close(d));
    HeldAt(text, p, ['~', letter], 0);
    HeldAt(text, p, ['~', letter], 1);
  }

  lemma OpensAs(k: Letters, text: string, p: nat, letter: char, d: Delimiter)
    requires p + 2 + |Open(d)| <= |text| && text[p] == '~' && text[p + 1] == letter && k.isAlpha(letter)
    requires SoundDelimiter(d) && text[p + 2] == Open(d)[0]
    requires TripleQuote(text, p) == None && TripleQuote(text, p + 2) == if d.Triple? then Some(Open(d)) else None
    ensures LiteralOpening(k, text, p) == Some(Opened(k.isLower(letter), d, p + 2 + |Open(d)|))
  {
    hide TripleQuote;
  }

  lemma SigilOpens(k: Letters, text: string, p: nat, braces: bool, before: Option<char>, letter: char, d: Delimiter,
                   parts: seq<Part>, modifiers: string)
    requires Holds(text, p, ['~', letter] + Open(d) + RenderParts(d, parts) + Close(d) + modifiers)
    requires SoundTok(k, braces, before, Sigil(letter, d, parts, modifiers),
                      At(text, p + |['~', letter] + Open(d) + RenderParts(d, parts) + Close(d) + modifiers|))
    ensures LiteralOpening(k, text, p) == Some(Opened(k.isLower(letter), d, p + 2 + |Open(d)|))
  {
    hide *;
    SigilSound(k, text, p, braces, before, letter, d, parts, modifiers);
    SigilEnd(k, text, p, braces, before, letter, d, parts, modifiers);
    SigilHeld(text, p, letter, d, RenderParts(d, parts), modifiers);
    HeldFits(text, p + 2, Open(d));
    DelimiterAt(k, text, p + 2, k.isLower(letter), d, parts);
    NoTriple(text, p);
    OpensAs(k, text, p, letter, d);
  }

  lemma SigilBare(k: Letters, braces: bool, before: Option<char>, letter: char, d: Delimiter, parts: seq<Part>,
                  modifiers: string, after: Option<char>)
    requires SoundTok(k, braces, before, Sigil(letter, d, parts, modifiers), after)
    requires d in {Same('"'), Same('\'')} && parts == []
    ensures RenderParts(d, parts) == "" && |Open(d)| == 1 && |Close(d)| == 1
    ensures (if |modifiers| > 0 then Some(modifiers[0]) else after) != Some(d.c)
  {
  }

  lemma SigilEnd(k: Letters, text: string, p: nat, braces: bool, before: Option<char>, letter: char, d: Delimiter,
                 parts: seq<Part>, modifiers: string)
    requires Holds(text, p, ['~', letter] + Open(d) + RenderParts(d, parts) + Close(d) + modifiers)
    requires SoundTok(k, braces, before, Sigil(letter, d, parts, modifiers),
                      At(text, p + |['~', letter] + Open(d) + RenderParts(d, parts) + Close(d) + modifiers|))
    ensures d in {Same('"'), Same('\'')} && parts == [] ==> At(text, p + 4) != Some(d.c)
  {
    hide *;
    if d in {Same('"'), Same('\'')} && parts == [] {
      var e := p + |['~', letter] + Open(d) + RenderParts(d, parts) + Close(d) + modifiers|;
      SigilBare(k, braces, before, letter, d, parts, modifiers, At(text, e));
      SigilHeld(text, p, letter, d, RenderParts(d, parts), modifiers);
      HeldFits(text, p + 4, modifiers);
      AtIs(text, p + 4);
      if |modifiers| > 0 {
        HeldAt(text, p + 4, modifiers, 0);
      }
    }
  }

  /** The span of a literal is the literal, with the code of each interpolation, wherever it stands. */
  lemma SpanOfLiteral(k: Letters, text: string, p: nat, t: Tok)
    requires (t.Text? || t.Sigil?) && Holds(text, p, RenderTok(t))
    requires SoundTok(k, true, Before(text, 0, p), t, At(text, p + |RenderTok(t)|))
    ensures ReadAs(t, p).Literal? && LiteralSpan(k, text, p) == Some(ReadAs(t, p).span)
  {
    hide *;
    HeldFits(text, p, RenderTok(t));
    TokRead(k, text, 0, p, true, Before(text, 0, p), t);
    LiteralRead(t, p);
  }

  lemma LiteralRead(t: Tok, p: nat)
    requires t.Text? || t.Sigil?
    ensures ReadAs(t, p).Literal?
  {
    hide RangesOf, RenderTok;
  }

  /** The code of an interpolation ends at its brace. */
  lemma InterpolationEnds(k: Letters, text: string, p: nat, code: seq<Tok>)
    requires Sound(k, false, None, code, Some('}')) && Holds(text, p, Render(code) + "}")
    ensures InterpolationEnd(k, text, p) == Some(p + |Render(code)|)
  {
    hide *;
    var e := p + |Render(code)|;
    HoldsParts(text, p, Render(code), "}");
    HeldFits(text, e, "}");
    HeldAt(text, e, "}", 0);
    StartIsBefore(text, p);
    ScanToks(k, text, p, p, None, code, 1);
    BraceRead(k, text, p, e, "}");
    ScanStep(k, text, p, e, 1);
    ScanEnd(k, text, p);
  }

  lemma StartIsBefore(text: string, p: nat)
    requires p <= |text|
    ensures Before(text, p, p) == None
  {
  }

  // ----- What is shown

  lemma {:induction false} HiddenAppend(a: string, b: string)
    ensures Hidden(a + b) == Hidden(a) + Hidden(b)
  {
    if |a| == 0 {
      assert a + b == b;
    } else {
      assert (a + b)[1..] == a[1..] + b;
      HiddenAppend(a[1..], b);
    }
  }

  lemma {:induction false} BlankIs(text: string, p: nat, s: string)
    requires Holds(text, p, s)
    ensures Blank(text, p, p + |s|) == Hidden(s)
    decreases |s|
  {
    if |s| > 0 {
      HeldAt(text, p, s, 0);
      assert s == [s[0]] + s[1..];
      HoldsParts(text, p, [s[0]], s[1..]);
      BlankIs(text, p + 1, s[1..]);
    }
  }

  lemma {:induction false} BlankSplit(text: string, from: nat, m: nat, end: nat)
    requires from <= m <= end <= |text|
    ensures Blank(text, from, end) == Blank(text, from, m) + Blank(text, m, end)
    decreases m - from
  {
    if from < m {
      BlankSplit(text, from + 1, m, end);
    }
  }

  lemma NestedEnds(text: string, ranges: seq<Range>, from: nat, end: nat)
    requires Nested(text, ranges, from, end)
    ensures from <= end <= |text| && (|ranges| > 0 ==> from + 2 <= ranges[0].0 <= |text|)
  {
  }

  /** Nothing is nested before the first range: the view starts with blanks. */
  lemma InsideSplit(k: Letters, text: string, ranges: seq<Range>, from: nat, m: nat, end: nat)
    requires 0 < from <= m && Nested(text, ranges, m, end)
    ensures m <= end <= |text| && Nested(text, ranges, from, end)
    ensures LiteralInside(k, text, ranges, from, end) == Blank(text, from, m) + LiteralInside(k, text, ranges, m, end)
  {
    NestedEnds(text, ranges, m, end);
    NestedWider(text, ranges, m, from, end, end);
    hide Nested, Blank, CodeOnly, LiteralInside;
    if |ranges| == 0 {
      assert ranges == [];
      InsideNil(k, text, from, end);
      InsideNil(k, text, m, end);
      BlankSplit(text, from, m, end);
    } else {
      HeadSplit(k, text, ranges, from, m, end);
    }
  }

  lemma HeadSplit(k: Letters, text: string, ranges: seq<Range>, from: nat, m: nat, end: nat)
    requires 0 < from <= m && |ranges| > 0 && Nested(text, ranges, m, end) && Nested(text, ranges, from, end)
    ensures m <= end <= |text|
    ensures LiteralInside(k, text, ranges, from, end) == Blank(text, from, m) + LiteralInside(k, text, ranges, m, end)
  {
    hide *;
    NestedEnds(text, ranges, m, end);
    InsideHead(k, text, ranges, from, end);
    InsideHead(k, text, ranges, m, end);
    var (a, b) := ranges[0];
    BlankSplit(text, from, m, a);
    FiveJoined(Blank(text, from, m), Blank(text, m, a), CodeOnly(k, text[a..b]), Blank(text, b, b + 1),
               LiteralInside(k, text, ranges[1..], b + 1, end));
  }

  lemma FiveJoined(v: string, w: string, x: string, y: string, z: string)
    ensures v + w + x + y + z == v + (w + x + y + z)
  {
  }

  /** Behind what stands at `p`, the view of a literal goes on with what is nested further on. */
  lemma HiddenRun(k: Letters, text: string, ranges: seq<Range>, p: nat, s: string, end: nat)
    requires 0 < p && Holds(text, p, s) && Nested(text, ranges, p + |s|, end)
    ensures Nested(text, ranges, p, end)
    ensures LiteralInside(k, text, ranges, p, end) == Hidden(s) + LiteralInside(k, text, ranges, p + |s|, end)
  {
    hide Nested, Blank, LiteralInside, Holds;
    HeldFits(text, p, s);
    InsideSplit(k, text, ranges, p, p + |s|, end);
    BlankIs(text, p, s);
  }

  lemma {:induction false} SoundAtEnd(k: Letters, braces: bool, before: Option<char>, ts: seq<Tok>, after: Option<char>)
    requires Sound(k, braces, before, ts, after)
    ensures Sound(k, braces, before, ts, None)
    decreases ts
  {
    hide RenderTok;
    if |ts| > 0 {
      SoundAtEnd(k, braces, Some(Last(RenderTok(ts[0]))), ts[1..], after);
      SoundTokAtEnd(k, braces, before, ts[0], First(Render(ts[1..]), after), First(Render(ts[1..]), None));
    }
  }

  lemma SoundTokAtEnd(k: Letters, braces: bool, before: Option<char>, t: Tok, after: Option<char>, end: Option<char>)
    requires SoundTok(k, braces, before, t, after) && (end == after || end == None)
    ensures SoundTok(k, braces, before, t, end)
  {
    hide Sound, SoundParts;
  }

  lemma PartsCons(k: Letters, interpolates: bool, d: Delimiter, parts: seq<Part>, p: nat)
    requires |parts| > 0 && SoundParts(k, interpolates, d, parts)
    ensures RenderParts(d, parts) == RenderPart(d, parts[0]) + RenderParts(d, parts[1..])
    ensures ShownParts(d, parts) == ShownPart(d, parts[0]) + ShownParts(d, parts[1..])
    ensures RangesOf(d, parts, p) == RangesIn(d, parts[0], p) + RangesOf(d, parts[1..], p + |RenderPart(d, parts[0])|)
    ensures SoundPart(k, interpolates, d, parts[0], RenderParts(d, parts[1..])) && SoundParts(k, interpolates, d, parts[1..])
  {
  }

  lemma NoParts(d: Delimiter, p: nat)
    ensures RenderParts(d, []) == "" && ShownParts(d, []) == "" && RangesOf(d, [], p) == []
  {
  }

  lemma {:induction false} InsideParts(k: Letters, text: string, p: nat, interpolates: bool, d: Delimiter, parts: seq<Part>,
                                       others: seq<Range>, end: nat)
    requires 0 < p && SoundParts(k, interpolates, d, parts) && Holds(text, p, RenderParts(d, parts))
    requires Nested(text, others, p + |RenderParts(d, parts)|, end)
    ensures Nested(text, RangesOf(d, parts, p) + others, p, end)
    ensures LiteralInside(k, text, RangesOf(d, parts, p) + others, p, end) ==
              ShownParts(d, parts) + LiteralInside(k, text, others, p + |RenderParts(d, parts)|, end)
    decreases parts, 0
  {
    hide *;
    if |parts| == 0 {
      NoParts(d, p);
      assert parts == [] && [] + others == others;
      assert "" + LiteralInside(k, text, others, p, end) == LiteralInside(k, text, others, p, end);
    } else {
      var head, next := RenderPart(d, parts[0]), RenderParts(d, parts[1..]);
      var ahead := RangesOf(d, parts[1..], p + |head|) + others;
      PartsCons(k, interpolates, d, parts, p);
      HoldsParts(text, p, head, next);
      InsideParts(k, text, p + |head|, interpolates, d, parts[1..], others, end);
      InsidePart(k, text, p, interpolates, d, parts[0], next, ahead, end);
      assert RangesIn(d, parts[0], p) + ahead == RangesOf(d, parts, p) + others;
      ThreeJoined(ShownPart(d, parts[0]), ShownParts(d, parts[1..]),
                  LiteralInside(k, text, others, p + |head| + |next|, end));
    }
  }

  lemma {:induction false} InsidePart(k: Letters, text: string, p: nat, interpolates: bool, d: Delimiter, part: Part,
                                      next: string, others: seq<Range>, end: nat)
    requires 0 < p && SoundPart(k, interpolates, d, part, next) && Holds(text, p, RenderPart(d, part))
    requires Nested(text, others, p + |RenderPart(d, part)|, end)
    ensures Nested(text, RangesIn(d, part, p) + others, p, end)
    ensures LiteralInside(k, text, RangesIn(d, part, p) + others, p, end) ==
              ShownPart(d, part) + LiteralInside(k, text, others, p + |RenderPart(d, part)|, end)
    decreases part, 0
  {
    hide Nested, LiteralInside, Holds, RenderParts, Render, Shown, ShownParts, RangesOf, SoundParts, Sound, Hidden;
    match part
    case Content(c) =>
      assert [] + others == others;
      HiddenRun(k, text, others, p, [c], end);
    case Escape(c) =>
      assert [] + others == others;
      HiddenRun(k, text, others, p, ['\\', c], end);
    case Group(parts) => InsideGroup(k, text, p, interpolates, d, parts, others, end);
    case Interpolation(code) => InsideInterpolation(k, text, p, code, others, end);
  }

  lemma {:induction false} InsideGroup(k: Letters, text: string, p: nat, interpolates: bool, d: Delimiter, parts: seq<Part>,
                                       others: seq<Range>, end: nat)
    requires 0 < p && SoundParts(k, interpolates, d, parts) && Holds(text, p, Open(d) + RenderParts(d, parts) + Close(d))
    requires Nested(text, others, p + |Open(d) + RenderParts(d, parts) + Close(d)|, end)
    ensures Nested(text, RangesOf(d, parts, p + |Open(d)|) + others, p, end)
    ensures LiteralInside(k, text, RangesOf(d, parts, p + |Open(d)|) + others, p, end) ==
              Hidden(Open(d)) + ShownParts(d, parts) + Hidden(Close(d)) +
              LiteralInside(k, text, others, p + |Open(d) + RenderParts(d, parts) + Close(d)|, end)
    decreases parts, 1
  {
    hide Nested, LiteralInside, Holds, RenderParts, ShownParts, RangesOf, SoundParts, Hidden, Open, Close;
    var a := p + |Open(d)|;
    var b := a + |RenderParts(d, parts)|;
    ThreeHeld(text, p, Open(d), RenderParts(d, parts), Close(d));
    HiddenRun(k, text, others, b, Close(d), end);
    InsideParts(k, text, a, interpolates, d, parts, others, end);
    HiddenRun(k, text, RangesOf(d, parts, a) + others, p, Open(d), end);
    FourJoined(Hidden(Open(d)), ShownParts(d, parts), Hidden(Close(d)), LiteralInside(k, text, others, b + |Close(d)|, end));
  }

  lemma FourJoined(w: string, x: string, y: string, z: string)
    ensures w + (x + (y + z)) == w + x + y + z
  {
  }

  lemma {:induction false} InsideInterpolation(k: Letters, text: string, p: nat, code: seq<Tok>, others: seq<Range>, end: nat)
    requires 0 < p && Sound(k, false, None, code, Some('}')) && Holds(text, p, "#{" + Render(code) + "}")
    requires Nested(text, others, p + |"#{" + Render(code) + "}"|, end)
    ensures Nested(text, [(p + 2, p + 2 + |Render(code)|)] + others, p, end)
    ensures LiteralInside(k, text, [(p + 2, p + 2 + |Render(code)|)] + others, p, end) ==
              "  " + Shown(code) + " " + LiteralInside(k, text, others, p + |"#{" + Render(code) + "}"|, end)
    decreases code, 2
  {
    hide *;
    InterpolationNested(text, p, Render(code), others, end);
    SoundAtEnd(k, false, None, code, Some('}'));
    RenderedView(k, false, code);
    InterpolationShown(k, text, p, Render(code), others, end);
  }

  lemma InterpolationShown(k: Letters, text: string, p: nat, code: string, others: seq<Range>, end: nat)
    requires 0 < p && Holds(text, p, "#{" + code + "}")
    requires Nested(text, others, p + |"#{" + code + "}"|, end)
    requires Nested(text, [(p + 2, p + 2 + |code|)] + others, p, end)
    ensures LiteralInside(k, text, [(p + 2, p + 2 + |code|)] + others, p, end) ==
              "  " + CodeOnly(k, code) + " " + LiteralInside(k, text, others, p + |"#{" + code + "}"|, end)
  {
    hide *;
    var a, b := p + 2, p + 2 + |code|;
    var ranges := [(a, b)] + others;
    ThreeHeld(text, p, "#{", code, "}");
    assert ranges[0] == (a, b) && ranges[1..] == others;
    HeldFits(text, b, "}");
    InsideHead(k, text, ranges, p, end);
    HeldIs(text, a, code);
    BlankIs(text, p, "#{");
    BlankIs(text, b, "}");
    BracesHidden();
  }

  lemma BracesHidden()
    ensures Hidden("#{") == "  " && Hidden("}") == " "
  {
  }

  lemma HeldIs(s: string, p: nat, x: string)
    requires Holds(s, p, x)
    ensures p + |x| <= |s| && s[p..p + |x|] == x
  {
  }

  lemma InterpolationNested(text: string, p: nat, code: string, others: seq<Range>, end: nat)
    requires Holds(text, p, "#{" + code + "}") && Nested(text, others, p + |"#{" + code + "}"|, end)
    ensures Nested(text, [(p + 2, p + 2 + |code|)] + others, p, end)
  {
    var ranges := [(p + 2, p + 2 + |code|)] + others;
    assert ranges[1..] == others;
    ThreeHeld(text, p, "#{", code, "}");
    HeldAt(text, p, "#{", 0);
    HeldAt(text, p, "#{", 1);
    HeldAt(text, p + 2 + |code|, "}", 0);
    NestedEnds(text, others, p + |"#{" + code + "}"|, end);
  }

  /** The view of a literal behind its first character. */
  lemma {:induction false} LiteralShown(k: Letters, text: string, p: nat, x: string, interpolates: bool, d: Delimiter,
                                        parts: seq<Part>, y: string)
    requires 0 < p && SoundParts(k, interpolates, d, parts) && Holds(text, p, x + RenderParts(d, parts) + y)
    ensures var end, ranges := p + |x + RenderParts(d, parts) + y|, RangesOf(d, parts, p + |x|);
            Nested(text, ranges, p, end)
            && LiteralInside(k, text, ranges, p, end) == Hidden(x) + ShownParts(d, parts) + Hidden(y)
    decreases parts, 1
  {
    hide Nested, LiteralInside, Holds, RenderParts, ShownParts, RangesOf, SoundParts, Hidden, Blank;
    var a := p + |x|;
    var b := a + |RenderParts(d, parts)|;
    var end := b + |y|;
    ThreeHeld(text, p, x, RenderParts(d, parts), y);
    HeldFits(text, b, y);
    InsideNil(k, text, b, end);
    BlankIs(text, b, y);
    InsideParts(k, text, a, interpolates, d, parts, [], end);
    assert RangesOf(d, parts, a) + [] == RangesOf(d, parts, a);
    HiddenRun(k, text, RangesOf(d, parts, a), p, x, end);
    assert Hidden(x) + (ShownParts(d, parts) + Hidden(y)) == Hidden(x) + ShownParts(d, parts) + Hidden(y);
  }

  /** Of text written from the grammar the view shows what the grammar says. */
  lemma {:induction false} RenderedView(k: Letters, braces: bool, ts: seq<Tok>)
    requires Sound(k, braces, None, ts, None)
    ensures CodeOnly(k, Render(ts)) == Shown(ts)
    decreases ts, 1
  {
    hide CodeOnly, CodeFrom, Sound, Render, Shown;
    var text := Render(ts);
    assert Holds(text, 0, text) by {
      assert text[0..0 + |text|] == text;
    }
    CodeOnlyIs(k, text);
    ToksShown(k, text, 0, braces, None, ts, None);
    CodeEnds(k, text);
    assert Shown(ts) + [] == Shown(ts);
  }

  lemma CodeEnds(k: Letters, text: string)
    ensures CodeFrom(k, text, |text|) == []
  {
  }

  lemma ThreeJoined(x: string, y: string, z: string)
    ensures x + (y + z) == x + y + z
  {
  }

  lemma {:induction false} ToksShown(k: Letters, text: string, p: nat, braces: bool, before: Option<char>, ts: seq<Tok>,
                                     after: Option<char>)
    requires Sound(k, braces, before, ts, after) && Holds(text, p, Render(ts))
    requires p + |Render(ts)| <= |text| && before == Before(text, 0, p) && after == At(text, p + |Render(ts)|)
    ensures CodeFrom(k, text, p) == Shown(ts) + CodeFrom(k, text, p + |Render(ts)|)
    decreases ts, 0
  {
    hide *;
    if |ts| == 0 {
      NoToks();
      assert ts == [];
      assert [] + CodeFrom(k, text, p) == CodeFrom(k, text, p);
    } else {
      var head, rest := RenderTok(ts[0]), Render(ts[1..]);
      SoundCons(k, braces, before, ts, after);
      Between(text, 0, p, head, rest, after);
      TokShown(k, text, p, braces, before, ts[0]);
      ToksShown(k, text, p + |head|, braces, Some(Last(head)), ts[1..], after);
      ThreeJoined(ShownTok(ts[0]), Shown(ts[1..]), CodeFrom(k, text, p + |head| + |rest|));
    }
  }

  lemma {:induction false} TokShown(k: Letters, text: string, p: nat, braces: bool, before: Option<char>, t: Tok)
    requires Holds(text, p, RenderTok(t)) && p + |RenderTok(t)| <= |text| && before == Before(text, 0, p)
    requires SoundTok(k, braces, before, t, At(text, p + |RenderTok(t)|))
    ensures CodeFrom(k, text, p) == ShownTok(t) + CodeFrom(k, text, p + |RenderTok(t)|)
    decreases t, 1
  {
    hide *;
    if t.Block? {
      BlockTok(k, braces, before, t, At(text, p + |RenderTok(t)|));
      BlockShown(k, text, p, braces, t.inside);
    } else {
      TokRead(k, text, 0, p, braces, before, t);
      if t.Text? || t.Sigil? {
        LiteralTok(k, text, p, braces, before, t);
      } else {
        PlainTok(k, text, p, t);
      }
    }
  }

  lemma BlockTok(k: Letters, braces: bool, before: Option<char>, t: Tok, after: Option<char>)
    requires t.Block? && SoundTok(k, braces, before, t, after)
    ensures RenderTok(t) == "{" + Render(t.inside) + "}" && ShownTok(t) == "{" + Shown(t.inside) + "}"
    ensures Sound(k, braces, Some('{'), t.inside, Some('}'))
  {
  }

  lemma PlainIs(t: Tok, p: nat)
    ensures t.Sign? ==> RenderTok(t) == [t.c] && ShownTok(t) == [t.c] && ReadAs(t, p) == Plain
    ensures t.Remark? ==> RenderTok(t) == "#" + t.body + "\n" && ShownTok(t) == " " + Hidden(t.body) + "\n"
                          && ReadAs(t, p) == Comment(p + 1 + |t.body|)
    ensures t.Char? ==> RenderTok(t) == ['?', t.c] && ShownTok(t) == ['?', t.c] && ReadAs(t, p) == Character(p + 2)
    ensures t.EscapedChar? ==> RenderTok(t) == ['?', '\\', t.c] && ShownTok(t) == ['?', '\\', t.c]
                               && ReadAs(t, p) == Character(p + 3)
  {
  }

  lemma PlainTok(k: Letters, text: string, p: nat, t: Tok)
    requires t.Sign? || t.Remark? || t.Char? || t.EscapedChar?
    requires p < |text| && Holds(text, p, RenderTok(t)) && NextToken(k, text, 0, p) == ReadAs(t, p)
    ensures p + |RenderTok(t)| <= |text|
    ensures CodeFrom(k, text, p) == ShownTok(t) + CodeFrom(k, text, p + |RenderTok(t)|)
  {
    hide *;
    CodeStep(k, text, p);
    HeldIs(text, p, RenderTok(t));
    PlainIs(t, p);
    match t
    case Remark(body) => RemarkShown(k, text, p, body);
    case Sign(c) => assert text[p..p + 1] == [text[p]];
    case _ =>
  }

  lemma TextIs(k: Letters, p: nat, braces: bool, before: Option<char>, d: Delimiter, parts: seq<Part>, after: Option<char>)
    requires SoundTok(k, braces, before, Text(d, parts), after)
    ensures var t := Text(d, parts);
            && RenderTok(t) == Open(d) + RenderParts(d, parts) + Close(d) && SoundParts(k, true, d, parts)
            && ReadAs(t, p) == Literal(Span(p + |RenderTok(t)|, RangesOf(d, parts, p + |Open(d)|)))
            && ShownTok(t) == "0" + Hidden(Open(d)[1..]) + ShownParts(d, parts) + Hidden(Close(d))
  {
    hide SoundParts, RenderParts, ShownParts, RangesOf, Hidden;
  }

  lemma SigilIs(k: Letters, p: nat, braces: bool, before: Option<char>, letter: char, d: Delimiter, parts: seq<Part>,
                modifiers: string, after: Option<char>)
    requires SoundTok(k, braces, before, Sigil(letter, d, parts, modifiers), after)
    ensures var t := Sigil(letter, d, parts, modifiers);
            && RenderTok(t) == ['~', letter] + Open(d) + RenderParts(d, parts) + Close(d) + modifiers
            && SoundParts(k, k.isLower(letter), d, parts)
            && ReadAs(t, p) == Literal(Span(p + |RenderTok(t)|, RangesOf(d, parts, p + 2 + |Open(d)|)))
            && ShownTok(t) == "0" + Hidden([letter] + Open(d)) + ShownParts(d, parts) + Hidden(Close(d) + modifiers)
  {
    hide SoundParts, RenderParts, ShownParts, RangesOf, Hidden;
  }

  lemma {:induction false} TextTok(k: Letters, text: string, p: nat, braces: bool, before: Option<char>, d: Delimiter, parts: seq<Part>)
    requires var t := Text(d, parts);
             && Holds(text, p, RenderTok(t)) && p < |text| && NextToken(k, text, 0, p) == ReadAs(t, p)
             && SoundTok(k, braces, before, t, At(text, p + |RenderTok(t)|))
    ensures p + |RenderTok(Text(d, parts))| <= |text|
    ensures CodeFrom(k, text, p) == ShownTok(Text(d, parts)) + CodeFrom(k, text, p + |RenderTok(Text(d, parts))|)
    decreases parts, 3
  {
    hide *;
    TextIs(k, p, braces, before, d, parts, At(text, p + |RenderTok(Text(d, parts))|));
    HeldFits(text, p, RenderTok(Text(d, parts)));
    TextShown(k, text, p, d, parts);
    CodeStep(k, text, p);
  }

  lemma {:induction false} SigilTok(k: Letters, text: string, p: nat, braces: bool, before: Option<char>, letter: char,
                                    d: Delimiter, parts: seq<Part>, modifiers: string)
    requires var t := Sigil(letter, d, parts, modifiers);
             && Holds(text, p, RenderTok(t)) && p < |text| && NextToken(k, text, 0, p) == ReadAs(t, p)
             && SoundTok(k, braces, before, t, At(text, p + |RenderTok(t)|))
    ensures var t := Sigil(letter, d, parts, modifiers);
            && p + |RenderTok(t)| <= |text|
            && CodeFrom(k, text, p) == ShownTok(t) + CodeFrom(k, text, p + |RenderTok(t)|)
    decreases parts, 3
  {
    hide *;
    SigilIs(k, p, braces, before, letter, d, parts, modifiers, At(text, p + |RenderTok(Sigil(letter, d, parts, modifiers))|));
    HeldFits(text, p, RenderTok(Sigil(letter, d, parts, modifiers)));
    SigilShown(k, text, p, letter, d, parts, modifiers);
    CodeStep(k, text, p);
  }

  lemma {:induction false} LiteralTok(k: Letters, text: string, p: nat, braces: bool, before: Option<char>, t: Tok)
    requires (t.Text? || t.Sigil?) && p < |text|
    requires Holds(text, p, RenderTok(t)) && NextToken(k, text, 0, p) == ReadAs(t, p)
    requires SoundTok(k, braces, before, t, At(text, p + |RenderTok(t)|))
    ensures p + |RenderTok(t)| <= |text|
    ensures CodeFrom(k, text, p) == ShownTok(t) + CodeFrom(k, text, p + |RenderTok(t)|)
    decreases t, 0
  {
    hide *;
    match t
    case Text(d, parts) => TextTok(k, text, p, braces, before, d, parts);
    case Sigil(letter, d, parts, modifiers) => SigilTok(k, text, p, braces, before, letter, d, parts, modifiers);
  }

  lemma {:induction false} TextShown(k: Letters, text: string, p: nat, d: Delimiter, parts: seq<Part>)
    requires SoundParts(k, true, d, parts) && Holds(text, p, Open(d) + RenderParts(d, parts) + Close(d))
    ensures var end, ranges := p + |Open(d) + RenderParts(d, parts) + Close(d)|, RangesOf(d, parts, p + |Open(d)|);
            Nested(text, ranges, p + 1, end)
            && "0" + LiteralInside(k, text, ranges, p + 1, end) ==
                 "0" + Hidden(Open(d)[1..]) + ShownParts(d, parts) + Hidden(Close(d))
    decreases parts, 2
  {
    hide LiteralInside, Nested, Holds, SoundParts, RenderParts, ShownParts, RangesOf, Hidden;
    TextBehind(text, p, d, RenderParts(d, parts));
    LiteralShown(k, text, p + 1, Open(d)[1..], true, d, parts, Close(d));
    LiteralJoined(Hidden(Open(d)[1..]), ShownParts(d, parts), Hidden(Close(d)));
  }

  lemma {:induction false} SigilShown(k: Letters, text: string, p: nat, letter: char, d: Delimiter, parts: seq<Part>,
                                      modifiers: string)
    requires SoundParts(k, k.isLower(letter), d, parts)
    requires Holds(text, p, ['~', letter] + Open(d) + RenderParts(d, parts) + Close(d) + modifiers)
    ensures var end := p + |['~', letter] + Open(d) + RenderParts(d, parts) + Close(d) + modifiers|;
            var ranges := RangesOf(d, parts, p + 2 + |Open(d)|);
            Nested(text, ranges, p + 1, end)
            && "0" + LiteralInside(k, text, ranges, p + 1, end) ==
                 "0" + Hidden([letter] + Open(d)) + ShownParts(d, parts) + Hidden(Close(d) + modifiers)
    decreases parts, 2
  {
    hide LiteralInside, Nested, Holds, SoundParts, RenderParts, ShownParts, RangesOf, Hidden;
    SigilBehind(text, p, letter, d, RenderParts(d, parts), modifiers);
    LiteralShown(k, text, p + 1, [letter] + Open(d), k.isLower(letter), d, parts, Close(d) + modifiers);
    LiteralJoined(Hidden([letter] + Open(d)), ShownParts(d, parts), Hidden(Close(d) + modifiers));
  }

  lemma LiteralJoined(x: string, y: string, z: string)
    ensures "0" + (x + y + z) == "0" + x + y + z
  {
  }

  lemma TextBehind(text: string, p: nat, d: Delimiter, inner: string)
    requires Holds(text, p, Open(d) + inner + Close(d))
    ensures Holds(text, p + 1, Open(d)[1..] + inner + Close(d))
    ensures p + 1 + |Open(d)[1..]| == p + |Open(d)|
  {
    assert Open(d) + inner + Close(d) == [Open(d)[0]] + (Open(d)[1..] + inner + Close(d));
    HoldsParts(text, p, [Open(d)[0]], Open(d)[1..] + inner + Close(d));
  }

  lemma SigilBehind(text: string, p: nat, letter: char, d: Delimiter, inner: string, modifiers: string)
    requires Holds(text, p, ['~', letter] + Open(d) + inner + Close(d) + modifiers)
    ensures Holds(text, p + 1, [letter] + Open(d) + inner + (Close(d) + modifiers))
  {
    assert ['~', letter] + Open(d) + inner + Close(d) + modifiers
        == ['~'] + ([letter] + Open(d) + inner + (Close(d) + modifiers));
    HoldsParts(text, p, ['~'], [letter] + Open(d) + inner + (Close(d) + modifiers));
  }

  lemma RemarkHeld(text: string, p: nat, body: string)
    requires Holds(text, p, "#" + body + "\n")
    ensures Holds(text, p, "#" + body) && p + 1 + |body| < |text| && text[p + 1 + |body|] == '\n'
  {
    HoldsParts(text, p, "#" + body, "\n");
    HeldAt(text, p + 1 + |body|, "\n", 0);
  }

  lemma LineBreakShown(k: Letters, text: string, e: nat)
    requires e < |text| && text[e] == '\n'
    ensures CodeFrom(k, text, e) == "\n" + CodeFrom(k, text, e + 1)
  {
    SignRead(k, text, 0, e, '\n', true, None);
    hide CodeFrom, NextToken;
    CodeStep(k, text, e);
  }

  lemma RemarkShown(k: Letters, text: string, p: nat, body: string)
    requires Holds(text, p, "#" + body + "\n")
    ensures p + 1 + |body| < |text|
    ensures Blank(text, p, p + 1 + |body|) + CodeFrom(k, text, p + 1 + |body|) ==
              " " + Hidden(body) + "\n" + CodeFrom(k, text, p + |"#" + body + "\n"|)
  {
    hide *;
    var e := p + 1 + |body|;
    RemarkHeld(text, p, body);
    BlankIs(text, p, "#" + body);
    HashHidden(body);
    LineBreakShown(k, text, e);
    assert " " + Hidden(body) + ("\n" + CodeFrom(k, text, e + 1)) == " " + Hidden(body) + "\n" + CodeFrom(k, text, e + 1);
  }

  lemma {:induction false} BlockShown(k: Letters, text: string, p: nat, braces: bool, inside: seq<Tok>)
    requires Holds(text, p, "{" + Render(inside) + "}") && Sound(k, braces, Some('{'), inside, Some('}'))
    ensures p + |"{" + Render(inside) + "}"| <= |text|
    ensures CodeFrom(k, text, p) == "{" + Shown(inside) + "}" + CodeFrom(k, text, p + |"{" + Render(inside) + "}"|)
    decreases inside, 1
  {
    hide CodeFrom, NextToken, Holds, Sound, Render, Shown;
    var e := p + 1 + |Render(inside)|;
    ThreeHeld(text, p, "{", Render(inside), "}");
    HeldFits(text, e, "}");
    BraceRead(k, text, 0, p, "{");
    CodeStep(k, text, p);
    BraceRead(k, text, 0, e, "}");
    CodeStep(k, text, e);
    ToksShown(k, text, p + 1, braces, Some('{'), inside, Some('}'));
    assert "{" + (Shown(inside) + ("}" + CodeFrom(k, text, e + 1))) == "{" + Shown(inside) + "}" + CodeFrom(k, text, e + 1);
  }

  /** So it does when the text ends with a remark that has no line behind it. */
  lemma RemarkAtEnd(k: Letters, ts: seq<Tok>, body: string)
    requires Sound(k, true, None, ts, Some('#')) && '\n' !in body
    requires |Render(ts)| > 0 ==> Last(Render(ts)) != '?'
    ensures CodeOnly(k, Render(ts) + "#" + body) == Shown(ts) + " " + Hidden(body)
  {
    hide *;
    var read := Render(ts);
    var text := read + "#" + body;
    RemarkLast(read, body);
    CodeOnlyIs(k, text);
    StartIsBare(text);
    ToksShown(k, text, 0, true, None, ts, Some('#'));
    LastRemark(k, text, |read|, body);
    assert Shown(ts) + (" " + Hidden(body)) == Shown(ts) + " " + Hidden(body);
  }

  lemma RemarkLast(read: string, body: string)
    requires '\n' !in body && (|read| > 0 ==> Last(read) != '?')
    ensures var text, p := read + "#" + body, |read|;
            && Holds(text, 0, read) && Holds(text, p, "#" + body) && p + 1 + |body| == |text| && p < |text|
            && text[p] == '#' && !AfterQuestion(text, 0, p) && LineEnd(text, p) == |text|
  {
    hide LineEnd;
    var text, p, remark := read + "#" + body, |read|, "#" + body;
    assert text == read + remark && text[0..p] == read && text[p..] == remark;
    LastRead(text, read, remark);
    LineEndsText(text, p, remark);
  }

  lemma StartIsBare(text: string)
    ensures Before(text, 0, 0) == None
    ensures forall p: nat :: p < |text| ==> At(text, p) == Some(text[p])
  {
  }

  lemma LastRemark(k: Letters, text: string, p: nat, body: string)
    requires p < |text| && text[p] == '#' && !AfterQuestion(text, 0, p) && LineEnd(text, p) == |text|
    requires Holds(text, p, "#" + body) && p + 1 + |body| == |text|
    ensures CodeFrom(k, text, p) == " " + Hidden(body)
  {
    hide CodeFrom, Holds, LineEnd, Hidden;
    CodeStep(k, text, p);
    BlankIs(text, p, "#" + body);
    CodeEnds(k, text);
    HashHidden(body);
    assert Hidden("#" + body) + [] == Hidden("#" + body);
  }

  lemma HashHidden(body: string)
    ensures Hidden("#" + body) == " " + Hidden(body)
  {
    HiddenAppend("#", body);
    assert Hidden("#") == " ";
  }

  lemma LastRead(text: string, read: string, remark: string)
    requires text == read + remark && |remark| > 0 && (|read| > 0 ==> Last(read) != '?')
    ensures !AfterQuestion(text, 0, |read|)
  {
  }

  lemma {:induction false} LineEndsText(text: string, p: nat, remark: string)
    requires p <= |text| && text[p..] == remark && '\n' !in remark
    ensures LineEnd(text, p) == |text|
    decreases |text| - p
  {
    if p < |text| {
      assert text[p] == remark[0] && remark[0] in remark;
      assert text[p + 1..] == remark[1..] && forall c :: c in remark[1..] ==> c in remark;
      LineEndsText(text, p + 1, remark[1..]);
    }
  }
}
