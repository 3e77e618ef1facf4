/** The scanners that cut a call out of Elixir code: the argument text up to the closing parenthesis,
    its pieces between top-level commas, and the arity that the pieces stand for. */
module CallArguments {
  import opened Wrappers

  /** Code, or the inside of a quoted literal, where a backslash may have escaped the next character. */
  datatype Quote = Code | Inside(quote: char, escaped: bool)

  function NextQuote(q: Quote, c: char): Quote {
    match q
    case Code => if c in {'"', '\''} then Inside(c, false) else Code
    case Inside(quote, escaped) =>
      if escaped then Inside(quote, false)
      else if c == '\\' then Inside(quote, true)
      else if c == quote then Code
      else q
  }

  // ----- balanced_call_arguments

  function ParenDepth(q: Quote, depth: int, c: char): int {
    if q != Code then depth else if c == '(' then depth + 1 else if c == ')' then depth - 1 else depth
  }

  /** The index of the parenthesis at which the depth returns to zero. */
  function CloseAt(text: string, index: nat, depth: int, q: Quote): (r: Option<nat>)
    requires index <= |text|
    ensures r.Some? ==> index <= r.value < |text|
    decreases |text| - index
  {
    if index == |text| then None
    else if q == Code && text[index] == ')' && depth == 1 then Some(index)
    else CloseAt(text, index + 1, ParenDepth(q, depth, text[index]), NextQuote(q, text[index]))
  }

  method BalancedCallArguments(text: string, openIndex: nat) returns (r: Option<(string, nat)>)
    requires openIndex <= |text|
    ensures match CloseAt(text, openIndex, 0, Code)
            case None => r == None
            case Some(close) =>
              close > openIndex && r == Some((text[openIndex + 1..close], close + 1))
  {
    var depth: int, quote := 0, Code;
    ghost var close := CloseAt(text, openIndex, 0, Code);
    for index := openIndex to |text|
      invariant CloseAt(text, index, depth, quote) == close
      invariant index == openIndex ==> depth == 0
    {
      var character := text[index];
      if quote == Code {
        if character in {'"', '\''} {
          quote := Inside(character, false);
        } else if character == '(' {
          depth := depth + 1;
        } else if character == ')' {
          depth := depth - 1;
          if depth == 0 {
            return Some((text[openIndex + 1..index], index + 1));
          }
        }
      } else {
        quote := NextQuote(quote, character);
      }
    }
    r := None;
  }

  // ----- split_top_level_args

  datatype Scan = Scan(stack: seq<char>, quote: Quote)

  const START := Scan([], Code)

  function Opener(closer: char): char {
    match closer
    case ')' => '('
    case ']' => '['
    case _ => '{'
  }

  predicate IsOpener(c: char) { c in {'(', '[', '{'} }
  predicate IsCloser(c: char) { c in {')', ']', '}'} }

  predicate Closes(stack: seq<char>, c: char) {
    IsCloser(c) && |stack| > 0 && stack[|stack| - 1] == Opener(c)
  }

  function NextScan(s: Scan, c: char): Scan {
    var quote := NextQuote(s.quote, c);
    if s.quote == Code && IsOpener(c) then Scan(s.stack + [c], quote)
    else if s.quote == Code && Closes(s.stack, c) then Scan(s.stack[..|s.stack| - 1], quote)
    else Scan(s.stack, quote)
  }

  predicate IsSeparator(s: Scan, c: char) {
    c == ',' && s == START
  }

  /** The text cut at its top-level commas. */
  function Segments(s: Scan, text: string): (r: seq<string>)
    ensures |r| > 0
    decreases |text|
  {
    if |text| == 0 then [""]
    else
      var rest := Segments(NextScan(s, text[0]), text[1..]);
      if IsSeparator(s, text[0]) then [""] + rest else [[text[0]] + rest[0]] + rest[1..]
  }

  function Join(pieces: seq<string>): string {
    if |pieces| == 0 then ""
    else if |pieces| == 1 then pieces[0]
    else pieces[0] + "," + Join(pieces[1..])
  }

  /** The characters that Python's `str.strip` removes and its `\s` matches. */
  predicate IsSpace(c: char) {
    var n := c as int;
    || 0x09 <= n <= 0x0D || 0x1C <= n <= 0x20 || n == 0x85 || n == 0xA0 || n == 0x1680
    || 0x2000 <= n <= 0x200A || n == 0x2028 || n == 0x2029 || n == 0x202F || n == 0x205F || n == 0x3000
  }

  function StripLeft(s: string): string {
    if |s| > 0 && IsSpace(s[0]) then StripLeft(s[1..]) else s
  }

  function StripRight(s: string): string {
    if |s| > 0 && IsSpace(s[|s| - 1]) then StripRight(s[..|s| - 1]) else s
  }

  function Strip(s: string): string {
    StripRight(StripLeft(s))
  }

  function StripAll(pieces: seq<string>): (r: seq<string>)
    ensures |r| == |pieces|
    ensures forall i :: 0 <= i < |r| ==> r[i] == Strip(pieces[i])
  {
    if |pieces| == 0 then [] else [Strip(pieces[0])] + StripAll(pieces[1..])
  }

  /** `split_top_level_args`: every piece stripped; a blank last piece is dropped. */
  function SplitArguments(text: string): seq<string> {
    var segments := Segments(START, text);
    var n := |segments| - 1;
    StripAll(segments[..n]) + if Strip(segments[n]) == "" then [] else [Strip(segments[n])]
  }

  lemma {:induction false} StripAllAppend(pieces: seq<string>, piece: string)
    ensures StripAll(pieces + [piece]) == StripAll(pieces) + [Strip(piece)]
  {
  }

  /** With the cursor at `index`, the pieces in `cut` are complete and the next one began at `start`. */
  ghost predicate CutSoFar(text: string, cut: seq<string>, start: nat, index: nat, s: Scan) {
    && start <= index <= |text|
    && var ahead := Segments(s, text[index..]);
       Segments(START, text) == cut + [text[start..index] + ahead[0]] + ahead[1..]
  }

  lemma NothingCut(text: string)
    ensures CutSoFar(text, [], 0, 0, START)
  {
    hide Segments;
    var segments := Segments(START, text);
    assert text[0..] == text && text[0..0] + segments[0] == segments[0];
    assert segments == [segments[0]] + segments[1..];
  }

  lemma CutStep(text: string, cut: seq<string>, start: nat, index: nat, s: Scan)
    requires CutSoFar(text, cut, start, index, s) && index < |text|
    ensures if IsSeparator(s, text[index])
            then CutSoFar(text, cut + [text[start..index]], index + 1, index + 1, START)
            else CutSoFar(text, cut, start, index + 1, NextScan(s, text[index]))
  {
    var c, next := text[index], NextScan(s, text[index]);
    var ahead, rest := Segments(s, text[index..]), Segments(next, text[index + 1..]);
    assert text[index..][0] == c && text[index..][1..] == text[index + 1..];
    hide Segments;
    if IsSeparator(s, c) {
      assert ahead == [""] + rest && next == START;
      assert text[start..index] + "" == text[start..index] && text[index + 1..index + 1] + rest[0] == rest[0];
      assert rest == [rest[0]] + rest[1..];
    } else {
      assert ahead == [[c] + rest[0]] + rest[1..];
      assert text[start..index] + ([c] + rest[0]) == text[start..index + 1] + rest[0];
    }
  }

  lemma AllCut(text: string, cut: seq<string>, start: nat, s: Scan)
    requires CutSoFar(text, cut, start, |text|, s)
    ensures Segments(START, text) == cut + [text[start..]]
  {
    assert text[|text|..] == "" && text[start..|text|] + "" == text[start..];
  }

  method SplitTopLevelArgs(arguments: string) returns (parts: seq<string>)
    ensures parts == SplitArguments(arguments)
  {
    hide Segments, CutSoFar, Strip;
    parts := [];
    var start, depth, quote := 0, 0, Code;
    var stack: seq<char> := [];
    ghost var cut: seq<string> := [];
    NothingCut(arguments);
    for index := 0 to |arguments|
      invariant start <= index && depth == |stack| && parts == StripAll(cut)
      invariant CutSoFar(arguments, cut, start, index, Scan(stack, quote))
    {
      var character := arguments[index];
      CutStep(arguments, cut, start, index, Scan(stack, quote));
      if quote != Code {
        quote := NextQuote(quote, character);
        continue;
      }
      if character in {'"', '\''} {
        quote := Inside(character, false);
      } else if IsOpener(character) {
        stack := stack + [character];
        depth := depth + 1;
      } else if IsCloser(character) {
        if |stack| > 0 && stack[|stack| - 1] == Opener(character) {
          stack := stack[..|stack| - 1];
          depth := depth - 1;
        }
      } else if character == ',' && depth == 0 {
        parts := parts + [Strip(arguments[start..index])];
        StripAllAppend(cut, arguments[start..index]);
        cut := cut + [arguments[start..index]];
        start := index + 1;
      }
    }
    AllCut(arguments, cut, start, Scan(stack, quote));
    SplitOfSegments(arguments, cut, arguments[start..]);
    var tail := Strip(arguments[start..]);
    if tail != "" {
      parts := parts + [tail];
    }
  }

  // ----- elixir_call_arity

  predicate IsKeyStart(c: char) { 'a' <= c <= 'z' || c == '_' }
  predicate IsKeyChar(c: char) { 'a' <= c <= 'z' || 'A' <= c <= 'Z' || '0' <= c <= '9' || c == '_' }

  function SkipKeyChars(s: string): string {
    if |s| > 0 && IsKeyChar(s[0]) then SkipKeyChars(s[1..]) else s
  }

  /** The piece starts with a lower-case key, optionally ending in `!` or `?`, and a colon. */
  predicate IsKeyword(piece: string) {
    && |piece| > 0 && IsKeyStart(piece[0])
    && var rest := SkipKeyChars(piece[1..]);
       var marked := if |rest| > 0 && rest[0] in {'!', '?'} then rest[1..] else rest;
       var after := StripLeft(marked);
       |after| > 0 && after[0] == ':'
  }

  predicate AllKeywords(pieces: seq<string>) {
    forall i :: 0 <= i < |pieces| ==> IsKeyword(pieces[i])
  }

  /** A trailing block of keyword pieces, taken as long as possible, counts as one argument. */
  predicate CountsAs(parts: seq<string>, arity: nat) {
    if |parts| > 0 && IsKeyword(parts[|parts| - 1]) then BlockAt(parts, arity) else arity == |parts|
  }

  /** The longest trailing block of keyword pieces starts with the piece number `m`, counted from one. */
  predicate BlockAt(parts: seq<string>, m: nat) {
    && 0 < m <= |parts| && AllKeywords(parts[m - 1..])
    && (m > 1 ==> !IsKeyword(parts[m - 2]))
  }

  method AllKeywordsFrom(parts: seq<string>, index: nat) returns (all: bool)
    requires index <= |parts|
    ensures all <==> AllKeywords(parts[index..])
  {
    all := true;
    for j := index to |parts|
      invariant all <==> forall i :: index <= i < j ==> IsKeyword(parts[i])
    {
      all := all && IsKeyword(parts[j]);
    }
    assert forall i :: index <= i < |parts| ==> parts[i] == parts[index..][i - index];
  }

  method ElixirCallArity(arguments: string) returns (arity: nat)
    ensures CountsAs(SplitArguments(arguments), arity)
  {
    hide IsKeyword, SplitArguments;
    var parts := SplitTopLevelArgs(arguments);
    for index := 0 to |parts|
      invariant index > 0 ==> !AllKeywords(parts[index - 1..])
    {
      var all := AllKeywordsFrom(parts, index);
      if IsKeyword(parts[index]) && all {
        FirstBlock(parts, index);
        return index + 1;
      }
      assert parts[index..][0] == parts[index];
    }
    arity := |parts|;
  }

  /** The first index from which all pieces are keywords starts the longest trailing block. */
  lemma FirstBlock(parts: seq<string>, index: nat)
    requires index < |parts| && AllKeywords(parts[index..])
    requires index > 0 ==> !AllKeywords(parts[index - 1..])
    ensures CountsAs(parts, index + 1)
  {
  }

  // ----- Round trips

  /** Read from `s` on, the text is well bracketed, closes its quotes, and meets no comma at the top
      level unless `commas` are let through. */
  predicate WellFormed(s: Scan, text: string, commas: bool)
    decreases |text|
  {
    if |text| == 0 then s == START
    else
      && (s.quote == Code && IsCloser(text[0]) ==> Closes(s.stack, text[0]))
      && (IsSeparator(s, text[0]) ==> commas)
      && WellFormed(NextScan(s, text[0]), text[1..], commas)
  }

  predicate AllWellFormed(arguments: seq<string>) {
    forall i :: 0 <= i < |arguments| ==> WellFormed(START, arguments[i], false)
  }

  /** The pieces of any text, joined with commas, are the text. */
  lemma {:induction false} JoinSegments(s: Scan, text: string)
    ensures Join(Segments(s, text)) == text
    decreases |text|
  {
    if |text| > 0 {
      var rest := Segments(NextScan(s, text[0]), text[1..]);
      JoinSegments(NextScan(s, text[0]), text[1..]);
      assert text == [text[0]] + text[1..];
      if IsSeparator(s, text[0]) {
        assert ([""] + rest)[1..] == rest;
      } else {
        var r := [[text[0]] + rest[0]] + rest[1..];
        assert r[1..] == rest[1..];
        if |rest| > 1 {
          assert [text[0]] + rest[0] + "," + Join(rest[1..]) == [text[0]] + (rest[0] + "," + Join(rest[1..]));
        }
      }
    }
  }

  lemma {:induction false} SegmentsOfPiece(s: Scan, piece: string)
    requires WellFormed(s, piece, false)
    ensures Segments(s, piece) == [piece]
    decreases |piece|
  {
    if |piece| > 0 {
      SegmentsOfPiece(NextScan(s, piece[0]), piece[1..]);
      assert piece == [piece[0]] + piece[1..];
    }
  }

  lemma {:induction false} SegmentsAtComma(s: Scan, piece: string, rest: string)
    requires WellFormed(s, piece, false)
    ensures Segments(s, piece + "," + rest) == [piece] + Segments(START, rest)
    decreases |piece|
  {
    var text := piece + "," + rest;
    if |piece| == 0 {
      assert text[0] == ',' && text[1..] == rest;
    } else {
      assert text[0] == piece[0] && text[1..] == piece[1..] + "," + rest;
      SegmentsAtComma(NextScan(s, piece[0]), piece[1..], rest);
      var ahead := Segments(NextScan(s, piece[0]), text[1..]);
      assert ahead[0] == piece[1..] && ahead[1..] == Segments(START, rest);
      assert piece == [piece[0]] + piece[1..];
    }
  }

  lemma {:induction false} SegmentsOfJoin(arguments: seq<string>)
    requires |arguments| > 0 && AllWellFormed(arguments)
    ensures Segments(START, Join(arguments)) == arguments
  {
    if |arguments| == 1 {
      SegmentsOfPiece(START, arguments[0]);
    } else {
      SegmentsAtComma(START, arguments[0], Join(arguments[1..]));
      SegmentsOfJoin(arguments[1..]);
      assert arguments == [arguments[0]] + arguments[1..];
    }
  }

  lemma SplitOfSegments(text: string, pieces: seq<string>, last: string)
    requires Segments(START, text) == pieces + [last]
    ensures Strip(last) == "" ==> SplitArguments(text) == StripAll(pieces)
    ensures Strip(last) != "" ==> SplitArguments(text) == StripAll(pieces) + [Strip(last)]
  {
    hide Segments, Strip, StripAll;
    assert (pieces + [last])[..|pieces|] == pieces;
    assert StripAll(pieces) + [] == StripAll(pieces);
  }

  lemma AllButLast(pieces: seq<string>)
    requires |pieces| > 0
    ensures pieces == pieces[..|pieces| - 1] + [pieces[|pieces| - 1]]
  {
  }

  lemma EmptyCall()
    ensures SplitArguments("") == [] && Join([]) == ""
  {
  }

  /** Splitting the rendered arguments gives the stripped arguments back, except that a blank last one,
      as behind a trailing comma, is dropped. */
  lemma SplitOfJoin(arguments: seq<string>)
    requires AllWellFormed(arguments)
    ensures arguments == [] ==> SplitArguments(Join(arguments)) == []
    ensures arguments != [] && Strip(arguments[|arguments| - 1]) != "" ==>
              SplitArguments(Join(arguments)) == StripAll(arguments)
    ensures arguments != [] && Strip(arguments[|arguments| - 1]) == "" ==>
              SplitArguments(Join(arguments)) == StripAll(arguments[..|arguments| - 1])
  {
    hide *;
    EmptyCall();
    if arguments != [] {
      var n := |arguments| - 1;
      SegmentsOfJoin(arguments);
      AllButLast(arguments);
      StripAllAppend(arguments[..n], arguments[n]);
      SplitOfSegments(Join(arguments), arguments[..n], arguments[n]);
    }
  }

  lemma {:induction false} WellFormedAppend(s: Scan, piece: string, rest: string)
    requires WellFormed(s, piece, false) && WellFormed(START, rest, true)
    ensures WellFormed(s, piece + rest, true)
    decreases |piece|
  {
    if |piece| == 0 {
      assert piece + rest == rest;
    } else {
      assert (piece + rest)[1..] == piece[1..] + rest;
      WellFormedAppend(NextScan(s, piece[0]), piece[1..], rest);
    }
  }

  lemma {:induction false} JoinWellFormed(arguments: seq<string>)
    requires AllWellFormed(arguments)
    ensures WellFormed(START, Join(arguments), true)
  {
    if |arguments| == 1 {
      WellFormedAppend(START, arguments[0], "");
      assert arguments[0] + "" == arguments[0];
    } else if |arguments| > 1 {
      JoinWellFormed(arguments[1..]);
      var rest := Join(arguments[1..]);
      assert ("," + rest)[1..] == rest;
      assert WellFormed(START, "," + rest, true);
      WellFormedAppend(START, arguments[0], "," + rest);
      assert arguments[0] + "," + rest == arguments[0] + ("," + rest);
    }
  }

  function Parens(stack: seq<char>): nat {
    if |stack| == 0 then 0
    else Parens(stack[..|stack| - 1]) + if stack[|stack| - 1] == '(' then 1 else 0
  }

  /** Over well-formed text the parenthesis counter follows the bracket stack and never closes the call. */
  lemma {:induction false} CloseBehind(text: string, index: nat, inner: string, s: Scan)
    requires index + |inner| <= |text| && text[index..index + |inner|] == inner
    requires WellFormed(s, inner, true)
    ensures CloseAt(text, index, 1 + Parens(s.stack), s.quote) == CloseAt(text, index + |inner|, 1, Code)
    decreases |inner|
  {
    if |inner| > 0 {
      var c, next := inner[0], NextScan(s, inner[0]);
      assert text[index] == text[index..index + |inner|][0];
      assert text[index + 1..index + |inner|] == inner[1..];
      CloseBehind(text, index + 1, inner[1..], next);
      if s.quote == Code && IsOpener(c) {
        assert next.stack[..|next.stack| - 1] == s.stack;
      }
    }
  }

  lemma OpensAt(text: string, i: nat)
    requires i < |text| && text[i] == '('
    ensures CloseAt(text, i, 0, Code) == CloseAt(text, i + 1, 1, Code)
  {
  }

  lemma ClosesAt(text: string, i: nat)
    requires i < |text| && text[i] == ')'
    ensures CloseAt(text, i, 1, Code) == Some(i)
  {
  }

  /** A rendered call is cut out exactly: the joined arguments, and the index behind its parenthesis. */
  lemma BalancedOfCall(text: string, before: string, arguments: seq<string>, after: string)
    requires AllWellFormed(arguments)
    requires text == before + "(" + Join(arguments) + ")" + after
    ensures CloseAt(text, |before|, 0, Code) == Some(|before| + 1 + |Join(arguments)|)
    ensures text[|before| + 1..|before| + 1 + |Join(arguments)|] == Join(arguments)
  {
    hide WellFormed, Join, CloseAt, AllWellFormed;
    JoinWellFormed(arguments);
    CallShape(before, Join(arguments), after);
    CallAt(text, |before|, Join(arguments));
  }

  lemma CallShape(before: string, inner: string, after: string)
    ensures var text, open := before + "(" + inner + ")" + after, |before|;
            && open + 1 + |inner| < |text| && text[open] == '(' && text[open + 1 + |inner|] == ')'
            && text[open + 1..open + 1 + |inner|] == inner
  {
  }

  lemma CallAt(text: string, open: nat, inner: string)
    requires open + 1 + |inner| < |text| && text[open] == '(' && text[open + 1 + |inner|] == ')'
    requires text[open + 1..open + 1 + |inner|] == inner && WellFormed(START, inner, true)
    ensures CloseAt(text, open, 0, Code) == Some(open + 1 + |inner|)
  {
    hide WellFormed, CloseAt;
    assert Parens(START.stack) == 0;
    OpensAt(text, open);
    CloseBehind(text, open + 1, inner, START);
    ClosesAt(text, open + 1 + |inner|);
  }

  lemma {:induction false} StripLeftSpec(s: string) returns (a: nat)
    ensures a <= |s| && StripLeft(s) == s[a..] && (a < |s| ==> !IsSpace(s[a]))
    ensures forall i :: 0 <= i < a ==> IsSpace(s[i])
  {
    a := 0;
    if |s| > 0 && IsSpace(s[0]) {
      var rest := StripLeftSpec(s[1..]);
      a := rest + 1;
      assert forall i :: 0 < i < a ==> s[i] == s[1..][i - 1];
    }
  }

  lemma {:induction false} StripRightSpec(s: string) returns (b: nat)
    ensures b <= |s| && StripRight(s) == s[..b] && (b > 0 ==> !IsSpace(s[b - 1]))
    ensures forall i :: b <= i < |s| ==> IsSpace(s[i])
  {
    b := |s|;
    if |s| > 0 && IsSpace(s[|s| - 1]) {
      b := StripRightSpec(s[..|s| - 1]);
      assert forall i :: b <= i < |s| - 1 ==> s[i] == s[..|s| - 1][i];
    }
  }

  /** `Strip` removes exactly the spaces at the two ends. */
  lemma StripSpec(s: string) returns (a: nat, b: nat)
    ensures a <= b <= |s| && Strip(s) == s[a..b]
    ensures forall i :: 0 <= i < a || b <= i < |s| ==> IsSpace(s[i])
    ensures a < b ==> !IsSpace(s[a]) && !IsSpace(s[b - 1])
  {
    hide IsSpace, StripLeft, StripRight;
    a := StripLeftSpec(s);
    var length := StripRightSpec(s[a..]);
    b := a + length;
    assert s[a..b] == s[a..][..length];
    assert forall i :: b <= i < |s| ==> s[i] == s[a..][i - a];
  }

  /** The arity of a rendered call is the number of its positional arguments, plus one for a trailing block
      of keyword arguments. */
  lemma ArityOfCall(positional: seq<string>, keywords: seq<string>, arity: nat)
    requires AllWellFormed(positional + keywords)
    requires positional + keywords != [] ==> Strip((positional + keywords)[|positional + keywords| - 1]) != ""
    requires AllKeywords(StripAll(keywords))
    requires positional != [] ==> !IsKeyword(Strip(positional[|positional| - 1]))
    requires CountsAs(SplitArguments(Join(positional + keywords)), arity)
    ensures arity == |positional| + if keywords == [] then 0 else 1
  {
    hide WellFormed, Join, Strip, IsKeyword, SplitArguments, CountsAs;
    var arguments, n := positional + keywords, |positional|;
    SplitOfJoin(arguments);
    StripAllParts(positional, keywords);
    CountOfParts(StripAll(positional), StripAll(keywords), arity);
  }

  lemma {:induction false} StripAllParts(a: seq<string>, b: seq<string>)
    ensures StripAll(a + b) == StripAll(a) + StripAll(b)
  {
    hide Strip, StripAll;
    forall i | 0 <= i < |a + b| ensures StripAll(a + b)[i] == (StripAll(a) + StripAll(b))[i] {
      assert (a + b)[i] == if i < |a| then a[i] else b[i - |a|];
    }
  }

  lemma CountOfParts(positional: seq<string>, keywords: seq<string>, arity: nat)
    requires AllKeywords(keywords) && CountsAs(positional + keywords, arity)
    requires positional != [] ==> !IsKeyword(positional[|positional| - 1])
    ensures arity == |positional| + if keywords == [] then 0 else 1
  {
    hide IsKeyword;
    var parts, n := positional + keywords, |positional|;
    forall m: nat | m != n + 1 ensures !BlockAt(parts, m) {
      OnlyBlock(positional, keywords, m);
    }
    if keywords == [] {
      assert parts == positional;
    } else {
      assert parts[|parts| - 1] == keywords[|keywords| - 1];
    }
  }

  lemma OnlyBlock(positional: seq<string>, keywords: seq<string>, m: nat)
    requires AllKeywords(keywords) && m != |positional| + 1
    requires positional != [] ==> !IsKeyword(positional[|positional| - 1])
    ensures !BlockAt(positional + keywords, m)
  {
    hide IsKeyword;
    var parts, n := positional + keywords, |positional|;
    if 0 < m <= n {
      assert parts[m - 1..][n - m] == positional[n - 1];
    } else if n < m <= |parts| {
      assert parts[m - 2] == keywords[m - 2 - n];
    }
  }
}
