/** The calls that the scanners cut, written out from a grammar: plain characters, quoted text with escapes, and
    groups in round, square and curly brackets. */
module ArgumentGrammar {
  import opened CallArguments
  import opened Wrappers

  datatype Letter = Letter(c: char) | Escaped(c: char)

  datatype Item =
    | Plain(c: char)
    | Text(quote: char, letters: seq<Letter>)
    | Round(inside: seq<Item>)
    | Square(inside: seq<Item>)
    | Curly(inside: seq<Item>)

  function RenderLetters(letters: seq<Letter>): string {
    if |letters| == 0 then "" else RenderLetter(letters[0]) + RenderLetters(letters[1..])
  }

  function RenderLetter(letter: Letter): string {
    match letter
    case Letter(c) => [c]
    case Escaped(c) => ['\\', c]
  }

  function Render(items: seq<Item>): string {
    if |items| == 0 then "" else RenderItem(items[0]) + Render(items[1..])
  }

  function RenderItem(item: Item): string {
    match item
    case Plain(c) => [c]
    case Text(quote, letters) => [quote] + RenderLetters(letters) + [quote]
    case Round(inside) => "(" + Render(inside) + ")"
    case Square(inside) => "[" + Render(inside) + "]"
    case Curly(inside) => "{" + Render(inside) + "}"
  }

  /** Unescaped, the text holds neither its quote nor a backslash. */
  predicate SoundLetters(quote: char, letters: seq<Letter>) {
    forall l :: l in letters && l.Letter? ==> l.c != quote && l.c != '\\'
  }

  /** Brackets and quotes only stand where the grammar puts them. */
  predicate Lawful(items: seq<Item>) {
    |items| > 0 ==> LawfulItem(items[0]) && Lawful(items[1..])
  }

  predicate LawfulItem(item: Item) {
    match item
    case Plain(c) => c !in {'"', '\'', '(', ')', '[', ']', '{', '}'}
    case Text(quote, letters) => quote in {'"', '\''} && SoundLetters(quote, letters)
    case Round(inside) => Lawful(inside)
    case Square(inside) => Lawful(inside)
    case Curly(inside) => Lawful(inside)
  }

  /** One argument: no comma outside quotes and brackets. */
  predicate Argument(items: seq<Item>) {
    Lawful(items) && Plain(',') !in items
  }

  // ----- What the grammar writes is well formed

  lemma ReadLetter(s: Scan, quote: char, letter: Letter, more: string, commas: bool)
    requires s.quote == Inside(quote, false) && SoundLetters(quote, [letter])
    ensures WellFormed(s, RenderLetter(letter) + more, commas) == WellFormed(s, more, commas)
  {
    hide WellFormed;
    assert [letter][0] == letter;
    match letter
    case Letter(c) =>
      assert NextScan(s, c) == s;
      StepWellFormed(s, c, more, commas);
    case Escaped(c) =>
      assert ['\\', c] + more == ['\\'] + ([c] + more);
      StepWellFormed(s, '\\', [c] + more, commas);
      assert NextScan(NextScan(s, '\\'), c) == s;
      StepWellFormed(NextScan(s, '\\'), c, more, commas);
  }

  lemma {:induction false} ReadLetters(stack: seq<char>, quote: char, letters: seq<Letter>, rest: string, commas: bool)
    requires quote in {'"', '\''} && SoundLetters(quote, letters)
    ensures WellFormed(Scan(stack, Inside(quote, false)), RenderLetters(letters) + ([quote] + rest), commas)
            == WellFormed(Scan(stack, Code), rest, commas)
  {
    hide WellFormed, RenderLetter;
    var s, ahead := Scan(stack, Inside(quote, false)), [quote] + rest;
    if |letters| == 0 {
      assert RenderLetters(letters) + ahead == ahead;
      StepWellFormed(s, quote, rest, commas);
    } else {
      assert letters[0] in letters && forall l :: l in letters[1..] ==> l in letters;
      ReadLetters(stack, quote, letters[1..], rest, commas);
      var more := RenderLetters(letters[1..]) + ahead;
      assert RenderLetters(letters) + ahead == RenderLetter(letters[0]) + more;
      ReadLetter(s, quote, letters[0], more, commas);
    }
  }

  lemma CutAt(s: string, n: nat)
    requires n <= |s|
    ensures s == s[..n] + s[n..]
  {
  }

  lemma CutFirst(s: string)
    requires |s| > 0
    ensures s == [s[0]] + s[1..]
  {
  }

  lemma StepWellFormed(s: Scan, c: char, more: string, commas: bool)
    ensures WellFormed(s, [c] + more, commas) <==>
              && (s.quote == Code && IsCloser(c) ==> Closes(s.stack, c)) && (IsSeparator(s, c) ==> commas)
              && WellFormed(NextScan(s, c), more, commas)
  {
    assert ([c] + more)[1..] == more;
  }

  lemma {:induction false} ReadGroup(stack: seq<char>, open: char, inside: seq<Item>, close: char, rest: string, commas: bool)
    requires (open, close) in {('(', ')'), ('[', ']'), ('{', '}')} && Lawful(inside)
    ensures WellFormed(Scan(stack, Code), [open] + Render(inside) + [close] + rest, commas)
            == WellFormed(Scan(stack, Code), rest, commas)
    decreases inside, 1
  {
    hide WellFormed;
    var within := Scan(stack + [open], Code);
    assert [open] + Render(inside) + [close] + rest == [open] + (Render(inside) + ([close] + rest));
    StepWellFormed(Scan(stack, Code), open, Render(inside) + ([close] + rest), commas);
    ReadItems(stack + [open], inside, [close] + rest, commas);
    StepWellFormed(within, close, rest, commas);
    assert within.stack[..|within.stack| - 1] == stack;
  }

  lemma {:induction false} ReadItem(stack: seq<char>, item: Item, more: string, commas: bool)
    requires LawfulItem(item) && (stack != [] || commas || item != Plain(','))
    ensures WellFormed(Scan(stack, Code), RenderItem(item) + more, commas) == WellFormed(Scan(stack, Code), more, commas)
    decreases item, 0
  {
    hide WellFormed, Lawful, Render;
    match item
    case Plain(c) =>
      StepWellFormed(Scan(stack, Code), c, more, commas);
    case Text(quote, letters) =>
      assert RenderItem(item) + more == [quote] + (RenderLetters(letters) + ([quote] + more));
      StepWellFormed(Scan(stack, Code), quote, RenderLetters(letters) + ([quote] + more), commas);
      ReadLetters(stack, quote, letters, more, commas);
    case Round(inside) => ReadGroup(stack, '(', inside, ')', more, commas);
    case Square(inside) => ReadGroup(stack, '[', inside, ']', more, commas);
    case Curly(inside) => ReadGroup(stack, '{', inside, '}', more, commas);
  }

  /** Reading what the grammar writes leaves the scanner as it was. */
  lemma {:induction false} ReadItems(stack: seq<char>, items: seq<Item>, rest: string, commas: bool)
    requires Lawful(items) && (stack != [] || commas || Plain(',') !in items)
    ensures WellFormed(Scan(stack, Code), Render(items) + rest, commas) == WellFormed(Scan(stack, Code), rest, commas)
    decreases items, 0
  {
    hide WellFormed, LawfulItem, RenderItem;
    if |items| == 0 {
      assert Render(items) + rest == rest;
    } else {
      var more := Render(items[1..]) + rest;
      assert Render(items) + rest == RenderItem(items[0]) + more;
      ReadItems(stack, items[1..], rest, commas);
      assert items[0] in items;
      ReadItem(stack, items[0], more, commas);
    }
  }

  // ----- What is well formed is written by the grammar

  lemma {:induction false} LettersOf(stack: seq<char>, quote: char, text: string, commas: bool)
    returns (letters: seq<Letter>, rest: string)
    requires quote != '\\' && WellFormed(Scan(stack, Inside(quote, false)), text, commas)
    ensures SoundLetters(quote, letters) && text == RenderLetters(letters) + [quote] + rest
    ensures WellFormed(Scan(stack, Code), rest, commas)
    decreases |text|
  {
    hide WellFormed, RenderLetter;
    var s := Scan(stack, Inside(quote, false));
    NotEnded(s, text, commas);
    CutFirst(text);
    if text[0] == quote {
      letters, rest := [], text[1..];
      StepWellFormed(s, quote, rest, commas);
    } else {
      var first, behind := LetterOf(s, quote, text, commas);
      var more: seq<Letter>;
      more, rest := LettersOf(stack, quote, behind, commas);
      letters := [first] + more;
      assert letters[1..] == more;
      assert RenderLetter(first) + (RenderLetters(more) + [quote] + rest) == RenderLetters(letters) + [quote] + rest;
    }
  }

  lemma LetterOf(s: Scan, quote: char, text: string, commas: bool) returns (first: Letter, behind: string)
    requires s.quote == Inside(quote, false) && WellFormed(s, text, commas) && |text| > 0 && text[0] != quote
    ensures SoundLetters(quote, [first]) && text == RenderLetter(first) + behind && |behind| < |text|
    ensures WellFormed(s, behind, commas)
  {
    hide WellFormed;
    var c, tail := text[0], text[1..];
    CutFirst(text);
    StepWellFormed(s, c, tail, commas);
    first, behind := Letter(c), tail;
    if c == '\\' {
      NotEnded(NextScan(s, c), tail, commas);
      first, behind := Escaped(tail[0]), tail[1..];
      CutFirst(tail);
      StepWellFormed(NextScan(s, c), tail[0], behind, commas);
    }
  }

  lemma NotEnded(s: Scan, text: string, commas: bool)
    requires WellFormed(s, text, commas) && s != START
    ensures |text| > 0
  {
  }

  /** The text up to the bracket that closes the innermost group, or to the end. */
  lemma {:induction false} ItemsOf(stack: seq<char>, text: string, commas: bool) returns (items: seq<Item>, rest: string)
    requires WellFormed(Scan(stack, Code), text, commas)
    ensures Lawful(items) && (stack == [] && !commas ==> Plain(',') !in items)
    ensures text == Render(items) + rest && WellFormed(Scan(stack, Code), rest, commas)
    ensures |stack| == 0 ==> rest == ""
    ensures |stack| > 0 ==> |rest| > 0 && Closes(stack, rest[0])
    decreases |text|
  {
    hide WellFormed;
    if |text| == 0 || IsCloser(text[0]) {
      items, rest := [], text;
      AtEnd(stack, text, commas);
    } else {
      var c := text[0];
      assert text == [c] + text[1..];
      StepWellFormed(Scan(stack, Code), c, text[1..], commas);
      var first: Item, behind: string;
      if IsOpener(c) {
        first, behind := GroupOf(stack, text, commas);
      } else if c in {'"', '\''} {
        var letters;
        letters, behind := LettersOf(stack, c, text[1..], commas);
        first := Text(c, letters);
        assert [c] + (RenderLetters(letters) + [c] + behind) == RenderItem(first) + behind;
      } else {
        first, behind := Plain(c), text[1..];
      }
      var more;
      more, rest := ItemsOf(stack, behind, commas);
      items := [first] + more;
      assert items[1..] == more && RenderItem(first) + (Render(more) + rest) == Render(items) + rest;
    }
  }

  lemma AtEnd(stack: seq<char>, text: string, commas: bool)
    requires WellFormed(Scan(stack, Code), text, commas) && (|text| == 0 || IsCloser(text[0]))
    ensures |stack| == 0 ==> text == ""
    ensures |stack| > 0 ==> |text| > 0 && Closes(stack, text[0])
  {
  }

  lemma {:induction false} GroupOf(stack: seq<char>, text: string, commas: bool) returns (group: Item, behind: string)
    requires |text| > 0 && IsOpener(text[0]) && WellFormed(Scan(stack, Code), text, commas)
    ensures LawfulItem(group) && !group.Plain? && text == RenderItem(group) + behind
    ensures WellFormed(Scan(stack, Code), behind, commas)
    decreases |text|, 0
  {
    hide WellFormed;
    var open := text[0];
    assert text == [open] + text[1..];
    StepWellFormed(Scan(stack, Code), open, text[1..], commas);
    var inside, rest := ItemsOf(stack + [open], text[1..], commas);
    var close := rest[0];
    behind := rest[1..];
    assert rest == [close] + behind;
    StepWellFormed(Scan(stack + [open], Code), close, behind, commas);
    assert (stack + [open])[..|stack|] == stack;
    group := if open == '(' then Round(inside) else if open == '[' then Square(inside) else Curly(inside);
    assert [open] + (Render(inside) + ([close] + behind)) == [open] + Render(inside) + [close] + behind;
  }

  /** A text is a well-formed argument if and only if the grammar writes it. */
  lemma WellFormedIff(text: string)
    ensures WellFormed(START, text, false) <==> exists items :: Argument(items) && Render(items) == text
  {
    hide WellFormed, Lawful;
    if WellFormed(START, text, false) {
      var items, rest := ItemsOf([], text, false);
      assert Render(items) + "" == Render(items);
    }
    if items :| Argument(items) && Render(items) == text {
      ReadItems([], items, "", false);
      assert Render(items) + "" == Render(items) && WellFormed(START, "", false) by { EndWellFormed(); }
    }
  }

  lemma EndWellFormed()
    ensures WellFormed(START, "", false)
  {
  }

  // ----- Lists of arguments

  /** The blank characters of Python's `str`. */
  predicate Blank(c: char) {
    c in {
      '\t', '\n', '\U{B}', '\U{C}', '\r', '\U{1C}', '\U{1D}', '\U{1E}', '\U{1F}', ' ', '\U{85}', '\U{A0}', '\U{1680}',
      '\U{2000}', '\U{2001}', '\U{2002}', '\U{2003}', '\U{2004}', '\U{2005}', '\U{2006}', '\U{2007}', '\U{2008}',
      '\U{2009}', '\U{200A}', '\U{2028}', '\U{2029}', '\U{202F}', '\U{205F}', '\U{3000}'
    }
  }

  predicate AllBlank(s: string) {
    forall i :: 0 <= i < |s| ==> Blank(s[i])
  }

  lemma BlankIff(c: char)
    ensures IsSpace(c) <==> Blank(c)
  {
  }

  /** An argument between blanks; it neither starts nor ends with one itself. */
  datatype Padded = Padded(before: string, items: seq<Item>, after: string)
  {
    function Core(): string {
      Render(items)
    }

    function Write(): string {
      before + Core() + after
    }

    predicate Sound() {
      && AllBlank(before) && AllBlank(after) && Argument(items)
      && (Core() != "" ==> !Blank(Core()[0]) && !Blank(Core()[|Core()| - 1]))
    }
  }

  predicate AllSound(arguments: seq<Padded>) {
    forall a :: a in arguments ==> a.Sound()
  }

  /** The arguments as they stand in a call. */
  function Listed(arguments: seq<Padded>): string {
    if |arguments| == 0 then ""
    else if |arguments| == 1 then arguments[0].Write()
    else arguments[0].Write() + "," + Listed(arguments[1..])
  }

  function Cores(arguments: seq<Padded>): (r: seq<string>)
    ensures |r| == |arguments|
  {
    if |arguments| == 0 then [] else [arguments[0].Core()] + Cores(arguments[1..])
  }

  function Written(arguments: seq<Padded>): (r: seq<string>)
    ensures |r| == |arguments|
  {
    if |arguments| == 0 then [] else [arguments[0].Write()] + Written(arguments[1..])
  }

  lemma {:induction false} BlanksWellFormed(blanks: string, rest: string)
    requires AllBlank(blanks)
    ensures WellFormed(START, blanks + rest, false) == WellFormed(START, rest, false)
  {
    hide WellFormed;
    if |blanks| == 0 {
      assert blanks + rest == rest;
    } else {
      assert Blank(blanks[0]);
      assert blanks + rest == [blanks[0]] + (blanks[1..] + rest);
      StepWellFormed(START, blanks[0], blanks[1..] + rest, false);
      BlanksWellFormed(blanks[1..], rest);
    }
  }

  lemma WriteWellFormed(a: Padded)
    requires a.Sound()
    ensures WellFormed(START, a.Write(), false)
  {
    hide WellFormed, Lawful, Render;
    assert a.Write() == a.before + (a.Core() + a.after) && a.after + "" == a.after;
    BlanksWellFormed(a.before, a.Core() + a.after);
    ReadItems([], a.items, a.after, false);
    BlanksWellFormed(a.after, "");
    EndWellFormed();
  }

  /** Stripping takes the blanks around an argument away, and nothing else. */
  lemma StripPadded(a: Padded)
    requires a.Sound()
    ensures Strip(a.Write()) == a.Core()
  {
    hide Render, Lawful, Blank, IsSpace, Strip, AllBlank;
    var i, j := StripSpec(a.Write());
    forall c ensures IsSpace(c) <==> Blank(c) {
      BlankIff(c);
    }
    TrimPadded(a.before, a.Core(), a.after, a.Write(), i, j);
  }

  lemma TrimPadded(before: string, core: string, after: string, s: string, i: nat, j: nat)
    requires AllBlank(before) && AllBlank(after) && s == before + core + after
    requires core != "" ==> !Blank(core[0]) && !Blank(core[|core| - 1])
    requires i <= j <= |s| && (i < j ==> !Blank(s[i]) && !Blank(s[j - 1]))
    requires forall k :: 0 <= k < i || j <= k < |s| ==> Blank(s[k])
    ensures s[i..j] == core
  {
    hide Blank;
    var n := |before|;
    assert forall k :: 0 <= k < n ==> s[k] == before[k];
    assert forall k :: n + |core| <= k < |s| ==> s[k] == after[k - n - |core|];
    assert s[n..n + |core|] == core;
    if core != "" {
      assert s[n] == core[0] && s[n + |core| - 1] == core[|core| - 1];
      PaddedEnds(s, n, n + |core|, i, j);
    }
  }

  lemma PaddedEnds(s: string, from: nat, to: nat, i: nat, j: nat)
    requires from < to <= |s| && i <= j <= |s| && !Blank(s[from]) && !Blank(s[to - 1])
    requires forall k :: 0 <= k < from || to <= k < |s| ==> Blank(s[k])
    requires forall k :: 0 <= k < i || j <= k < |s| ==> Blank(s[k])
    requires i < j ==> !Blank(s[i]) && !Blank(s[j - 1])
    ensures i == from && j == to
  {
    hide Blank;
  }

  lemma {:induction false} ListedWritten(arguments: seq<Padded>)
    requires AllSound(arguments)
    ensures Listed(arguments) == Join(Written(arguments)) && AllWellFormed(Written(arguments))
    ensures StripAll(Written(arguments)) == Cores(arguments)
  {
    hide WellFormed, Strip, Padded.Sound, Padded.Write, Padded.Core;
    if |arguments| > 0 {
      assert arguments[0] in arguments;
      ListedWritten(arguments[1..]);
      WriteWellFormed(arguments[0]);
      StripPadded(arguments[0]);
      var rest := Written(arguments[1..]);
      assert Written(arguments)[1..] == rest;
      forall i | 0 <= i < |Written(arguments)| ensures WellFormed(START, Written(arguments)[i], false) {
        assert i > 0 ==> Written(arguments)[i] == rest[i - 1];
      }
    }
  }

  lemma {:induction false} PartsOf(arguments: seq<Padded>, k: nat)
    requires k < |arguments|
    ensures Written(arguments)[k] == arguments[k].Write() && Cores(arguments)[k] == arguments[k].Core()
    ensures Written(arguments)[..k] == Written(arguments[..k]) && Cores(arguments)[..k] == Cores(arguments[..k])
  {
    hide Padded.Write, Padded.Core;
    if k > 0 {
      PartsOf(arguments[1..], k - 1);
      assert arguments[1..][..k - 1] == arguments[..k][1..];
    }
  }

  /** The list splits into its arguments, without the blanks around them; an empty last one is dropped. */
  lemma SplitOfListed(arguments: seq<Padded>)
    requires AllSound(arguments)
    ensures arguments != [] && arguments[|arguments| - 1].Core() == "" ==>
              SplitArguments(Listed(arguments)) == Cores(arguments[..|arguments| - 1])
    ensures arguments == [] || arguments[|arguments| - 1].Core() != "" ==>
              SplitArguments(Listed(arguments)) == Cores(arguments)
  {
    hide *;
    if arguments == [] {
      EmptyCall();
      assert Listed(arguments) == Join([]) && Cores(arguments) == [] by { NoneListed(); }
    } else {
      var k := |arguments| - 1;
      ListedWritten(arguments);
      SplitOfJoin(Written(arguments));
      LastListed(arguments, k);
    }
  }

  lemma NoneListed()
    ensures Listed([]) == Join([]) && Cores([]) == []
  {
  }

  lemma LastListed(arguments: seq<Padded>, k: nat)
    requires AllSound(arguments) && k + 1 == |arguments| && StripAll(Written(arguments)) == Cores(arguments)
    ensures Strip(Written(arguments)[k]) == arguments[k].Core()
    ensures StripAll(Written(arguments)[..k]) == Cores(arguments[..k])
  {
    hide Strip, StripAll, Written, Cores, Padded.Sound, Padded.Write, Padded.Core;
    assert arguments[k] in arguments;
    PartsOf(arguments, k);
    StripPadded(arguments[k]);
    AllButLast(Written(arguments));
    StripAllAppend(Written(arguments)[..k], Written(arguments)[k]);
    assert StripAll(Written(arguments))[..k] == StripAll(Written(arguments)[..k]);
  }

  /** The text between the parentheses of a call is found, whatever stands around the call. */
  lemma BalancedOfListed(text: string, before: string, arguments: seq<Padded>, after: string)
    requires AllSound(arguments)
    requires text == before + "(" + Listed(arguments) + ")" + after
    ensures CloseAt(text, |before|, 0, Code) == Some(|before| + 1 + |Listed(arguments)|)
  {
    hide WellFormed, Padded.Sound, Listed, Written, Join, CloseAt;
    ListedWritten(arguments);
    BalancedOfCall(text, before, Written(arguments), after);
  }

  // ----- Keyword arguments

  datatype Key = Key(first: char, tail: string, mark: string, gap: string)
  {
    /** A small letter or an underscore, then letters, digits and underscores, at most one mark, blanks. */
    predicate Sound() {
      && ('a' <= first <= 'z' || first == '_')
      && (forall c :: c in tail ==> 'a' <= c <= 'z' || 'A' <= c <= 'Z' || '0' <= c <= '9' || c == '_')
      && mark in {"", "!", "?"} && AllBlank(gap)
    }

    function Write(): string {
      [first] + tail + mark + gap + ":"
    }
  }

  ghost predicate Keyed(piece: string) {
    exists key: Key, value :: key.Sound() && piece == key.Write() + value
  }

  lemma {:induction false} SkipSpec(s: string) returns (n: nat)
    ensures n <= |s| && SkipKeyChars(s) == s[n..] && (n < |s| ==> !IsKeyChar(s[n]))
    ensures forall i :: 0 <= i < n ==> IsKeyChar(s[i])
  {
    n := 0;
    if |s| > 0 && IsKeyChar(s[0]) {
      var rest := SkipSpec(s[1..]);
      n := rest + 1;
      assert forall i :: 0 < i < n ==> s[i] == s[1..][i - 1];
    }
  }

  lemma {:induction false} SkipTail(tail: string, rest: string)
    requires forall c :: c in tail ==> IsKeyChar(c)
    requires |rest| > 0 && !IsKeyChar(rest[0])
    ensures SkipKeyChars(tail + rest) == rest
  {
    if |tail| == 0 {
      assert tail + rest == rest;
    } else {
      assert tail[0] in tail && (tail + rest)[1..] == tail[1..] + rest;
      SkipTail(tail[1..], rest);
    }
  }

  lemma {:induction false} StripGap(gap: string, rest: string)
    requires AllBlank(gap) && |rest| > 0 && !Blank(rest[0])
    ensures StripLeft(gap + rest) == rest
  {
    hide Blank, IsSpace;
    if |gap| == 0 {
      assert gap + rest == rest;
      BlankIff(rest[0]);
    } else {
      assert (gap + rest)[1..] == gap[1..] + rest;
      BlankIff(gap[0]);
      StripGap(gap[1..], rest);
    }
  }

  lemma KeyIsRead(key: Key, value: string)
    requires key.Sound()
    ensures IsKeyword(key.Write() + value)
  {
    hide StripLeft, SkipKeyChars, AllBlank;
    var piece, colon := key.Write() + value, ":" + value;
    var behind := key.mark + (key.gap + colon);
    assert piece[1..] == key.tail + behind;
    assert |behind| > 0 && !IsKeyChar(behind[0]) && (key.mark == "" ==> behind[0] !in {'!', '?'}) by {
      FirstBehind(key.gap, colon);
    }
    SkipTail(key.tail, behind);
    assert key.mark != "" ==> behind[1..] == key.gap + colon;
    assert key.mark == "" ==> behind == key.gap + colon;
    StripGap(key.gap, colon);
  }

  lemma FirstBehind(gap: string, colon: string)
    requires AllBlank(gap) && |colon| > 0 && colon[0] == ':'
    ensures !IsKeyChar((gap + colon)[0]) && (gap + colon)[0] !in {'!', '?'}
  {
    if |gap| > 0 {
      assert Blank(gap[0]);
    }
  }

  lemma KeyOf(piece: string) returns (key: Key, value: string)
    requires IsKeyword(piece)
    ensures key.Sound() && piece == key.Write() + value
  {
    hide *;
    var tail, mark, gap;
    tail, mark, gap, value := KeyParts(piece);
    key := Key(piece[0], tail, mark, gap);
    KeySound(key);
    KeySpelled(key, value);
  }

  lemma KeySound(key: Key)
    requires IsKeyStart(key.first) && (forall c :: c in key.tail ==> IsKeyChar(c))
    requires key.mark in {"", "!", "?"} && AllBlank(key.gap)
    ensures key.Sound()
  {
    hide AllBlank;
  }

  lemma KeyParts(piece: string) returns (tail: string, mark: string, gap: string, value: string)
    requires IsKeyword(piece)
    ensures |piece| > 0 && IsKeyStart(piece[0]) && forall c :: c in tail ==> IsKeyChar(c)
    ensures mark in {"", "!", "?"} && AllBlank(gap)
    ensures piece == [piece[0]] + (tail + (mark + (gap + (":" + value))))
  {
    hide *;
    var marked;
    tail, mark, marked := KeyHead(piece);
    gap, value := KeyGap(marked);
  }

  lemma KeyHead(piece: string) returns (tail: string, mark: string, marked: string)
    requires IsKeyword(piece)
    ensures |piece| > 0 && IsKeyStart(piece[0]) && forall c :: c in tail ==> IsKeyChar(c)
    ensures mark in {"", "!", "?"} && piece == [piece[0]] + (tail + (mark + marked))
    ensures |StripLeft(marked)| > 0 && StripLeft(marked)[0] == ':'
  {
    hide StripLeft, SkipKeyChars, IsKeyChar;
    var n := SkipSpec(piece[1..]);
    var rest := SkipKeyChars(piece[1..]);
    tail, mark, marked := piece[1..][..n], "", rest;
    if |rest| > 0 && rest[0] in {'!', '?'} {
      mark, marked := [rest[0]], rest[1..];
      CutAt(rest, 1);
    }
    CutAt(piece, 1);
    CutAt(piece[1..], n);
    assert rest == mark + marked;
  }

  lemma KeyGap(marked: string) returns (gap: string, value: string)
    requires |StripLeft(marked)| > 0 && StripLeft(marked)[0] == ':'
    ensures AllBlank(gap) && marked == gap + (":" + value)
  {
    hide StripLeft, Blank, IsSpace, AllBlank;
    var a := StripLeftSpec(marked);
    gap, value := marked[..a], StripLeft(marked)[1..];
    GapBlank(marked, a);
    CutAt(marked, a);
    CutAt(StripLeft(marked), 1);
  }

  lemma GapBlank(s: string, a: nat)
    requires a <= |s| && forall i :: 0 <= i < a ==> IsSpace(s[i])
    ensures AllBlank(s[..a])
  {
    hide Blank, IsSpace;
    forall i | 0 <= i < a ensures Blank(s[..a][i]) {
      BlankIff(s[i]);
    }
  }

  lemma KeySpelled(key: Key, value: string)
    ensures [key.first] + (key.tail + (key.mark + (key.gap + (":" + value)))) == key.Write() + value
  {
    var colon := ":" + value;
    assert key.gap + colon == key.gap + ":" + value;
    assert key.mark + (key.gap + colon) == key.mark + key.gap + ":" + value;
    assert key.tail + (key.mark + (key.gap + colon)) == key.tail + key.mark + key.gap + ":" + value;
  }

  /** A piece is a keyword argument if and only if it starts with a key, rendered from its parts. */
  lemma KeywordIff(piece: string)
    ensures IsKeyword(piece) <==> Keyed(piece)
  {
    hide IsKeyword, Key.Write, Key.Sound;
    if IsKeyword(piece) {
      var key, value := KeyOf(piece);
    }
    if key: Key, value :| key.Sound() && piece == key.Write() + value {
      KeyIsRead(key, value);
    }
  }

  /** The arity of a call: one for each positional argument, and one for all keyword arguments together. */
  lemma ArityOfListed(positional: seq<Padded>, keywords: seq<Padded>, arity: nat)
    requires AllSound(positional + keywords)
    requires positional + keywords != [] ==> (positional + keywords)[|positional + keywords| - 1].Core() != ""
    requires forall a :: a in keywords ==> Keyed(a.Core())
    requires positional != [] ==> !Keyed(positional[|positional| - 1].Core())
    requires CountsAs(SplitArguments(Listed(positional + keywords)), arity)
    ensures arity == |positional| + if keywords == [] then 0 else 1
  {
    hide IsKeyword, Keyed, SplitArguments, Listed, Padded.Sound, Padded.Core, CountsAs;
    SplitOfListed(positional + keywords);
    CoresAppend(positional, keywords);
    forall i | 0 <= i < |keywords| ensures IsKeyword(Cores(keywords)[i]) {
      assert keywords[i] in keywords;
      PartsOf(keywords, i);
      KeywordIff(keywords[i].Core());
    }
    if positional != [] {
      PartsOf(positional, |positional| - 1);
      KeywordIff(positional[|positional| - 1].Core());
    }
    CountOfParts(Cores(positional), Cores(keywords), arity);
  }

  lemma {:induction false} CoresAppend(a: seq<Padded>, b: seq<Padded>)
    ensures Cores(a + b) == Cores(a) + Cores(b)
  {
    hide Padded.Core;
    if |a| == 0 {
      assert a + b == b;
    } else {
      assert (a + b)[1..] == a[1..] + b;
      CoresAppend(a[1..], b);
    }
  }
}
