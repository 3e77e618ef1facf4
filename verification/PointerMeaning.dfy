/** Which texts are pointers: exactly the paths of textual keys and indices, spelled out; and what the reference
    checker asks of one cell in these terms. */
module PointerMeaning {
  import opened JsonPointer
  import opened References
  import opened Wrappers

  // ----- Spelling

  /** A key with its tildes and slashes escaped. */
  function Spelled(key: string): string {
    if |key| == 0 then ""
    else (match key[0] case '~' => "~0" case '/' => "~1" case c => [c]) + Spelled(key[1..])
  }

  /** A number in decimal digits. */
  function Numeral(n: nat): string {
    (if n < 10 then "" else Numeral(n / 10)) + ["0123456789"[n % 10]]
  }

  function HopText(hop: Hop): string
    requires TextualHop(hop)
  {
    match hop
    case Under(key) => Spelled(key.name)
    case Index(n) => Numeral(n)
  }

  /** Every step of the path behind a slash. */
  function PathText(path: seq<Hop>): string
    requires Textual(path)
  {
    if |path| == 0 then "" else "/" + HopText(path[0]) + PathText(path[1..])
  }

  lemma {:induction false} SpelledIs(key: string)
    ensures Spelled(key) == Encode(key)
  {
    if |key| > 0 {
      SpelledIs(key[1..]);
    }
  }

  lemma DigitIs(d: nat)
    requires d < 10
    ensures "0123456789"[d] == '0' + d as char
  {
    assert "0123456789"[0] == '0' && "0123456789"[1] == '1' && "0123456789"[2] == '2' && "0123456789"[3] == '3'
           && "0123456789"[4] == '4' && "0123456789"[5] == '5' && "0123456789"[6] == '6' && "0123456789"[7] == '7'
           && "0123456789"[8] == '8' && "0123456789"[9] == '9';
  }

  lemma {:induction false} NumeralIs(n: nat)
    ensures Numeral(n) == Decimal(n)
  {
    DigitIs(n % 10);
    if n >= 10 {
      NumeralIs(n / 10);
    }
  }

  lemma {:induction false} PathTextIs(path: seq<Hop>)
    requires Textual(path)
    ensures PathText(path) == PointerTo(path)
  {
    if |path| > 0 {
      PathTextIs(path[1..]);
      HopTextIs(path[0]);
      PointerStep(path);
      hide Segments, HopText, HopSegment, PointerTo;
    }
  }

  lemma PointerStep(path: seq<Hop>)
    requires Textual(path) && |path| > 0
    ensures PointerTo(path) == "/" + HopSegment(path[0]) + PointerTo(path[1..])
  {
    SegmentsSafe(path[1..]);
    var first, rest := HopSegment(path[0]), Segments(path[1..]);
    JoinStep(first, rest);
    hide HopSegment, Join;
  }

  lemma JoinStep(first: string, rest: seq<string>)
    ensures "/" + Join([first] + rest) == "/" + first + (if |rest| == 0 then "" else "/" + Join(rest))
  {
    var all := [first] + rest;
    if |rest| == 0 {
      assert all == [first] && "/" + first + "" == "/" + first;
    } else {
      assert all[0] == first && all[1..] == rest;
      SlashesJoin(first, Join(rest));
    }
  }

  lemma SlashesJoin(first: string, rest: string)
    ensures "/" + (first + "/" + rest) == "/" + first + ("/" + rest)
  {
  }

  lemma HopTextIs(hop: Hop)
    requires TextualHop(hop)
    ensures HopText(hop) == HopSegment(hop)
  {
    match hop
    case Under(key) => SpelledIs(key.name);
    case Index(n) => NumeralIs(n);
  }

  // ----- A text that resolves is spelled

  lemma {:induction false} DecodeEncode(segment: string)
    requires EscapesValid(segment) && '/' !in segment
    ensures Encode(DecodeOnce(segment)) == segment
    decreases |segment|
  {
    if |segment| > 0 {
      assert segment[0] in segment;
      if segment[0] == '~' {
        EscapesTail(segment, 2);
        DecodeEncode(segment[2..]);
        assert segment == segment[..2] + segment[2..];
        var rest := DecodeOnce(segment[2..]);
        if segment[1] == '0' {
          assert ("~" + rest)[1..] == rest && segment[..2] == "~0";
        } else {
          assert ("/" + rest)[1..] == rest && segment[..2] == "~1";
        }
      } else {
        EscapesTail(segment, 1);
        DecodeEncode(segment[1..]);
        assert segment == [segment[0]] + segment[1..];
        var rest := DecodeOnce(segment[1..]);
        assert ([segment[0]] + rest)[1..] == rest;
      }
    }
  }

  lemma {:induction false} PlainEncode(segment: string)
    requires forall i :: 0 <= i < |segment| ==> IsDigit(segment[i])
    ensures Encode(segment) == segment
  {
    if |segment| > 0 {
      PlainEncode(segment[1..]);
      assert segment == [segment[0]] + segment[1..];
    }
  }

  lemma {:induction false} DecimalOfNumber(segment: string)
    requires IsIndex(segment)
    ensures Decimal(ToNumber(segment)) == segment
    ensures segment[0] != '0' ==> ToNumber(segment) > 0
  {
    var n := |segment| - 1;
    var digit := segment[n] as int - '0' as int;
    assert IsDigit(segment[n]);
    NumberStep(segment);
    hide ToNumber, Decimal;
    assert segment == segment[..n] + [segment[n]] && '0' + digit as char == segment[n];
    if n == 0 {
      NoNumber(segment[..0]);
      OneDigit(digit);
    } else {
      DecimalOfNumber(segment[..n]);
      DecimalStep(ToNumber(segment[..n]), digit);
    }
  }

  lemma NumberStep(segment: string)
    requires |segment| > 0 && forall i :: 0 <= i < |segment| ==> IsDigit(segment[i])
    ensures ToNumber(segment) == 10 * ToNumber(segment[..|segment| - 1]) + (segment[|segment| - 1] as int - '0' as int)
  {
  }

  lemma NoNumber(segment: string)
    requires |segment| == 0
    ensures ToNumber(segment) == 0
  {
  }

  lemma OneDigit(digit: nat)
    requires digit < 10
    ensures Decimal(digit) == ['0' + digit as char]
  {
  }

  lemma DecimalStep(front: nat, digit: nat)
    requires front > 0 && digit < 10
    ensures Decimal(10 * front + digit) == Decimal(front) + ['0' + digit as char]
  {
    var n := 10 * front + digit;
    assert n / 10 == front && n % 10 == digit;
  }

  lemma {:induction false} SplitIs(text: string)
    ensures Join(Split(text)) == text
    ensures forall i :: 0 <= i < |Split(text)| ==> '/' !in Split(text)[i]
  {
    if |text| > 0 {
      var rest := Split(text[1..]);
      SplitIs(text[1..]);
      assert text == [text[0]] + text[1..];
      if text[0] == '/' {
        assert ([""] + rest)[1..] == rest;
      } else {
        var all := [[text[0]] + rest[0]] + rest[1..];
        assert all[1..] == rest[1..];
        assert |rest| > 1 ==> [text[0]] + rest[0] + "/" + Join(rest[1..]) == [text[0]] + (rest[0] + "/" + Join(rest[1..]));
      }
    }
  }

  /** The step that one segment takes, as a hop that is spelled like it. */
  lemma HopOf(store: Store, target: Value, segment: string) returns (hop: Hop)
    requires EscapesValid(segment) && '/' !in segment && Step(store, target, Decode(segment)).Some?
    ensures TextualHop(hop) && HopSegment(hop) == segment
    ensures Follow(store, target, [hop]) == Step(store, target, Decode(segment))
  {
    var decoded := Decode(segment);
    DecodeIsOnePass(segment);
    DecodeEncode(segment);
    if store[target.id].Dict? {
      hop := Under(Name(decoded));
    } else {
      PlainEncode(decoded);
      DecimalOfNumber(decoded);
      hop := Index(ToNumber(decoded));
    }
  }

  lemma {:induction false} WalkIsSpelled(store: Store, target: Value, encoded: seq<string>) returns (path: seq<Hop>)
    requires WalkAlong(store, target, encoded).Some? && forall i :: 0 <= i < |encoded| ==> '/' !in encoded[i]
    ensures Textual(path) && Segments(path) == encoded && Follow(store, target, path) == WalkAlong(store, target, encoded)
    decreases |encoded|
  {
    path := [];
    if |encoded| > 0 {
      var hop := HopOf(store, target, encoded[0]);
      var rest := WalkIsSpelled(store, Step(store, target, Decode(encoded[0])).value, encoded[1..]);
      path := [hop] + rest;
      assert path[1..] == rest;
    }
  }

  /** A pointer resolves to a value if and only if it is the text of a path that leads there. */
  lemma PointerIff(store: Store, root: Value, pointer: string, v: Value)
    ensures Resolve(store, root, pointer) == Some(v) <==>
              exists path :: Textual(path) && PathText(path) == pointer && Follow(store, root, path) == Some(v)
  {
    if Resolve(store, root, pointer) == Some(v) {
      var path: seq<Hop> := [];
      if pointer != "" {
        SplitIs(pointer[1..]);
        path := WalkIsSpelled(store, root, Split(pointer[1..]));
        assert pointer == "/" + pointer[1..];
      }
      PathTextIs(path);
      assert Textual(path) && PathText(path) == pointer && Follow(store, root, path) == Some(v);
    }
    if path :| Textual(path) && PathText(path) == pointer && Follow(store, root, path) == Some(v) {
      PathTextIs(path);
      PointerResolves(store, root, path);
    }
  }

  // ----- One cell

  /** A local reference leads somewhere along a path of the document itself; any other one names a file, up to its
      first hash. */
  ghost predicate Leads(env: Surroundings, store: Store, root: Value, ref: string) {
    if "#" <= ref then
      exists path :: Textual(path) && env.unquote(ref[1..]) == Some(PathText(path)) && Follow(store, root, path).Some?
    else
      exists file :: file <= ref && '#' !in file && (file == ref || ref[|file|] == '#') && env.isFile(file)
  }

  lemma {:induction false} BeforeHashIs(ref: string, file: string)
    ensures file == BeforeHash(ref) <==> file <= ref && '#' !in file && (file == ref || ref[|file|] == '#')
  {
    if |ref| > 0 && ref[0] != '#' {
      if |file| > 0 {
        BeforeHashIs(ref[1..], file[1..]);
        assert file == [file[0]] + file[1..];
        assert file[0] in file && forall c :: c in file <==> c == file[0] || c in file[1..];
        assert file <= ref <==> file[0] == ref[0] && file[1..] <= ref[1..];
      }
    } else if |file| > 0 && file <= ref {
      assert file[0] in file;
    }
  }

  /** A cell is in order if and only if its reference, where it has one, leads somewhere. */
  lemma CellResolvesIff(env: Surroundings, store: Store, root: Value, cell: Cell)
    ensures CellResolves(env, store, root, cell) <==>
              forall ref :: cell.Dict? && Name("$ref") in cell.fields && cell.fields[Name("$ref")] == Text(ref) ==>
                Leads(env, store, root, ref)
  {
    if cell.Dict? && Name("$ref") in cell.fields && cell.fields[Name("$ref")].Text? {
      LeadsIff(env, store, root, cell.fields[Name("$ref")].s);
    }
    hide ReferenceResolves, Leads;
  }

  lemma LeadsIff(env: Surroundings, store: Store, root: Value, ref: string)
    ensures ReferenceResolves(env, store, root, ref) <==> Leads(env, store, root, ref)
  {
    hide Resolve, PathText, Follow;
    if "#" <= ref {
      assert ref[0] == '#';
      var pointer := env.unquote(ref[1..]);
      if pointer.Some? {
        forall v ensures Resolve(store, root, pointer.value) == Some(v) <==>
                exists path :: Textual(path) && PathText(path) == pointer.value && Follow(store, root, path) == Some(v)
        {
          PointerIff(store, root, pointer.value, v);
        }
        if Resolve(store, root, pointer.value).Some? {
          var v := Resolve(store, root, pointer.value).value;
          var path :| Textual(path) && PathText(path) == pointer.value && Follow(store, root, path) == Some(v);
        }
        if path :| Textual(path) && PathText(path) == pointer.value && Follow(store, root, path).Some? {
          assert Resolve(store, root, pointer.value) == Some(Follow(store, root, path).value);
        }
      }
    } else {
      assert ref == "" || ref[0] != '#' by {
        assert |ref| > 0 && ref[0] == '#' ==> "#" <= ref;
      }
      BeforeHashIs(ref, BeforeHash(ref));
      forall file ensures file == BeforeHash(ref) <==> file <= ref && '#' !in file && (file == ref || ref[|file|] == '#') {
        BeforeHashIs(ref, file);
      }
    }
  }
}
