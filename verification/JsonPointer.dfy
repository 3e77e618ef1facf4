/** JSON Pointer decoding as the reference checker does it, against sections 3 and 4 of RFC 6901. */
module JsonPointer {

  /** Every `~` is followed by `0` or `1`. */
  predicate EscapesValid(segment: string) {
    forall i :: 0 <= i < |segment| && segment[i] == '~' ==> i + 1 < |segment| && segment[i + 1] in {'0', '1'}
  }

  /** `segment.replace(token, replacement)` for a token of the two characters `~` and `digit`. */
  function Replace(segment: string, digit: char, replacement: char): string {
    if |segment| == 0 then ""
    else if |segment| > 1 && segment[0] == '~' && segment[1] == digit
    then [replacement] + Replace(segment[2..], digit, replacement)
    else [segment[0]] + Replace(segment[1..], digit, replacement)
  }

  /** `encoded_segment.replace("~1", "/").replace("~0", "~")` */
  function Decode(segment: string): string {
    Replace(Replace(segment, '1', '/'), '0', '~')
  }

  /** The escapes of section 4 of RFC 6901, read once from left to right. */
  function DecodeOnce(segment: string): string {
    if |segment| == 0 then ""
    else if |segment| > 1 && segment[0] == '~' && segment[1] == '0' then "~" + DecodeOnce(segment[2..])
    else if |segment| > 1 && segment[0] == '~' && segment[1] == '1' then "/" + DecodeOnce(segment[2..])
    else [segment[0]] + DecodeOnce(segment[1..])
  }

  /** Section 3 of RFC 6901: `~` and `/` of a key are escaped. */
  function Encode(key: string): string {
    if |key| == 0 then ""
    else (if key[0] == '~' then "~0" else if key[0] == '/' then "~1" else [key[0]]) + Encode(key[1..])
  }

  lemma EscapesTail(segment: string, n: nat)
    requires EscapesValid(segment) && n <= |segment|
    ensures EscapesValid(segment[n..])
  {
  }

  /** On a segment with valid escapes the two replacements give what one pass gives. */
  lemma {:induction false} DecodeIsOnePass(segment: string)
    requires EscapesValid(segment)
    ensures Decode(segment) == DecodeOnce(segment)
    decreases |segment|
  {
    if |segment| > 0 {
      if segment[0] == '~' {
        EscapesTail(segment, 2);
        DecodeIsOnePass(segment[2..]);
        var rest := Replace(segment[2..], '1', '/');
        if segment[1] == '0' {
          assert segment[1..][1..] == segment[2..];
          assert Replace(segment, '1', '/') == ['~'] + (['0'] + rest);
          assert (['~'] + (['0'] + rest))[2..] == rest;
        } else {
          assert Replace(segment, '1', '/') == ['/'] + rest;
        }
      } else {
        EscapesTail(segment, 1);
        DecodeIsOnePass(segment[1..]);
      }
    }
  }

  lemma {:induction false} EncodedSafe(key: string)
    ensures EscapesValid(Encode(key)) && '/' !in Encode(key)
  {
    if |key| > 0 {
      EncodedSafe(key[1..]);
      var head := if key[0] == '~' then "~0" else if key[0] == '/' then "~1" else [key[0]];
      var rest := Encode(key[1..]);
      forall i | 0 <= i < |head + rest| && (head + rest)[i] == '~'
        ensures i + 1 < |head + rest| && (head + rest)[i + 1] in {'0', '1'}
      {
        if i >= |head| {
          assert rest[i - |head|] == '~';
        }
      }
    }
  }

  /** Encoding any key and decoding it returns the key. */
  lemma {:induction false} EncodeDecode(key: string)
    ensures Decode(Encode(key)) == key
  {
    EncodedSafe(key);
    DecodeIsOnePass(Encode(key));
    DecodeOnceEncode(key);
  }

  lemma {:induction false} DecodeOnceEncode(key: string)
    ensures DecodeOnce(Encode(key)) == key
  {
    if |key| > 0 {
      DecodeOnceEncode(key[1..]);
      var rest := Encode(key[1..]);
      if key[0] == '~' {
        assert ("~0" + rest)[2..] == rest;
      } else if key[0] == '/' {
        assert ("~1" + rest)[2..] == rest;
      } else {
        assert ([key[0]] + rest)[1..] == rest;
      }
      assert key == [key[0]] + key[1..];
    }
  }

  // ----- Array indices

  predicate IsDigit(c: char) { '0' <= c <= '9' }

  /** An ASCII decimal number without superfluous leading zeros. */
  predicate IsIndex(segment: string) {
    && |segment| > 0
    && (forall i :: 0 <= i < |segment| ==> IsDigit(segment[i]))
    && (|segment| > 1 ==> segment[0] != '0')
  }

  /** `int(segment)` */
  function ToNumber(segment: string): nat
    requires forall i :: 0 <= i < |segment| ==> IsDigit(segment[i])
  {
    if |segment| == 0 then 0
    else
      assert IsDigit(segment[|segment| - 1]);
      10 * ToNumber(segment[..|segment| - 1]) + (segment[|segment| - 1] as int - '0' as int)
  }

  function Decimal(n: nat): string {
    if n < 10 then ['0' + n as char] else Decimal(n / 10) + ['0' + (n % 10) as char]
  }

  lemma {:induction false} DecimalRoundTrip(n: nat)
    ensures IsIndex(Decimal(n)) && ToNumber(Decimal(n)) == n
    ensures n > 0 ==> Decimal(n)[0] != '0'
  {
    if n >= 10 {
      DecimalRoundTrip(n / 10);
      var front := Decimal(n / 10);
      assert Decimal(n)[..|front|] == front;
    } else {
      assert Decimal(n)[..0] == "";
    }
  }

  lemma {:induction false} PlainDecode(segment: string)
    requires '~' !in segment
    ensures EscapesValid(segment) && Decode(segment) == segment
  {
    DecodeIsOnePass(segment);
    PlainDecodeOnce(segment);
  }

  lemma {:induction false} PlainDecodeOnce(segment: string)
    requires '~' !in segment
    ensures DecodeOnce(segment) == segment
  {
    if |segment| > 0 {
      assert segment[0] in segment;
      PlainDecodeOnce(segment[1..]);
    }
  }

  // ----- Splitting at slashes

  /** `text.split("/")` */
  function Split(text: string): (r: seq<string>)
    ensures |r| > 0
  {
    if |text| == 0 then [""]
    else
      var rest := Split(text[1..]);
      if text[0] == '/' then [""] + rest else [[text[0]] + rest[0]] + rest[1..]
  }

  /** `"/".join(segments)` */
  function Join(segments: seq<string>): string
    requires |segments| > 0
  {
    if |segments| == 1 then segments[0] else segments[0] + "/" + Join(segments[1..])
  }

  lemma {:induction false} SplitAtSlash(segment: string, rest: string)
    requires '/' !in segment
    ensures Split(segment + "/" + rest) == [segment] + Split(rest)
  {
    var text := segment + "/" + rest;
    if |segment| == 0 {
      assert text[1..] == rest;
    } else {
      assert segment[0] in segment;
      assert text[1..] == segment[1..] + "/" + rest;
      SplitAtSlash(segment[1..], rest);
      assert segment == [segment[0]] + segment[1..];
    }
  }

  lemma {:induction false} SplitOne(segment: string)
    requires '/' !in segment
    ensures Split(segment) == [segment]
  {
    if |segment| > 0 {
      assert segment[0] in segment;
      SplitOne(segment[1..]);
      assert segment == [segment[0]] + segment[1..];
    }
  }

  lemma {:induction false} SplitJoin(segments: seq<string>)
    requires |segments| > 0 && forall i :: 0 <= i < |segments| ==> '/' !in segments[i]
    ensures Split(Join(segments)) == segments
  {
    if |segments| == 1 {
      SplitOne(segments[0]);
    } else {
      SplitAtSlash(segments[0], Join(segments[1..]));
      SplitJoin(segments[1..]);
      assert segments == [segments[0]] + segments[1..];
    }
  }
}
