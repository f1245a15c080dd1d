/** What the RESP decoder promises about the encodings and about the
    lines, lengths and element counts it reads. */
module ParserProperties {
  import opened Wrappers
  import opened Bytes
  import opened Decimal
  import opened Bufio
  import opened Parser

  /** A line ended by CRLF is read back whole, whatever follows it. */
  lemma SplitLineCRLF(line: Bytes, t: Bytes)
    requires LF !in line
    ensures SplitLine(line + CRLF + t) == Some((line, t))
  {
    ReadLineIff(line + CRLF + t, line, t);
  }

  /** A length line ended by CRLF. */
  lemma ReadLengthCRLF(line: Bytes, t: Bytes)
    requires LF !in line
    ensures Atoi(line).Some? ==> ReadLength(line + CRLF + t) == Ok((Atoi(line).value, t))
    ensures Atoi(line).None? ==> ReadLength(line + CRLF + t) == Err(InvalidInteger(line))
  {
    SplitLineCRLF(line, t);
  }

  lemma ReadLengthNat(n: nat, t: Bytes)
    ensures ReadLength(FormatNat(n) + CRLF + t) == Ok((n, t))
  {
    AtoiFormatInt(n);
    ReadLengthCRLF(FormatNat(n), t);
  }

  /** The type byte chooses the reading that follows it. */
  lemma ParseTag(tag: byte, body: Bytes)
    ensures tag == PLUS ==> Parse([tag] + body) == ParseSimpleString(body)
    ensures tag == COLON ==> Parse([tag] + body) == ParseInteger(body)
    ensures tag == DOLLAR ==> Parse([tag] + body) == ParseBulkString(body)
    ensures tag == STAR ==> Parse([tag] + body) == ParseArray(body)
  {
    assert ([tag] + body)[0] == tag && ([tag] + body)[1..] == body;
  }

  /** `+line\r\n` is the simple string `line`, and the input after the CRLF
      is left unread. */
  lemma {:induction false} SimpleStringRoundTrip(s: Bytes, t: Bytes)
    requires LF !in s
    ensures Parse(ResponseString(SimpleString(s)) + t) == Ok((SimpleString(s), t))
  {
    assert ResponseString(SimpleString(s)) + t == [PLUS] + (s + CRLF + t);
    ParseTag(PLUS, s + CRLF + t);
    SplitLineCRLF(s, t);
  }

  /** Encoding a simple string and decoding it gives it back with nothing
      left over exactly when it has no line feed. */
  lemma {:induction false} SimpleStringRoundTripIff(s: Bytes)
    ensures Parse(ResponseString(SimpleString(s))) == Ok((SimpleString(s), [])) <==> LF !in s
  {
    var input := ResponseString(SimpleString(s));
    if LF !in s {
      assert input + [] == input;
      SimpleStringRoundTrip(s, []);
    } else {
      assert input == [PLUS] + (s + CRLF);
      ParseTag(PLUS, s + CRLF);
      var split := SplitLine(s + CRLF);
      assert split.Some?;
      assert LF !in split.value.0;
    }
  }

  /** A final line with no terminator is still a line: `+OK` alone is the
      simple string `OK`. */
  lemma {:induction false} UnterminatedSimpleString(line: Bytes)
    requires line != [] && LF !in line
    ensures Parse([PLUS] + line) == Ok((SimpleString(line), []))
  {
    ParseTag(PLUS, line);
    ReadLineIff(line, line, []);
  }

  /** `:line\r\n` is the integer Atoi reads from the line, or an error when
      the line is not a signed decimal. */
  lemma {:induction false} IntegerLine(line: Bytes, t: Bytes)
    requires LF !in line
    ensures Atoi(line).Some? ==> Parse([COLON] + (line + CRLF + t)) == Ok((Integer(Atoi(line).value), t))
    ensures Atoi(line).None? ==> Parse([COLON] + (line + CRLF + t)) == Err(InvalidInteger(line))
  {
    ParseTag(COLON, line + CRLF + t);
    ReadLengthCRLF(line, t);
  }

  /** Any integer written in decimal is read back. */
  lemma {:induction false} IntegerRoundTrip(i: int, t: Bytes)
    ensures Parse([COLON] + (FormatInt(i) + CRLF + t)) == Ok((Integer(i), t))
  {
    AtoiFormatInt(i);
    IntegerLine(FormatInt(i), t);
  }

  /** The rest of a line is dropped up to and including its line feed. */
  lemma DiscardLineThrough(junk: Bytes, t: Bytes)
    requires LF !in junk
    ensures DiscardLine(junk + [LF] + t) == t
  {
    if junk != [] && junk[|junk| - 1] == CR {
      var line := junk[..|junk| - 1];
      assert junk + [LF] + t == line + CRLF + t;
      ReadLineIff(junk + [LF] + t, line, t);
    } else {
      ReadLineIff(junk + [LF] + t, junk, t);
    }
  }

  /** `$N\r\n` followed by N bytes takes exactly those bytes, CR and LF
      among them included, and drops the rest of the line that follows
      them. */
  lemma {:induction false} BulkStringPayload(b: Bytes, junk: Bytes, t: Bytes)
    requires LF !in junk
    ensures Parse([DOLLAR] + (FormatNat(|b|) + CRLF + (b + (junk + [LF] + t)))) == Ok((BulkString(b), t))
  {
    var after := junk + [LF] + t;
    var body := b + after;
    ParseTag(DOLLAR, FormatNat(|b|) + CRLF + body);
    ReadLengthNat(|b|, body);
    assert body[..|b|] == b && body[|b|..] == after;
    assert ReadFull(body, |b|) == (b, after);
    DiscardLineThrough(junk, t);
  }

  /** Encoding a bulk string and decoding it gives it back, and the input
      after it is left unread. */
  lemma {:induction false} BulkStringRoundTrip(b: Bytes, t: Bytes)
    ensures Parse(ResponseString(BulkString(b)) + t) == Ok((BulkString(b), t))
  {
    assert ResponseString(BulkString(b)) + t == [DOLLAR] + (FormatNat(|b|) + CRLF + (b + ([CR] + [LF] + t)));
    BulkStringPayload(b, [CR], t);
  }

  /** A body shorter than its length line is not an error: the missing
      bytes are zeros and nothing is left. */
  lemma {:induction false} BulkStringShortBody(n: nat, s: Bytes)
    requires |s| < n
    ensures Parse([DOLLAR] + FormatNat(n) + CRLF + s) == Ok((BulkString(s + Zeros(n - |s|)), []))
  {
    assert ([DOLLAR] + FormatNat(n) + CRLF + s)[1..] == FormatNat(n) + CRLF + s;
    SplitLineCRLF(FormatNat(n), s);
    AtoiFormatInt(n);
  }

  /** A length line that is not a decimal number is an error. */
  lemma {:induction false} BulkStringBadLength(line: Bytes, t: Bytes)
    requires LF !in line && Atoi(line).None?
    ensures Parse([DOLLAR] + line + CRLF + t) == Err(InvalidInteger(line))
  {
    assert ([DOLLAR] + line + CRLF + t)[1..] == line + CRLF + t;
    SplitLineCRLF(line, t);
  }

  /** The decoder does not read back the null bulk string its own encoder
      writes: the length -1 is refused. */
  lemma {:induction false} NullBulkStringRefused(t: Bytes)
    ensures Parse(ResponseString(NullBulk) + t) == Err(NegativeLength(-1))
  {
    var line := [MINUS_SIGN] + FormatNat(1);
    assert ResponseString(NullBulk) + t == [DOLLAR] + line + CRLF + t;
    assert ([DOLLAR] + line + CRLF + t)[1..] == line + CRLF + t;
    SplitLineCRLF(line, t);
    AtoiFormatInt(-1);
  }

  /** Nor an error reply: `-` is not a type byte the decoder knows. */
  lemma ErrorReplyRefused(s: Bytes, t: Bytes)
    ensures Parse(ResponseString(Error(s)) + t) == Err(UnexpectedToken(MINUS))
  {
    assert (ResponseString(Error(s)) + t)[0] == MINUS;
  }

  /** Nothing to read is the end of the stream; a type byte other than
      `+ : $ *` is an unexpected token. */
  lemma ParseRefuses(s: Bytes)
    ensures s == [] ==> Parse(s) == Err(EndOfStream)
    ensures s != [] && s[0] !in {PLUS, COLON, DOLLAR, STAR} ==> Parse(s) == Err(UnexpectedToken(s[0]))
  {
  }

  /** The values whose encoding the decoder reads back exactly. */
  predicate SelfDelimiting(v: RespValue)
  {
    v.BulkString? || (v.SimpleString? && LF !in v.text)
  }

  /** The encodings of `vs`, one after another. */
  function EncodeAll(vs: seq<RespValue>): Bytes
    requires forall i :: 0 <= i < |vs| ==> SelfDelimiting(vs[i])
  {
    if vs == [] then []
    else
      assert SelfDelimiting(vs[0]);
      ResponseString(vs[0]) + EncodeAll(vs[1..])
  }

  lemma {:induction false} SelfDelimitingRoundTrip(v: RespValue, t: Bytes)
    requires SelfDelimiting(v)
    ensures Parse(ResponseString(v) + t) == Ok((v, t))
  {
    if v.BulkString? {
      BulkStringRoundTrip(v.bytes, t);
    } else {
      SimpleStringRoundTrip(v.text, t);
    }
  }

  /** The values NewBulkString and NewSimpleString build decode from their
      encodings, whatever follows; a simple string only when its text has
      no line feed. */
  lemma NewStringsDecode(b: Bytes, text: Bytes, t: Bytes)
    ensures Parse(ResponseString(NewBulkString(b)) + t) == Ok((NewBulkString(b), t))
    ensures LF !in text ==>
      Parse(ResponseString(NewSimpleString(text)) + t) == Ok((NewSimpleString(text), t))
  {
    BulkStringRoundTrip(b, t);
    if LF !in text {
      SimpleStringRoundTrip(text, t);
    }
  }

  /** The first of several values is read, then the others. The remaining
      count is passed as j, rather than written k - 1, so that it matches
      the caller's own term for it. */
  lemma ParseElementsCons(s: Bytes, k: nat, j: nat, v: RespValue, rest: Bytes)
    requires k == j + 1 && Parse(s) == Ok((v, rest))
    ensures ParseElements(s, k) == Prefixed([v], ParseElements(rest, j))
  {
    match ParseElements(rest, j)
    case Err(e) =>
      assert ParseElements(s, k) == Err(e);
    case Ok((vs, after)) =>
      assert ParseElements(s, k) == Ok(([v] + vs, after));
  }

  /** A first value that fails fails the whole list. */
  lemma ParseElementsFails(s: Bytes, k: nat, e: ParseError)
    requires k > 0 && Parse(s) == Err(e)
    ensures ParseElements(s, k) == Err(e)
  {
  }

  /** The first encoding, then the others. */
  lemma EncodeAllCons(vs: seq<RespValue>, t: Bytes)
    requires vs != [] && forall i :: 0 <= i < |vs| ==> SelfDelimiting(vs[i])
    ensures SelfDelimiting(vs[0])
    ensures EncodeAll(vs) + t == ResponseString(vs[0]) + (EncodeAll(vs[1..]) + t)
  {
    assert SelfDelimiting(vs[0]);
  }

  /** After a count line, an array is its elements read one by one. */
  lemma ArrayAfterCount(n: nat, rest: Bytes)
    ensures ParseArray(FormatNat(n) + CRLF + rest) ==
      match ParseElements(rest, n)
      case Err(e) => Err(e)
      case Ok((vs, after)) => Ok((Array(vs), after))
  {
    ReadLengthNat(n, rest);
  }

  /** A failing element after `*N\r\n` fails the whole array. */
  lemma ArrayAfterTagFails(n: nat, rest: Bytes, e: ParseError)
    requires ParseElements(rest, n) == Err(e)
    ensures Parse([STAR] + (FormatNat(n) + CRLF + rest)) == Err(e)
  {
    ParseTag(STAR, FormatNat(n) + CRLF + rest);
    ArrayAfterCount(n, rest);
  }

  /** Encoded values read one after another come back in order, each
      taking only its own bytes. */
  lemma {:induction false} ElementsRoundTrip(vs: seq<RespValue>, t: Bytes)
    requires forall i :: 0 <= i < |vs| ==> SelfDelimiting(vs[i])
    ensures ParseElements(EncodeAll(vs) + t, |vs|) == Ok((vs, t))
  {
    if vs == [] {
      assert EncodeAll(vs) + t == t;
    } else {
      var tail := vs[1..];
      assert [vs[0]] + tail == vs;
      var rest := EncodeAll(tail) + t;
      ElementsRoundTrip(tail, t);
      var input := EncodeAll(vs) + t;
      assert Parse(input) == Ok((vs[0], rest)) by {
        EncodeAllCons(vs, t);
        SelfDelimitingRoundTrip(vs[0], rest);
      }
      ParseElementsCons(input, |vs|, |tail|, vs[0], rest);
    }
  }

  /** `*N\r\n` followed by N encoded values is the array of those values,
      in order. */
  lemma {:induction false} ArrayRoundTrip(vs: seq<RespValue>, t: Bytes)
    requires forall i :: 0 <= i < |vs| ==> SelfDelimiting(vs[i])
    ensures Parse([STAR] + (FormatNat(|vs|) + CRLF + (EncodeAll(vs) + t))) == Ok((Array(vs), t))
  {
    var body := EncodeAll(vs) + t;
    ParseTag(STAR, FormatNat(|vs|) + CRLF + body);
    ArrayAfterCount(|vs|, body);
    ElementsRoundTrip(vs, t);
  }

  /** After valid encoded values, an element that fails makes the reading
      of those values and that element fail with the element's error. */
  lemma {:induction false} ElementsErrorPropagates(vs: seq<RespValue>, s: Bytes, e: ParseError)
    requires forall i :: 0 <= i < |vs| ==> SelfDelimiting(vs[i])
    requires Parse(s) == Err(e)
    ensures ParseElements(EncodeAll(vs) + s, |vs| + 1) == Err(e)
  {
    if vs == [] {
      assert EncodeAll(vs) + s == s;
      ParseElementsFails(s, 1, e);
    } else {
      var tail := vs[1..];
      assert [vs[0]] + tail == vs;
      var rest := EncodeAll(tail) + s;
      ElementsErrorPropagates(tail, s, e);
      var input := EncodeAll(vs) + s;
      assert Parse(input) == Ok((vs[0], rest)) by {
        EncodeAllCons(vs, s);
        SelfDelimitingRoundTrip(vs[0], rest);
      }
      ParseElementsCons(input, |vs| + 1, |tail| + 1, vs[0], rest);
    }
  }

  /** A reading that fails still fails when more elements are asked for:
      the first ones are read first. */
  lemma {:induction false} ElementsErrorMore(s: Bytes, k: nat, n: nat, e: ParseError)
    requires k <= n && ParseElements(s, k) == Err(e)
    ensures ParseElements(s, n) == Err(e)
    decreases k
  {
    if k > 0 {
      match Parse(s)
      case Err(_) =>
      case Ok((v, rest)) =>
        ElementsErrorMore(rest, k - 1, n - 1, e);
    }
  }

  /** Elements that decode, then one that fails, within the count: the
      count as a whole fails with that element's error. */
  lemma ElementsFailAt(vs: seq<RespValue>, s: Bytes, n: nat, e: ParseError)
    requires forall i :: 0 <= i < |vs| ==> SelfDelimiting(vs[i])
    requires |vs| < n && Parse(s) == Err(e)
    ensures ParseElements(EncodeAll(vs) + s, n) == Err(e)
  {
    ElementsErrorPropagates(vs, s, e);
    ElementsErrorMore(EncodeAll(vs) + s, |vs| + 1, n, e);
  }

  /** An array whose element fails to decode is that element's error. */
  lemma ArrayElementError(vs: seq<RespValue>, s: Bytes, n: nat, e: ParseError)
    requires forall i :: 0 <= i < |vs| ==> SelfDelimiting(vs[i])
    requires |vs| < n && Parse(s) == Err(e)
    ensures Parse([STAR] + (FormatNat(n) + CRLF + (EncodeAll(vs) + s))) == Err(e)
  {
    ElementsFailAt(vs, s, n, e);
    ArrayAfterTagFails(n, EncodeAll(vs) + s, e);
  }

  /** The decoder only consumes: whatever it leaves is the input with a
      prefix removed, so the stream stays positioned at the next value. */
  lemma {:induction false} ParseLeavesSuffix(s: Bytes)
    ensures Parse(s).Ok? ==> IsSuffix(Parse(s).value.1, s)
    decreases |s|, 0
  {
    if s != [] && Parse(s).Ok? {
      var body := s[1..];
      if s[0] == PLUS {
        SplitLineLeavesSuffix(body);
      } else if s[0] == COLON {
        ReadLengthLeavesSuffix(body);
      } else if s[0] == DOLLAR {
        BulkLeavesSuffix(body);
      } else if s[0] == STAR {
        ArrayLeavesSuffix(body);
      }
      SuffixTrans(Parse(s).value.1, body, s);
    }
  }

  /** A length line leaves the input after that line. */
  lemma ReadLengthLeavesSuffix(s: Bytes)
    ensures ReadLength(s).Ok? ==> IsSuffix(ReadLength(s).value.1, s)
  {
    SplitLineLeavesSuffix(s);
  }

  /** After `$`, the bytes left follow the payload's line. */
  lemma BulkLeavesSuffix(body: Bytes)
    ensures ParseBulkString(body).Ok? ==> IsSuffix(ParseBulkString(body).value.1, body)
  {
    var length := ReadLength(body);
    ReadLengthLeavesSuffix(body);
    if length.Ok? && length.value.0 >= 0 {
      var n: nat := length.value.0;
      var rest := length.value.1;
      var after := ReadFull(rest, n).1;
      ReadFullLeavesSuffix(rest, n);
      DiscardLineLeavesSuffix(after);
      SuffixTrans(DiscardLine(after), after, rest);
      SuffixTrans(DiscardLine(after), rest, body);
      assert ParseBulkString(body).value.1 == DiscardLine(after);
    }
  }

  /** After `*`, the bytes left follow the last element. */
  lemma {:induction false} ArrayLeavesSuffix(body: Bytes)
    ensures ParseArray(body).Ok? ==> IsSuffix(ParseArray(body).value.1, body)
    decreases |body|, 2
  {
    ReadLengthLeavesSuffix(body);
    match ReadLength(body)
    case Err(_) =>
    case Ok((n, rest)) =>
      if n >= 0 {
        ElementsLeaveSuffix(rest, n);
        if ParseElements(rest, n).Ok? {
          SuffixTrans(ParseElements(rest, n).value.1, rest, body);
        }
      }
  }

  /** Reading n elements leaves the input after the last of them. */
  lemma {:induction false} ElementsLeaveSuffix(s: Bytes, n: nat)
    ensures ParseElements(s, n).Ok? ==> IsSuffix(ParseElements(s, n).value.1, s)
    decreases |s|, 1, n
  {
    if n > 0 {
      ParseLeavesSuffix(s);
      match Parse(s)
      case Err(_) =>
      case Ok((v, rest)) =>
        ElementsLeaveSuffix(rest, n - 1);
        if ParseElements(rest, n - 1).Ok? {
          SuffixTrans(ParseElements(rest, n - 1).value.1, rest, s);
        }
    }
  }

  /** The inputs and results of the decoder's unit tests. */
  lemma TestSimpleString()
    ensures Parse(Str("+OK\r\n")) == Ok((SimpleString(Str("OK")), []))
  {
    assert Str("+OK\r\n") == ResponseString(SimpleString(Str("OK"))) + [];
    SimpleStringRoundTrip(Str("OK"), []);
  }

  lemma TestInteger()
    ensures Parse(Str(":1000\r\n")) == Ok((Integer(1000), []))
  {
    assert FormatInt(1000) == Str("1000");
    assert Str(":1000\r\n") == [COLON] + (FormatInt(1000) + CRLF + []);
    IntegerRoundTrip(1000, []);
  }

  lemma TestBulkString()
    ensures Parse(Str("$6\r\nfoobar\r\n")) == Ok((BulkString(Str("foobar")), []))
  {
    FoobarEncoded();
    var encoded := ResponseString(BulkString(Str("foobar")));
    assert encoded + [] == encoded;
    BulkStringRoundTrip(Str("foobar"), []);
  }

  /** The encoding of the bulk string `foobar`, byte by byte. */
  lemma FoobarEncoded()
    ensures ResponseString(BulkString(Str("foobar"))) == Str("$6\r\nfoobar\r\n")
  {
    assert FormatInt(6) == [54];
    assert Str("foobar") == [102, 111, 111, 98, 97, 114];
    assert Str("$6\r\nfoobar\r\n") == [36, 54, 13, 10, 102, 111, 111, 98, 97, 114, 13, 10];
  }

  lemma TestInvalidType()
    ensures Parse(Str("@Invalid\r\n")) == Err(UnexpectedToken(64))  // '@'
  {
    assert Str("@Invalid\r\n")[0] == 64;
    ParseRefuses(Str("@Invalid\r\n"));
  }

  /** Joining two non-empty lists is joining each and putting one
      separator between them. */
  lemma {:induction false} JoinAppend(xs: seq<Bytes>, ys: seq<Bytes>, sep: Bytes)
    requires xs != [] && ys != []
    ensures Join(xs + ys, sep) == Join(xs, sep) + sep + Join(ys, sep)
  {
    if |xs| == 1 {
      assert (xs + ys)[1..] == ys;
    } else {
      assert (xs + ys)[1..] == xs[1..] + ys;
      JoinAppend(xs[1..], ys, sep);
    }
  }

  /** The text between an array's brackets. */
  function Inner(vs: seq<RespValue>): Bytes
  {
    Join(RenderAll(vs), SEPARATOR)
  }

  /** The printer keeps the order of an array's elements: the text inside
      the brackets for two arrays joined is the two texts joined by `, `. */
  lemma {:induction false} RenderArrayAppend(vs: seq<RespValue>, ws: seq<RespValue>)
    requires vs != [] && ws != []
    ensures Inner(vs + ws) == Inner(vs) + SEPARATOR + Inner(ws)
  {
    RenderAllAppend(vs, ws);
    JoinAppend(RenderAll(vs), RenderAll(ws), SEPARATOR);
  }

  lemma RenderAllAppend(vs: seq<RespValue>, ws: seq<RespValue>)
    ensures RenderAll(vs + ws) == RenderAll(vs) + RenderAll(ws)
  {
    var l, r := RenderAll(vs + ws), RenderAll(vs) + RenderAll(ws);
    forall i | 0 <= i < |l|
      ensures l[i] == r[i]
    {
      if i < |vs| {
        assert (vs + ws)[i] == vs[i];
      } else {
        assert (vs + ws)[i] == ws[i - |vs|];
      }
    }
  }

  /** An array of one element prints as that element in brackets, and the
      null bulk string as `(nil)`. */
  lemma RenderSingleton(v: RespValue)
    ensures Render(Array([v])) == ARRAY_OPEN + Render(v) + ARRAY_CLOSE
    ensures Render(NullBulk) == Str("BulkString: (nil)")
  {
  }
}
