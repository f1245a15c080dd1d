/** The RESP (REdis Serialization Protocol, version 2) codec: the protocol
    values, their wire encodings, the decoder and the debug printer. */
module Parser {
  import opened Wrappers
  import opened Bytes
  import opened Decimal
  import opened Bufio
  import opened Message

  const PLUS: byte := 43    // '+'
  const MINUS: byte := 45   // '-'
  const COLON: byte := 58   // ':'
  const DOLLAR: byte := 36  // '$'
  const STAR: byte := 42    // '*'

  /** A protocol value. Go's `nil` RespBulkString is NullBulk. */
  datatype RespValue =
    | SimpleString(text: Bytes)
    | Error(text: Bytes)
    | Integer(number: int)
    | BulkString(bytes: Bytes)
    | NullBulk
    | Array(elements: seq<RespValue>)

  /** The values ResponseString can write; the Array and Integer writers
      panic. */
  predicate Encodable(v: RespValue)
  {
    v.SimpleString? || v.Error? || v.BulkString? || v.NullBulk?
  }

  /** The leading type byte of an encodable value's wire form. */
  function Tag(v: RespValue): byte
    requires Encodable(v)
  {
    match v
    case SimpleString(_) => PLUS
    case Error(_) => MINUS
    case _ => DOLLAR
  }

  /** The `ResponseString` methods: a type byte, the text or a length
      line, and CRLF. */
  function ResponseString(v: RespValue): (r: Bytes)
    requires Encodable(v)
    ensures |r| >= 3 && r[0] == Tag(v) && r[|r| - 2..] == CRLF
  {
    match v
    case SimpleString(s) => [PLUS] + s + CRLF
    case Error(s) => [MINUS] + s + CRLF
    case NullBulk => Str("$-1\r\n")
    case BulkString(b) => [DOLLAR] + FormatInt(|b|) + CRLF + b + CRLF
  }

  /** A bulk string of the given bytes; on the wire, its length line, the
      bytes and CRLF. */
  function NewBulkString(input: Bytes): (v: RespValue)
    ensures Encodable(v)
    ensures ResponseString(v) == [DOLLAR] + FormatInt(|input|) + CRLF + input + CRLF
  {
    BulkString(input)
  }

  /** A simple string of the given text; on the wire, `+`, the text and
      CRLF. */
  function NewSimpleString(input: Bytes): (v: RespValue)
    ensures Encodable(v)
    ensures ResponseString(v) == [PLUS] + input + CRLF
  {
    SimpleString(input)
  }

  /** Builds a simple string, not an Error value, so replies made with it
      start with `+`. */
  function NewError(input: Bytes): (v: RespValue)
    ensures v.SimpleString? && v.text == input
    ensures ResponseString(v)[0] == PLUS
  {
    SimpleString(input)
  }

  /** Why ParseInput fails. EndOfStream is io.EOF from ReadByte or
      ReadLine; InvalidInteger is a strconv.Atoi syntax error;
      NegativeLength stands for the panic of `make` on a negative length. */
  datatype ParseError =
    | EndOfStream
    | InvalidInteger(line: Bytes)
    | NegativeLength(length: int)
    | UnexpectedToken(tag: byte)

  type Parsed<T> = Result<(T, Bytes), ParseError>

  /** The number on the rest of the current line, and what follows the
      line. */
  function ReadLength(s: Bytes): (r: Parsed<int>)
    ensures r.Ok? ==> |r.value.1| < |s|
  {
    match SplitLine(s)
    case None => Err(EndOfStream)
    case Some((line, rest)) =>
      match Atoi(line)
      case None => Err(InvalidInteger(line))
      case Some(n) => Ok((n, rest))
  }

  /** One value decoded from the front of `s`, with the input left after
      it; it consumes at least its type byte. */
  function Parse(s: Bytes): (r: Parsed<RespValue>)
    decreases |s|, 0, 0
    ensures r.Ok? ==> |r.value.1| < |s|
  {
    if s == [] then Err(EndOfStream)
    else
      var tag := s[0];
      if tag == PLUS then ParseSimpleString(s[1..])
      else if tag == COLON then ParseInteger(s[1..])
      else if tag == DOLLAR then ParseBulkString(s[1..])
      else if tag == STAR then ParseArray(s[1..])
      else Err(UnexpectedToken(tag))
  }

  /** After `+`: the line itself. */
  function ParseSimpleString(body: Bytes): (r: Parsed<RespValue>)
    ensures r.Ok? ==> |r.value.1| <= |body|
  {
    match SplitLine(body)
    case None => Err(EndOfStream)
    case Some((line, rest)) => Ok((SimpleString(line), rest))
  }

  /** After `:`: the line read as a signed decimal. */
  function ParseInteger(body: Bytes): (r: Parsed<RespValue>)
    ensures r.Ok? ==> |r.value.1| <= |body|
  {
    match ReadLength(body)
    case Err(e) => Err(e)
    case Ok((n, rest)) => Ok((Integer(n), rest))
  }

  /** After `$`: a length line, that many bytes (zero-padded when the input
      runs out), and the rest of the line after them dropped. */
  function ParseBulkString(body: Bytes): (r: Parsed<RespValue>)
    ensures r.Ok? ==> |r.value.1| <= |body|
  {
    match ReadLength(body)
    case Err(e) => Err(e)
    case Ok((n, rest)) =>
      if n < 0 then Err(NegativeLength(n))
      else
        var (payload, after) := ReadFull(rest, n);
        Ok((BulkString(payload), DiscardLine(after)))
  }

  /** After `*`: a count line, then that many values. */
  function ParseArray(body: Bytes): (r: Parsed<RespValue>)
    decreases |body|, 2, 0
    ensures r.Ok? ==> |r.value.1| <= |body|
  {
    match ReadLength(body)
    case Err(e) => Err(e)
    case Ok((n, rest)) =>
      if n < 0 then Err(NegativeLength(n))
      else
        match ParseElements(rest, n)
        case Err(e) => Err(e)
        case Ok((elements, after)) => Ok((Array(elements), after))
  }

  /** n values decoded one after another from the front of `s`; the first
      failure is the result. */
  function ParseElements(s: Bytes, n: nat): (r: Parsed<seq<RespValue>>)
    decreases |s|, 1, n
    ensures r.Ok? ==> |r.value.0| == n && |r.value.1| <= |s|
  {
    if n == 0 then Ok(([], s))
    else
      match Parse(s)
      case Err(e) => Err(e)
      case Ok((v, rest)) =>
        match ParseElements(rest, n - 1)
        case Err(e) => Err(e)
        case Ok((vs, after)) => Ok(([v] + vs, after))
  }

  /** `prefix` put in front of the values of a successful parse. */
  function Prefixed(prefix: seq<RespValue>, r: Parsed<seq<RespValue>>): Parsed<seq<RespValue>>
  {
    match r
    case Err(e) => Err(e)
    case Ok((vs, rest)) => Ok((prefix + vs, rest))
  }

  lemma PrefixedEmpty(r: Parsed<seq<RespValue>>)
    ensures Prefixed([], r) == r
  {
    match r
    case Err(_) =>
    case Ok((vs, rest)) => assert [] + vs == vs;
  }

  lemma PrefixedAppend(xs: seq<RespValue>, ys: seq<RespValue>, r: Parsed<seq<RespValue>>)
    ensures Prefixed(xs, Prefixed(ys, r)) == Prefixed(xs + ys, r)
  {
    match r
    case Err(_) =>
    case Ok((vs, rest)) => assert xs + (ys + vs) == (xs + ys) + vs;
  }

  /** One more element decoded moves from the pending input to the
      values collected so far. The count after the step is passed as j,
      rather than written k - 1, so that callers name both counts as terms
      they already hold. */
  lemma ParseElementsStep(prefix: seq<RespValue>, s: Bytes, k: nat, j: nat)
    requires k == j + 1
    ensures Parse(s).Err? ==> Prefixed(prefix, ParseElements(s, k)) == Err(Parse(s).error)
    ensures Parse(s).Ok? ==>
      Prefixed(prefix, ParseElements(s, k))
        == Prefixed(prefix + [Parse(s).value.0], ParseElements(Parse(s).value.1, j))
  {
    if Parse(s).Ok? {
      var (v, rest) := Parse(s).value;
      assert ParseElements(s, k) == Prefixed([v], ParseElements(rest, j));
      PrefixedAppend(prefix, [v], ParseElements(rest, j));
    }
  }

  /** The outcome of ParseInput and the reader's position afterwards agree
      with Parse: same value and same remaining input, or same error. */
  predicate Agrees(res: Result<RespValue, ParseError>, rest: Bytes, spec: Parsed<RespValue>)
  {
    match spec
    case Ok((v, after)) => res == Ok(v) && rest == after
    case Err(e) => res == Err(e)
  }

  /** `ParseInput`: reads one value from the reader, advancing it past the
      value's bytes. Each case of its switch on the type byte is one of the
      methods below. */
  method ParseInput(reader: Reader) returns (res: Result<RespValue, ParseError>)
    modifies reader
    decreases |reader.rest|, 1
    ensures Agrees(res, reader.rest, Parse(old(reader.rest)))
  {
    ghost var input := reader.rest;
    var next := reader.ReadByte();
    if next.None? {
      return Err(EndOfStream);
    }
    var tag := next.value;
    assert tag == input[0] && reader.rest == input[1..];
    if tag == PLUS {
      res := ReadSimpleString(reader);
    } else if tag == COLON {
      res := ReadInteger(reader);
    } else if tag == DOLLAR {
      res := ReadBulkString(reader);
    } else if tag == STAR {
      res := ReadArray(reader);
    } else {
      res := Err(UnexpectedToken(tag));
    }
  }

  /** `ReadLine` and `strconv.Atoi` on the line. */
  method ReadLengthLine(reader: Reader) returns (res: Result<int, ParseError>)
    modifies reader
    ensures match ReadLength(old(reader.rest))
            case Ok((n, rest)) => res == Ok(n) && reader.rest == rest
            case Err(e) => res == Err(e)
  {
    ghost var body := reader.rest;
    var line := reader.ReadLine();
    if line.None? {
      return Err(EndOfStream);
    }
    var parsed := Atoi(line.value);
    if parsed.None? {
      return Err(InvalidInteger(line.value));
    }
    return Ok(parsed.value);
  }

  method ReadSimpleString(reader: Reader) returns (res: Result<RespValue, ParseError>)
    modifies reader
    ensures Agrees(res, reader.rest, ParseSimpleString(old(reader.rest)))
  {
    ghost var body := reader.rest;
    var line := reader.ReadLine();
    if line.None? {
      return Err(EndOfStream);
    }
    return Ok(SimpleString(line.value));
  }

  method ReadInteger(reader: Reader) returns (res: Result<RespValue, ParseError>)
    modifies reader
    ensures Agrees(res, reader.rest, ParseInteger(old(reader.rest)))
  {
    var n := ReadLengthLine(reader);
    if n.Err? {
      return Err(n.error);
    }
    return Ok(Integer(n.value));
  }

  method ReadBulkString(reader: Reader) returns (res: Result<RespValue, ParseError>)
    modifies reader
    ensures Agrees(res, reader.rest, ParseBulkString(old(reader.rest)))
  {
    var length := ReadLengthLine(reader);
    if length.Err? {
      return Err(length.error);
    }
    var n := length.value;
    if n < 0 {
      return Err(NegativeLength(n));
    }
    ghost var afterLength := reader.rest;
    var bulk := new byte[n](_ => 0);
    var _ := reader.ReadFull(bulk);
    // the rest of the line after the payload is read and dropped
    var _ := reader.ReadLine();
    assert bulk[..] == ReadFull(afterLength, n).0;
    return Ok(BulkString(bulk[..]));
  }

  method ReadArray(reader: Reader) returns (res: Result<RespValue, ParseError>)
    modifies reader
    decreases |reader.rest|, 0
    ensures Agrees(res, reader.rest, ParseArray(old(reader.rest)))
  {
    ghost var body := reader.rest;
    var count := ReadLengthLine(reader);
    if count.Err? {
      return Err(count.error);
    }
    var n := count.value;
    if n < 0 {
      return Err(NegativeLength(n));
    }
    ghost var afterCount := reader.rest;
    var elements := new RespValue[n];
    ghost var pending: nat := n;
    assert elements[..0] == [];
    PrefixedEmpty(ParseElements(afterCount, n));
    for i := 0 to n
      invariant pending == n - i
      invariant |reader.rest| <= |afterCount| < |body|
      invariant ParseElements(afterCount, n) == Prefixed(elements[..i], ParseElements(reader.rest, pending))
    {
      ghost var next: nat := pending - 1;
      ParseElementsStep(elements[..i], reader.rest, pending, next);
      var element := ParseInput(reader);
      if element.Err? {
        return Err(element.error);
      }
      elements[i] := element.value;
      assert elements[..i + 1] == elements[..i] + [element.value];
      pending := next;
    }
    assert elements[..n] == elements[..];
    assert elements[..] + [] == elements[..];
    assert ParseElements(afterCount, n) == Ok((elements[..], reader.rest));
    return Ok(Array(elements[..]));
  }

  /** Concatenates the texts with `sep` between neighbours, as strings.Join. */
  function Join(texts: seq<Bytes>, sep: Bytes): (r: Bytes)
    ensures texts == [] ==> r == []
    ensures texts != [] ==> texts[0] <= r
  {
    if |texts| == 0 then []
    else if |texts| == 1 then texts[0]
    else texts[0] + sep + Join(texts[1..], sep)
  }

  const SIMPLE_LABEL := Str("SimpleString: ")
  const ERROR_LABEL := Str("Error: ")
  const INTEGER_LABEL := Str("Integer: ")
  const BULK_LABEL := Str("BulkString: ")
  const NIL_BULK_TEXT := Str("BulkString: (nil)")
  const ARRAY_OPEN := Str("Array: [")
  const ARRAY_CLOSE := Str("]")
  const SEPARATOR := Str(", ")

  /** The text `PrintRespMessage` gives for a value. */
  function Render(v: RespValue): Bytes
  {
    match v
    case SimpleString(s) => SIMPLE_LABEL + s
    case Error(s) => ERROR_LABEL + s
    case Integer(n) => INTEGER_LABEL + FormatInt(n)
    case NullBulk => NIL_BULK_TEXT
    case BulkString(b) => BULK_LABEL + b
    case Array(vs) => ARRAY_OPEN + Join(RenderAll(vs), SEPARATOR) + ARRAY_CLOSE
  }

  /** Each element rendered, in order. */
  function RenderAll(vs: seq<RespValue>): (r: seq<Bytes>)
    ensures |r| == |vs| && forall i :: 0 <= i < |vs| ==> r[i] == Render(vs[i])
  {
    seq(|vs|, i requires 0 <= i < |vs| => Render(vs[i]))
  }

  /** A list holding each element's rendering, in order, is RenderAll. */
  lemma RenderAllOf(vs: seq<RespValue>, texts: seq<Bytes>)
    requires |texts| == |vs| && forall j :: 0 <= j < |vs| ==> texts[j] == Render(vs[j])
    ensures texts == RenderAll(vs)
  {
  }

  /** `PrintRespMessage`: renders the elements of an array one by one into
      a list, then joins them. */
  method PrintRespMessage(msg: RespValue) returns (out: Bytes)
    ensures out == Render(msg)
  {
    match msg
    case SimpleString(s) =>
      out := SIMPLE_LABEL + s;
    case Error(s) =>
      out := ERROR_LABEL + s;
    case Integer(n) =>
      out := INTEGER_LABEL + FormatInt(n);
    case NullBulk =>
      out := NIL_BULK_TEXT;
    case BulkString(b) =>
      out := BULK_LABEL + b;
    case Array(vs) =>
      var elements: seq<Bytes> := [];
      for i := 0 to |vs|
        invariant |elements| == i
        invariant forall j :: 0 <= j < i ==> elements[j] == Render(vs[j])
      {
        var text := PrintRespMessage(vs[i]);
        elements := elements + [text];
      }
      RenderAllOf(vs, elements);
      out := ARRAY_OPEN + Join(elements, SEPARATOR) + ARRAY_CLOSE;
  }

  /** The decoder state of the earlier line-based protocol reader: kept as
      fields that NewParser and Reset set to their initial values. */
  class Parser {
    var nextArrayLength: Option<int>
    var currentMessage: Message
    var nextStringLength: Option<int>

    predicate IsInitial()
      reads this
    {
      nextArrayLength == None && nextStringLength == None && currentMessage == NewMessage()
    }

    /** `NewParser`. */
    constructor ()
      ensures IsInitial()
    {
      nextArrayLength := None;
      nextStringLength := None;
      currentMessage := NewMessage();
    }

    /** `Reset`: overwrites the parser with a new one. */
    method Reset()
      modifies this
      ensures IsInitial()
    {
      nextArrayLength := None;
      nextStringLength := None;
      currentMessage := NewMessage();
    }
  }
}
