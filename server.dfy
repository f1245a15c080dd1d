/** The reply the server sends for one request: a dispatch on the
    request's first token, matched without regard to case. */
module Server {
  import opened Wrappers
  import opened Bytes
  import opened Decimal
  import opened Message
  import opened Parser
  import opened ParserProperties

  const PING := Str("PING")
  const ECHO := Str("ECHO")
  const PONG := Str("PONG")
  const ECHO_ARITY_TEXT := Str("Expected 1 argument provided to ECHO")
  const UNSUPPORTED_TEXT := Str("UNSUPPORTED")

  const PONG_REPLY := Str("+" + "PONG" + "\r\n")
  const ECHO_ARITY_REPLY := Str("+" + "Expected 1 argument provided to ECHO" + "\r\n")
  const UNSUPPORTED_REPLY := Str("+" + "UNSUPPORTED" + "\r\n")

  /** The command names are upper case and distinct. */
  lemma CommandNames()
    ensures forall i :: 0 <= i < |PING| ==> !IsLower(PING[i])
    ensures forall i :: 0 <= i < |ECHO| ==> !IsLower(ECHO[i])
    ensures PING != ECHO
  {
    assert PING[0] != ECHO[0];
  }

  /** The fixed replies are the encodings of their simple strings. */
  lemma ReplyTexts()
    ensures PONG_REPLY == ResponseString(SimpleString(PONG))
    ensures ECHO_ARITY_REPLY == ResponseString(SimpleString(ECHO_ARITY_TEXT))
    ensures UNSUPPORTED_REPLY == ResponseString(SimpleString(UNSUPPORTED_TEXT))
  {
    assert Str("+") == [PLUS] && Str("\r\n") == CRLF;
    StrAppend("+", "PONG");
    StrAppend("+" + "PONG", "\r\n");
    StrAppend("+", "Expected 1 argument provided to ECHO");
    StrAppend("+" + "Expected 1 argument provided to ECHO", "\r\n");
    StrAppend("+", "UNSUPPORTED");
    StrAppend("+" + "UNSUPPORTED", "\r\n");
  }

  /** `generateResponse`: PING answers PONG; ECHO with exactly one argument
      answers it as a bulk string and otherwise with a usage message; any
      other command is unsupported. Every reply is one encoded value: the
      usage and unsupported messages are simple strings, not errors. */
  function GenerateResponse(message: Message): (r: Bytes)
    requires |message.tokens| > 0
    ensures EqualsIgnoreCase(message.tokens[0], PING) ==>
      r == ResponseString(SimpleString(PONG))
    ensures EqualsIgnoreCase(message.tokens[0], ECHO) && |message.tokens| == 2 ==>
      r == ResponseString(BulkString(message.tokens[1]))
    ensures EqualsIgnoreCase(message.tokens[0], ECHO) && |message.tokens| != 2 ==>
      r == ResponseString(SimpleString(ECHO_ARITY_TEXT))
    ensures !EqualsIgnoreCase(message.tokens[0], PING) && !EqualsIgnoreCase(message.tokens[0], ECHO) ==>
      r == ResponseString(SimpleString(UNSUPPORTED_TEXT))
  {
    CommandNames();
    ReplyTexts();
    ToUpperMatchesIff(message.tokens[0], PING);
    ToUpperMatchesIff(message.tokens[0], ECHO);
    var tokens := message.tokens;
    var command := ToUpper(tokens[0]);
    if command == PING then PONG_REPLY
    else if command == ECHO then
      if |tokens| != 2 then ECHO_ARITY_REPLY
      else
        var echoed := tokens[1];
        [DOLLAR] + FormatInt(|echoed|) + CRLF + echoed + CRLF
    else UNSUPPORTED_REPLY
  }

  /** A client decoding the ECHO reply gets back exactly the argument, with
      nothing left over. */
  lemma {:induction false} EchoReplyDecodes(message: Message)
    requires |message.tokens| == 2 && EqualsIgnoreCase(message.tokens[0], ECHO)
    ensures Parse(GenerateResponse(message)) == Ok((BulkString(message.tokens[1]), []))
  {
    var reply := GenerateResponse(message);
    assert reply + [] == reply;
    BulkStringRoundTrip(message.tokens[1], []);
  }

  /** Every other reply decodes as one simple string: PONG, the ECHO usage
      message or UNSUPPORTED. */
  lemma {:induction false} StatusRepliesDecode(message: Message)
    requires |message.tokens| > 0
    requires !(EqualsIgnoreCase(message.tokens[0], ECHO) && |message.tokens| == 2)
    ensures Parse(GenerateResponse(message)) == Ok((SimpleString(
      if EqualsIgnoreCase(message.tokens[0], PING) then PONG
      else if EqualsIgnoreCase(message.tokens[0], ECHO) then ECHO_ARITY_TEXT
      else UNSUPPORTED_TEXT), []))
  {
    var reply := GenerateResponse(message);
    assert reply + [] == reply;
    StatusTextsOneLine();
    if EqualsIgnoreCase(message.tokens[0], PING) {
      SimpleStringRoundTrip(PONG, []);
    } else if EqualsIgnoreCase(message.tokens[0], ECHO) {
      SimpleStringRoundTrip(ECHO_ARITY_TEXT, []);
    } else {
      SimpleStringRoundTrip(UNSUPPORTED_TEXT, []);
    }
  }

  /** None of the status texts holds a line feed. */
  lemma StatusTextsOneLine()
    ensures LF !in PONG && LF !in ECHO_ARITY_TEXT && LF !in UNSUPPORTED_TEXT
  {
    StrWithoutNewline("PONG");
    StrWithoutNewline("Expected 1 argument provided to ECHO");
    StrWithoutNewline("UNSUPPORTED");
  }

  /** Any spelling of PING, alone, is answered PONG. */
  lemma PingAnswered(t: Bytes, completed: bool)
    requires EqualsIgnoreCase(t, PING)
    ensures GenerateResponse(Message([t], completed)) == PONG_REPLY
  {
    ReplyTexts();
  }

  /** `ping`, `PING` and `PiNg` are all answered `+PONG\r\n`. */
  lemma PingInAnyCase(completed: bool)
    ensures GenerateResponse(Message([Str("ping")], completed)) == PONG_REPLY
    ensures GenerateResponse(Message([Str("PING")], completed)) == PONG_REPLY
    ensures GenerateResponse(Message([Str("PiNg")], completed)) == PONG_REPLY
  {
    SpellingsOfPing();
    PingAnswered(Str("ping"), completed);
    PingAnswered(Str("PING"), completed);
    PingAnswered(Str("PiNg"), completed);
  }

  /** `ping`, `PING` and `PiNg` all match PING regardless of case. */
  lemma SpellingsOfPing()
    ensures EqualsIgnoreCase(Str("ping"), PING)
    ensures EqualsIgnoreCase(Str("PING"), PING)
    ensures EqualsIgnoreCase(Str("PiNg"), PING)
  {
    assert PING == [80, 73, 78, 71];
    assert Str("ping") == [112, 105, 110, 103];
    assert Str("PiNg") == [80, 105, 78, 103];
  }

  /** The end-to-end exchange of the integration test: `ECHO HEY` is
      answered `$3\r\nHEY\r\n`. */
  lemma EchoHey(completed: bool)
    ensures GenerateResponse(Message([Str("ECHO"), Str("HEY")], completed)) == Str("$3\r\nHEY\r\n")
  {
    assert EqualsIgnoreCase(ECHO, ECHO);
    HeyEncoded();
  }

  /** The encoding of the bulk string `HEY`, byte by byte. */
  lemma HeyEncoded()
    ensures ResponseString(BulkString(Str("HEY"))) == Str("$3\r\nHEY\r\n")
  {
    assert FormatInt(3) == [51];
    assert Str("HEY") == [72, 69, 89];
    assert Str("$3\r\nHEY\r\n") == [36, 51, 13, 10, 72, 69, 89, 13, 10];
  }
}
