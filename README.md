# redis-go RESP server core, modelled in Dafny

This project models the core of a small Redis-like server written in Go:

- the RESP codec (REdis Serialization Protocol, version 2) of
  `internal/parser/parser.go`: the protocol values, the `ResponseString`
  writers, the decoder `ParseInput` and the debug printer `PrintRespMessage`;
- the reply generator `generateResponse` of `internal/server/server.go`;
- the key-value store `InMemoryDB` of `internal/storage/storage.go`.

Go strings and byte slices are `seq<byte>` (`Bytes.byte` is a newtype over
0..255; `Bytes.Str` turns an ASCII literal into its bytes). The store keeps
Dafny `string` keys and values, since it never looks inside them.

The decoder appears twice. `Parser.Parse` is a function from the unread
input to either an error or a value and the input left after it.
`Parser.ParseInput` is the imperative decoder. It advances the cursor of a
`Bufio.Reader` with `ReadByte`, `ReadLine` and `ReadFull`. It fills the
elements of an array in a counted loop, and it is proved to agree with
`Parse` on the value, the error and the reader's final position. Each case
of its switch on the type byte is a method of its own
(`ReadSimpleString`, `ReadInteger`, `ReadBulkString`, `ReadArray`).

Reading lines follows `bufio.Reader.ReadLine`. A line runs up to the first
line feed. The line feed and one carriage return right before it are
dropped. A final line without a terminator is still a line, and an empty
input is the end of the stream.

Choices the code forces, which the model keeps:

- A negative length after `$` or `*` makes Go's `make` panic. The model
  returns the error `NegativeLength(n)` in its place. So `$-1\r\n`, which is
  the encoder's own null bulk string, is refused by the decoder
  (`ParserProperties.NullBulkStringRefused`). The RESP protocol reads that
  input as a null value; this code does not.
- The result of `io.ReadFull` is not checked. A body shorter than its
  length line is padded with zero bytes, and nothing is left after it.
- The `ReadLine` after a bulk payload is not checked either. Whatever
  stands between the payload and the next line feed is dropped.
- `NewError` builds a simple string, so its replies start with `+`.
- The replies for a wrong ECHO arity and for an unknown command are simple
  strings (`+...`), not RESP errors (`-...`).
- The server dispatches only PING and ECHO. Nothing here handles GET or
  SET. The store is not called from the reply generator.

## Model

| member | source | states |
|---|---|---|
| `Parser.ResponseString` | internal/parser/parser.go:31-45 | every encodable value is written as its type byte (`+`, `-` or `$`), a body, and a closing CRLF |
| `Parser.NewBulkString` | internal/parser/parser.go:40-49 | the bulk string built from the given bytes is written as `$`, their count in decimal, CRLF, the bytes themselves and CRLF |
| `Parser.NewSimpleString` | internal/parser/parser.go:34-52 | the simple string built from the given text is written as `+`, the text and CRLF |
| `Parser.NewError` | internal/parser/parser.go:53-55 | builds a simple string, not an error value, so its encoding starts with `+` |
| `Parser.ReadLength` | internal/parser/parser.go:76-83 | reading a number line consumes at least one byte on success |
| `Parser.Parse` | internal/parser/parser.go:57-129 | a successful decode consumes at least the type byte; what it returns as left over is a suffix of the input (`ParserProperties.ParseLeavesSuffix`) |
| `Parser.ParseSimpleString` | internal/parser/parser.go:66-73 | after `+`, the decode never returns more input than it was given |
| `Parser.ParseInteger` | internal/parser/parser.go:74-85 | after `:`, the decode never returns more input than it was given |
| `Parser.ParseBulkString` | internal/parser/parser.go:86-101 | after `$`, the decode never returns more input than it was given |
| `Parser.ParseArray` | internal/parser/parser.go:102-123 | after `*`, the decode never returns more input than it was given |
| `Parser.ParseElements` | internal/parser/parser.go:112-121 | n elements read in a row give exactly n values and leave no more input than they started with |
| `Parser.ParseInput` | internal/parser/parser.go:57-129 | the imperative decoder returns the value or the error of `Parse` on the reader's unread input, and leaves the reader where `Parse` stops |
| `Parser.ReadLengthLine` | internal/parser/parser.go:76-83 | reads one line and converts it with Atoi, agreeing with `ReadLength` |
| `Parser.ReadSimpleString` | internal/parser/parser.go:66-73 | the `+` case of the switch agrees with `ParseSimpleString` |
| `Parser.ReadInteger` | internal/parser/parser.go:74-85 | the `:` case of the switch agrees with `ParseInteger` |
| `Parser.ReadBulkString` | internal/parser/parser.go:86-101 | the `$` case, with its zeroed buffer, unchecked ReadFull and discarded line, agrees with `ParseBulkString` |
| `Parser.ReadArray` | internal/parser/parser.go:102-123 | the `*` case fills the array slot by slot and stops at the first failing element, agreeing with `ParseArray` |
| `Parser.PrintRespMessage` | internal/parser/parser.go:131-153 | the recursive printer with its element loop produces exactly `Render` of the value |
| `Parser.Parser.constructor` | internal/parser/parser.go:159-166 | a new parser has no pending lengths and an empty, incomplete message |
| `Parser.Parser.Reset` | internal/parser/parser.go:155-157 | after Reset the parser is in that initial state again |
| `Bufio.IndexOfLF` | internal/parser/parser.go:68 | finds the first line feed, or the end of the input if there is none |
| `Bufio.SplitLine` | internal/parser/parser.go:68 | ReadLine fails exactly on empty input; otherwise it splits the input into a line without a line feed, a terminator (`\n`, `\r\n`, or nothing at the very end), and the rest |
| `Bufio.ReadLineIff` | internal/parser/parser.go:68 | that split is the only one: ReadLine returns (line, rest) if and only if they split the input as described |
| `Bufio.DiscardLine` | internal/parser/parser.go:98-99 | dropping the rest of a line never grows the input |
| `Bufio.SplitLineLeavesSuffix` | internal/parser/parser.go:68 | what ReadLine leaves is the input with the line and its terminator removed from the front |
| `Bufio.ReadFullLeavesSuffix` | internal/parser/parser.go:96-97 | what ReadFull leaves is the input with the payload bytes removed from the front |
| `Bufio.DiscardLineLeavesSuffix` | internal/parser/parser.go:98-99 | what the discarded ReadLine leaves is a suffix of its input |
| `Bufio.ReadFull` | internal/parser/parser.go:96-97 | the payload has exactly n bytes: the next n bytes if available, otherwise all that is left padded with zeros, with nothing remaining |
| `Bufio.Reader.constructor` | internal/parser/parser.go:57-58 | a reader starts at the front of its input |
| `Bufio.Reader.ReadByte` | internal/parser/parser.go:59-63 | takes the first unread byte, or fails at the end of the input |
| `Bufio.Reader.ReadLine` | internal/parser/parser.go:68-71 | consumes one line as `SplitLine` describes, or fails at the end of the input |
| `Bufio.Reader.ReadFull` | internal/parser/parser.go:96-97 | copies as many unread bytes as fit into the buffer, leaves the rest of the buffer alone, and advances past them |
| `Decimal.Atoi` | internal/parser/parser.go:80-83 | a number accepted by strconv.Atoi is a non-empty text, a lone sign is refused, and only a leading `-` gives a negative value; its full language is `Decimal.AtoiSomeIff` and its inverse `Decimal.AtoiFormatInt` |
| `Decimal.DigitByte` | internal/parser/parser.go:44 | a digit below ten is written as a decimal digit byte |
| `Decimal.FormatNat` | internal/parser/parser.go:44 | `%d` of a natural number is a non-empty run of digits without a leading zero |
| `Decimal.FormatInt` | internal/parser/parser.go:44 | `%d` of an integer never contains CR or LF |
| `Decimal.DigitsValueOfFormatNat` | internal/parser/parser.go:44 | the digits written for n have the value n |
| `Decimal.AtoiFormatInt` | internal/parser/parser.go:80-84 | Atoi reads back every integer `%d` writes |
| `Decimal.AtoiPlusSign` | internal/parser/parser.go:80-84 | Atoi also accepts a leading `+` |
| `Decimal.AtoiSomeIff` | internal/parser/parser.go:80-83 | Atoi succeeds exactly on an optional sign followed by one or more digits |
| `ParserProperties.SplitLineCRLF` | internal/parser/parser.go:68 | a line without a line feed followed by CRLF is read back whole, leaving what follows |
| `ParserProperties.ReadLengthCRLF` | internal/parser/parser.go:76-83 | a CRLF-terminated number line gives Atoi's value, or InvalidInteger when Atoi fails |
| `ParserProperties.ReadLengthNat` | internal/parser/parser.go:88-95 | a length line written with `%d` gives back that length |
| `ParserProperties.ParseTag` | internal/parser/parser.go:59-65 | the type byte selects the simple-string, integer, bulk-string or array reading |
| `ParserProperties.SimpleStringRoundTrip` | internal/parser/parser.go:34-36 | decoding `+s\r\n` followed by anything gives s and leaves what follows, when s has no line feed |
| `ParserProperties.SimpleStringRoundTripIff` | internal/parser/parser.go:66-73 | encoding then decoding a simple string gives it back with nothing left over if and only if it has no line feed |
| `ParserProperties.UnterminatedSimpleString` | internal/parser/parser.go:66-73 | `+OK` with no terminator still decodes to OK |
| `ParserProperties.IntegerLine` | internal/parser/parser.go:74-85 | `:line\r\n` decodes to the signed decimal of the line, and a non-numeric line is an error |
| `ParserProperties.IntegerRoundTrip` | internal/parser/parser.go:74-85 | every integer written in decimal after `:` decodes to itself |
| `ParserProperties.DiscardLineThrough` | internal/parser/parser.go:98-99 | the discarded rest of a line ends at its line feed |
| `ParserProperties.BulkStringPayload` | internal/parser/parser.go:86-101 | `$N\r\n` takes exactly the next N bytes, CR and LF among them, and drops the rest of the following line |
| `ParserProperties.BulkStringRoundTrip` | internal/parser/parser.go:40-45 | decoding the encoding of any non-nil bulk string gives it back and leaves the following input |
| `ParserProperties.BulkStringShortBody` | internal/parser/parser.go:96-97 | a body shorter than its length is zero-padded, not an error |
| `ParserProperties.BulkStringBadLength` | internal/parser/parser.go:92-95 | a non-numeric length line is an error |
| `ParserProperties.NullBulkStringRefused` | internal/parser/parser.go:96 | the encoder's own null bulk string `$-1\r\n` is refused with a negative length |
| `ParserProperties.ErrorReplyRefused` | internal/parser/parser.go:124-127 | an encoded error value is refused as an unexpected token `-` |
| `ParserProperties.ParseRefuses` | internal/parser/parser.go:59-63 | empty input is the end of the stream, and a type byte other than `+ : $ *` is an unexpected token |
| `ParserProperties.NewStringsDecode` | internal/parser/parser.go:31-52 | the values NewBulkString builds, and those NewSimpleString builds from text without a line feed, decode from their encodings and leave whatever follows |
| `ParserProperties.SelfDelimitingRoundTrip` | internal/parser/parser.go:31-45 | each bulk string and each simple string without a line feed decodes from its encoding, whatever follows |
| `ParserProperties.ParseElementsCons` | internal/parser/parser.go:114-121 | reading several elements reads the first, then the others from where it stopped |
| `ParserProperties.ParseElementsFails` | internal/parser/parser.go:115-119 | an element that fails makes the whole reading fail with its error |
| `ParserProperties.ArrayAfterCount` | internal/parser/parser.go:102-123 | after a count line, an array is its elements read one by one |
| `ParserProperties.ElementsRoundTrip` | internal/parser/parser.go:114-121 | encoded values read one after another come back in order, each taking only its own bytes |
| `ParserProperties.ArrayRoundTrip` | internal/parser/parser.go:102-123 | `*N\r\n` followed by N encoded values decodes to the array of those values, in order |
| `ParserProperties.ElementsErrorPropagates` | internal/parser/parser.go:114-121 | valid encoded values followed by an element that fails: reading those values and that element fails with the element's error, the values read before it dropped |
| `ParserProperties.ElementsErrorMore` | internal/parser/parser.go:114-121 | a reading of k elements that fails still fails, with the same error, when more than k elements are asked for |
| `ParserProperties.ElementsFailAt` | internal/parser/parser.go:114-121 | a count larger than the number of valid values ahead of a failing element fails with that element's error |
| `ParserProperties.ArrayAfterTagFails` | internal/parser/parser.go:102-123 | after `*N\r\n`, a failing element reading is the error of the whole decode |
| `ParserProperties.ArrayElementError` | internal/parser/parser.go:102-121 | an array whose count reaches past its valid elements to one that fails decodes to that element's error |
| `ParserProperties.ParseLeavesSuffix` | internal/parser/parser.go:57-129 | the decoder only consumes: on success, what it leaves is the input with a prefix removed, so the stream stands at the start of the next value |
| `ParserProperties.ReadLengthLeavesSuffix` | internal/parser/parser.go:76-83 | a number line leaves the input after that line |
| `ParserProperties.BulkLeavesSuffix` | internal/parser/parser.go:86-101 | after `$`, what is left follows the length line, the payload and the discarded line |
| `ParserProperties.ArrayLeavesSuffix` | internal/parser/parser.go:102-123 | after `*`, what is left follows the count line and every element |
| `ParserProperties.ElementsLeaveSuffix` | internal/parser/parser.go:114-121 | reading n elements in a row leaves a suffix of the input |
| `ParserProperties.TestSimpleString` | internal/parser/parser_test.go:16-21 | `+OK\r\n` decodes to the simple string OK |
| `ParserProperties.TestInteger` | internal/parser/parser_test.go:22-27 | `:1000\r\n` decodes to 1000 |
| `ParserProperties.TestBulkString` | internal/parser/parser_test.go:28-33 | `$6\r\nfoobar\r\n` decodes to foobar |
| `ParserProperties.TestInvalidType` | internal/parser/parser_test.go:52-57 | `@Invalid\r\n` is an unexpected token |
| `Parser.Join` | internal/parser/parser.go:149 | strings.Join of no texts is empty, and otherwise starts with the first text |
| `ParserProperties.JoinAppend` | internal/parser/parser.go:149 | joining two non-empty lists puts one separator between their joins |
| `ParserProperties.RenderAllAppend` | internal/parser/parser.go:145-148 | rendering the elements of two lists joined is rendering each, in order |
| `ParserProperties.RenderArrayAppend` | internal/parser/parser.go:144-149 | the printed array keeps its elements' order: two arrays joined print as their two inner texts joined by `, ` |
| `ParserProperties.RenderSingleton` | internal/parser/parser.go:139-149 | a one-element array prints as that element in brackets; the nil bulk string prints `BulkString: (nil)` |
| `Bytes.ToUpper` | internal/server/server.go:70 | upper-casing keeps the length and leaves no lower-case letter |
| `Bytes.ToUpperMatchesIff` | internal/server/server.go:70 | the upper-cased text equals an upper-case name if and only if the text spells the name in any mix of cases |
| `Server.GenerateResponse` | internal/server/server.go:66-82 | PING in any case gets the encoding of simple string PONG; ECHO with one argument gets exactly the bulk-string encoding of that argument; ECHO with another arity gets the usage simple string; any other command gets UNSUPPORTED |
| `Server.EchoReplyDecodes` | internal/server/server.go:73-78 | a client decoding the ECHO reply gets back exactly the argument with nothing left over |
| `Server.StatusRepliesDecode` | internal/server/server.go:70-81 | every other reply decodes as one simple string: PONG, the ECHO usage text or UNSUPPORTED |
| `Server.PingAnswered` | internal/server/server.go:70-72 | a request of PING alone, in any mix of cases, is answered `+PONG\r\n` |
| `Server.PingInAnyCase` | internal/server/server.go:70-72 | `ping`, `PING` and `PiNg` are all answered `+PONG\r\n` |
| `Server.EchoHey` | test/integration_test.go:34-54 | `ECHO HEY` is answered `$3\r\nHEY\r\n` |
| `Server.ReplyTexts` | internal/server/server.go:72-80 | the literal replies are the simple-string encodings of PONG, the usage text and UNSUPPORTED |
| `Storage.InMemoryDB.constructor` | internal/storage/storage.go:12-17 | a new store has no keys |
| `Storage.InMemoryDB.WriteValue` | internal/storage/storage.go:19-21 | the key now holds the value, overwriting any earlier one, and every other key reads as before |
| `Storage.InMemoryDB.GetValue` | internal/storage/storage.go:23-26 | a stored key gives its value and true; a missing key gives `<nil>` and false; nothing changes |
| `Storage.ReplayUnwritten` | internal/storage/storage.go:12-26 | after any writes starting from a new store, a key never written reads as missing |
| `Storage.ReplayLastWrite` | internal/storage/storage.go:19-26 | after any writes, a key reads as the value of its last write, whatever was written to other keys |
| `Storage.LastWriteWins` | internal/storage/storage.go:19-21 | of two writes to one key, the later one wins |

## Left out

- `StartServer` and `handleRequest` (internal/server/server.go:14-64): TCP accept, a goroutine per connection, logging and `os.Exit` are I/O and concurrency. `handleRequest` also calls a `ReadNext` method that the parser no longer has.
- The concurrency of `sync.Map`: the store is modelled as a sequential map, and no atomicity is claimed.
- `ResponseString` of arrays and integers panics in the source; `Parser.ResponseString` excludes them by its precondition.
- Negative lengths after `$` and `*` panic in the source; they are the error `NegativeLength` here.
- The `isPrefix` result of `ReadLine` for lines longer than the reader's buffer, and the buffering lost when each top-level `ParseInput` wraps its reader anew, are buffer internals of `bufio`.
- A `nil` array value and the `Unknown type` branch of `PrintRespMessage` are left out: no decoded value is ever `nil`.
- `Decimal.Atoi`: unbounded integers; the 64-bit range error of `strconv.Atoi` is not modelled.
- `Bytes.ToUpper`: ASCII letters only. Go's `strings.ToUpper` is Unicode-aware, so a non-ASCII spelling such as a dotless `ı` in `pıng` is not modelled.
- The `Tokens` and `Completed` record of internal/message/message.go is modelled only as far as `NewParser` and `generateResponse` use it. `Message.NewMessage` is the empty record that `NewParser` starts from; it carries no property of its own.
- Parser.NewBulkString: Go's `NewBulkString(nil)` returns the nil bulk string, which is written `$-1\r\n` (internal/parser/parser.go:41-42, 47-49). A Dafny sequence cannot be nil, so the model never builds the nil bulk string from it; the nil bulk string is only the separate value `NullBulk`.
