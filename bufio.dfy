/** The reads `ParseInput` makes on a buffered reader (`bufio.Reader`) and
    `io.ReadFull`, over the bytes that have not been consumed yet. */
module Bufio {
  import opened Wrappers
  import opened Bytes

  /** Position of the first line feed in `s`, or |s| if there is none. */
  function IndexOfLF(s: Bytes): (k: nat)
    ensures k <= |s|
    ensures k < |s| ==> s[k] == LF
    ensures forall j :: 0 <= j < k ==> s[j] != LF
  {
    if s == [] then 0 else if s[0] == LF then 0 else 1 + IndexOfLF(s[1..])
  }

  /** One line and what follows it, as `ReadLine` splits `s`: the line has
      no line feed, and it is followed by `\n` (with no `\r` right before
      it), by `\r\n`, or, for a final unterminated line, by nothing. */
  predicate LineSplit(s: Bytes, line: Bytes, rest: Bytes)
  {
    LF !in line &&
    ((s == line + [LF] + rest && (line == [] || line[|line| - 1] != CR)) ||
     s == line + CRLF + rest ||
     (s == line && line != [] && rest == []))
  }

  /** `bufio.Reader.ReadLine`: None is io.EOF, returned when no byte is
      left. */
  function SplitLine(s: Bytes): (r: Option<(Bytes, Bytes)>)
    ensures r.None? <==> s == []
    ensures r.Some? ==> LineSplit(s, r.value.0, r.value.1) && |r.value.1| < |s|
  {
    if s == [] then None
    else
      var k := IndexOfLF(s);
      if k == |s| then Some((s, []))
      else if k > 0 && s[k - 1] == CR then
        assert s == s[..k - 1] + CRLF + s[k + 1..];
        Some((s[..k - 1], s[k + 1..]))
      else
        assert s == s[..k] + [LF] + s[k + 1..];
        Some((s[..k], s[k + 1..]))
  }

  /** SplitLine returns exactly the splits LineSplit allows: there is one
      per non-empty input. */
  lemma {:induction false} ReadLineIff(s: Bytes, line: Bytes, rest: Bytes)
    ensures SplitLine(s) == Some((line, rest)) <==> LineSplit(s, line, rest)
  {
    if LineSplit(s, line, rest) {
      var k := IndexOfLF(s);
      assert forall j :: 0 <= j < |line| ==> s[j] == line[j];
      if s == line + [LF] + rest {
        assert s[|line|] == LF;
        assert k == |line|;
        assert s[..k] == line && s[k + 1..] == rest;
      } else if s == line + CRLF + rest {
        assert s[|line| + 1] == LF;
        assert s[|line|] == CR;
        assert k == |line| + 1;
        assert s[..k - 1] == line && s[k + 1..] == rest;
      } else {
        assert k == |s|;
      }
    }
  }

  /** The remainder of the current line is dropped, the `ReadLine` whose
      result is ignored; at the end of input nothing is left. */
  function DiscardLine(s: Bytes): (r: Bytes)
    ensures |r| <= |s|
  {
    match SplitLine(s)
    case None => []
    case Some((_, rest)) => rest
  }

  function Zeros(n: nat): Bytes
  {
    seq(n, _ => 0)
  }

  /** `io.ReadFull` into a fresh zeroed slice of n bytes whose error is
      ignored: the bytes that are available, padded with zeros to n, and
      the input after them. */
  function ReadFull(s: Bytes, n: nat): (r: (Bytes, Bytes))
    ensures |r.0| == n
    ensures n <= |s| ==> r.0 + r.1 == s && r.0 == s[..n]
    ensures n > |s| ==> r.0 == s + Zeros(n - |s|) && r.1 == []
  {
    var k := Min(n, |s|);
    (s[..k] + Zeros(n - k), s[k..])
  }

  /** ReadLine leaves the input after the line and its terminator. */
  lemma SplitLineLeavesSuffix(s: Bytes)
    ensures SplitLine(s).Some? ==> IsSuffix(SplitLine(s).value.1, s)
  {
  }

  /** ReadFull leaves the input after the bytes it took. */
  lemma ReadFullLeavesSuffix(s: Bytes, n: nat)
    ensures IsSuffix(ReadFull(s, n).1, s)
  {
  }

  /** DiscardLine leaves the input after the line it dropped. */
  lemma DiscardLineLeavesSuffix(s: Bytes)
    ensures IsSuffix(DiscardLine(s), s)
  {
    SplitLineLeavesSuffix(s);
  }

  /** The reader whose cursor `ParseInput` advances: `rest` holds the
      bytes not yet consumed. */
  class Reader {
    var rest: Bytes

    constructor (input: Bytes)
      ensures rest == input
    {
      rest := input;
    }

    /** `ReadByte`: None is io.EOF. */
    method ReadByte() returns (b: Option<byte>)
      modifies this
      ensures old(rest) == [] ==> b == None && rest == []
      ensures old(rest) != [] ==> b == Some(old(rest)[0]) && rest == old(rest)[1..]
    {
      if rest == [] {
        b := None;
      } else {
        b := Some(rest[0]);
        rest := rest[1..];
      }
    }

    method ReadLine() returns (line: Option<Bytes>)
      modifies this
      ensures old(rest) == [] ==> line == None && rest == []
      ensures old(rest) != [] ==> line.Some? && LineSplit(old(rest), line.value, rest)
      ensures old(rest) != [] ==> SplitLine(old(rest)) == Some((line.value, rest))
    {
      var split := SplitLine(rest);
      if split.None? {
        line := None;
      } else {
        line := Some(split.value.0);
        rest := split.value.1;
      }
    }

    /** `io.ReadFull(reader, buf)`: fills the front of buf with as many
        bytes as are left, up to its length, and leaves the rest of buf
        as it was. */
    method ReadFull(buf: array<byte>) returns (count: nat)
      modifies this, buf
      ensures count == Min(buf.Length, |old(rest)|)
      ensures buf[..count] == old(rest)[..count]
      ensures buf[count..] == old(buf[count..])
      ensures rest == old(rest)[count..]
    {
      count := Min(buf.Length, |rest|);
      forall i | 0 <= i < count {
        buf[i] := rest[i];
      }
      rest := rest[count..];
    }
  }
}
