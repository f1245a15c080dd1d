/** Go strings and byte slices as sequences of bytes, with the ASCII
    facilities of the Go standard library that the server uses. */
module Bytes {

  newtype byte = x: int | 0 <= x < 256

  type Bytes = seq<byte>

  const LF: byte := 10
  const CR: byte := 13
  const CRLF: Bytes := [CR, LF]

  /** The byte an ASCII character literal stands for. */
  function Byte(c: char): byte
  {
    (c as int % 256) as byte
  }

  /** The bytes of an ASCII string literal, as Go stores it. */
  function Str(s: string): Bytes
  {
    seq(|s|, i requires 0 <= i < |s| => Byte(s[i]))
  }

  /** A line of ASCII text other than a line feed has no LF byte. */
  lemma StrWithoutNewline(s: string)
    requires forall i :: 0 <= i < |s| ==> s[i] != '\n' && s[i] as int < 256
    ensures LF !in Str(s)
  {
    forall i | 0 <= i < |s|
      ensures Str(s)[i] != LF
    {
    }
  }

  lemma StrAppend(a: string, b: string)
    ensures Str(a + b) == Str(a) + Str(b)
  {
  }

  /** `t` is what remains of `s` once a prefix of it has been consumed. */
  predicate IsSuffix(t: Bytes, s: Bytes)
  {
    |t| <= |s| && t == s[|s| - |t|..]
  }

  /** What remains of what remains of `s` remains of `s`. */
  lemma SuffixTrans(a: Bytes, b: Bytes, c: Bytes)
    requires IsSuffix(a, b) && IsSuffix(b, c)
    ensures IsSuffix(a, c)
  {
    assert c[|c| - |b|..][|b| - |a|..] == c[|c| - |a|..];
  }

  predicate IsLower(b: byte)
  {
    97 <= b <= 122
  }

  predicate IsUpper(b: byte)
  {
    65 <= b <= 90
  }

  /** Upper-casing of one byte, ASCII letters only. */
  function UpperByte(b: byte): byte
  {
    if IsLower(b) then b - 32 else b
  }

  /** strings.ToUpper restricted to ASCII. */
  function ToUpper(s: Bytes): (r: Bytes)
    ensures |r| == |s|
    ensures forall i :: 0 <= i < |s| ==> !IsLower(r[i])
  {
    seq(|s|, i requires 0 <= i < |s| => UpperByte(s[i]))
  }

  /** `t` spells `name` up to the case of its letters: the reference
      definition of a case-insensitive match, independent of ToUpper. */
  predicate EqualsIgnoreCase(t: Bytes, name: Bytes)
  {
    |t| == |name| &&
    forall i :: 0 <= i < |t| ==> t[i] == name[i] || (IsUpper(name[i]) && t[i] == name[i] + 32)
  }

  /** Comparing the upper-cased text with an upper-case name is exactly a
      case-insensitive match. */
  lemma ToUpperMatchesIff(t: Bytes, name: Bytes)
    requires forall i :: 0 <= i < |name| ==> !IsLower(name[i])
    ensures ToUpper(t) == name <==> EqualsIgnoreCase(t, name)
  {
    if EqualsIgnoreCase(t, name) {
      forall i | 0 <= i < |t|
        ensures ToUpper(t)[i] == name[i]
      {
      }
    }
    if ToUpper(t) == name {
      forall i | 0 <= i < |t|
        ensures t[i] == name[i] || (IsUpper(name[i]) && t[i] == name[i] + 32)
      {
        assert UpperByte(t[i]) == name[i];
      }
    }
  }
}
