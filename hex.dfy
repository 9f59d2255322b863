/**
  Lowercase hexadecimal encoding of digest bytes, as the client builds it
  byte by byte (`b.toString(16).padStart(2, "0")`, joined) and as the
  server's `digest('hex')` produces it.
 */
module HexEncoding {
  import opened Basics

  /** A character of `0123456789abcdef`. */
  predicate IsHexDigit(c: char) {
    '0' <= c <= '9' || 'a' <= c <= 'f'
  }

  /** The digit of a value below sixteen, in lower case. */
  function HexDigit(n: nat): (c: char)
    requires n < 16
    ensures IsHexDigit(c)
  {
    if n < 10 then ('0' as int + n) as char else ('a' as int + n - 10) as char
  }

  /** The value of one lowercase hex digit. */
  function DigitValue(c: char): (n: nat)
    requires IsHexDigit(c)
    ensures n < 16 && HexDigit(n) == c
  {
    if '0' <= c <= '9' then c as int - '0' as int else c as int - 'a' as int + 10
  }

  lemma DigitValueOfDigit(n: nat)
    requires n < 16
    ensures DigitValue(HexDigit(n)) == n
  {
  }

  /** The two digits of a byte read back give the byte. */
  lemma ByteDigits(b: uint8)
    ensures DigitValue(HexDigit(b / 16)) * 16 + DigitValue(HexDigit(b % 16)) == b
  {
    DigitValueOfDigit(b / 16);
    DigitValueOfDigit(b % 16);
  }

  /** `n.toString(16)`: the base-16 numeral of `n`, no leading zeros. */
  function ToBase16(n: nat): (r: string)
    ensures 1 <= |r|
    ensures n < 16 ==> r == [HexDigit(n)]
    ensures 16 <= n < 256 ==> r == [HexDigit(n / 16), HexDigit(n % 16)]
  {
    if n < 16 then [HexDigit(n)] else ToBase16(n / 16) + [HexDigit(n % 16)]
  }

  /** `s.padStart(len, c)`: `c` repeated in front of `s` up to length `len`. */
  function PadStart(s: string, len: nat, c: char): (r: string)
    ensures |r| == if |s| < len then len else |s|
    ensures r[|r| - |s|..] == s
    ensures forall i :: 0 <= i < |r| - |s| ==> r[i] == c
  {
    if |s| < len then seq(len - |s|, _ => c) + s else s
  }

  /** The two characters one byte contributes: high nibble, then low nibble. */
  function HexByte(b: uint8): (r: string)
    ensures r == [HexDigit(b / 16), HexDigit(b % 16)]
  {
    PadStart(ToBase16(b), 2, '0')
  }

  /** The bytes in lowercase hex, two characters per byte. */
  function Hex(bs: seq<uint8>): (r: string)
    ensures |r| == 2 * |bs|
    ensures forall i :: 0 <= i < |r| ==> IsHexDigit(r[i])
  {
    if bs == [] then "" else HexByte(bs[0]) + Hex(bs[1..])
  }

  /** A string of an even number of lowercase hex digits. */
  predicate IsHexString(s: string) {
    |s| % 2 == 0 && forall i :: 0 <= i < |s| ==> IsHexDigit(s[i])
  }

  /** Decodes lowercase hex, two characters per byte. */
  function Unhex(s: string): (r: seq<uint8>)
    requires IsHexString(s)
    ensures |r| == |s| / 2
    decreases |s|
  {
    if s == "" then [] else [DigitValue(s[0]) * 16 + DigitValue(s[1])] + Unhex(s[2..])
  }

  /** Two hex digits in front of a hex string make a hex string. */
  lemma HexStringCons(hi: char, lo: char, rest: string)
    requires IsHexDigit(hi) && IsHexDigit(lo) && IsHexString(rest)
    ensures IsHexString([hi, lo] + rest)
  {
    var h := [hi, lo] + rest;
    forall i | 2 <= i < |h|
      ensures IsHexDigit(h[i])
    {
      assert h[i] == rest[i - 2];
    }
  }

  /** Decoding reads the first two digits as one byte. */
  lemma UnhexFirst(hi: char, lo: char, rest: string)
    requires IsHexDigit(hi) && IsHexDigit(lo) && IsHexString(rest)
    ensures IsHexString([hi, lo] + rest)
    ensures Unhex([hi, lo] + rest) == [DigitValue(hi) * 16 + DigitValue(lo)] + Unhex(rest)
  {
    HexStringCons(hi, lo, rest);
    var h := [hi, lo] + rest;
    assert h[2..] == rest;
  }

  lemma UnhexCons(b: uint8, rest: string)
    requires IsHexString(rest)
    ensures IsHexString(HexByte(b) + rest)
    ensures Unhex(HexByte(b) + rest) == [b] + Unhex(rest)
  {
    var hi, lo := HexDigit(b / 16), HexDigit(b % 16);
    assert HexByte(b) == [hi, lo];
    UnhexFirst(hi, lo, rest);
    ByteDigits(b);
    assert DigitValue(hi) * 16 + DigitValue(lo) == b as int;
  }

  /** Decoding the encoding gives the bytes back, so the encoding loses nothing. */
  lemma {:induction false} UnhexHex(bs: seq<uint8>)
    ensures IsHexString(Hex(bs))
    ensures Unhex(Hex(bs)) == bs
  {
    if bs != [] {
      UnhexHex(bs[1..]);
      UnhexCons(bs[0], Hex(bs[1..]));
      assert bs == [bs[0]] + bs[1..];
    }
  }

  /** Encoding the decoding of a lowercase hex string gives the string back. */
  lemma {:induction false} HexUnhex(s: string)
    requires IsHexString(s)
    ensures Hex(Unhex(s)) == s
    decreases |s|
  {
    if s != "" {
      var bs := Unhex(s);
      assert bs[1..] == Unhex(s[2..]);
      HexUnhex(s[2..]);
      var hi, lo := DigitValue(s[0]), DigitValue(s[1]);
      assert bs[0] / 16 == hi && bs[0] % 16 == lo;
      assert Hex(bs)[..2] == s[..2];
      assert s == s[..2] + s[2..];
    }
  }

  /** Two byte strings with the same hex encoding are equal. */
  /** Different byte strings are told apart by their encodings. */
  lemma HexDistinct(a: seq<uint8>, b: seq<uint8>)
    ensures a != b ==> Hex(a) != Hex(b)
  {
    if Hex(a) == Hex(b) {
      HexInjective(a, b);
    }
  }

  lemma HexInjective(a: seq<uint8>, b: seq<uint8>)
    requires Hex(a) == Hex(b)
    ensures a == b
  {
    UnhexHex(a);
    UnhexHex(b);
  }
}
