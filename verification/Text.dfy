/** Hexadecimal text as printf prints it, and fixed text as it is found again. */
module Text {
  import opened Bytes

  predicate IsHexDigit(c: char) {
    '0' <= c <= '9' || 'a' <= c <= 'f' || 'A' <= c <= 'F'
  }

  function DigitValue(c: char): (v: nat)
    requires IsHexDigit(c)
    ensures v < 16
  {
    if c <= '9' then c as int - '0' as int
    else if c >= 'a' then c as int - 'a' as int + 10
    else c as int - 'A' as int + 10
  }

  function Digit(v: nat): (c: char)
    requires v < 16
    ensures IsHexDigit(c) && !('A' <= c <= 'F') && DigitValue(c) == v
  {
    if v < 10 then ('0' as int + v) as char else ('a' as int + (v - 10)) as char
  }

  /** "%02x" of a byte. */
  function HexByte(b: byte): (s: string)
    ensures |s| == 2
  {
    [Digit(b / 16), Digit(b % 16)]
  }

  /** "%04x" of a 16-bit value. */
  function Hex16(v: u16): (s: string)
    ensures |s| == 4
  {
    HexByte(v / 0x100) + HexByte(v % 0x100)
  }

  /** "%02x" of each byte in turn. */
  function HexBytes(bs: seq<byte>): (s: string)
    ensures |s| == 2 * |bs|
  {
    if bs == [] then [] else HexBytes(bs[..|bs| - 1]) + HexByte(bs[|bs| - 1])
  }

  /** The value of a run of hexadecimal digits. */
  function HexValue(s: string): nat
    requires forall k :: 0 <= k < |s| ==> IsHexDigit(s[k])
  {
    if s == [] then 0 else 16 * HexValue(s[..|s| - 1]) + DigitValue(s[|s| - 1])
  }

  lemma HexByteValue(b: byte)
    ensures HexValue(HexByte(b)) == b
  {
    var s := HexByte(b);
    assert s[..1] == [s[0]] && s[..1][..0] == [];
    assert HexValue(s[..1]) == b / 16;
  }

  lemma Hex16Value(v: u16)
    ensures (forall k :: 0 <= k < 4 ==> IsHexDigit(Hex16(v)[k])) && HexValue(Hex16(v)) == v
  {
    var s, t := Hex16(v), HexByte(v / 0x100);
    assert s[..3][..2] == t && s[..3] == t + [s[2]];
    HexByteValue(v / 0x100);
    assert HexValue(s[..3]) == 16 * HexValue(t) + v % 0x100 / 16;
  }

  /** A hexadecimal digest can be read back byte by byte. */
  lemma {:induction false} HexBytesAt(bs: seq<byte>, i: nat)
    requires i < |bs|
    ensures HexBytes(bs)[2 * i..2 * i + 2] == HexByte(bs[i])
  {
    var n := |bs| - 1;
    var s, t := HexBytes(bs[..n]), HexByte(bs[n]);
    assert HexBytes(bs) == s + t;
    if i < n {
      HexBytesAt(bs[..n], i);
      assert (s + t)[2 * i..2 * i + 2] == s[2 * i..2 * i + 2];
    } else {
      assert (s + t)[2 * n..2 * n + 2] == t;
    }
  }

  /** Fixed text in front, and what follows it. */
  function ScanLiteral(s: string, literal: string): Option<string> {
    if literal <= s then Some(s[|literal|..]) else None
  }

  lemma LiteralOf(literal: string, rest: string)
    ensures ScanLiteral(literal + rest, literal) == Some(rest)
  {
    assert (literal + rest)[|literal|..] == rest;
  }
}
