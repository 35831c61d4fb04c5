/** Words of 32 bits and their little-endian byte form (RFC 1321, section 2). */
module Md5Words {
  import opened Bytes

  const WORD: nat := 0x1_0000_0000

  function WordBytes(w: u32): (s: seq<byte>)
    ensures |s| == 4
  {
    [w % 0x100, w / 0x100 % 0x100, w / 0x1_0000 % 0x100, w / 0x100_0000]
  }

  /** The bytes of a word array, four a word. */
  function BytesOf(ws: seq<u32>): (s: seq<byte>)
    ensures |s| == 4 * |ws|
  {
    if ws == [] then [] else BytesOf(ws[..|ws| - 1]) + WordBytes(ws[|ws| - 1])
  }

  /** The words of a byte array, one for each four bytes. */
  function WordsOf(s: seq<byte>): (ws: seq<u32>)
    requires |s| % 4 == 0
    ensures |ws| == |s| / 4
  {
    if s == [] then []
    else
      var n := |s| - 4;
      WordsOf(s[..n]) + [GetLe32(s[n], s[n + 1], s[n + 2], s[n + 3])]
  }

  lemma WordBack(w: u32)
    ensures var s := WordBytes(w); GetLe32(s[0], s[1], s[2], s[3]) == w
  {
    var q := w / 0x100;
    assert w / 0x1_0000 == q / 0x100 && w / 0x100_0000 == q / 0x100 / 0x100;
  }

  lemma BytesBack(b0: byte, b1: byte, b2: byte, b3: byte)
    ensures WordBytes(GetLe32(b0, b1, b2, b3)) == [b0, b1, b2, b3]
  {
    var w := GetLe32(b0, b1, b2, b3);
    assert w / 0x100 == b1 + 0x100 * b2 + 0x1_0000 * b3;
    assert w / 0x1_0000 == b2 + 0x100 * b3;
  }

  lemma BytesOfSnoc(ws: seq<u32>, w: u32)
    ensures BytesOf(ws + [w]) == BytesOf(ws) + WordBytes(w)
  {
    assert (ws + [w])[..|ws|] == ws;
  }

  lemma WordsOfSnoc(s: seq<byte>, t: seq<byte>)
    requires |s| % 4 == 0 && |t| == 4
    ensures WordsOf(s + t) == WordsOf(s) + [GetLe32(t[0], t[1], t[2], t[3])]
  {
    assert (s + t)[..|s|] == s;
  }

  lemma NoWords()
    ensures BytesOf([]) == [] && WordsOf([]) == []
  {
  }

  lemma DecodeEncodeSnoc(ws: seq<u32>, w: u32)
    requires WordsOf(BytesOf(ws)) == ws
    ensures WordsOf(BytesOf(ws + [w])) == ws + [w]
  {
    hide WordBytes, GetLe32, BytesOf, WordsOf;
    BytesOfSnoc(ws, w);
    WordsOfSnoc(BytesOf(ws), WordBytes(w));
    WordBack(w);
  }

  /** Decode undoes Encode. */
  lemma {:induction false} DecodeEncode(ws: seq<u32>)
    ensures WordsOf(BytesOf(ws)) == ws
  {
    hide BytesOf, WordsOf;
    if ws == [] {
      NoWords();
    } else {
      var n := |ws| - 1;
      DecodeEncode(ws[..n]);
      DecodeEncodeSnoc(ws[..n], ws[n]);
      assert ws == ws[..n] + [ws[n]];
    }
  }

  lemma EncodeDecodeSnoc(s: seq<byte>, t: seq<byte>)
    requires |s| % 4 == 0 && |t| == 4 && BytesOf(WordsOf(s)) == s
    ensures BytesOf(WordsOf(s + t)) == s + t
  {
    hide WordBytes, GetLe32, BytesOf, WordsOf;
    WordsOfSnoc(s, t);
    BytesOfSnoc(WordsOf(s), GetLe32(t[0], t[1], t[2], t[3]));
    BytesBack(t[0], t[1], t[2], t[3]);
    assert t == [t[0], t[1], t[2], t[3]];
  }

  /** Encode undoes Decode. */
  lemma {:induction false} EncodeDecode(s: seq<byte>)
    requires |s| % 4 == 0
    ensures BytesOf(WordsOf(s)) == s
  {
    hide BytesOf, WordsOf;
    if s == [] {
      NoWords();
    } else {
      var n := |s| - 4;
      EncodeDecode(s[..n]);
      EncodeDecodeSnoc(s[..n], s[n..]);
      assert s == s[..n] + s[n..];
    }
  }

  method Encode(output: array<byte>, input: array<u32>, len: nat)
    requires len % 4 == 0 && len <= output.Length && len / 4 <= input.Length
    modifies output
    ensures output[..len] == BytesOf(old(input[..len / 4]))
    ensures forall k :: len <= k < output.Length ==> output[k] == old(output[k])
  {
    hide BytesOf;
    assert BytesOf(input[..0]) == [] by { assert |BytesOf(input[..0])| == 0; }
    var i, j := 0, 0;
    while j < len
      invariant j == 4 * i <= len
      invariant output[..j] == BytesOf(input[..i])
      invariant forall k :: len <= k < output.Length ==> output[k] == old(output[k])
    {
      ghost var done := output[..j];
      output[j] := input[i] % 0x100;
      output[j + 1] := input[i] / 0x100 % 0x100;
      output[j + 2] := input[i] / 0x1_0000 % 0x100;
      output[j + 3] := input[i] / 0x100_0000 % 0x100;
      BytesOfSnoc(input[..i], input[i]);
      assert input[..i + 1] == input[..i] + [input[i]];
      assert output[..j + 4] == done + WordBytes(input[i]);
      i, j := i + 1, j + 4;
    }
  }

  method Decode(output: array<u32>, input: array<byte>, at: nat, len: nat)
    requires len % 4 == 0 && at + len <= input.Length && len / 4 <= output.Length
    modifies output
    ensures output[..len / 4] == WordsOf(old(input[at..at + len]))
  {
    hide WordsOf, GetLe32;
    ghost var s := input[at..at + len];
    var i, j := 0, 0;
    assert WordsOf(s[..0]) == [] by { assert |WordsOf(s[..0])| == 0; }
    while j < len
      invariant j == 4 * i <= len
      invariant s == input[at..at + len]
      invariant output[..i] == WordsOf(s[..j])
    {
      ghost var words, t := output[..i], s[j..j + 4];
      assert t == [input[at + j], input[at + j + 1], input[at + j + 2], input[at + j + 3]];
      output[i] := GetLe32(input[at + j], input[at + j + 1], input[at + j + 2], input[at + j + 3]);
      assert output[..i + 1] == words + [output[i]];
      WordsOfSnoc(s[..j], t);
      assert s[..j + 4] == s[..j] + t;
      i, j := i + 1, j + 4;
    }
    assert s[..len] == s;
  }
}
