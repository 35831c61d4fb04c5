/** Machine integers as bounded mathematical integers, and the little-endian forms
    that the EIR codec, the attribute database and MD5 all use. */
module Bytes {

  type byte = x: int | 0 <= x < 0x100
  type u16 = x: int | 0 <= x < 0x1_0000
  type u32 = x: int | 0 <= x < 0x1_0000_0000

  datatype Option<+T> = None | Some(value: T) {
    predicate IsFailure() {
      None?
    }

    function PropagateFailure<U>(): Option<U>
      requires None?
    {
      None
    }

    function Extract(): T
      requires Some?
    {
      value
    }
  }

  function Le16(v: u16): (s: seq<byte>)
    ensures |s| == 2
  {
    [v % 0x100, v / 0x100]
  }

  function GetLe16(lo: byte, hi: byte): u16 {
    lo + hi * 0x100
  }

  function GetLe32(b0: byte, b1: byte, b2: byte, b3: byte): u32 {
    b0 + b1 * 0x100 + b2 * 0x1_0000 + b3 * 0x100_0000
  }

  function Reversed(s: seq<byte>): (r: seq<byte>)
    ensures |r| == |s|
  {
    if s == [] then [] else Reversed(s[1..]) + [s[0]]
  }

  lemma {:induction false} ReversedAt(s: seq<byte>, k: nat)
    requires k < |s|
    ensures Reversed(s)[k] == s[|s| - 1 - k]
  {
    if k < |s| - 1 {
      ReversedAt(s[1..], k);
    }
  }

  lemma ReversedTwice(s: seq<byte>)
    ensures Reversed(Reversed(s)) == s
  {
    forall k | 0 <= k < |s|
      ensures Reversed(Reversed(s))[k] == s[k]
    {
      ReversedAt(Reversed(s), k);
      ReversedAt(s, |s| - 1 - k);
    }
  }

  lemma SubSlice(a: array<byte>, p: nat, len: nat, i: nat, j: nat)
    requires p + len <= a.Length && i <= j <= len
    ensures a[p..p + len][i..j] == a[p + i..p + j]
  {
    var s, t := a[p..p + len][i..j], a[p + i..p + j];
    forall k | 0 <= k < j - i
      ensures s[k] == t[k]
    {
    }
  }

  lemma TailSlice(m: seq<byte>, base: nat, i: nat, j: nat)
    requires base <= |m| && i <= j <= |m| - base
    ensures m[base..][i..j] == m[base + i..base + j]
  {
    var s, t := m[base..][i..j], m[base + i..base + j];
    forall k | 0 <= k < j - i
      ensures s[k] == t[k]
    {
    }
  }

  lemma Join(m: seq<byte>, i: nat, j: nat, k: nat)
    requires i <= j <= k <= |m|
    ensures m[i..j] + m[j..k] == m[i..k]
  {
  }

  /** memcpy of a value into an array. */
  method Memcpy(dst: array<byte>, at: nat, src: seq<byte>)
    requires at + |src| <= dst.Length
    modifies dst
    ensures dst[at..at + |src|] == src
    ensures forall k :: 0 <= k < at || at + |src| <= k < dst.Length ==> dst[k] == old(dst[k])
  {
    for i := 0 to |src|
      invariant dst[at..at + i] == src[..i]
      invariant forall k :: 0 <= k < at || at + |src| <= k < dst.Length ==> dst[k] == old(dst[k])
    {
      dst[at + i] := src[i];
      assert dst[at..at + i + 1] == dst[at..at + i] + [src[i]];
      assert src[..i + 1] == src[..i] + [src[i]];
    }
  }
}
