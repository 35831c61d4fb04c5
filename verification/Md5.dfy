/** Streaming MD5: buffer, bit counter and chaining state against the one-shot digest of RFC 1321. */
module Md5 {
  import opened Bytes
  import opened Md5Words
  import opened Md5Block
  import Text

  const TWO64: nat := 0x1_0000_0000_0000_0000
  const UINT_LIMIT: nat := 0x1_0000_0000

  const INIT_STATE: State := [0x67452301, 0xefcdab89, 0x98badcfe, 0x10325476]

  // ----- the one-shot digest -----

  /** Fold of the block function over whole blocks, from the initial state. */
  ghost function Chain(m: seq<byte>): State
    requires |m| % 64 == 0
  {
    if m == [] then INIT_STATE else Compress(Chain(m[..|m| - 64]), m[|m| - 64..])
  }

  function Zeros(n: nat): (s: seq<byte>)
    ensures |s| == n
  {
    if n == 0 then [] else Zeros(n - 1) + [0]
  }

  function PadLength(n: nat): nat {
    if n % 64 < 56 then 56 - n % 64 else 120 - n % 64
  }

  /** Padding bits: a one bit, then zeros. */
  function Pad(n: nat): (s: seq<byte>)
    ensures |s| == PadLength(n)
  {
    [0x80] + Zeros(PadLength(n) - 1)
  }

  /** The eight length bytes, low-order word first: the number of bits modulo 2^64. */
  function LengthBytes(n: nat): (s: seq<byte>)
    ensures |s| == 8
  {
    BytesOf([8 * n % TWO64 % WORD, 8 * n % TWO64 / WORD])
  }

  /** RFC 1321, sections 3.1 and 3.2. */
  function Padded(m: seq<byte>): (p: seq<byte>)
    ensures |p| % 64 == 0
  {
    m + Pad(|m|) + LengthBytes(|m|)
  }

  ghost function Digest(m: seq<byte>): seq<byte> {
    BytesOf(Chain(Padded(m)))
  }

  lemma ChainExtend(m: seq<byte>, q: nat)
    requires q % 64 == 0 && q + 64 <= |m|
    ensures Chain(m[..q + 64]) == Compress(Chain(m[..q]), m[q..q + 64])
  {
    hide Compress;
    assert m[..q + 64][..q] == m[..q] && m[..q + 64][q..] == m[q..q + 64];
  }

  // ----- what a context holds -----

  /** Context fields after the bytes m: the full blocks are chained, the tail is buffered,
      the two counter words hold the number of bits. */
  ghost predicate Absorbed(state: seq<u32>, count: seq<u32>, buffer: seq<byte>, m: seq<byte>) {
    && |count| == 2 && |buffer| == 64
    && state == Chain(m[..|m| / 64 * 64])
    && buffer[..|m| % 64] == m[|m| / 64 * 64..]
    && count[0] + WORD * count[1] == 8 * |m| % TWO64
  }

  /** The byte position in the buffer is read off the low counter word. */
  lemma BufferIndex(lo: u32, hi: u32, n: nat)
    requires lo + WORD * hi == 8 * n % TWO64
    ensures lo / 8 % 64 == n % 64
  {
    var y := hi + WORD * (8 * n / TWO64);
    assert 8 * n == lo + WORD * y;
    Mod64(n, n - 64 * (WORD / 512 * y), WORD / 512 * y);
  }

  lemma Mod64(n: nat, z: nat, k: nat)
    requires n == z + 64 * k
    ensures n % 64 == z % 64
  {
  }

  /** The split carry: adding the low bits, propagating one carry, adding the high bits is addition modulo 2^64. */
  lemma CounterStep(lo: u32, hi: u32, n: nat, len: nat)
    requires lo + WORD * hi == 8 * n % TWO64 && len < UINT_LIMIT
    ensures var shifted := 8 * len % WORD;
            var lo' := (lo + shifted) % WORD;
            var carried := if lo' < shifted then (hi + 1) % WORD else hi;
            lo' + WORD * ((carried + len / 0x2000_0000) % WORD) == 8 * (n + len) % TWO64
  {
    var shifted, top := 8 * len % WORD, len / 0x2000_0000;
    assert 8 * len == shifted + WORD * top;
    var carry := if lo + shifted >= WORD then 1 else 0;
    var lo' := lo + shifted - carry * WORD;
    assert lo' == (lo + shifted) % WORD && (lo' < shifted <==> carry == 1);
    var sum := hi + carry + top;
    var hi' := sum % WORD;
    assert sum == hi' + WORD * (sum / WORD);
    assert lo + WORD * hi + 8 * len == lo' + WORD * hi' + TWO64 * (sum / WORD);
    var k := 8 * n / TWO64;
    assert 8 * (n + len) == lo' + WORD * hi' + TWO64 * (sum / WORD + k);
    ModUnique(8 * (n + len), lo' + WORD * hi', sum / WORD + k);
    CarryThenAdd(hi, carry, top);
  }

  lemma ModUnique(x: nat, r: nat, k: nat)
    requires x == r + TWO64 * k && r < TWO64
    ensures x % TWO64 == r
  {
  }

  lemma CarryThenAdd(hi: u32, carry: nat, top: nat)
    requires carry <= 1
    ensures ((if carry == 1 then (hi + 1) % WORD else hi) + top) % WORD == (hi + carry + top) % WORD
  {
  }

  lemma NothingAbsorbed(buffer: seq<byte>)
    requires |buffer| == 64
    ensures Absorbed(INIT_STATE, [0, 0], buffer, [])
  {
    hide Compress;
    var m: seq<byte> := [];
    assert m[..|m| / 64 * 64] == [] && m[|m| / 64 * 64..] == [];
    assert Chain([]) == INIT_STATE;
    hide Chain;
  }

  /** Chained up to q, buffered from q on. */
  lemma AbsorbedAt(state: seq<u32>, count: seq<u32>, buffer: seq<byte>, m: seq<byte>, q: nat)
    requires q % 64 == 0 && q <= |m| < q + 64
    requires |count| == 2 && |buffer| == 64 && count[0] + WORD * count[1] == 8 * |m| % TWO64
    requires state == Chain(m[..q]) && buffer[..|m| - q] == m[q..]
    ensures Absorbed(state, count, buffer, m)
  {
    hide Chain;
    assert |m| / 64 * 64 == q && |m| % 64 == |m| - q;
  }

  lemma AbsorbedTail(state: seq<u32>, count: seq<u32>, buffer: seq<byte>, m: seq<byte>) returns (q: nat)
    requires |count| == 2 && |buffer| == 64 && Absorbed(state, count, buffer, m)
    ensures q % 64 == 0 && q <= |m| < q + 64 && |m| - q == count[0] / 8 % 64
    ensures state == Chain(m[..q]) && buffer[..|m| - q] == m[q..]
    ensures count[0] + WORD * count[1] == 8 * |m| % TWO64
  {
    hide Chain;
    q := |m| / 64 * 64;
    BufferIndex(count[0], count[1], |m|);
  }

  // ----- the code -----

  class MD5 {
    const state: array<u32>
    const count: array<u32>
    const buffer: array<byte>
    const digestRaw: array<byte>
    var digestChars: string
    ghost var message: seq<byte>   // what has been absorbed since Init

    ghost predicate Shape() {
      state.Length == 4 && count.Length == 2 && buffer.Length == 64 && digestRaw.Length == 16
      && state != count && buffer != digestRaw
    }

    ghost predicate Ready()
      reads this, state, count, buffer
    {
      Shape() && Absorbed(state[..], count[..], buffer[..], message)
    }

    constructor ()
      ensures Ready() && message == []
      ensures fresh(state) && fresh(count) && fresh(buffer) && fresh(digestRaw)
    {
      state, count := new u32[4], new u32[2];
      buffer, digestRaw := new byte[64], new byte[16];
      digestChars := "";
      new;
      Init();
    }

    method Init()
      requires Shape()
      modifies `message, state, count
      ensures Ready() && message == []
    {
      message := [];
      count[0], count[1] := 0, 0;
      state[0], state[1], state[2], state[3] := 0x67452301, 0xefcdab89, 0x98badcfe, 0x10325476;
      hide Absorbed;
      assert state[..] == INIT_STATE && count[..] == [0, 0];
      NothingAbsorbed(buffer[..]);
    }

    /** The counter statements of Update. */
    method CountBits(inputLen: u32, ghost n: nat)
      requires Shape() && count[0] + WORD * count[1] == 8 * n % TWO64
      modifies count
      ensures count[0] + WORD * count[1] == 8 * (n + inputLen) % TWO64
    {
      CounterStep(count[0], count[1], n, inputLen);
      var shifted := inputLen * 8 % WORD;
      count[0] := (count[0] + shifted) % WORD;
      if count[0] < shifted {
        count[1] := (count[1] + 1) % WORD;
      }
      count[1] := (count[1] + inputLen / 0x2000_0000) % WORD;
    }

    /** The loop over the whole blocks of the input, from position i on. */
    method TransformBlocks(input: array<byte>, inputLen: u32, partLen: u32, ghost base: nat, ghost m: seq<byte>)
      returns (i: u32)
      requires Shape() && inputLen <= input.Length && inputLen <= UINT_LIMIT - 64
      requires partLen <= inputLen && (base + partLen) % 64 == 0
      requires |m| == base + inputLen && m[base..] == input[..inputLen]
      requires state[..] == Chain(m[..base + partLen])
      modifies state
      ensures partLen <= i <= inputLen < i + 64 && (base + i) % 64 == 0
      ensures state[..] == Chain(m[..base + i])
    {
      hide Chain, Compress;
      i := partLen;
      NoWrap(i, inputLen);
      while (i + 63) % UINT_LIMIT < inputLen
        invariant partLen <= i <= inputLen && (base + i) % 64 == 0
        invariant state[..] == Chain(m[..base + i])
        decreases inputLen - i
      {
        NoWrap(i, inputLen);
        ChainExtend(m, base + i);
        TailSlice(m, base, i, i + 64);
        assert input[i..i + 64] == input[..inputLen][i..i + 64];
        MD5Transform(state, input, i);
        i := (i + 64) % UINT_LIMIT;
        NoWrap(i, inputLen);
      }
    }

    /** The input fills the buffer: transform it, then the whole blocks that follow. */
    method FillAndTransform(input: array<byte>, inputLen: u32, index: nat, ghost base: nat, ghost m: seq<byte>)
      returns (i: u32)
      requires Shape() && inputLen <= input.Length && inputLen <= UINT_LIMIT - 64
      requires input != buffer
      requires index < 64 && 64 - index <= inputLen && (base - index) % 64 == 0 && index <= base
      requires |m| == base + inputLen && m[base..] == input[..inputLen]
      requires state[..] == Chain(m[..base - index]) && buffer[..index] == m[base - index..base]
      modifies state, buffer
      ensures 64 - index <= i <= inputLen < i + 64 && (base + i) % 64 == 0
      ensures state[..] == Chain(m[..base + i])
    {
      hide Chain, Compress;
      var partLen := 64 - index;
      ghost var front, part := buffer[..index], input[..partLen];
      assert part == m[base..base + partLen] by {
        TailSlice(m, base, 0, partLen);
        assert part == input[..inputLen][0..partLen];
      }
      Join(m, base - index, base, base + partLen);
      Memcpy(buffer, index, input[..partLen]);
      assert buffer[..index] == front;
      assert buffer[0..64] == buffer[..index] + buffer[index..index + partLen];
      assert buffer[0..64] == m[base - index..base - index + 64];
      ChainExtend(m, base - index);
      MD5Transform(state, buffer, 0);
      i := TransformBlocks(input, inputLen, partLen, base, m);
    }

    /** Continues the digest with inputLen more bytes, however they were cut. */
    method Update(input: array<byte>, inputLen: u32)
      requires Ready() && inputLen <= input.Length && inputLen <= UINT_LIMIT - 64
      requires input != buffer && input != digestRaw
      modifies `message, state, count, buffer
      ensures Ready() && message == old(message) + old(input[..inputLen])
    {
      hide Absorbed, Chain, Compress;
      ghost var base, m := |message|, message + input[..inputLen];
      ghost var q := AbsorbedTail(state[..], count[..], buffer[..], message);
      var index := count[0] / 8 % 64;
      assert m[..q] == message[..q] && m[q..base] == message[q..] && m[base..] == input[..inputLen];
      CountBits(inputLen, base);
      var i: u32;
      if inputLen >= 64 - index {
        i := FillAndTransform(input, inputLen, index, base, m);
        index, q := 0, base + i;
      } else {
        i := 0;
      }
      PutTail(input, inputLen, index, i, base, m, q);
      message := m;
      AbsorbedAt(state[..], count[..], buffer[..], m, q);
    }

    /** Buffer the remaining input. */
    method PutTail(input: array<byte>, inputLen: u32, index: nat, i: u32, ghost base: nat, ghost m: seq<byte>,
                   ghost q: nat)
      requires Shape() && inputLen <= input.Length && input != buffer
      requires |m| == base + inputLen && m[base..] == input[..inputLen]
      requires i <= inputLen && q <= |m| < q + 64 && q + index == base + i
      requires index == 0 || (i == 0 && buffer[..index] == m[q..base])
      modifies buffer
      ensures buffer[..|m| - q] == m[q..]
    {
      var rest := input[i..inputLen];
      TailSlice(m, base, i, inputLen);
      assert rest == input[..inputLen][i..inputLen];
      Join(m, q, base + i, |m|);
      Memcpy(buffer, index, rest);
      assert buffer[..|m| - q] == buffer[..index] + buffer[index..index + |rest|];
    }

    /** The two Update calls of Final: padding, then the length before padding. */
    method AppendPadding()
      requires Ready()
      modifies `message, state, count, buffer
      ensures Ready() && message == Padded(old(message))
    {
      hide Absorbed, Chain, LengthBytes, Pad;
      ghost var m := message;
      ghost var q := AbsorbedTail(state[..], count[..], buffer[..], message);
      var bits := new byte[8];
      assert count[..2] == [count[0], count[1]];
      CounterWords(count[0], count[1], |m|);
      Encode(bits, count, 8);
      var index := count[0] / 8 % 64;
      var padLen := if index < 56 then 56 - index else 120 - index;
      BufferIndex(count[0], count[1], |m|);
      var padding := new byte[64](i => if i == 0 then 0x80 else 0);
      PaddingPrefix(padding[..], |m|);
      assert padding[..][..padLen] == padding[..padLen];
      Update(padding, padLen);
      Update(bits, 8);
    }

    /** memset of the whole context. */
    method Wipe()
      requires Shape()
      modifies state, count, buffer
      ensures state[..] == [0, 0, 0, 0] && count[..] == [0, 0]
      ensures forall k :: 0 <= k < 64 ==> buffer[k] == 0
    {
      state[0], state[1], state[2], state[3] := 0, 0, 0, 0;
      count[0], count[1] := 0, 0;
      forall k | 0 <= k < 64 {
        buffer[k] := 0;
      }
    }

    /** Pads, appends the length, stores the digest, and wipes the context. */
    method Final()
      requires Ready()
      modifies `message, `digestChars, state, count, buffer, digestRaw
      ensures Shape()
      ensures digestRaw[..] == Digest(old(message)) && digestChars == Text.HexBytes(digestRaw[..])
      ensures state[..] == [0, 0, 0, 0] && count[..] == [0, 0]
      ensures forall k :: 0 <= k < 64 ==> buffer[k] == 0
    {
      hide Absorbed, Chain, Padded;
      AppendPadding();
      WholeBlocks(state[..], count[..], buffer[..], message);
      assert state[..4] == state[..];
      Encode(digestRaw, state, 16);
      assert digestRaw[..16] == digestRaw[..];
      Wipe();
      WriteToString();
    }

    /** Two hexadecimal digits for each digest byte. */
    method WriteToString()
      requires Shape()
      modifies `digestChars
      ensures digestChars == Text.HexBytes(digestRaw[..])
    {
      digestChars := "";
      for pos := 0 to 16
        invariant digestChars == Text.HexBytes(digestRaw[..pos])
      {
        assert digestRaw[..pos + 1][..pos] == digestRaw[..pos];
        digestChars := digestChars + Text.HexByte(digestRaw[pos]);
      }
      assert digestRaw[..16] == digestRaw[..];
    }
  }

  /** For an input of this length the loop counter does not wrap. */
  lemma NoWrap(i: nat, inputLen: u32)
    requires i <= inputLen <= UINT_LIMIT - 64
    ensures (i + 63) % UINT_LIMIT == i + 63
    ensures i + 63 < inputLen ==> (i + 64) % UINT_LIMIT == i + 64
  {
  }

  lemma CounterWords(lo: u32, hi: u32, n: nat)
    requires lo + WORD * hi == 8 * n % TWO64
    ensures BytesOf([lo, hi]) == LengthBytes(n)
  {
    hide BytesOf;
    assert 8 * n % TWO64 % WORD == lo && 8 * n % TWO64 / WORD == hi;
  }

  lemma {:induction false} ZerosAt(n: nat, i: nat)
    requires i < n
    ensures Zeros(n)[i] == 0
  {
    if i < n - 1 {
      ZerosAt(n - 1, i);
    }
  }

  lemma PaddingPrefix(p: seq<byte>, n: nat)
    requires |p| == 64 && p[0] == 0x80 && (forall i :: 1 <= i < 64 ==> p[i] == 0)
    ensures p[..PadLength(n)] == Pad(n)
  {
    forall i | 1 <= i < PadLength(n)
      ensures p[i] == Pad(n)[i]
    {
      ZerosAt(PadLength(n) - 1, i - 1);
    }
  }

  lemma WholeBlocks(state: seq<u32>, count: seq<u32>, buffer: seq<byte>, m: seq<byte>)
    requires |count| == 2 && |buffer| == 64 && Absorbed(state, count, buffer, m) && |m| % 64 == 0
    ensures state == Chain(m)
  {
    hide Chain;
    assert m[..|m| / 64 * 64] == m;
  }

  ghost function Flatten(chunks: seq<seq<byte>>): seq<byte> {
    if chunks == [] then [] else Flatten(chunks[..|chunks| - 1]) + chunks[|chunks| - 1]
  }

  /** digestFile over the pieces that successive reads return: the digest is that of the whole
      contents, wherever the cuts fall. */
  method DigestFile(pieces: seq<seq<byte>>) returns (digest: seq<byte>, text: string)
    requires forall r :: r in pieces ==> |r| <= UINT_LIMIT - 64
    ensures digest == Digest(Flatten(pieces)) && text == Text.HexBytes(digest)
  {
    hide Absorbed, Chain, Digest, Text.HexBytes;
    var md5 := new MD5();
    for i := 0 to |pieces|
      invariant md5.Ready() && md5.message == Flatten(pieces[..i])
      invariant fresh(md5) && fresh(md5.state) && fresh(md5.count) && fresh(md5.buffer) && fresh(md5.digestRaw)
    {
      assert pieces[i] in pieces && pieces[..i + 1][..i] == pieces[..i];
      var buffer := new byte[|pieces[i]|];
      Memcpy(buffer, 0, pieces[i]);
      assert buffer[..|pieces[i]|] == pieces[i];
      md5.Update(buffer, |pieces[i]|);
    }
    assert pieces[..|pieces|] == pieces;
    md5.Final();
    digest, text := md5.digestRaw[..], md5.digestChars;
  }

  /** digestMemory: one piece. */
  method DigestMemory(memchunk: seq<byte>) returns (digest: seq<byte>)
    requires |memchunk| <= UINT_LIMIT - 64
    ensures digest == Digest(memchunk)
  {
    var text;
    assert Flatten([memchunk]) == memchunk by { assert [memchunk][..0] == []; }
    digest, text := DigestFile([memchunk]);
  }
}
