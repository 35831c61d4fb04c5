/** The MD5 block function: the unrolled code against the table-driven form of RFC 1321, section 3.4. */
module Md5Block {
  import opened Bytes
  import opened Md5Words

  type State = s: seq<u32> | |s| == 4 witness [0, 0, 0, 0]
  type Block = s: seq<byte> | |s| == 64 witness BytesOf([0, 0, 0, 0, 0, 0, 0, 0, 0, 0, 0, 0, 0, 0, 0, 0])

  // ----- the four auxiliary functions, the rotation and the macros -----

  function Word(x: bv32): u32 {
    x as int
  }

  function Bits(x: u32): bv32 {
    x as bv32
  }

  function F(x: u32, y: u32, z: u32): u32 {
    Word((Bits(x) & Bits(y)) | (!Bits(x) & Bits(z)))
  }

  function G(x: u32, y: u32, z: u32): u32 {
    Word((Bits(x) & Bits(z)) | (Bits(y) & !Bits(z)))
  }

  function H(x: u32, y: u32, z: u32): u32 {
    Word(Bits(x) ^ Bits(y) ^ Bits(z))
  }

  function I(x: u32, y: u32, z: u32): u32 {
    Word(Bits(y) ^ (Bits(x) | !Bits(z)))
  }

  function RotateLeft(x: u32, n: nat): u32
    requires n <= 32
  {
    Word((Bits(x) << n) | (Bits(x) >> (32 - n)))
  }

  function Sum(x: int, y: int): u32 {
    (x + y) % WORD
  }

  function Mix(a: u32, b: u32, aux: u32, x: u32, s: nat, ac: u32): u32
    requires s <= 32
  {
    Sum(RotateLeft((a + aux + x + ac) % WORD, s), b)
  }

  function FF(a: u32, b: u32, c: u32, d: u32, x: u32, s: nat, ac: u32): u32
    requires s <= 32
  {
    Mix(a, b, F(b, c, d), x, s, ac)
  }

  function GG(a: u32, b: u32, c: u32, d: u32, x: u32, s: nat, ac: u32): u32
    requires s <= 32
  {
    Mix(a, b, G(b, c, d), x, s, ac)
  }

  function HH(a: u32, b: u32, c: u32, d: u32, x: u32, s: nat, ac: u32): u32
    requires s <= 32
  {
    Mix(a, b, H(b, c, d), x, s, ac)
  }

  function II(a: u32, b: u32, c: u32, d: u32, x: u32, s: nat, ac: u32): u32
    requires s <= 32
  {
    Mix(a, b, I(b, c, d), x, s, ac)
  }

  // ----- the table-driven form -----

  datatype Regs = Regs(a: u32, b: u32, c: u32, d: u32)

  /** Which message word step i adds. */
  function WordIndex(i: nat): (k: nat)
    requires i < 64
    ensures k < 16
  {
    if i < 16 then i else if i < 32 then (1 + 5 * i) % 16 else if i < 48 then (5 + 3 * i) % 16 else 7 * i % 16
  }

  /** By how much step i rotates. */
  function Shift(i: nat): (s: nat)
    requires i < 64
    ensures s <= 32
  {
    var r, k := i / 16, i % 4;
    if r == 0 then (if k == 0 then 7 else if k == 1 then 12 else if k == 2 then 17 else 22)
    else if r == 1 then (if k == 0 then 5 else if k == 1 then 9 else if k == 2 then 14 else 20)
    else if r == 2 then (if k == 0 then 4 else if k == 1 then 11 else if k == 2 then 16 else 23)
    else (if k == 0 then 6 else if k == 1 then 10 else if k == 2 then 15 else 21)
  }

  /** The sine table of RFC 1321, from index 0. */
  function Sine(i: nat): u32
    requires i < 64
  {
    match i
    case 0 => 0xd76aa478
    case 1 => 0xe8c7b756
    case 2 => 0x242070db
    case 3 => 0xc1bdceee
    case 4 => 0xf57c0faf
    case 5 => 0x4787c62a
    case 6 => 0xa8304613
    case 7 => 0xfd469501
    case 8 => 0x698098d8
    case 9 => 0x8b44f7af
    case 10 => 0xffff5bb1
    case 11 => 0x895cd7be
    case 12 => 0x6b901122
    case 13 => 0xfd987193
    case 14 => 0xa679438e
    case 15 => 0x49b40821
    case 16 => 0xf61e2562
    case 17 => 0xc040b340
    case 18 => 0x265e5a51
    case 19 => 0xe9b6c7aa
    case 20 => 0xd62f105d
    case 21 => 0x2441453
    case 22 => 0xd8a1e681
    case 23 => 0xe7d3fbc8
    case 24 => 0x21e1cde6
    case 25 => 0xc33707d6
    case 26 => 0xf4d50d87
    case 27 => 0x455a14ed
    case 28 => 0xa9e3e905
    case 29 => 0xfcefa3f8
    case 30 => 0x676f02d9
    case 31 => 0x8d2a4c8a
    case 32 => 0xfffa3942
    case 33 => 0x8771f681
    case 34 => 0x6d9d6122
    case 35 => 0xfde5380c
    case 36 => 0xa4beea44
    case 37 => 0x4bdecfa9
    case 38 => 0xf6bb4b60
    case 39 => 0xbebfbc70
    case 40 => 0x289b7ec6
    case 41 => 0xeaa127fa
    case 42 => 0xd4ef3085
    case 43 => 0x4881d05
    case 44 => 0xd9d4d039
    case 45 => 0xe6db99e5
    case 46 => 0x1fa27cf8
    case 47 => 0xc4ac5665
    case 48 => 0xf4292244
    case 49 => 0x432aff97
    case 50 => 0xab9423a7
    case 51 => 0xfc93a039
    case 52 => 0x655b59c3
    case 53 => 0x8f0ccc92
    case 54 => 0xffeff47d
    case 55 => 0x85845dd1
    case 56 => 0x6fa87e4f
    case 57 => 0xfe2ce6e0
    case 58 => 0xa3014314
    case 59 => 0x4e0811a1
    case 60 => 0xf7537e82
    case 61 => 0xbd3af235
    case 62 => 0x2ad7d2bb
    case _ => 0xeb86d391
  }

  function Aux(i: nat, b: u32, c: u32, d: u32): u32 {
    if i < 16 then F(b, c, d) else if i < 32 then G(b, c, d) else if i < 48 then H(b, c, d) else I(b, c, d)
  }

  /** Every step computes a new b and renames the registers. */
  function Step(i: nat, r: Regs, x: seq<u32>): Regs
    requires i < 64 && |x| == 16
  {
    Regs(r.d, Mix(r.a, r.b, Aux(i, r.b, r.c, r.d), x[WordIndex(i)], Shift(i), Sine(i)), r.b, r.c)
  }

  function Steps(n: nat, r: Regs, x: seq<u32>): Regs
    requires n <= 64 && |x| == 16
  {
    if n == 0 then r else Step(n - 1, Steps(n - 1, r, x), x)
  }

  function Start(s: State): Regs {
    Regs(s[0], s[1], s[2], s[3])
  }

  /** The block function: 64 steps, then the old state is added. */
  function Compress(s: State, block: Block): (t: State) {
    var r := Steps(64, Start(s), WordsOf(block));
    [Sum(s[0], r.a), Sum(s[1], r.b), Sum(s[2], r.c), Sum(s[3], r.d)]
  }

  // ----- the unrolled form -----

  /** Four steps bring every register back to its name. */
  lemma FourSteps(i: nat, r: Regs, q: Regs, x: seq<u32>, a: u32, b: u32, c: u32, d: u32)
    requires i + 4 <= 64 && i % 4 == 0 && |x| == 16
    requires q == Steps(i, r, x)
    requires a == Mix(q.a, q.b, Aux(i, q.b, q.c, q.d), x[WordIndex(i)], Shift(i), Sine(i))
    requires d == Mix(q.d, a, Aux(i + 1, a, q.b, q.c), x[WordIndex(i + 1)], Shift(i + 1), Sine(i + 1))
    requires c == Mix(q.c, d, Aux(i + 2, d, a, q.b), x[WordIndex(i + 2)], Shift(i + 2), Sine(i + 2))
    requires b == Mix(q.b, c, Aux(i + 3, c, d, a), x[WordIndex(i + 3)], Shift(i + 3), Sine(i + 3))
    ensures Steps(i + 4, r, x) == Regs(a, b, c, d)
  {
    hide Mix, Aux, WordIndex, Shift, Sine;
    assert Steps(i + 1, r, x) == Regs(q.d, a, q.b, q.c);
    assert Steps(i + 2, r, x) == Regs(q.c, d, a, q.b);
    assert Steps(i + 3, r, x) == Regs(q.b, c, d, a);
  }

  /** Round one of the code. */
  method Round1(x: seq<u32>, ghost r: Regs, a0: u32, b0: u32, c0: u32, d0: u32) returns (a: u32, b: u32, c: u32, d: u32)
    requires |x| == 16 && Steps(0, r, x) == Regs(a0, b0, c0, d0)
    ensures Steps(16, r, x) == Regs(a, b, c, d)
  {
    hide Mix, F, G, H, I, Steps;
    a, b, c, d := a0, b0, c0, d0;
    ghost var q0 := Regs(a, b, c, d);
    a := FF(a, b, c, d, x[0], 7, 0xd76aa478);
    d := FF(d, a, b, c, x[1], 12, 0xe8c7b756);
    c := FF(c, d, a, b, x[2], 17, 0x242070db);
    b := FF(b, c, d, a, x[3], 22, 0xc1bdceee);
    FourSteps(0, r, q0, x, a, b, c, d);
    ghost var q1 := Regs(a, b, c, d);
    a := FF(a, b, c, d, x[4], 7, 0xf57c0faf);
    d := FF(d, a, b, c, x[5], 12, 0x4787c62a);
    c := FF(c, d, a, b, x[6], 17, 0xa8304613);
    b := FF(b, c, d, a, x[7], 22, 0xfd469501);
    FourSteps(4, r, q1, x, a, b, c, d);
    ghost var q2 := Regs(a, b, c, d);
    a := FF(a, b, c, d, x[8], 7, 0x698098d8);
    d := FF(d, a, b, c, x[9], 12, 0x8b44f7af);
    c := FF(c, d, a, b, x[10], 17, 0xffff5bb1);
    b := FF(b, c, d, a, x[11], 22, 0x895cd7be);
    FourSteps(8, r, q2, x, a, b, c, d);
    ghost var q3 := Regs(a, b, c, d);
    a := FF(a, b, c, d, x[12], 7, 0x6b901122);
    d := FF(d, a, b, c, x[13], 12, 0xfd987193);
    c := FF(c, d, a, b, x[14], 17, 0xa679438e);
    b := FF(b, c, d, a, x[15], 22, 0x49b40821);
    FourSteps(12, r, q3, x, a, b, c, d);
  }

  /** Round two of the code. */
  method Round2(x: seq<u32>, ghost r: Regs, a0: u32, b0: u32, c0: u32, d0: u32) returns (a: u32, b: u32, c: u32, d: u32)
    requires |x| == 16 && Steps(16, r, x) == Regs(a0, b0, c0, d0)
    ensures Steps(32, r, x) == Regs(a, b, c, d)
  {
    hide Mix, F, G, H, I, Steps;
    a, b, c, d := a0, b0, c0, d0;
    ghost var q0 := Regs(a, b, c, d);
    a := GG(a, b, c, d, x[1], 5, 0xf61e2562);
    d := GG(d, a, b, c, x[6], 9, 0xc040b340);
    c := GG(c, d, a, b, x[11], 14, 0x265e5a51);
    b := GG(b, c, d, a, x[0], 20, 0xe9b6c7aa);
    FourSteps(16, r, q0, x, a, b, c, d);
    ghost var q1 := Regs(a, b, c, d);
    a := GG(a, b, c, d, x[5], 5, 0xd62f105d);
    d := GG(d, a, b, c, x[10], 9, 0x2441453);
    c := GG(c, d, a, b, x[15], 14, 0xd8a1e681);
    b := GG(b, c, d, a, x[4], 20, 0xe7d3fbc8);
    FourSteps(20, r, q1, x, a, b, c, d);
    ghost var q2 := Regs(a, b, c, d);
    a := GG(a, b, c, d, x[9], 5, 0x21e1cde6);
    d := GG(d, a, b, c, x[14], 9, 0xc33707d6);
    c := GG(c, d, a, b, x[3], 14, 0xf4d50d87);
    b := GG(b, c, d, a, x[8], 20, 0x455a14ed);
    FourSteps(24, r, q2, x, a, b, c, d);
    ghost var q3 := Regs(a, b, c, d);
    a := GG(a, b, c, d, x[13], 5, 0xa9e3e905);
    d := GG(d, a, b, c, x[2], 9, 0xfcefa3f8);
    c := GG(c, d, a, b, x[7], 14, 0x676f02d9);
    b := GG(b, c, d, a, x[12], 20, 0x8d2a4c8a);
    FourSteps(28, r, q3, x, a, b, c, d);
  }

  /** Round three of the code. */
  method Round3(x: seq<u32>, ghost r: Regs, a0: u32, b0: u32, c0: u32, d0: u32) returns (a: u32, b: u32, c: u32, d: u32)
    requires |x| == 16 && Steps(32, r, x) == Regs(a0, b0, c0, d0)
    ensures Steps(48, r, x) == Regs(a, b, c, d)
  {
    hide Mix, F, G, H, I, Steps;
    a, b, c, d := a0, b0, c0, d0;
    ghost var q0 := Regs(a, b, c, d);
    a := HH(a, b, c, d, x[5], 4, 0xfffa3942);
    d := HH(d, a, b, c, x[8], 11, 0x8771f681);
    c := HH(c, d, a, b, x[11], 16, 0x6d9d6122);
    b := HH(b, c, d, a, x[14], 23, 0xfde5380c);
    FourSteps(32, r, q0, x, a, b, c, d);
    ghost var q1 := Regs(a, b, c, d);
    a := HH(a, b, c, d, x[1], 4, 0xa4beea44);
    d := HH(d, a, b, c, x[4], 11, 0x4bdecfa9);
    c := HH(c, d, a, b, x[7], 16, 0xf6bb4b60);
    b := HH(b, c, d, a, x[10], 23, 0xbebfbc70);
    FourSteps(36, r, q1, x, a, b, c, d);
    ghost var q2 := Regs(a, b, c, d);
    a := HH(a, b, c, d, x[13], 4, 0x289b7ec6);
    d := HH(d, a, b, c, x[0], 11, 0xeaa127fa);
    c := HH(c, d, a, b, x[3], 16, 0xd4ef3085);
    b := HH(b, c, d, a, x[6], 23, 0x4881d05);
    FourSteps(40, r, q2, x, a, b, c, d);
    ghost var q3 := Regs(a, b, c, d);
    a := HH(a, b, c, d, x[9], 4, 0xd9d4d039);
    d := HH(d, a, b, c, x[12], 11, 0xe6db99e5);
    c := HH(c, d, a, b, x[15], 16, 0x1fa27cf8);
    b := HH(b, c, d, a, x[2], 23, 0xc4ac5665);
    FourSteps(44, r, q3, x, a, b, c, d);
  }

  /** Round four of the code. */
  method Round4(x: seq<u32>, ghost r: Regs, a0: u32, b0: u32, c0: u32, d0: u32) returns (a: u32, b: u32, c: u32, d: u32)
    requires |x| == 16 && Steps(48, r, x) == Regs(a0, b0, c0, d0)
    ensures Steps(64, r, x) == Regs(a, b, c, d)
  {
    hide Mix, F, G, H, I, Steps;
    a, b, c, d := a0, b0, c0, d0;
    ghost var q0 := Regs(a, b, c, d);
    a := II(a, b, c, d, x[0], 6, 0xf4292244);
    d := II(d, a, b, c, x[7], 10, 0x432aff97);
    c := II(c, d, a, b, x[14], 15, 0xab9423a7);
    b := II(b, c, d, a, x[5], 21, 0xfc93a039);
    FourSteps(48, r, q0, x, a, b, c, d);
    ghost var q1 := Regs(a, b, c, d);
    a := II(a, b, c, d, x[12], 6, 0x655b59c3);
    d := II(d, a, b, c, x[3], 10, 0x8f0ccc92);
    c := II(c, d, a, b, x[10], 15, 0xffeff47d);
    b := II(b, c, d, a, x[1], 21, 0x85845dd1);
    FourSteps(52, r, q1, x, a, b, c, d);
    ghost var q2 := Regs(a, b, c, d);
    a := II(a, b, c, d, x[8], 6, 0x6fa87e4f);
    d := II(d, a, b, c, x[15], 10, 0xfe2ce6e0);
    c := II(c, d, a, b, x[6], 15, 0xa3014314);
    b := II(b, c, d, a, x[13], 21, 0x4e0811a1);
    FourSteps(56, r, q2, x, a, b, c, d);
    ghost var q3 := Regs(a, b, c, d);
    a := II(a, b, c, d, x[4], 6, 0xf7537e82);
    d := II(d, a, b, c, x[11], 10, 0xbd3af235);
    c := II(c, d, a, b, x[2], 15, 0x2ad7d2bb);
    b := II(b, c, d, a, x[9], 21, 0xeb86d391);
    FourSteps(60, r, q3, x, a, b, c, d);
  }

  /** MD5Transform: decode, four unrolled rounds, add. */
  method MD5Transform(state: array<u32>, block: array<byte>, at: nat)
    requires state.Length == 4 && at + 64 <= block.Length
    modifies state
    ensures state[..] == Compress(old(state[..]), old(block[at..at + 64]))
  {
    hide Steps;
    var x := new u32[16];
    Decode(x, block, at, 64);
    assert x[..16] == x[..];
    ghost var start, ws := Start(state[..]), x[..];
    assert Steps(0, start, ws) == start by { NoSteps(start, ws); }
    var a, b, c, d := state[0], state[1], state[2], state[3];
    a, b, c, d := Round1(x[..], start, a, b, c, d);
    a, b, c, d := Round2(x[..], start, a, b, c, d);
    a, b, c, d := Round3(x[..], start, a, b, c, d);
    a, b, c, d := Round4(x[..], start, a, b, c, d);
    state[0] := Sum(state[0], a);
    state[1] := Sum(state[1], b);
    state[2] := Sum(state[2], c);
    state[3] := Sum(state[3], d);
    assert state[..] == [state[0], state[1], state[2], state[3]];
    forall i | 0 <= i < 16 {
      x[i] := 0;
    }
  }

  lemma NoSteps(r: Regs, x: seq<u32>)
    requires |x| == 16
    ensures Steps(0, r, x) == r
  {
  }

}
