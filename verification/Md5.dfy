/** lib/com_util/md5.c: the incremental digest and its keyed use. */
module Md5 {
  import opened Words
  import opened Seqs
  import opened Md5Spec

  const S11: bv6 := 7
  const S12: bv6 := 12
  const S13: bv6 := 17
  const S14: bv6 := 22
  const S21: bv6 := 5
  const S22: bv6 := 9
  const S23: bv6 := 14
  const S24: bv6 := 20
  const S31: bv6 := 4
  const S32: bv6 := 11
  const S33: bv6 := 16
  const S34: bv6 := 23
  const S41: bv6 := 6
  const S42: bv6 := 10
  const S43: bv6 := 15
  const S44: bv6 := 21

  function FF(a: U32, b: U32, c: U32, d: U32, x: U32, s: bv6, ac: U32): U32
    requires s <= 32
  {
    Operation(F(b, c, d), a, b, x, s, ac)
  }

  function GG(a: U32, b: U32, c: U32, d: U32, x: U32, s: bv6, ac: U32): U32
    requires s <= 32
  {
    Operation(G(b, c, d), a, b, x, s, ac)
  }

  function HH(a: U32, b: U32, c: U32, d: U32, x: U32, s: bv6, ac: U32): U32
    requires s <= 32
  {
    Operation(H(b, c, d), a, b, x, s, ac)
  }

  function II(a: U32, b: U32, c: U32, d: U32, x: U32, s: bv6, ac: U32): U32
    requires s <= 32
  {
    Operation(I(b, c, d), a, b, x, s, ac)
  }

  lemma {:induction false} NextStep(q: Abcd, x: seq<U32>, i: nat, r: Abcd)
    requires |x| == 16 && Steps(q, x, i) == r
    ensures Steps(q, x, i + 1) ==
      Abcd(r.d, Operation(Mix(i, r.b, r.c, r.d), r.a, r.b, x[WordIndex(i)], Shift(i), T(i)), r.b, r.c)
  {
    hide Operation, Mix;
  }

  /** The four steps from step i, in the names of the source. */
  lemma {:induction false} FourFF(q: Abcd, x: seq<U32>, i: nat, a: U32, b: U32, c: U32, d: U32)
    requires (i == 0 || i == 4 || i == 8 || i == 12) && |x| == 16 && Steps(q, x, i) == Abcd(a, b, c, d)
    ensures var a1 := FF(a, b, c, d, x[i % 16], 7, T1(i));
      var d1 := FF(d, a1, b, c, x[(i + 1) % 16], 12, T1(i + 1));
      var c1 := FF(c, d1, a1, b, x[(i + 2) % 16], 17, T1(i + 2));
      var b1 := FF(b, c1, d1, a1, x[(i + 3) % 16], 22, T1(i + 3));
      Steps(q, x, i + 4) == Abcd(a1, b1, c1, d1)
  {
    hide Operation, F, G, H, I;
    var a1 := FF(a, b, c, d, x[i % 16], 7, T1(i));
    var d1 := FF(d, a1, b, c, x[(i + 1) % 16], 12, T1(i + 1));
    var c1 := FF(c, d1, a1, b, x[(i + 2) % 16], 17, T1(i + 2));
    NextStep(q, x, i, Abcd(a, b, c, d));
    NextStep(q, x, i + 1, Abcd(d, a1, b, c));
    NextStep(q, x, i + 2, Abcd(c, d1, a1, b));
    NextStep(q, x, i + 3, Abcd(b, c1, d1, a1));
    hide T, T1, Steps;
  }

  /** The four steps from step i, in the names of the source. */
  lemma {:induction false} FourGG(q: Abcd, x: seq<U32>, i: nat, a: U32, b: U32, c: U32, d: U32)
    requires (i == 16 || i == 20 || i == 24 || i == 28) && |x| == 16 && Steps(q, x, i) == Abcd(a, b, c, d)
    ensures var a1 := GG(a, b, c, d, x[(5 * i + 1) % 16], 5, T2(i));
      var d1 := GG(d, a1, b, c, x[(5 * i + 6) % 16], 9, T2(i + 1));
      var c1 := GG(c, d1, a1, b, x[(5 * i + 11) % 16], 14, T2(i + 2));
      var b1 := GG(b, c1, d1, a1, x[(5 * i + 16) % 16], 20, T2(i + 3));
      Steps(q, x, i + 4) == Abcd(a1, b1, c1, d1)
  {
    hide Operation, F, G, H, I;
    var a1 := GG(a, b, c, d, x[(5 * i + 1) % 16], 5, T2(i));
    var d1 := GG(d, a1, b, c, x[(5 * i + 6) % 16], 9, T2(i + 1));
    var c1 := GG(c, d1, a1, b, x[(5 * i + 11) % 16], 14, T2(i + 2));
    NextStep(q, x, i, Abcd(a, b, c, d));
    NextStep(q, x, i + 1, Abcd(d, a1, b, c));
    NextStep(q, x, i + 2, Abcd(c, d1, a1, b));
    NextStep(q, x, i + 3, Abcd(b, c1, d1, a1));
    hide T, T2, Steps;
  }

  /** The four steps from step i, in the names of the source. */
  lemma {:induction false} FourHH(q: Abcd, x: seq<U32>, i: nat, a: U32, b: U32, c: U32, d: U32)
    requires (i == 32 || i == 36 || i == 40 || i == 44) && |x| == 16 && Steps(q, x, i) == Abcd(a, b, c, d)
    ensures var a1 := HH(a, b, c, d, x[(3 * i + 5) % 16], 4, T3(i));
      var d1 := HH(d, a1, b, c, x[(3 * i + 8) % 16], 11, T3(i + 1));
      var c1 := HH(c, d1, a1, b, x[(3 * i + 11) % 16], 16, T3(i + 2));
      var b1 := HH(b, c1, d1, a1, x[(3 * i + 14) % 16], 23, T3(i + 3));
      Steps(q, x, i + 4) == Abcd(a1, b1, c1, d1)
  {
    hide Operation, F, G, H, I;
    var a1 := HH(a, b, c, d, x[(3 * i + 5) % 16], 4, T3(i));
    var d1 := HH(d, a1, b, c, x[(3 * i + 8) % 16], 11, T3(i + 1));
    var c1 := HH(c, d1, a1, b, x[(3 * i + 11) % 16], 16, T3(i + 2));
    NextStep(q, x, i, Abcd(a, b, c, d));
    NextStep(q, x, i + 1, Abcd(d, a1, b, c));
    NextStep(q, x, i + 2, Abcd(c, d1, a1, b));
    NextStep(q, x, i + 3, Abcd(b, c1, d1, a1));
    hide T, T3, Steps;
  }

  /** The four steps from step i, in the names of the source. */
  lemma {:induction false} FourII(q: Abcd, x: seq<U32>, i: nat, a: U32, b: U32, c: U32, d: U32)
    requires (i == 48 || i == 52 || i == 56 || i == 60) && |x| == 16 && Steps(q, x, i) == Abcd(a, b, c, d)
    ensures var a1 := II(a, b, c, d, x[7 * i % 16], 6, T4(i));
      var d1 := II(d, a1, b, c, x[(7 * i + 7) % 16], 10, T4(i + 1));
      var c1 := II(c, d1, a1, b, x[(7 * i + 14) % 16], 15, T4(i + 2));
      var b1 := II(b, c1, d1, a1, x[(7 * i + 21) % 16], 21, T4(i + 3));
      Steps(q, x, i + 4) == Abcd(a1, b1, c1, d1)
  {
    hide Operation, F, G, H, I;
    var a1 := II(a, b, c, d, x[7 * i % 16], 6, T4(i));
    var d1 := II(d, a1, b, c, x[(7 * i + 7) % 16], 10, T4(i + 1));
    var c1 := II(c, d1, a1, b, x[(7 * i + 14) % 16], 15, T4(i + 2));
    NextStep(q, x, i, Abcd(a, b, c, d));
    NextStep(q, x, i + 1, Abcd(d, a1, b, c));
    NextStep(q, x, i + 2, Abcd(c, d1, a1, b));
    NextStep(q, x, i + 3, Abcd(b, c1, d1, a1));
    hide T, T4, Steps;
  }

  /** Round 1 of MD5Transform. */
  method Round1(x: seq<U32>, a0: U32, b0: U32, c0: U32, d0: U32, ghost q: Abcd)
    returns (a: U32, b: U32, c: U32, d: U32)
    requires |x| == 16 && Steps(q, x, 0) == Abcd(a0, b0, c0, d0)
    ensures Steps(q, x, 16) == Abcd(a, b, c, d)
  {
    hide Steps, FF, GG, HH, II;
    a, b, c, d := a0, b0, c0, d0;
    FourFF(q, x, 0, a, b, c, d);
    a := FF(a, b, c, d, x[0], S11, 0xd76aa478);
    d := FF(d, a, b, c, x[1], S12, 0xe8c7b756);
    c := FF(c, d, a, b, x[2], S13, 0x242070db);
    b := FF(b, c, d, a, x[3], S14, 0xc1bdceee);
    FourFF(q, x, 4, a, b, c, d);
    a := FF(a, b, c, d, x[4], S11, 0xf57c0faf);
    d := FF(d, a, b, c, x[5], S12, 0x4787c62a);
    c := FF(c, d, a, b, x[6], S13, 0xa8304613);
    b := FF(b, c, d, a, x[7], S14, 0xfd469501);
    FourFF(q, x, 8, a, b, c, d);
    a := FF(a, b, c, d, x[8], S11, 0x698098d8);
    d := FF(d, a, b, c, x[9], S12, 0x8b44f7af);
    c := FF(c, d, a, b, x[10], S13, 0xffff5bb1);
    b := FF(b, c, d, a, x[11], S14, 0x895cd7be);
    FourFF(q, x, 12, a, b, c, d);
    a := FF(a, b, c, d, x[12], S11, 0x6b901122);
    d := FF(d, a, b, c, x[13], S12, 0xfd987193);
    c := FF(c, d, a, b, x[14], S13, 0xa679438e);
    b := FF(b, c, d, a, x[15], S14, 0x49b40821);
  }

  /** Round 2 of MD5Transform. */
  method Round2(x: seq<U32>, a0: U32, b0: U32, c0: U32, d0: U32, ghost q: Abcd)
    returns (a: U32, b: U32, c: U32, d: U32)
    requires |x| == 16 && Steps(q, x, 16) == Abcd(a0, b0, c0, d0)
    ensures Steps(q, x, 32) == Abcd(a, b, c, d)
  {
    hide Steps, FF, GG, HH, II;
    a, b, c, d := a0, b0, c0, d0;
    FourGG(q, x, 16, a, b, c, d);
    a := GG(a, b, c, d, x[1], S21, 0xf61e2562);
    d := GG(d, a, b, c, x[6], S22, 0xc040b340);
    c := GG(c, d, a, b, x[11], S23, 0x265e5a51);
    b := GG(b, c, d, a, x[0], S24, 0xe9b6c7aa);
    FourGG(q, x, 20, a, b, c, d);
    a := GG(a, b, c, d, x[5], S21, 0xd62f105d);
    d := GG(d, a, b, c, x[10], S22, 0x02441453);
    c := GG(c, d, a, b, x[15], S23, 0xd8a1e681);
    b := GG(b, c, d, a, x[4], S24, 0xe7d3fbc8);
    FourGG(q, x, 24, a, b, c, d);
    a := GG(a, b, c, d, x[9], S21, 0x21e1cde6);
    d := GG(d, a, b, c, x[14], S22, 0xc33707d6);
    c := GG(c, d, a, b, x[3], S23, 0xf4d50d87);
    b := GG(b, c, d, a, x[8], S24, 0x455a14ed);
    FourGG(q, x, 28, a, b, c, d);
    a := GG(a, b, c, d, x[13], S21, 0xa9e3e905);
    d := GG(d, a, b, c, x[2], S22, 0xfcefa3f8);
    c := GG(c, d, a, b, x[7], S23, 0x676f02d9);
    b := GG(b, c, d, a, x[12], S24, 0x8d2a4c8a);
  }

  /** Round 3 of MD5Transform. */
  method Round3(x: seq<U32>, a0: U32, b0: U32, c0: U32, d0: U32, ghost q: Abcd)
    returns (a: U32, b: U32, c: U32, d: U32)
    requires |x| == 16 && Steps(q, x, 32) == Abcd(a0, b0, c0, d0)
    ensures Steps(q, x, 48) == Abcd(a, b, c, d)
  {
    hide Steps, FF, GG, HH, II;
    a, b, c, d := a0, b0, c0, d0;
    FourHH(q, x, 32, a, b, c, d);
    a := HH(a, b, c, d, x[5], S31, 0xfffa3942);
    d := HH(d, a, b, c, x[8], S32, 0x8771f681);
    c := HH(c, d, a, b, x[11], S33, 0x6d9d6122);
    b := HH(b, c, d, a, x[14], S34, 0xfde5380c);
    FourHH(q, x, 36, a, b, c, d);
    a := HH(a, b, c, d, x[1], S31, 0xa4beea44);
    d := HH(d, a, b, c, x[4], S32, 0x4bdecfa9);
    c := HH(c, d, a, b, x[7], S33, 0xf6bb4b60);
    b := HH(b, c, d, a, x[10], S34, 0xbebfbc70);
    FourHH(q, x, 40, a, b, c, d);
    a := HH(a, b, c, d, x[13], S31, 0x289b7ec6);
    d := HH(d, a, b, c, x[0], S32, 0xeaa127fa);
    c := HH(c, d, a, b, x[3], S33, 0xd4ef3085);
    b := HH(b, c, d, a, x[6], S34, 0x04881d05);
    FourHH(q, x, 44, a, b, c, d);
    a := HH(a, b, c, d, x[9], S31, 0xd9d4d039);
    d := HH(d, a, b, c, x[12], S32, 0xe6db99e5);
    c := HH(c, d, a, b, x[15], S33, 0x1fa27cf8);
    b := HH(b, c, d, a, x[2], S34, 0xc4ac5665);
  }

  /** Round 4 of MD5Transform. */
  method Round4(x: seq<U32>, a0: U32, b0: U32, c0: U32, d0: U32, ghost q: Abcd)
    returns (a: U32, b: U32, c: U32, d: U32)
    requires |x| == 16 && Steps(q, x, 48) == Abcd(a0, b0, c0, d0)
    ensures Steps(q, x, 64) == Abcd(a, b, c, d)
  {
    hide Steps, FF, GG, HH, II;
    a, b, c, d := a0, b0, c0, d0;
    FourII(q, x, 48, a, b, c, d);
    a := II(a, b, c, d, x[0], S41, 0xf4292244);
    d := II(d, a, b, c, x[7], S42, 0x432aff97);
    c := II(c, d, a, b, x[14], S43, 0xab9423a7);
    b := II(b, c, d, a, x[5], S44, 0xfc93a039);
    FourII(q, x, 52, a, b, c, d);
    a := II(a, b, c, d, x[12], S41, 0x655b59c3);
    d := II(d, a, b, c, x[3], S42, 0x8f0ccc92);
    c := II(c, d, a, b, x[10], S43, 0xffeff47d);
    b := II(b, c, d, a, x[1], S44, 0x85845dd1);
    FourII(q, x, 56, a, b, c, d);
    a := II(a, b, c, d, x[8], S41, 0x6fa87e4f);
    d := II(d, a, b, c, x[15], S42, 0xfe2ce6e0);
    c := II(c, d, a, b, x[6], S43, 0xa3014314);
    b := II(b, c, d, a, x[13], S44, 0x4e0811a1);
    FourII(q, x, 60, a, b, c, d);
    a := II(a, b, c, d, x[4], S41, 0xf7537e82);
    d := II(d, a, b, c, x[11], S42, 0xbd3af235);
    c := II(c, d, a, b, x[2], S43, 0x2ad7d2bb);
    b := II(b, c, d, a, x[9], S44, 0xeb86d391);
  }

  /** MD5_encode: words to bytes, low-order byte first. */
  method MD5_encode(output: array<U8>, input: seq<U32>, len: U16)
    requires len % 4 == 0 && len <= output.Length && len == 4 * |input|
    modifies output
    ensures output[..] == Encode(input) + old(output[len..])
  {
    hide Encode, ToU16, ToU8;
    var i: U16, j: U16 := 0, 0;
    while j < len
      invariant j == 4 * i <= len
      invariant forall k | 0 <= k < j :: output[k] == Encode(input)[k]
      invariant output[len..] == old(output[len..])
    {
      EncodeAt(input, i, 0);
      EncodeAt(input, i, 1);
      EncodeAt(input, i, 2);
      EncodeAt(input, i, 3);
      output[j] := ToU8(input[i]);
      output[j + 1] := ToU8(input[i] / 0x100);
      output[j + 2] := ToU8(input[i] / 0x1_0000);
      output[j + 3] := ToU8(input[i] / 0x100_0000);
      i, j := ToU16(i + 1), ToU16(j + 4);
    }
  }

  /** MD5_decode: bytes to words. */
  method MD5_decode(input: seq<U8>, len: U16) returns (output: array<U32>)
    requires len % 4 == 0 && len == |input|
    ensures fresh(output) && output[..] == Decode(input)
  {
    output := new U32[len / 4](_ => 0);
    hide Decode, WordAt, ToU16;
    assert len == 4 * output.Length;
    var i: U16, j: U16 := 0, 0;
    while j < len
      invariant j == 4 * i <= len
      invariant forall k | 0 <= k < i :: output[k] == Decode(input)[k]
    {
      DecodeAt(input, i);
      assert j + 4 <= len < 0x1_0000;
      output[i] := WordAt(input, j);
      i, j := ToU16(i + 1), ToU16(j + 4);
    }
  }

  /** MD5_memcpy, onto an array at an offset. */
  method MD5_memcpy(output: array<U8>, at: nat, input: seq<U8>, len: U16)
    requires at + len <= output.Length && len <= |input|
    modifies output
    ensures output[..] == old(output[..at]) + input[..len] + old(output[at + len..])
  {
    var i: U16 := 0;
    while i < len
      invariant i <= len
      invariant output[..] == old(output[..at]) + input[..i] + old(output[at + i..])
    {
      output[at + i] := input[i];
      i := ToU16(i + 1);
    }
  }

  /** The 64 steps of MD5Transform. */
  method Rounds(x: seq<U32>, a0: U32, b0: U32, c0: U32, d0: U32) returns (a: U32, b: U32, c: U32, d: U32)
    requires |x| == 16
    ensures Abcd(a, b, c, d) == Steps(Abcd(a0, b0, c0, d0), x, 64)
  {
    ghost var q := Abcd(a0, b0, c0, d0);
    assert Steps(q, x, 0) == q;
    hide Steps;
    a, b, c, d := Round1(x, a0, b0, c0, d0, q);
    a, b, c, d := Round2(x, a, b, c, d, q);
    a, b, c, d := Round3(x, a, b, c, d, q);
    a, b, c, d := Round4(x, a, b, c, d, q);
  }

  /** MD5Transform. */
  method MD5Transform(state: array<U32>, block: seq<U8>)
    requires state.Length == 4 && |block| == 64
    modifies state
    ensures Registers(state) == Transform(old(Registers(state)), block)
  {
    hide Steps, Decode, ToU32;
    var words := MD5_decode(block, 64);
    var a, b, c, d := Rounds(words[..], state[0], state[1], state[2], state[3]);
    state[0] := ToU32(state[0] as int + a);
    state[1] := ToU32(state[1] as int + b);
    state[2] := ToU32(state[2] as int + c);
    state[3] := ToU32(state[3] as int + d);
  }

  function Registers(state: array<U32>): Abcd
    requires state.Length == 4
    reads state
  {
    Abcd(state[0], state[1], state[2], state[3])
  }

  /** Two words as one number, low word first. */
  function Both(lo: int, hi: int): int {
    lo + 0x1_0000_0000 * hi
  }

  /** Bytes of an n-byte message beyond its last complete block. */
  function Partial(n: nat): (r: nat)
    ensures r < 64 && r <= n
  {
    n % 64
  }

  /** Its length in bits, modulo 2^64. */
  function BitCount(n: nat): nat {
    8 * n % 0x1_0000_0000_0000_0000
  }

  /** Complete blocks of an n-byte message. */
  function Blocks(n: nat): (k: nat)
    ensures n == 64 * k + Partial(n)
  {
    n / 64
  }

  /** Fill of the buffer according to the low count word. */
  function FillOf(lo: U32): (index: U16)
    ensures index < 64
  {
    lo / 8 % 64
  }

  lemma PartialIs(n: nat, blocks: nat, p: nat)
    requires n == 64 * blocks + p && p < 64
    ensures Partial(n) == p
  {
  }

  /** The low count word alone gives the fill of the buffer, however long the message. */
  lemma CountIndex(n: nat, lo: U32, hi: U32)
    requires Both(lo, hi) == BitCount(n)
    ensures FillOf(lo) == Partial(n)
  {
    var q := 8 * n / 0x1_0000_0000_0000_0000;
    assert 8 * n == q * 0x1_0000_0000_0000_0000 + lo + 0x1_0000_0000 * hi;
    var m := n - q * 0x2000_0000_0000_0000 - 0x2000_0000 * hi;
    assert lo == 8 * m && n == m + 64 * (q * 0x80_0000_0000_0000 + 0x80_0000 * hi);
    SameMod64(m, q * 0x80_0000_0000_0000 + 0x80_0000 * hi);
  }

  lemma SameMod64(m: nat, k: nat)
    ensures (m + 64 * k) % 64 == m % 64
  {
  }

  lemma BitCountAdd(n: nat, bits: nat, k: nat, r: nat)
    requires BitCount(n) + 8 * bits == r + k * 0x1_0000_0000_0000_0000 && r < 0x1_0000_0000_0000_0000
    ensures BitCount(n + bits) == r
  {
    var q := 8 * n / 0x1_0000_0000_0000_0000;
    assert 8 * (n + bits) == (q + k) * 0x1_0000_0000_0000_0000 + r;
  }

  /** The comparison detects the carry, so the two words count modulo 2^64. */
  lemma {:induction false} CountAdd(n: nat, lo: U32, hi: U32, len: U16)
    requires Both(lo, hi) == BitCount(n)
    ensures var lo' := ToU32(lo + 8 * len);
      Both(lo', ToU32(hi + if lo' < 8 * len then 1 else 0)) == BitCount(n + len)
  {
    var lo' := ToU32(lo + 8 * len);
    var carry := if lo' < 8 * len then 1 else 0;
    assert lo as int + 8 * len == lo' as int + carry * 0x1_0000_0000;
    var hi' := ToU32(hi + carry);
    var wrap := if hi + carry == 0x1_0000_0000 then 1 else 0;
    assert hi as int + carry == hi' as int + wrap * 0x1_0000_0000;
    assert Both(lo, hi) + 8 * len == Both(lo', hi') + wrap * 0x1_0000_0000_0000_0000;
    BitCountAdd(n, len, wrap, Both(lo', hi'));
  }

  const PADDING: seq<U8> := [0x80] + Zeros(63)

  /** The two count words are the length words that the padding needs. */
  lemma {:induction false} CountWords(n: nat, lo: U32, hi: U32)
    requires Both(lo, hi) == BitCount(n)
    ensures Encode([lo, hi]) == LengthBytes(8 * n)
  {
    hide Encode;
    assert ToU32(8 * n) == lo && ToU32(8 * n / 0x1_0000_0000) == hi by {
      CountSplit(n, lo, hi);
    }
    hide ToU32, Both, BitCount;
  }

  lemma CountSplit(n: nat, lo: U32, hi: U32)
    requires Both(lo, hi) == BitCount(n)
    ensures ToU32(8 * n) == lo && ToU32(8 * n / 0x1_0000_0000) == hi
  {
    var q := 8 * n / 0x1_0000_0000_0000_0000;
    assert 8 * n == lo + 0x1_0000_0000 * (hi + 0x1_0000_0000 * q);
    assert 8 * n / 0x1_0000_0000 == hi + 0x1_0000_0000 * q;
  }

  /** MD5Final's choice of padding is the padding of section 3.1 of RFC 1321. */
  lemma PaddingIs(m: seq<U8>, padLen: nat)
    requires var index := Partial(|m|); padLen == if index < 56 then 56 - index else 120 - index
    ensures 1 <= padLen <= 64 && m + PADDING[..padLen] + LengthBytes(8 * |m|) == Pad(m)
  {
    var k := Blocks(|m|);
    assert (55 - |m|) % 64 == padLen - 1 by {
      var j := if Partial(|m|) < 56 then k else k + 1;
      assert 55 - |m| == padLen - 1 - 64 * j;
    }
    assert PADDING[..padLen] == [0x80] + Zeros(padLen - 1);
  }

  // ---------- the registers during an update of message m by x ----------

  lemma {:induction false} FirstBlock(m: seq<U8>, x: seq<U8>, p: nat, k: nat)
    requires |m| == 64 * k + p && p < 64 && 64 - p <= |x|
    ensures Transform(Fold(START, m), m[|m| - p..] + x[..64 - p]) == Fold(START, m + x[..64 - p])
  {
    hide Transform, Fold;
    var head, block := m[..|m| - p], m[|m| - p..] + x[..64 - p];
    assert m == head + m[|m| - p..] && m + x[..64 - p] == head + block;
    FoldPart(START, head, m[|m| - p..], k);
    FoldBlock(START, head, block, k);
  }

  lemma {:induction false} NextBlock(m: seq<U8>, x: seq<U8>, i: nat, blocks: nat)
    requires |m| + i == 64 * blocks && i + 64 <= |x|
    ensures Transform(Fold(START, m + x[..i]), x[i..i + 64]) == Fold(START, m + x[..i + 64])
  {
    hide Transform, Fold;
    assert m + x[..i + 64] == (m + x[..i]) + x[i..i + 64];
    FoldBlock(START, m + x[..i], x[i..i + 64], blocks);
  }

  lemma {:induction false} LastPart(m: seq<U8>, x: seq<U8>, i: nat, blocks: nat)
    requires |m| + i == 64 * blocks && i <= |x| < i + 64
    ensures Fold(START, m + x) == Fold(START, m + x[..i])
    ensures Partial(|m + x|) == |x| - i && (m + x)[|m + x| - Partial(|m + x|)..] == x[i..]
  {
    hide Transform, Fold;
    assert m + x == (m + x[..i]) + x[i..];
    FoldPart(START, m + x[..i], x[i..], blocks);
    PartialIs(|m + x|, blocks, |x| - i);
  }

  lemma {:induction false} OnlyBuffered(m: seq<U8>, x: seq<U8>, p: nat, k: nat)
    requires |m| == 64 * k + p && p + |x| < 64
    ensures Fold(START, m + x) == Fold(START, m)
    ensures Partial(|m + x|) == p + |x| && (m + x)[|m + x| - Partial(|m + x|)..] == m[|m| - p..] + x
  {
    hide Transform, Fold;
    var head := m[..|m| - p];
    assert m == head + m[|m| - p..] && m + x == head + (m[|m| - p..] + x);
    FoldPart(START, head, m[|m| - p..], k);
    FoldPart(START, head, m[|m| - p..] + x, k);
    PartialIs(|m + x|, k, p + |x|);
  }

  /** MD5_CTX. */
  class Context {
    const state: array<U32>
    const count: array<U32>
    const buffer: array<U8>

    /** Everything fed in since MD5Init. */
    ghost var msg: seq<U8>

    ghost predicate Shape() {
      state.Length == 4 && count.Length == 2 && buffer.Length == 64 && state != count
    }

    /** The registers have seen every complete block of the message, the buffer starts with
        the rest of it, and count is its length in bits modulo 2^64, low word first. */
    ghost predicate Valid()
      reads this, state, count, buffer
    {
      && Shape()
      && Registers(state) == Fold(START, msg)
      && buffer[..Partial(|msg|)] == msg[|msg| - Partial(|msg|)..]
      && Both(count[0], count[1]) == BitCount(|msg|)
    }

    lemma {:induction false} Facts()
      requires Valid()
      ensures Shape() && Both(count[0], count[1]) == BitCount(|msg|)
      ensures Abcd(state[0], state[1], state[2], state[3]) == Fold(START, msg)
    {
    }

    constructor ()
      ensures Shape() && fresh(state) && fresh(count) && fresh(buffer)
    {
      state := new U32[4](_ => 0);
      count := new U32[2](_ => 0);
      buffer := new U8[64](_ => 0);
    }

    /** MD5Init. */
    method MD5Init()
      requires Shape()
      modifies this, state, count
      ensures Valid() && msg == []
    {
      assert Fold(START, []) == START && Partial(0) == 0 && BitCount(0) == 0;
      hide Fold, Partial, BitCount;
      count[0], count[1] := 0, 0;
      state[0], state[1], state[2], state[3] := 0x67452301, 0xefcdab89, 0x98badcfe, 0x10325476;
      msg := [];
    }

    /** The counting half of MD5Update. */
    method AddCount(inputLen: U16)
      requires Shape() && Both(count[0], count[1]) == BitCount(|msg|)
      modifies count
      ensures Both(count[0], count[1]) == BitCount(|msg| + inputLen)
    {
      hide ToU32, BitCount;
      CountAdd(|msg|, count[0], count[1], inputLen);
      count[0] := ToU32(count[0] as int + 8 * inputLen);
      if count[0] < 8 * inputLen {
        count[1] := ToU32(count[1] as int + 1);
      }
      count[1] := ToU32(count[1] as int + inputLen / 0x2000_0000);
    }

    /** The transforming half: all blocks that the buffered bytes and the input complete. */
    method TransformBlocks(input: seq<U8>, inputLen: U16, index: U16) returns (i: U16, ghost blocks: nat)
      requires Shape() && inputLen <= |input| && index == Partial(|msg|) && inputLen >= 64 - index
      requires Registers(state) == Fold(START, msg) && buffer[..index] == msg[|msg| - index..]
      modifies state, buffer
      ensures i <= inputLen < i + 64 && |msg| + i == 64 * blocks
      ensures Registers(state) == Fold(START, msg + input[..inputLen][..i])
    {
      hide Fold, Transform, Partial, Blocks, ToU16;
      ghost var x, k := input[..inputLen], Blocks(|msg|);
      var partLen := ToU16(64 - index);
      MD5_memcpy(buffer, index, input, partLen);
      FirstBlock(msg, x, index, k);
      assert buffer[..] == msg[|msg| - index..] + x[..partLen];
      MD5Transform(state, buffer[..]);
      i, blocks := partLen, k + 1;
      while i + 63 < inputLen
        invariant i <= inputLen && |msg| + i == 64 * blocks
        invariant Registers(state) == Fold(START, msg + x[..i])
      {
        NextBlock(msg, x, i, blocks);
        assert input[i..i + 64] == x[i..i + 64];
        MD5Transform(state, input[i..i + 64]);
        i, blocks := ToU16(i + 64), blocks + 1;
      }
    }

    /** MD5Update: feed in the first inputLen bytes. */
    method MD5Update(input: seq<U8>, inputLen: U16)
      requires Valid() && inputLen <= |input|
      modifies this, state, count, buffer
      ensures Valid() && msg == old(msg) + input[..inputLen]
    {
      hide Fold, Transform, Partial, Blocks, FillOf, Both, BitCount, ToU16, ToU32;
      ghost var x := input[..inputLen];
      CountIndex(|msg|, count[0], count[1]);
      var index := FillOf(count[0]);
      AddCount(inputLen);
      var partLen := ToU16(64 - index);
      var i: U16 := 0;
      if inputLen >= partLen {
        ghost var blocks;
        i, blocks := TransformBlocks(input, inputLen, index);
        LastPart(msg, x, i, blocks);
        index := 0;
      } else {
        OnlyBuffered(msg, x, index, Blocks(|msg|));
      }
      MD5_memcpy(buffer, index, input[i..], ToU16(inputLen - i));
      msg := msg + x;
    }

    /** The padding half of MD5Final. */
    method FeedPadding()
      requires Valid()
      modifies this, state, count, buffer
      ensures Valid() && msg == Pad(old(msg))
    {
      assert |PADDING| == 64;
      hide Valid, Fold, Partial, FillOf, Both, BitCount, Encode, LengthBytes, Pad, PADDING, Zeros, ToU32;
      ghost var m := msg;
      Facts();
      CountIndex(|msg|, count[0], count[1]);
      CountWords(|msg|, count[0], count[1]);
      var bits := new U8[8](_ => 0);
      MD5_encode(bits, [count[0], count[1]], 8);
      ghost var tail := bits[..];
      assert tail == LengthBytes(8 * |m|);
      var index := FillOf(count[0]);
      var padLen: U16 := if index < 56 then 56 - index else 120 - index;
      PaddingIs(m, padLen);
      MD5Update(PADDING, padLen);
      assert msg == m + PADDING[..padLen] && bits[..] == tail;
      MD5Update(bits[..], 8);
      assert tail[..8] == tail;
    }

    /** MD5_memset over the whole context. */
    method Zeroize()
      requires Shape()
      modifies state, count, buffer
      ensures (forall i | 0 <= i < 4 :: state[i] == 0) && (forall i | 0 <= i < 2 :: count[i] == 0)
      ensures forall i | 0 <= i < 64 :: buffer[i] == 0
    {
      forall i | 0 <= i < 4 { state[i] := 0; }
      forall i | 0 <= i < 2 { count[i] := 0; }
      forall i | 0 <= i < 64 { buffer[i] := 0; }
    }

    /** MD5Final: the digest of everything fed in; the context is zeroed. */
    method MD5Final(digest: array<U8>)
      requires Valid() && digest.Length >= 16 && digest != buffer
      modifies this, state, count, buffer, digest
      ensures digest[..16] == Md5(old(msg))
      ensures digest[16..] == old(digest[16..])
      ensures (forall i | 0 <= i < 4 :: state[i] == 0) && (forall i | 0 <= i < 2 :: count[i] == 0)
      ensures forall i | 0 <= i < 64 :: buffer[i] == 0
    {
      hide Valid, Fold, Both, BitCount, Encode, Pad;
      FeedPadding();
      Facts();
      MD5_encode(digest, [state[0], state[1], state[2], state[3]], 16);
      Zeroize();
    }
  }

  /** MD5digest. */
  method MD5digest(digest: array<U8>, str: seq<U8>, len: U16)
    requires digest.Length >= 16 && len <= |str|
    modifies digest
    ensures digest[..16] == Md5(str[..len]) && digest[16..] == old(digest[16..])
  {
    hide Context.Valid, Md5;
    var context := new Context();
    context.MD5Init();
    context.MD5Update(str, len);
    assert [] + str[..len] == str[..len];
    context.MD5Final(digest);
  }

  // ---------- keyed digest ----------

  /** The block hmac_md5 derives from its key.  A key longer than a block passes through
      MD5Update, whose length argument is a U16. */
  ghost function KeyUsed(key: seq<U8>): seq<U8> {
    if |key| > 64 then Md5(key[..ToU16(|key|)]) + Zeros(48) else key + Zeros(64 - |key|)
  }

  /** One of the pads: the key block under XOR, in place. */
  method XorPad(key: seq<U8>, pad: U8) returns (k_pad: array<U8>)
    requires |key| <= 64
    ensures fresh(k_pad) && k_pad.Length == 65
    ensures k_pad[..64] == Xor(key + Zeros(64 - |key|), pad)
  {
    hide XorByte;
    k_pad := new U8[65](_ => 0);
    var i := 0;
    while i < |key|
      invariant 0 <= i <= |key|
      invariant forall k | 0 <= k < 65 :: k_pad[k] == if k < i then key[k] else 0
    {
      k_pad[i] := key[i];
      i := i + 1;
    }
    ghost var block := key + Zeros(64 - |key|);
    assert forall k | 0 <= k < 64 :: k_pad[k] == block[k];
    i := 0;
    while i < 64
      invariant 0 <= i <= 64
      invariant forall k | 0 <= k < 64 :: k_pad[k] == if k < i then XorByte(block[k], pad) else block[k]
    {
      k_pad[i] := XorByte(k_pad[i], pad);
      i := i + 1;
    }
  }

  /** The first step of hmac_md5: a key longer than a block is replaced by its digest. */
  method ShortKey(key: seq<U8>, key_len: int) returns (k: seq<U8>)
    requires 0 <= key_len <= |key|
    ensures |k| <= 64 && k + Zeros(64 - |k|) == KeyUsed(key[..key_len])
  {
    hide Context.Valid, ToU16, Md5;
    k := key[..key_len];
    if key_len > 64 {
      var tk := new U8[16](_ => 0);
      var tctx := new Context();
      tctx.MD5Init();
      tctx.MD5Update(key, ToU16(key_len));
      assert [] + key[..ToU16(key_len)] == k[..ToU16(key_len)];
      tctx.MD5Final(tk);
      assert tk[..16] == tk[..];
      k := tk[..];
    }
  }

  /** One pass of hmac_md5: the digest of a padded key followed by a text. */
  method KeyedPass(context: Context, k_pad: seq<U8>, text: seq<U8>, len: U16, digest: array<U8>)
    requires context.Shape() && |k_pad| == 65 && len <= |text| && digest.Length >= 16
    requires digest != context.buffer
    modifies context, context.state, context.count, context.buffer, digest
    ensures digest[..16] == Md5(k_pad[..64] + text[..len])
  {
    hide Context.Valid, Md5;
    context.MD5Init();
    context.MD5Update(k_pad, 64);
    context.MD5Update(text, len);
    assert context.msg == k_pad[..64] + text[..len];
    context.MD5Final(digest);
  }

  /** The tag of a text of text_len bytes: its length passes through a U16. */
  ghost function Tag(text: seq<U8>, text_len: int, key: seq<U8>, key_len: int): seq<U8>
    requires 0 <= text_len <= |text| && 0 <= key_len <= |key|
  {
    HmacBlock(KeyUsed(key[..key_len]), text[..ToU16(text_len)])
  }

  /** hmac_md5: for a key of at most 65535 bytes, RFC 2104 on the text as far as its U16
      length reaches. */
  method hmac_md5(text: seq<U8>, text_len: int, key: seq<U8>, key_len: int, digest: array<U8>)
    requires 0 <= text_len <= |text| && 0 <= key_len <= |key| && digest.Length >= 16
    modifies digest
    ensures digest[..16] == Tag(text, text_len, key, key_len)
    ensures key_len < 0x1_0000 ==> digest[..16] == Hmac(key[..key_len], text[..ToU16(text_len)])
  {
    hide ToU16, Md5, Xor, KeyUsed, Hmac, Zeros;
    if key_len < 0x1_0000 {
      HmacExact(key[..key_len], text[..ToU16(text_len)]);
    }
    var k := ShortKey(key, key_len);
    var k_ipad := XorPad(k, 0x36);
    var k_opad := XorPad(k, 0x5c);
    var context := new Context();
    KeyedPass(context, k_ipad[..], text, ToU16(text_len), digest);
    ghost var inner := digest[..16];
    KeyedPass(context, k_opad[..], digest[..], 16, digest);
    assert k_ipad[..][..64] == k_ipad[..64] && k_opad[..][..64] == k_opad[..64];
  }

  /** For keys of at most 65535 bytes the block derived is that of RFC 2104. */
  lemma {:induction false} HmacExact(key: seq<U8>, text: seq<U8>)
    requires |key| < 0x1_0000
    ensures HmacBlock(KeyUsed(key), text) == Hmac(key, text)
  {
    hide Md5, Xor, Zeros, ToU16;
    assert key[..|key|] == key;
    Md5Length(key);
  }

  lemma Md5Length(msg: seq<U8>)
    ensures |Md5(msg)| == 16
  {
    hide Fold, Pad;
  }

  /** A longer text is cut short: every text of 65536 bytes or more has the tag of the text
      without its last 65536. */
  lemma HmacTruncates(text: seq<U8>, text_len: int, key: seq<U8>, key_len: int)
    requires 0x1_0000 <= text_len <= |text| && 0 <= key_len <= |key|
    ensures Tag(text, text_len, key, key_len) == Tag(text, text_len - 0x1_0000, key, key_len)
  {
    SameU16(text_len);
    hide HmacBlock, KeyUsed, ToU16;
  }

  lemma SameU16(n: int)
    ensures ToU16(n) == ToU16(n - 0x1_0000)
  {
  }

  /** And texts with the same bytes up to there have one tag. */
  lemma TagDepends(text: seq<U8>, text_len: int, other: seq<U8>, other_len: int, key: seq<U8>, key_len: int)
    requires 0 <= text_len <= |text| && 0 <= other_len <= |other| && 0 <= key_len <= |key|
    requires ToU16(text_len) <= |text| && ToU16(other_len) <= |other|
    requires text[..ToU16(text_len)] == other[..ToU16(other_len)]
    ensures Tag(text, text_len, key, key_len) == Tag(other, other_len, key, key_len)
  {
    hide HmacBlock, KeyUsed, ToU16;
  }
}
