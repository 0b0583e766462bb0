/** The message digest of RFC 1321 and the keyed digest of RFC 2104, as functions. */
module Md5Spec {
  import opened Words
  import opened Seqs

  /** The four registers of section 3.3 of RFC 1321. */
  datatype Abcd = Abcd(a: U32, b: U32, c: U32, d: U32)

  const START := Abcd(0x67452301, 0xefcdab89, 0x98badcfe, 0x10325476)

  // ---------- words and bytes, low-order byte first ----------

  function Join(b0: int, b1: int, b2: int, b3: int): int {
    b0 + 0x100 * b1 + 0x1_0000 * b2 + 0x100_0000 * b3
  }

  function WordAt(b: seq<U8>, j: nat): U32
    requires j + 4 <= |b|
  {
    Join(b[j], b[j + 1], b[j + 2], b[j + 3])
  }

  function ByteOf(w: U32, j: nat): U8
    requires j < 4
  {
    ToU8(if j == 0 then w else if j == 1 then w / 0x100 else if j == 2 then w / 0x1_0000 else w / 0x100_0000)
  }

  function Encode(w: seq<U32>): (b: seq<U8>)
    ensures |b| == 4 * |w|
  {
    seq(4 * |w|, j requires 0 <= j < 4 * |w| => ByteOf(w[j / 4], j % 4))
  }

  function Decode(b: seq<U8>): (w: seq<U32>)
    requires |b| % 4 == 0
    ensures |w| == |b| / 4
  {
    seq(|b| / 4, i requires 0 <= i < |b| / 4 => WordAt(b, 4 * i))
  }

  // ---------- section 3.4 of RFC 1321 ----------

  function FBits(x: bv32, y: bv32, z: bv32): bv32 { (x & y) | (!x & z) }

  function GBits(x: bv32, y: bv32, z: bv32): bv32 { (x & z) | (y & !z) }

  function HBits(x: bv32, y: bv32, z: bv32): bv32 { x ^ y ^ z }

  function IBits(x: bv32, y: bv32, z: bv32): bv32 { y ^ (x | !z) }

  function RotateBits(x: bv32, n: bv6): bv32
    requires n <= 32
  {
    (x << n) | (x >> (32 - n))
  }

  /** The bits of a word. */
  function Bits(x: U32): bv32 { x as bv32 }

  function Value(v: bv32): U32 { v as U32 }

  function F(x: U32, y: U32, z: U32): U32 { Value(FBits(Bits(x), Bits(y), Bits(z))) }

  function G(x: U32, y: U32, z: U32): U32 { Value(GBits(Bits(x), Bits(y), Bits(z))) }

  function H(x: U32, y: U32, z: U32): U32 { Value(HBits(Bits(x), Bits(y), Bits(z))) }

  function I(x: U32, y: U32, z: U32): U32 { Value(IBits(Bits(x), Bits(y), Bits(z))) }

  function RotateLeft(x: U32, n: bv6): U32
    requires n <= 32
  {
    Value(RotateBits(Bits(x), n))
  }

  /** The auxiliary function of step i. */
  function Mix(i: nat, x: U32, y: U32, z: U32): U32 {
    if i < 16 then F(x, y, z) else if i < 32 then G(x, y, z) else if i < 48 then H(x, y, z) else I(x, y, z)
  }

  /** The block word that step i reads. */
  function WordIndex(i: nat): (k: nat)
    ensures k < 16
  {
    (if i < 16 then i else if i < 32 then 5 * i + 1 else if i < 48 then 3 * i + 5 else 7 * i) % 16
  }

  /** The rotation of step i. */
  function Shift(i: nat): (s: bv6)
    ensures 4 <= s <= 23
  {
    if i < 16 then Cycle(i, 7, 12, 17, 22)
    else if i < 32 then Cycle(i, 5, 9, 14, 20)
    else if i < 48 then Cycle(i, 4, 11, 16, 23)
    else Cycle(i, 6, 10, 15, 21)
  }

  function Cycle(i: nat, s1: bv6, s2: bv6, s3: bv6, s4: bv6): bv6 {
    if i % 4 == 0 then s1 else if i % 4 == 1 then s2 else if i % 4 == 2 then s3 else s4
  }

  /** Element i + 1 of the sine table. */
  function T(i: nat): U32 {
    if i < 16 then T1(i) else if i < 32 then T2(i) else if i < 48 then T3(i) else T4(i)
  }

  function T1(i: nat): U32 {
    match i
    case 0 => 0xd76aa478 case 1 => 0xe8c7b756 case 2 => 0x242070db case 3 => 0xc1bdceee
    case 4 => 0xf57c0faf case 5 => 0x4787c62a case 6 => 0xa8304613 case 7 => 0xfd469501
    case 8 => 0x698098d8 case 9 => 0x8b44f7af case 10 => 0xffff5bb1 case 11 => 0x895cd7be
    case 12 => 0x6b901122 case 13 => 0xfd987193 case 14 => 0xa679438e case _ => 0x49b40821
  }

  function T2(i: nat): U32 {
    match i
    case 16 => 0xf61e2562 case 17 => 0xc040b340 case 18 => 0x265e5a51 case 19 => 0xe9b6c7aa
    case 20 => 0xd62f105d case 21 => 0x02441453 case 22 => 0xd8a1e681 case 23 => 0xe7d3fbc8
    case 24 => 0x21e1cde6 case 25 => 0xc33707d6 case 26 => 0xf4d50d87 case 27 => 0x455a14ed
    case 28 => 0xa9e3e905 case 29 => 0xfcefa3f8 case 30 => 0x676f02d9 case _ => 0x8d2a4c8a
  }

  function T3(i: nat): U32 {
    match i
    case 32 => 0xfffa3942 case 33 => 0x8771f681 case 34 => 0x6d9d6122 case 35 => 0xfde5380c
    case 36 => 0xa4beea44 case 37 => 0x4bdecfa9 case 38 => 0xf6bb4b60 case 39 => 0xbebfbc70
    case 40 => 0x289b7ec6 case 41 => 0xeaa127fa case 42 => 0xd4ef3085 case 43 => 0x04881d05
    case 44 => 0xd9d4d039 case 45 => 0xe6db99e5 case 46 => 0x1fa27cf8 case _ => 0xc4ac5665
  }

  function T4(i: nat): U32 {
    match i
    case 48 => 0xf4292244 case 49 => 0x432aff97 case 50 => 0xab9423a7 case 51 => 0xfc93a039
    case 52 => 0x655b59c3 case 53 => 0x8f0ccc92 case 54 => 0xffeff47d case 55 => 0x85845dd1
    case 56 => 0x6fa87e4f case 57 => 0xfe2ce6e0 case 58 => 0xa3014314 case 59 => 0x4e0811a1
    case 60 => 0xf7537e82 case 61 => 0xbd3af235 case 62 => 0x2ad7d2bb case _ => 0xeb86d391
  }

  /** The operation [abcd k s i]: a = b + ((a + mix(b, c, d) + X[k] + T[i]) <<< s). */
  function Operation(mix: U32, a: U32, b: U32, x: U32, s: bv6, t: U32): U32
    requires s <= 32
  {
    ToU32(b + RotateLeft(ToU32(a + mix + x + t), s))
  }

  /** Step i of the 64, after which the registers trade places for the next one. */
  function Step(i: nat, q: Abcd, x: seq<U32>): Abcd
    requires |x| == 16
  {
    Abcd(q.d, Operation(Mix(i, q.b, q.c, q.d), q.a, q.b, x[WordIndex(i)], Shift(i), T(i)), q.b, q.c)
  }

  function Steps(q: Abcd, x: seq<U32>, n: nat): Abcd
    requires |x| == 16
  {
    if n == 0 then q else Step(n - 1, Steps(q, x, n - 1), x)
  }

  function Transform(q: Abcd, block: seq<U8>): Abcd
    requires |block| == 64
  {
    var r := Steps(q, Decode(block), 64);
    Abcd(ToU32(q.a + r.a), ToU32(q.b + r.b), ToU32(q.c + r.c), ToU32(q.d + r.d))
  }

  /** The registers after all complete blocks of the data. */
  function Fold(q: Abcd, data: seq<U8>): Abcd
    decreases |data|
  {
    if |data| < 64 then q else Fold(Transform(q, data[..64]), data[64..])
  }

  // ---------- sections 3.1, 3.2 and 3.5 of RFC 1321 ----------

  /** The bit count modulo 2^64 as two words, low-order word first. */
  function LengthBytes(bits: nat): seq<U8> {
    Encode([ToU32(bits), ToU32(bits / 0x1_0000_0000)])
  }

  function Pad(msg: seq<U8>): seq<U8> {
    msg + [0x80] + Zeros((55 - |msg|) % 64) + LengthBytes(8 * |msg|)
  }

  function Md5(msg: seq<U8>): seq<U8> {
    var q := Fold(START, Pad(msg));
    Encode([q.a, q.b, q.c, q.d])
  }

  // ---------- section 2 of RFC 2104 ----------

  function XorByte(b: U8, pad: U8): U8 { (b as bv8 ^ pad as bv8) as U8 }

  function Xor(b: seq<U8>, pad: U8): seq<U8> {
    seq(|b|, i requires 0 <= i < |b| => XorByte(b[i], pad))
  }

  /** The key, hashed if longer than a block, filled with zeros to a block. */
  function KeyBlock(key: seq<U8>): (b: seq<U8>) {
    var k := if |key| > 64 then Md5(key) else key;
    k + Zeros(64 - |k|)
  }

  function Hmac(key: seq<U8>, text: seq<U8>): seq<U8> {
    HmacBlock(KeyBlock(key), text)
  }

  function HmacBlock(k: seq<U8>, text: seq<U8>): seq<U8> {
    Md5(Xor(k, 0x5c) + Md5(Xor(k, 0x36) + text))
  }

  // ---------- the functions on words, bit by bit ----------

  lemma Back(v: bv32)
    ensures Bits(Value(v)) == v
  {
  }

  /** F chooses by x: y where it is set, z where it is not. */
  lemma FChooses(x: U32, y: U32, z: U32)
    ensures Bits(F(x, y, z)) & Bits(x) == Bits(y) & Bits(x)
    ensures Bits(F(x, y, z)) & !Bits(x) == Bits(z) & !Bits(x)
  {
    hide Bits, Value, FBits;
    Back(FBits(Bits(x), Bits(y), Bits(z)));
    FBitsChoose(Bits(x), Bits(y), Bits(z));
  }

  lemma FBitsChoose(x: bv32, y: bv32, z: bv32)
    ensures FBits(x, y, z) & x == y & x && FBits(x, y, z) & !x == z & !x
  {
  }

  /** G chooses by z: x where it is set, y where it is not. */
  lemma GChooses(x: U32, y: U32, z: U32)
    ensures Bits(G(x, y, z)) & Bits(z) == Bits(x) & Bits(z)
    ensures Bits(G(x, y, z)) & !Bits(z) == Bits(y) & !Bits(z)
  {
    hide Bits, Value, GBits;
    Back(GBits(Bits(x), Bits(y), Bits(z)));
    GBitsChoose(Bits(x), Bits(y), Bits(z));
  }

  lemma GBitsChoose(x: bv32, y: bv32, z: bv32)
    ensures GBits(x, y, z) & z == x & z && GBits(x, y, z) & !z == y & !z
  {
  }

  /** H adds without carry: the result and two of its arguments give the third. */
  lemma HAdds(x: U32, y: U32, z: U32)
    ensures Bits(H(x, y, z)) ^ Bits(x) ^ Bits(y) == Bits(z)
  {
    hide Bits, Value, HBits;
    Back(HBits(Bits(x), Bits(y), Bits(z)));
    HBitsAdd(Bits(x), Bits(y), Bits(z));
  }

  lemma HBitsAdd(x: bv32, y: bv32, z: bv32)
    ensures HBits(x, y, z) ^ x ^ y == z
  {
  }

  /** I keeps y where z is set and x is not, and inverts it elsewhere. */
  lemma IInverts(x: U32, y: U32, z: U32)
    ensures var keep := Bits(z) & !Bits(x);
      && Bits(I(x, y, z)) & keep == Bits(y) & keep
      && Bits(I(x, y, z)) & !keep == !Bits(y) & !keep
  {
    hide Bits, Value, IBits;
    Back(IBits(Bits(x), Bits(y), Bits(z)));
    IBitsInvert(Bits(x), Bits(y), Bits(z));
  }

  lemma IBitsInvert(x: bv32, y: bv32, z: bv32)
    ensures var keep := z & !x; IBits(x, y, z) & keep == y & keep && IBits(x, y, z) & !keep == !y & !keep
  {
  }

  /** x times 2^n modulo 2^32, with what that loses at the top brought in at the bottom, for
      the amounts of section 3.4. */
  function Times(x: bv32, n: bv6): bv32 {
    match n
    case 4 => x * 0x10 + x / 0x10000000
    case 5 => x * 0x20 + x / 0x8000000
    case 6 => x * 0x40 + x / 0x4000000
    case 7 => x * 0x80 + x / 0x2000000
    case 9 => x * 0x200 + x / 0x800000
    case 10 => x * 0x400 + x / 0x400000
    case 11 => x * 0x800 + x / 0x200000
    case 12 => x * 0x1000 + x / 0x100000
    case 14 => x * 0x4000 + x / 0x40000
    case 15 => x * 0x8000 + x / 0x20000
    case 16 => x * 0x10000 + x / 0x10000
    case 17 => x * 0x20000 + x / 0x8000
    case 20 => x * 0x100000 + x / 0x1000
    case 21 => x * 0x200000 + x / 0x800
    case 22 => x * 0x400000 + x / 0x400
    case 23 => x * 0x800000 + x / 0x200
    case _ => x
  }

  lemma RotateRound1(x: bv32, n: bv6)
    requires n == 7 || n == 12 || n == 17 || n == 22
    ensures RotateBits(x, n) == Times(x, n)
  {
    match n
    case 7 => assert RotateBits(x, 7) == x * 0x80 + x / 0x2000000;
    case 12 => assert RotateBits(x, 12) == x * 0x1000 + x / 0x100000;
    case 17 => assert RotateBits(x, 17) == x * 0x20000 + x / 0x8000;
    case 22 => assert RotateBits(x, 22) == x * 0x400000 + x / 0x400;
  }

  lemma RotateRound2(x: bv32, n: bv6)
    requires n == 5 || n == 9 || n == 14 || n == 20
    ensures RotateBits(x, n) == Times(x, n)
  {
    match n
    case 5 => assert RotateBits(x, 5) == x * 0x20 + x / 0x8000000;
    case 9 => assert RotateBits(x, 9) == x * 0x200 + x / 0x800000;
    case 14 => assert RotateBits(x, 14) == x * 0x4000 + x / 0x40000;
    case 20 => assert RotateBits(x, 20) == x * 0x100000 + x / 0x1000;
  }

  lemma RotateRound3(x: bv32, n: bv6)
    requires n == 4 || n == 11 || n == 16 || n == 23
    ensures RotateBits(x, n) == Times(x, n)
  {
    match n
    case 4 => assert RotateBits(x, 4) == x * 0x10 + x / 0x10000000;
    case 11 => assert RotateBits(x, 11) == x * 0x800 + x / 0x200000;
    case 16 => assert RotateBits(x, 16) == x * 0x10000 + x / 0x10000;
    case 23 => assert RotateBits(x, 23) == x * 0x800000 + x / 0x200;
  }

  lemma RotateRound4(x: bv32, n: bv6)
    requires n == 6 || n == 10 || n == 15 || n == 21
    ensures RotateBits(x, n) == Times(x, n)
  {
    match n
    case 6 => assert RotateBits(x, 6) == x * 0x40 + x / 0x4000000;
    case 10 => assert RotateBits(x, 10) == x * 0x400 + x / 0x400000;
    case 15 => assert RotateBits(x, 15) == x * 0x8000 + x / 0x20000;
    case 21 => assert RotateBits(x, 21) == x * 0x200000 + x / 0x800;
  }

  lemma RotateTimes(x: bv32, i: nat)
    requires i < 64
    ensures RotateBits(x, Shift(i)) == Times(x, Shift(i))
  {
    hide RotateBits, Times;
    if i < 16 {
      RotateRound1(x, Shift(i));
    } else if i < 32 {
      RotateRound2(x, Shift(i));
    } else if i < 48 {
      RotateRound3(x, Shift(i));
    } else {
      RotateRound4(x, Shift(i));
    }
  }

  /** Every rotation of the 64 steps is that. */
  lemma RotateIs(x: U32, i: nat)
    requires i < 64
    ensures Bits(RotateLeft(x, Shift(i))) == Times(Bits(x), Shift(i))
  {
    hide Bits, Value, RotateBits, Times;
    Back(RotateBits(Bits(x), Shift(i)));
    RotateTimes(Bits(x), i);
  }

  lemma Back8(v: bv8)
    ensures (v as U8) as bv8 == v
  {
  }

  // ---------- bytes of words ----------

  /** The bytes of a word as Encode orders them: the low-order one first. */
  lemma LowByteFirst(w: U32)
    ensures var b := Encode([w]);
      w == b[0] as int + 0x100 * b[1] as int + 0x1_0000 * b[2] as int + 0x100_0000 * b[3] as int
  {
    EncodeAt([w], 0, 0);
    EncodeAt([w], 0, 1);
    EncodeAt([w], 0, 2);
    EncodeAt([w], 0, 3);
    BytesJoin(w);
    hide Encode, ByteOf;
  }

  /** The count that ends the padding is that of the bits modulo 2^64, low-order byte first. */
  lemma LengthIs(bits: nat)
    ensures var b := LengthBytes(bits);
      |b| == 8 && Join(b[0], b[1], b[2], b[3]) + 0x1_0000_0000 * Join(b[4], b[5], b[6], b[7]) ==
        bits % 0x1_0000_0000_0000_0000
  {
    var lo, hi := ToU32(bits), ToU32(bits / 0x1_0000_0000);
    LowHigh(bits);
    EncodeTwo(lo, hi);
    BytesJoin(lo);
    BytesJoin(hi);
    hide Encode, ByteOf, Join, ToU32;
  }

  lemma LowHigh(bits: nat)
    ensures ToU32(bits) as int + 0x1_0000_0000 * ToU32(bits / 0x1_0000_0000) as int == bits % 0x1_0000_0000_0000_0000
  {
    assert bits / 0x1_0000_0000 / 0x1_0000_0000 == bits / 0x1_0000_0000_0000_0000;
  }

  lemma EncodeTwo(a: U32, b: U32)
    ensures var e := Encode([a, b]);
      && |e| == 8
      && (forall k | 0 <= k < 4 :: e[k] == ByteOf(a, k))
      && (forall k | 0 <= k < 4 :: e[4 + k] == ByteOf(b, k))
  {
    hide ByteOf;
  }

  /** The keyed digest of section 2 of RFC 2104 over a key block k, byte by byte. */
  lemma HmacIs(k: seq<U8>, text: seq<U8>)
    ensures var inner, outer := Xor(k, 0x36), Xor(k, 0x5c);
      && |inner| == |outer| == |k|
      && (forall j | 0 <= j < |k| :: inner[j] as bv8 == k[j] as bv8 ^ 0x36 && outer[j] as bv8 == k[j] as bv8 ^ 0x5c)
      && HmacBlock(k, text) == Md5(outer + Md5(inner + text))
  {
    hide Md5;
    forall j | 0 <= j < |k|
      ensures XorByte(k[j], 0x36) as bv8 == k[j] as bv8 ^ 0x36 && XorByte(k[j], 0x5c) as bv8 == k[j] as bv8 ^ 0x5c
    {
      Back8(k[j] as bv8 ^ 0x36);
      Back8(k[j] as bv8 ^ 0x5c);
    }
    hide XorByte;
  }

  /** And that block is the key, or its digest if it is longer than 64 bytes, then zeros. */
  lemma KeyBlockIs(key: seq<U8>, j: nat)
    requires j < 64
    ensures |KeyBlock(key)| == 64
    ensures KeyBlock(key)[j] ==
      if |key| > 64 then (if j < 16 then Md5(key)[j] else 0) else if j < |key| then key[j] else 0
  {
    hide Fold;
  }

  // ---------- laws ----------

  lemma JoinBytes(b0: U8, b1: U8, b2: U8, b3: U8)
    ensures var w := Join(b0, b1, b2, b3);
      ByteOf(w, 0) == b0 && ByteOf(w, 1) == b1 && ByteOf(w, 2) == b2 && ByteOf(w, 3) == b3
  {
    var w := Join(b0, b1, b2, b3);
    assert w / 0x100 == b1 + 0x100 * b2 + 0x1_0000 * b3;
    assert w / 0x1_0000 == b2 + 0x100 * b3;
    assert w / 0x100_0000 == b3;
  }

  lemma BytesJoin(w: U32)
    ensures Join(ByteOf(w, 0), ByteOf(w, 1), ByteOf(w, 2), ByteOf(w, 3)) == w
  {
    var w1 := w / 0x100;
    var w2 := w1 / 0x100;
    var w3 := w2 / 0x100;
    assert w2 == w / 0x1_0000 && w3 == w / 0x100_0000;
    assert w == 0x100 * w1 + w % 0x100 && w1 == 0x100 * w2 + w1 % 0x100 && w2 == 0x100 * w3 + w2 % 0x100;
  }

  lemma EncodeAt(w: seq<U32>, i: nat, k: nat)
    requires i < |w| && k < 4
    ensures Encode(w)[4 * i + k] == ByteOf(w[i], k)
  {
    assert (4 * i + k) / 4 == i && (4 * i + k) % 4 == k;
  }

  lemma DecodeAt(b: seq<U8>, i: nat)
    requires |b| % 4 == 0 && i < |b| / 4
    ensures Decode(b)[i] == WordAt(b, 4 * i)
  {
  }

  lemma DecodeEncodeAt(w: seq<U32>, i: nat)
    requires i < |w|
    ensures Decode(Encode(w))[i] == w[i]
  {
    DecodeAt(Encode(w), i);
    EncodeAt(w, i, 0);
    EncodeAt(w, i, 1);
    EncodeAt(w, i, 2);
    EncodeAt(w, i, 3);
    hide Decode, Encode, ByteOf, Join;
    BytesJoin(w[i]);
  }

  /** Decoding undoes encoding. */
  lemma DecodeEncode(w: seq<U32>)
    ensures Decode(Encode(w)) == w
  {
    hide *;
    forall i | 0 <= i < |w|
      ensures Decode(Encode(w))[i] == w[i]
    {
      DecodeEncodeAt(w, i);
    }
  }

  lemma {:induction false} EncodeDecodeAt(b: seq<U8>, i: nat, k: nat)
    requires |b| % 4 == 0 && i < |b| / 4 && k < 4
    ensures Encode(Decode(b))[4 * i + k] == b[4 * i + k]
  {
    DecodeAt(b, i);
    EncodeAt(Decode(b), i, k);
    JoinBytes(b[4 * i], b[4 * i + 1], b[4 * i + 2], b[4 * i + 3]);
    hide Decode, Encode, ByteOf, Join;
  }

  /** Encoding undoes decoding. */
  lemma {:induction false} EncodeDecode(b: seq<U8>)
    requires |b| % 4 == 0
    ensures Encode(Decode(b)) == b
  {
    hide *;
    forall j | 0 <= j < |b|
      ensures Encode(Decode(b))[j] == b[j]
    {
      EncodeDecodeAt(b, j / 4, j % 4);
    }
  }

  lemma {:induction false} FoldShort(q: Abcd, data: seq<U8>)
    requires |data| < 64
    ensures Fold(q, data) == q
  {
  }

  lemma {:induction false} FoldFirst(q: Abcd, data: seq<U8>)
    requires |data| >= 64
    ensures Fold(q, data) == Fold(Transform(q, data[..64]), data[64..])
  {
    hide Transform;
  }

  /** Blocks may be folded in any number of goes. */
  lemma {:induction false} FoldAppend(q: Abcd, a: seq<U8>, b: seq<U8>, blocks: nat)
    requires |a| == 64 * blocks
    ensures Fold(q, a + b) == Fold(Fold(q, a), b)
    decreases blocks
  {
    hide Fold, Transform;
    if blocks == 0 {
      FoldShort(q, a);
      assert a + b == b;
    } else {
      FoldFirst(q, a);
      FoldFirst(q, a + b);
      assert (a + b)[..64] == a[..64] && (a + b)[64..] == a[64..] + b;
      FoldAppend(Transform(q, a[..64]), a[64..], b, blocks - 1);
    }
  }

  /** A trailing part shorter than a block does not reach the registers. */
  lemma {:induction false} FoldPart(q: Abcd, a: seq<U8>, b: seq<U8>, blocks: nat)
    requires |a| == 64 * blocks && |b| < 64
    ensures Fold(q, a + b) == Fold(q, a)
  {
    hide Fold;
    FoldAppend(q, a, b, blocks);
    FoldShort(Fold(q, a), b);
  }

  lemma {:induction false} FoldBlock(q: Abcd, a: seq<U8>, block: seq<U8>, blocks: nat)
    requires |a| == 64 * blocks && |block| == 64
    ensures Fold(q, a + block) == Transform(Fold(q, a), block)
  {
    hide Fold, Transform;
    FoldAppend(q, a, block, blocks);
    FoldFirst(Fold(q, a), block);
    assert block[..64] == block;
    FoldShort(Transform(Fold(q, a), block), block[64..]);
  }

  /** Padding always ends on a block boundary, and keeps the message as a prefix. */
  lemma PadWhole(msg: seq<U8>)
    ensures |Pad(msg)| % 64 == 0 && |Pad(msg)| >= |msg| + 9 && Pad(msg)[..|msg|] == msg
  {
    hide Encode;
    var zeros := (55 - |msg|) % 64;
    assert Pad(msg) == msg + ([0x80] + Zeros(zeros) + LengthBytes(8 * |msg|));
    assert |Pad(msg)| == |msg| + 9 + zeros;
    PadArithmetic(|msg|, zeros);
  }

  lemma PadArithmetic(n: nat, zeros: nat)
    requires zeros == (55 - n) % 64
    ensures (n + 9 + zeros) % 64 == 0
  {
    var q := (55 - n) / 64;
    assert n + 9 + zeros == 64 * (1 - q);
  }
}
