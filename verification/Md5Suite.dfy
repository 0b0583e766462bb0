/** A known answer of section A.5 of RFC 1321, worked out step by step: the digest of the
    alphabet.  It ties every table, order and constant of Md5Spec to the standard. */
module Md5Suite {
  import opened Words
  import opened Seqs
  import opened Md5Spec

  /** The letters a to z. */
  const ALPHABET: seq<U8> := seq(26, i requires 0 <= i < 26 => 0x61 + i)

  /** Word k of the padded alphabet. */
  function Word(k: nat): U32 {
    match k
    case 0 => 0x64636261
    case 1 => 0x68676665
    case 2 => 0x6c6b6a69
    case 3 => 0x706f6e6d
    case 4 => 0x74737271
    case 5 => 0x78777675
    case 6 => 0x00807a79
    case 14 => 208
    case _ => 0
  }

  function Block(): seq<U32> {
    seq(16, k requires 0 <= k < 16 => Word(k))
  }

  /** The registers after n steps, as bit-vectors. */
  ghost predicate At(n: nat, a: bv32, b: bv32, c: bv32, d: bv32) {
    Steps(START, Block(), n) == Abcd(Value(a), Value(b), Value(c), Value(d))
  }

  function MixBits(i: nat, x: bv32, y: bv32, z: bv32): bv32 {
    if i < 16 then FBits(x, y, z) else if i < 32 then GBits(x, y, z)
    else if i < 48 then HBits(x, y, z) else IBits(x, y, z)
  }

  lemma MixIs(i: nat, x: bv32, y: bv32, z: bv32)
    ensures Mix(i, Value(x), Value(y), Value(z)) == Value(MixBits(i, x, y, z))
  {
    hide FBits, GBits, HBits, IBits, Bits, Value;
    Back(x);
    Back(y);
    Back(z);
  }

  lemma RotateBack(x: bv32, n: bv6)
    requires n <= 32
    ensures RotateLeft(Value(x), n) == Value(RotateBits(x, n))
  {
    hide Bits, Value, RotateBits;
    Back(x);
  }

  lemma StepFrom(i: nat, q: Abcd, r: Abcd)
    requires Steps(START, Block(), i) == q && Step(i, q, Block()) == r
    ensures Steps(START, Block(), i + 1) == r
  {
    hide Step;
  }

  /** One step: t is the sum before the rotation, n the new register. */
  lemma NextAt(i: nat, a: bv32, b: bv32, c: bv32, d: bv32, mix: bv32, t: bv32, rotated: bv32, n: bv32)
    requires At(i, a, b, c, d)
    requires MixBits(i, b, c, d) == mix && RotateBits(t, Shift(i)) == rotated
    requires Value(t) == ToU32(Value(a) + Value(mix) + Word(WordIndex(i)) + T(i))
    requires Value(n) == ToU32(Value(b) + Value(rotated))
    ensures At(i + 1, d, n, b, c)
  {
    hide MixBits, RotateBits, T, Shift, WordIndex, Word, ToU32, Mix, RotateLeft, Value, Steps;
    MixIs(i, b, c, d);
    RotateBack(t, Shift(i));
    StepFrom(i, Abcd(Value(a), Value(b), Value(c), Value(d)), Abcd(Value(d), Value(n), Value(b), Value(c)));
  }

  lemma Steps0()
    requires At(0, 0x67452301, 0xefcdab89, 0x98badcfe, 0x10325476)
    ensures At(4, 0xd6d117a6, 0x4503b812, 0x227d8cf1, 0xaab1aaaa)
  {
    hide At, Steps;
    NextAt(0, 0x67452301, 0xefcdab89, 0x98badcfe, 0x10325476,
      0x98badcfe, 0x3bce06d8, 0xe7036c1d, 0xd6d117a6);
    NextAt(1, 0x10325476, 0xd6d117a6, 0xefcdab89, 0x98badcfe,
      0xceebcbd8, 0x304d3e09, 0xd3e09304, 0xaab1aaaa);
    NextAt(2, 0x98badcfe, 0xaab1aaaa, 0xd6d117a6, 0xefcdab89,
      0xc7dd03a3, 0xf123bbe5, 0x77cbe247, 0x227d8cf1);
    NextAt(3, 0xefcdab89, 0x227d8cf1, 0xaab1aaaa, 0xd6d117a6,
      0xf6b19ba6, 0x18ac848a, 0x22862b21, 0x4503b812);
  }

  lemma Steps4()
    requires At(4, 0xd6d117a6, 0x4503b812, 0x227d8cf1, 0xaab1aaaa)
    ensures At(8, 0xfe15f787, 0xda9bbb0d, 0xb71122fc, 0xa811b278)
  {
    hide At, Steps;
    NextAt(4, 0xd6d117a6, 0x4503b812, 0x227d8cf1, 0xaab1aaaa,
      0xaab18ab8, 0xeb72247e, 0xb9123f75, 0xfe15f787);
    NextAt(5, 0xaab1aaaa, 0xfe15f787, 0x4503b812, 0x227d8cf1,
      0x4469b872, 0xaf1a9fbb, 0xa9fbbaf1, 0xa811b278);
    NextAt(6, 0x227d8cf1, 0xa811b278, 0xfe15f787, 0x4503b812,
      0xed13ba02, 0xb842077f, 0x0eff7084, 0xb71122fc);
    NextAt(7, 0x4503b812, 0xb71122fc, 0xa811b278, 0xfe15f787,
      0xe815f77b, 0x2a60448e, 0x238a9811, 0xda9bbb0d);
  }

  lemma Steps8()
    requires At(8, 0xfe15f787, 0xda9bbb0d, 0xb71122fc, 0xa811b278)
    ensures At(12, 0xae752899, 0x56cfa5cb, 0x7d4bd80b, 0x2bbe757f)
  {
    hide At, Steps;
    NextAt(8, 0xfe15f787, 0xda9bbb0d, 0xb71122fc, 0xa811b278,
      0xb211227c, 0x19a7b2db, 0xd3d96d8c, 0xae752899);
    NextAt(9, 0xa811b278, 0xae752899, 0xda9bbb0d, 0xb71122fc,
      0x9b112a6d, 0xce67d494, 0x7d494ce6, 0x2bbe757f);
    NextAt(10, 0xb71122fc, 0x2bbe757f, 0xae752899, 0xda9bbb0d,
      0xfa35aa19, 0xb14628c6, 0x518d628c, 0x7d4bd80b);
    NextAt(11, 0xda9bbb0d, 0x7d4bd80b, 0x2bbe757f, 0xae752899,
      0xab3e709b, 0x0f370366, 0xd983cdc0, 0x56cfa5cb);
  }

  lemma Steps12()
    requires At(12, 0xae752899, 0x56cfa5cb, 0x7d4bd80b, 0x2bbe757f)
    ensures At(16, 0x1754a316, 0x608d6b7e, 0x00df74d5, 0x85567d90)
  {
    hide At, Steps;
    NextAt(12, 0xae752899, 0x56cfa5cb, 0x7d4bd80b, 0x2bbe757f,
      0x7d7bd03f, 0x978109fa, 0xc084fd4b, 0x1754a316);
    NextAt(13, 0x2bbe757f, 0x1754a316, 0x56cfa5cb, 0x7d4bd80b,
      0x7e4ff90b, 0xa7a6e01d, 0x6e01da7a, 0x85567d90);
    NextAt(14, 0x7d4bd80b, 0x85567d90, 0x1754a316, 0x56cfa5cb,
      0x57dda15b, 0x7ba2bdc4, 0x7b88f745, 0x00df74d5);
    NextAt(15, 0x56cfa5cb, 0x00df74d5, 0x85567d90, 0x1754a316,
      0x1756f792, 0xb7daa57e, 0x5fadf6a9, 0x608d6b7e);
  }

  lemma Steps16()
    requires At(16, 0x1754a316, 0x608d6b7e, 0x00df74d5, 0x85567d90)
    ensures At(20, 0x2d8071cc, 0x4c2145b3, 0xedfe7e4b, 0x5dcee119)
  {
    hide At, Steps;
    NextAt(16, 0x1754a316, 0x608d6b7e, 0x00df74d5, 0x85567d90,
      0x008d6955, 0x76679832, 0xccf3064e, 0x2d8071cc);
    NextAt(17, 0x85567d90, 0x2d8071cc, 0x608d6b7e, 0x00df74d5,
      0x60807bee, 0xa6982737, 0x304e6f4d, 0x5dcee119);
    NextAt(18, 0x00df74d5, 0x5dcee119, 0x2d8071cc, 0x608d6b7e,
      0x4d8c7198, 0x74ca40be, 0x902f9d32, 0xedfe7e4b);
    NextAt(19, 0x608d6b7e, 0xedfe7e4b, 0x5dcee119, 0x2d8071cc,
      0x7dcef059, 0x2c7685e2, 0x5e22c768, 0x4c2145b3);
  }

  lemma Steps20()
    requires At(20, 0x2d8071cc, 0x4c2145b3, 0xedfe7e4b, 0x5dcee119)
    ensures At(24, 0x570c43e0, 0xc9f162d4, 0xc28ab49d, 0x977efd2a)
  {
    hide At, Steps;
    NextAt(20, 0x2d8071cc, 0x4c2145b3, 0xedfe7e4b, 0x5dcee119,
      0xec305f53, 0x685757f1, 0x0aeafe2d, 0x570c43e0);
    NextAt(21, 0x5dcee119, 0x570c43e0, 0x4c2145b3, 0xedfe7e4b,
      0x450d43f0, 0xa520395c, 0x4072b94a, 0x977efd2a);
    NextAt(22, 0xedfe7e4b, 0x977efd2a, 0x570c43e0, 0x4c2145b3,
      0x172c4762, 0xddccac2e, 0x2b0bb773, 0xc28ab49d);
    NextAt(23, 0x4c2145b3, 0xc28ab49d, 0x977efd2a, 0x570c43e0,
      0xc27abc8a, 0x6ae37076, 0x0766ae37, 0xc9f162d4);
  }

  lemma Steps24()
    requires At(24, 0x570c43e0, 0xc9f162d4, 0xc28ab49d, 0x977efd2a)
    ensures At(28, 0x25bfae3b, 0xe6d3b398, 0xf8c8365f, 0x89980104)
  {
    hide At, Steps;
    NextAt(24, 0x570c43e0, 0xc9f162d4, 0xc28ab49d, 0x977efd2a,
      0xc1f06095, 0x3ade725b, 0x5bce4b67, 0x25bfae3b);
    NextAt(25, 0x977efd2a, 0x25bfae3b, 0xc9f162d4, 0xc28ab49d,
      0x09fbe659, 0x64b1ec29, 0x63d852c9, 0x89980104);
    NextAt(26, 0xc28ab49d, 0x89980104, 0x25bfae3b, 0xc9f162d4,
      0xad9e8c2f, 0xd56dbcc0, 0x6f30355b, 0xf8c8365f);
    NextAt(27, 0xc9f162d4, 0xf8c8365f, 0x89980104, 0x25bfae3b,
      0xa888271f, 0xb7d39ee0, 0xee0b7d39, 0xe6d3b398);
  }

  lemma Steps28()
    requires At(28, 0x25bfae3b, 0xe6d3b398, 0xf8c8365f, 0x89980104)
    ensures At(32, 0xf54d8710, 0xaeb35766, 0x2e69afc7, 0x927b72e2)
  {
    hide At, Steps;
    NextAt(28, 0x25bfae3b, 0xe6d3b398, 0xf8c8365f, 0x89980104,
      0xf0d0375b, 0xc073ce9b, 0x0e79d378, 0xf54d8710);
    NextAt(29, 0x89980104, 0xf54d8710, 0xe6d3b398, 0xf8c8365f,
      0xf65b8790, 0xe94e96f5, 0x9d2debd2, 0x927b72e2);
    NextAt(30, 0xf8c8365f, 0x927b72e2, 0xf54d8710, 0xe6d3b398,
      0x935f3680, 0xf3966fb8, 0x9bee3ce5, 0x2e69afc7);
    NextAt(31, 0xe6d3b398, 0x2e69afc7, 0x927b72e2, 0xf54d8710,
      0x267bf7e2, 0x9a79f804, 0x8049a79f, 0xaeb35766);
  }

  lemma Steps32()
    requires At(32, 0xf54d8710, 0xaeb35766, 0x2e69afc7, 0x927b72e2)
    ensures At(36, 0xb4bf680e, 0x06a5e211, 0x2361ed0a, 0x4c8ffa80)
  {
    hide At, Steps;
    NextAt(32, 0xf54d8710, 0xaeb35766, 0x2e69afc7, 0x927b72e2,
      0x12a18a43, 0x8060c10a, 0x060c10a8, 0xb4bf680e);
    NextAt(33, 0x927b72e2, 0xb4bf680e, 0xaeb35766, 0x2e69afc7,
      0x346590af, 0x4e52fa12, 0x97d09272, 0x4c8ffa80);
    NextAt(34, 0x2e69afc7, 0x4c8ffa80, 0xb4bf680e, 0xaeb35766,
      0x5683c5e8, 0xf28ad6d1, 0xd6d1f28a, 0x2361ed0a);
    NextAt(35, 0xaeb35766, 0x2361ed0a, 0x4c8ffa80, 0xb4bf680e,
      0xdb517f84, 0x87ea0fc6, 0xe343f507, 0x06a5e211);
  }

  lemma Steps36()
    requires At(36, 0xb4bf680e, 0x06a5e211, 0x2361ed0a, 0x4c8ffa80)
    ensures At(40, 0xb9c0c733, 0x8d41bf99, 0x23a9451b, 0xf1e6dc7a)
  {
    hide At, Steps;
    NextAt(36, 0xb4bf680e, 0x06a5e211, 0x2361ed0a, 0x4c8ffa80,
      0x694bf59b, 0x2b31ae52, 0xb31ae522, 0xb9c0c733);
    NextAt(37, 0x4c8ffa80, 0xb9c0c733, 0x06a5e211, 0x2361ed0a,
      0x9c04c828, 0xa8e704c2, 0x38261547, 0xf1e6dc7a);
    NextAt(38, 0x2361ed0a, 0xf1e6dc7a, 0xb9c0c733, 0x06a5e211,
      0x4e83f958, 0x68a131c2, 0x31c268a1, 0x23a9451b);
    NextAt(39, 0x06a5e211, 0x23a9451b, 0xf1e6dc7a, 0xb9c0c733,
      0x6b8f5e52, 0x30f4fcd3, 0x69987a7e, 0x8d41bf99);
  }

  lemma Steps40()
    requires At(40, 0xb9c0c733, 0x8d41bf99, 0x23a9451b, 0xf1e6dc7a)
    ensures At(44, 0xa3e88ead, 0x90a35af5, 0x66f6468d, 0x02c0b11c)
  {
    hide At, Steps;
    NextAt(40, 0xb9c0c733, 0x8d41bf99, 0x23a9451b, 0xf1e6dc7a,
      0x5f0e26f8, 0x416a6cf1, 0x16a6cf14, 0xa3e88ead);
    NextAt(41, 0xf1e6dc7a, 0xa3e88ead, 0x8d41bf99, 0x23a9451b,
      0x0d00742f, 0x4debdb04, 0x5ed8226f, 0x02c0b11c);
    NextAt(42, 0x23a9451b, 0x02c0b11c, 0xa3e88ead, 0x8d41bf99,
      0x2c698028, 0x95716435, 0x64359571, 0x66f6468d);
    NextAt(43, 0x8d41bf99, 0x66f6468d, 0x02c0b11c, 0xa3e88ead,
      0xc7de793c, 0x5a28d053, 0x29ad1468, 0x90a35af5);
  }

  lemma Steps44()
    requires At(44, 0xa3e88ead, 0x90a35af5, 0x66f6468d, 0x02c0b11c)
    ensures At(48, 0xb5d41f9c, 0x71d10367, 0x703d54d8, 0xa04b4904)
  {
    hide At, Steps;
    NextAt(44, 0xa3e88ead, 0x90a35af5, 0x66f6468d, 0x02c0b11c,
      0xf495ad64, 0x72530c4a, 0x2530c4a7, 0xb5d41f9c);
    NextAt(45, 0x02c0b11c, 0xb5d41f9c, 0x90a35af5, 0x66f6468d,
      0x438103e4, 0x2d1d4ee5, 0xea772968, 0xa04b4904);
    NextAt(46, 0x66f6468d, 0xa04b4904, 0xb5d41f9c, 0x90a35af5,
      0x853c0c6d, 0x0bd4cff2, 0xcff20bd4, 0x703d54d8);
    NextAt(47, 0x90a35af5, 0x703d54d8, 0xa04b4904, 0xb5d41f9c,
      0x65a20240, 0x275d1e03, 0x0193ae8f, 0x71d10367);
  }

  lemma Steps48()
    requires At(48, 0xb5d41f9c, 0x71d10367, 0x703d54d8, 0xa04b4904)
    ensures At(52, 0xfc32dd6e, 0x33edb197, 0xb35602cb, 0x65456b34)
  {
    hide At, Steps;
    NextAt(48, 0xb5d41f9c, 0x71d10367, 0x703d54d8, 0xa04b4904,
      0x0fc8e327, 0x1e298768, 0x8a61da07, 0xfc32dd6e);
    NextAt(49, 0xa04b4904, 0xfc32dd6e, 0x71d10367, 0x703d54d8,
      0x8e23fc08, 0x719a44a3, 0x69128dc6, 0x65456b34);
    NextAt(50, 0x703d54d8, 0x65456b34, 0xfc32dd6e, 0x71d10367,
      0x135d22d2, 0x2f2e9c21, 0x4e109797, 0xb35602cb);
    NextAt(51, 0x71d10367, 0xb35602cb, 0x65456b34, 0xfc32dd6e,
      0xd69a49ef, 0xbd766404, 0x8097aecc, 0x33edb197);
  }

  lemma Steps52()
    requires At(52, 0xfc32dd6e, 0x33edb197, 0xb35602cb, 0x65456b34)
    ensures At(56, 0xc1e942f1, 0x83877d1b, 0x23a68048, 0xd9bb987c)
  {
    hide At, Steps;
    NextAt(52, 0xfc32dd6e, 0x33edb197, 0xb35602cb, 0x65456b34,
      0x08a9b714, 0x6a37ee45, 0x8dfb915a, 0xc1e942f1);
    NextAt(53, 0x65456b34, 0xc1e942f1, 0x33edb197, 0xb35602cb,
      0xfe044e62, 0x62c5f495, 0x17d2558b, 0xd9bb987c);
    NextAt(54, 0xb35602cb, 0xd9bb987c, 0xc1e942f1, 0x33edb197,
      0x1c529c8d, 0xcf9893d5, 0x49eae7cc, 0x23a68048);
    NextAt(55, 0x33edb197, 0x23a68048, 0xd9bb987c, 0xc1e942f1,
      0xe60d2532, 0x07e69aff, 0x5fe0fcd3, 0x83877d1b);
  }

  lemma Steps56()
    requires At(56, 0xc1e942f1, 0x83877d1b, 0x23a68048, 0xd9bb987c)
    ensures At(60, 0x0077c208, 0x5e6bc930, 0xa3e2247f, 0x847fc2e7)
  {
    hide At, Steps;
    NextAt(56, 0xc1e942f1, 0x83877d1b, 0x23a68048, 0xd9bb987c,
      0x8461ffd3, 0xb5f3c113, 0x7cf044ed, 0x0077c208);
    NextAt(57, 0xd9bb987c, 0x0077c208, 0x83877d1b, 0x23a68048,
      0x5ff882a4, 0x37e10200, 0x840800df, 0x847fc2e7);
    NextAt(58, 0x23a68048, 0x847fc2e7, 0x0077c208, 0x83877d1b,
      0xfc0800ef, 0xc3303ec4, 0x1f626198, 0xa3e2247f);
    NextAt(59, 0x83877d1b, 0xa3e2247f, 0x847fc2e7, 0x0077c208,
      0x7b95ff18, 0x4d258dd4, 0xba89a4b1, 0x5e6bc930);
  }

  lemma Steps60()
    requires At(60, 0x0077c208, 0x5e6bc930, 0xa3e2247f, 0x847fc2e7)
    ensures At(64, 0x708ed9c2, 0x1116e6d8, 0xd38f1e7f, 0x2baf1354)
  {
    hide At, Steps;
    NextAt(60, 0x0077c208, 0x5e6bc930, 0xa3e2247f, 0x847fc2e7,
      0xdc09d947, 0x48488c42, 0x12231092, 0x708ed9c2);
    NextAt(61, 0x847fc2e7, 0x708ed9c2, 0x5e6bc930, 0xa3e2247f,
      0x22f412f2, 0x64aec80e, 0xbb203992, 0x2baf1354);
    NextAt(62, 0xa3e2247f, 0x2baf1354, 0x708ed9c2, 0x5e6bc930,
      0xdb31ee1d, 0x16574fc0, 0xa7e00b2b, 0xd38f1e7f);
    NextAt(63, 0x5e6bc930, 0xd38f1e7f, 0x2baf1354, 0x708ed9c2,
      0xf4502d2b, 0x3e42c9ec, 0x3d87c859, 0x1116e6d8);
  }

  lemma AllSteps()
    ensures At(64, 0x708ed9c2, 0x1116e6d8, 0xd38f1e7f, 0x2baf1354)
  {
    assert At(0, 0x67452301, 0xefcdab89, 0x98badcfe, 0x10325476);
    hide At;
    Steps0();
    Steps4();
    Steps8();
    Steps12();
    Steps16();
    Steps20();
    Steps24();
    Steps28();
    Steps32();
    Steps36();
    Steps40();
    Steps44();
    Steps48();
    Steps52();
    Steps56();
    Steps60();
  }

  /** Byte j of the padded alphabet. */
  function PadByte(j: nat): U8
    requires j < 64
  {
    if j < 26 then 0x61 + j else if j == 26 then 0x80 else if j == 56 then 208 else 0
  }

  lemma LastBytes()
    ensures LengthBytes(208) == [208, 0, 0, 0, 0, 0, 0, 0]
  {
    EncodeTwo(208, 0);
  }

  function Bytes(w: U32): seq<U8> {
    [ByteOf(w, 0), ByteOf(w, 1), ByteOf(w, 2), ByteOf(w, 3)]
  }

  lemma EncodeFour(a: U32, b: U32, c: U32, d: U32)
    ensures Encode([a, b, c, d]) == Bytes(a) + Bytes(b) + Bytes(c) + Bytes(d)
  {
    hide ByteOf;
  }

  lemma Registers()
    ensures Steps(START, Block(), 64) == Abcd(0x708ed9c2, 0x1116e6d8, 0xd38f1e7f, 0x2baf1354)
  {
    AllSteps();
    hide Steps, Block;
  }

  /** The registers after the one block of the message. */
  lemma BlockDone(m: seq<U8>)
    requires |m| == 64 && Decode(m) == Block()
    ensures Transform(START, m) == Abcd(0xd7d3fcc3, 0x00e49261, 0x6c49fb7d, 0x3be167ca)
  {
    Registers();
    hide Decode, Steps, Block;
  }

  lemma OneBlock(m: seq<U8>)
    requires |m| == 64 && Decode(m) == Block()
    ensures Fold(START, m) == Transform(START, m)
  {
    hide Transform, Decode, Block;
    assert m[..64] == m && m[64..] == [];
    FoldShort(Transform(START, m), []);
  }

  lemma EncodeTwo(a: U32, b: U32)
    ensures Encode([a, b]) == Bytes(a) + Bytes(b)
  {
    hide ByteOf;
  }

  lemma PadAt(j: nat)
    requires j < 64
    ensures |Pad(ALPHABET)| == 64 && Pad(ALPHABET)[j] == PadByte(j)
  {
    LastBytes();
    hide LengthBytes;
    assert (55 - 26) % 64 == 29;
  }

  lemma WordOf(k: nat)
    requires k < 16
    ensures |Pad(ALPHABET)| == 64
    ensures Decode(Pad(ALPHABET))[k] == PadWord(k)
  {
    PadAt(4 * k);
    PadAt(4 * k + 1);
    PadAt(4 * k + 2);
    PadAt(4 * k + 3);
    DecodeAt(Pad(ALPHABET), k);
    hide Pad, Decode, PadByte, Join;
  }

  function PadWord(k: nat): int
    requires k < 16
  {
    Join(PadByte(4 * k), PadByte(4 * k + 1), PadByte(4 * k + 2), PadByte(4 * k + 3))
  }

  lemma Words0()
    ensures PadWord(0) == 0x64636261 && PadWord(1) == 0x68676665
    ensures PadWord(2) == 0x6c6b6a69 && PadWord(3) == 0x706f6e6d
  {
  }

  lemma Words4()
    ensures PadWord(4) == 0x74737271 && PadWord(5) == 0x78777675
    ensures PadWord(6) == 0x00807a79
  {
  }

  lemma LateWord(k: nat)
    requires 7 <= k < 16
    ensures PadWord(k) == if k == 14 then 208 else 0
  {
  }

  lemma TableAt(k: nat)
    requires k < 16
    ensures Word(k) == PadWord(k)
  {
    hide PadWord;
    if k < 4 {
      Words0();
    } else if k < 7 {
      Words4();
    } else {
      LateWord(k);
    }
  }

  lemma WordsAre()
    ensures |Pad(ALPHABET)| == 64 && Decode(Pad(ALPHABET)) == Block()
  {
    PadAt(0);
    forall k | 0 <= k < 16
      ensures Decode(Pad(ALPHABET))[k] == Block()[k]
    {
      WordOf(k);
      TableAt(k);
    }
    hide Pad, Decode, Word, PadWord;
  }

  lemma DigestByte0()
    ensures Bytes(0xd7d3fcc3) == [0xc3, 0xfc, 0xd3, 0xd7]
  {
  }

  lemma DigestByte4()
    ensures Bytes(0x00e49261) == [0x61, 0x92, 0xe4, 0x00]
  {
  }

  lemma DigestByte8()
    ensures Bytes(0x6c49fb7d) == [0x7d, 0xfb, 0x49, 0x6c]
  {
  }

  lemma DigestByte12()
    ensures Bytes(0x3be167ca) == [0xca, 0x67, 0xe1, 0x3b]
  {
  }

  lemma DigestBytes()
    ensures Encode([0xd7d3fcc3, 0x00e49261, 0x6c49fb7d, 0x3be167ca]) == [
      0xc3, 0xfc, 0xd3, 0xd7, 0x61, 0x92, 0xe4, 0x00, 0x7d, 0xfb, 0x49, 0x6c, 0xca, 0x67, 0xe1, 0x3b]
  {
    EncodeFour(0xd7d3fcc3, 0x00e49261, 0x6c49fb7d, 0x3be167ca);
    DigestByte0();
    DigestByte4();
    DigestByte8();
    DigestByte12();
    hide Encode, Bytes;
  }

  /** MD5("abcdefghijklmnopqrstuvwxyz"). */
  lemma AlphabetDigest()
    ensures Md5(ALPHABET) == [
      0xc3, 0xfc, 0xd3, 0xd7, 0x61, 0x92, 0xe4, 0x00, 0x7d, 0xfb, 0x49, 0x6c, 0xca, 0x67, 0xe1, 0x3b]
  {
    var m := Pad(ALPHABET);
    WordsAre();
    OneBlock(m);
    BlockDone(m);
    DigestBytes();
    hide Pad, Decode, Encode, Block, Fold, Transform;
  }
}
