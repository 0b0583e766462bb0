/** lib/com_util/ip_codec.c: UDP datagrams and their checksum over the pseudo-header (RFC 768). */
module UdpCodec {
  import opened Words
  import opened Checksum
  import opened IpCodec

  const PROTO_TYPE_UDP: U8 := 17
  const UDP_HDR_LEN := 8

  datatype UdpHdr = UdpHdr(src: U16, dst: U16, len: U16, chksum: U16)

  // ---------- the datagram as bytes ----------

  function UdpHead(u: UdpHdr): (b: seq<U8>)
    ensures |b| == 8
  {
    Be16(u.src) + Be16(u.dst) + Be16(u.len) + Be16(u.chksum)
  }

  function ParseUdp(b: seq<U8>): UdpHdr
    requires |b| >= 8
  {
    UdpHdr(Word(b[0], b[1]), Word(b[2], b[3]), Word(b[4], b[5]), Word(b[6], b[7]))
  }

  /** b with the zero octet that makes its length even. */
  function Padded(b: seq<U8>): (r: seq<U8>)
    ensures |r| % 2 == 0
  {
    if |b| % 2 == 1 then b + [0] else b
  }

  /** The pseudo-header of RFC 768. */
  function Pseudo(sa: Addr, da: Addr, len: U16): (b: seq<U8>)
    ensures |b| == 12
  {
    sa + da + [0, PROTO_TYPE_UDP] + Be16(len)
  }

  /** What the checksum of RFC 768 covers. */
  function Covered(sa: Addr, da: Addr, u: UdpHdr, payload: seq<U8>): seq<U8> {
    Pseudo(sa, da, u.len) + UdpHead(u) + Padded(payload)
  }

  function UdpRaw(sa: Addr, da: Addr, u: UdpHdr, payload: seq<U8>): nat {
    Raw(Covered(sa, da, u.(chksum := 0), payload))
  }

  /** The checksum that RFC 768 computes. */
  function Rfc768(sa: Addr, da: Addr, u: UdpHdr, payload: seq<U8>): U16 {
    0xffff - OnesSum(Covered(sa, da, u.(chksum := 0), payload))
  }

  /** It computes to zero. */
  predicate ComputesZero(sa: Addr, da: Addr, u: UdpHdr, payload: seq<U8>) {
    OnesSum(Covered(sa, da, u.(chksum := 0), payload)) == 0xffff
  }

  /** What RFC 768 sends: a computed zero goes out as all ones, zero being "no checksum". */
  function Transmitted(sa: Addr, da: Addr, u: UdpHdr, payload: seq<U8>): U16 {
    if ComputesZero(sa, da, u, payload) then 0xffff else Rfc768(sa, da, u, payload)
  }

  lemma UdpHeadAt(u: UdpHdr, rest: seq<U8>)
    ensures ParseUdp(UdpHead(u) + rest) == u
  {
    var b := UdpHead(u) + rest;
    assert b[0..2] == Be16(u.src) && b[2..4] == Be16(u.dst) && b[4..6] == Be16(u.len) && b[6..8] == Be16(u.chksum);
    WordAt(b, 0, u.src);
    WordAt(b, 2, u.dst);
    WordAt(b, 4, u.len);
    WordAt(b, 6, u.chksum);
    hide Be16, Word, UdpHead;
  }

  /** Ports, length and checksum, in that order, high-order bytes first. */
  lemma UdpHeadBytes(u: UdpHdr)
    ensures var b := UdpHead(u);
      && 0x100 * b[0] as int + b[1] == u.src && 0x100 * b[2] as int + b[3] == u.dst
      && 0x100 * b[4] as int + b[5] == u.len && 0x100 * b[6] as int + b[7] == u.chksum
  {
    Be16Is(u.src);
    Be16Is(u.dst);
    Be16Is(u.len);
    Be16Is(u.chksum);
    hide Be16;
  }

  lemma UdpHeadParse(b: seq<U8>)
    requires |b| >= 8
    ensures UdpHead(ParseUdp(b)) == b[..8]
  {
    WordBytes(b[0], b[1]);
    WordBytes(b[2], b[3]);
    WordBytes(b[4], b[5]);
    WordBytes(b[6], b[7]);
    hide Be16, Word;
  }

  // ---------- the sum ----------

  lemma RawHead(u: UdpHdr)
    ensures Raw(UdpHead(u)) == u.src + u.dst + u.len + u.chksum
  {
    RawBe16(u.src);
    RawBe16(u.dst);
    RawBe16(u.len);
    RawBe16(u.chksum);
    hide Be16, Raw;
    RawAppend(Be16(u.src), Be16(u.dst));
    RawAppend(Be16(u.src) + Be16(u.dst), Be16(u.len));
    RawAppend(Be16(u.src) + Be16(u.dst) + Be16(u.len), Be16(u.chksum));
  }

  function AddrSum(sa: Addr, da: Addr): nat {
    Word(sa[0], sa[1]) + Word(sa[2], sa[3]) + Word(da[0], da[1]) + Word(da[2], da[3])
  }

  lemma RawPseudo(sa: Addr, da: Addr, len: U16)
    ensures Raw(Pseudo(sa, da, len)) == AddrSum(sa, da) + PROTO_TYPE_UDP + len
  {
    RawAddr(sa);
    RawAddr(da);
    RawTwo(0, PROTO_TYPE_UDP);
    RawBe16(len);
    assert Word(0, PROTO_TYPE_UDP) == PROTO_TYPE_UDP;
    hide Be16, Raw, Word;
    RawAppend(sa, da);
    RawAppend(sa + da, [0, PROTO_TYPE_UDP]);
    RawAppend(sa + da + [0, PROTO_TYPE_UDP], Be16(len));
  }

  lemma RawCovered(sa: Addr, da: Addr, u: UdpHdr, payload: seq<U8>)
    ensures Raw(Covered(sa, da, u, payload)) ==
      AddrSum(sa, da) + PROTO_TYPE_UDP + u.len + u.src + u.dst + u.len + u.chksum + Raw(Padded(payload))
  {
    hide Raw, AddrSum, Pseudo, UdpHead, Padded;
    RawPseudo(sa, da, u.len);
    RawHead(u);
    RawAppend(Pseudo(sa, da, u.len), UdpHead(u));
    RawAppend(Pseudo(sa, da, u.len) + UdpHead(u), Padded(payload));
  }

  lemma UdpRawIs(sa: Addr, da: Addr, u: UdpHdr, payload: seq<U8>)
    ensures UdpRaw(sa, da, u, payload) ==
      AddrSum(sa, da) + PROTO_TYPE_UDP + u.len + u.src + u.dst + u.len + Raw(Padded(payload))
    ensures Raw(Covered(sa, da, u, payload)) == UdpRaw(sa, da, u, payload) + u.chksum
    ensures UdpRaw(sa, da, u, payload) > 0
  {
    RawCovered(sa, da, u, payload);
    RawCovered(sa, da, u.(chksum := 0), payload);
    hide Raw, AddrSum, Covered, Padded;
  }

  /** The sum always fits the U32 it is kept in. */
  lemma UdpRawFits(sa: Addr, da: Addr, u: UdpHdr, payload: seq<U8>)
    requires |payload| <= 0x1_0000
    ensures UdpRaw(sa, da, u, payload) < 0x1_0000_0000
  {
    RawBound(Padded(payload));
    UdpRawIs(sa, da, u, payload);
    hide Raw, UdpRaw;
  }

  /** The datagram with the checksum ENCODE_UDP_PKT computes. */
  function SealedUdp(sa: Addr, da: Addr, u: UdpHdr, payload: seq<U8>): UdpHdr
    requires |payload| <= 0x1_0000
  {
    UdpRawFits(sa, da, u, payload);
    u.(chksum := CheckSum(UdpRaw(sa, da, u, payload)))
  }

  /** The encoder sends what RFC 768 sends. */
  ghost predicate ExactUdp(sa: Addr, da: Addr, u: UdpHdr, payload: seq<U8>) {
    |payload| <= 0x1_0000 && SealedUdp(sa, da, u, payload).chksum == Transmitted(sa, da, u, payload)
  }

  lemma ZeroIffFold(sa: Addr, da: Addr, u: UdpHdr, payload: seq<U8>)
    ensures Rfc768(sa, da, u, payload) == 0xffff - Fold(UdpRaw(sa, da, u, payload))
    ensures ComputesZero(sa, da, u, payload) <==> UdpRaw(sa, da, u, payload) % 0xffff == 0
  {
    UdpRawIs(sa, da, u, payload);
    OnesSumIsFold(Covered(sa, da, u.(chksum := 0), payload));
    FoldsToOnes(UdpRaw(sa, da, u, payload));
    hide Fold, Raw, Covered, OnesSum;
  }

  /** The encoder's checksum is the one RFC 768 sends exactly when the sum stays below 2^24
      and the checksum does not compute to zero. */
  lemma {:induction false} UdpExactIff(sa: Addr, da: Addr, u: UdpHdr, payload: seq<U8>)
    requires |payload| <= 0x1_0000
    ensures ExactUdp(sa, da, u, payload) <==>
      UdpRaw(sa, da, u, payload) < 0x100_0000 && !ComputesZero(sa, da, u, payload)
  {
    hide CheckSum, Fold, ComputesZero, UdpRaw, Rfc768;
    var raw := UdpRaw(sa, da, u, payload);
    UdpRawFits(sa, da, u, payload);
    UdpRawIs(sa, da, u, payload);
    ZeroIffFold(sa, da, u, payload);
    CheckSumExactIff(raw);
    FoldsToOnes(raw);
    if raw >= 0x100_0000 {
      WideNeverValid(raw, CheckSum(raw));
      FoldsToOnes(raw + 0xffff);
      FoldShift(raw, 1);
    }
  }

  const LONGEST_SAFE := 498

  lemma ShortIsExact(sa: Addr, da: Addr, u: UdpHdr, payload: seq<U8>)
    requires u.len == UDP_HDR_LEN + |payload| && |payload| <= LONGEST_SAFE
    ensures UdpRaw(sa, da, u, payload) < 0x100_0000
  {
    RawBound(Padded(payload));
    UdpRawIs(sa, da, u, payload);
    hide Raw, UdpRaw;
  }

  function Ones(n: nat): (b: seq<U8>)
    ensures |b| == n
  {
    seq(n, _ => 0xff)
  }

  lemma {:induction false} RawOnes(n: nat)
    ensures n % 2 == 0 ==> Raw(Ones(n)) == n / 2 * 0xffff
    ensures n % 2 == 1 ==> Raw(Ones(n) + [0]) == n / 2 * 0xffff + 0xff00
  {
    if n >= 2 {
      RawOnes(n - 2);
      assert Ones(n)[2..] == Ones(n - 2);
      assert (Ones(n) + [0])[2..] == Ones(n - 2) + [0];
      assert n / 2 == (n - 2) / 2 + 1;
    } else if n == 1 {
      RawTwo(0xff, 0);
      assert Ones(1) + [0] == [0xff, 0];
    }
  }

  const BCAST: Addr := [0xff, 0xff, 0xff, 0xff]

  function OnesUdp(n: nat): UdpHdr
    requires n <= 0xffff - UDP_HDR_LEN
  {
    UdpHdr(0xffff, 0xffff, UDP_HDR_LEN + n, 0)
  }

  function OnesExcess(n: nat): nat {
    33 + 2 * n + if n % 2 == 1 then 0xff00 else 0
  }

  lemma OnesRaw(n: nat)
    requires n <= 0xffff - UDP_HDR_LEN
    ensures UdpRaw(BCAST, BCAST, OnesUdp(n), Ones(n)) == OnesExcess(n) + (n / 2 + 6) * 0xffff
  {
    RawOnes(n);
    UdpRawIs(BCAST, BCAST, OnesUdp(n), Ones(n));
    assert AddrSum(BCAST, BCAST) == 4 * 0xffff;
    hide Raw, UdpRaw, AddrSum, Ones;
  }

  lemma OnesRemainder(n: nat)
    requires LONGEST_SAFE < n <= 0xffff - UDP_HDR_LEN
    ensures OnesExcess(n) % 0xffff != 0
  {
    var q := OnesExcess(n) / 0xffff;
    assert OnesExcess(n) == OnesExcess(n) % 0xffff + q * 0xffff && q <= 2;
  }

  /** All ones everywhere: the largest sum a length allows. */
  lemma LongIsNot(n: nat)
    requires LONGEST_SAFE < n <= 0xffff - UDP_HDR_LEN
    ensures !ExactUdp(BCAST, BCAST, OnesUdp(n), Ones(n)) && !ComputesZero(BCAST, BCAST, OnesUdp(n), Ones(n))
  {
    OnesRaw(n);
    OnesRemainder(n);
    var raw := OnesExcess(n) + (n / 2 + 6) * 0xffff;
    assert raw >= 0x100_0000;
    hide Ones, OnesUdp, OnesExcess, UdpRaw, ExactUdp, ComputesZero;
    FoldShift(OnesExcess(n), n / 2 + 6);
    ZeroIffFold(BCAST, BCAST, OnesUdp(n), Ones(n));
    UdpExactIff(BCAST, BCAST, OnesUdp(n), Ones(n));
  }

  /** Up to 498 bytes of payload, and no further, only the rule for a computed zero is
      missed. */
  lemma {:induction false} SafeLengthIff(n: nat)
    requires n <= 0xffff - UDP_HDR_LEN
    ensures n <= LONGEST_SAFE <==>
      forall sa, da, u: UdpHdr, payload | |payload| == n && u.len == UDP_HDR_LEN + n ::
        ExactUdp(sa, da, u, payload) <==> !ComputesZero(sa, da, u, payload)
  {
    hide ExactUdp, UdpRaw, Ones, ComputesZero;
    if n <= LONGEST_SAFE {
      forall sa, da, u: UdpHdr, payload: seq<U8> | |payload| == n && u.len == UDP_HDR_LEN + n
        ensures ExactUdp(sa, da, u, payload) <==> !ComputesZero(sa, da, u, payload)
      {
        ShortIsExact(sa, da, u, payload);
        UdpExactIff(sa, da, u, payload);
      }
    } else {
      LongIsNot(n);
    }
  }

  // ---------- what the codec promises ----------

  /** The bytes of payload a length field claims. */
  function Payload(m: seq<U8>, off: nat, len: U16): (s: seq<U8>)
    requires len >= UDP_HDR_LEN ==> off + len - UDP_HDR_LEN <= |m|
    ensures |s| <= 0xffff
  {
    if len < UDP_HDR_LEN then [] else m[off..off + len - UDP_HDR_LEN]
  }

  /** The length field agrees with what the IP header leaves. */
  predicate LengthAgrees(h: IpHdr, b: seq<U8>) {
    |b| >= 6 && Word(b[4], b[5]) == h.totalLen - h.ihl * 4
  }

  /** What DECODE_UDP_PKT accepts: a zero checksum counts as not computed. */
  predicate AcceptsUdp(h: IpHdr, b: seq<U8>) {
    && LengthAgrees(h, b) && |b| >= 8
    && var u := ParseUdp(b);
      u.chksum == 0 || (u.len <= |b| && u == SealedUdp(h.sa, h.da, u, Payload(b, 8, u.len)))
  }

  /** Whatever ENCODE_UDP_PKT writes, followed by its payload, is accepted and reads back,
      whatever the length and even when the computed checksum is zero. */
  lemma {:induction false} UdpRoundTrip(h: IpHdr, u: UdpHdr, payload: seq<U8>, rest: seq<U8>)
    requires u.len == UDP_HDR_LEN + |payload| == h.totalLen - h.ihl * 4
    ensures var s := SealedUdp(h.sa, h.da, u, payload);
      var b := UdpHead(s) + payload + rest;
      AcceptsUdp(h, b) && ParseUdp(b) == s && Payload(b, 8, s.len) == payload
  {
    var s := SealedUdp(h.sa, h.da, u, payload);
    var b := UdpHead(s) + payload + rest;
    assert b == UdpHead(s) + (payload + rest);
    UdpHeadAt(s, payload + rest);
    assert Payload(b, 8, s.len) == payload;
    assert s == SealedUdp(h.sa, h.da, s, payload) by {
      assert u.(chksum := 0) == s.(chksum := 0);
    }
    assert LengthAgrees(h, b) by {
      assert ParseUdp(b).len == s.len;
    }
    hide UdpHead, SealedUdp;
  }

  /** The plain sum over an arriving datagram, its checksum field taken as zero. */
  function RawIn(h: IpHdr, b: seq<U8>): nat
    requires |b| >= 8 && ParseUdp(b).len <= |b|
  {
    UdpRaw(h.sa, h.da, ParseUdp(b), Payload(b, 8, ParseUdp(b).len))
  }

  /** A receiver's test under RFC 768: pseudo-header and datagram sum to all ones. */
  predicate ValidIn(h: IpHdr, b: seq<U8>)
    requires |b| >= 8 && ParseUdp(b).len <= |b|
  {
    SumsToOnes(Pseudo(h.sa, h.da, ParseUdp(b).len) + Padded(b[..ParseUdp(b).len]))
  }

  /** A datagram whose length agrees is accepted exactly when its checksum is zero, or
      right under RFC 768 and not all ones with a sum below 2^24; with a larger sum nothing
      that is right is accepted, only what CHECK_SUM makes of it. */
  lemma AcceptsUdpIff(h: IpHdr, b: seq<U8>)
    requires |b| >= 8 && UDP_HDR_LEN <= ParseUdp(b).len <= |b|
    ensures var u := ParseUdp(b);
      AcceptsUdp(h, b) <==>
        LengthAgrees(h, b)
        && (u.chksum == 0
            || (RawIn(h, b) < 0x100_0000 && u.chksum != 0xffff && ValidIn(h, b))
            || (RawIn(h, b) >= 0x100_0000 && u == SealedUdp(h.sa, h.da, u, Payload(b, 8, u.len))))
    ensures ParseUdp(b).chksum != 0 && RawIn(h, b) >= 0x100_0000 && AcceptsUdp(h, b) ==> !ValidIn(h, b)
  {
    var u := ParseUdp(b);
    var payload := Payload(b, 8, u.len);
    CoveredWhole(h.sa, h.da, b);
    hide Covered, Pseudo, Padded, ParseUdp, Payload;
    if RawIn(h, b) < 0x100_0000 {
      SealedUdpIff(h.sa, h.da, u, payload);
    } else {
      SealedWide(h.sa, h.da, u, payload);
    }
    hide SumsToOnes, SealedUdp, UdpRaw;
  }

  lemma SealedWide(sa: Addr, da: Addr, u: UdpHdr, payload: seq<U8>)
    requires |payload| <= 0x1_0000 && UdpRaw(sa, da, u, payload) >= 0x100_0000
    ensures u == SealedUdp(sa, da, u, payload) ==> !SumsToOnes(Covered(sa, da, u, payload))
  {
    hide Covered, UdpRaw, Raw, Fold, CheckSum, OnesSum;
    UdpRawFits(sa, da, u, payload);
    UdpRawIs(sa, da, u, payload);
    if u == SealedUdp(sa, da, u, payload) {
      WideNeverValid(UdpRaw(sa, da, u, payload), u.chksum);
    }
    OnesSumIsFold(Covered(sa, da, u, payload));
  }

  lemma SealedUdpIff(sa: Addr, da: Addr, u: UdpHdr, payload: seq<U8>)
    requires |payload| <= 0x1_0000 && UdpRaw(sa, da, u, payload) < 0x100_0000
    ensures u == SealedUdp(sa, da, u, payload) <==> SumsToOnes(Covered(sa, da, u, payload)) && u.chksum != 0xffff
  {
    hide Covered, UdpRaw, Raw, Fold, CheckSum, OnesSum;
    UdpRawIs(sa, da, u, payload);
    ReceiverAccepts(UdpRaw(sa, da, u, payload), u.chksum);
    OnesSumIsFold(Covered(sa, da, u, payload));
  }

  lemma {:induction false} CoveredWhole(sa: Addr, da: Addr, b: seq<U8>)
    requires |b| >= 8 && UDP_HDR_LEN <= ParseUdp(b).len <= |b|
    ensures var u := ParseUdp(b);
      Covered(sa, da, u, Payload(b, 8, u.len)) == Pseudo(sa, da, u.len) + Padded(b[..u.len])
  {
    var u := ParseUdp(b);
    var payload := Payload(b, 8, u.len);
    UdpHeadParse(b);
    hide Pseudo, UdpHead, ParseUdp;
    assert b[..u.len] == b[..8] + payload;
    assert Padded(b[..u.len]) == b[..8] + Padded(payload);
  }

  /** RFC 768 never sends a computed zero, the encoder does: with a sum below 2^24 exactly
      for the datagrams that RFC 768 sends with all ones. */
  lemma ZeroSentIff(sa: Addr, da: Addr, u: UdpHdr, payload: seq<U8>)
    requires |payload| <= 0x1_0000 && UdpRaw(sa, da, u, payload) < 0x100_0000
    ensures SealedUdp(sa, da, u, payload).chksum == 0 <==> Transmitted(sa, da, u, payload) == 0xffff
    ensures SealedUdp(sa, da, u, payload).chksum == 0 <==> ComputesZero(sa, da, u, payload)
  {
    hide CheckSum, Fold, ComputesZero, UdpRaw, Rfc768;
    var raw := UdpRaw(sa, da, u, payload);
    UdpRawIs(sa, da, u, payload);
    ZeroIffFold(sa, da, u, payload);
    CheckSumExactIff(raw);
    FoldsToOnes(raw);
    FoldPositive(raw);
  }

  lemma FoldPositive(n: nat)
    ensures n > 0 ==> Fold(n) > 0
  {
  }

  /** One of them. */
  lemma ZeroIsSent()
    ensures var a: Addr, u := [0, 0, 0, 0], UdpHdr(0xffde, 0, 8, 0);
      SealedUdp(a, a, u, []).chksum == 0 && Transmitted(a, a, u, []) == 0xffff
  {
    var a: Addr, u := [0, 0, 0, 0], UdpHdr(0xffde, 0, 8, 0);
    UdpRawIs(a, a, u, []);
    assert Raw(Padded([])) == 0 && AddrSum(a, a) == 0;
    hide Raw, UdpRaw, AddrSum, Rfc768, Padded, ComputesZero;
    ZeroIffFold(a, a, u, []);
    ZeroSentIff(a, a, u, []);
  }

  // ---------- the packet in memory ----------

  /** tUDP_PKT.  The data pointer is an array and an offset into it. */
  class UdpPkt {
    var src: U16
    var dst: U16
    var len: U16
    var chksum: U16
    var data: array?<U8>
    var off: nat

    /** A local variable: its fields hold anything. */
    constructor Local() {
    }

    function Hdr(): UdpHdr
      reads this
    {
      UdpHdr(src, dst, len, chksum)
    }
  }

  /** CHKSUM_UDP can read the payload and, if its length is odd, write one byte behind it.
      With a length field below eight that byte lies before off. */
  ghost predicate PadFits(m: seq<U8>, off: nat, len: U16) {
    && (len >= UDP_HDR_LEN ==> off + len - UDP_HDR_LEN <= |m|)
    && (len % 2 == 1 ==> 0 <= off + len - UDP_HDR_LEN < |m|)
  }

  /** What CHKSUM_UDP leaves in memory. */
  function PadWritten(m: seq<U8>, off: nat, len: U16): (r: seq<U8>)
    requires PadFits(m, off, len)
    ensures |r| == |m|
  {
    if len % 2 == 1 then m[off + len - UDP_HDR_LEN := 0] else m
  }

  /** The bytes of so many words, none when the number is negative. */
  function WordsAt(m: seq<U8>, off: nat, words: int): seq<U8>
    requires words > 0 ==> off + 2 * words <= |m|
  {
    if words <= 0 then [] else m[off..off + 2 * words]
  }

  lemma PaddedInPlace(m: seq<U8>, off: nat, len: U16)
    requires PadFits(m, off, len)
    ensures var words := (len as int - UDP_HDR_LEN + len % 2) / 2;
      && (words > 0 ==> off + 2 * words <= |m|)
      && WordsAt(PadWritten(m, off, len), off, words) == Padded(Payload(m, off, len))
  {
  }

  /** The pad byte of CHKSUM_UDP; dataLen is the even length left to sum. */
  method PadOdd(mem: array<U8>, off: nat, len: U16) returns (dataLen: int)
    requires PadFits(mem[..], off, len)
    modifies mem
    ensures mem[..] == PadWritten(old(mem[..]), off, len)
    ensures dataLen == len as int - UDP_HDR_LEN + len % 2
  {
    dataLen := len as int - 8;
    if dataLen % 2 == 1 {
      mem[off + dataLen] := 0;
      dataLen := dataLen + 1;
    }
  }

  /** The word loop of CHKSUM_UDP. */
  method SumWords(mem: array<U8>, off: nat, words: int, start: nat) returns (sum: nat)
    requires words > 0 ==> off + 2 * words <= mem.Length
    ensures sum == start + Raw(WordsAt(mem[..], off, words))
  {
    ghost var s := WordsAt(mem[..], off, words);
    assert Raw([]) == 0;
    hide Raw, Word;
    sum := start;
    var ptr, i := off, 0;
    while i < words
      invariant 0 <= i && (i <= words || i == 0) && ptr == off + 2 * i
      invariant sum == start + Raw(s[..2 * i])
    {
      RawSnoc(s, 2 * i);
      sum := sum + Word(mem[ptr], mem[ptr + 1]);
      ptr := ptr + 2;
      i := i + 1;
    }
    assert s[..2 * i] == s;
  }

  method CHKSUM_UDP(ip: IpPkt, udp: UdpPkt) returns (r: U16)
    requires udp.data != null && PadFits(udp.data[..], udp.off, udp.len)
    modifies udp.data
    ensures udp.data[..] == PadWritten(old(udp.data[..]), udp.off, udp.len)
    ensures udp.Hdr().(chksum := r) == SealedUdp(ip.sa, ip.da, udp.Hdr(), Payload(old(udp.data[..]), udp.off, udp.len))
  {
    ghost var m, u := udp.data[..], udp.Hdr();
    ghost var payload := Payload(m, udp.off, udp.len);
    UdpRawIs(ip.sa, ip.da, u, payload);
    UdpRawFits(ip.sa, ip.da, u, payload);
    PaddedInPlace(m, udp.off, udp.len);
    var sum: nat := Word(ip.sa[0], ip.sa[1]) as int;
    sum := sum + Word(ip.sa[2], ip.sa[3]);
    sum := sum + Word(ip.da[0], ip.da[1]);
    sum := sum + Word(ip.da[2], ip.da[3]);
    assert sum == AddrSum(ip.sa, ip.da);
    hide Word, AddrSum, UdpRaw, CheckSum, Padded, WordsAt, PadWritten, PadFits;
    sum := sum + PROTO_TYPE_UDP;
    sum := sum + udp.len;
    sum := sum + udp.src;
    sum := sum + udp.dst;
    sum := sum + udp.len;
    var dataLen := PadOdd(udp.data, udp.off, udp.len);
    sum := SumWords(udp.data, udp.off, dataLen / 2, sum);
    r := CHECK_SUM(sum);
  }

  /** What CHKSUM_UDP reads and pads lies behind off + 8. */
  lemma PatchedBehind(m: seq<U8>, off: nat, s: seq<U8>, at: nat, len: U16)
    requires |s| <= 8 && off + 8 <= at && at + len - UDP_HDR_LEN <= |m| && len >= UDP_HDR_LEN && PadFits(m, at, len)
    ensures var p := Patched(m, off, s);
      && PadFits(p, at, len) && Payload(p, at, len) == Payload(m, at, len)
      && PadWritten(p, at, len) == Patched(PadWritten(m, at, len), off, s)
  {
  }

  /** The ports and the length. */
  method EncodePorts(udp: UdpPkt, mp: array<U8>, off: nat) returns (next: nat)
    requires off + 8 <= mp.Length
    modifies mp
    ensures next == off + 6
    ensures mp[..] == Patched(old(mp[..]), off, Be16(udp.src) + Be16(udp.dst) + Be16(udp.len))
  {
    ghost var buf := mp[..];
    hide Patched, Be16;
    next := ENCODE_U16(mp, off, udp.src);
    next := ENCODE_U16(mp, next, udp.dst);
    PatchMore(buf, off, Be16(udp.src), Be16(udp.dst));
    next := ENCODE_U16(mp, next, udp.len);
    PatchMore(buf, off, Be16(udp.src) + Be16(udp.dst), Be16(udp.len));
  }

  /** The eight bytes of header are written; the payload may already lie behind them, or the
      caller copies it there. */
  method ENCODE_UDP_PKT(ip: IpPkt, udp: UdpPkt, mp: array<U8>, off: nat) returns (next: nat)
    requires udp.data != null && PadFits(udp.data[..], udp.off, udp.len)
    requires udp.data == mp ==> off + 8 <= udp.off && udp.len >= UDP_HDR_LEN
    requires off + 8 <= mp.Length
    modifies mp, udp.data, udp`chksum
    ensures next == off + 8
    ensures udp.Hdr() == SealedUdp(ip.sa, ip.da, old(udp.Hdr()), Payload(old(udp.data[..]), udp.off, udp.len))
    ensures 0x100 * mp[off] as int + mp[off + 1] == udp.src && 0x100 * mp[off + 2] as int + mp[off + 3] == udp.dst
    ensures 0x100 * mp[off + 4] as int + mp[off + 5] == udp.len
    ensures 0x100 * mp[off + 6] as int + mp[off + 7] == udp.chksum
    ensures udp.data != mp ==>
      mp[..] == Patched(old(mp[..]), off, UdpHead(udp.Hdr()))
      && udp.data[..] == PadWritten(old(udp.data[..]), udp.off, udp.len)
    ensures udp.data == mp ==>
      mp[..] == Patched(PadWritten(old(mp[..]), udp.off, udp.len), off, UdpHead(udp.Hdr()))
  {
    ghost var buf := mp[..];
    ghost var s := Be16(udp.src) + Be16(udp.dst) + Be16(udp.len);
    hide Patched, Be16, PadWritten, SealedUdp, Payload;
    next := EncodePorts(udp, mp, off);
    if udp.data == mp {
      PatchedBehind(buf, off, s, udp.off, udp.len);
      buf := PadWritten(buf, udp.off, udp.len);
    }
    hide PadFits;
    var chksum := CHKSUM_UDP(ip, udp);
    assert mp[..] == Patched(buf, off, s);
    udp.chksum := chksum;
    next := ENCODE_U16(mp, next, chksum);
    PatchMore(buf, off, s, Be16(chksum));
    HeadInPlace(buf, off, udp.Hdr());
    assert mp[..] == Patched(buf, off, UdpHead(udp.Hdr()));
  }

  lemma HeadInPlace(buf: seq<U8>, off: nat, u: UdpHdr)
    requires off + 8 <= |buf|
    ensures var p := Patched(buf, off, UdpHead(u));
      && 0x100 * p[off] as int + p[off + 1] == u.src && 0x100 * p[off + 2] as int + p[off + 3] == u.dst
      && 0x100 * p[off + 4] as int + p[off + 5] == u.len && 0x100 * p[off + 6] as int + p[off + 7] == u.chksum
  {
    UdpHeadBytes(u);
    var b, p := UdpHead(u), Patched(buf, off, UdpHead(u));
    assert forall i | 0 <= i < 8 :: p[off + i] == b[i];
    hide UdpHead, Patched;
  }

  lemma PayloadAt(m: seq<U8>, off: nat, len: U16)
    requires off + 8 <= |m| && PadFits(m, off + 8, len)
    ensures off + len <= |m| && Payload(m, off + 8, len) == Payload(m[off..], 8, len)
  {
  }

  /** A datagram whose length field disagrees is refused; otherwise its fields are read and,
      if it carries a checksum, that is computed afresh. */
  method DECODE_UDP_PKT(udp: UdpPkt, ip: IpPkt, len: U16) returns (ok: bool, newLen: U16)
    requires ip.data != null && ip.dataOff + 6 <= ip.data.Length
    requires var b := ip.data[..][ip.dataOff..];
      LengthAgrees(ip.Hdr(), b) ==>
        (|b| >= 8 && (ParseUdp(b).chksum != 0 ==> PadFits(ip.data[..], ip.dataOff + 8, ParseUdp(b).len)))
    modifies udp, ip.data
    ensures var m, at := old(ip.data[..]), ip.dataOff;
      && udp.src == 0x100 * m[at] as int + m[at + 1] && udp.dst == 0x100 * m[at + 2] as int + m[at + 3]
      && udp.len == 0x100 * m[at + 4] as int + m[at + 5]
      && (udp.len == ip.totalLen as int - ip.ihl * 4 ==> udp.chksum == 0x100 * m[at + 6] as int + m[at + 7])
      && (udp.len != ip.totalLen as int - ip.ihl * 4 ==> !ok)
    ensures var h, b := ip.Hdr(), old(ip.data[..][ip.dataOff..]);
      && (ok <==> AcceptsUdp(h, b))
      && newLen == (if ok then ToU16(len - UDP_HDR_LEN) else len)
      && (LengthAgrees(h, b) ==> udp.Hdr() == ParseUdp(b) && udp.data == ip.data && udp.off == ip.dataOff + 8)
      && ip.data[..] == if LengthAgrees(h, b) && ParseUdp(b).chksum != 0
                        then PadWritten(old(ip.data[..]), ip.dataOff + 8, ParseUdp(b).len) else old(ip.data[..])
  {
    ghost var m, h := ip.data[..], ip.Hdr();
    ghost var b := m[ip.dataOff..];
    hide SealedUdp, PadWritten, PadFits;
    var data := ip.data;
    var next: nat;
    udp.src, next := DECODE_U16(data, ip.dataOff);
    udp.dst, next := DECODE_U16(data, next);
    udp.len, next := DECODE_U16(data, next);
    if udp.len != ip.totalLen - ip.ihl * 4 {
      return false, len;
    }
    udp.chksum, next := DECODE_U16(data, next);
    udp.data, udp.off := data, next;
    assert udp.Hdr() == ParseUdp(b);
    if udp.chksum != 0 {
      PayloadAt(m, ip.dataOff, udp.len);
      var chksum := CHKSUM_UDP(ip, udp);
      if chksum != udp.chksum {
        return false, len;
      }
    }
    return true, ToU16(len - UDP_HDR_LEN);
  }
}
