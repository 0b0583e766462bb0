/** lib/com_util/ip_codec.c: IPv4 headers (section 3.1 of RFC 791) in memory and on the wire. */
module IpCodec {
  import opened Words
  import opened Checksum

  const IP_VERSION := 4
  const IP_MIN_HDR_LEN := 5

  type U3 = x: int | 0 <= x < 0x8
  type U4 = x: int | 0 <= x < 0x10
  type U13 = x: int | 0 <= x < 0x2000
  /** IP_ADDR_LEN bytes. */
  type Addr = a: seq<U8> | |a| == 4 witness [0, 0, 0, 0]

  datatype IpHdr = IpHdr(ver: U4, ihl: U4, tos: U8, totalLen: U16, id: U16, flag: U3, fragOff: U13,
                         ttl: U8, proto: U8, chksum: U16, sa: Addr, da: Addr)

  // ---------- the header as bytes ----------

  function FlagFrag(h: IpHdr): U16 {
    h.flag * 0x2000 + h.fragOff
  }

  function Lead(h: IpHdr): (b: seq<U8>)
    ensures |b| == 6
  {
    [h.ver * 0x10 + h.ihl] + [h.tos] + Be16(h.totalLen) + Be16(h.id)
  }

  function Front(h: IpHdr): (b: seq<U8>)
    ensures |b| == 10
  {
    Lead(h) + (Be16(FlagFrag(h)) + [h.ttl] + [h.proto])
  }

  function Fixed(h: IpHdr): (b: seq<U8>)
    ensures |b| == 20
  {
    Front(h) + Be16(h.chksum) + (h.sa + h.da)
  }

  function HeaderBytes(h: IpHdr, opts: seq<U8>): (b: seq<U8>)
    ensures |b| == 20 + |opts|
  {
    Fixed(h) + opts
  }

  function Parse(b: seq<U8>): IpHdr
    requires |b| >= 20
  {
    var ff := Word(b[6], b[7]);
    IpHdr(b[0] / 0x10, b[0] % 0x10, b[1], Word(b[2], b[3]), Word(b[4], b[5]), b[6] / 0x20, ff % 0x2000,
          b[8], b[9], Word(b[10], b[11]), b[12..16], b[16..20])
  }

  /** The plain sum over the header with its checksum field zero. */
  function HeaderRaw(h: IpHdr, opts: seq<U8>): nat {
    Raw(HeaderBytes(h.(chksum := 0), opts))
  }

  /** The header with the checksum RFC 791 asks for: the complement of the one's-complement
      sum of its words, the checksum field taken as zero. */
  function Sealed(h: IpHdr, opts: seq<U8>): IpHdr {
    h.(chksum := 0xffff - OnesSum(HeaderBytes(h.(chksum := 0), opts)))
  }

  lemma FrontAt(h: IpHdr)
    ensures var f := Front(h);
      && f[0] == h.ver * 0x10 + h.ihl && f[1] == h.tos
      && f[2..4] == Be16(h.totalLen) && f[4..6] == Be16(h.id) && f[6..8] == Be16(FlagFrag(h))
      && f[8] == h.ttl && f[9] == h.proto
  {
    hide Be16, FlagFrag;
  }

  lemma BytesAt(h: IpHdr, opts: seq<U8>)
    ensures var b := HeaderBytes(h, opts);
      && b[..10] == Front(h) && b[10..12] == Be16(h.chksum) && b[12..16] == h.sa && b[16..20] == h.da
      && b[20..] == opts
  {
    hide Front, Be16;
  }

  /** The twenty bytes, field by field, as section 3.1 of RFC 791 lays them out. */
  lemma HeaderLayout(h: IpHdr, opts: seq<U8>)
    ensures var b := HeaderBytes(h, opts);
      && b[0] == 0x10 * h.ver + h.ihl && b[1] == h.tos
      && 0x100 * b[2] as int + b[3] == h.totalLen && 0x100 * b[4] as int + b[5] == h.id
      && 0x100 * b[6] as int + b[7] == 0x2000 * h.flag + h.fragOff
      && b[8] == h.ttl && b[9] == h.proto && 0x100 * b[10] as int + b[11] == h.chksum
      && b[12..16] == h.sa && b[16..20] == h.da && b[20..] == opts
  {
    hide Front, HeaderBytes, Be16;
    var b, f := HeaderBytes(h, opts), Front(h);
    BytesAt(h, opts);
    FrontAt(h);
    Be16Is(h.totalLen);
    Be16Is(h.id);
    Be16Is(FlagFrag(h));
    Be16Is(h.chksum);
    assert forall k | 0 <= k < 10 :: b[..10][k] == b[k];
    assert f[2..4][0] == f[2] && f[2..4][1] == f[3] && f[4..6][0] == f[4] && f[4..6][1] == f[5];
    assert f[6..8][0] == f[6] && f[6..8][1] == f[7] && b[10..12][0] == b[10] && b[10..12][1] == b[11];
  }

  lemma Nibbles(h: IpHdr)
    ensures (h.ver * 0x10 + h.ihl) / 0x10 == h.ver && (h.ver * 0x10 + h.ihl) % 0x10 == h.ihl
    ensures Be16(FlagFrag(h))[0] / 0x20 == h.flag && FlagFrag(h) % 0x2000 == h.fragOff
  {
  }

  lemma WordAt(b: seq<U8>, k: nat, v: U16)
    requires k + 2 <= |b| && b[k..k + 2] == Be16(v)
    ensures b[k] == Be16(v)[0] && b[k + 1] == Be16(v)[1] && Word(b[k], b[k + 1]) == v
  {
    RoundTrip16(v);
    assert b[k] == b[k..k + 2][0] && b[k + 1] == b[k..k + 2][1];
    hide Be16, Word;
  }

  /** Reading back a written header gives every field. */
  lemma {:induction false} ParseBytes(h: IpHdr, opts: seq<U8>, rest: seq<U8>)
    ensures Parse(HeaderBytes(h, opts) + rest) == h
  {
    hide Front, HeaderBytes, Be16, Word, FlagFrag;
    var b := HeaderBytes(h, opts) + rest;
    BytesAt(h, opts);
    FrontAt(h);
    Nibbles(h);
    assert forall k | 0 <= k < 10 :: b[k] == Front(h)[k] by {
      assert forall k | 0 <= k < 10 :: HeaderBytes(h, opts)[..10][k] == HeaderBytes(h, opts)[k];
    }
    assert b[2..4] == Front(h)[2..4] && b[4..6] == Front(h)[4..6] && b[6..8] == Front(h)[6..8];
    assert b[10..12] == HeaderBytes(h, opts)[10..12];
    WordAt(b, 2, h.totalLen);
    WordAt(b, 4, h.id);
    WordAt(b, 6, FlagFrag(h));
    WordAt(b, 10, h.chksum);
    assert b[12..16] == HeaderBytes(h, opts)[12..16] && b[16..20] == HeaderBytes(h, opts)[16..20];
  }

  lemma ParsedBits(b: seq<U8>)
    requires |b| >= 20
    ensures FlagFrag(Parse(b)) == Word(b[6], b[7])
    ensures Parse(b).ver * 0x10 + Parse(b).ihl == b[0]
  {
  }

  /** Writing a header that was read gives its bytes back. */
  lemma BytesParse(b: seq<U8>)
    requires |b| >= 20
    ensures HeaderBytes(Parse(b), b[20..]) == b
  {
    var h := Parse(b);
    ParsedBits(b);
    WordBytes(b[2], b[3]);
    WordBytes(b[4], b[5]);
    WordBytes(b[6], b[7]);
    WordBytes(b[10], b[11]);
    hide Be16, Word, FlagFrag;
    assert Front(h) == b[..10];
    hide Front;
    assert Be16(h.chksum) == b[10..12] && h.sa == b[12..16] && h.da == b[16..20];
  }

  // ---------- the checksum ----------

  lemma RawBe16(v: U16)
    ensures Raw(Be16(v)) == v
  {
    RoundTrip16(v);
    assert Be16(v)[2..] == [];
    hide Be16, Word;
  }

  lemma RawTwo(hi: U8, lo: U8)
    ensures Raw([hi, lo]) == Word(hi, lo)
  {
    assert [hi, lo][2..] == [];
  }

  lemma RawAddr(a: Addr)
    ensures Raw(a) == Word(a[0], a[1]) + Word(a[2], a[3])
  {
    assert a[2..] == [a[2], a[3]];
    RawTwo(a[2], a[3]);
    hide Word;
  }

  lemma FrontPairs(h: IpHdr)
    ensures Front(h) ==
      [h.ver * 0x10 + h.ihl, h.tos] + Be16(h.totalLen) + Be16(h.id) + Be16(FlagFrag(h)) + [h.ttl, h.proto]
  {
    hide Be16, FlagFrag;
    assert [h.ver * 0x10 + h.ihl] + [h.tos] == [h.ver * 0x10 + h.ihl, h.tos];
  }

  lemma {:induction false} RawFront(h: IpHdr)
    ensures Raw(Front(h)) == Word(h.ver * 0x10 + h.ihl, h.tos) + h.totalLen + h.id + FlagFrag(h) + Word(h.ttl, h.proto)
  {
    hide Raw, Be16, FlagFrag, Word;
    var a := [h.ver * 0x10 + h.ihl, h.tos];
    RawTwo(h.ver * 0x10 + h.ihl, h.tos);
    RawTwo(h.ttl, h.proto);
    RawBe16(h.totalLen);
    RawBe16(h.id);
    RawBe16(FlagFrag(h));
    RawAppend(a, Be16(h.totalLen));
    RawAppend(a + Be16(h.totalLen), Be16(h.id));
    RawAppend(a + Be16(h.totalLen) + Be16(h.id), Be16(FlagFrag(h)));
    RawAppend(a + Be16(h.totalLen) + Be16(h.id) + Be16(FlagFrag(h)), [h.ttl, h.proto]);
    FrontPairs(h);
  }

  /** The sum of the fields is the sum over the bytes they are sent in, checksum included. */
  lemma RawHeader(h: IpHdr, opts: seq<U8>)
    ensures Raw(HeaderBytes(h, opts)) ==
      Word(h.ver * 0x10 + h.ihl, h.tos) + h.totalLen + h.id + FlagFrag(h) + Word(h.ttl, h.proto) + h.chksum
      + Word(h.sa[0], h.sa[1]) + Word(h.sa[2], h.sa[3]) + Word(h.da[0], h.da[1]) + Word(h.da[2], h.da[3])
      + Raw(opts)
  {
    hide Raw, Be16, FlagFrag, Word, Front;
    RawFront(h);
    RawBe16(h.chksum);
    RawAddr(h.sa);
    RawAddr(h.da);
    RawAppend(Front(h), Be16(h.chksum));
    RawAppend(h.sa, h.da);
    RawAppend(Front(h) + Be16(h.chksum), h.sa + h.da);
    RawAppend(Fixed(h), opts);
  }

  /** A header has at most 30 words, so the U8 carry of CHECK_SUM is enough for it. */
  lemma HeaderRawBound(h: IpHdr, opts: seq<U8>)
    requires |opts| <= 40
    ensures HeaderRaw(h, opts) < 0x100_0000
    ensures h.ver > 0 ==> HeaderRaw(h, opts) > 0
  {
    RawBound(HeaderBytes(h.(chksum := 0), opts));
    RawHeader(h.(chksum := 0), opts);
    hide HeaderBytes, Raw;
  }

  lemma SealedIs(h: IpHdr, opts: seq<U8>)
    requires |opts| <= 40
    ensures HeaderRaw(h, opts) < 0x100_0000
    ensures Sealed(h, opts) == h.(chksum := CheckSum(HeaderRaw(h, opts)))
  {
    HeaderRawBound(h, opts);
    CheckSumExactIff(HeaderRaw(h, opts));
    OnesSumIsFold(HeaderBytes(h.(chksum := 0), opts));
    hide CheckSum, Fold, HeaderBytes;
  }

  /** A header is sealed exactly when its words sum to all ones and its checksum is not
      itself all ones. */
  lemma SealedIffValid(h: IpHdr, opts: seq<U8>)
    requires h.ver == IP_VERSION && |opts| <= 40
    ensures h == Sealed(h, opts) <==> SumsToOnes(HeaderBytes(h, opts)) && h.chksum != 0xffff
  {
    hide CheckSum, Fold, HeaderBytes, Sealed, HeaderRaw;
    HeaderRawBound(h, opts);
    SealedIs(h, opts);
    ReceiverAccepts(HeaderRaw(h, opts), h.chksum);
    OnesSumIsFold(HeaderBytes(h, opts));
    assert Raw(HeaderBytes(h, opts)) == HeaderRaw(h, opts) + h.chksum by {
      HeaderRawIs(h, opts);
      RawHeader(h, opts);
      RawHeader(h.(chksum := 0), opts);
      hide Raw, Word;
    }
  }

  lemma HeaderRawIs(h: IpHdr, opts: seq<U8>)
    ensures HeaderRaw(h, opts) == Raw(HeaderBytes(h.(chksum := 0), opts))
  {
  }

  // ---------- what the codec promises ----------

  /** Bytes of header that DECODE_IP_PKT sums: a length field below five counts as five. */
  function HdrLen(ihl: U4): nat {
    if ihl <= IP_MIN_HDR_LEN then 20 else 4 * ihl
  }

  /** What DECODE_IP_PKT accepts. */
  predicate Accepts(b: seq<U8>) {
    && b != [] && b[0] / 0x10 == IP_VERSION && HdrLen(b[0] % 0x10) <= |b|
    && var head := b[..HdrLen(b[0] % 0x10)];
      SumsToOnes(head) && Word(head[10], head[11]) != 0xffff
  }

  ghost predicate OptionsFit(h: IpHdr, opts: seq<U8>) {
    h.ver == IP_VERSION && h.ihl >= IP_MIN_HDR_LEN && |opts| == 4 * (h.ihl - IP_MIN_HDR_LEN)
  }

  /** Whatever ENCODE_IP_PKT writes for a version 4 packet with matching options is valid
      under RFC 791, is accepted, and reads back as the fields and options written. */
  lemma IpRoundTrip(h: IpHdr, opts: seq<U8>, rest: seq<U8>)
    requires OptionsFit(h, opts)
    ensures var b := HeaderBytes(Sealed(h, opts), opts) + rest;
      && Accepts(b) && Parse(b) == Sealed(h, opts) && b[20..HdrLen(h.ihl)] == opts
      && SumsToOnes(b[..HdrLen(h.ihl)])
  {
    hide HeaderBytes, Sealed, SumsToOnes, Front;
    var s := Sealed(h, opts);
    SealedIs(h, opts);
    assert s.ver == h.ver && s.ihl == h.ihl && s == Sealed(s, opts) by {
      SealedIs(s, opts);
      SameRaw(h, s, opts);
    }
    SealedIffValid(s, opts);
    var head := HeaderBytes(s, opts);
    var b := head + rest;
    ParseBytes(s, opts, rest);
    BytesAt(s, opts);
    assert b[..HdrLen(h.ihl)] == head;
    assert b[20..HdrLen(h.ihl)] == head[20..];
    hide CheckSum, HeaderRaw;
  }

  lemma SameRaw(h: IpHdr, s: IpHdr, opts: seq<U8>)
    requires s == h.(chksum := s.chksum)
    ensures HeaderRaw(h, opts) == HeaderRaw(s, opts)
  {
    assert h.(chksum := 0) == s.(chksum := 0);
  }

  /** The options of an arriving header, none when its length field is below five. */
  function OptionsIn(b: seq<U8>): seq<U8>
    requires b != [] && HdrLen(b[0] % 0x10) <= |b|
  {
    b[20..HdrLen(b[0] % 0x10)]
  }

  lemma {:induction false} AcceptsSealed(b: seq<U8>)
    requires b != [] && b[0] / 0x10 == IP_VERSION && HdrLen(b[0] % 0x10) <= |b|
    ensures Accepts(b) <==> Parse(b) == Sealed(Parse(b), OptionsIn(b))
  {
    var head := b[..HdrLen(b[0] % 0x10)];
    var h := Parse(b);
    assert h == Parse(head) && OptionsIn(b) == head[20..];
    BytesParse(head);
    hide HeaderBytes, Sealed, SumsToOnes, Parse, OptionsIn;
    SealedIffValid(h, head[20..]);
    assert h.ver == IP_VERSION && h.chksum == Word(head[10], head[11]) by {
      ParseParts(head);
    }
  }

  lemma ParseParts(b: seq<U8>)
    requires |b| >= 20
    ensures Parse(b).ver == b[0] / 0x10 && Parse(b).ihl == b[0] % 0x10 && Parse(b).chksum == Word(b[10], b[11])
  {
  }

  /** DECODE_IP_PKT accepts exactly the headers that ENCODE_IP_PKT would write for what it
      read from them. */
  lemma {:induction false} AcceptsIff(b: seq<U8>)
    requires b != [] && b[0] / 0x10 == IP_VERSION && HdrLen(b[0] % 0x10) <= |b|
    ensures Accepts(b) <==>
      b[..HdrLen(b[0] % 0x10)] == HeaderBytes(Sealed(Parse(b), OptionsIn(b)), OptionsIn(b))
  {
    var head := b[..HdrLen(b[0] % 0x10)];
    var h, opts := Parse(b), OptionsIn(b);
    assert h == Parse(head) && opts == head[20..];
    AcceptsSealed(b);
    BytesParse(head);
    hide HeaderBytes, Sealed, Parse, Accepts, OptionsIn;
    if head == HeaderBytes(Sealed(h, opts), opts) {
      ParseBytes(Sealed(h, opts), opts, []);
      assert HeaderBytes(Sealed(h, opts), opts) + [] == head;
    }
  }

  // ---------- length fields below five ----------

  /** A header of section 3.1 of RFC 791: version 4, at least five words, all of them there
      and summing to all ones. */
  predicate ValidHeader(b: seq<U8>) {
    && b != [] && b[0] / 0x10 == IP_VERSION && b[0] % 0x10 >= IP_MIN_HDR_LEN && 4 * (b[0] % 0x10) <= |b|
    && SumsToOnes(b[..4 * (b[0] % 0x10)])
  }

  /** Where DECODE_IP_PKT finds the data. */
  function DataOffset(b: seq<U8>): nat
    requires b != []
  {
    4 * (b[0] % 0x10)
  }

  /** What is accepted is a valid header with its data behind twenty bytes at least exactly
      when its length field is five or more. */
  lemma AcceptedValidIff(b: seq<U8>)
    requires Accepts(b)
    ensures ValidHeader(b) && DataOffset(b) >= 20 <==> b[0] % 0x10 >= IP_MIN_HDR_LEN
    ensures ValidHeader(b) <==> b[0] % 0x10 >= IP_MIN_HDR_LEN
  {
    hide SumsToOnes, Word;
  }

  /** What is valid is accepted exactly when its checksum was not sent as all ones. */
  lemma ValidAcceptedIff(b: seq<U8>)
    requires ValidHeader(b)
    ensures Accepts(b) <==> Word(b[10], b[11]) != 0xffff
  {
    hide SumsToOnes, Word;
  }

  function BareHeader(ihl: U4): IpHdr {
    IpHdr(IP_VERSION, ihl, 0, 0, 0, 0, 0, 0, 0, 0, [0, 0, 0, 0], [0, 0, 0, 0])
  }

  /** For every length field below five there is a header of twenty bytes that is accepted,
      though not valid, and whose data starts inside it. */
  lemma ShortAccepted(ihl: U4)
    requires ihl < IP_MIN_HDR_LEN
    ensures var b := HeaderBytes(Sealed(BareHeader(ihl), []), []);
      |b| == 20 && b[0] % 0x10 == ihl && Accepts(b) && !ValidHeader(b) && DataOffset(b) < 20
  {
    var h := BareHeader(ihl);
    var s := Sealed(h, []);
    hide HeaderBytes, Sealed, SumsToOnes, Parse, Accepts;
    SealedIs(h, []);
    SameRaw(h, s, []);
    SealedIs(s, []);
    var b := HeaderBytes(s, []);
    ParseBytes(s, [], []);
    assert b + [] == b;
    ParseParts(b);
    AcceptsSealed(b);
    hide CheckSum, HeaderRaw;
  }

  /** A length handed back after taking off a header is exact when the header fits in what
      came in, and only then; else it wraps. */
  lemma DataLenIff(len: U16, header: U16)
    ensures ToU16(len - header) == len - header <==> header <= len
    ensures header > len ==> ToU16(len - header) == 0x1_0000 + len - header
  {
  }

  // ---------- the packet in memory ----------

  /** tIP_PKT.  A pointer is an array and an offset into it. */
  class IpPkt {
    var ver: U4
    var ihl: U4
    var tos: U8
    var totalLen: U16
    var id: U16
    var flag: U3
    var fragOff: U13
    var ttl: U8
    var proto: U8
    var chksum: U16
    var sa: Addr
    var da: Addr
    var optPad: array?<U8>
    var optOff: nat
    var data: array?<U8>
    var dataOff: nat

    /** A local variable: its fields hold anything. */
    constructor Local() {
    }

    function Hdr(): IpHdr
      reads this
    {
      IpHdr(ver, ihl, tos, totalLen, id, flag, fragOff, ttl, proto, chksum, sa, da)
    }

    /** The options opt_pad points at are there to be read. */
    ghost predicate OptReadable()
      reads this
    {
      optPad != null && ihl > IP_MIN_HDR_LEN ==> optOff + 4 * (ihl - IP_MIN_HDR_LEN) <= optPad.Length
    }

    /** Writing a header to mp at off leaves them alone. */
    ghost predicate OptApart(mp: array<U8>, off: nat)
      reads this
    {
      optPad == mp && ihl > IP_MIN_HDR_LEN ==>
        var n := 4 * (ihl - IP_MIN_HDR_LEN);
        optOff + n <= off || off + 20 + n <= optOff
    }

    ghost function Opts(): (s: seq<U8>)
      requires OptReadable()
      reads this, optPad
      ensures |s| <= 40 && |s| % 4 == 0
    {
      if optPad == null || ihl <= IP_MIN_HDR_LEN then []
      else optPad[optOff..optOff + 4 * (ihl - IP_MIN_HDR_LEN)]
    }
  }

  lemma RawSnoc(s: seq<U8>, k: nat)
    requires k + 2 <= |s| && k % 2 == 0
    ensures Raw(s[..k + 2]) == Raw(s[..k]) + Word(s[k], s[k + 1])
  {
    RawTwo(s[k], s[k + 1]);
    RawAppend(s[..k], [s[k], s[k + 1]]);
    assert s[..k + 2] == s[..k] + [s[k], s[k + 1]];
  }

  /** Everything CHKSUM_IP_HDR adds before the options. */
  function FieldSum(h: IpHdr): nat {
    Word(h.ver * 0x10 + h.ihl, h.tos) + h.totalLen + h.id + FlagFrag(h) + Word(h.ttl, h.proto)
    + Word(h.sa[0], h.sa[1]) + Word(h.sa[2], h.sa[3]) + Word(h.da[0], h.da[1]) + Word(h.da[2], h.da[3])
  }

  lemma FieldSumIs(h: IpHdr, opts: seq<U8>)
    ensures HeaderRaw(h, opts) == FieldSum(h) + Raw(opts)
  {
    RawHeader(h.(chksum := 0), opts);
    hide Raw, HeaderBytes, Word;
  }

  /** The option loop of CHKSUM_IP_HDR. */
  method SumOptions(p: IpPkt, start: nat) returns (sum: nat)
    requires p.OptReadable()
    ensures sum == start + Raw(p.Opts())
  {
    ghost var opts := p.Opts();
    assert Raw([]) == 0;
    hide Raw, Word;
    sum := start;
    if p.optPad != null {
      var u8p, i := p.optOff, 0;
      while i < (p.ihl - 5) * 2
        invariant 0 <= i && (2 * i <= |opts| || i == 0) && u8p == p.optOff + 2 * i
        invariant sum == start + Raw(opts[..2 * i])
      {
        RawSnoc(opts, 2 * i);
        sum := sum + Word(p.optPad[u8p], p.optPad[u8p + 1]);
        u8p := u8p + 2;
        i := i + 1;
      }
      assert opts[..2 * i] == opts;
    }
  }

  method CHKSUM_IP_HDR(p: IpPkt) returns (r: U16)
    requires p.OptReadable()
    ensures p.Hdr().(chksum := r) == Sealed(p.Hdr(), p.Opts())
  {
    ghost var h, opts := p.Hdr(), p.Opts();
    SealedIs(h, opts);
    FieldSumIs(h, opts);
    hide Sealed, HeaderRaw, HeaderBytes, CheckSum, Raw, Word;
    var sum: nat := Word(p.ver * 0x10 + p.ihl, p.tos) as int;
    sum := sum + p.totalLen;
    sum := sum + p.id;
    sum := sum + (p.flag * 0x2000 + p.fragOff);
    sum := sum + Word(p.ttl, p.proto);
    sum := sum + Word(p.sa[0], p.sa[1]);
    sum := sum + Word(p.sa[2], p.sa[3]);
    sum := sum + Word(p.da[0], p.da[1]);
    sum := sum + Word(p.da[2], p.da[3]);
    assert sum == FieldSum(h);
    hide FieldSum;
    sum := SumOptions(p, sum);
    r := CHECK_SUM(sum);
  }

  /** The first six bytes. */
  method EncodeLead(p: IpPkt, mp: array<U8>, off: nat) returns (next: nat)
    requires off + 6 <= mp.Length
    modifies mp
    ensures next == off + 6 && mp[..] == Patched(old(mp[..]), off, Lead(p.Hdr()))
  {
    ghost var buf := mp[..];
    var b0: U8 := p.ver * 0x10 + p.ihl;
    hide Patched, Be16;
    ghost var s := [b0];
    next := ENCODE_U8(mp, off, b0);
    next := ENCODE_U8(mp, next, p.tos);
    PatchMore(buf, off, s, [p.tos]);
    s := s + [p.tos];
    assert mp[..] == Patched(buf, off, s);
    next := ENCODE_U16(mp, next, p.totalLen);
    PatchMore(buf, off, s, Be16(p.totalLen));
    s := s + Be16(p.totalLen);
    assert mp[..] == Patched(buf, off, s);
    next := ENCODE_U16(mp, next, p.id);
    PatchMore(buf, off, s, Be16(p.id));
    assert s + Be16(p.id) == Lead(p.Hdr());
  }

  /** The ten bytes before the checksum. */
  method EncodeFront(p: IpPkt, mp: array<U8>, off: nat) returns (next: nat)
    requires off + 10 <= mp.Length
    modifies mp
    ensures next == off + 10 && mp[..] == Patched(old(mp[..]), off, Front(p.Hdr()))
  {
    ghost var buf, h := mp[..], p.Hdr();
    var tmp: U16 := p.flag * 0x2000 + p.fragOff;
    assert tmp == FlagFrag(h);
    hide Patched, Be16, FlagFrag, Lead;
    next := EncodeLead(p, mp, off);
    ghost var mid := mp[..];
    next := ENCODE_U16(mp, next, tmp);
    next := ENCODE_U8(mp, next, p.ttl);
    PatchMore(mid, off + 6, Be16(tmp), [p.ttl]);
    next := ENCODE_U8(mp, next, p.proto);
    PatchMore(mid, off + 6, Be16(tmp) + [p.ttl], [p.proto]);
    PatchMore(buf, off, Lead(h), Be16(tmp) + [p.ttl] + [p.proto]);
  }

  /** They leave the options as they were. */
  method EncodeFrontApart(p: IpPkt, mp: array<U8>, off: nat) returns (next: nat)
    requires off + 10 <= mp.Length && p.OptReadable() && p.OptApart(mp, off)
    modifies mp
    ensures next == off + 10 && mp[..] == Patched(old(mp[..]), off, Front(p.Hdr())) && p.Opts() == old(p.Opts())
  {
    hide Patched, Front, IpPkt.Hdr;
    ghost var buf := mp[..];
    next := EncodeFront(p, mp, off);
    if p.optPad == mp && p.ihl > IP_MIN_HDR_LEN {
      PatchedApart(buf, off, Front(p.Hdr()), p.optOff, p.optOff + 4 * (p.ihl - IP_MIN_HDR_LEN));
    }
  }

  lemma PatchedApart(m: seq<U8>, off: nat, s: seq<U8>, i: nat, j: nat)
    requires off + |s| <= |m| && i <= j <= |m| && (j <= off || off + |s| <= i)
    ensures Patched(m, off, s)[i..j] == m[i..j]
  {
  }

  /** The options opt_pad points at, if any. */
  method EncodeOptions(p: IpPkt, mp: array<U8>, off: nat) returns (next: nat)
    requires p.OptReadable()
    requires p.optPad != null ==> p.ihl >= IP_MIN_HDR_LEN
    requires off + |p.Opts()| <= mp.Length
    modifies mp
    ensures next == off + |old(p.Opts())| && mp[..] == Patched(old(mp[..]), off, old(p.Opts()))
  {
    next := off;
    if p.optPad != null {
      var optLen := (p.ihl - IP_MIN_HDR_LEN) * 4;
      if optLen != 0 {
        next := memcpy(mp, next, p.optPad[p.optOff..p.optOff + optLen]);
      }
    }
  }

  /** Both addresses. */
  method EncodeAddrs(p: IpPkt, mp: array<U8>, off: nat) returns (next: nat)
    requires off + 8 <= mp.Length
    modifies mp
    ensures next == off + 8 && mp[..] == Patched(old(mp[..]), off, p.sa + p.da)
  {
    ghost var buf := mp[..];
    hide Patched;
    next := memcpy(mp, off, p.sa);
    next := memcpy(mp, next, p.da);
    PatchMore(buf, off, p.sa, p.da);
  }

  /** The sealed twenty bytes before the options. */
  method EncodeSealed(p: IpPkt, mp: array<U8>, off: nat) returns (next: nat)
    requires p.OptReadable() && p.OptApart(mp, off)
    requires off + 20 <= mp.Length
    modifies mp, p`chksum
    ensures p.Hdr() == Sealed(old(p.Hdr()), old(p.Opts()))
    ensures next == off + 20 && mp[..] == Patched(old(mp[..]), off, Fixed(p.Hdr()))
  {
    hide Patched, Sealed, Be16, Front, IpPkt.Opts, IpPkt.OptReadable, IpPkt.OptApart;
    ghost var buf, h := mp[..], p.Hdr();
    next := EncodeFrontApart(p, mp, off);
    var chksum := CHKSUM_IP_HDR(p);
    p.chksum := chksum;
    FrontSkipsChecksum(h, chksum);
    next := ENCODE_U16(mp, next, chksum);
    PatchMore(buf, off, Front(h), Be16(chksum));
    ghost var s := Front(h) + Be16(chksum);
    next := EncodeAddrs(p, mp, next);
    PatchMore(buf, off, s, h.sa + h.da);
  }

  /** The options are as they were. */
  method EncodeFixed(p: IpPkt, mp: array<U8>, off: nat) returns (next: nat)
    requires p.OptReadable() && p.OptApart(mp, off)
    requires off + 20 <= mp.Length
    modifies mp, p`chksum
    ensures p.Hdr() == Sealed(old(p.Hdr()), old(p.Opts())) && p.Opts() == old(p.Opts())
    ensures next == off + 20 && mp[..] == Patched(old(mp[..]), off, Fixed(p.Hdr()))
  {
    hide Patched, Sealed, Fixed, IpPkt.Hdr;
    ghost var buf := mp[..];
    next := EncodeSealed(p, mp, off);
    if p.optPad == mp && p.ihl > IP_MIN_HDR_LEN {
      PatchedApart(buf, off, Fixed(p.Hdr()), p.optOff, p.optOff + 4 * (p.ihl - IP_MIN_HDR_LEN));
    }
  }

  /** The header is written, checksum and all, and nothing but the packet's checksum and
      those bytes changes. */
  method ENCODE_IP_PKT(p: IpPkt, mp: array<U8>, off: nat) returns (next: nat)
    requires p.OptReadable() && p.OptApart(mp, off)
    requires p.optPad != null ==> p.ihl >= IP_MIN_HDR_LEN
    requires off + 20 + |p.Opts()| <= mp.Length
    modifies mp, p`chksum
    ensures p.Hdr() == Sealed(old(p.Hdr()), old(p.Opts()))
    ensures next == off + 20 + |old(p.Opts())|
    ensures mp[..] == Patched(old(mp[..]), off, HeaderBytes(p.Hdr(), old(p.Opts())))
  {
    ghost var buf, opts := mp[..], p.Opts();
    hide Patched, Sealed, Fixed, IpPkt.Opts, IpPkt.OptReadable, IpPkt.OptApart;
    next := EncodeFixed(p, mp, off);
    next := EncodeOptions(p, mp, next);
    PatchMore(buf, off, Fixed(p.Hdr()), opts);
  }

  lemma FrontSkipsChecksum(h: IpHdr, chksum: U16)
    ensures Front(h.(chksum := chksum)) == Front(h)
  {
  }

  /** One of the address loops of DECODE_IP_PKT. */
  method ReadAddr(mem: array<U8>, off: nat) returns (a: Addr, next: nat)
    requires off + 4 <= mem.Length
    ensures a == mem[..][off..off + 4] && next == off + 4
  {
    a, next := [0, 0, 0, 0], off;
    for i := 0 to 4
      invariant next == off + i
      invariant a[..i] == mem[..][off..off + i]
    {
      a := a[i := mem[next]];
      next := next + 1;
    }
  }

  /** The fixed header up to the fragment offset. */
  method ReadLead(p: IpPkt, mem: array<U8>, off: nat) returns (next: nat)
    requires off + 20 <= mem.Length
    modifies p`tos, p`totalLen, p`id, p`flag, p`fragOff
    ensures next == off + 8
    ensures p.tos == mem[off + 1] && p.totalLen == Word(mem[off + 2], mem[off + 3])
      && p.id == Word(mem[off + 4], mem[off + 5])
      && p.flag == mem[off + 6] / 0x20 && p.fragOff == Word(mem[off + 6], mem[off + 7]) % 0x2000
  {
    hide Word;
    p.tos := mem[off + 1];
    p.totalLen, next := DECODE_U16(mem, off + 2);
    p.id, next := DECODE_U16(mem, next);
    p.flag := mem[next] / 0x20;
    var tmp: U16;
    tmp, next := DECODE_U16(mem, next);
    p.fragOff := tmp % 0x2000;
  }

  /** And the rest of its twenty bytes. */
  method ReadTail(p: IpPkt, mem: array<U8>, off: nat) returns (next: nat)
    requires off + 20 <= mem.Length
    modifies p`ttl, p`proto, p`chksum, p`sa, p`da
    ensures next == off + 20
    ensures p.ttl == mem[off + 8] && p.proto == mem[off + 9] && p.chksum == Word(mem[off + 10], mem[off + 11])
      && p.sa == mem[..][off + 12..off + 16] && p.da == mem[..][off + 16..off + 20]
  {
    hide Word;
    p.ttl := mem[off + 8];
    p.proto := mem[off + 9];
    p.chksum, next := DECODE_U16(mem, off + 10);
    p.sa, next := ReadAddr(mem, next);
    p.da, next := ReadAddr(mem, next);
  }

  /** The twenty bytes of the fixed header. */
  method ReadFields(p: IpPkt, mem: array<U8>, off: nat) returns (next: nat)
    requires off + 20 <= mem.Length
    requires p.ver == mem[off] / 0x10 && p.ihl == mem[off] % 0x10
    modifies p`tos, p`totalLen, p`id, p`flag, p`fragOff, p`ttl, p`proto, p`chksum, p`sa, p`da
    ensures p.Hdr() == Parse(mem[..][off..]) && next == off + 20
  {
    TailSlice(mem[..], off, 12, 16);
    TailSlice(mem[..], off, 16, 20);
    hide Word;
    next := ReadLead(p, mem, off);
    next := ReadTail(p, mem, off);
  }

  lemma TailSlice(m: seq<U8>, off: nat, i: nat, j: nat)
    requires i <= j && off + j <= |m|
    ensures m[off..][i..j] == m[off + i..off + j]
  {
  }

  /** The end of the header: options and data are pointers into what arrived. */
  method SetPointers(p: IpPkt, mem: array<U8>, next: nat)
    requires next >= 20 && next - 20 + HdrLen(p.ihl) <= mem.Length
    modifies p`optPad, p`optOff, p`data, p`dataOff
    ensures p.Hdr() == old(p.Hdr())
    ensures p.OptReadable() && p.Opts() == mem[..][next..next - 20 + HdrLen(p.ihl)]
    ensures p.data == mem && p.dataOff == next - 20 + 4 * p.ihl
  {
    var at := next;
    if p.ihl - IP_MIN_HDR_LEN != 0 {
      p.optPad, p.optOff := mem, next;
      at := next + 4 * p.ihl - 20;
    } else {
      p.optPad := null;
    }
    p.data, p.dataOff := mem, at;
  }

  lemma OptionsAt(mem: seq<U8>, off: nat)
    requires off < |mem| && off + HdrLen(mem[off] % 0x10) <= |mem|
    ensures OptionsIn(mem[off..]) == mem[off + 20..off + HdrLen(mem[off] % 0x10)]
  {
  }

  lemma HdrChksum(p: IpPkt)
    ensures p.Hdr().chksum == p.chksum
  {
  }

  /** Fields and pointers. */
  method ReadHeader(p: IpPkt, mem: array<U8>, off: nat)
    requires off < mem.Length && off + HdrLen(mem[off] % 0x10) <= mem.Length
    requires p.ver == mem[off] / 0x10 && p.ihl == mem[off] % 0x10
    modifies p
    ensures p.ver == old(p.ver) && p.ihl == old(p.ihl)
    ensures p.Hdr() == Parse(mem[..][off..]) && p.OptReadable() && p.Opts() == OptionsIn(mem[..][off..])
    ensures p.data == mem && p.dataOff == off + 4 * p.ihl
  {
    OptionsAt(mem[..], off);
    hide Parse, OptionsIn, IpPkt.OptReadable, IpPkt.Opts;
    var next := ReadFields(p, mem, off);
    hide IpPkt.Hdr;
    SetPointers(p, mem, next);
  }

  /** DECODE_IP_PKT once the version is seen to be four. */
  method DecodeRest(p: IpPkt, mem: array<U8>, off: nat, len: U16) returns (ok: bool, newLen: U16)
    requires off < mem.Length && mem[off] / 0x10 == IP_VERSION && off + HdrLen(mem[off] % 0x10) <= mem.Length
    requires p.ver == IP_VERSION && p.ihl == mem[off] % 0x10
    modifies p
    ensures ok <==> Accepts(mem[..][off..])
    ensures p.Hdr() == Parse(mem[..][off..])
    ensures p.OptReadable() && p.Opts() == OptionsIn(mem[..][off..])
    ensures p.data == mem && p.dataOff == off + 4 * p.ihl
    ensures newLen == ToU16(len - 4 * p.ihl)
  {
    AcceptsSealed(mem[..][off..]);
    hide Parse, OptionsIn, ToU16, Accepts, Sealed, HdrLen, IpPkt.OptReadable, IpPkt.Opts, IpPkt.Hdr;
    newLen := ToU16(len as int - 4 * p.ihl);
    ReadHeader(p, mem, off);
    var chksum := CHKSUM_IP_HDR(p);
    HdrChksum(p);
    ok := chksum == p.chksum;
  }

  /** Every field and the options are read, whether or not the header is then accepted; a
      wrong version is refused at once. */
  method DECODE_IP_PKT(p: IpPkt, mem: array<U8>, off: nat, len: U16) returns (ok: bool, newLen: U16)
    requires off < mem.Length
    requires mem[off] / 0x10 == IP_VERSION ==> off + HdrLen(mem[off] % 0x10) <= mem.Length
    modifies p
    ensures ok <==> Accepts(mem[..][off..])
    ensures p.ver == mem[off] / 0x10 && p.ihl == mem[off] % 0x10
    ensures p.ver != IP_VERSION ==>
      && newLen == len && p.Hdr() == old(p.Hdr()).(ver := p.ver, ihl := p.ihl)
      && p.optPad == old(p.optPad) && p.data == old(p.data)
    ensures p.ver == IP_VERSION ==>
      && p.Hdr() == Parse(mem[..][off..])
      && p.OptReadable() && p.Opts() == OptionsIn(mem[..][off..])
      && p.data == mem && p.dataOff == off + 4 * p.ihl
      && newLen == ToU16(len - 4 * p.ihl)
  {
    assert mem[..][off..][0] == mem[off];
    hide Parse, OptionsIn, ToU16, Accepts, IpPkt.Opts;
    p.ver, p.ihl := mem[off] / 0x10, mem[off] % 0x10;
    if p.ver != IP_VERSION {
      assert !Accepts(mem[..][off..]) by {
        OtherVersion(mem[..][off..]);
      }
      return false, len;
    }
    ParseParts(mem[..][off..]);
    ok, newLen := DecodeRest(p, mem, off, len);
  }

  lemma OtherVersion(b: seq<U8>)
    requires b != [] && b[0] / 0x10 != IP_VERSION
    ensures !Accepts(b)
  {
  }
}
