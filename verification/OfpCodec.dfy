/** src/ofp_codec.c: learning a host from a packet sent to the controller, and building the
    frame that answers it when a flow-mod comes back. */
module OfpCodec {
  import opened Words
  import opened Checksum
  import opened IpCodec
  import opened UdpCodec
  import opened HostList

  const ETH_MTU := 1500
  const OFPXMT_OFB_IPV4_DST := 12

  // ---------- packet-in ----------

  /** The 42 bytes before the frame: header, buffer id, lengths and the in-port match
      (section 7.4.1 of the OpenFlow Switch Specification 1.3). */
  function PacketInHead(id: U32, mulen: U16): (b: seq<U8>)
    requires mulen + 42 < 0x1_0000
    ensures |b| == 42
  {
    [4, 10] + Be16(mulen + 42) + [0, 0, 0, 0] + Be32(id) + Be16(mulen) + [0, 0]
    + [0, 0, 0, 0, 0, 0, 0, 0] + [0, 1, 0, 12, 0x80, 0, 0, 4] + [0, 0, 0, 1] + [0, 0, 0, 0, 0, 0]
  }

  lemma HeadParts(id: U32, mulen: U16)
    requires mulen + 42 < 0x1_0000
    ensures var b, len, n, i := PacketInHead(id, mulen), Be16(mulen + 42), Be16(mulen), Be32(id);
      && b[..8] == [4, 10, len[0], len[1], 0, 0, 0, 0]
      && b[8..16] == [i[0], i[1], i[2], i[3], n[0], n[1], 0, 0]
      && b[16..24] == [0, 0, 0, 0, 0, 0, 0, 0] && b[24..32] == [0, 1, 0, 12, 0x80, 0, 0, 4]
      && b[32..42] == [0, 0, 0, 1, 0, 0, 0, 0, 0, 0]
  {
    hide Be16, Be32;
  }

  /** The addresses of an Ethernet frame that carries IPv4. */
  function Learned(mu: seq<U8>, id: U32): Host
    requires |mu| >= 34
  {
    Host(mu[6..12], mu[0..6], mu[26..30], mu[30..34], id)
  }

  // ---------- flow-mod ----------

  function BufferIdOf(mu: seq<U8>): U32
    requires |mu| >= 84
  {
    Word32(mu[32..36])
  }

  /** The action in the only place the source looks is a set-field (type 25). */
  predicate IsSetField(mu: seq<U8>)
    requires |mu| >= 84
  {
    mu[72] == 0 && mu[73] == 25
  }

  /** The eight bytes of payload: the source address of the match and, if the field set is
      the IPv4 destination, its new value; else whatever dst_ip held. */
  function ReplyPayload(mu: seq<U8>, junk: Addr): (b: seq<U8>)
    requires |mu| >= 84
    ensures |b| == 8
  {
    mu[56..60] + if mu[78] / 2 == OFPXMT_OFB_IPV4_DST then mu[80..84] else junk
  }

  // ---------- the reply ----------

  /** ip_hdr_init. */
  function ReplyIp(h: Host): IpHdr {
    IpHdr(4, 5, 0, 36, 1, 2, 0, 64, PROTO_TYPE_UDP, 0, h.dstIp, h.srcIp)
  }

  /** udp_hdr_init. */
  const REPLY_UDP := UdpHdr(6655, 8000, 16, 0)

  function Reply(h: Host, payload: seq<U8>): (b: seq<U8>)
    requires |payload| == 8
    ensures |b| == 50
  {
    h.srcMac + h.dstMac + [8, 0]
    + HeaderBytes(Sealed(ReplyIp(h), []), [])
    + UdpHead(SealedUdp(h.dstIp, h.srcIp, REPLY_UDP, payload)) + payload
  }

  lemma ReplyParts(h: Host, payload: seq<U8>)
    requires |payload| == 8
    ensures var f := Reply(h, payload);
      var ip, udp := HeaderBytes(Sealed(ReplyIp(h), []), []), UdpHead(SealedUdp(h.dstIp, h.srcIp, REPLY_UDP, payload));
      f[..6] == h.srcMac && f[6..12] == h.dstMac && f[12..14] == [8, 0] && f[14..34] == ip
      && f[14..] == ip + (udp + payload) && f[34..] == udp + payload + []
  {
    hide Sealed, SealedUdp, UdpHead, HeaderBytes, ReplyIp;
  }

  /** What a host should get: a frame to it, a valid IP header with its own address as
      destination, and a datagram with the payload; the codec's decoders accept both. */
  predicate Answers(f: seq<U8>, h: Host, payload: seq<U8>) {
    && |f| == 50 && f[..6] == h.srcMac && f[6..12] == h.dstMac && f[12..14] == [8, 0]
    && f[14..24] == [0x45, 0, 0, 36, 0, 1, 0x40, 0, 64, 17] && f[26..30] == h.dstIp && f[30..34] == h.srcIp
    && SumsToOnes(f[14..34]) && Accepts(f[14..])
    && f[34..40] == [0x19, 0xff, 0x1f, 0x40, 0, 16] && AcceptsUdp(Parse(f[14..]), f[34..])
    && f[42..] == payload
  }

  /** Everything in the two headers but the checksums. */
  lemma ReplyHeads(h: Host, payload: seq<U8>)
    requires |payload| == 8
    ensures var f := Reply(h, payload);
      && f[14..24] == [0x45, 0, 0, 36, 0, 1, 0x40, 0, 64, 17] && f[26..30] == h.dstIp && f[30..34] == h.srcIp
      && f[34..40] == [0x19, 0xff, 0x1f, 0x40, 0, 16]
  {
    var ip, udp := Sealed(ReplyIp(h), []), SealedUdp(h.dstIp, h.srcIp, REPLY_UDP, payload);
    assert ip.(chksum := 0) == ReplyIp(h) && udp.(chksum := 0) == REPLY_UDP;
    var b, u, f := HeaderBytes(ip, []), UdpHead(udp), Reply(h, payload);
    assert ReplyFields(ip, h);
    hide Sealed, SealedUdp, ReplyIp;
    ReplyFront(ip, h);
    BytesAt(ip, []);
    assert u[..6] == [0x19, 0xff, 0x1f, 0x40, 0, 16];
    ReplyParts(h, payload);
    hide UdpHead, HeaderBytes, Reply, ReplyFields, Front;
    assert f[14..24] == f[14..34][..10] && f[26..30] == f[14..34][12..16] && f[30..34] == f[14..34][16..20];
    assert f[34..40] == f[34..][..6];
  }

  ghost predicate ReplyFields(ip: IpHdr, h: Host) {
    ip.(chksum := 0) == ReplyIp(h)
  }

  lemma ReplyFront(ip: IpHdr, h: Host)
    requires ReplyFields(ip, h)
    ensures Front(ip) == [0x45, 0, 0, 36, 0, 1, 0x40, 0, 64, 17] && ip.sa == h.dstIp && ip.da == h.srcIp
  {
    assert FlagFrag(ip) == 0x4000;
  }

  lemma {:induction false} ReplyAnswers(h: Host, payload: seq<U8>)
    requires |payload| == 8
    ensures Answers(Reply(h, payload), h, payload)
  {
    var ip := Sealed(ReplyIp(h), []);
    var udp := SealedUdp(h.dstIp, h.srcIp, REPLY_UDP, payload);
    assert ip.sa == h.dstIp && ip.da == h.srcIp && ip.totalLen == 36 && ip.ihl == 5;
    assert OptionsFit(ReplyIp(h), []);
    var f := Reply(h, payload);
    assert f[42..] == payload by {
      hide Sealed, SealedUdp, UdpHead, HeaderBytes, ReplyIp;
    }
    hide Accepts, AcceptsUdp, Sealed, SealedUdp, UdpHead, HeaderBytes, Parse, ParseUdp, SumsToOnes;
    hide Reply, ReplyIp, OptionsFit, Payload;
    ReplyHeads(h, payload);
    IpRoundTrip(ReplyIp(h), [], UdpHead(udp) + payload);
    UdpRoundTrip(ip, REPLY_UDP, payload, []);
    ReplyParts(h, payload);
    assert f[14..34] == f[14..][..20];
  }

  // ---------- the builders ----------

  method IpHdrInit(ip: IpPkt, h: Host)
    modifies ip
    ensures ip.Hdr().(chksum := 0) == ReplyIp(h)
    ensures ip.optPad == old(ip.optPad)
  {
    ip.ver, ip.ihl, ip.tos, ip.totalLen, ip.id := 4, 5, 0, 36, 1;
    ip.flag, ip.fragOff, ip.ttl, ip.proto := 2, 0, 64, PROTO_TYPE_UDP;
    ip.sa, ip.da := h.dstIp, h.srcIp;
  }

  method UdpHdrInit(udp: UdpPkt, payload: array<U8>)
    modifies udp
    ensures udp.Hdr().(chksum := 0) == REPLY_UDP && udp.data == payload && udp.off == 0
  {
    udp.src, udp.dst, udp.len := 6655, 8000, 16;
    udp.data, udp.off := payload, 0;
  }

  lemma SealIgnoresChecksum(ip: IpHdr, h: Host)
    requires ip.(chksum := 0) == ReplyIp(h)
    ensures Sealed(ip, []) == Sealed(ReplyIp(h), [])
  {
  }

  lemma SealUdpIgnoresChecksum(sa: Addr, da: Addr, u: UdpHdr, payload: seq<U8>)
    requires u.(chksum := 0) == REPLY_UDP && |payload| == 8
    ensures SealedUdp(sa, da, u, payload) == SealedUdp(sa, da, REPLY_UDP, payload)
  {
  }

  /** The IP part of OFP_encode_back_to_host.  ip_hdr_init leaves opt_pad as it found it,
      which does no harm with a header of five words. */
  method ReplyIpPart(buf: array<U8>, h: Host) returns (ip: IpPkt, next: nat)
    requires buf.Length == ETH_MTU
    modifies buf
    ensures fresh(ip) && ip.sa == h.dstIp && ip.da == h.srcIp && next == 34
    ensures buf[..] == Patched(old(buf[..]), 14, HeaderBytes(Sealed(ReplyIp(h), []), []))
  {
    hide Patched, HeaderBytes, Sealed;
    ip := new IpPkt.Local();
    IpHdrInit(ip, h);
    SealIgnoresChecksum(ip.Hdr(), h);
    assert ip.OptReadable() && ip.Opts() == [];
    next := ENCODE_IP_PKT(ip, buf, 14);
  }

  /** And its UDP part, the payload copied behind the header. */
  method ReplyUdpPart(buf: array<U8>, ip: IpPkt, payload: array<U8>) returns (next: nat)
    requires buf.Length == ETH_MTU && payload.Length == 8 && payload != buf
    modifies buf, payload
    ensures next == 50
    ensures buf[..] == Patched(old(buf[..]), 34,
      UdpHead(SealedUdp(ip.sa, ip.da, REPLY_UDP, old(payload[..]))) + old(payload[..]))
  {
    ghost var m, data := buf[..], payload[..];
    var udp := new UdpPkt.Local();
    UdpHdrInit(udp, payload);
    assert PadFits(data, 0, 16) && PadWritten(data, 0, 16) == data && Payload(data, 0, 16) == data;
    assert udp.len == 16 && udp.Hdr().(chksum := 0) == REPLY_UDP;
    hide Patched, UdpHead, SealedUdp, PadFits, PadWritten, Payload;
    SealUdpIgnoresChecksum(ip.sa, ip.da, udp.Hdr(), data);
    next := ENCODE_UDP_PKT(ip, udp, buf, 34);
    next := memcpy(buf, next, payload[..]);
    PatchMore(m, 34, UdpHead(SealedUdp(ip.sa, ip.da, REPLY_UDP, data)), data);
  }

  method BuildReply(buf: array<U8>, h: Host, payload: array<U8>) returns (len: U16)
    requires buf.Length == ETH_MTU && payload.Length == 8 && payload != buf
    modifies buf, payload
    ensures buf[..] == Patched(old(buf[..]), 0, Reply(h, old(payload[..]))) && len == 50
  {
    ghost var m, data := buf[..], payload[..];
    assert Be16(0x0800) == [8, 0];
    hide Patched, HeaderBytes, Sealed, UdpHead, SealedUdp, ReplyIp;
    var next := memcpy(buf, 0, h.srcMac);
    next := memcpy(buf, 6, h.dstMac);
    PatchMore(m, 0, h.srcMac, h.dstMac);
    next := ENCODE_U16(buf, 12, 0x0800);
    PatchMore(m, 0, h.srcMac + h.dstMac, [8, 0]);
    ghost var s := h.srcMac + h.dstMac + [8, 0];
    assert buf[..] == Patched(m, 0, s);
    len := 14;
    ghost var head := HeaderBytes(Sealed(ReplyIp(h), []), []);
    var ip: IpPkt;
    ip, next := ReplyIpPart(buf, h);
    PatchMore(m, 0, s, head);
    s := s + head;
    assert buf[..] == Patched(m, 0, s);
    len := len + 20;
    ghost var tail := UdpHead(SealedUdp(h.dstIp, h.srcIp, REPLY_UDP, data));
    next := ReplyUdpPart(buf, ip, payload);
    PatchMore(m, 0, s, tail + data);
    len := len + 8 + 4 * 2;
    assert s + (tail + data) == s + tail + data;
  }
}
