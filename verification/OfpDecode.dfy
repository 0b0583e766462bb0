/** src/ofp_codec.c: OFP_decode_frame on the bytes of a mail. */
module OfpDecode {
  import opened Words
  import opened OfpCodec
  import opened OfpExchange
  import opened IpCodec
  import OfpAgent

  // Who put a mail into the queue (src/ofp_sock.h:17-18).
  const DRIV_DP: U8 := 1
  const DRIV_CP_FAIL: U8 := 2

  /** ERROR, TRUE, RESTART, and a read through a null pointer. */
  datatype Decoded = Error | Done | Lost | Null

  /** The mail as OfpAgent sees it; the type of an OpenFlow message is its second byte, the
      type of its action the two at 72. */
  function MsgOf(len: int, kind: U8, mu: seq<U8>): OfpAgent.DrvMsg
    requires |mu| >= 84
  {
    if len > 1500 then OfpAgent.TooLong
    else if kind == 1 then OfpAgent.FromHost
    else if kind == 2 then OfpAgent.CpFail
    else OfpAgent.Controller(mu[1], mu[72] == 0 && mu[73] == 25)
  }

  /** The frame a mail carries lies in memory and fits ofpbuf behind the 42 bytes. */
  ghost predicate FrameFits(len: int, size: nat) {
    var mulen := ToU16(len - 5); mulen <= size && mulen <= MAX_FRAME
  }

  /** The event left in the port is the one the agent's model has for the mail; a frame goes
      out as a packet-in, a flow-mod is answered, and nothing else touches list or buffer. */
  method OFP_decode_frame(p: Port, len: int, kind: U8, mu: array<U8>, junk: Addr) returns (r: Decoded)
    requires p.Valid() && mu != p.ofpbuf && mu.Length >= 84
    requires len <= 1500 && kind == DRIV_DP ==> FrameFits(len, mu.Length) && p.bufferId < LAST_ID
    modifies p, p.ofpbuf, p.nodes, mu
    ensures r.Error? <==> len > 1500
    ensures r.Lost? <==> len <= 1500 && kind == 2
    ensures r.Null? <==> var m := old(MsgOf(len, kind, mu[..]));
      m.Controller? && m.ofpt == 14 && m.setField
      && old(HostList.FindHost(p.Hosts(), BufferIdOf(mu[..])) == |p.Hosts()|)
    ensures p.event == OfpAgent.DecodeEvent(old(p.event), old(MsgOf(len, kind, mu[..])))
    ensures old(MsgOf(len, kind, mu[..])).FromHost? ==>
      && p.Valid() && p.Shown() == Next(old(p.Shown()), FrameIn(old(mu[..])))
      && p.ofpbufLen == 42 + ToU16(len - 5) <= 1500
      && IsPacketIn(p.ofpbuf[..p.ofpbufLen], old(p.bufferId), old(mu[..ToU16(len - 5)]))
    ensures var m := old(MsgOf(len, kind, mu[..]));
      !m.FromHost? && !(m.Controller? && m.ofpt == 14 && m.setField) ==>
        p.Valid() && p.Shown() == old(p.Shown()) && p.ofpbuf[..] == old(p.ofpbuf[..])
  {
    hide IsPacketIn, Next, PacketIn, BufferIdOf, ReplyPayload, Reply, Swapped, HostList.FindHost;
    if len > ETH_MTU {
      return Error;
    }
    var mulen := ToU16(len - 5);
    if kind == DRIV_DP {
      p.OFP_encode_packet_in(mu, mulen);
      p.event := 10;
      return Done;
    }
    if kind == DRIV_CP_FAIL {
      return Lost;
    }
    r := Done;
    match mu[1]
    case 0 => p.event := 1;
    case 5 => p.event := 2;
    case 18 => p.event := 3;
    case 3 => p.event := 5;
    case 14 =>
      p.event := 11;
      var answer := p.OFP_encode_back_to_host(mu, junk);
      if answer.NoHost? {
        r := Null;
      }
    case 13 => p.event := 9;
    case _ =>
  }
}
