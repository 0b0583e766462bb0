/** src/ofp_codec.c: packet-ins and flow-mods over a whole session. */
module OfpExchange {
  import opened Words
  import opened Seqs
  import opened Checksum
  import opened IpCodec
  import opened UdpCodec
  import opened HostList
  import opened OfpCodec
  import OfpFsm

  /** The longest frame that fits ofpbuf behind the 42 bytes of a packet-in. */
  const MAX_FRAME := 1458
  /** The counter is an int; one more packet-in would overflow it. */
  const LAST_ID: U32 := 0x7fff_ffff

  function PacketIn(frame: seq<U8>, id: U32): (b: seq<U8>)
    requires |frame| <= MAX_FRAME
  {
    PacketInHead(id, |frame|) + frame
  }

  /** A packet-in message of section 7.4.1 of the OpenFlow Switch Specification 1.3, byte by
      byte: version, type, length and xid; the buffer id, the length of the frame, reason and
      table, the cookie; a match of twelve bytes with one field, in-port 1, padded to sixteen;
      two bytes of padding; the frame. */
  ghost predicate IsPacketIn(b: seq<U8>, id: U32, frame: seq<U8>) {
    && |b| == 42 + |frame|
    && b[0] == 4 && b[1] == 10 && 0x100 * b[2] as int + b[3] == |b| && b[4..8] == [0, 0, 0, 0]
    && id == 0x100_0000 * b[8] as int + 0x1_0000 * b[9] as int + 0x100 * b[10] as int + b[11]
    && 0x100 * b[12] as int + b[13] == |frame| && b[14] == 0 && b[15] == 0
    && b[16..24] == [0, 0, 0, 0, 0, 0, 0, 0]
    && 0x100 * b[24] as int + b[25] == 1 && 0x100 * b[26] as int + b[27] == 12
    && b[28..32] == [0x80, 0, 0, 4] && b[32..36] == [0, 0, 0, 1] && b[36..40] == [0, 0, 0, 0]
    && b[40..42] == [0, 0] && b[42..] == frame
  }

  lemma PacketInIs(frame: seq<U8>, id: U32)
    requires |frame| <= MAX_FRAME
    ensures IsPacketIn(PacketIn(frame, id), id, frame)
  {
    Be16Is(|frame| + 42);
    Be16Is(|frame|);
    Be32Is(id);
    HeadParts(id, |frame|);
    hide Be16, Be32, PacketInHead;
    var b, head := PacketIn(frame, id), PacketInHead(id, |frame|);
    assert b[..8] == head[..8] && b[8..16] == head[8..16] && b[16..24] == head[16..24];
    assert b[24..32] == head[24..32] && b[32..42] == head[32..42] && b[42..] == frame;
    Pieces(b);
  }

  /** The eights of which a message starts, element by element. */
  lemma Pieces(b: seq<U8>)
    requires |b| >= 42
    ensures forall i | 0 <= i < 8 :: b[i] == b[..8][i] && b[8 + i] == b[8..16][i] && b[24 + i] == b[24..32][i]
    ensures b[4..8] == b[..8][4..] && b[28..32] == b[24..32][4..]
    ensures b[32..36] == b[32..42][..4] && b[36..40] == b[32..42][4..8] && b[40..42] == b[32..42][8..]
  {
  }

  /** A mail of length len carries a frame of len - 5 bytes, as a U16; OFP_decode_frame
      lets it through up to 1500.  Behind the 42 bytes of a packet-in it fits ofpbuf exactly
      for lengths 5 to 1463, and a mail of 1500 writes 37 bytes past the end. */
  lemma PacketInFitsIff(len: U16)
    requires len <= ETH_MTU
    ensures 42 + ToU16(len as int - 5) <= ETH_MTU <==> 5 <= len <= MAX_FRAME + 5
    ensures len == ETH_MTU ==> 42 + ToU16(len as int - 5) == ETH_MTU + 37
  {
  }

  /** The host list and the counter of a port. */
  datatype Book = Book(hosts: seq<Host>, next: U32)

  datatype Event = FrameIn(mu: seq<U8>) | FlowMod(mu: seq<U8>) | Restart

  /** What an event needs: a frame with IPv4 addresses and an id left to give it; or a
      flow-mod that, if it sets a field, names a buffered host other than the first. */
  ghost predicate Allowed(b: Book, e: Event) {
    match e
    case FrameIn(mu) => |mu| >= 34 && b.next < LAST_ID
    case FlowMod(mu) => |mu| >= 84 && (IsSetField(mu) ==> 0 < FindHost(b.hosts, BufferIdOf(mu)) < |b.hosts|)
    case Restart => true
  }

  /** What an event does to them. */
  ghost function Next(b: Book, e: Event): Book
    requires Allowed(b, e)
  {
    match e
    case FrameIn(mu) => Book(b.hosts + [Learned(mu, b.next)], b.next + 1)
    case FlowMod(mu) =>
      if IsSetField(mu) then b.(hosts := Drop(b.hosts, FindHost(b.hosts, BufferIdOf(mu)))) else b
    case Restart => b.(hosts := [])
  }

  /** The host list, the counter and ofpbuf of tOFP_PORT. */
  class Port {
    const ofpbuf: array<U8>
    var ofpbufLen: U16
    var event: U16
    var head: HostNode?
    var bufferId: U32
    ghost var nodes: seq<HostNode>
    ghost var freed: set<HostNode>

    /** Nothing freed is still linked, and ids only grow. */
    ghost predicate Valid()
      reads this, nodes
    {
      && ofpbuf.Length == ETH_MTU && 1 <= bufferId
      && Linked(head, nodes) && IdsBelow(HostsOf(nodes), bufferId)
      && forall n | n in nodes :: n !in freed
    }

    ghost function Hosts(): (s: seq<Host>)
      reads this
      ensures |s| == |nodes|
    {
      HostsOf(nodes)
    }

    ghost function Shown(): Book
      reads this
    {
      Book(Hosts(), bufferId)
    }

    constructor ()
      ensures Valid() && Hosts() == [] && bufferId == 1 && fresh(ofpbuf)
    {
      ofpbuf := new U8[ETH_MTU];
      ofpbufLen, event, head, bufferId := 0, 0, null, 1;
      nodes, freed := [], {};
    }

    /** What ofpdInit does to the port: the list is forgotten, even one with a dangling
        head; the counter, a static variable, goes on. */
    method Reset()
      requires ofpbuf.Length == ETH_MTU && 1 <= bufferId
      modifies this`head, this`nodes
      ensures Valid() && Shown() == Next(old(Shown()), Restart)
    {
      head, nodes := null, [];
    }

    /** The frame goes out behind the header, and its sender is learned under the id the
        header carries. */
    method OFP_encode_packet_in(mu: array<U8>, mulen: U16)
      requires Valid() && bufferId < LAST_ID
      requires mu != ofpbuf && 34 <= mu.Length && mulen <= mu.Length && mulen <= MAX_FRAME
      modifies this, ofpbuf, nodes
      ensures Valid() && freed == old(freed) && event == old(event)
      ensures Shown() == Next(old(Shown()), FrameIn(mu[..]))
      ensures ofpbuf[..] == PacketIn(mu[..mulen], old(bufferId)) + Zeros(MAX_FRAME - mulen)
      ensures ofpbufLen == mulen + 42 && IsPacketIn(ofpbuf[..ofpbufLen], old(bufferId), mu[..mulen])
    {
      hide Linked, IdsBelow, PacketIn, Learned, Zeros, IsPacketIn;
      FillPacketIn(mu, mulen);
      ofpbufLen := mulen + 32 + 2 + 4 + 4;
      var node := new HostNode(Learned(mu[..], bufferId));
      LearnedId(mu[..], bufferId);
      LearnKeeps(nodes, node, bufferId);
      head := InsertNode(head, node, nodes);
      nodes := nodes + [node];
      bufferId := bufferId + 1;
    }

    /** The writes to ofpbuf. */
    method FillPacketIn(mu: array<U8>, mulen: U16)
      requires ofpbuf.Length == ETH_MTU && mu != ofpbuf && mulen <= mu.Length && mulen <= MAX_FRAME
      modifies ofpbuf
      ensures ofpbuf[..] == PacketIn(mu[..mulen], bufferId) + Zeros(MAX_FRAME - mulen)
      ensures IsPacketIn(ofpbuf[..42 + mulen], bufferId, mu[..mulen])
    {
      PacketInIs(mu[..mulen], bufferId);
      hide IsPacketIn;
      forall i | 0 <= i < ETH_MTU {
        ofpbuf[i] := 0;
      }
      assert ofpbuf[..] == Zeros(ETH_MTU);
      var length: U16 := mulen + 32 + 4 + 2 + 4;
      var s := [4, 10] + Be16(length) + [0, 0, 0, 0] + Be32(bufferId) + Be16(mulen) + [0, 0]
             + [0, 0, 0, 0, 0, 0, 0, 0] + [0, 1, 0, 12, 0x80, 0, 0, 4];
      assert s + [0, 0, 0, 1] + Zeros(6) == PacketInHead(bufferId, mulen);
      hide Patched, Be16, Be32, PacketInHead;
      var next := memcpy(ofpbuf, 0, s);
      next := memcpy(ofpbuf, 32, [0, 0, 0, 1]);
      PatchMore(Zeros(ETH_MTU), 0, s, [0, 0, 0, 1]);
      next := memcpy(ofpbuf, 42, mu[..mulen]);
      PatchGap(s + [0, 0, 0, 1], mu[..mulen]);
      assert ofpbuf[..42 + mulen] == PacketIn(mu[..mulen], bufferId);
    }

    /** The node a flow-mod names, if any; it stays in the list exactly when it is the
        head. */
    method TakeNode(id: U32) returns (node: HostNode?)
      requires Valid()
      modifies this`nodes, nodes
      ensures Valid() && node !in freed
      ensures var k := FindHost(old(Hosts()), id);
        if k == |old(Hosts())| then node == null && Hosts() == old(Hosts())
        else
          && node != null && node.host == old(Hosts())[k] && (node in nodes <==> k == 0)
          && Hosts() == if k > 0 then Drop(old(Hosts()), k) else old(Hosts())
    {
      ghost var all, k := nodes, FindHost(Hosts(), id);
      hide FindHost;
      node := FindNode(head, id, nodes);
      if 0 < k < |all| {
        WithoutNode(all, k, bufferId);
        hide IdsBelow;
        nodes := Drop(nodes, k);
      }
    }

    /** free(node): a node still linked is left dangling. */
    ghost method Free(node: HostNode)
      requires Valid() && node !in freed
      modifies this`freed
      ensures freed == old(freed) + {node} && (Valid() <==> node !in nodes)
    {
      freed := freed + {node};
      hide Linked, IdsBelow;
    }

    /** The frame for a node, and its free. */
    method SendBack(node: HostNode, payload: array<U8>)
      requires Valid() && node !in freed && payload.Length == 8 && payload != ofpbuf
      modifies this`ofpbufLen, this`freed, ofpbuf, payload
      ensures ofpbufLen == 50 && Hosts() == old(Hosts()) && (Valid() <==> node !in nodes)
      ensures ofpbuf[..] == Patched(old(ofpbuf[..]), 0, Reply(node.host, old(payload[..])))
    {
      assert ofpbuf.Length == ETH_MTU;
      hide *;
      ofpbufLen := BuildReply(ofpbuf, node.host, payload);
      Free(node);
    }

    /** The set-field branch of OFP_encode_back_to_host. */
    method AnswerHost(mu: array<U8>, junk: Addr) returns (found: bool)
      requires Valid() && mu != ofpbuf && mu.Length >= 84
      modifies this`ofpbufLen, this`nodes, this`freed, ofpbuf, nodes, mu
      ensures mu[..] == Swapped(old(mu[..]))
      ensures var k := old(FindHost(Hosts(), BufferIdOf(mu[..])));
        && (found <==> k < |old(Hosts())|)
        && if found then
          && ofpbufLen == 50 && (Valid() <==> k > 0)
          && ofpbuf[..] == Patched(old(ofpbuf[..]), 0, Reply(old(Hosts())[k], old(ReplyPayload(mu[..], junk))))
          && Hosts() == if k > 0 then Drop(old(Hosts()), k) else old(Hosts())
        else
          Valid() && Hosts() == old(Hosts()) && ofpbufLen == old(ofpbufLen) && ofpbuf[..] == old(ofpbuf[..])
    {
      var id := Word32(mu[32..36]);
      assert mu[32..36] == mu[..][32..36];
      assert id == BufferIdOf(mu[..]) && ofpbuf.Length == ETH_MTU;
      hide *;
      var payload := ReadActions(mu, junk);
      var node := TakeNode(id);
      if node == null {
        return false;
      }
      SendBack(node, payload);
      return true;
    }

    /** A flow-mod whose action is not a set-field is another event.  Otherwise, if the host
        is buffered, its frame is built in ofpbuf and its node freed; the list survives that
        exactly when the node was not at its head.  If it is not buffered the original reads
        through a null pointer at this point. */
    method OFP_encode_back_to_host(mu: array<U8>, junk: Addr) returns (r: Answer)
      requires Valid() && mu != ofpbuf && mu.Length >= 84
      modifies this, ofpbuf, nodes, mu
      ensures r.NotSetField? <==> 0x100 * old(mu[72]) as int + old(mu[73]) != 25
      ensures r.NoHost? <==> old(IsSetField(mu[..]) && FindHost(Hosts(), BufferIdOf(mu[..])) == |Hosts()|)
      ensures !r.Built? ==>
        Valid() && Shown() == old(Shown()) && ofpbuf[..] == old(ofpbuf[..]) && ofpbufLen == old(ofpbufLen)
      ensures r.NotSetField? ==> event == OfpFsm.E_OTHERS && mu[..] == old(mu[..])
      ensures !r.NotSetField? ==> event == old(event) && mu[..] == Swapped(old(mu[..]))
      ensures r.Built? ==>
        var k := old(FindHost(Hosts(), BufferIdOf(mu[..])));
          ofpbufLen == 50
          && ofpbuf[..] == Patched(old(ofpbuf[..]), 0, Reply(old(Hosts())[k], old(ReplyPayload(mu[..], junk))))
          && (Valid() <==> k > 0)
          && Shown() == old(Shown()).(hosts := if k > 0 then Drop(old(Hosts()), k) else old(Hosts()))
    {
      hide FindHost, ReplyPayload, BufferIdOf, Drop, Reply, Patched, Swapped;
      if !(mu[72] == 0 && mu[73] == 25) {
        event := OfpFsm.E_OTHERS;
        return NotSetField;
      }
      var found := AnswerHost(mu, junk);
      return if found then Built else NoHost;
    }
  }

  datatype Answer = NotSetField | NoHost | Built

  /** mu with the two bytes of oxm_value swapped. */
  function Swapped(mu: seq<U8>): (r: seq<U8>)
    requires |mu| >= 84
  {
    mu[78 := mu[79]][79 := mu[78]]
  }

  /** What OFP_encode_back_to_host reads from the flow-mod, swapping oxm_value in place on
      its way. */
  method ReadActions(mu: array<U8>, junk: Addr) returns (payload: array<U8>)
    requires mu.Length >= 84
    modifies mu
    ensures fresh(payload) && payload[..] == old(ReplyPayload(mu[..], junk))
    ensures mu[..] == Swapped(old(mu[..]))
    ensures mu[78] == old(mu[79]) && mu[79] == old(mu[78])
    ensures forall i | 0 <= i < mu.Length && i != 78 && i != 79 :: mu[i] == old(mu[i])
  {
    ghost var was := mu[..];
    var srcIp := mu[56..60];
    mu[78], mu[79] := mu[79], mu[78];
    var dstIp := if mu[79] / 2 == OFPXMT_OFB_IPV4_DST then mu[80..84] else junk;
    assert mu[80..84] == was[80..84];
    var bytes := srcIp + dstIp;
    assert bytes == ReplyPayload(was, junk);
    payload := new U8[8](i requires 0 <= i < 8 => bytes[i]);
  }

  lemma HostsWithout(nodes: seq<HostNode>, k: nat)
    requires k < |nodes|
    ensures HostsOf(Drop(nodes, k)) == Drop(HostsOf(nodes), k)
  {
  }

  lemma WithoutNode(nodes: seq<HostNode>, k: nat, next: nat)
    requires k < |nodes| && IdsBelow(HostsOf(nodes), next)
    requires forall i, j | 0 <= i < j < |nodes| :: nodes[i] != nodes[j]
    ensures IdsBelow(HostsOf(Drop(nodes, k)), next)
    ensures HostsOf(Drop(nodes, k)) == Drop(HostsOf(nodes), k)
    ensures nodes[k] !in Drop(nodes, k)
  {
    HostsWithout(nodes, k);
    assert nodes[k] !in Drop(nodes, k);
    hide IdsBelow, FindHost, Drop;
    ForgottenOnce(HostsOf(nodes), next, k);
    hide HostsOf;
  }

  /** Six zero bytes stay between the port number and the frame. */
  lemma PatchGap(s: seq<U8>, frame: seq<U8>)
    requires |s| == 36 && |frame| <= MAX_FRAME
    ensures Patched(Patched(Zeros(ETH_MTU), 0, s), 42, frame) == s + Zeros(6) + frame + Zeros(MAX_FRAME - |frame|)
  {
  }

  lemma LearnKeeps(nodes: seq<HostNode>, node: HostNode, id: U32)
    requires IdsBelow(HostsOf(nodes), id) && node.host.bufferId == id
    ensures HostsOf(nodes + [node]) == HostsOf(nodes) + [node.host]
    ensures IdsBelow(HostsOf(nodes + [node]), id + 1)
  {
  }

  // ---------- sessions ----------

  ghost predicate Legal(run: seq<Event>)
    decreases |run|, 0
  {
    run == [] || (Legal(run[..|run| - 1]) && Allowed(After(run[..|run| - 1]), run[|run| - 1]))
  }

  ghost function After(run: seq<Event>): Book
    requires Legal(run)
    decreases |run|, 1
  {
    if run == [] then Book([], 1) else Next(After(run[..|run| - 1]), run[|run| - 1])
  }

  /** The frames of a run, in order of arrival. */
  function FramesIn(run: seq<Event>): seq<seq<U8>> {
    if run == [] then []
    else
      var e := run[|run| - 1];
      FramesIn(run[..|run| - 1]) + if e.FrameIn? then [e.mu] else []
  }

  function IdsUpTo(n: nat): (ids: set<int>)
    ensures forall id :: id in ids <==> 1 <= id <= n
  {
    if n == 0 then {} else IdsUpTo(n - 1) + {n}
  }

  /** The ids answered in a run, or forgotten in a restart. */
  function Answered(run: seq<Event>): set<int> {
    if run == [] then {}
    else
      var before := run[..|run| - 1];
      match run[|run| - 1]
      case FlowMod(mu) => Answered(before) + if |mu| >= 84 && IsSetField(mu) then {BufferIdOf(mu)} else {}
      case Restart => Answered(before) + IdsUpTo(|FramesIn(before)|)
      case FrameIn(_) => Answered(before)
  }

  ghost predicate Buffered(hosts: seq<Host>, id: U32) {
    exists h :: h in hosts && h.bufferId == id
  }

  /** Every buffered host is the frame of its id, and its id is still open. */
  ghost predicate Truthful(hosts: seq<Host>, frames: seq<seq<U8>>, answered: set<int>) {
    forall h | h in hosts :: IsFrame(h, frames) && h.bufferId !in answered
  }

  /** Every id given out and still open is buffered. */
  ghost predicate Complete(hosts: seq<Host>, next: U32, answered: set<int>) {
    forall id: U32 | 1 <= id < next && id !in answered :: Buffered(hosts, id)
  }

  /** The book against the history. */
  ghost predicate Keeps(b: Book, frames: seq<seq<U8>>, answered: set<int>) {
    && b.next == |frames| + 1 && IdsBelow(b.hosts, b.next)
    && Truthful(b.hosts, frames, answered) && Complete(b.hosts, b.next, answered)
    && (forall id | id in answered :: id < b.next)
  }

  ghost predicate IsFrame(h: Host, frames: seq<seq<U8>>) {
    1 <= h.bufferId <= |frames| && |frames[h.bufferId - 1]| >= 34 && h == Learned(frames[h.bufferId - 1], h.bufferId)
  }

  lemma FrameInTruthful(hosts: seq<Host>, frames: seq<seq<U8>>, answered: set<int>, h: Host, mu: seq<U8>)
    requires Truthful(hosts, frames, answered) && IsFrame(h, frames + [mu]) && h.bufferId !in answered
    ensures Truthful(hosts + [h], frames + [mu], answered)
  {
    hide Learned;
    forall g | g in hosts
      ensures IsFrame(g, frames + [mu])
    {
      assert IsFrame(g, frames);
    }
  }

  lemma FrameInComplete(hosts: seq<Host>, next: U32, answered: set<int>, h: Host)
    requires Complete(hosts, next, answered) && h.bufferId == next < LAST_ID
    ensures Complete(hosts + [h], next + 1, answered)
  {
    assert h in hosts + [h];
    forall id: U32 | 1 <= id < next && id !in answered
      ensures Buffered(hosts + [h], id)
    {
      assert Buffered(hosts, id);
      var g :| g in hosts && g.bufferId == id;
      assert g in hosts + [h];
    }
  }

  lemma FrameInKeeps(b: Book, frames: seq<seq<U8>>, answered: set<int>, mu: seq<U8>)
    requires Keeps(b, frames, answered) && Allowed(b, FrameIn(mu))
    ensures Keeps(Next(b, FrameIn(mu)), frames + [mu], answered)
  {
    var h := Learned(mu, b.next);
    LearnedId(mu, b.next);
    assert IsFrame(h, frames + [mu]);
    assert IdsBelow(b.hosts + [h], b.next + 1) && h.bufferId !in answered;
    hide Learned, Truthful, Complete, IdsBelow, IsFrame;
    FrameInTruthful(b.hosts, frames, answered, h, mu);
    FrameInComplete(b.hosts, b.next, answered, h);
  }

  lemma LearnedId(mu: seq<U8>, id: U32)
    requires |mu| >= 34
    ensures Learned(mu, id).bufferId == id
  {
  }

  lemma FlowModComplete(hosts: seq<Host>, rest: seq<Host>, next: U32, answered: set<int>, id: U32)
    requires Complete(hosts, next, answered)
    requires forall h | h in hosts && h.bufferId != id :: h in rest
    ensures Complete(rest, next, answered + {id})
  {
    forall i: U32 | 1 <= i < next && i !in answered + {id}
      ensures Buffered(rest, i)
    {
      assert Buffered(hosts, i);
    }
  }

  lemma ForgetsId(hosts: seq<Host>, next: nat, k: nat)
    requires IdsBelow(hosts, next) && k < |hosts|
    ensures var rest := Drop(hosts, k);
      && (forall h | h in rest :: h in hosts && h.bufferId != hosts[k].bufferId)
      && (forall h | h in hosts && h.bufferId != hosts[k].bufferId :: h in rest)
  {
    ForgottenOnce(hosts, next, k);
    var rest := Drop(hosts, k);
    assert forall i | 0 <= i < |rest| :: rest[i] == hosts[if i < k then i else i + 1];
    hide FindHost;
  }

  lemma FlowModKeeps(b: Book, frames: seq<seq<U8>>, answered: set<int>, mu: seq<U8>)
    requires Keeps(b, frames, answered) && Allowed(b, FlowMod(mu)) && IsSetField(mu)
    ensures Keeps(Next(b, FlowMod(mu)), frames, answered + {BufferIdOf(mu)})
  {
    hide BufferIdOf, IsSetField, IsFrame, Complete, IdsBelow, Drop;
    var id := BufferIdOf(mu);
    var k := FindHost(b.hosts, id);
    ForgottenOnce(b.hosts, b.next, k);
    ForgetsId(b.hosts, b.next, k);
    assert id < b.next by {
      IdBelow(b.hosts, b.next, k);
    }
    FlowModComplete(b.hosts, Drop(b.hosts, k), b.next, answered, id);
    hide FindHost;
  }

  lemma IdBelow(hosts: seq<Host>, next: nat, k: nat)
    requires IdsBelow(hosts, next) && k < |hosts|
    ensures hosts[k].bufferId < next
  {
  }

  lemma RestartKeeps(b: Book, frames: seq<seq<U8>>, answered: set<int>)
    requires Keeps(b, frames, answered)
    ensures Keeps(Next(b, Restart), frames, answered + IdsUpTo(|frames|))
  {
  }

  lemma {:induction false} RunKeeps(run: seq<Event>)
    requires Legal(run)
    ensures Keeps(After(run), FramesIn(run), Answered(run))
  {
    if run != [] {
      var before, e := run[..|run| - 1], run[|run| - 1];
      RunKeeps(before);
      hide Keeps;
      match e
      case FrameIn(mu) =>
        FrameInKeeps(After(before), FramesIn(before), Answered(before), mu);
        assert Answered(run) == Answered(before);
      case FlowMod(mu) =>
        assert FramesIn(run) == FramesIn(before);
        if IsSetField(mu) {
          FlowModKeeps(After(before), FramesIn(before), Answered(before), mu);
        } else {
          assert Answered(run) == Answered(before);
        }
      case Restart =>
        assert FramesIn(run) == FramesIn(before);
        RestartKeeps(After(before), FramesIn(before), Answered(before));
    }
  }

  /** The id a packet-in carries on the wire is the id its flow-mod brings back. */
  lemma {:induction false} IdSurvives(b: seq<U8>, id: U32, frame: seq<U8>, mu: seq<U8>)
    requires IsPacketIn(b, id, frame) && |mu| >= 84 && mu[32..36] == b[8..12]
    ensures BufferIdOf(mu) == id
  {
    assert forall i | 0 <= i < 4 :: mu[32..36][i] == b[8 + i];
  }

  lemma BufferedIsFound(hosts: seq<Host>, id: U32)
    requires Buffered(hosts, id)
    ensures FindHost(hosts, id) < |hosts|
  {
  }

  lemma KeptFrame(b: Book, frames: seq<seq<U8>>, answered: set<int>, id: U32)
    requires Keeps(b, frames, answered) && 1 <= id <= |frames| && id !in answered
    ensures |frames[id - 1]| >= 34
    ensures var k := FindHost(b.hosts, id); k < |b.hosts| && b.hosts[k] == Learned(frames[id - 1], id)
  {
    hide Learned, IdsBelow, Buffered;
    BufferedIsFound(b.hosts, id);
    var h := b.hosts[FindHost(b.hosts, id)];
    hide FindHost;
    assert h in b.hosts && h.bufferId == id;
    assert IsFrame(h, frames);
  }

  /** An open id finds the frame it was given to. */
  lemma FindsFrame(run: seq<Event>, id: U32)
    requires Legal(run) && 1 <= id <= |FramesIn(run)| && id !in Answered(run)
    ensures var hosts, frame := After(run).hosts, FramesIn(run)[id - 1];
      && |frame| >= 34
      && FindHost(hosts, id) < |hosts| && hosts[FindHost(hosts, id)] == Learned(frame, id)
  {
    RunKeeps(run);
    hide Legal, After, FramesIn, Answered, Keeps;
    KeptFrame(After(run), FramesIn(run), Answered(run), id);
  }

  /** The reply to a learned frame, in terms of that frame. */
  ghost predicate Swaps(f: seq<U8>, frame: seq<U8>, mu: seq<U8>, junk: Addr)
    requires |frame| >= 34 && |mu| >= 84
  {
    && Answers(f, Learned(frame, BufferIdOf(mu)), ReplyPayload(mu, junk))
    && f[..6] == frame[6..12] && f[6..12] == frame[..6]
    && f[30..34] == frame[26..30] && f[26..30] == frame[30..34]
    && f[42..] == mu[56..60] + if mu[78] / 2 == 12 then mu[80..84] else junk
  }

  lemma {:induction false} ReplySwaps(frame: seq<U8>, mu: seq<U8>, junk: Addr)
    requires |frame| >= 34 && |mu| >= 84
    ensures Swaps(Reply(Learned(frame, BufferIdOf(mu)), ReplyPayload(mu, junk)), frame, mu, junk)
  {
    var h := Learned(frame, BufferIdOf(mu));
    ReplyAnswers(h, ReplyPayload(mu, junk));
    hide Reply, Parse, Accepts, AcceptsUdp, SumsToOnes, BufferIdOf, ParseUdp;
  }

  /** After any session, a set-field flow-mod that carries the buffer id of any packet-in
      not yet answered nor forgotten gets a frame back to that packet's sender: MAC and IP addresses swapped,
      and accepted by the codec's own decoders. */
  lemma {:induction false} LearnedReply(run: seq<Event>, id: U32, b: seq<U8>, sent: seq<U8>, mu: seq<U8>, junk: Addr)
    requires Legal(run) && 1 <= id <= |FramesIn(run)| && id !in Answered(run)
    requires IsPacketIn(b, id, sent) && |mu| >= 84 && IsSetField(mu) && mu[32..36] == b[8..12]
    ensures var hosts, frame := After(run).hosts, FramesIn(run)[id - 1];
      var k := FindHost(hosts, BufferIdOf(mu));
      |frame| >= 34 && k < |hosts| && Swaps(Reply(hosts[k], ReplyPayload(mu, junk)), frame, mu, junk)
  {
    FindsFrame(run, id);
    IdSurvives(b, id, sent, mu);
    hide IsPacketIn, Legal, After, FramesIn, Answered, BufferIdOf, Reply, Swaps, Learned, FindHost, ReplyPayload;
    ReplySwaps(FramesIn(run)[id - 1], mu, junk);
  }

  // ---------- the oldest host ----------

  /** The id was given to a frame and has been neither answered nor forgotten. */
  ghost predicate Open(run: seq<Event>, id: U32) {
    1 <= id <= |FramesIn(run)| && id !in Answered(run)
  }

  lemma HeadIsLeast(b: Book, frames: seq<seq<U8>>, answered: set<int>, id: U32, j: U32)
    requires Keeps(b, frames, answered)
    requires 1 <= id <= |frames| && id !in answered && 1 <= j <= |frames| && j !in answered
    ensures FindHost(b.hosts, id) == 0 ==> id <= j
  {
    KeptFrame(b, frames, answered, id);
    KeptFrame(b, frames, answered, j);
    LearnedId(frames[id - 1], id);
    LearnedId(frames[j - 1], j);
    hide Learned, Truthful, Complete;
  }

  lemma FoundBefore(b: Book, frames: seq<seq<U8>>, answered: set<int>, id: U32)
    requires Keeps(b, frames, answered) && 1 <= id <= |frames| && id !in answered
    requires FindHost(b.hosts, id) > 0
    ensures var j := b.hosts[0].bufferId; 1 <= j < id && j <= |frames| && j !in answered
  {
    KeptFrame(b, frames, answered, id);
    LearnedId(frames[id - 1], id);
    assert b.hosts[0] in b.hosts && IsFrame(b.hosts[0], frames);
    hide Learned, Complete;
  }

  /** A reply leaves the list sound (its host was not at the head) exactly when an older id
      is still open. */
  lemma HeadIffOldest(run: seq<Event>, id: U32)
    requires Legal(run) && Open(run, id)
    ensures FindHost(After(run).hosts, id) == 0 <==> forall j | Open(run, j) :: id <= j
  {
    var b, frames, answered := After(run), FramesIn(run), Answered(run);
    RunKeeps(run);
    hide Legal, After, FramesIn, Answered, Keeps, FindHost;
    forall j | Open(run, j)
      ensures FindHost(b.hosts, id) == 0 ==> id <= j
    {
      HeadIsLeast(b, frames, answered, id, j);
    }
    if FindHost(b.hosts, id) > 0 {
      FoundBefore(b, frames, answered, id);
      assert Open(run, b.hosts[0].bufferId);
    }
  }

  /** So the first session that breaks the list is one packet-in and its flow-mod. */
  lemma OneHostBreaks(frame: seq<U8>, mu: seq<U8>)
    requires |frame| >= 34 && |mu| >= 84 && IsSetField(mu) && BufferIdOf(mu) == 1
    ensures Legal([FrameIn(frame)]) && !Allowed(After([FrameIn(frame)]), FlowMod(mu))
    ensures FindHost(After([FrameIn(frame)]).hosts, BufferIdOf(mu)) == 0 < |After([FrameIn(frame)]).hosts|
  {
    var run := [FrameIn(frame)];
    assert run[..0] == [] && Legal([]);
    assert After([]) == Book([], 1) && Legal(run);
    LearnedId(frame, 1);
    hide Learned, IsSetField, BufferIdOf;
    assert After(run) == Next(After([]), FrameIn(frame));
    assert After(run).hosts == [Learned(frame, 1)];
  }
}
