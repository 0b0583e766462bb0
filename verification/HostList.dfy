/** src/ofp_codec.c: the linked list of hosts learned from the packets sent to the controller. */
module HostList {
  import opened Words
  import opened Seqs
  import opened IpCodec

  type Mac = m: seq<U8> | |m| == 6 witness [0, 0, 0, 0, 0, 0]

  datatype Host = Host(srcMac: Mac, dstMac: Mac, srcIp: Addr, dstIp: Addr, bufferId: U32)

  /** host_learn_t: once filled in, only its link changes. */
  class HostNode {
    const host: Host
    var next: HostNode?

    constructor (host: Host)
      ensures this.host == host && next == null
    {
      this.host, next := host, null;
    }
  }

  // ---------- the list as a sequence ----------

  function HostsOf(nodes: seq<HostNode>): (hosts: seq<Host>)
    ensures |hosts| == |nodes|
  {
    seq(|nodes|, i requires 0 <= i < |nodes| => nodes[i].host)
  }

  /** The first host buffered under an id; |hosts| when there is none. */
  function FindHost(hosts: seq<Host>, id: U32): (k: nat)
    ensures k <= |hosts|
    ensures k < |hosts| ==> hosts[k].bufferId == id
    ensures forall i | 0 <= i < k :: hosts[i].bufferId != id
  {
    if hosts == [] || hosts[0].bufferId == id then 0
    else
      var k := FindHost(hosts[1..], id);
      assert forall i | 1 <= i < 1 + k :: hosts[i] == hosts[1..][i - 1];
      1 + k
  }

  ghost predicate NextIs(nodes: seq<HostNode>, i: nat)
    requires i < |nodes|
    reads nodes[i]
  {
    nodes[i].next == if i + 1 < |nodes| then nodes[i + 1] else null
  }

  ghost predicate Linked(head: HostNode?, nodes: seq<HostNode>)
    reads nodes
  {
    && head == (if nodes == [] then null else nodes[0])
    && (forall i, j | 0 <= i < j < |nodes| :: nodes[i] != nodes[j])
    && (forall i | 0 <= i < |nodes| :: NextIs(nodes, i))
  }

  lemma FindHostIs(hosts: seq<Host>, id: U32, k: nat)
    requires k <= |hosts| && (k < |hosts| ==> hosts[k].bufferId == id)
    requires forall i | 0 <= i < k :: hosts[i].bufferId != id
    ensures FindHost(hosts, id) == k
  {
  }

  /** Append behind the last node. */
  method InsertNode(head: HostNode?, node: HostNode, ghost nodes: seq<HostNode>) returns (head': HostNode)
    requires Linked(head, nodes) && node !in nodes && node.next == null
    modifies nodes
    ensures Linked(head', nodes + [node])
  {
    ghost var all := nodes + [node];
    if head == null {
      head' := node;
    } else {
      var cur := head;
      ghost var i := 0;
      while cur.next != null
        invariant 0 <= i < |nodes| && cur == nodes[i]
        decreases |nodes| - i
      {
        assert NextIs(nodes, i);
        cur := cur.next;
        i := i + 1;
      }
      assert NextIs(nodes, i) && i == |nodes| - 1;
      cur.next := node;
      head' := head;
      forall k | 0 <= k < |all|
        ensures NextIs(all, k)
      {
        assert k < |nodes| ==> old(NextIs(nodes, k));
      }
    }
  }

  /** The first node with the id, taken out of the list only when another precedes it. */
  method FindNode(head: HostNode?, id: U32, ghost nodes: seq<HostNode>) returns (r: HostNode?)
    requires Linked(head, nodes)
    modifies nodes
    ensures var k := FindHost(HostsOf(nodes), id);
      && r == (if k == |nodes| then null else nodes[k])
      && if 0 < k < |nodes| then Linked(head, Drop(nodes, k)) else Linked(head, nodes)
  {
    var prev: HostNode? := null;
    var cur := head;
    ghost var i := 0;
    while true
      invariant 0 <= i <= |nodes| && cur == (if i == |nodes| then null else nodes[i])
      invariant prev == if i == 0 then null else nodes[i - 1]
      invariant forall k | 0 <= k < i :: HostsOf(nodes)[k].bufferId != id
      decreases |nodes| - i
    {
      if cur == null {
        FindHostIs(HostsOf(nodes), id, i);
        return null;
      }
      assert NextIs(nodes, i);
      if cur.host.bufferId == id {
        FindHostIs(HostsOf(nodes), id, i);
        if prev != null {
          prev.next := cur.next;
          ghost var rest := Drop(nodes, i);
          forall k | 0 <= k < |rest|
            ensures NextIs(rest, k)
          {
            assert old(NextIs(nodes, if k < i then k else k + 1));
          }
        }
        return cur;
      }
      prev, cur := cur, cur.next;
      i := i + 1;
    }
  }

  // ---------- hosts and their ids ----------

  /** Ids were given out in order, all below next. */
  ghost predicate IdsBelow(hosts: seq<Host>, next: nat) {
    && (forall i | 0 <= i < |hosts| :: hosts[i].bufferId < next)
    && (forall i, j | 0 <= i < j < |hosts| :: hosts[i].bufferId < hosts[j].bufferId)
  }

  /** A buffered id names one host. */
  lemma IdNamesOne(hosts: seq<Host>, next: nat, k: nat)
    requires IdsBelow(hosts, next) && k < |hosts|
    ensures FindHost(hosts, hosts[k].bufferId) == k
  {
    FindHostIs(hosts, hosts[k].bufferId, k);
  }

  /** Answering an id that is not at the head forgets that host and no other. */
  lemma ForgottenOnce(hosts: seq<Host>, next: nat, k: nat)
    requires IdsBelow(hosts, next) && k < |hosts|
    ensures IdsBelow(Drop(hosts, k), next)
    ensures FindHost(Drop(hosts, k), hosts[k].bufferId) == |hosts| - 1
    ensures forall h | h in hosts && h != hosts[k] :: h in Drop(hosts, k)
  {
    var rest := Drop(hosts, k);
    assert forall i | 0 <= i < |rest| :: rest[i] == hosts[if i < k then i else i + 1];
    FindHostIs(rest, hosts[k].bufferId, |rest|);
    forall h | h in hosts && h != hosts[k]
      ensures h in rest
    {
      var i :| 0 <= i < |hosts| && hosts[i] == h;
      assert rest[if i < k then i else i - 1] == h;
    }
  }
}
