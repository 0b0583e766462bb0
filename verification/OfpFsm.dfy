/** src/ofp_fsm.c: the state table, its interpreter, and the runs it allows. */
module OfpFsm {
  import opened Words
  import opened TimerAgenda
  import opened TimerCells
  import opened OsTimer

  datatype OfpState = S_CLOSED | S_HELLO_WAIT | S_FEATURE_WAIT | S_ESTABLISHED | S_INVALID

  // The numbering of OFP_EVENT_TYPE (src/ofp_fsm.h:31-44).
  const E_START: U16 := 0
  const E_RECV_HELLO: U16 := 1
  const E_FEATURE_REQUEST: U16 := 2
  const E_MULTIPART_REQUEST: U16 := 3
  const E_OTHERS: U16 := 4
  const E_ECHO_REPLY: U16 := 5
  const E_OFP_TIMEOUT: U16 := 6
  const E_PACKET_OUT: U16 := 9
  const E_PACKET_IN: U16 := 10
  const E_FLOW_MOD: U16 := 11

  datatype Handler =
    | A_send_hello | A_send_feature_reply | A_send_echo_request | A_send_multipart_reply
    | A_send_packet_in | A_send_to_host
    | A_start_timer | A_stop_query_tmr | A_clear_query_cnt | A_query_tmr_expire

  datatype Row = Row(state: OfpState, event: U16, next: OfpState, hdl: seq<Handler>)

  /** ofp_fsm_tbl, with its sentinel. */
  const TABLE: seq<Row> := [
    Row(S_CLOSED, E_START, S_HELLO_WAIT, [A_send_hello]),
    Row(S_HELLO_WAIT, E_RECV_HELLO, S_FEATURE_WAIT, []),
    Row(S_FEATURE_WAIT, E_FEATURE_REQUEST, S_ESTABLISHED, [A_send_feature_reply, A_send_echo_request, A_start_timer]),
    Row(S_ESTABLISHED, E_MULTIPART_REQUEST, S_ESTABLISHED, [A_send_multipart_reply]),
    Row(S_ESTABLISHED, E_OTHERS, S_ESTABLISHED, []),
    Row(S_ESTABLISHED, E_ECHO_REPLY, S_ESTABLISHED, [A_stop_query_tmr, A_clear_query_cnt, A_start_timer]),
    Row(S_ESTABLISHED, E_OFP_TIMEOUT, S_ESTABLISHED, [A_query_tmr_expire, A_send_echo_request, A_start_timer]),
    Row(S_ESTABLISHED, E_PACKET_IN, S_ESTABLISHED, [A_send_packet_in]),
    Row(S_ESTABLISHED, E_FLOW_MOD, S_ESTABLISHED, [A_send_to_host]),
    Row(S_INVALID, 0, S_CLOSED, [])
  ]

  // ---------- table lookup ----------

  /** The first row for a state and event; |tbl| when there is none. */
  function Lookup(tbl: seq<Row>, state: OfpState, event: U16): (i: nat)
    ensures i <= |tbl|
    ensures i < |tbl| ==> tbl[i].state == state && tbl[i].event == event
    ensures forall k | 0 <= k < i :: !(tbl[k].state == state && tbl[k].event == event)
  {
    if tbl == [] || (tbl[0].state == state && tbl[0].event == event) then 0
    else
      var i := Lookup(tbl[1..], state, event);
      assert forall k | 1 <= k < 1 + i :: tbl[k] == tbl[1..][k - 1];
      1 + i
  }

  /** The table ends with a sentinel row, its only one. */
  ghost predicate Terminated(tbl: seq<Row>) {
    && tbl != [] && tbl[|tbl| - 1].state == S_INVALID
    && forall k | 0 <= k < |tbl| - 1 :: tbl[k].state != S_INVALID
  }

  /** The rows of each state stand together. */
  ghost predicate Grouped(tbl: seq<Row>) {
    forall i, j, k | 0 <= i < j < k < |tbl| && tbl[i].state == tbl[k].state :: tbl[j].state == tbl[i].state
  }

  datatype Scan = UnknownState | NoEvent | Found(row: nat)

  /** Behind the rows of a state there are no more of them. */
  lemma NoLaterRow(tbl: seq<Row>, state: OfpState, event: U16, first: nat, i: nat)
    requires Grouped(tbl) && first < i < |tbl| && tbl[first].state == state && tbl[i].state != state
    requires forall k | 0 <= k < first :: tbl[k].state != state
    requires forall k | first <= k < i :: tbl[k].event != event
    ensures Lookup(tbl, state, event) == |tbl|
  {
    var l := Lookup(tbl, state, event);
    hide Lookup;
    assert l < |tbl| ==> l > i && tbl[l].state == tbl[first].state;
  }

  /** The two-phase scan of OFP_FSM.  It stays inside any terminated table, and when the
      rows of each state stand together it is lookup of the first matching row. */
  method ScanTable(tbl: seq<Row>, state: OfpState, event: U16) returns (r: Scan)
    requires Terminated(tbl)
    ensures r.UnknownState? <==> state == S_INVALID || forall k | 0 <= k < |tbl| :: tbl[k].state != state
    ensures r.Found? ==> r.row < |tbl| - 1 && tbl[r.row].state == state && tbl[r.row].event == event
    ensures Grouped(tbl) && state != S_INVALID ==>
      if Lookup(tbl, state, event) < |tbl| then r == Found(Lookup(tbl, state, event)) else !r.Found?
  {
    ghost var row := Lookup(tbl, state, event);
    hide Lookup, Grouped;
    var i := 0;
    while tbl[i].state != S_INVALID && tbl[i].state != state
      invariant 0 <= i < |tbl|
      invariant forall k | 0 <= k < i :: tbl[k].state != state && tbl[k].state != S_INVALID
      decreases |tbl| - i
    {
      i := i + 1;
    }
    if tbl[i].state == S_INVALID {
      return UnknownState;
    }
    ghost var first := i;
    while tbl[i].state == state && tbl[i].event != event
      invariant first <= i < |tbl|
      invariant forall k | first <= k < i :: tbl[k].state == state && tbl[k].event != event
      decreases |tbl| - i
    {
      i := i + 1;
    }
    if tbl[i].state != state {
      if Grouped(tbl) {
        NoLaterRow(tbl, state, event, first, i);
      }
      return NoEvent;
    }
    assert row == i;
    return Found(i);
  }

  lemma TableShape()
    ensures Terminated(TABLE) && Grouped(TABLE)
  {
  }

  // ---------- what one event does ----------

  datatype Frame = Hello | FeatureReply | EchoRequest | MultipartReply | PacketIn | ToHost

  /** What the controller and the operator can see of a port. */
  datatype View = View(state: OfpState, queryCnt: U8, out: seq<Frame>)

  /** A handled event, and whether getifaddrs succeeds should it be needed. */
  datatype Input = Input(event: U16, ifaddrs: bool)

  function Act(v: View, h: Handler, ifaddrs: bool): View {
    match h
    case A_send_hello => v.(out := v.out + [Hello])
    case A_send_feature_reply => v.(out := v.out + [FeatureReply])
    case A_send_echo_request => v.(out := v.out + [EchoRequest])
    case A_send_multipart_reply => if ifaddrs then v.(out := v.out + [MultipartReply]) else v
    case A_send_packet_in => v.(out := v.out + [PacketIn])
    case A_send_to_host => v.(out := v.out + [ToHost])
    case A_clear_query_cnt => v.(queryCnt := 1)
    case A_query_tmr_expire => v.(queryCnt := ToU8(v.queryCnt + 1))
    case A_start_timer => v
    case A_stop_query_tmr => v
  }

  function ActAll(v: View, hdl: seq<Handler>, ifaddrs: bool): View
    decreases |hdl|
  {
    if hdl == [] then v else ActAll(Act(v, hdl[0], ifaddrs), hdl[1..], ifaddrs)
  }

  /** The row that governs an event in a state, or no row. */
  function RowFor(state: OfpState, event: U16): (i: nat) {
    if state == S_INVALID then |TABLE| else Lookup(TABLE, state, event)
  }

  function React(v: View, x: Input): View {
    var i := RowFor(v.state, x.event);
    if i < |TABLE| then ActAll(v.(state := TABLE[i].next), TABLE[i].hdl, x.ifaddrs) else v
  }

  lemma RowIs(state: OfpState, event: U16)
    ensures RowFor(state, event) ==
      match state
      case S_CLOSED => if event == E_START then 0 else 10
      case S_HELLO_WAIT => if event == E_RECV_HELLO then 1 else 10
      case S_FEATURE_WAIT => if event == E_FEATURE_REQUEST then 2 else 10
      case S_ESTABLISHED =>
        if event == E_MULTIPART_REQUEST then 3 else if event == E_OTHERS then 4
        else if event == E_ECHO_REPLY then 5 else if event == E_OFP_TIMEOUT then 6
        else if event == E_PACKET_IN then 7 else if event == E_FLOW_MOD then 8 else 10
      case S_INVALID => 10
  {
    var i := Lookup(TABLE, state, event);
    assert |TABLE| == 10;
    assert TABLE[0].state == S_CLOSED && TABLE[1].state == S_HELLO_WAIT && TABLE[2].state == S_FEATURE_WAIT;
    assert TABLE[3].event == E_MULTIPART_REQUEST && TABLE[4].event == E_OTHERS && TABLE[5].event == E_ECHO_REPLY;
    assert TABLE[6].event == E_OFP_TIMEOUT && TABLE[7].event == E_PACKET_IN && TABLE[8].event == E_FLOW_MOD;
    hide Lookup;
  }

  lemma ActFirst(v: View, h: Handler, rest: seq<Handler>, ifaddrs: bool)
    ensures ActAll(v, [], ifaddrs) == v
    ensures ActAll(v, [h] + rest, ifaddrs) == ActAll(Act(v, h, ifaddrs), rest, ifaddrs)
  {
    assert ([h] + rest)[1..] == rest;
  }

  lemma ActThree(v: View, h1: Handler, h2: Handler, h3: Handler, ifaddrs: bool)
    ensures ActAll(v, [], ifaddrs) == v
    ensures ActAll(v, [h1], ifaddrs) == Act(v, h1, ifaddrs)
    ensures ActAll(v, [h1, h2, h3], ifaddrs) == Act(Act(Act(v, h1, ifaddrs), h2, ifaddrs), h3, ifaddrs)
  {
    hide Act, ActAll;
    var v1 := Act(v, h1, ifaddrs);
    var v2 := Act(v1, h2, ifaddrs);
    ActFirst(v, h1, [], ifaddrs);
    ActFirst(v, h1, [h2, h3], ifaddrs);
    ActFirst(v1, h2, [h3], ifaddrs);
    ActFirst(v2, h3, [], ifaddrs);
    ActFirst(v1, h1, [], ifaddrs);
    ActFirst(Act(v2, h3, ifaddrs), h1, [], ifaddrs);
    assert [h1] + [] == [h1] && [h1] + [h2, h3] == [h1, h2, h3] && [h2] + [h3] == [h2, h3] && [h3] + [] == [h3];
  }

  /** The table, event by event: every other event is ignored in its state. */
  lemma Reactions(v: View, x: Input)
    ensures React(v, x) ==
      match v.state
      case S_CLOSED => if x.event == E_START then v.(state := S_HELLO_WAIT, out := v.out + [Hello]) else v
      case S_HELLO_WAIT => if x.event == E_RECV_HELLO then v.(state := S_FEATURE_WAIT) else v
      case S_FEATURE_WAIT =>
        if x.event == E_FEATURE_REQUEST then
          v.(state := S_ESTABLISHED, out := v.out + [FeatureReply] + [EchoRequest])
        else v
      case S_ESTABLISHED =>
        if x.event == E_MULTIPART_REQUEST && x.ifaddrs then v.(out := v.out + [MultipartReply])
        else if x.event == E_ECHO_REPLY then v.(queryCnt := 1)
        else if x.event == E_OFP_TIMEOUT then v.(queryCnt := ToU8(v.queryCnt + 1), out := v.out + [EchoRequest])
        else if x.event == E_PACKET_IN then v.(out := v.out + [PacketIn])
        else if x.event == E_FLOW_MOD then v.(out := v.out + [ToHost])
        else v
      case S_INVALID => v
  {
    RowIs(v.state, x.event);
    hide RowFor, ActAll;
    var i := RowFor(v.state, x.event);
    if i < 10 {
      var hdl, v' := TABLE[i].hdl, v.(state := TABLE[i].next);
      if |hdl| == 0 {
        ActThree(v', A_send_hello, A_send_hello, A_send_hello, x.ifaddrs);
        assert hdl == [];
      } else if |hdl| == 1 {
        ActThree(v', hdl[0], hdl[0], hdl[0], x.ifaddrs);
        assert hdl == [hdl[0]];
      } else {
        ActThree(v', hdl[0], hdl[1], hdl[2], x.ifaddrs);
        assert hdl == [hdl[0], hdl[1], hdl[2]];
      }
    }
  }

  // ---------- runs between restarts ----------

  const CLOSED := View(S_CLOSED, 1, [])

  /** The view after a sequence of events, from the reset of ofpdInit. */
  function After(xs: seq<Input>): View {
    if xs == [] then CLOSED else React(After(xs[..|xs| - 1]), xs[|xs| - 1])
  }

  function Rank(s: OfpState): nat {
    match s
    case S_CLOSED => 0
    case S_HELLO_WAIT => 1
    case S_FEATURE_WAIT => 2
    case S_ESTABLISHED => 3
    case S_INVALID => 4
  }

  /** The state never moves backwards, whatever events arrive. */
  lemma {:induction false} StateForward(xs: seq<Input>, ys: seq<Input>)
    ensures Rank(After(xs).state) <= Rank(After(xs + ys).state)
  {
    if ys == [] {
      assert xs + ys == xs;
    } else {
      var n := |ys| - 1;
      assert (xs + ys)[..|xs + ys| - 1] == xs + ys[..n];
      StateForward(xs, ys[..n]);
      Reactions(After(xs + ys[..n]), ys[n]);
      hide React;
    }
  }

  /** What may have been sent in each state: nothing before hello, nothing else before the
      feature reply, and neither of the two again. */
  ghost predicate TraceFits(v: View) {
    match v.state
    case S_CLOSED => v.out == []
    case S_HELLO_WAIT => v.out == [Hello]
    case S_FEATURE_WAIT => v.out == [Hello]
    case S_ESTABLISHED =>
      && |v.out| >= 3 && v.out[..3] == [Hello, FeatureReply, EchoRequest]
      && forall k | 3 <= k < |v.out| :: v.out[k] != Hello && v.out[k] != FeatureReply
    case S_INVALID => false
  }

  lemma TraceGrows(v: View, v': View, f: Frame)
    requires TraceFits(v) && v.state.S_ESTABLISHED? && f != Hello && f != FeatureReply
    requires v'.state == v.state && v'.out == v.out + [f]
    ensures TraceFits(v')
  {
    assert v'.out[..3] == v.out[..3];
  }

  lemma {:induction false} TraceAlwaysFits(xs: seq<Input>)
    ensures TraceFits(After(xs))
  {
    if xs != [] {
      var n := |xs| - 1;
      var v, v' := After(xs[..n]), After(xs);
      TraceAlwaysFits(xs[..n]);
      Reactions(v, xs[n]);
      hide React, After;
      if v.state.S_ESTABLISHED? && v'.out != v.out {
        hide TraceFits;
        TraceGrows(v, v', v'.out[|v.out|]);
      }
    }
  }

  /** Timeouts handled since the last echo reply, both counted only when established. */
  function Silent(xs: seq<Input>): nat {
    if xs == [] then 0
    else
      var n := |xs| - 1;
      if !After(xs[..n]).state.S_ESTABLISHED? then 0
      else if xs[n].event == E_ECHO_REPLY then 0
      else if xs[n].event == E_OFP_TIMEOUT then 1 + Silent(xs[..n])
      else Silent(xs[..n])
  }

  lemma QueryStep(v: View, x: Input)
    ensures var v' := React(v, x);
      && v'.queryCnt == (if !v.state.S_ESTABLISHED? then v.queryCnt
                         else if x.event == E_ECHO_REPLY then 1
                         else if x.event == E_OFP_TIMEOUT then ToU8(v.queryCnt + 1)
                         else v.queryCnt)
      && (v.state.S_ESTABLISHED? ==> v'.state.S_ESTABLISHED?)
  {
    Reactions(v, x);
    hide React, ToU8;
  }

  lemma {:induction false} LastEvent(xs: seq<Input>)
    requires xs != []
    ensures var n := |xs| - 1; var v := After(xs[..n]);
      && After(xs) == React(v, xs[n])
      && Silent(xs) == (if !v.state.S_ESTABLISHED? || xs[n].event == E_ECHO_REPLY then 0
                        else if xs[n].event == E_OFP_TIMEOUT then 1 + Silent(xs[..n]) else Silent(xs[..n]))
  {
    hide React;
  }

  lemma {:induction false} QueryStart()
    ensures After([]).queryCnt == ToU8(1 + Silent([])) && Silent([]) == 0
  {
  }

  lemma {:induction false} QueryNext(xs: seq<Input>)
    requires xs != []
    requires var v, n := After(xs[..|xs| - 1]), Silent(xs[..|xs| - 1]);
      v.queryCnt == ToU8(1 + n) && (!v.state.S_ESTABLISHED? ==> n == 0)
    ensures After(xs).queryCnt == ToU8(1 + Silent(xs))
    ensures !After(xs).state.S_ESTABLISHED? ==> Silent(xs) == 0
  {
    hide React, After, Silent, ToU8;
    var n := |xs| - 1;
    LastEvent(xs);
    QueryStep(After(xs[..n]), xs[n]);
    NextCount(0);
    NextCount(1 + Silent(xs[..n]));
  }

  /** query_cnt is a U8, so the count it keeps is modulo 256. */
  lemma {:induction false} QueryCount(xs: seq<Input>)
    ensures After(xs).queryCnt == ToU8(1 + Silent(xs))
    ensures !After(xs).state.S_ESTABLISHED? ==> Silent(xs) == 0
  {
    QueryStart();
    hide After, Silent, ToU8;
    if xs == [] {
      assert xs == [];
    } else {
      QueryCount(xs[..|xs| - 1]);
      QueryNext(xs);
    }
  }

  lemma NextCount(n: nat)
    ensures ToU8(ToU8(n) + 1) == ToU8(n + 1) && ToU8(1) == 1
  {
  }

  function EchoRequests(out: seq<Frame>): nat {
    if out == [] then 0
    else EchoRequests(out[..|out| - 1]) + if out[|out| - 1] == EchoRequest then 1 else 0
  }

  /** Timeouts handled while established. */
  function Timeouts(xs: seq<Input>): nat {
    if xs == [] then 0
    else
      var n := |xs| - 1;
      Timeouts(xs[..n]) + if After(xs[..n]).state.S_ESTABLISHED? && xs[n].event == E_OFP_TIMEOUT then 1 else 0
  }

  lemma EchoSnoc(out: seq<Frame>, f: Frame)
    ensures EchoRequests(out + [f]) == EchoRequests(out) + if f == EchoRequest then 1 else 0
  {
    assert (out + [f])[..|out|] == out;
  }

  /** One echo request goes out on establishment and one for each timeout handled. */
  lemma {:induction false} EchoPerTimeout(xs: seq<Input>)
    ensures EchoRequests(After(xs).out) == Timeouts(xs) + if After(xs).state.S_ESTABLISHED? then 1 else 0
    ensures !After(xs).state.S_ESTABLISHED? ==> Timeouts(xs) == 0
  {
    if xs != [] {
      var n := |xs| - 1;
      var v, v' := After(xs[..n]), After(xs);
      EchoPerTimeout(xs[..n]);
      TraceAlwaysFits(xs[..n]);
      Reactions(v, xs[n]);
      hide React, TraceFits, EchoRequests;
      EchoSnoc(v.out, Hello);
      EchoSnoc(v.out, FeatureReply);
      EchoSnoc(v.out + [FeatureReply], EchoRequest);
      EchoSnoc(v.out, EchoRequest);
      EchoSnoc(v.out, MultipartReply);
      EchoSnoc(v.out, PacketIn);
      EchoSnoc(v.out, ToHost);
    } else {
      assert EchoRequests([]) == 0;
    }
  }

  // ---------- the port ----------

  /** The address of ofp_ports[0], the owner of every timer the agent starts. */
  const PORT: nat := 1
  /** ofp_interval (src/ofpd.c:76). */
  const INTERVAL: U32 := 10_000_000

  /** A start of the query timer cannot fail: a slot is idle or the timer is running. */
  ghost predicate CanArm(cells: seq<TmrCb>, a: seq<Entry>) {
    SomeIdle(cells) || FindKey(a, PORT, E_OFP_TIMEOUT) < |a|
  }

  /** The query timer of the port as A_start_timer starts it, slot left open. */
  function QueryTimer(que: int, now: nat): Entry {
    Entry(0, que, PORT, ToU8(E_OFP_TIMEOUT), now + INTERVAL)
  }

  /** The agenda once the handlers have stopped what they stop; a start stops first. */
  function Cleared(a: seq<Entry>, hdl: seq<Handler>): seq<Entry> {
    if hdl == [] then a
    else
      var b := Cleared(a, hdl[..|hdl| - 1]);
      if TimerHandler(hdl[|hdl| - 1]) then Stop(b, PORT, E_OFP_TIMEOUT) else b
  }

  /** What the handlers of a row make of agenda a: only the port's query timer is touched,
      stopped as often as they stop it, and in a row with a start it runs anew for a whole
      interval, if it can. */
  ghost predicate TimersAfter(a: seq<Entry>, b: seq<Entry>, hdl: seq<Handler>, can: bool, que: int, now: nat) {
    if A_start_timer in hdl && can then Started(Cleared(a, hdl), b, QueryTimer(que, now)) else b == Cleared(a, hdl)
  }

  lemma ClearedNext(a: seq<Entry>, hdl: seq<Handler>, h: Handler)
    ensures Cleared(a, hdl + [h]) ==
      if TimerHandler(h) then Stop(Cleared(a, hdl), PORT, E_OFP_TIMEOUT) else Cleared(a, hdl)
  {
    assert (hdl + [h])[..|hdl|] == hdl;
  }

  lemma TimersNext(a: seq<Entry>, b: seq<Entry>, b': seq<Entry>, hdl: seq<Handler>, h: Handler, can: bool,
                   que: int, now: nat)
    requires A_start_timer !in hdl && TimersAfter(a, b, hdl, can, que, now)
    requires !TimerHandler(h) ==> b' == b
    requires h.A_stop_query_tmr? ==> b' == Stop(b, PORT, E_OFP_TIMEOUT)
    requires h.A_start_timer? ==>
      var rest := Stop(b, PORT, E_OFP_TIMEOUT);
      if can then Started(rest, b', QueryTimer(que, now)) else b' == rest
    ensures TimersAfter(a, b', hdl + [h], can, que, now)
  {
    ClearedNext(a, hdl, h);
    hide Cleared, Started, Stop;
  }

  /** The timer a start leaves in the agenda is due one interval from now. */
  lemma StartedArms(a: seq<Entry>, b: seq<Entry>, hdl: seq<Handler>, que: int, now: nat)
    requires TimersAfter(a, b, hdl, true, que, now) && A_start_timer in hdl
    ensures exists i :: 0 <= i < |b| && b[i].(slot := 0) == QueryTimer(que, now)
  {
    var c, e := Cleared(a, hdl), QueryTimer(que, now);
    var slot :| b == ScheduleIn(c, e, slot);
    assert b[DueCount(c, e.due)] == e.(slot := slot);
  }

  lemma StopLeavesCanArm(a: seq<Entry>, before: seq<TmrCb>, after: seq<TmrCb>)
    requires SomeIdle(after) <==> CanArm(before, a)
    ensures CanArm(after, Stop(a, PORT, E_OFP_TIMEOUT)) <==> CanArm(before, a)
  {
    var n := FindKey(a, PORT, E_OFP_TIMEOUT);
    assert n == |a| ==> Stop(a, PORT, E_OFP_TIMEOUT) == a;
  }

  /** Handlers that touch the timer pool. */
  predicate TimerHandler(h: Handler) {
    h.A_start_timer? || h.A_stop_query_tmr?
  }

  lemma EveryStateListed(s: OfpState)
    requires s != S_INVALID
    ensures exists k | 0 <= k < |TABLE| :: TABLE[k].state == s
  {
    assert TABLE[0].state == S_CLOSED && TABLE[1].state == S_HELLO_WAIT;
    assert TABLE[2].state == S_FEATURE_WAIT && TABLE[3].state == S_ESTABLISHED;
  }

  /** In every row the only handler after which nothing follows is the start. */
  lemma StartComesLast(i: nat, j: nat)
    requires i < |TABLE| && j < |TABLE[i].hdl| && TABLE[i].hdl[j].A_start_timer?
    ensures j == |TABLE[i].hdl| - 1
  {
    assert |TABLE| == 10;
    assert i == 2 || i == 5 || i == 6;
  }

  /** tOFP_PORT, as far as OFP_FSM reads and writes it. */
  class Port {
    var state: OfpState
    var query_cnt: U8
    /** What drv_xmit has been given, oldest first. */
    var out: seq<Frame>
    const timers: TimerPool
    const ofpQid: int

    ghost predicate Valid()
      reads this, timers, timers.tcb
    {
      timers.Valid()
    }

    constructor (timers: TimerPool, ofpQid: int)
      requires timers.Valid()
      ensures this.timers == timers && Valid() && Seen() == CLOSED
    {
      this.timers, this.ofpQid := timers, ofpQid;
      state, query_cnt, out := S_CLOSED, 1, [];
    }

    function Seen(): View
      reads this
    {
      View(state, query_cnt, out)
    }

    /** One handler of a row. */
    method Handle(h: Handler, ifaddrs: bool)
      requires Valid()
      modifies this, timers, timers.tcb
      ensures Valid() && timers.now == old(timers.now)
      ensures Seen() == Act(old(Seen()), h, ifaddrs)
      ensures !TimerHandler(h) ==> timers.agenda == old(timers.agenda)
      ensures h.A_stop_query_tmr? ==> timers.agenda == Stop(old(timers.agenda), PORT, E_OFP_TIMEOUT)
      ensures h.A_start_timer? ==>
        var rest := Stop(old(timers.agenda), PORT, E_OFP_TIMEOUT);
        if CanArm(old(timers.tcb[..]), old(timers.agenda)) then
          Started(rest, timers.agenda, QueryTimer(ofpQid, timers.now))
        else timers.agenda == rest
      ensures !h.A_start_timer? ==>
        (CanArm(timers.tcb[..], timers.agenda) <==> CanArm(old(timers.tcb[..]), old(timers.agenda)))
    {
      hide Represents, SomeIdle, FindKey, Stop, Schedule;
      ghost var cells := timers.tcb[..];
      match h {
        case A_send_hello => out := out + [Hello];
        case A_send_feature_reply => out := out + [FeatureReply];
        case A_send_echo_request => out := out + [EchoRequest];
        case A_send_multipart_reply => if ifaddrs { out := out + [MultipartReply]; }
        case A_send_packet_in => out := out + [PacketIn];
        case A_send_to_host => out := out + [ToHost];
        case A_clear_query_cnt => query_cnt := 1;
        case A_query_tmr_expire => query_cnt := ToU8(query_cnt as int + 1);
        case A_stop_query_tmr =>
          timers.StopXtmr(PORT, E_OFP_TIMEOUT);
          StopLeavesCanArm(old(timers.agenda), cells, timers.tcb[..]);
        case A_start_timer => timers.StartTmr(ofpQid, PORT, INTERVAL, E_OFP_TIMEOUT);
      }
    }

    /** OFP_FSM: look the event up, move to the row's next state, run its handlers. */
    method OFP_FSM(event: U16, ifaddrs: bool) returns (status: bool)
      requires Valid()
      modifies this, timers, timers.tcb
      ensures Valid() && timers.now == old(timers.now)
      ensures status <==> old(state) != S_INVALID
      ensures Seen() == React(old(Seen()), Input(event, ifaddrs))
      ensures var i := RowFor(old(state), event);
        TimersAfter(old(timers.agenda), timers.agenda, if i < |TABLE| then TABLE[i].hdl else [],
                    CanArm(old(timers.tcb[..]), old(timers.agenda)), ofpQid, timers.now)
    {
      TableShape();
      RowIs(state, event);
      if state != S_INVALID {
        EveryStateListed(state);
      }
      assert TimersAfter(timers.agenda, timers.agenda, [], CanArm(timers.tcb[..], timers.agenda), ofpQid, timers.now);
      hide TimerPool.Valid, ActAll, CanArm, TimersAfter, Lookup;
      var r := ScanTable(TABLE, state, event);
      if r.UnknownState? {
        return false;
      }
      if r.Found? {
        state := TABLE[r.row].next;
        RunHandlers(r.row, ifaddrs);
      }
      return true;
    }

    /** The handler loop of OFP_FSM. */
    method RunHandlers(i: nat, ifaddrs: bool)
      requires Valid() && i < |TABLE|
      modifies this, timers, timers.tcb
      ensures Valid() && timers.now == old(timers.now)
      ensures Seen() == ActAll(old(Seen()), TABLE[i].hdl, ifaddrs)
      ensures TimersAfter(old(timers.agenda), timers.agenda, TABLE[i].hdl,
                          CanArm(old(timers.tcb[..]), old(timers.agenda)), ofpQid, timers.now)
    {
      var hdl := TABLE[i].hdl;
      forall k | 0 <= k < |hdl| && hdl[k].A_start_timer?
        ensures k == |hdl| - 1
      {
        StartComesLast(i, k);
      }
      ghost var v, a, can := Seen(), timers.agenda, CanArm(timers.tcb[..], timers.agenda);
      assert Cleared(a, []) == a && TimersAfter(a, timers.agenda, hdl[..0], can, ofpQid, timers.now);
      hide TimerPool.Valid, ActAll, Act, CanArm, TABLE, Started, Stop, TimersAfter;
      var j := 0;
      while j < |hdl|
        invariant 0 <= j <= |hdl|
        invariant Valid() && timers.now == old(timers.now)
        invariant ActAll(Seen(), hdl[j..], ifaddrs) == ActAll(v, hdl, ifaddrs)
        invariant A_start_timer !in hdl[..j] ==> (CanArm(timers.tcb[..], timers.agenda) <==> can)
        invariant TimersAfter(a, timers.agenda, hdl[..j], can, ofpQid, timers.now)
      {
        assert hdl[j..] == [hdl[j]] + hdl[j + 1..];
        ActFirst(Seen(), hdl[j], hdl[j + 1..], ifaddrs);
        assert hdl[..j + 1] == hdl[..j] + [hdl[j]];
        assert A_start_timer !in hdl[..j];
        ghost var b := timers.agenda;
        Handle(hdl[j], ifaddrs);
        TimersNext(a, b, timers.agenda, hdl[..j], hdl[j], can, ofpQid, timers.now);
        j := j + 1;
      }
      ActFirst(Seen(), A_start_timer, [], ifaddrs);
      assert hdl[..j] == hdl;
    }
  }
}
