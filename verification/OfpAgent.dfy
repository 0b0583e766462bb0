/** src/ofpd.c: the agent as a whole.  Its event loop takes one mail at a time and runs the
    handlers of the row; every handler, every critical section of the timer service, every
    step of the timer task and every arriving message is a step of its own. */
module OfpAgent {
  import opened Words
  import opened TimerAgenda
  import opened TimerTask
  import opened TimerRuns
  import opened OfpFsm

  // The values of OFPT_t that OFP_decode_frame knows (src/ofpd.h:118-159).
  const OFPT_HELLO: U8 := 0
  const OFPT_ECHO_REPLY: U8 := 3
  const OFPT_FEATURES_REQUEST: U8 := 5
  const OFPT_PACKET_OUT: U8 := 13
  const OFPT_FLOW_MOD: U8 := 14
  const OFPT_MULTIPART_REQUEST: U8 := 18

  /** A mail from the driver, as OFP_decode_frame tells it apart: too long, from the data
      plane, loss of the controller connection, or an OpenFlow message with its type and,
      for a flow-mod, whether its action is a set-field. */
  datatype DrvMsg = TooLong | FromHost | CpFail | Controller(ofpt: U8, setField: bool)

  datatype Mail = TmrMail(prim: Prim) | DrvMail(msg: DrvMsg)

  /** The event OFP_decode_frame leaves in the port; an unknown type leaves the old one. */
  function DecodeEvent(event: U16, m: DrvMsg): U16 {
    match m
    case FromHost => E_PACKET_IN
    case Controller(t, setField) =>
      if t == OFPT_HELLO then E_RECV_HELLO
      else if t == OFPT_FEATURES_REQUEST then E_FEATURE_REQUEST
      else if t == OFPT_MULTIPART_REQUEST then E_MULTIPART_REQUEST
      else if t == OFPT_ECHO_REPLY then E_ECHO_REPLY
      else if t == OFPT_FLOW_MOD then (if setField then E_FLOW_MOD else E_OTHERS)
      else if t == OFPT_PACKET_OUT then E_PACKET_OUT
      else event
    case _ => event
  }

  /** The request A_start_timer makes. */
  const QUERY: Request := Request(0, PORT, INTERVAL, E_OFP_TIMEOUT)
  const QUERY_KEY: (nat, int) := (PORT, E_OFP_TIMEOUT as int)

  /** The timer service, the port, the handlers still to run for the current event, the
      mailbox, the frames sent and the events handled since the last (re)start. */
  datatype Agent = Agent(tm: State, state: OfpState, queryCnt: U8, event: U16,
                         todo: seq<Handler>, ifaddrs: bool, mailbox: seq<Mail>,
                         out: seq<Frame>, handled: seq<Input>)

  datatype Step =
    | Task(a: Action)
    | Arrive(m: DrvMsg)
    | Receive(ifaddrs: bool)
    | Work(slot: nat)

  /** OFP_FSM up to its handler loop. */
  function Dispatch(s: Agent, event: U16, ifaddrs: bool): Agent {
    var i := RowFor(s.state, event);
    var s' := s.(ifaddrs := ifaddrs, handled := s.handled + [Input(event, ifaddrs)]);
    if i < |TABLE| then s'.(state := TABLE[i].next, todo := TABLE[i].hdl) else s'
  }

  /** ofpdInit and the start event: the timer pool and the port are reset, the mailbox and
      the port's last event are not. */
  function Restart(event: U16, mailbox: seq<Mail>): Agent {
    Dispatch(Agent(Init(), S_CLOSED, 1, event, [], false, mailbox, [], []), E_START, false)
  }

  function Boot(): Agent {
    Restart(0, [])
  }

  function HandleMail(s: Agent, m: Mail, ifaddrs: bool): Agent {
    match m
    case TmrMail(prim) => Dispatch(s, prim.evt, ifaddrs)
    case DrvMail(msg) =>
      if msg.TooLong? then s
      else if msg.CpFail? then Restart(s.event, s.mailbox)
      else
        var event := DecodeEvent(s.event, msg);
        Dispatch(s.(event := event), event, ifaddrs)
  }

  /** The next piece of the handler at the front of todo. */
  function WorkStep(s: Agent, slot: nat): Agent {
    if s.todo == [] then s
    else if s.todo[0].A_start_timer? then
      if s.tm.app.AppIdle? then s.(tm := Next(s.tm, StartStop(QUERY)))
      else if s.tm.app.Stopped? && s.tm.idle != {} then s.(tm := Next(s.tm, StartMalloc(slot)))
      else if s.tm.app.Stopped? then s.(tm := Next(s.tm, StartFail), todo := s.todo[1..])
      else s.(tm := Next(s.tm, StartLink), todo := s.todo[1..])
    else if s.todo[0].A_stop_query_tmr? then
      s.(tm := Next(s.tm, StopOne(PORT, E_OFP_TIMEOUT)), todo := s.todo[1..])
    else
      var v := Act(ViewOf(s), s.todo[0], s.ifaddrs);
      s.(queryCnt := v.queryCnt, out := v.out, todo := s.todo[1..])
  }

  function ViewOf(s: Agent): View {
    View(s.state, s.queryCnt, s.out)
  }

  function TaskStep(s: Agent, a: Action): Agent {
    s.(tm := Next(s.tm, a),
       mailbox := if a.Post? && s.tm.task.Posting? then s.mailbox + [TmrMail(s.tm.task.prim)] else s.mailbox)
  }

  ghost predicate CanStep(s: Agent, e: Step) {
    match e
    case Task(a) => (a.Wake? || a.Pop? || a.Post? || a.Charge?) && Enabled(s.tm, a)
    case Arrive(_) => true
    case Receive(_) => s.todo == [] && s.mailbox != []
    case Work(slot) => s.todo != [] && (s.tm.app.Stopped? && s.tm.idle != {} ==> slot in s.tm.idle)
  }

  function StepTo(s: Agent, e: Step): Agent {
    match e
    case Task(a) => TaskStep(s, a)
    case Arrive(m) => s.(mailbox := s.mailbox + [DrvMail(m)])
    case Receive(ifaddrs) =>
      if s.mailbox == [] then s else HandleMail(s.(mailbox := s.mailbox[1..]), s.mailbox[0], ifaddrs)
    case Work(slot) => WorkStep(s, slot)
  }

  ghost predicate LegalSteps(s: Agent, run: seq<Step>)
    decreases |run|
  {
    run == [] || (CanStep(s, run[0]) && LegalSteps(StepTo(s, run[0]), run[1..]))
  }

  function RunTo(s: Agent, run: seq<Step>): Agent
    decreases |run|
  {
    if run == [] then s else RunTo(StepTo(s, run[0]), run[1..])
  }

  // ---------- the invariant ----------

  /** A start is in progress exactly while its handler is at the front. */
  ghost predicate InStep(s: Agent) {
    !s.tm.app.AppIdle? ==> s.todo != [] && s.todo[0].A_start_timer? && s.tm.app.r == QUERY
  }

  /** Handlers come in the order of a row: a stop is always followed by a start. */
  ghost predicate RowOrder(todo: seq<Handler>) {
    A_stop_query_tmr in todo ==> todo[|todo| - 1].A_start_timer?
  }

  predicate IsQuery(p: Prim) {
    p.ccb == PORT && p.evt == E_OFP_TIMEOUT
  }

  /** The only timer the agent ever runs is the query timer, in the list, on its way out of
      it, and in the mailbox. */
  ghost predicate OnlyQueries(s: Agent) {
    && QueryKeys(s.tm.list)
    && (s.tm.task.Posting? ==> IsQuery(s.tm.task.prim))
    && (forall k | 0 <= k < |s.mailbox| && s.mailbox[k].TmrMail? :: IsQuery(s.mailbox[k].prim))
  }

  ghost predicate TimeoutQueued(mailbox: seq<Mail>) {
    exists k | 0 <= k < |mailbox| :: mailbox[k].TmrMail?
  }

  /** Something will wake an established session: a running timer, a timeout on its way, or
      a start still to be done for the current event. */
  ghost predicate Alive(s: Agent) {
    s.state.S_ESTABLISHED? ==>
      s.tm.list != [] || s.tm.task.Posting? || TimeoutQueued(s.mailbox) || A_start_timer in s.todo
  }

  /** Finishing the handlers in hand gives what the events handled so far call for. */
  ghost predicate Faithful(s: Agent) {
    ActAll(ViewOf(s), s.todo, s.ifaddrs) == After(s.handled)
  }

  /** No deadline lies further away than the query interval. */
  ghost predicate Near(g: Log) {
    forall i | 0 <= i < |g.agenda| :: g.agenda[i].due <= g.clock + INTERVAL
  }

  ghost predicate Inv(s: Agent) {
    && Timely(s.tm) && InStep(s) && RowOrder(s.todo) && OnlyQueries(s) && Alive(s) && Faithful(s)
    && Near(s.tm.log)
  }

  // ---------- one step at a time ----------

  /** Every node of the list is a query timer. */
  ghost predicate QueryKeys(l: seq<Node>) {
    forall key | key in NodeKeys(l) :: key == QUERY_KEY
  }

  lemma StopKeepsQueries(l: seq<Node>, ccb: nat, event: int)
    requires QueryKeys(l)
    ensures QueryKeys(StopNode(l, ccb, event))
  {
    StopSlots(l, ccb, event);
    hide NodeKeys, StopNode;
  }

  lemma LinkKeepsQueries(l: seq<Node>, slot: nat)
    requires QueryKeys(l)
    ensures var l' := LinkNode(l, Node(slot, QUERY.que, QUERY.ccb, ToU8(QUERY.event), QUERY.delay));
      QueryKeys(l') && l' != []
  {
    LinkSlots(l, Node(slot, QUERY.que, QUERY.ccb, ToU8(QUERY.event), QUERY.delay));
    hide NodeKeys;
  }

  lemma PopKeepsQueries(s: State, rest: nat)
    requires QueryKeys(s.list) && s.task == Popping(rest)
    ensures var s' := PopStep(s, rest);
      && QueryKeys(s'.list) && s'.app == s.app
      && (s'.list == s.list || s'.task.Posting?)
      && (s'.task.Posting? ==> IsQuery(s'.task.prim))
  {
    if s.list != [] {
      var n, l := s.list[0], s.list[1..];
      Cons(n, l);
      assert s.list == [n] + l;
      assert (n.ccb, n.event as int) in NodeKeys(s.list);
      assert forall key | key in NodeKeys(l) :: key in NodeKeys(s.list);
      hide NodeKeys, LogPop;
    }
  }

  lemma ChargeKeepsQueries(l: seq<Node>, delta: nat)
    requires QueryKeys(l)
    ensures QueryKeys(ChargeNode(l, delta)) && (l != [] ==> ChargeNode(l, delta) != [])
  {
    ChargeSlots(l, delta);
    hide NodeKeys;
  }

  lemma TwoQueries(l: seq<Node>)
    requires QueryKeys(l) && |l| >= 2
    ensures NodeKeys(l)[QUERY_KEY] >= 2
  {
    assert l[1..] == [l[1]] + l[2..] && l == [l[0]] + l[1..];
    Cons(l[1], l[2..]);
    Cons(l[0], l[1..]);
    assert (l[0].ccb, l[0].event as int) in NodeKeys(l) && (l[1].ccb, l[1].event as int) in NodeKeys(l);
    hide NodeKeys;
  }

  lemma {:induction false} NodeCount(l: seq<Node>)
    ensures |NodeSlots(l)| == |l|
  {
    if l != [] {
      NodeCount(l[1..]);
    }
  }

  /** With keys unique the agent never has more than one timer. */
  lemma AtMostOne(s: Agent)
    requires Inv(s)
    ensures |s.tm.list| <= 1
  {
    if QueryKeys(s.tm.list) && |s.tm.list| >= 2 {
      TwoQueries(s.tm.list);
      assert false;
    }
  }

  /** So its starts never fail for lack of a slot. */
  lemma AlwaysIdleSlot(s: Agent)
    requires Inv(s)
    ensures |s.tm.idle| >= MAX_TMR_CB_NUM - 2
  {
    AtMostOne(s);
    var idle, held, linked := s.tm.idle, Held(s.tm.app), NodeSlots(s.tm.list);
    assert Partition(idle, held, linked);
    NodeCount(s.tm.list);
    assert |multiset(AllSlots())| == MAX_TMR_CB_NUM;
    assert |multiset(idle) + held + linked| == |idle| + |held| + |linked|;
    assert |held| <= 1;
    hide Timely, Inv, NodeSlots;
  }

  // ---------- the agent's steps ----------

  lemma TimeoutStays(a: seq<Mail>, m: Mail)
    ensures TimeoutQueued(a) || m.TmrMail? <==> TimeoutQueued(a + [m])
    ensures a != [] && !a[0].TmrMail? && TimeoutQueued(a) ==> TimeoutQueued(a[1..])
  {
    var b := a + [m];
    assert b[|a|] == m;
    assert forall k | 0 <= k < |a| :: b[k] == a[k];
    if a != [] && !a[0].TmrMail? && TimeoutQueued(a) {
      var k :| 0 <= k < |a| && a[k].TmrMail?;
      assert a[1..][k - 1] == a[k];
    }
  }

  lemma TaskKeepsQueries(s: State, a: Action)
    requires QueryKeys(s.list) && Enabled(s, a) && (a.Wake? || a.Pop? || a.Post? || a.Charge?)
    requires s.task.Posting? ==> IsQuery(s.task.prim)
    ensures var s' := Next(s, a);
      && QueryKeys(s'.list) && s'.app == s.app && (s'.task.Posting? ==> IsQuery(s'.task.prim))
      && (s.list != [] ==> s'.list != [] || s'.task.Posting?)
      && (s.task.Posting? ==> a.Post?)
  {
    hide PopStep, QueryKeys;
    match a
    case Pop => PopKeepsQueries(s, s.task.rest);
    case Charge => ChargeKeepsQueries(s.list, s.task.rest);
    case Wake(_) =>
    case Post =>
  }

  /** What a step does to the running deadlines. */
  lemma NearKept(g: Log, g': Log)
    requires Near(g) && g.clock <= g'.clock
    requires forall e | e in g'.agenda :: e in g.agenda || e.due == g.clock + INTERVAL
    ensures Near(g')
  {
  }

  lemma TaskNear(s: State, a: Action)
    requires OnTime(s) && Near(s.log) && Enabled(s, a) && (a.Wake? || a.Pop? || a.Post? || a.Charge?)
    ensures Near(Next(s, a).log)
  {
    var g := s.log;
    match a
    case Pop =>
      PopStepStored(s, s.task.rest);
      if g.agenda != [] {
        PopHeadDue(s);
        NearKept(g, PopStep(s, s.task.rest).log);
      }
    case Charge =>
    case Wake(_) =>
    case Post =>
  }

  lemma PostQueries(mailbox: seq<Mail>, prim: Prim)
    requires IsQuery(prim) && forall k | 0 <= k < |mailbox| && mailbox[k].TmrMail? :: IsQuery(mailbox[k].prim)
    ensures var b := mailbox + [TmrMail(prim)];
      forall k | 0 <= k < |b| && b[k].TmrMail? :: IsQuery(b[k].prim)
  {
  }

  /** The timer task moves the timer from list to mail to mailbox and never drops it. */
  lemma TaskAlive(s: Agent, a: Action)
    requires OnlyQueries(s) && Alive(s) && InStep(s) && CanStep(s, Task(a))
    ensures OnlyQueries(TaskStep(s, a)) && Alive(TaskStep(s, a)) && InStep(TaskStep(s, a))
  {
    hide QueryKeys, Next, TimeoutQueued, IsQuery;
    TaskKeepsQueries(s.tm, a);
    if a.Post? {
      TimeoutStays(s.mailbox, TmrMail(s.tm.task.prim));
      PostQueries(s.mailbox, s.tm.task.prim);
    }
  }

  lemma {:induction false} TaskInv(s: Agent, a: Action)
    requires Inv(s) && CanStep(s, Task(a))
    ensures Inv(TaskStep(s, a))
  {
    TaskAlive(s, a);
    SameView(s, TaskStep(s, a));
    StepTimely(s.tm, a);
    assert OnTime(s.tm);
    TaskNear(s.tm, a);
    hide Timely, OnTime, OnlyQueries, Alive, InStep, Near, Next, Faithful, RowOrder;
  }

  lemma SameView(s: Agent, s': Agent)
    requires Faithful(s)
    requires ViewOf(s) == ViewOf(s') && s.todo == s'.todo && s.ifaddrs == s'.ifaddrs && s.handled == s'.handled
    ensures Faithful(s')
  {
  }

  lemma {:induction false} ArriveInv(s: Agent, m: DrvMsg)
    requires Inv(s)
    ensures Inv(StepTo(s, Arrive(m)))
  {
    TimeoutStays(s.mailbox, DrvMail(m));
    hide Timely, QueryKeys, Near, ActAll, After, NodeKeys;
  }

  /** A row of the table keeps its handlers in order, and a row that enters or wakes the
      established state starts the timer. */
  lemma RowFacts(state: OfpState, event: U16)
    ensures var i := RowFor(state, event);
      && i <= |TABLE|
      && (i < |TABLE| ==> RowOrder(TABLE[i].hdl))
      && (i < |TABLE| && TABLE[i].next.S_ESTABLISHED? ==> state.S_ESTABLISHED? || A_start_timer in TABLE[i].hdl)
      && (state.S_ESTABLISHED? ==> (i < |TABLE| ==> TABLE[i].next.S_ESTABLISHED?))
      && (state.S_ESTABLISHED? && event == E_OFP_TIMEOUT ==> i < |TABLE| && A_start_timer in TABLE[i].hdl)
  {
    RowIs(state, event);
    hide RowFor;
    assert |TABLE| == 10;
    assert TABLE[2].hdl[2] == A_start_timer && TABLE[5].hdl[2] == A_start_timer && TABLE[6].hdl[2] == A_start_timer;
  }

  lemma DispatchFaithful(s: Agent, event: U16, ifaddrs: bool)
    requires s.todo == [] && Faithful(s)
    ensures Faithful(Dispatch(s, event, ifaddrs))
  {
    var xs := s.handled + [Input(event, ifaddrs)];
    assert xs[..|xs| - 1] == s.handled;
    assert ActAll(ViewOf(s), [], s.ifaddrs) == ViewOf(s);
    assert ActAll(ViewOf(s), [], ifaddrs) == ViewOf(s);
    assert After(xs) == React(ViewOf(s), Input(event, ifaddrs));
    hide RowFor, ActAll, After, TABLE;
  }

  /** Taking an event leaves the session awake: a timeout mail that is used up starts the
      timer again. */
  lemma {:induction false} DispatchInv(s: Agent, event: U16, ifaddrs: bool)
    requires Timely(s.tm) && InStep(s) && OnlyQueries(s) && Near(s.tm.log) && s.todo == [] && Faithful(s)
    requires Alive(s) || event == E_OFP_TIMEOUT
    ensures Inv(Dispatch(s, event, ifaddrs))
  {
    DispatchFaithful(s, event, ifaddrs);
    RowFacts(s.state, event);
    hide Timely, QueryKeys, Near, RowFor, TABLE, Faithful;
  }

  lemma {:induction false} RestartInv(event: U16, mailbox: seq<Mail>)
    requires forall k | 0 <= k < |mailbox| && mailbox[k].TmrMail? :: IsQuery(mailbox[k].prim)
    ensures Inv(Restart(event, mailbox))
  {
    var s := Agent(Init(), S_CLOSED, 1, event, [], false, mailbox, [], []);
    InitTimely();
    assert QueryKeys(s.tm.list);
    assert Faithful(s);
    hide Timely, QueryKeys, Faithful;
    DispatchInv(s, E_START, false);
  }

  lemma {:induction false} ReceiveInv(s: Agent, ifaddrs: bool)
    requires Inv(s) && CanStep(s, Receive(ifaddrs))
    ensures Inv(StepTo(s, Receive(ifaddrs)))
  {
    var m, rest := s.mailbox[0], s.mailbox[1..];
    TimeoutStays(s.mailbox, m);
    var s' := s.(mailbox := rest);
    assert OnlyQueries(s') by {
      assert forall k | 0 <= k < |rest| :: rest[k] == s.mailbox[k + 1];
    }
    hide Timely, QueryKeys, Near, ActAll, After, Dispatch, Restart;
    match m
    case TmrMail(prim) => DispatchInv(s', prim.evt, ifaddrs);
    case DrvMail(msg) =>
      if msg.CpFail? {
        RestartInv(s.event, rest);
      } else if !msg.TooLong? {
        var event := DecodeEvent(s.event, msg);
        DispatchInv(s'.(event := event), event, ifaddrs);
      }
  }

  lemma RowOrderTail(todo: seq<Handler>)
    requires RowOrder(todo) && todo != []
    ensures RowOrder(todo[1..])
    ensures todo[0].A_stop_query_tmr? ==> A_start_timer in todo[1..]
    ensures A_start_timer in todo && !todo[0].A_start_timer? ==> A_start_timer in todo[1..]
  {
    var rest := todo[1..];
    assert todo == [todo[0]] + rest;
    if todo[0].A_stop_query_tmr? {
      assert todo[0] in todo;
      assert rest[|rest| - 1] == todo[|todo| - 1];
    }
  }

  lemma WorkFaithful(s: Agent, s': Agent)
    requires Faithful(s) && s.todo != [] && s'.todo == s.todo[1..]
    requires ViewOf(s') == Act(ViewOf(s), s.todo[0], s.ifaddrs) && s'.ifaddrs == s.ifaddrs && s'.handled == s.handled
    ensures Faithful(s')
  {
    assert s.todo == [s.todo[0]] + s.todo[1..];
    ActFirst(ViewOf(s), s.todo[0], s.todo[1..], s.ifaddrs);
    hide ActAll, Act, After;
  }

  lemma StopMembers(a: seq<Entry>, ccb: nat, event: int)
    ensures forall e | e in Stop(a, ccb, event) :: e in a
  {
    var n := FindKey(a, ccb, event);
  }

  lemma ScheduleMembers(a: seq<Entry>, e: Entry)
    ensures forall f | f in Schedule(a, e) :: f in a || f == e
  {
  }

  /** What the pieces of a start or stop do to the timer service. */
  lemma {:induction false} AppStep(s: State, a: Action)
    requires Timely(s) && QueryKeys(s.list) && Near(s.log) && Enabled(s, a)
    requires a == StartStop(QUERY) || a == StopOne(PORT, E_OFP_TIMEOUT) || a.StartMalloc?
      || (a.StartLink? && s.app.r == QUERY)
    requires a.StartMalloc? ==> s.app.r == QUERY
    ensures var s' := Next(s, a);
      && Timely(s') && QueryKeys(s'.list) && Near(s'.log) && s'.task == s.task
      && (a.StartLink? ==> s'.list != [])
      && s'.app == (match a case StartStop(r) => Stopped(QUERY)
                    case StartMalloc(slot) => Holding(slot, QUERY) case _ => AppIdle)
  {
    StepTimely(s, a);
    hide Timely, QueryKeys, LinkNode, StopNode, Freed;
    match a
    case StartStop(r) =>
      StopKeepsQueries(s.list, PORT, E_OFP_TIMEOUT);
      StopMembers(s.log.agenda, PORT, E_OFP_TIMEOUT);
      NearKept(s.log, Next(s, a).log);
    case StopOne(_, _) =>
      StopKeepsQueries(s.list, PORT, E_OFP_TIMEOUT);
      StopMembers(s.log.agenda, PORT, E_OFP_TIMEOUT);
      NearKept(s.log, Next(s, a).log);
    case StartMalloc(_) =>
    case StartLink =>
      LinkKeepsQueries(s.list, s.app.slot);
      ScheduleMembers(s.log.agenda, Entry(s.app.slot, QUERY.que, PORT, ToU8(QUERY.event), s.log.clock + INTERVAL));
      NearKept(s.log, Next(s, a).log);
  }

  /** A piece of a start that leaves its handler at the front. */
  lemma {:induction false} KeepTodoInv(s: Agent, tm: State)
    requires Inv(s) && s.todo != [] && s.todo[0].A_start_timer?
    requires Timely(tm) && QueryKeys(tm.list) && Near(tm.log) && tm.task == s.tm.task
    requires !tm.app.AppIdle? && tm.app.r == QUERY
    ensures Inv(s.(tm := tm))
  {
    SameView(s, s.(tm := tm));
    assert A_start_timer in s.todo;
    hide Timely, QueryKeys, Near, TimeoutQueued, IsQuery, RowOrder, Faithful;
  }

  /** A handler is done: the frames and counts are those of its action, the mailbox is as
      it was, and no start is in progress. */
  ghost predicate HandlerDone(s: Agent, s': Agent) {
    && s.todo != [] && s'.todo == s.todo[1..]
    && s'.state == s.state && ViewOf(s') == Act(ViewOf(s), s.todo[0], s.ifaddrs)
    && s'.ifaddrs == s.ifaddrs && s'.handled == s.handled && s'.mailbox == s.mailbox
    && s'.tm.task == s.tm.task && s'.tm.app.AppIdle?
  }

  /** The start has left a running timer, the stop a start to come. */
  lemma DoneAlive(s: Agent, s': Agent)
    requires HandlerDone(s, s') && Alive(s) && RowOrder(s.todo)
    requires if s.todo[0].A_start_timer? then s'.tm.list != [] else !s.todo[0].A_stop_query_tmr? ==> s'.tm == s.tm
    ensures Alive(s')
  {
    RowOrderTail(s.todo);
    hide TimeoutQueued, RowOrder, Act;
  }

  lemma DoneQueries(s: Agent, s': Agent)
    requires HandlerDone(s, s') && OnlyQueries(s) && QueryKeys(s'.tm.list)
    ensures OnlyQueries(s')
  {
    hide QueryKeys, IsQuery, Act;
  }

  lemma DoneFaithful(s: Agent, s': Agent)
    requires HandlerDone(s, s') && Faithful(s)
    ensures Faithful(s')
  {
    hide Faithful, Act;
    WorkFaithful(s, s');
  }

  lemma {:induction false} DoneInv(s: Agent, s': Agent)
    requires Inv(s) && HandlerDone(s, s')
    requires Timely(s'.tm) && QueryKeys(s'.tm.list) && Near(s'.tm.log)
    requires if s.todo[0].A_start_timer? then s'.tm.list != [] else !s.todo[0].A_stop_query_tmr? ==> s'.tm == s.tm
    ensures Inv(s')
  {
    hide Timely, QueryKeys, Near, RowOrder, Faithful, Alive, OnlyQueries;
    DoneAlive(s, s');
    DoneQueries(s, s');
    DoneFaithful(s, s');
    RowOrderTail(s.todo);
    assert InStep(s') by { hide Act, Inv; }
    hide HandlerDone;
  }

  ghost predicate TimersFit(tm: State) {
    Timely(tm) && QueryKeys(tm.list) && Near(tm.log)
  }

  lemma InvParts(s: Agent)
    requires Inv(s)
    ensures TimersFit(s.tm) && (!s.tm.app.AppIdle? ==> s.todo != [] && s.todo[0].A_start_timer? && s.tm.app.r == QUERY)
  {
    hide Timely, QueryKeys, Near, RowOrder, Faithful, Alive;
  }

  lemma {:induction false} StartStopInv(s: Agent)
    requires Inv(s) && s.todo != [] && s.todo[0].A_start_timer? && s.tm.app.AppIdle?
    ensures Inv(s.(tm := Next(s.tm, StartStop(QUERY))))
  {
    hide Inv, Timely, QueryKeys, Near, Next;
    InvParts(s);
    AppStep(s.tm, StartStop(QUERY));
    KeepTodoInv(s, Next(s.tm, StartStop(QUERY)));
  }

  lemma StartMallocInv(s: Agent, slot: nat)
    requires Inv(s) && s.todo != [] && s.todo[0].A_start_timer? && s.tm.app.Stopped? && slot in s.tm.idle
    ensures Inv(s.(tm := Next(s.tm, StartMalloc(slot))))
  {
    hide Inv, Timely, QueryKeys, Near, Next;
    InvParts(s);
    AppStep(s.tm, StartMalloc(slot));
    KeepTodoInv(s, Next(s.tm, StartMalloc(slot)));
  }

  lemma {:induction false} StartLinkInv(s: Agent)
    requires Inv(s) && s.todo != [] && s.todo[0].A_start_timer? && s.tm.app.Holding?
    ensures Inv(s.(tm := Next(s.tm, StartLink), todo := s.todo[1..]))
  {
    hide Inv, Timely, QueryKeys, Near, Next;
    InvParts(s);
    AppStep(s.tm, StartLink);
    DoneInv(s, s.(tm := Next(s.tm, StartLink), todo := s.todo[1..]));
  }

  lemma {:induction false} StopWorkInv(s: Agent)
    requires Inv(s) && s.todo != [] && s.todo[0].A_stop_query_tmr?
    ensures Inv(s.(tm := Next(s.tm, StopOne(PORT, E_OFP_TIMEOUT)), todo := s.todo[1..]))
  {
    hide Inv, Timely, QueryKeys, Near, Next;
    InvParts(s);
    AppStep(s.tm, StopOne(PORT, E_OFP_TIMEOUT));
    DoneInv(s, s.(tm := Next(s.tm, StopOne(PORT, E_OFP_TIMEOUT)), todo := s.todo[1..]));
  }

  lemma SendInv(s: Agent)
    requires Inv(s) && s.todo != [] && !s.todo[0].A_start_timer? && !s.todo[0].A_stop_query_tmr?
    ensures var v := Act(ViewOf(s), s.todo[0], s.ifaddrs);
      Inv(s.(queryCnt := v.queryCnt, out := v.out, todo := s.todo[1..]))
  {
    hide Inv, Timely, QueryKeys, Near;
    InvParts(s);
    var v := Act(ViewOf(s), s.todo[0], s.ifaddrs);
    DoneInv(s, s.(queryCnt := v.queryCnt, out := v.out, todo := s.todo[1..]));
  }

  lemma {:induction false} WorkInv(s: Agent, slot: nat)
    requires Inv(s) && CanStep(s, Work(slot))
    ensures Inv(WorkStep(s, slot))
  {
    hide Inv, Timely, QueryKeys, Near, Next;
    InvParts(s);
    AlwaysIdleSlot(s);
    if s.todo[0].A_start_timer? {
      match s.tm.app
      case AppIdle => StartStopInv(s);
      case Stopped(_) => StartMallocInv(s, slot);
      case Holding(_, _) => StartLinkInv(s);
    } else if s.todo[0].A_stop_query_tmr? {
      StopWorkInv(s);
    } else {
      SendInv(s);
    }
  }

  lemma {:induction false} StepInv(s: Agent, e: Step)
    requires Inv(s) && CanStep(s, e)
    ensures Inv(StepTo(s, e))
  {
    match e
    case Task(a) => TaskInv(s, a);
    case Arrive(m) => ArriveInv(s, m);
    case Receive(ifaddrs) => ReceiveInv(s, ifaddrs);
    case Work(slot) => WorkInv(s, slot);
  }

  lemma {:induction false} RunInv(s: Agent, run: seq<Step>)
    requires Inv(s) && LegalSteps(s, run)
    ensures Inv(RunTo(s, run))
    decreases |run|
  {
    if run != [] {
      StepInv(s, run[0]);
      RunInv(StepTo(s, run[0]), run[1..]);
    }
    hide Inv, StepTo, CanStep;
  }

  /** The invariant holds in every reachable state of the agent: any messages, any
      interleaving with the timer task, any number of restarts. */
  lemma {:induction false} EveryReachable(run: seq<Step>)
    requires LegalSteps(Boot(), run)
    ensures Inv(RunTo(Boot(), run))
  {
    RestartInv(0, []);
    RunInv(Boot(), run);
    hide Inv, Restart;
  }

  // ---------- what follows for every run ----------

  /** Between two events of any run there is at most one query timer, and an established
      session has it running or its timeout on the way: the heartbeat is never lost. */
  lemma {:induction false} HeartbeatNeverLost(run: seq<Step>)
    requires LegalSteps(Boot(), run) && RunTo(Boot(), run).todo == []
    ensures var s := RunTo(Boot(), run);
      && |s.tm.list| <= 1
      && (s.state.S_ESTABLISHED? ==> |s.tm.list| == 1 || s.tm.task.Posting? || TimeoutQueued(s.mailbox))
  {
    EveryReachable(run);
    AtMostOne(RunTo(Boot(), run));
    hide RunTo, LegalSteps, Boot;
  }

  /** And with no timeout on the way it is due within the query interval. */
  lemma {:induction false} HeartbeatDue(run: seq<Step>)
    requires LegalSteps(Boot(), run)
    requires var s := RunTo(Boot(), run);
      s.todo == [] && s.state.S_ESTABLISHED? && !s.tm.task.Posting? && !TimeoutQueued(s.mailbox)
    ensures var s := RunTo(Boot(), run); var g := s.tm.log;
      && |g.agenda| == 1 && KeyIs(g.agenda[0], (1, 6))
      && g.clock <= g.agenda[0].due <= g.clock + 10_000_000
  {
    var s := RunTo(Boot(), run);
    var g := s.tm.log;
    HeartbeatNeverLost(run);
    EveryReachable(run);
    hide RunTo, LegalSteps, Boot, NodeKeys;
    DeltasLength(g.agenda, g.clock);
    ChainAt(g.agenda, g.clock, g.clock + 0x1_0000_0000, 0);
    assert s.tm.list[0] == NodeOf(g.agenda[0], g.clock);
    OneQuery(s.tm.list);
  }

  ghost predicate KeyIs(e: Entry, key: (nat, int)) {
    (e.ccb, e.event as int) == key
  }

  lemma OneQuery(l: seq<Node>)
    requires QueryKeys(l) && l != []
    ensures (l[0].ccb, l[0].event as int) == QUERY_KEY
  {
    assert (l[0].ccb, l[0].event as int) in NodeKeys(l);
  }

  /** Starts never fail for lack of a timer slot, in any run. */
  lemma {:induction false} StartNeverFails(run: seq<Step>)
    requires LegalSteps(Boot(), run)
    ensures |RunTo(Boot(), run).tm.idle| >= 1198
  {
    EveryReachable(run);
    AlwaysIdleSlot(RunTo(Boot(), run));
    hide RunTo, LegalSteps, Boot, Inv;
  }

  /** However handlers, timer sections and messages interleave, between events the port
      shows what handling the same events one after the other would: so every law about
      After is a law about the agent since its last restart. */
  lemma {:induction false} AgentRefinesFsm(run: seq<Step>)
    requires LegalSteps(Boot(), run) && RunTo(Boot(), run).todo == []
    ensures var s := RunTo(Boot(), run);
      && ViewOf(s) == After(s.handled)
      && TraceFits(ViewOf(s))
      && s.queryCnt == ToU8(1 + Silent(s.handled))
  {
    hide RunTo, LegalSteps, Boot, Inv, After, TraceFits, Silent;
    var s := RunTo(Boot(), run);
    EveryReachable(run);
    HandledAll(s);
    TraceAlwaysFits(s.handled);
    QueryCount(s.handled);
  }

  lemma {:induction false} HandledAll(s: Agent)
    requires Inv(s) && s.todo == []
    ensures ViewOf(s) == After(s.handled)
  {
    assert Faithful(s);
    assert ActAll(ViewOf(s), [], s.ifaddrs) == ViewOf(s);
    hide Inv, After;
  }
}
