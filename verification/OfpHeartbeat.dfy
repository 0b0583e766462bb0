/** src/ofpd.c and src/ofp_fsm.c: a session that hears nothing from its controller does get
    its timeout, within the query interval, and no session gets one before that. */
module OfpHeartbeat {
  import opened Words
  import opened TimerAgenda
  import opened TimerTask
  import opened TimerRuns
  import opened OfpFsm
  import opened OfpAgent
  import opened OfpDispatch

  /** A step that neither loses the controller nor takes an echo reply (OpenFlow type 3), nor
      a message of unknown type when the last known mail was one. */
  ghost predicate Calm(s: Agent, e: Step) {
    e.Receive? && s.mailbox != [] && s.mailbox[0].DrvMail? ==>
      match s.mailbox[0].msg
      case CpFail => false
      case Controller(ofpt, _) => ofpt != 3 && (Known(ofpt) || s.event != E_ECHO_REPLY)
      case _ => true
  }

  ghost predicate CalmRun(s: Agent, run: seq<Step>)
    decreases |run|
  {
    run == [] || (Calm(s, run[0]) && CalmRun(StepTo(s, run[0]), run[1..]))
  }

  /** Timer e is still running, nothing has been posted since the n-th timeout, and nothing
      at hand will touch the timer. */
  ghost predicate Pending(s: Agent, e: Entry, n: nat) {
    && s.state.S_ESTABLISHED? && s.event != E_OFP_TIMEOUT
    && s.tm.log.agenda == [e] && |s.tm.log.posted| == n
    && s.tm.app.AppIdle? && !s.tm.task.Posting? && !TimeoutQueued(s.mailbox)
    && forall h | h in s.todo :: !TimerHandler(h)
  }

  /** The n-th timeout was e's, at its deadline. */
  ghost predicate Fired(s: Agent, e: Entry, n: nat) {
    |s.tm.log.posted| > n && s.tm.log.posted[n] == (e, e.due)
  }

  // ---------- the event of the port ----------

  lemma StepEvent(s: Agent, e: Step)
    requires s.event != E_OFP_TIMEOUT
    ensures StepTo(s, e).event != E_OFP_TIMEOUT
  {
    hide Next, Act, RowFor, TABLE, Init;
  }

  lemma {:induction false} RunEvent(s: Agent, run: seq<Step>)
    requires s.event != E_OFP_TIMEOUT
    ensures RunTo(s, run).event != E_OFP_TIMEOUT
    decreases |run|
  {
    hide StepTo;
    if run != [] {
      StepEvent(s, run[0]);
      RunEvent(StepTo(s, run[0]), run[1..]);
    }
  }

  // ---------- one step ----------

  lemma TaskPending(s: Agent, a: Action, e: Entry, n: nat)
    requires OnTime(s.tm) && Pending(s, e, n) && CanStep(s, Task(a))
    ensures Pending(TaskStep(s, a), e, n) || Fired(TaskStep(s, a), e, n)
  {
    hide TimeoutQueued, TimerHandler, ChargeNode, Deltas, Chain;
    match a
    case Pop => PopStepStored(s.tm, s.tm.task.rest);
    case Wake(_) =>
    case Post =>
    case Charge =>
  }

  /** Only echo replies and timeouts have rows with timer handlers. */
  lemma QuietRow(event: U16)
    requires event != E_ECHO_REPLY && event != E_OFP_TIMEOUT
    ensures var i := RowFor(S_ESTABLISHED, event);
      i < |TABLE| ==> TABLE[i].next.S_ESTABLISHED? && forall h | h in TABLE[i].hdl :: !TimerHandler(h)
  {
    RowIs(S_ESTABLISHED, event);
    hide RowFor;
  }

  lemma DispatchPending(s: Agent, event: U16, ifaddrs: bool, e: Entry, n: nat)
    requires Pending(s, e, n) && event != E_ECHO_REPLY && event != E_OFP_TIMEOUT
    ensures Pending(Dispatch(s, event, ifaddrs), e, n)
  {
    hide TimeoutQueued, TimerHandler, RowFor, TABLE;
    QuietRow(event);
  }

  lemma DecodedEvent(event: U16, m: DrvMsg)
    requires event != E_OFP_TIMEOUT
    ensures DecodeEvent(event, m) != E_OFP_TIMEOUT
  {
  }

  lemma CalmEvent(s: Agent, ifaddrs: bool)
    requires s.mailbox != [] && s.mailbox[0].DrvMail? && Calm(s, Receive(ifaddrs))
    ensures var m := s.mailbox[0].msg; !m.CpFail? && (!m.TooLong? ==> DecodeEvent(s.event, m) != E_ECHO_REPLY)
  {
  }

  lemma RestPending(s: Agent, e: Entry, n: nat)
    requires Pending(s, e, n) && s.mailbox != []
    ensures s.mailbox[0].DrvMail? && Pending(s.(mailbox := s.mailbox[1..]), e, n)
  {
    hide TimerHandler;
    var rest := s.mailbox[1..];
    assert forall k | 0 <= k < |rest| :: rest[k] == s.mailbox[k + 1];
  }

  lemma EventPending(s: Agent, event: U16, e: Entry, n: nat)
    requires Pending(s, e, n) && event != E_OFP_TIMEOUT
    ensures Pending(s.(event := event), e, n)
  {
    hide TimeoutQueued, TimerHandler;
  }

  lemma ReceivePending(s: Agent, ifaddrs: bool, e: Entry, n: nat)
    requires Pending(s, e, n) && s.mailbox != [] && Calm(s, Receive(ifaddrs))
    ensures Pending(StepTo(s, Receive(ifaddrs)), e, n)
  {
    assert s.event != E_OFP_TIMEOUT;
    hide Pending, Dispatch, DecodeEvent, Calm;
    RestPending(s, e, n);
    CalmEvent(s, ifaddrs);
    var m, s' := s.mailbox[0].msg, s.(mailbox := s.mailbox[1..]);
    if !m.TooLong? {
      var event := DecodeEvent(s.event, m);
      DecodedEvent(s.event, m);
      EventPending(s', event, e, n);
      DispatchPending(s'.(event := event), event, ifaddrs, e, n);
    }
  }

  lemma StepPending(s: Agent, step: Step, e: Entry, n: nat)
    requires OnTime(s.tm) && Pending(s, e, n) && CanStep(s, step) && Calm(s, step)
    ensures Pending(StepTo(s, step), e, n) || Fired(StepTo(s, step), e, n)
  {
    match step
    case Task(a) => TaskPending(s, a, e, n);
    case Arrive(m) => TimeoutStays(s.mailbox, DrvMail(m)); hide TimeoutQueued;
    case Receive(ifaddrs) => ReceivePending(s, ifaddrs, e, n);
    case Work(slot) =>
      assert s.todo[0] in s.todo;
      assert forall h | h in s.todo[1..] :: h in s.todo;
      hide TimeoutQueued, Next;
  }

  lemma DispatchKeepsTimers(s: Agent, event: U16, ifaddrs: bool)
    ensures Dispatch(s, event, ifaddrs).tm == s.tm
  {
    hide RowFor, TABLE;
  }

  lemma ReceiveKeepsTimers(s: Agent, m: Mail, ifaddrs: bool)
    requires m != DrvMail(CpFail)
    ensures HandleMail(s, m, ifaddrs).tm == s.tm
  {
    hide Dispatch, DecodeEvent;
    match m
    case TmrMail(prim) => DispatchKeepsTimers(s, prim.evt, ifaddrs);
    case DrvMail(msg) =>
      if !msg.TooLong? {
        var event := DecodeEvent(s.event, msg);
        DispatchKeepsTimers(s.(event := event), event, ifaddrs);
      }
  }

  lemma PostedGrows(s: State, a: Action, n: nat)
    requires n < |s.log.posted|
    ensures var posted := Next(s, a).log.posted; n < |posted| && posted[n] == s.log.posted[n]
  {
    hide LinkNode, StopNode, StopNodes, ChargeNode, Freed, Stop, Schedule, FindKey, StopOwner;
  }

  /** What has been posted stays posted until the controller is lost. */
  lemma StepFired(s: Agent, step: Step, e: Entry, n: nat)
    requires Fired(s, e, n) && CanStep(s, step) && Calm(s, step)
    ensures Fired(StepTo(s, step), e, n)
  {
    hide Next, HandleMail, WorkStep;
    match step
    case Task(a) => PostedGrows(s.tm, a, n);
    case Arrive(m) =>
    case Receive(ifaddrs) => ReceiveKeepsTimers(s.(mailbox := s.mailbox[1..]), s.mailbox[0], ifaddrs);
    case Work(slot) => WorkFired(s, slot, e, n);
  }

  lemma WorkFired(s: Agent, slot: nat, e: Entry, n: nat)
    requires Fired(s, e, n) && s.todo != []
    ensures Fired(WorkStep(s, slot), e, n)
  {
    hide Next, Act;
    PostedGrows(s.tm, StartStop(QUERY), n);
    PostedGrows(s.tm, StartMalloc(slot), n);
    PostedGrows(s.tm, StartFail, n);
    PostedGrows(s.tm, StartLink, n);
    PostedGrows(s.tm, StopOne(PORT, E_OFP_TIMEOUT), n);
  }

  // ---------- a calm run ----------

  lemma {:induction false} CalmSteps(s: Agent, run: seq<Step>, e: Entry, n: nat)
    requires Inv(s) && LegalSteps(s, run) && CalmRun(s, run) && (Pending(s, e, n) || Fired(s, e, n))
    ensures var s' := RunTo(s, run); Inv(s') && (Pending(s', e, n) || Fired(s', e, n))
    decreases |run|
  {
    assert Timely(s.tm) && OnTime(s.tm);
    hide Inv, StepTo, CanStep, Calm, Pending, Fired, Timely, OnTime;
    if run != [] {
      StepInv(s, run[0]);
      if Pending(s, e, n) {
        StepPending(s, run[0], e, n);
      } else {
        StepFired(s, run[0], e, n);
      }
      CalmSteps(StepTo(s, run[0]), run[1..], e, n);
    }
  }

  lemma PendingDue(s: Agent, e: Entry, n: nat)
    requires Inv(s) && Pending(s, e, n)
    ensures s.tm.log.clock <= e.due
  {
    hide Deltas, QueryKeys, Near, TimeoutQueued, RowOrder, Faithful;
  }

  ghost predicate TimedOut(s: Agent, s': Agent) {
    var n, posted := |s.tm.log.posted|, s'.tm.log.posted;
    && |posted| > n && KeyIs(posted[n].0, (1, 6)) && posted[n].1 <= s.tm.log.clock + 10_000_000
  }

  lemma {:induction false} SilenceFrom(s: Agent, later: seq<Step>, e: Entry)
    requires Inv(s) && Pending(s, e, |s.tm.log.posted|) && LegalSteps(s, later) && CalmRun(s, later)
    requires KeyIs(e, QUERY_KEY) && e.due <= s.tm.log.clock + INTERVAL < RunTo(s, later).tm.log.clock
    ensures TimedOut(s, RunTo(s, later))
  {
    hide Inv, Pending, RunTo, LegalSteps, CalmRun;
    var s', n := RunTo(s, later), |s.tm.log.posted|;
    CalmSteps(s, later, e, n);
    if Pending(s', e, n) {
      PendingDue(s', e, n);
    }
  }

  /** From any moment between two events of an established session with no timeout under
      way: once more than the query interval has been charged, with the controller there
      but no echo reply taken, the query timer has fired, and within that interval. */
  lemma {:induction false} SilenceTimesOut(run: seq<Step>, later: seq<Step>)
    requires LegalSteps(Boot(), run)
    requires var s := RunTo(Boot(), run);
      && s.todo == [] && s.state.S_ESTABLISHED? && !s.tm.task.Posting? && !TimeoutQueued(s.mailbox)
      && LegalSteps(s, later) && CalmRun(s, later)
      && RunTo(s, later).tm.log.clock > s.tm.log.clock + 10_000_000
    ensures var s := RunTo(Boot(), run); TimedOut(s, RunTo(s, later))
  {
    hide RunTo, LegalSteps, Boot, CalmRun, TimeoutQueued, Inv, TimedOut, KeyIs;
    var s := RunTo(Boot(), run);
    HeartbeatDue(run);
    EveryReachable(run);
    BootEvent();
    RunEvent(Boot(), run);
    IdleBetween(s);
    var e := s.tm.log.agenda[0];
    assert s.tm.log.agenda == [e];
    SilenceFrom(s, later, e);
  }

  lemma BootEvent()
    ensures Boot().event != E_OFP_TIMEOUT
  {
    hide RowFor, TABLE, Init;
  }

  lemma IdleBetween(s: Agent)
    requires Inv(s) && s.todo == []
    ensures s.tm.app.AppIdle?
  {
    hide Timely, OnlyQueries, Alive, Near, Faithful, RowOrder;
  }

  // ---------- no timeout too soon ----------

  /** The last section of a start leaves one timer, the port's, due ten seconds from now. */
  lemma StartArms(s: Agent, slot: nat)
    requires Inv(s) && s.todo != [] && s.todo[0].A_start_timer? && s.tm.app.Holding?
    ensures var g, g' := s.tm.log, WorkStep(s, slot).tm.log;
      && |g'.agenda| == 1 && KeyIs(g'.agenda[0], (1, 6)) && g'.agenda[0].due == g.clock + 10_000_000
      && g'.clock == g.clock && g'.posted == g.posted
  {
    hide Inv, Next, StepTo, WorkStep;
    WorkLinks(s, slot);
    var s' := s.(tm := Next(s.tm, StartLink), todo := s.todo[1..]);
    InvParts(s);
    StartLinkInv(s);
    AtMostOne(s');
    InvStored(s');
    LinkedAlone(s.tm, s.tm.app.slot, s'.tm);
  }

  lemma WorkLinks(s: Agent, slot: nat)
    requires s.todo != [] && s.todo[0].A_start_timer? && s.tm.app.Holding?
    ensures WorkStep(s, slot) == s.(tm := Next(s.tm, StartLink), todo := s.todo[1..])
  {
    hide Next;
  }

  lemma InvStored(s: Agent)
    requires Inv(s)
    ensures OnTime(s.tm) && Stored(s.tm)
  {
    hide Deltas, Chain, QueryKeys, Near, Alive, OnlyQueries, RowOrder, Faithful;
    assert Timely(s.tm);
  }

  lemma LinkedAlone(s: State, slot: nat, s': State)
    requires s.app == Holding(slot, QUERY) && s' == Next(s, StartLink) && Stored(s') && |s'.list| <= 1
    ensures s'.log.agenda == [Entry(slot, QUERY.que, PORT, 6, s.log.clock + INTERVAL)]
    ensures s'.log.clock == s.log.clock && s'.log.posted == s.log.posted
  {
    var e := Entry(slot, QUERY.que, PORT, 6, s.log.clock + INTERVAL);
    DeltasLength(s'.log.agenda, s'.log.clock);
    assert s'.log.agenda == Schedule(s.log.agenda, e);
    assert Schedule(s.log.agenda, e)[DueCount(s.log.agenda, e.due)] == e;
    hide LinkNode, Deltas, Chain, Schedule;
  }

  /** The controller is not lost. */
  ghost predicate Attended(s: Agent, run: seq<Step>)
    decreases |run|
  {
    run == [] || (
      (run[0].Receive? && s.mailbox != [] ==> s.mailbox[0] != DrvMail(CpFail)) &&
      Attended(StepTo(s, run[0]), run[1..]))
  }

  /** Before clock t nothing more is posted, and no timer is due. */
  ghost predicate QuietUntil(g: Log, t: nat, posted: seq<(Entry, nat)>) {
    g.clock >= t || (g.posted == posted && forall e | e in g.agenda :: e.due >= t)
  }

  lemma LogQuiet(s: State, a: Action, t: nat, posted: seq<(Entry, nat)>)
    requires Stored(s) && Enabled(s, a) && QuietUntil(s.log, t, posted) && t <= s.log.clock + INTERVAL
    requires !a.StopAll? && (a.StartLink? ==> s.app.r == QUERY)
    ensures QuietUntil(Next(s, a).log, t, posted) && s.log.clock <= Next(s, a).log.clock
  {
    hide LinkNode, StopNode, StopNodes, ChargeNode, Freed, Deltas, Chain;
    match a
    case StartStop(r) => StopMembers(s.log.agenda, r.ccb, r.event); hide Stop;
    case StopOne(ccb, event) => StopMembers(s.log.agenda, ccb, event); hide Stop;
    case StartLink =>
      ScheduleMembers(s.log.agenda, Entry(s.app.slot, QUERY.que, PORT, ToU8(QUERY.event), s.log.clock + INTERVAL));
      hide Schedule;
    case Pop => PopStepStored(s, s.task.rest);
    case _ =>
  }

  lemma StepQuiet(s: Agent, step: Step, t: nat, posted: seq<(Entry, nat)>)
    requires Inv(s) && CanStep(s, step) && Attended(s, [step])
    requires QuietUntil(s.tm.log, t, posted) && t <= s.tm.log.clock + INTERVAL
    ensures var g := StepTo(s, step).tm.log; QuietUntil(g, t, posted) && s.tm.log.clock <= g.clock
  {
    hide Inv, QuietUntil, Next, Stored, OnTime, HandleMail, WorkStep;
    InvStored(s);
    InvParts(s);
    match step
    case Task(a) => LogQuiet(s.tm, a, t, posted);
    case Arrive(m) =>
    case Receive(ifaddrs) => ReceiveKeepsTimers(s.(mailbox := s.mailbox[1..]), s.mailbox[0], ifaddrs);
    case Work(slot) => WorkQuiet(s, slot, t, posted);
  }

  lemma WorkQuiet(s: Agent, slot: nat, t: nat, posted: seq<(Entry, nat)>)
    requires Stored(s.tm) && CanStep(s, Work(slot)) && (s.todo[0].A_stop_query_tmr? ==> s.tm.app.AppIdle?)
    requires !s.tm.app.AppIdle? ==> s.tm.app.r == QUERY
    requires QuietUntil(s.tm.log, t, posted) && t <= s.tm.log.clock + INTERVAL
    ensures var g := WorkStep(s, slot).tm.log; QuietUntil(g, t, posted) && s.tm.log.clock <= g.clock
  {
    hide QuietUntil, Next, Stored, Act;
    if s.todo[0].A_start_timer? {
      match s.tm.app
      case AppIdle => LogQuiet(s.tm, StartStop(QUERY), t, posted);
      case Stopped(_) => LogQuiet(s.tm, if s.tm.idle != {} then StartMalloc(slot) else StartFail, t, posted);
      case Holding(_, _) => LogQuiet(s.tm, StartLink, t, posted);
    } else if s.todo[0].A_stop_query_tmr? {
      LogQuiet(s.tm, StopOne(PORT, E_OFP_TIMEOUT), t, posted);
    }
  }

  lemma {:induction false} RunQuiet(s: Agent, run: seq<Step>, t: nat, posted: seq<(Entry, nat)>)
    requires Inv(s) && LegalSteps(s, run) && Attended(s, run)
    requires QuietUntil(s.tm.log, t, posted) && t <= s.tm.log.clock + INTERVAL
    ensures QuietUntil(RunTo(s, run).tm.log, t, posted)
    decreases |run|
  {
    hide Inv, StepTo, CanStep, QuietUntil;
    if run != [] {
      assert Attended(s, [run[0]]);
      StepInv(s, run[0]);
      StepQuiet(s, run[0], t, posted);
      RunQuiet(StepTo(s, run[0]), run[1..], t, posted);
    }
  }

  /** In any run: from the moment a start is done, as it is for every echo reply, every
      timeout and on establishment, no timeout is posted for ten seconds of charged time,
      whatever happens while the controller is there. */
  lemma {:induction false} NoTimeoutBefore(run: seq<Step>, slot: nat, later: seq<Step>)
    requires LegalSteps(Boot(), run)
    requires var s := RunTo(Boot(), run);
      && s.todo != [] && s.todo[0].A_start_timer? && s.tm.app.Holding?
      && LegalSteps(StepTo(s, Work(slot)), later) && Attended(StepTo(s, Work(slot)), later)
    ensures var s := RunTo(Boot(), run);
      var g := RunTo(StepTo(s, Work(slot)), later).tm.log;
      g.clock < s.tm.log.clock + 10_000_000 ==> g.posted == s.tm.log.posted
  {
    var s := RunTo(Boot(), run);
    EveryReachable(run);
    hide RunTo, LegalSteps, Boot, Inv, Attended, WorkStep, QuietUntil, CanStep;
    QuietStart(s, slot);
    assert CanStep(s, Work(slot)) by { CanLink(s, slot); }
    StepInv(s, Work(slot));
    RunQuiet(StepTo(s, Work(slot)), later, s.tm.log.clock + 10_000_000, s.tm.log.posted);
    QuietMeans(RunTo(StepTo(s, Work(slot)), later).tm.log, s.tm.log.clock + 10_000_000, s.tm.log.posted);
  }

  lemma CanLink(s: Agent, slot: nat)
    requires s.todo != [] && s.tm.app.Holding?
    ensures CanStep(s, Work(slot))
  {
  }

  lemma QuietMeans(g: Log, t: nat, posted: seq<(Entry, nat)>)
    requires QuietUntil(g, t, posted)
    ensures g.clock < t ==> g.posted == posted
  {
  }

  lemma QuietStart(s: Agent, slot: nat)
    requires Inv(s) && s.todo != [] && s.todo[0].A_start_timer? && s.tm.app.Holding?
    ensures var g := WorkStep(s, slot).tm.log; var t := s.tm.log.clock + 10_000_000;
      QuietUntil(g, t, s.tm.log.posted) && t <= g.clock + INTERVAL
  {
    hide Inv, WorkStep;
    StartArms(s, slot);
  }
}
