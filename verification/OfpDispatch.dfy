/** src/ofpd.c and src/ofp_codec.c: what the agent does with each mail, by what the mail is:
    the OpenFlow type on the wire, a frame from a host, a lost connection, a timeout. */
module OfpDispatch {
  import opened Words
  import opened Wrappers
  import opened TimerAgenda
  import opened TimerTask
  import opened TimerRuns
  import opened OfpFsm
  import opened OfpAgent

  /** What the port will show once the handlers in hand have run. */
  function Settled(s: Agent): View {
    ActAll(ViewOf(s), s.todo, s.ifaddrs)
  }

  /** Hello, echo reply, features request, packet-out, flow-mod, multipart request
      (section A.1 of the OpenFlow Switch Specification 1.3). */
  predicate Known(ofpt: U8) {
    ofpt == 0 || ofpt == 3 || ofpt == 5 || ofpt == 13 || ofpt == 14 || ofpt == 18
  }

  /** The mail at the front, with no handlers left of the event before. */
  ghost predicate Takes(s: Agent, m: Mail) {
    s.todo == [] && s.mailbox != [] && s.mailbox[0] == m
  }

  // ---------- events ----------

  /** An event shows what the table says, and leaves handlers of the timer in hand in three
      rows only. */
  lemma DispatchSettles(s: Agent, event: U16, ifaddrs: bool)
    requires s.todo == []
    ensures var s' := Dispatch(s, event, ifaddrs);
      && Settled(s') == React(ViewOf(s), Input(event, ifaddrs))
      && s'.tm == s.tm && s'.mailbox == s.mailbox && s'.event == s.event
      && (A_start_timer in s'.todo <==>
            (s.state.S_FEATURE_WAIT? && event == E_FEATURE_REQUEST)
            || (s.state.S_ESTABLISHED? && (event == E_ECHO_REPLY || event == E_OFP_TIMEOUT)))
      && (A_stop_query_tmr in s'.todo <==> s.state.S_ESTABLISHED? && event == E_ECHO_REPLY)
  {
    RowIs(s.state, event);
    hide RowFor;
    assert |TABLE| == 10;
    assert A_start_timer in TABLE[2].hdl by { assert TABLE[2].hdl[2] == A_start_timer; }
    assert A_start_timer in TABLE[5].hdl by { assert TABLE[5].hdl[2] == A_start_timer; }
    assert A_start_timer in TABLE[6].hdl by { assert TABLE[6].hdl[2] == A_start_timer; }
    assert A_stop_query_tmr in TABLE[5].hdl by { assert TABLE[5].hdl[0] == A_stop_query_tmr; }
    hide ActAll;
    ActFirst(ViewOf(s), A_send_hello, [], ifaddrs);
  }

  /** A mail that OFP_decode_frame knows. */
  predicate KnownMail(m: DrvMsg) {
    m.FromHost? || (m.Controller? && Known(m.ofpt))
  }

  lemma TakenIs(s: Agent, m: DrvMsg, ifaddrs: bool)
    requires Takes(s, DrvMail(m)) && (m.FromHost? || m.Controller?)
    ensures var event := DecodeEvent(s.event, m);
      StepTo(s, Receive(ifaddrs)) == Dispatch(s.(mailbox := s.mailbox[1..], event := event), event, ifaddrs)
  {
    hide Dispatch, DecodeEvent, Restart, TaskStep, WorkStep;
  }

  lemma TimeoutIs(s: Agent, prim: Prim, ifaddrs: bool)
    requires Takes(s, TmrMail(prim)) && IsQuery(prim)
    ensures StepTo(s, Receive(ifaddrs)) == Dispatch(s.(mailbox := s.mailbox[1..]), E_OFP_TIMEOUT, ifaddrs)
  {
    hide Dispatch;
  }

  lemma LossIs(s: Agent, ifaddrs: bool)
    requires Takes(s, DrvMail(CpFail))
    ensures StepTo(s, Receive(ifaddrs)) ==
      Dispatch(Agent(Init(), S_CLOSED, 1, s.event, [], false, s.mailbox[1..], [], []), E_START, false)
  {
    hide Dispatch, Init;
  }

  /** What each OpenFlow message shows and does to the query timer; in every other state a
      message of these types changes nothing. */
  lemma TakesMessage(s: Agent, ofpt: U8, setField: bool, ifaddrs: bool)
    requires Takes(s, DrvMail(Controller(ofpt, setField))) && Known(ofpt)
    ensures var v, s' := ViewOf(s), StepTo(s, Receive(ifaddrs));
      && Settled(s') == (
           match v.state
           case S_HELLO_WAIT => if ofpt == 0 then v.(state := S_FEATURE_WAIT) else v
           case S_FEATURE_WAIT =>
             if ofpt == 5 then v.(state := S_ESTABLISHED, out := v.out + [FeatureReply] + [EchoRequest]) else v
           case S_ESTABLISHED =>
             if ofpt == 18 && ifaddrs then v.(out := v.out + [MultipartReply])
             else if ofpt == 3 then v.(queryCnt := 1)
             else if ofpt == 14 && setField then v.(out := v.out + [ToHost])
             else v
           case _ => v)
      && (A_start_timer in s'.todo <==>
            (v.state.S_FEATURE_WAIT? && ofpt == 5) || (v.state.S_ESTABLISHED? && ofpt == 3))
      && (A_stop_query_tmr in s'.todo <==> v.state.S_ESTABLISHED? && ofpt == 3)
      && s'.tm == s.tm && s'.mailbox == s.mailbox[1..]
  {
    hide Dispatch, StepTo, React, Settled, TABLE, RowFor;
    TakenIs(s, Controller(ofpt, setField), ifaddrs);
    var event := DecodeEvent(s.event, Controller(ofpt, setField));
    var t := s.(mailbox := s.mailbox[1..], event := event);
    DispatchSettles(t, event, ifaddrs);
    Reactions(ViewOf(s), Input(event, ifaddrs));
  }

  /** A frame from a host goes to the controller once the session is established. */
  lemma TakesFrame(s: Agent, ifaddrs: bool)
    requires Takes(s, DrvMail(FromHost))
    ensures var v, s' := ViewOf(s), StepTo(s, Receive(ifaddrs));
      && Settled(s') == (if v.state.S_ESTABLISHED? then v.(out := v.out + [PacketIn]) else v)
      && A_start_timer !in s'.todo && A_stop_query_tmr !in s'.todo
      && s'.tm == s.tm && s'.mailbox == s.mailbox[1..]
  {
    hide Dispatch, StepTo, React, Settled, TABLE, RowFor;
    TakenIs(s, FromHost, ifaddrs);
    var t := s.(mailbox := s.mailbox[1..], event := E_PACKET_IN);
    DispatchSettles(t, E_PACKET_IN, ifaddrs);
    Reactions(ViewOf(s), Input(E_PACKET_IN, ifaddrs));
  }

  /** A timeout counts, asks again and starts the timer anew; outside an established session
      it is nothing. */
  lemma TakesTimeout(s: Agent, prim: Prim, ifaddrs: bool)
    requires Takes(s, TmrMail(prim)) && IsQuery(prim)
    ensures var v, s' := ViewOf(s), StepTo(s, Receive(ifaddrs));
      && Settled(s') == (
           if v.state.S_ESTABLISHED? then
             v.(queryCnt := if v.queryCnt == 255 then 0 else v.queryCnt + 1, out := v.out + [EchoRequest])
           else v)
      && (A_start_timer in s'.todo <==> v.state.S_ESTABLISHED?) && A_stop_query_tmr !in s'.todo
      && s'.tm == s.tm && s'.mailbox == s.mailbox[1..]
  {
    hide Dispatch, StepTo, React, Settled, TABLE, RowFor;
    TimeoutIs(s, prim, ifaddrs);
    var t := s.(mailbox := s.mailbox[1..]);
    DispatchSettles(t, E_OFP_TIMEOUT, ifaddrs);
    Reactions(ViewOf(s), Input(E_OFP_TIMEOUT, ifaddrs));
  }

  /** Losing the controller resets pool and port and says hello again; the mails waiting
      stay.  A mail that is too long is dropped. */
  lemma TakesLoss(s: Agent, m: DrvMsg, ifaddrs: bool)
    requires Takes(s, DrvMail(m)) && (m.CpFail? || m.TooLong?)
    ensures var s' := StepTo(s, Receive(ifaddrs));
      && (m.CpFail? ==> Settled(s') == View(S_HELLO_WAIT, 1, [Hello]) && s'.tm == Init()
                        && s'.event == s.event && s'.mailbox == s.mailbox[1..])
      && (m.TooLong? ==> s' == s.(mailbox := s.mailbox[1..]))
  {
    hide Dispatch, StepTo, React, Settled, TABLE, RowFor, Init;
    if m.CpFail? {
      LossIs(s, ifaddrs);
      var t := Agent(Init(), S_CLOSED, 1, s.event, [], false, s.mailbox[1..], [], []);
      DispatchSettles(t, E_START, false);
      Reactions(ViewOf(t), Input(E_START, false));
    } else {
      TooLongIs(s, ifaddrs);
    }
  }

  lemma TooLongIs(s: Agent, ifaddrs: bool)
    requires Takes(s, DrvMail(TooLong))
    ensures StepTo(s, Receive(ifaddrs)) == s.(mailbox := s.mailbox[1..])
  {
    hide Dispatch, DecodeEvent, Init;
  }

  // ---------- unknown types ----------

  lemma KnownEvent(s: Agent, m: DrvMsg, ifaddrs: bool)
    requires Takes(s, DrvMail(m)) && KnownMail(m)
    ensures StepTo(s, Receive(ifaddrs)).event == DecodeEvent(s.event, m) == DecodeEvent(0, m)
  {
    hide StepTo, Dispatch;
    var event := DecodeEvent(s.event, m);
    TakenIs(s, m, ifaddrs);
    DispatchKeepsEvent(s.(mailbox := s.mailbox[1..], event := event), event, ifaddrs);
  }

  lemma DispatchKeepsEvent(s: Agent, event: U16, ifaddrs: bool)
    ensures Dispatch(s, event, ifaddrs).event == s.event
  {
    hide RowFor, TABLE;
  }

  lemma UnknownAs(s: Agent, ofpt: U8, setField: bool, m: DrvMsg, ifaddrs: bool)
    requires Takes(s, DrvMail(Controller(ofpt, setField))) && !Known(ofpt)
    requires KnownMail(m) && s.event == DecodeEvent(0, m)
    ensures StepTo(s, Receive(ifaddrs)) == StepTo(s.(mailbox := [DrvMail(m)] + s.mailbox[1..]), Receive(ifaddrs))
  {
    hide StepTo, Dispatch;
    var u := s.(mailbox := [DrvMail(m)] + s.mailbox[1..]);
    assert u.mailbox[1..] == s.mailbox[1..];
    TakenIs(s, Controller(ofpt, setField), ifaddrs);
    TakenIs(u, m, ifaddrs);
    assert DecodeEvent(s.event, m) == s.event;
    assert u.(mailbox := u.mailbox[1..], event := s.event) == s.(mailbox := s.mailbox[1..], event := s.event);
  }

  /** A message of an unknown type is handled as the last mail that was known. */
  lemma UnknownRepeats(s: Agent, m: DrvMsg, i: bool, t: Agent, ofpt: U8, setField: bool, ifaddrs: bool)
    requires Takes(s, DrvMail(m)) && KnownMail(m)
    requires Takes(t, DrvMail(Controller(ofpt, setField))) && !Known(ofpt)
    requires t.event == StepTo(s, Receive(i)).event
    ensures StepTo(t, Receive(ifaddrs)) == StepTo(t.(mailbox := [DrvMail(m)] + t.mailbox[1..]), Receive(ifaddrs))
  {
    hide StepTo, DecodeEvent;
    KnownEvent(s, m, i);
    UnknownAs(t, ofpt, setField, m, ifaddrs);
  }

  /** No other step changes which mail that was. */
  lemma EventKept(s: Agent, e: Step)
    requires e.Receive? && s.mailbox != [] && s.mailbox[0].DrvMail? ==> !KnownMail(s.mailbox[0].msg)
    ensures StepTo(s, e).event == s.event
  {
    hide RowFor, TABLE, Init, Next, Act;
  }

  /** And when there was none yet, it is ignored. */
  lemma UnknownIgnored(s: Agent, ofpt: U8, setField: bool, ifaddrs: bool)
    requires Takes(s, DrvMail(Controller(ofpt, setField))) && !Known(ofpt)
    requires s.event == Boot().event && s.state != S_CLOSED
    ensures var s' := StepTo(s, Receive(ifaddrs)); ViewOf(s') == ViewOf(s) && s'.todo == [] && s'.tm == s.tm
  {
    hide Init, RowFor;
    assert Boot().event == E_START;
    RowIs(s.state, E_START);
    assert |TABLE| == 10;
  }

  // ---------- whole runs ----------

  /** What a port shows after a mail that is known. */
  function Shown(v: View, m: DrvMsg, ifaddrs: bool): View
    requires KnownMail(m)
  {
    match v.state
    case S_HELLO_WAIT => if m.Controller? && m.ofpt == 0 then v.(state := S_FEATURE_WAIT) else v
    case S_FEATURE_WAIT =>
      if m.Controller? && m.ofpt == 5 then
        v.(state := S_ESTABLISHED, out := v.out + [FeatureReply] + [EchoRequest])
      else v
    case S_ESTABLISHED =>
      if m.FromHost? then v.(out := v.out + [PacketIn])
      else if m.ofpt == 3 then v.(queryCnt := 1)
      else if m.ofpt == 18 && ifaddrs then v.(out := v.out + [MultipartReply])
      else if m.ofpt == 14 && m.setField then v.(out := v.out + [ToHost])
      else v
    case _ => v
  }

  /** What is shown, and the last mail that was known. */
  datatype Session = Session(view: View, last: Option<DrvMsg>)

  ghost predicate Proper(p: Session) {
    p.last.Some? ==> KnownMail(p.last.value)
  }

  function Play(p: Session, m: Mail, ifaddrs: bool): (p': Session)
    requires Proper(p)
    ensures Proper(p')
  {
    match m
    case TmrMail(_) =>
      if p.view.state.S_ESTABLISHED? then
        var n := if p.view.queryCnt == 255 then 0 else p.view.queryCnt + 1;
        p.(view := p.view.(queryCnt := n, out := p.view.out + [EchoRequest]))
      else p
    case DrvMail(msg) =>
      if msg.CpFail? then p.(view := View(S_HELLO_WAIT, 1, [Hello]))
      else if KnownMail(msg) then Session(Shown(p.view, msg, ifaddrs), Some(msg))
      else if msg.Controller? && p.last.Some? then p.(view := Shown(p.view, p.last.value, ifaddrs))
      else p
  }

  /** The mails a run takes, one after the other, without timers, handlers or interleaving. */
  function Plays(s: Agent, run: seq<Step>, p: Session): Session
    requires Proper(p)
    decreases |run|
  {
    if run == [] then p
    else
      var e := run[0];
      var p' := if e.Receive? && s.mailbox != [] then Play(p, s.mailbox[0], e.ifaddrs) else p;
      Plays(StepTo(s, e), run[1..], p')
  }

  /** The agent shows what the mails so far call for, once the handlers in hand have run. */
  ghost predicate Agrees(s: Agent, p: Session) {
    && Proper(p) && Settled(s) == p.view && p.view.state != S_CLOSED
    && s.event == if p.last.Some? then DecodeEvent(0, p.last.value) else 0
  }

  lemma ShowsNothing(v: View, h: Handler, ifaddrs: bool)
    requires TimerHandler(h)
    ensures Act(v, h, ifaddrs) == v
  {
  }

  /** Handlers only do what was in hand. */
  lemma WorkSettles(s: Agent, slot: nat)
    requires CanStep(s, Work(slot))
    ensures var s' := WorkStep(s, slot); Settled(s') == Settled(s) && s'.event == s.event
  {
    hide Next, Act, ActAll;
    ActFirst(ViewOf(s), s.todo[0], s.todo[1..], s.ifaddrs);
    assert s.todo == [s.todo[0]] + s.todo[1..];
    if TimerHandler(s.todo[0]) {
      ShowsNothing(ViewOf(s), s.todo[0], s.ifaddrs);
    } else {
      ActKeepsState(ViewOf(s), s.todo[0], s.ifaddrs);
    }
  }

  lemma ActKeepsState(v: View, h: Handler, ifaddrs: bool)
    ensures Act(v, h, ifaddrs).state == v.state
  {
  }

  lemma KnownAgrees(s: Agent, m: DrvMsg, ifaddrs: bool)
    requires Takes(s, DrvMail(m)) && KnownMail(m)
    ensures Settled(StepTo(s, Receive(ifaddrs))) == Shown(ViewOf(s), m, ifaddrs)
    ensures StepTo(s, Receive(ifaddrs)).event == DecodeEvent(s.event, m) == DecodeEvent(0, m)
  {
    hide StepTo, Settled;
    if m.FromHost? {
      TakesFrame(s, ifaddrs);
    } else {
      TakesMessage(s, m.ofpt, m.setField, ifaddrs);
    }
    KnownEvent(s, m, ifaddrs);
  }

  lemma MessageAgrees(s: Agent, m: DrvMsg, p: Session, ifaddrs: bool)
    requires Agrees(s, p) && Takes(s, DrvMail(m))
    ensures Agrees(StepTo(s, Receive(ifaddrs)), Play(p, DrvMail(m), ifaddrs))
  {
    assert ViewOf(s) == p.view;
    hide StepTo, Settled, DecodeEvent, Shown, Boot;
    if KnownMail(m) {
      KnownAgrees(s, m, ifaddrs);
      ShownOpen(p.view, m, ifaddrs);
    } else if !m.Controller? {
      TakesLoss(s, m, ifaddrs);
      if m.TooLong? {
        TooLongSettles(s, ifaddrs);
      }
    } else if p.last.None? {
      assert Boot().event == 0 by { BootEventIs(); }
      UnknownIgnored(s, m.ofpt, m.setField, ifaddrs);
      EventKept(s, Receive(ifaddrs));
      NothingInHand(StepTo(s, Receive(ifaddrs)));
    } else {
      UnknownShown(s, m.ofpt, m.setField, p.last.value, ifaddrs);
      ShownOpen(p.view, p.last.value, ifaddrs);
    }
  }

  lemma UnknownShown(s: Agent, ofpt: U8, setField: bool, m: DrvMsg, ifaddrs: bool)
    requires Takes(s, DrvMail(Controller(ofpt, setField))) && !Known(ofpt)
    requires KnownMail(m) && s.event == DecodeEvent(0, m)
    ensures Settled(StepTo(s, Receive(ifaddrs))) == Shown(ViewOf(s), m, ifaddrs)
    ensures StepTo(s, Receive(ifaddrs)).event == s.event
  {
    hide StepTo, Settled, DecodeEvent, Shown, Known;
    var u := s.(mailbox := [DrvMail(m)] + s.mailbox[1..]);
    UnknownAs(s, ofpt, setField, m, ifaddrs);
    KnownAgrees(u, m, ifaddrs);
  }

  lemma TooLongSettles(s: Agent, ifaddrs: bool)
    requires Takes(s, DrvMail(TooLong))
    ensures var s' := StepTo(s, Receive(ifaddrs)); s'.event == s.event && Settled(s') == Settled(s)
  {
    hide StepTo, ActAll;
    TooLongIs(s, ifaddrs);
  }

  lemma NothingInHand(s: Agent)
    requires s.todo == []
    ensures Settled(s) == ViewOf(s)
  {
  }

  lemma BootEventIs()
    ensures Boot().event == 0
  {
    hide RowFor, TABLE, Init;
  }

  lemma ShownOpen(v: View, m: DrvMsg, ifaddrs: bool)
    requires KnownMail(m) && v.state != S_CLOSED
    ensures Shown(v, m, ifaddrs).state != S_CLOSED
  {
  }

  lemma StepAgrees(s: Agent, e: Step, p: Session)
    requires Inv(s) && CanStep(s, e) && Agrees(s, p)
    ensures Agrees(StepTo(s, e), if e.Receive? then Play(p, s.mailbox[0], e.ifaddrs) else p)
  {
    match e
    case Task(a) => hide Next, ActAll, Inv;
    case Arrive(m) => hide ActAll, Inv;
    case Work(slot) => hide WorkStep, Settled, Inv; WorkSettles(s, slot);
    case Receive(ifaddrs) =>
      if s.mailbox[0].DrvMail? {
        hide Inv, StepTo, Settled;
        MessageAgrees(s, s.mailbox[0].msg, p, ifaddrs);
      } else {
        TimeoutAgrees(s, p, ifaddrs);
      }
  }

  lemma TimeoutAgrees(s: Agent, p: Session, ifaddrs: bool)
    requires Inv(s) && Agrees(s, p) && s.todo == [] && s.mailbox != [] && s.mailbox[0].TmrMail?
    ensures Agrees(StepTo(s, Receive(ifaddrs)), Play(p, s.mailbox[0], ifaddrs))
  {
    assert OnlyQueries(s) && ViewOf(s) == p.view;
    hide Inv, StepTo, Settled, QueryKeys, Timely;
    TakesTimeout(s, s.mailbox[0].prim, ifaddrs);
    EventKept(s, Receive(ifaddrs));
  }

  lemma {:induction false} RunAgrees(s: Agent, run: seq<Step>, p: Session)
    requires Inv(s) && LegalSteps(s, run) && Agrees(s, p)
    ensures Agrees(RunTo(s, run), Plays(s, run, p))
    decreases |run|
  {
    hide Inv, Agrees, StepTo, CanStep, Play, Proper;
    if run != [] {
      AgreesProper(s, p);
      StepInv(s, run[0]);
      StepAgrees(s, run[0], p);
      CanTake(s, run[0]);
      var p' := if run[0].Receive? then Play(p, s.mailbox[0], run[0].ifaddrs) else p;
      AgreesProper(StepTo(s, run[0]), p');
      RunAgrees(StepTo(s, run[0]), run[1..], p');
    }
  }

  lemma AgreesProper(s: Agent, p: Session)
    requires Agrees(s, p)
    ensures Proper(p)
  {
  }

  lemma CanTake(s: Agent, e: Step)
    requires CanStep(s, e)
    ensures e.Receive? ==> s.mailbox != []
  {
  }

  lemma BootAgrees()
    ensures Inv(Boot()) && Agrees(Boot(), GREETED)
  {
    hide Boot, Dispatch, React, Settled, TABLE, RowFor, Init, Inv;
    RestartInv(0, []);
    BootIs();
    var t := Agent(Init(), S_CLOSED, 1, 0, [], false, [], [], []);
    DispatchSettles(t, E_START, false);
    Reactions(ViewOf(t), Input(E_START, false));
  }

  lemma BootIs()
    ensures Boot() == Restart(0, [])
    ensures Boot() == Dispatch(Agent(Init(), S_CLOSED, 1, 0, [], false, [], [], []), E_START, false)
  {
    hide Dispatch, Init;
  }

  const GREETED := Session(View(S_HELLO_WAIT, 1, [Hello]), None)

  /** However handlers, timer sections and messages interleave, between events the port shows
      what taking the same mails one after the other calls for, by what each mail is. */
  lemma {:induction false} ShowsMails(run: seq<Step>)
    requires LegalSteps(Boot(), run) && RunTo(Boot(), run).todo == []
    ensures ViewOf(RunTo(Boot(), run)) == Plays(Boot(), run, GREETED).view
  {
    hide RunTo, LegalSteps, Boot, Inv, Plays, Settled;
    BootAgrees();
    RunAgrees(Boot(), run, GREETED);
    NothingInHand(RunTo(Boot(), run));
  }
}
