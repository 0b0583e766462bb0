/** Interleavings of the critical sections of lib/com_util/os_timer.c: one application
    process that starts and stops timers, and the timer task.  The list is the one in
    shared memory, with relative timeleft values and U32 arithmetic. */
module TimerTask {
  import opened Words
  import opened TimerAgenda
  import opened TimerCells

  /** A linked cell, in list order. */
  datatype Node = Node(slot: nat, que: int, ccb: nat, event: U8, timeleft: U32)

  datatype Request = Request(que: int, ccb: nat, delay: U32, event: U16)

  /** How far OSTMR_StartTmr has got: before it, after its StopXtmr section, after its
      MallocTmrCb section with a slot in hand. */
  datatype AppPc = AppIdle | Stopped(r: Request) | Holding(slot: nat, r: Request)

  /** Where os_tmr stands: before it reads the clock, in the pop loop, between releasing the
      semaphore and posting, or about to charge the rest. */
  datatype TaskPc = Waiting | Popping(rest: nat) | Posting(prim: Prim, rest: nat) | Charging(rest: nat)

  /** History that no step reads: the charged clock, the total charged by ticks begun, the
      running timers with absolute deadlines, and every timer ever linked, posted (with the
      clock at its pop) or cancelled. */
  datatype Log = Log(clock: nat, charged: nat, agenda: seq<Entry>,
                     linked: multiset<Entry>, posted: seq<(Entry, nat)>, cancelled: multiset<Entry>)

  datatype State = State(list: seq<Node>, idle: set<nat>, app: AppPc, task: TaskPc, log: Log)

  datatype Action =
    | StartStop(r: Request)
    | StartMalloc(slot: nat)
    | StartFail
    | StartLink
    | StopOne(ccb: nat, event: U16)
    | StopAll(ccb: nat)
    | Wake(elapsed: int)
    | Pop
    | Post
    | Charge

  // ---------- the list operations ----------

  /** The insertion scan and link of OSTMR_StartTmr (lib/com_util/os_timer.c:412-444). */
  function LinkNode(l: seq<Node>, n: Node): seq<Node> {
    if l == [] then [n]
    else if n.timeleft < l[0].timeleft then
      [n, l[0].(timeleft := ToU32(l[0].timeleft - n.timeleft))] + l[1..]
    else
      [l[0]] + LinkNode(l[1..], n.(timeleft := ToU32(n.timeleft - l[0].timeleft)))
  }

  /** A list whose first node takes over t. */
  function Absorb(l: seq<Node>, t: U32): seq<Node> {
    if l == [] then [] else [l[0].(timeleft := ToU32(l[0].timeleft + t))] + l[1..]
  }

  function StopNode(l: seq<Node>, ccb: nat, event: int): seq<Node> {
    if l == [] then []
    else if l[0].ccb == ccb && l[0].event == event then Absorb(l[1..], l[0].timeleft)
    else [l[0]] + StopNode(l[1..], ccb, event)
  }

  function StopNodes(l: seq<Node>, ccb: nat): seq<Node>
    decreases |l|
  {
    if l == [] then []
    else if l[0].ccb == ccb then StopNodes(Absorb(l[1..], l[0].timeleft), ccb)
    else [l[0]] + StopNodes(l[1..], ccb)
  }

  function ChargeNode(l: seq<Node>, delta: nat): seq<Node> {
    if l == [] then [] else [l[0].(timeleft := ToU32(l[0].timeleft - delta))] + l[1..]
  }

  function NodeSlots(l: seq<Node>): multiset<nat> {
    if l == [] then multiset{} else multiset{l[0].slot} + NodeSlots(l[1..])
  }

  function NodeKeys(l: seq<Node>): multiset<(nat, int)> {
    if l == [] then multiset{} else multiset{(l[0].ccb, l[0].event as int)} + NodeKeys(l[1..])
  }

  /** Slots the operation removes. */
  function Freed(before: seq<Node>, after: seq<Node>): set<nat> {
    set s | s in NodeSlots(before) && s !in NodeSlots(after)
  }

  // ---------- the steps ----------

  function Init(): State {
    State([], AllSlots(), AppIdle, Waiting, Log(0, 0, [], multiset{}, [], multiset{}))
  }

  function AllSlots(): set<nat> {
    Below(MAX_TMR_CB_NUM)
  }

  ghost predicate Enabled(s: State, a: Action) {
    match a
    case StartStop(r) => s.app.AppIdle? && r.ccb != 0
    case StartMalloc(slot) => s.app.Stopped? && slot in s.idle
    case StartFail => s.app.Stopped? && s.idle == {}
    case StartLink => s.app.Holding?
    case StopOne(_, _) => s.app.AppIdle?
    case StopAll(_) => s.app.AppIdle?
    case Wake(_) => s.task.Waiting?
    case Pop => s.task.Popping?
    case Post => s.task.Posting?
    case Charge => s.task.Charging?
  }

  function LogStop(g: Log, ccb: nat, event: U16): Log {
    var n := FindKey(g.agenda, ccb, event);
    g.(agenda := Stop(g.agenda, ccb, event),
       cancelled := g.cancelled + if n < |g.agenda| then multiset{g.agenda[n]} else multiset{})
  }

  function LogStopAll(g: Log, ccb: nat): Log {
    var a := StopOwner(g.agenda, ccb);
    g.(agenda := a, cancelled := g.cancelled + (multiset(g.agenda) - multiset(a)))
  }

  function LogLink(g: Log, e: Entry): Log {
    g.(agenda := Schedule(g.agenda, e), linked := g.linked + multiset{e})
  }

  function LogPop(g: Log, clock: nat): Log {
    if g.agenda == [] then g
    else g.(clock := clock, agenda := g.agenda[1..], posted := g.posted + [(g.agenda[0], clock)])
  }

  function StopStep(s: State, ccb: nat, event: U16): State {
    var l := StopNode(s.list, ccb, event);
    s.(list := l, idle := s.idle + Freed(s.list, l), log := LogStop(s.log, ccb, event))
  }

  function LinkStep(s: State, slot: nat, r: Request): State {
    s.(list := LinkNode(s.list, Node(slot, r.que, r.ccb, ToU8(r.event), r.delay)), app := AppIdle,
       log := LogLink(s.log, Entry(slot, r.que, r.ccb, ToU8(r.event), s.log.clock + r.delay)))
  }

  function PopStep(s: State, rest: nat): State {
    if s.list == [] || s.list[0].timeleft > rest then s.(task := Charging(rest))
    else
      var n := s.list[0];
      s.(list := s.list[1..], idle := s.idle + {n.slot},
         task := Posting(Prim(n.que, n.event, n.ccb), rest - n.timeleft),
         log := LogPop(s.log, s.log.clock + n.timeleft))
  }

  function StopAllStep(s: State, ccb: nat): State {
    var l := StopNodes(s.list, ccb);
    s.(list := l, idle := s.idle + Freed(s.list, l), log := LogStopAll(s.log, ccb))
  }

  function MallocStep(s: State, slot: nat, r: Request): State {
    s.(idle := s.idle - {slot}, app := Holding(slot, r))
  }

  function WakeStep(s: State, delta: nat): State {
    s.(task := Popping(delta), log := s.log.(charged := s.log.charged + delta))
  }

  function ChargeStep(s: State, rest: nat): State {
    s.(list := ChargeNode(s.list, rest), task := Waiting, log := s.log.(clock := s.log.clock + rest))
  }

  /** The state after a step (one that is not enabled leaves it as it is). */
  function Next(s: State, a: Action): State {
    match a
    case StartStop(r) => StopStep(s, r.ccb, r.event).(app := Stopped(r))
    case StartMalloc(slot) => if s.app.Stopped? then MallocStep(s, slot, s.app.r) else s
    case StartFail => s.(app := AppIdle)
    case StartLink => if s.app.Holding? then LinkStep(s, s.app.slot, s.app.r) else s
    case StopOne(ccb, event) => StopStep(s, ccb, event)
    case StopAll(ccb) => StopAllStep(s, ccb)
    case Wake(elapsed) => WakeStep(s, ChargeOf(elapsed))
    case Pop => if s.task.Popping? then PopStep(s, s.task.rest) else s
    case Post => if s.task.Posting? then s.(task := Popping(s.task.rest)) else s
    case Charge => if s.task.Charging? then ChargeStep(s, s.task.rest) else s
  }

  /** A finite run: each action is enabled when it is taken. */
  ghost predicate Legal(s: State, run: seq<Action>)
    decreases |run|
  {
    run == [] || (Enabled(s, run[0]) && Legal(Next(s, run[0]), run[1..]))
  }

  function Run(s: State, run: seq<Action>): State
    decreases |run|
  {
    if run == [] then s else Run(Next(s, run[0]), run[1..])
  }

  // ---------- slots and keys: every run ----------

  function Held(app: AppPc): multiset<nat> {
    if app.Holding? then multiset{app.slot} else multiset{}
  }

  /** Idle, held and linked slots together are the pool, each slot once. */
  ghost predicate SlotsAccounted(s: State) {
    Partition(s.idle, Held(s.app), NodeSlots(s.list))
  }

  lemma {:induction false} Cons(n: Node, l: seq<Node>)
    ensures NodeSlots([n] + l) == multiset{n.slot} + NodeSlots(l)
    ensures NodeKeys([n] + l) == multiset{(n.ccb, n.event as int)} + NodeKeys(l)
    ensures NodeSlots([]) == multiset{} && NodeKeys([]) == multiset{}
  {
    assert ([n] + l)[1..] == l;
  }

  lemma {:induction false} Cons2(m: Node, n: Node, l: seq<Node>)
    ensures NodeSlots([m, n] + l) == multiset{m.slot} + (multiset{n.slot} + NodeSlots(l))
    ensures NodeKeys([m, n] + l) ==
      multiset{(m.ccb, m.event as int)} + (multiset{(n.ccb, n.event as int)} + NodeKeys(l))
  {
    Cons(n, l);
    Cons(m, [n] + l);
    assert [m, n] + l == [m] + ([n] + l);
    hide NodeSlots, NodeKeys;
  }

  lemma {:induction false} LinkUnfold(l: seq<Node>, n: Node)
    requires l != []
    ensures n.timeleft < l[0].timeleft ==>
      LinkNode(l, n) == [n, l[0].(timeleft := ToU32(l[0].timeleft - n.timeleft))] + l[1..]
    ensures n.timeleft >= l[0].timeleft ==>
      LinkNode(l, n) == [l[0]] + LinkNode(l[1..], n.(timeleft := ToU32(n.timeleft - l[0].timeleft)))
  {
  }

  lemma Swap<T>(x: T, y: T, s: multiset<T>)
    ensures multiset{x} + (multiset{y} + s) == multiset{y} + (multiset{x} + s)
  {
  }

  lemma {:induction false} LinkSlots(l: seq<Node>, n: Node)
    ensures NodeSlots(LinkNode(l, n)) == multiset{n.slot} + NodeSlots(l)
    ensures NodeKeys(LinkNode(l, n)) == multiset{(n.ccb, n.event as int)} + NodeKeys(l)
  {
    if l == [] {
      Cons(n, []);
    } else {
      var first, rest := l[0], l[1..];
      assert l == [first] + rest;
      Cons(first, rest);
      LinkUnfold(l, n);
      hide *;
      if n.timeleft < first.timeleft {
        Cons2(n, first.(timeleft := ToU32(first.timeleft - n.timeleft)), rest);
      } else {
        var n' := n.(timeleft := ToU32(n.timeleft - first.timeleft));
        LinkSlots(rest, n');
        Cons(first, LinkNode(rest, n'));
        Swap(n.slot, first.slot, NodeSlots(rest));
        Swap((n.ccb, n.event as int), (first.ccb, first.event as int), NodeKeys(rest));
      }
    }
  }

  lemma {:induction false} AbsorbSlots(l: seq<Node>, t: U32)
    ensures NodeSlots(Absorb(l, t)) == NodeSlots(l) && NodeKeys(Absorb(l, t)) == NodeKeys(l)
  {
  }

  lemma {:induction false} StopSlots(l: seq<Node>, ccb: nat, event: int)
    ensures NodeSlots(StopNode(l, ccb, event)) <= NodeSlots(l)
    ensures NodeKeys(StopNode(l, ccb, event)) == NodeKeys(l) - multiset{(ccb, event)}
  {
    if l != [] {
      assert l == [l[0]] + l[1..];
      Cons(l[0], l[1..]);
      if l[0].ccb == ccb && l[0].event == event {
        AbsorbSlots(l[1..], l[0].timeleft);
      } else {
        StopSlots(l[1..], ccb, event);
        Cons(l[0], StopNode(l[1..], ccb, event));
      }
      hide NodeSlots, NodeKeys;
    }
  }

  lemma {:induction false} StopAllSlots(l: seq<Node>, ccb: nat)
    ensures NodeSlots(StopNodes(l, ccb)) <= NodeSlots(l)
    ensures NodeKeys(StopNodes(l, ccb)) <= NodeKeys(l)
    decreases |l|
  {
    if l != [] {
      assert l == [l[0]] + l[1..];
      Cons(l[0], l[1..]);
      if l[0].ccb == ccb {
        AbsorbSlots(l[1..], l[0].timeleft);
        StopAllSlots(Absorb(l[1..], l[0].timeleft), ccb);
      } else {
        StopAllSlots(l[1..], ccb);
        Cons(l[0], StopNodes(l[1..], ccb));
      }
      hide NodeSlots, NodeKeys;
    }
  }

  ghost predicate Partition(idle: set<nat>, held: multiset<nat>, linked: multiset<nat>) {
    multiset(idle) + held + linked == multiset(AllSlots())
  }

  /** Freeing what an operation unlinked moves those slots, and nothing else, to idle. */
  lemma {:induction false} FreedSlots(idle: set<nat>, held: multiset<nat>, before: seq<Node>, after: seq<Node>)
    requires Partition(idle, held, NodeSlots(before)) && NodeSlots(after) <= NodeSlots(before)
    ensures Partition(idle + Freed(before, after), held, NodeSlots(after))
  {
    var x, y := NodeSlots(before), NodeSlots(after);
    var z, all := multiset(idle + Freed(before, after)), multiset(AllSlots());
    hide NodeSlots;
    forall s: nat
      ensures (z + held + y)[s] == all[s]
    {
      assert (multiset(idle) + held + x)[s] == all[s] <= 1;
    }
  }

  lemma {:induction false} IdleToHeld(idle: set<nat>, linked: multiset<nat>, slot: nat)
    requires slot in idle && Partition(idle, multiset{}, linked)
    ensures Partition(idle - {slot}, multiset{slot}, linked)
  {
    assert multiset(idle) == multiset(idle - {slot}) + multiset{slot};
  }

  lemma {:induction false} HeldToLinked(idle: set<nat>, linked: multiset<nat>, slot: nat)
    requires Partition(idle, multiset{slot}, linked)
    ensures Partition(idle, multiset{}, multiset{slot} + linked)
  {
    assert multiset(idle) + multiset{} + (multiset{slot} + linked) == multiset(idle) + multiset{slot} + linked;
  }

  lemma {:induction false} LinkedToIdle(idle: set<nat>, held: multiset<nat>, linked: multiset<nat>, slot: nat)
    requires Partition(idle, held, multiset{slot} + linked)
    ensures Partition(idle + {slot}, held, linked)
  {
    assert (multiset(idle) + held + (multiset{slot} + linked))[slot] == multiset(AllSlots())[slot] <= 1;
    assert multiset(idle + {slot}) == multiset(idle) + multiset{slot};
    assert multiset(idle) + multiset{slot} + held + linked == multiset(idle) + held + (multiset{slot} + linked);
  }

  lemma {:induction false} StopStepSlots(s: State, ccb: nat, event: U16)
    requires SlotsAccounted(s)
    ensures SlotsAccounted(StopStep(s, ccb, event))
  {
    StopSlots(s.list, ccb, event);
    FreedSlots(s.idle, Held(s.app), s.list, StopNode(s.list, ccb, event));
    hide Partition, NodeSlots, Freed;
  }

  lemma {:induction false} StopAllStepSlots(s: State, ccb: nat)
    requires SlotsAccounted(s)
    ensures SlotsAccounted(StopAllStep(s, ccb))
  {
    StopAllSlots(s.list, ccb);
    FreedSlots(s.idle, Held(s.app), s.list, StopNodes(s.list, ccb));
    hide Partition, NodeSlots, Freed;
  }

  lemma {:induction false} LinkStepSlots(s: State, slot: nat, r: Request)
    requires SlotsAccounted(s) && s.app == Holding(slot, r)
    ensures SlotsAccounted(LinkStep(s, slot, r))
  {
    LinkSlots(s.list, Node(slot, r.que, r.ccb, ToU8(r.event), r.delay));
    HeldToLinked(s.idle, NodeSlots(s.list), slot);
    hide Partition, NodeSlots;
  }

  lemma {:induction false} HeadSlot(l: seq<Node>)
    requires l != []
    ensures NodeSlots(l) == multiset{l[0].slot} + NodeSlots(l[1..])
  {
  }

  lemma {:induction false} PopStepSlots(s: State, rest: nat)
    requires SlotsAccounted(s)
    ensures SlotsAccounted(PopStep(s, rest))
  {
    hide Partition, NodeSlots, LogPop;
    if s.list != [] {
      HeadSlot(s.list);
      LinkedToIdle(s.idle, Held(s.app), NodeSlots(s.list[1..]), s.list[0].slot);
    }
    hide Held;
  }

  lemma {:induction false} ChargeSlots(l: seq<Node>, delta: nat)
    ensures NodeSlots(ChargeNode(l, delta)) == NodeSlots(l) && NodeKeys(ChargeNode(l, delta)) == NodeKeys(l)
  {
  }

  lemma {:induction false} StepSlots(s: State, a: Action)
    requires SlotsAccounted(s) && Enabled(s, a)
    ensures SlotsAccounted(Next(s, a))
  {
    hide Partition, NodeSlots, StopStep, StopAllStep, LinkStep, PopStep;
    match a
    case StartStop(r) => StopStepSlots(s, r.ccb, r.event); StopStepApp(s, r.ccb, r.event);
    case StopOne(ccb, event) => StopStepSlots(s, ccb, event);
    case StopAll(ccb) => StopAllStepSlots(s, ccb);
    case StartMalloc(slot) => IdleToHeld(s.idle, NodeSlots(s.list), slot);
    case StartLink => LinkStepSlots(s, s.app.slot, s.app.r);
    case Pop => PopStepSlots(s, s.task.rest);
    case Charge => ChargeSlots(s.list, s.task.rest);
    case StartFail =>
    case Wake(_) =>
    case Post =>
  }

  lemma {:induction false} StopStepApp(s: State, ccb: nat, event: U16)
    ensures StopStep(s, ccb, event).app == s.app && StopStep(s, ccb, event).task == s.task
  {
  }

  /** In every interleaving no slot is lost, linked twice, or both idle and in use. */
  lemma {:induction false} RunSlots(s: State, run: seq<Action>)
    requires SlotsAccounted(s) && Legal(s, run)
    ensures SlotsAccounted(Run(s, run))
    decreases |run|
  {
    if run != [] {
      StepSlots(s, run[0]);
      RunSlots(Next(s, run[0]), run[1..]);
      hide SlotsAccounted;
    }
  }
}
