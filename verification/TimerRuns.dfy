/** What every run of the timer service keeps, however its critical sections interleave. */
module TimerRuns {
  import opened Words
  import opened Seqs
  import opened TimerAgenda
  import opened TimerCells
  import opened TimerTask

  // ---------- keys ----------

  /** The events that the U8 field holds whole. */
  ghost predicate EventsFit(run: seq<Action>) {
    forall i | 0 <= i < |run| :: run[i].StartStop? ==> run[i].r.event < 256
  }

  ghost predicate DelaysFit(run: seq<Action>, d: nat) {
    forall i | 0 <= i < |run| :: run[i].StartStop? ==> run[i].r.delay >= d
  }

  /** No (owner, event) is linked twice, nor linked while a start of it is in progress. */
  ghost predicate KeysDistinct(s: State) {
    && (forall key :: NodeKeys(s.list)[key] <= 1)
    && (!s.app.AppIdle? ==> s.app.r.event < 256 && NodeKeys(s.list)[(s.app.r.ccb, s.app.r.event as int)] == 0)
  }

  lemma {:induction false} StopStepKeys(s: State, ccb: nat, event: U16)
    requires forall key :: NodeKeys(s.list)[key] <= 1
    ensures forall key :: NodeKeys(StopStep(s, ccb, event).list)[key] <= 1
    ensures NodeKeys(StopStep(s, ccb, event).list)[(ccb, event as int)] == 0
  {
    StopSlots(s.list, ccb, event);
    hide NodeKeys, StopNode;
  }

  lemma {:induction false} LinkStepKeys(s: State, slot: nat, r: Request)
    requires KeysDistinct(s) && s.app == Holding(slot, r)
    ensures KeysDistinct(LinkStep(s, slot, r))
  {
    LinkSlots(s.list, Node(slot, r.que, r.ccb, ToU8(r.event), r.delay));
    assert ToU8(r.event) == r.event;
    hide NodeKeys, LinkNode, NodeSlots, Schedule;
    AddKey(NodeKeys(s.list), (r.ccb, r.event as int));
  }

  lemma {:induction false} AddKey(keys: multiset<(nat, int)>, key: (nat, int))
    requires (forall k :: keys[k] <= 1) && keys[key] == 0
    ensures forall k :: (multiset{key} + keys)[k] <= 1
  {
  }

  lemma {:induction false} PopStepKeys(s: State, rest: nat)
    requires KeysDistinct(s)
    ensures KeysDistinct(PopStep(s, rest))
  {
    if s.list != [] {
      var n, l := s.list[0], s.list[1..];
      assert s.list == [n] + l;
      Cons(n, l);
      assert forall key :: NodeKeys(l)[key] <= NodeKeys(s.list)[key];
    }
    hide NodeKeys;
  }

  lemma {:induction false} StepKeys(s: State, a: Action)
    requires KeysDistinct(s) && Enabled(s, a) && (a.StartStop? ==> a.r.event < 256)
    ensures KeysDistinct(Next(s, a))
  {
    hide NodeKeys, StopNodes, ChargeNode, StopStep, LinkStep, PopStep;
    match a
    case StartStop(r) => StopStepKeys(s, r.ccb, r.event);
    case StopOne(ccb, event) => StopStepKeys(s, ccb, event); StopStepApp(s, ccb, event);
    case StopAll(ccb) => StopAllSlots(s.list, ccb);
    case StartLink => LinkStepKeys(s, s.app.slot, s.app.r);
    case Pop => PopStepKeys(s, s.task.rest);
    case Charge => ChargeSlots(s.list, s.task.rest);
    case StartMalloc(slot) =>
    case StartFail =>
    case Wake(_) =>
    case Post =>
  }

  // ---------- deadlines ----------

  /** Each deadline is at or after the one before it (the first, at or after base) and
      before limit. */
  ghost predicate Chain(a: seq<Entry>, base: nat, limit: nat) {
    a == [] || (base <= a[0].due < limit && Chain(a[1..], a[0].due, limit))
  }

  function NodeOf(e: Entry, base: nat): Node {
    Node(e.slot, e.que, e.ccb, e.event, ToU32(e.due - base))
  }

  /** The list that stores agenda a at clock base: each deadline relative to the one
      before. */
  function Deltas(a: seq<Entry>, base: nat): seq<Node> {
    if a == [] then [] else [NodeOf(a[0], base)] + Deltas(a[1..], a[0].due)
  }

  lemma {:induction false} ChainWeaken(a: seq<Entry>, base: nat, limit: nat, base': nat, limit': nat)
    requires Chain(a, base, limit) && base' <= base && limit <= limit'
    ensures Chain(a, base', limit')
  {
    if a != [] {
      ChainWeaken(a[1..], a[0].due, limit, a[0].due, limit');
    }
  }

  lemma {:induction false} DeltasCons(e: Entry, a: seq<Entry>, base: nat)
    ensures Deltas([e] + a, base) == [NodeOf(e, base)] + Deltas(a, e.due)
    ensures forall limit :: Chain([e] + a, base, limit) <==> base <= e.due < limit && Chain(a, e.due, limit)
  {
    assert ([e] + a)[1..] == a;
  }

  lemma {:induction false} ScheduleCons(a: seq<Entry>, e: Entry)
    ensures Schedule(a, e) ==
      if a == [] || e.due < a[0].due then [e] + a else [a[0]] + Schedule(a[1..], e)
  {
    var n := DueCount(a, e.due);
    if n > 0 {
      assert a[..n] == [a[0]] + a[1..][..n - 1] && a[n..] == a[1..][n - 1..];
    }
  }

  /** Insertion into the delta list is insertion at the requested deadline, behind equal
      deadlines, with every other deadline unchanged and no U32 wrap. */
  lemma {:induction false} LinkDeltas(a: seq<Entry>, base: nat, limit: nat, e: Entry)
    requires Chain(a, base, limit) && base <= e.due < limit <= base + 0x1_0000_0000
    ensures LinkNode(Deltas(a, base), NodeOf(e, base)) == Deltas(Schedule(a, e), base)
    ensures Chain(Schedule(a, e), base, limit)
  {
    ScheduleCons(a, e);
    hide Schedule;
    if a == [] {
      DeltasCons(e, [], base);
    } else {
      var first, rest := a[0], a[1..];
      assert a == [first] + rest;
      DeltasCons(first, rest, base);
      assert Deltas(a, base)[1..] == Deltas(rest, first.due);
      LinkUnfold(Deltas(a, base), NodeOf(e, base));
      hide Deltas, Chain, LinkNode;
      if e.due < first.due {
        DeltasCons(e, a, base);
        DeltasCons(first, rest, e.due);
      } else {
        LinkDeltas(rest, first.due, limit, e);
        DeltasCons(first, Schedule(rest, e), base);
        assert NodeOf(e, first.due) ==
          NodeOf(e, base).(timeleft := ToU32(NodeOf(e, base).timeleft - NodeOf(first, base).timeleft));
      }
    }
  }

  lemma {:induction false} AbsorbDeltas(a: seq<Entry>, base: nat, limit: nat, base': nat)
    requires Chain(a, base, limit) && base' <= base && limit <= base' + 0x1_0000_0000
    ensures Absorb(Deltas(a, base), ToU32(base - base')) == Deltas(a, base')
  {
  }

  lemma {:induction false} StopCons(a: seq<Entry>, ccb: nat, event: int)
    requires a != []
    ensures Stop(a, ccb, event) ==
      if a[0].ccb == ccb && a[0].event == event then a[1..] else [a[0]] + Stop(a[1..], ccb, event)
  {
    var n := FindKey(a, ccb, event);
    if 0 < n < |a| {
      assert Drop(a, n) == [a[0]] + Drop(a[1..], n - 1);
    }
  }

  /** Removal from the delta list keeps every other deadline. */
  lemma {:induction false} StopDeltas(a: seq<Entry>, base: nat, limit: nat, ccb: nat, event: int)
    requires Chain(a, base, limit) && limit <= base + 0x1_0000_0000
    ensures StopNode(Deltas(a, base), ccb, event) == Deltas(Stop(a, ccb, event), base)
    ensures Chain(Stop(a, ccb, event), base, limit)
  {
    if a != [] {
      StopCons(a, ccb, event);
      if a[0].ccb == ccb && a[0].event == event {
        AbsorbDeltas(a[1..], a[0].due, limit, base);
        ChainWeaken(a[1..], a[0].due, limit, base, limit);
      } else {
        StopDeltas(a[1..], a[0].due, limit, ccb, event);
        DeltasCons(a[0], Stop(a[1..], ccb, event), base);
      }
      hide Stop;
    }
  }

  lemma {:induction false} StopOwnerCons(a: seq<Entry>, ccb: nat)
    requires a != []
    ensures StopOwner(a, ccb) == (if a[0].ccb == ccb then [] else [a[0]]) + StopOwner(a[1..], ccb)
  {
    var n := |a| - 1;
    if n > 0 {
      StopOwnerCons(a[..n], ccb);
      assert a[..n][1..] == a[1..][..n - 1];
    }
  }

  lemma {:induction false} StopAllDeltas(a: seq<Entry>, base: nat, limit: nat, ccb: nat)
    requires Chain(a, base, limit) && limit <= base + 0x1_0000_0000
    ensures StopNodes(Deltas(a, base), ccb) == Deltas(StopOwner(a, ccb), base)
    ensures Chain(StopOwner(a, ccb), base, limit)
  {
    if a != [] {
      StopOwnerCons(a, ccb);
      if a[0].ccb == ccb {
        AbsorbDeltas(a[1..], a[0].due, limit, base);
        ChainWeaken(a[1..], a[0].due, limit, base, limit);
        StopAllDeltas(a[1..], base, limit, ccb);
        assert StopOwner(a, ccb) == StopOwner(a[1..], ccb);
      } else {
        StopAllDeltas(a[1..], a[0].due, limit, ccb);
        DeltasCons(a[0], StopOwner(a[1..], ccb), base);
      }
      hide StopOwner;
    }
  }

  // ---------- the state against its history ----------

  /** Charge the current tick still has to apply. */
  function Rest(task: TaskPc): nat {
    if task.Waiting? then 0 else task.rest
  }

  /** Charge that the next step of the timer task will subtract from the head. */
  function Owed(task: TaskPc): nat {
    if task.Charging? then task.rest else 0
  }

  /** The delta list stores the agenda of absolute deadlines, none of them passed over, and
      between ticks the clock shows all the time charged. */
  ghost predicate Stored(s: State) {
    var g := s.log;
    && s.list == Deltas(g.agenda, g.clock)
    && Chain(g.agenda, g.clock, g.clock + 0x1_0000_0000)
    && g.clock + Rest(s.task) == g.charged && Rest(s.task) <= SEC
  }

  /** And the head can absorb the charge that is about to be subtracted from it, now and
      after the start in progress. */
  ghost predicate OnTime(s: State) {
    && Stored(s)
    && Chain(s.log.agenda, s.log.clock + Owed(s.task), s.log.clock + 0x1_0000_0000)
    && (!s.app.AppIdle? ==> s.app.r.delay >= SEC)
  }

  /** The charge to the head does not wrap. */
  ghost predicate Absorbs(s: State, a: Action) {
    a.Charge? && s.task.Charging? && s.list != [] ==> s.list[0].timeleft >= s.task.rest
  }

  lemma {:induction false} LinkAt(s: State, slot: nat, r: Request, owed: nat)
    requires Stored(s) && s.app == Holding(slot, r) && owed <= r.delay
    requires Chain(s.log.agenda, s.log.clock + owed, s.log.clock + 0x1_0000_0000)
    ensures var g := LinkStep(s, slot, r).log;
      Chain(g.agenda, g.clock + owed, g.clock + 0x1_0000_0000)
    ensures owed == 0 ==> Stored(LinkStep(s, slot, r))
  {
    hide Deltas, Chain, LinkNode, Schedule;
    var g := s.log;
    var e := Entry(slot, r.que, r.ccb, ToU8(r.event), g.clock + r.delay);
    LinkDeltas(g.agenda, g.clock + owed, g.clock + 0x1_0000_0000, e);
    assert NodeOf(e, g.clock) == Node(slot, r.que, r.ccb, ToU8(r.event), r.delay);
  }

  lemma {:induction false} PopStepStored(s: State, rest: nat)
    requires Stored(s) && s.task == Popping(rest)
    ensures Stored(PopStep(s, rest)) && (OnTime(s) ==> OnTime(PopStep(s, rest)))
    ensures s.list != [] && s.list[0].timeleft <= rest ==>
      s.log.agenda != [] && s.log.clock + s.list[0].timeleft == s.log.agenda[0].due
      && PrimOf(s.log.agenda[0]) == Prim(s.list[0].que, s.list[0].event, s.list[0].ccb)
  {
    var g := s.log;
    if s.list != [] && s.list[0].timeleft <= rest {
      var due := g.agenda[0].due;
      assert s.list[1..] == Deltas(g.agenda[1..], due);
      ChainWeaken(g.agenda[1..], due, g.clock + 0x1_0000_0000, due, due + 0x1_0000_0000);
    }
  }

  /** The last section of a tick keeps the deadlines exactly when its subtraction does not
      wrap. */
  lemma {:induction false} ChargeStoredIff(s: State, rest: nat)
    requires Stored(s) && s.task == Charging(rest)
    ensures Stored(ChargeStep(s, rest)) <==> (s.list != [] ==> s.list[0].timeleft >= rest)
  {
    var g := s.log;
    if s.list != [] && s.list[0].timeleft >= rest {
      ChainWeaken(g.agenda[1..], g.agenda[0].due, g.clock + 0x1_0000_0000,
                  g.agenda[0].due, g.clock + rest + 0x1_0000_0000);
    }
  }

  lemma {:induction false} StopAt(s: State, ccb: nat, event: U16, owed: nat)
    requires Stored(s) && Chain(s.log.agenda, s.log.clock + owed, s.log.clock + 0x1_0000_0000)
    ensures var g := StopStep(s, ccb, event).log;
      Chain(g.agenda, g.clock + owed, g.clock + 0x1_0000_0000)
    ensures owed == 0 ==> Stored(StopStep(s, ccb, event))
  {
    hide Deltas, Chain, StopNode, Stop, Freed, FindKey;
    var g := s.log;
    StopDeltas(g.agenda, g.clock + owed, g.clock + 0x1_0000_0000, ccb, event);
  }

  lemma {:induction false} StopAllAt(s: State, ccb: nat, owed: nat)
    requires Stored(s) && Chain(s.log.agenda, s.log.clock + owed, s.log.clock + 0x1_0000_0000)
    ensures var g := StopAllStep(s, ccb).log;
      Chain(g.agenda, g.clock + owed, g.clock + 0x1_0000_0000)
    ensures owed == 0 ==> Stored(StopAllStep(s, ccb))
  {
    hide Deltas, Chain, StopNodes, StopOwner, Freed;
    var g := s.log;
    StopAllDeltas(g.agenda, g.clock + owed, g.clock + 0x1_0000_0000, ccb);
  }

  /** Any section keeps the deadlines, whatever the delays, the charge exactly when it does
      not wrap. */
  lemma {:induction false} StepStoredIff(s: State, a: Action)
    requires Stored(s) && Enabled(s, a)
    ensures Stored(Next(s, a)) <==> Absorbs(s, a)
  {
    hide Deltas, Chain, StopStep, StopAllStep, LinkStep, PopStep, ChargeStep;
    match a
    case StartStop(r) => StopAt(s, r.ccb, r.event, 0); StopStepApp(s, r.ccb, r.event);
    case StopOne(ccb, event) => StopAt(s, ccb, event, 0);
    case StopAll(ccb) => StopAllAt(s, ccb, 0);
    case StartLink => LinkAt(s, s.app.slot, s.app.r, 0);
    case Pop => PopStepStored(s, s.task.rest);
    case Charge => ChargeStoredIff(s, s.task.rest);
    case StartMalloc(slot) =>
    case StartFail =>
    case Wake(_) =>
    case Post =>
  }

  lemma {:induction false} StopOnTime(s: State, ccb: nat, event: U16)
    requires OnTime(s)
    ensures OnTime(StopStep(s, ccb, event))
  {
    StopStepApp(s, ccb, event);
    hide Deltas, Chain, StopStep;
    StopAt(s, ccb, event, 0);
    StopAt(s, ccb, event, Owed(s.task));
    hide Stored;
  }

  lemma {:induction false} StopAllOnTime(s: State, ccb: nat)
    requires OnTime(s)
    ensures OnTime(StopAllStep(s, ccb))
  {
    hide Deltas, Chain, StopNodes, Freed, LogStopAll;
    StopAllAt(s, ccb, 0);
    StopAllAt(s, ccb, Owed(s.task));
    hide Stored;
  }

  lemma {:induction false} LinkOnTime(s: State, slot: nat, r: Request)
    requires OnTime(s) && s.app == Holding(slot, r)
    ensures OnTime(LinkStep(s, slot, r))
  {
    hide Deltas, Chain, LinkNode, LogLink;
    LinkAt(s, slot, r, 0);
    LinkAt(s, slot, r, Owed(s.task));
    hide Stored;
  }

  lemma {:induction false} TaskOnTime(s: State, a: Action)
    requires OnTime(s) && Enabled(s, a) && (a.Wake? || a.Pop? || a.Post? || a.Charge?)
    ensures OnTime(Next(s, a))
  {
    OwedAbsorbs(s, a);
    StepStoredIff(s, a);
    hide Deltas, Chain, Stored, Absorbs, PopStep, ChargeNode;
    match a
    case Pop => PopStepStored(s, s.task.rest);
    case Charge => StoredChain(Next(s, a));
    case Wake(_) =>
    case Post =>
  }

  lemma {:induction false} StartStopOnTime(s: State, r: Request)
    requires OnTime(s) && s.app == AppIdle && r.delay >= SEC
    ensures OnTime(Next(s, StartStop(r)))
  {
    StopOnTime(s, r.ccb, r.event);
    StopStepApp(s, r.ccb, r.event);
    hide Deltas, Chain, StopStep;
  }

  /** With delays of at least a second no section wraps, and the next will not either. */
  lemma {:induction false} StepOnTime(s: State, a: Action)
    requires OnTime(s) && Enabled(s, a) && (a.StartStop? ==> a.r.delay >= SEC)
    ensures OnTime(Next(s, a)) && Absorbs(s, a)
  {
    OwedAbsorbs(s, a);
    hide Stored, Chain, Absorbs, StopStep, StopAllStep, LinkStep, PopStep, ChargeStep, WakeStep;
    match a
    case StartStop(r) => StartStopOnTime(s, r);
    case StopOne(ccb, event) => StopOnTime(s, ccb, event);
    case StopAll(ccb) => StopAllOnTime(s, ccb);
    case StartLink => LinkOnTime(s, s.app.slot, s.app.r);
    case StartMalloc(slot) => StepStoredIff(s, a);
    case StartFail => StepStoredIff(s, a);
    case _ => TaskOnTime(s, a);
  }

  lemma {:induction false} OwedAbsorbs(s: State, a: Action)
    requires OnTime(s)
    ensures Absorbs(s, a) && Stored(s) && Owed(s.task) <= SEC
  {
  }

  lemma {:induction false} StoredChain(s: State)
    requires Stored(s)
    ensures Chain(s.log.agenda, s.log.clock, s.log.clock + 0x1_0000_0000)
  {
  }

  // ---------- what becomes of each timer ----------

  function Fired(posted: seq<(Entry, nat)>): multiset<Entry> {
    if posted == [] then multiset{} else Fired(posted[..|posted| - 1]) + multiset{posted[|posted| - 1].0}
  }

  /** Every timer ever linked is running, was posted, or was cancelled, exactly once. */
  ghost predicate Balanced(g: Log) {
    g.linked == multiset(g.agenda) + Fired(g.posted) + g.cancelled
  }

  /** Each posting happened when the charged clock stood at the timer's deadline, and they
      happened in deadline order. */
  ghost predicate Punctual(g: Log) {
    && (forall i | 0 <= i < |g.posted| :: g.posted[i].0.due == g.posted[i].1 <= g.clock)
    && (forall i, j | 0 <= i <= j < |g.posted| :: g.posted[i].1 <= g.posted[j].1)
  }

  lemma {:induction false} DropMultiset(a: seq<Entry>, n: nat)
    requires n < |a|
    ensures multiset(a) == multiset(Drop(a, n)) + multiset{a[n]}
  {
    assert a == a[..n] + [a[n]] + a[n + 1..];
  }

  lemma {:induction false} ScheduleMultiset(a: seq<Entry>, e: Entry)
    ensures multiset(Schedule(a, e)) == multiset(a) + multiset{e}
  {
    var n := DueCount(a, e.due);
    assert a == a[..n] + a[n..];
  }

  lemma {:induction false} StopOwnerMultiset(a: seq<Entry>, ccb: nat)
    ensures multiset(StopOwner(a, ccb)) <= multiset(a)
  {
    if a != [] {
      StopOwnerMultiset(a[..|a| - 1], ccb);
      assert a == a[..|a| - 1] + [a[|a| - 1]];
    }
  }

  ghost predicate Booked(g: Log) {
    Balanced(g) && Punctual(g)
  }

  lemma {:induction false} LogStopBooked(g: Log, ccb: nat, event: U16)
    requires Booked(g)
    ensures Booked(LogStop(g, ccb, event))
  {
    StopMultiset(g.agenda, ccb, event);
    hide Stop, FindKey, Fired;
    assert Balanced(LogStop(g, ccb, event));
    hide Balanced;
  }

  lemma {:induction false} LogStopAllBooked(g: Log, ccb: nat)
    requires Booked(g)
    ensures Booked(LogStopAll(g, ccb))
  {
    StopOwnerMultiset(g.agenda, ccb);
    hide StopOwner, Fired;
    assert Balanced(LogStopAll(g, ccb));
    hide Balanced;
  }

  lemma {:induction false} LogLinkBooked(g: Log, e: Entry)
    requires Booked(g)
    ensures Booked(LogLink(g, e))
  {
    ScheduleMultiset(g.agenda, e);
    hide Schedule, Fired;
  }

  lemma {:induction false} LogPopBalanced(g: Log, clock: nat)
    requires Balanced(g) && g.agenda != []
    ensures Balanced(LogPop(g, clock))
  {
    var posted := g.posted + [(g.agenda[0], clock)];
    assert posted[..|posted| - 1] == g.posted && posted[|posted| - 1].0 == g.agenda[0];
    assert Fired(posted) == Fired(g.posted) + multiset{g.agenda[0]};
    hide Fired;
    assert g.agenda == [g.agenda[0]] + g.agenda[1..];
  }

  lemma {:induction false} LogPopBooked(g: Log, clock: nat)
    requires Booked(g) && g.agenda != [] && clock == g.agenda[0].due >= g.clock
    ensures Booked(LogPop(g, clock))
  {
    LogPopBalanced(g, clock);
    hide Balanced;
  }

  lemma {:induction false} StepBooked(s: State, a: Action)
    requires Stored(s) && Booked(s.log) && Enabled(s, a)
    ensures Booked(Next(s, a).log)
  {
    hide Stored, Booked, LogStop, LogStopAll, LogLink, LogPop, LinkNode, StopNode, StopNodes, ChargeNode, Freed;
    match a
    case StartStop(r) => LogStopBooked(s.log, r.ccb, r.event);
    case StopOne(ccb, event) => LogStopBooked(s.log, ccb, event);
    case StopAll(ccb) => LogStopAllBooked(s.log, ccb);
    case StartLink =>
      var r := s.app.r;
      LogLinkBooked(s.log, Entry(s.app.slot, r.que, r.ccb, ToU8(r.event), s.log.clock + r.delay));
    case Pop =>
      PopStepStored(s, s.task.rest);
      if s.list != [] && s.list[0].timeleft <= s.task.rest {
        PopHeadDue(s);
        LogPopBooked(s.log, s.log.clock + s.list[0].timeleft);
      }
    case Charge => ClockBooked(s.log, s.task.rest);
    case Wake(elapsed) => WakeBooked(s.log, ChargeOf(elapsed));
    case StartMalloc(slot) =>
    case StartFail =>
    case Post =>
  }

  lemma {:induction false} PopHeadDue(s: State)
    requires Stored(s) && s.log.agenda != []
    ensures s.log.agenda[0].due >= s.log.clock
  {
  }

  lemma {:induction false} ClockBooked(g: Log, rest: nat)
    requires Booked(g)
    ensures Booked(g.(clock := g.clock + rest))
  {
  }

  lemma {:induction false} WakeBooked(g: Log, delta: nat)
    requires Booked(g)
    ensures Booked(g.(charged := g.charged + delta))
  {
  }

  lemma {:induction false} StopMultiset(a: seq<Entry>, ccb: nat, event: int)
    ensures var n := FindKey(a, ccb, event);
      multiset(a) == multiset(Stop(a, ccb, event)) + if n < |a| then multiset{a[n]} else multiset{}
  {
    var n := FindKey(a, ccb, event);
    if n < |a| {
      DropMultiset(a, n);
    }
  }

  // ---------- runs ----------

  ghost predicate Sound(s: State) {
    SlotsAccounted(s) && KeysDistinct(s) && Stored(s) && Booked(s.log)
  }

  /** Sound, and safe from wrapping as long as delays are at least a second. */
  ghost predicate Timely(s: State) {
    Sound(s) && OnTime(s)
  }

  lemma {:induction false} InitTimely()
    ensures Timely(Init())
  {
  }

  lemma {:induction false} StepSound(s: State, a: Action)
    requires Sound(s) && Enabled(s, a) && Absorbs(s, a) && (a.StartStop? ==> a.r.event < 256)
    ensures Sound(Next(s, a))
  {
    hide SlotsAccounted, KeysDistinct, Stored, Booked, Next, Absorbs;
    StepSlots(s, a);
    StepKeys(s, a);
    StepStoredIff(s, a);
    StepBooked(s, a);
  }

  lemma {:induction false} StepTimely(s: State, a: Action)
    requires Timely(s) && Enabled(s, a) && (a.StartStop? ==> a.r.event < 256 && a.r.delay >= SEC)
    ensures Timely(Next(s, a))
  {
    hide Sound, OnTime, Next, Absorbs;
    StepOnTime(s, a);
    StepSound(s, a);
  }

  /** No charge in the run wraps. */
  ghost predicate NeverWraps(s: State, run: seq<Action>)
    decreases |run|
  {
    run == [] || (Absorbs(s, run[0]) && NeverWraps(Next(s, run[0]), run[1..]))
  }

  /** Every interleaving of starts, stops and ticks, with any delays: as long as no charge
      wraps, slots partition the pool, keys are unique, the list stores the deadlines, and
      every timer ever linked is running, cancelled, or was posted exactly at its deadline. */
  lemma {:induction false} EveryRunSound(s: State, run: seq<Action>)
    requires Sound(s) && Legal(s, run) && EventsFit(run) && NeverWraps(s, run)
    ensures Sound(Run(s, run))
    decreases |run|
  {
    hide Sound, Next, Absorbs;
    if run != [] {
      StepSound(s, run[0]);
      assert forall i | 0 <= i < |run[1..]| :: run[1..][i] == run[i + 1];
      EveryRunSound(Next(s, run[0]), run[1..]);
    }
  }

  /** Unique keys need no bound on delays and survive even a wrap. */
  lemma {:induction false} EveryRunKeys(s: State, run: seq<Action>)
    requires KeysDistinct(s) && Legal(s, run) && EventsFit(run)
    ensures KeysDistinct(Run(s, run))
    decreases |run|
  {
    hide KeysDistinct, Next;
    if run != [] {
      StepKeys(s, run[0]);
      assert forall i | 0 <= i < |run[1..]| :: run[1..][i] == run[i + 1];
      EveryRunKeys(Next(s, run[0]), run[1..]);
    }
  }

  /** The list stores the deadlines in every state that the run passes. */
  ghost predicate StoredThroughout(s: State, run: seq<Action>)
    decreases |run|
  {
    Stored(s) && (run == [] || StoredThroughout(Next(s, run[0]), run[1..]))
  }

  /** Whatever the delays and events, the deadlines are kept all along exactly when no
      charge wraps. */
  lemma {:induction false} NoWrapIff(s: State, run: seq<Action>)
    requires Stored(s) && Legal(s, run)
    ensures NeverWraps(s, run) <==> StoredThroughout(s, run)
    decreases |run|
  {
    hide Stored, Next, Absorbs;
    if run != [] {
      StepStoredIff(s, run[0]);
      if Stored(Next(s, run[0])) {
        NoWrapIff(Next(s, run[0]), run[1..]);
      } else {
        NotStored(Next(s, run[0]), run[1..]);
      }
    }
  }

  lemma {:induction false} NotStored(s: State, run: seq<Action>)
    requires !Stored(s)
    ensures !StoredThroughout(s, run)
  {
  }

  /** What a sound state says between ticks: the clock has caught up with all the time
      charged, and no running timer's deadline lies behind it. */
  lemma {:induction false} NothingOverdue(s: State, i: nat)
    requires Sound(s) && s.task.Waiting? && i < |s.log.agenda|
    ensures s.log.charged <= s.log.agenda[i].due < s.log.charged + 0x1_0000_0000
  {
    hide SlotsAccounted, KeysDistinct, Booked, Deltas;
    ChainAt(s.log.agenda, s.log.clock, s.log.clock + 0x1_0000_0000, i);
  }

  lemma {:induction false} ChainAt(a: seq<Entry>, base: nat, limit: nat, i: nat)
    requires Chain(a, base, limit) && i < |a|
    ensures base <= a[i].due < limit
  {
    if i > 0 {
      ChainAt(a[1..], a[0].due, limit, i - 1);
    }
  }

  /** The cells of a valid pool store exactly these nodes: a section of class TimerPool and
      the step of the same name act on the same list. */
  lemma {:induction false} CellsStoreDeltas(cells: seq<TmrCb>, hdr: int, a: seq<Entry>, held: set<nat>,
        now: nat, k: nat)
    requires Represents(cells, hdr, a, held, now) && k < |a|
    ensures |Deltas(a, now)| == |a| && a[k].slot < |cells|
    ensures var c := cells[a[k].slot];
      Deltas(a, now)[k] == Node(a[k].slot, c.que, c.ccb, c.event, c.timeleft)
  {
    CarriedAt(cells, hdr, a, held, now, k);
    DeltasAt(a, now, k);
  }

  lemma {:induction false} DeltasLength(a: seq<Entry>, base: nat)
    ensures |Deltas(a, base)| == |a|
  {
    if a != [] {
      DeltasLength(a[1..], a[0].due);
    }
  }

  lemma {:induction false} DeltasAt(a: seq<Entry>, now: nat, k: nat)
    requires k < |a|
    ensures |Deltas(a, now)| == |a| && Deltas(a, now)[k] == NodeOf(a[k], Base(a, now, k))
  {
    if |a| > 1 {
      DeltasAt(a[1..], a[0].due, if k == 0 then 0 else k - 1);
      assert k > 0 ==> Base(a[1..], a[0].due, k - 1) == Base(a, now, k);
    }
  }

  // ---------- where the delay bound is needed ----------

  lemma {:induction false} LongDelaysSafe(s: State, run: seq<Action>)
    requires OnTime(s) && Legal(s, run) && DelaysFit(run, SEC)
    ensures NeverWraps(s, run)
    decreases |run|
  {
    hide OnTime, Next, Absorbs;
    if run != [] {
      StepOnTime(s, run[0]);
      assert forall i | 0 <= i < |run[1..]| :: run[1..][i] == run[i + 1];
      LongDelaysSafe(Next(s, run[0]), run[1..]);
    }
  }

  /** The timer task reads the clock only while timers are running; with an empty list it
      is paused. */
  ghost predicate Attended(s: State, run: seq<Action>)
    decreases |run|
  {
    run == [] || ((run[0].Wake? ==> s.list != []) && Attended(Next(s, run[0]), run[1..]))
  }

  /** The run can be taken, a charge in it wraps, and it leaves t in the head. */
  ghost predicate WrapsTo(s: State, run: seq<Action>, t: int) {
    && Legal(s, run) && Attended(s, run) && !NeverWraps(s, run)
    && Run(s, run).list != [] && Run(s, run).list[0].timeleft == t
  }

  lemma {:induction false} WrapsLater(s: State, a: Action, rest: seq<Action>, t: int)
    requires Enabled(s, a) && (a.Wake? ==> s.list != []) && WrapsTo(Next(s, a), rest, t)
    ensures WrapsTo(s, [a] + rest, t)
  {
    assert ([a] + rest)[1..] == rest;
    hide Next, Enabled;
  }

  /** A timer of two seconds, and one with delay d that is started while a second of charge
      is under way and linked between the pop loop and the last section of that tick. */
  function ShortRun(d: U32): seq<Action> {
    [StartStop(LONG), StartMalloc(0), StartLink] + ([Wake(SEC), Pop, StartStop(Short(d))]
    + [StartMalloc(1), StartLink, Charge])
  }

  const LONG: Request := Request(0, 1, 2 * SEC, 6)

  function Short(d: U32): Request {
    Request(0, 1, d, 5)
  }

  lemma {:induction false} WrapsThree(s: State, a: Action, b: Action, c: Action, rest: seq<Action>, t: int)
    requires var s1 := Next(s, a); var s2 := Next(s1, b);
      && Enabled(s, a) && Enabled(s1, b) && Enabled(s2, c)
      && (a.Wake? ==> s.list != []) && !b.Wake? && !c.Wake?
      && WrapsTo(Next(s2, c), rest, t)
    ensures WrapsTo(s, [a, b, c] + rest, t)
  {
    hide WrapsTo, Next, Enabled;
    var s1 := Next(s, a);
    WrapsLater(Next(s1, b), c, rest, t);
    WrapsLater(s1, b, [c] + rest, t);
    WrapsLater(s, a, [b] + ([c] + rest), t);
    assert [a] + ([b] + ([c] + rest)) == [a, b, c] + rest;
  }

  lemma {:induction false} ShortLinks(s: State, d: U32)
    requires d < SEC && s.list == [Node(0, 0, 1, 6, 2 * SEC)] && s.task == Charging(SEC)
    requires s.app == Stopped(Short(d)) && 1 in s.idle
    ensures WrapsTo(s, [StartMalloc(1), StartLink, Charge], 0x1_0000_0000 + d - SEC)
  {
    hide LogLink;
    var s1 := Next(s, StartMalloc(1));
    var s2 := Next(s1, StartLink);
    assert s2.list == [Node(1, 0, 1, 5, d), Node(0, 0, 1, 6, 2 * SEC - d)] && s2.task == Charging(SEC);
    var s3 := Next(s2, Charge);
    assert s3.list[0].timeleft == 0x1_0000_0000 + d - SEC;
    assert !Absorbs(s2, Charge);
    hide Next, Absorbs;
    assert WrapsTo(s2, [Charge], 0x1_0000_0000 + d - SEC) by {
      assert [Charge][1..] == [];
      assert Run(s3, []) == s3 && Legal(s3, []) && Attended(s3, []);
    }
    hide WrapsTo;
    WrapsLater(s1, StartLink, [Charge], 0x1_0000_0000 + d - SEC);
    WrapsLater(s, StartMalloc(1), [StartLink] + [Charge], 0x1_0000_0000 + d - SEC);
    assert [StartMalloc(1)] + ([StartLink] + [Charge]) == [StartMalloc(1), StartLink, Charge];
  }

  lemma {:induction false} ShortStarts(s: State, d: U32)
    requires d < SEC && s.list == [Node(0, 0, 1, 6, 2 * SEC)] && s.task == Waiting
    requires s.app == AppIdle && 1 in s.idle
    ensures WrapsTo(s, [Wake(SEC), Pop, StartStop(Short(d))] + [StartMalloc(1), StartLink, Charge],
                    0x1_0000_0000 + d - SEC)
  {
    var s1 := Next(s, Wake(SEC));
    var s2 := Next(s1, Pop);
    assert s2.list == s.list && s2.task == Charging(SEC) && s2.app == AppIdle && s2.idle == s.idle;
    OtherStays(s2, Short(d));
    ShortLinks(Next(s2, StartStop(Short(d))), d);
    hide Next, WrapsTo, ChargeOf;
    WrapsThree(s, Wake(SEC), Pop, StartStop(Short(d)), [StartMalloc(1), StartLink, Charge], 0x1_0000_0000 + d - SEC);
  }

  lemma {:induction false} OtherStays(s: State, r: Request)
    requires s.list == [Node(0, 0, 1, 6, 2 * SEC)] && r.event != 6
    ensures var s' := Next(s, StartStop(r));
      s'.list == s.list && s'.idle == s.idle && s'.app == Stopped(r) && s'.task == s.task
  {
    var l := StopNode(s.list, r.ccb, r.event);
    assert StopNode(s.list[1..], r.ccb, r.event) == [];
    assert l == s.list;
    hide LogStop, StopNode;
  }

  lemma {:induction false} LongStops()
    ensures var s1 := Next(Init(), StartStop(LONG));
      && Enabled(Init(), StartStop(LONG))
      && s1.list == [] && s1.app == Stopped(LONG) && s1.task == Waiting && 0 in s1.idle && 1 in s1.idle
  {
    assert 0 in AllSlots() && 1 in AllSlots();
    hide Freed, LogStop, AllSlots;
  }

  lemma {:induction false} LongLinks(s: State)
    requires s.list == [] && s.app == Stopped(LONG) && s.task == Waiting && 0 in s.idle && 1 in s.idle
    ensures var s2 := Next(s, StartMalloc(0)); var s3 := Next(s2, StartLink);
      && Enabled(s, StartMalloc(0)) && Enabled(s2, StartLink)
      && s3.list == [Node(0, 0, 1, 6, 2 * SEC)] && s3.task == Waiting && s3.app == AppIdle && 1 in s3.idle
  {
    hide LogLink;
  }

  lemma {:induction false} ShortRunFits(d: U32)
    requires d < SEC
    ensures EventsFit(ShortRun(d)) && DelaysFit(ShortRun(d), d)
  {
  }

  /** With a delay below a second there is a run of the source in which the charge wraps and
      the head is left with more than an hour. */
  lemma {:induction false} ShortDelayWraps(d: U32)
    requires d < SEC
    ensures WrapsTo(Init(), ShortRun(d), 0x1_0000_0000 + d - SEC) && EventsFit(ShortRun(d)) && DelaysFit(ShortRun(d), d)
  {
    ShortRunFits(d);
    LongStops();
    hide Next, WrapsTo, Enabled, Init, EventsFit, DelaysFit;
    var s1 := Next(Init(), StartStop(LONG));
    LongLinks(s1);
    ShortStarts(Next(Next(s1, StartMalloc(0)), StartLink), d);
    ShortRunWraps(d);
  }

  lemma {:induction false} ShortRunWraps(d: U32)
    requires d < SEC
    requires var s1 := Next(Init(), StartStop(LONG)); var s2 := Next(s1, StartMalloc(0));
      && Enabled(Init(), StartStop(LONG)) && Enabled(s1, StartMalloc(0)) && Enabled(s2, StartLink)
      && WrapsTo(Next(s2, StartLink), [Wake(SEC), Pop, StartStop(Short(d))] + [StartMalloc(1), StartLink, Charge],
                 0x1_0000_0000 + d - SEC)
    ensures WrapsTo(Init(), ShortRun(d), 0x1_0000_0000 + d - SEC)
  {
    hide Next, WrapsTo, Enabled, Init;
    WrapsThree(Init(), StartStop(LONG), StartMalloc(0), StartLink,
      [Wake(SEC), Pop, StartStop(Short(d))] + [StartMalloc(1), StartLink, Charge], 0x1_0000_0000 + d - SEC);
  }

  /** A least delay keeps every run from wrapping exactly when it is at least a second. */
  lemma {:induction false} SafeDelayIff(d: U32)
    ensures d >= SEC <==>
      forall run | Legal(Init(), run) && Attended(Init(), run) && EventsFit(run) && DelaysFit(run, d) ::
        NeverWraps(Init(), run)
  {
    InitTimely();
    hide Init, OnTime, Attended, EventsFit, NeverWraps, Legal, Run;
    if d >= SEC {
      forall run | Legal(Init(), run) && DelaysFit(run, d)
        ensures NeverWraps(Init(), run)
      {
        LongDelaysSafe(Init(), run);
      }
    } else {
      ShortDelayWraps(d);
    }
  }
}
