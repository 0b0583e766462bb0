/** The three views of lib/com_util/os_timer.c joined: the step system acts on the map of
    deadlines, and the sections of the pool class act as its steps. */
module TimerRefinement {
  import opened Words
  import opened Seqs
  import opened TimerAgenda
  import opened TimerCells
  import opened TimerLaws
  import opened TimerTask
  import opened TimerRuns

  // ---------- the step system and the map ----------

  /** Keys of the list are keys of the map, and the map loses nothing when none is twice. */
  lemma {:induction false} DeltaKeys(a: seq<Entry>, base: nat)
    ensures forall key :: key in DeadlinesOf(a) <==> NodeKeys(Deltas(a, base))[key] >= 1
    ensures (forall key :: NodeKeys(Deltas(a, base))[key] <= 1) ==> Unique(a)
  {
    if a == [] {
      Cons(NodeOf(Entry(0, 0, 0, 0, 0), 0), []);
    } else {
      var x, rest := a[0], a[1..];
      assert a == [x] + rest;
      Append([x], rest);
      Singleton(x);
      DeltasCons(x, rest, base);
      Cons(NodeOf(x, base), Deltas(rest, x.due));
      hide DeadlinesOf, Unique, NodeKeys, Deltas;
      DeltaKeys(rest, x.due);
      if forall key :: NodeKeys(Deltas(a, base))[key] <= 1 {
        KeysOnce(KeyOf(x), NodeKeys(Deltas(rest, x.due)));
      }
    }
  }

  lemma KeysOnce(key: (nat, int), keys: multiset<(nat, int)>)
    requires forall k :: (multiset{key} + keys)[k] <= 1
    ensures keys[key] == 0 && forall k :: keys[k] <= 1
  {
    assert (multiset{key} + keys)[key] == 1 + keys[key];
    forall k
      ensures keys[k] <= 1
    {
      assert (multiset{key} + keys)[k] >= keys[k];
    }
  }

  /** In a sound state no key runs twice, nor while a start of it is in progress. */
  lemma {:induction false} SoundUnique(s: State)
    requires Sound(s)
    ensures Unique(s.log.agenda)
    ensures !s.app.AppIdle? ==>
      s.app.r.event < 256 && (s.app.r.ccb, s.app.r.event as int) !in DeadlinesOf(s.log.agenda)
  {
    DeltaKeys(s.log.agenda, s.log.clock);
    hide SlotsAccounted, Booked, NodeKeys, Deltas, Chain, DeadlinesOf, Unique;
  }

  ghost predicate Expires(m: Deadlines, m': Deadlines, key: (nat, int), due: nat) {
    && key in m && m[key] == due && (forall k | k in m :: due <= m[k])
    && m' == m - {key}
  }

  /** What an action does to the deadlines of its state. */
  ghost predicate Refines(s: State, a: Action)
    requires Enabled(s, a)
  {
    var g := s.log;
    var m, m' := DeadlinesOf(g.agenda), DeadlinesOf(Next(s, a).log.agenda);
    match a
    case StartStop(r) => m' == m - {(r.ccb, r.event as int)}
    case StopOne(ccb, event) => m' == m - {(ccb, event as int)}
    case StopAll(ccb) => m' == NotOf(m, ccb)
    case StartLink =>
      var r := s.app.r;
      (r.ccb, r.event as int) !in m && m' == m[(r.ccb, r.event as int) := g.clock + r.delay]
    case Pop =>
      if s.list != [] && s.list[0].timeleft <= s.task.rest then
        Expires(m, m', (s.list[0].ccb, s.list[0].event as int), g.clock + s.list[0].timeleft)
      else m' == m
    case _ => m' == m
  }

  lemma {:induction false} ChainOrdered(a: seq<Entry>, base: nat, limit: nat)
    requires Chain(a, base, limit)
    ensures Ordered(a) && forall i | 0 <= i < |a| :: base <= a[i].due < limit
  {
    if a != [] {
      ChainOrdered(a[1..], a[0].due, limit);
      assert forall i | 1 <= i < |a| :: a[i] == a[1..][i - 1];
    }
  }

  lemma {:induction false} HeadExpires(a: seq<Entry>)
    requires a != [] && Unique(a) && Ordered(a)
    ensures Expires(DeadlinesOf(a), DeadlinesOf(a[1..]), KeyOf(a[0]), a[0].due)
  {
    assert a == [a[0]] + a[1..];
    Append([a[0]], a[1..]);
    Singleton(a[0]);
    hide DeadlinesOf, Unique;
    forall key | key in DeadlinesOf(a)
      ensures a[0].due <= DeadlinesOf(a)[key]
    {
      InDeadlines(a, key);
    }
    assert DeadlinesOf(a) - {KeyOf(a[0])} == DeadlinesOf(a[1..]);
  }

  lemma {:induction false} PopRefines(s: State, rest: nat)
    requires Stored(s) && Unique(s.log.agenda) && s.task == Popping(rest)
    ensures Refines(s, Pop)
  {
    var g := s.log;
    hide DeadlinesOf, Unique, Expires, Chain;
    if s.list != [] && s.list[0].timeleft <= rest {
      PopStepStored(s, rest);
      StoredChain(s);
      ChainOrdered(g.agenda, g.clock, g.clock + 0x1_0000_0000);
      HeadExpires(g.agenda);
    }
  }

  lemma {:induction false} LinkRefines(s: State, slot: nat, r: Request)
    requires s.app == Holding(slot, r) && r.event < 256 && Unique(s.log.agenda)
    requires (r.ccb, r.event as int) !in DeadlinesOf(s.log.agenda)
    ensures Refines(s, StartLink)
  {
    var g := s.log;
    var e := Entry(slot, r.que, r.ccb, ToU8(r.event), g.clock + r.delay);
    Middle(g.agenda, DueCount(g.agenda, e.due), e);
    hide DeadlinesOf, Unique, LinkNode;
  }

  lemma {:induction false} StopRefinesStep(s: State, ccb: nat, event: U16)
    requires Unique(s.log.agenda)
    ensures DeadlinesOf(StopStep(s, ccb, event).log.agenda) == DeadlinesOf(s.log.agenda) - {(ccb, event as int)}
  {
    StopRefines(s.log.agenda, ccb, event);
    hide DeadlinesOf, Unique, StopNode, Freed, Stop, FindKey;
  }

  lemma {:induction false} StopsRefine(s: State, a: Action)
    requires Unique(s.log.agenda) && Enabled(s, a) && (a.StartStop? || a.StopOne? || a.StopAll?)
    ensures Refines(s, a)
  {
    hide DeadlinesOf, Unique, StopStep, NotOf, StopNodes, Freed, StopOwner;
    match a
    case StartStop(r) => StopRefinesStep(s, r.ccb, r.event);
    case StopOne(ccb, event) => StopRefinesStep(s, ccb, event);
    case StopAll(ccb) => StopOwnerRefines(s.log.agenda, ccb);
  }

  lemma {:induction false} OthersRefine(s: State, a: Action)
    requires Enabled(s, a) && (a.StartMalloc? || a.StartFail? || a.Wake? || a.Post? || a.Charge?)
    ensures Refines(s, a)
  {
    hide DeadlinesOf, ChargeNode;
  }

  /** In every run each action of a starter, a stopper or the timer task is an update, a
      removal or an expiry of the earliest, in the map of deadlines, or leaves it alone. */
  lemma {:induction false} StepRefines(s: State, a: Action)
    requires Sound(s) && Enabled(s, a)
    ensures Refines(s, a)
  {
    SoundUnique(s);
    assert Stored(s);
    hide Sound, Stored, DeadlinesOf, Unique, Refines;
    match a
    case StartLink => LinkRefines(s, s.app.slot, s.app.r);
    case Pop => PopRefines(s, s.task.rest);
    case StartStop(_) => StopsRefine(s, a);
    case StopOne(_, _) => StopsRefine(s, a);
    case StopAll(_) => StopsRefine(s, a);
    case _ => OthersRefine(s, a);
  }

  lemma {:induction false} RunRefines(run: seq<Action>, a: Action)
    requires Legal(Init(), run) && EventsFit(run) && NeverWraps(Init(), run) && Enabled(Run(Init(), run), a)
    ensures Unique(Run(Init(), run).log.agenda) && Refines(Run(Init(), run), a)
  {
    InitTimely();
    hide Init, Legal, Run, NeverWraps, Refines, Enabled, Unique, OnTime;
    EveryRunSound(Init(), run);
    SoundUnique(Run(Init(), run));
    hide Sound;
    StepRefines(Run(Init(), run), a);
  }

  // ---------- the pool class and the step system ----------

  function NodeIn(cells: seq<TmrCb>, slot: nat): Node
    requires slot < |cells|
  {
    Node(slot, cells[slot].que, cells[slot].ccb, cells[slot].event, cells[slot].timeleft)
  }

  /** l is what one reads in the cells along the agenda. */
  ghost predicate ReadsAs(cells: seq<TmrCb>, a: seq<Entry>, l: seq<Node>) {
    |l| == |a| && forall k | 0 <= k < |a| :: a[k].slot < |cells| && l[k] == NodeIn(cells, a[k].slot)
  }

  /** The pool with this content and the state show the same: the same nodes in the same
      order, the same slot held, the same clock. */
  ghost predicate Shows(cells: seq<TmrCb>, hdr: int, a: seq<Entry>, held: set<nat>, now: nat, s: State) {
    && Represents(cells, hdr, a, held, now) && ReadsAs(cells, a, s.list)
    && Held(s.app) == multiset(held) && SlotsAccounted(s)
    && s.log.agenda == a && s.log.clock == now
  }

  lemma {:induction false} ReadsDeltas(cells: seq<TmrCb>, hdr: int, a: seq<Entry>, held: set<nat>, now: nat,
                                       l: seq<Node>)
    requires Represents(cells, hdr, a, held, now)
    ensures ReadsAs(cells, a, l) <==> l == Deltas(a, now)
  {
    DeltasLength(a, now);
    forall k | 0 <= k < |a|
      ensures a[k].slot < |cells| && Deltas(a, now)[k] == NodeIn(cells, a[k].slot)
    {
      CellsStoreDeltas(cells, hdr, a, held, now, k);
    }
    hide Represents, Deltas;
  }

  lemma {:induction false} OrderedChain(a: seq<Entry>, base: nat, limit: nat)
    requires Ordered(a) && forall i | 0 <= i < |a| :: base <= a[i].due < limit
    ensures Chain(a, base, limit)
  {
    if a != [] {
      OrderedChain(a[1..], a[0].due, limit);
    }
  }

  lemma {:induction false} ShownDeltas(cells: seq<TmrCb>, hdr: int, a: seq<Entry>, held: set<nat>, now: nat, s: State)
    requires Shows(cells, hdr, a, held, now, s)
    ensures s.list == Deltas(a, now) && Chain(a, now, now + 0x1_0000_0000)
    ensures Held(s.app) == multiset(held) && SlotsAccounted(s) && s.log.agenda == a && s.log.clock == now
  {
    ReadsDeltas(cells, hdr, a, held, now, s.list);
    HeadRepresents(cells, hdr, a, held, now);
    OrderedChain(a, now, now + 0x1_0000_0000);
    hide Represents, ReadsAs, Deltas, SlotsAccounted;
  }

  lemma {:induction false} DeltaSlots(a: seq<Entry>, base: nat, slot: nat)
    ensures slot in NodeSlots(Deltas(a, base)) <==> slot in Slots(a)
  {
    if a != [] {
      DeltaSlots(a[1..], a[0].due, slot);
      assert a == [a[0]] + a[1..];
      DeltasCons(a[0], a[1..], base);
      Cons(NodeOf(a[0], base), Deltas(a[1..], a[0].due));
      assert forall i | 1 <= i < |a| :: a[i] == a[1..][i - 1];
    }
  }

  /** And the same slots are idle. */
  lemma {:induction false} ShownIdle(cells: seq<TmrCb>, hdr: int, a: seq<Entry>, held: set<nat>, now: nat, s: State)
    requires Shows(cells, hdr, a, held, now, s)
    ensures s.idle == IdleSlots(cells)
  {
    ShownDeltas(cells, hdr, a, held, now, s);
    HeadRepresents(cells, hdr, a, held, now);
    assert Partition(s.idle, multiset(held), NodeSlots(s.list));
    hide Represents, ReadsAs, Deltas, Chain, WellFormed, SlotsAccounted, NodeSlots, IdleSlots, Slots;
    forall x: nat
      ensures x in s.idle <==> x in IdleSlots(cells)
    {
      DeltaSlots(a, now, x);
      SlotsPartition(cells, hdr, a, held, now, x);
      InOnePart(s.idle, held, NodeSlots(s.list), x);
    }
  }

  lemma InOnePart(idle: set<nat>, held: set<nat>, linked: multiset<nat>, x: nat)
    requires Partition(idle, multiset(held), linked)
    ensures x in idle || x in held || x in linked <==> x < MAX_TMR_CB_NUM
    ensures x in idle ==> x !in held && x !in linked
  {
    var all := multiset(idle) + multiset(held) + linked;
    assert all == multiset(AllSlots());
    assert all[x] <= 1;
    assert x in all <==> x in AllSlots();
  }

  lemma {:induction false} ShowsAgain(cells: seq<TmrCb>, hdr: int, a: seq<Entry>, held: set<nat>, now: nat, s: State)
    requires Represents(cells, hdr, a, held, now) && s.list == Deltas(a, now)
    requires Held(s.app) == multiset(held) && SlotsAccounted(s) && s.log.agenda == a && s.log.clock == now
    ensures Shows(cells, hdr, a, held, now, s)
  {
    ReadsDeltas(cells, hdr, a, held, now, s.list);
  }

  /** TimerPool.StopXtmr is StopOne, and the first section of a start. */
  lemma {:induction false} StopSimulates(c: seq<TmrCb>, h: int, c': seq<TmrCb>, h': int, a: seq<Entry>, held: set<nat>,
                                         now: nat, s: State, ccb: nat, event: U16)
    requires Shows(c, h, a, held, now, s) && Represents(c', h', Stop(a, ccb, event), held, now)
    ensures Shows(c', h', Stop(a, ccb, event), held, now, StopStep(s, ccb, event))
  {
    hide Shows, Represents, Deltas, Chain, SlotsAccounted, StopNode, Freed, Stop, FindKey;
    ShownDeltas(c, h, a, held, now, s);
    StopDeltas(a, now, now + 0x1_0000_0000, ccb, event);
    StopStepSlots(s, ccb, event);
    StopStepApp(s, ccb, event);
    ShowsAgain(c', h', Stop(a, ccb, event), held, now, StopStep(s, ccb, event));
  }

  /** TimerPool.StopTmrs is StopAll. */
  lemma {:induction false} StopAllSimulates(c: seq<TmrCb>, h: int, c': seq<TmrCb>, h': int, a: seq<Entry>,
                                            held: set<nat>, now: nat, s: State, ccb: nat)
    requires Shows(c, h, a, held, now, s) && Represents(c', h', StopOwner(a, ccb), held, now)
    ensures Shows(c', h', StopOwner(a, ccb), held, now, StopAllStep(s, ccb))
  {
    hide Shows, Represents, Deltas, Chain, SlotsAccounted, StopNodes, Freed, StopOwner;
    ShownDeltas(c, h, a, held, now, s);
    StopAllDeltas(a, now, now + 0x1_0000_0000, ccb);
    StopAllStepSlots(s, ccb);
    ShowsAgain(c', h', StopOwner(a, ccb), held, now, StopAllStep(s, ccb));
  }

  /** TimerPool.MallocTmrCb that hands out a slot is StartMalloc of it. */
  lemma {:induction false} MallocSimulates(c: seq<TmrCb>, h: int, c': seq<TmrCb>, h': int, a: seq<Entry>, now: nat,
                                           s: State, slot: nat)
    requires Shows(c, h, a, {}, now, s) && s.app.Stopped? && FirstIdle(c, slot) && Represents(c', h', a, {slot}, now)
    ensures Enabled(s, StartMalloc(slot)) && Shows(c', h', a, {slot}, now, Next(s, StartMalloc(slot)))
  {
    ShownDeltas(c, h, a, {}, now, s);
    ShownIdle(c, h, a, {}, now, s);
    assert slot in s.idle;
    hide Represents, ReadsAs, Deltas, Chain, SlotsAccounted;
    StepSlots(s, StartMalloc(slot));
    assert multiset{slot} == multiset({slot});
    ShowsAgain(c', h', a, {slot}, now, Next(s, StartMalloc(slot)));
  }

  lemma NoneIdle(c: seq<TmrCb>)
    ensures IdleSlots(c) == {} <==> !SomeIdle(c)
  {
    if SomeIdle(c) {
      var slot: nat :| slot < |c| && c[slot].idle;
      assert slot in IdleSlots(c);
    }
  }

  /** And it fails exactly when StartFail can be taken. */
  lemma {:induction false} MallocFails(c: seq<TmrCb>, h: int, a: seq<Entry>, now: nat, s: State)
    requires Shows(c, h, a, {}, now, s) && s.app.Stopped?
    ensures Enabled(s, StartFail) <==> !SomeIdle(c)
  {
    ShownIdle(c, h, a, {}, now, s);
    NoneIdle(c);
    hide Shows, IdleSlots, SomeIdle;
  }

  /** TimerPool.LinkTmr is StartLink. */
  lemma {:induction false} LinkSimulates(c: seq<TmrCb>, h: int, c': seq<TmrCb>, h': int, a: seq<Entry>, now: nat,
                                         s: State, slot: nat, r: Request)
    requires Shows(c, h, a, {slot}, now, s) && s.app == Holding(slot, r)
    requires var e := Entry(slot, r.que, r.ccb, ToU8(r.event), now + r.delay);
      Represents(c', h', Schedule(a, e), {}, now)
    ensures var e := Entry(slot, r.que, r.ccb, ToU8(r.event), now + r.delay);
      Shows(c', h', Schedule(a, e), {}, now, LinkStep(s, slot, r))
  {
    hide Shows, Represents, Deltas, Chain, SlotsAccounted, LinkStep, Schedule;
    var e := Entry(slot, r.que, r.ccb, ToU8(r.event), now + r.delay);
    ShownDeltas(c, h, a, {slot}, now, s);
    LinkStepDeltas(s, slot, r);
    LinkStepSlots(s, slot, r);
    ShowsAgain(c', h', Schedule(a, e), {}, now, LinkStep(s, slot, r));
  }

  lemma {:induction false} LinkStepDeltas(s: State, slot: nat, r: Request)
    requires var g := s.log; s.list == Deltas(g.agenda, g.clock) && Chain(g.agenda, g.clock, g.clock + 0x1_0000_0000)
    ensures var g, s' := s.log, LinkStep(s, slot, r);
      && s'.log.agenda == Schedule(g.agenda, Entry(slot, r.que, r.ccb, ToU8(r.event), g.clock + r.delay))
      && s'.log.clock == g.clock && s'.list == Deltas(s'.log.agenda, g.clock) && s'.app == AppIdle
  {
    hide Deltas, Chain, LinkNode, Schedule;
    var g := s.log;
    var e := Entry(slot, r.que, r.ccb, ToU8(r.event), g.clock + r.delay);
    LinkDeltas(g.agenda, g.clock, g.clock + 0x1_0000_0000, e);
    assert NodeOf(e, g.clock) == Node(slot, r.que, r.ccb, ToU8(r.event), r.delay);
  }

  /** TimerPool.PopExpired pops exactly when Pop does, and pops the same timer. */
  lemma {:induction false} PopSimulates(c: seq<TmrCb>, h: int, c': seq<TmrCb>, h': int, a: seq<Entry>, held: set<nat>,
                                        now: nat, s: State, rest: nat)
    requires Shows(c, h, a, held, now, s) && s.task == Popping(rest)
    requires a != [] && a[0].due <= now + rest ==> Represents(c', h', a[1..], held, a[0].due)
    ensures var s' := PopStep(s, rest);
      if a != [] && a[0].due <= now + rest then
        Shows(c', h', a[1..], held, a[0].due, s') && s'.task == Posting(PrimOf(a[0]), now + rest - a[0].due)
      else s' == s.(task := Charging(rest))
  {
    hide Shows, Represents, Deltas, Chain, SlotsAccounted, PopStep;
    ShownDeltas(c, h, a, held, now, s);
    PopStepDeltas(s, rest);
    PopStepSlots(s, rest);
    if a != [] && a[0].due <= now + rest {
      ShowsAgain(c', h', a[1..], held, a[0].due, PopStep(s, rest));
    }
  }

  lemma {:induction false} PopStepDeltas(s: State, rest: nat)
    requires var g := s.log; s.list == Deltas(g.agenda, g.clock) && Chain(g.agenda, g.clock, g.clock + 0x1_0000_0000)
    ensures var g, s' := s.log, PopStep(s, rest);
      if g.agenda != [] && g.agenda[0].due <= g.clock + rest then
        && s'.log.agenda == g.agenda[1..] && s'.log.clock == g.agenda[0].due && s'.app == s.app
        && s'.list == Deltas(g.agenda[1..], g.agenda[0].due)
        && s'.task == Posting(PrimOf(g.agenda[0]), g.clock + rest - g.agenda[0].due)
      else s' == s.(task := Charging(rest))
  {
    HeadDelta(s.log.agenda, s.log.clock);
    hide Deltas, Chain;
  }

  lemma {:induction false} HeadDelta(a: seq<Entry>, now: nat)
    requires Chain(a, now, now + 0x1_0000_0000)
    ensures a == [] ==> Deltas(a, now) == []
    ensures a != [] ==>
      var l := Deltas(a, now);
      && l != [] && l[1..] == Deltas(a[1..], a[0].due) && now + l[0].timeleft == a[0].due
      && PrimOf(a[0]) == Prim(l[0].que, l[0].event, l[0].ccb)
  {
    if a != [] {
      assert a == [a[0]] + a[1..];
      DeltasCons(a[0], a[1..], now);
    }
  }

  lemma {:induction false} ChargeDeltas(a: seq<Entry>, now: nat, rest: nat)
    requires Chain(a, now, now + 0x1_0000_0000) && (a != [] ==> now + rest <= a[0].due)
    ensures ChargeNode(Deltas(a, now), rest) == Deltas(a, now + rest)
  {
  }

  lemma {:induction false} ChargeStepIs(s: State, rest: nat)
    ensures var s' := ChargeStep(s, rest);
      && s'.list == ChargeNode(s.list, rest) && s'.app == s.app
      && s'.log.agenda == s.log.agenda && s'.log.clock == s.log.clock + rest
  {
    hide ChargeNode;
  }

  lemma {:induction false} ChargeStepSlots(s: State, rest: nat)
    requires SlotsAccounted(s)
    ensures SlotsAccounted(ChargeStep(s, rest))
  {
    ChargeSlots(s.list, rest);
    hide ChargeNode, NodeSlots, Partition;
  }

  /** TimerPool.ChargeHead is Charge. */
  lemma {:induction false} ChargeSimulates(c: seq<TmrCb>, h: int, c': seq<TmrCb>, h': int, a: seq<Entry>,
                                           held: set<nat>, now: nat, s: State, rest: nat)
    requires Shows(c, h, a, held, now, s)
    requires (a != [] ==> now + rest <= a[0].due) && Represents(c', h', a, held, now + rest)
    ensures Shows(c', h', a, held, now + rest, ChargeStep(s, rest))
  {
    hide Shows, Represents, Deltas, Chain, ChargeStep, SlotsAccounted;
    ShownDeltas(c, h, a, held, now, s);
    ChargeDeltas(a, now, rest);
    ChargeStepIs(s, rest);
    ChargeStepSlots(s, rest);
    ShowsAgain(c', h', a, held, now + rest, ChargeStep(s, rest));
  }
}
