/** What the operations of the timer service mean to its users: an update, a removal or an
    expiry in a map from (owner, event) to deadline. */
module TimerLaws {
  import opened Words
  import opened Seqs
  import opened TimerAgenda
  import opened TimerCells

  type Deadlines = map<(nat, int), nat>

  function KeyOf(e: Entry): (nat, int) {
    (e.ccb, e.event)
  }

  /** The service as its callers see it. */
  function DeadlinesOf(a: seq<Entry>): Deadlines {
    if a == [] then map[] else DeadlinesOf(a[..|a| - 1])[KeyOf(a[|a| - 1]) := a[|a| - 1].due]
  }

  /** No key is running twice. */
  predicate Unique(a: seq<Entry>) {
    a == [] || (Unique(a[..|a| - 1]) && KeyOf(a[|a| - 1]) !in DeadlinesOf(a[..|a| - 1]))
  }

  // ---------- reading a map off a list ----------

  lemma {:induction false} Append(a: seq<Entry>, b: seq<Entry>)
    ensures DeadlinesOf(a + b) == DeadlinesOf(a) + DeadlinesOf(b)
    ensures Unique(a + b) <==> Unique(a) && Unique(b) && DeadlinesOf(a).Keys !! DeadlinesOf(b).Keys
  {
    if b == [] {
      assert a + b == a;
    } else {
      var n := |b| - 1;
      assert (a + b)[..|a + b| - 1] == a + b[..n];
      Append(a, b[..n]);
    }
  }

  lemma {:induction false} Singleton(e: Entry)
    ensures DeadlinesOf([e]) == map[KeyOf(e) := e.due] && Unique([e])
  {
    assert [e][..0] == [];
  }

  lemma {:induction false} InDeadlines(a: seq<Entry>, key: (nat, int))
    ensures key in DeadlinesOf(a) <==> exists e | e in a :: KeyOf(e) == key
    ensures key in DeadlinesOf(a) ==> exists e | e in a :: KeyOf(e) == key && e.due == DeadlinesOf(a)[key]
  {
    if a != [] {
      InDeadlines(a[..|a| - 1], key);
      assert a == a[..|a| - 1] + [a[|a| - 1]];
    }
  }

  lemma {:induction false} InsertedKey(m1: Deadlines, m2: Deadlines, key: (nat, int), due: nat)
    requires m1.Keys !! m2.Keys && key !in m1 && key !in m2
    ensures m1 + map[key := due] + m2 == (m1 + m2)[key := due]
    ensures (m1 + m2)[key := due] - {key} == m1 + m2
  {
  }

  /** A list with e at position n, as a map. */
  lemma {:induction false} Middle(a: seq<Entry>, n: nat, e: Entry)
    requires n <= |a|
    ensures Unique(a[..n] + [e] + a[n..]) <==> Unique(a) && KeyOf(e) !in DeadlinesOf(a)
    ensures Unique(a) && KeyOf(e) !in DeadlinesOf(a) ==>
      var m := DeadlinesOf(a[..n] + [e] + a[n..]);
      m == DeadlinesOf(a)[KeyOf(e) := e.due] && m - {KeyOf(e)} == DeadlinesOf(a)
  {
    assert a == a[..n] + a[n..];
    Append(a[..n], a[n..]);
    Singleton(e);
    Append(a[..n], [e]);
    Append(a[..n] + [e], a[n..]);
    hide DeadlinesOf, Unique, KeyOf;
    if Unique(a) && KeyOf(e) !in DeadlinesOf(a) {
      InsertedKey(DeadlinesOf(a[..n]), DeadlinesOf(a[n..]), KeyOf(e), e.due);
    }
  }

  // ---------- the operations ----------

  /** StopXtmr is removal of the key, wherever it stands in the list and whether or not it
      is running. */
  lemma {:induction false} StopRefines(a: seq<Entry>, ccb: nat, event: int)
    requires Unique(a)
    ensures Unique(Stop(a, ccb, event))
    ensures DeadlinesOf(Stop(a, ccb, event)) == DeadlinesOf(a) - {(ccb, event)}
  {
    var n := FindKey(a, ccb, event);
    FindKeyFinds(a, ccb, event);
    InDeadlines(a, (ccb, event));
    hide DeadlinesOf, Unique, FindKey;
    if n < |a| {
      var b := Drop(a, n);
      assert a == b[..n] + [a[n]] + b[n..];
      Middle(b, n, a[n]);
    } else {
      assert (ccb, event) !in DeadlinesOf(a);
      assert DeadlinesOf(a) - {(ccb, event)} == DeadlinesOf(a);
    }
  }

  /** StartTmr is an update of the map, whether its key was running or not. */
  lemma {:induction false} StartRefines(a: seq<Entry>, e: Entry)
    requires Unique(a)
    ensures var b := Schedule(Stop(a, e.ccb, e.event), e);
      Unique(b) && DeadlinesOf(b) == DeadlinesOf(a)[KeyOf(e) := e.due]
  {
    var rest := Stop(a, e.ccb, e.event);
    StopRefines(a, e.ccb, e.event);
    Middle(rest, DueCount(rest, e.due), e);
    hide DeadlinesOf, Unique, Stop;
    assert (DeadlinesOf(a) - {KeyOf(e)})[KeyOf(e) := e.due] == DeadlinesOf(a)[KeyOf(e) := e.due];
  }

  lemma {:induction false} ScheduleUnique(a: seq<Entry>, e: Entry)
    ensures Unique(Schedule(a, e)) <==> Unique(a) && KeyOf(e) !in DeadlinesOf(a)
  {
    Middle(a, DueCount(a, e.due), e);
  }

  lemma {:induction false} StopKeys(a: seq<Entry>, ccb: nat, event: int, key: (nat, int))
    requires Unique(a)
    ensures Unique(Stop(a, ccb, event))
    ensures key in DeadlinesOf(Stop(a, ccb, event)) <==> key in DeadlinesOf(a) && key != (ccb, event)
  {
    StopRefines(a, ccb, event);
    hide DeadlinesOf, Unique, Stop;
  }

  /** The event is compared as U16 but stored as U8, so the map law needs an event below
      256: with a larger one keys stay unique exactly when the truncated key is free. */
  lemma {:induction false} StartUniqueIff(a: seq<Entry>, e: Entry, event: U16)
    requires Unique(a) && e.event == ToU8(event)
    ensures Unique(Schedule(Stop(a, e.ccb, event), e)) <==> event < 256 || KeyOf(e) !in DeadlinesOf(a)
  {
    hide Unique, DeadlinesOf, Stop, Schedule;
    StopKeys(a, e.ccb, event, KeyOf(e));
    ScheduleUnique(Stop(a, e.ccb, event), e);
  }

  ghost function NotOf(m: Deadlines, ccb: nat): Deadlines {
    map key | key in m && key.0 != ccb :: m[key]
  }

  /** StopTmrs is removal of every key of one owner, in one pass. */
  lemma {:induction false} StopOwnerRefines(a: seq<Entry>, ccb: nat)
    requires Unique(a)
    ensures Unique(StopOwner(a, ccb)) && DeadlinesOf(StopOwner(a, ccb)) == NotOf(DeadlinesOf(a), ccb)
  {
    if a != [] {
      var front, last := a[..|a| - 1], a[|a| - 1];
      StopOwnerRefines(front, ccb);
      Singleton(last);
      Append(StopOwner(front, ccb), [last]);
      assert StopOwner(a, ccb) == if last.ccb == ccb then StopOwner(front, ccb) else StopOwner(front, ccb) + [last];
      NotOfUpdate(DeadlinesOf(front), last, ccb);
      hide NotOf;
    }
  }

  lemma {:induction false} NotOfUpdate(m: Deadlines, e: Entry, ccb: nat)
    ensures NotOf(m[KeyOf(e) := e.due], ccb) ==
      if e.ccb == ccb then NotOf(m - {KeyOf(e)}, ccb) else NotOf(m, ccb)[KeyOf(e) := e.due]
    ensures KeyOf(e) !in m ==> m - {KeyOf(e)} == m
    ensures KeyOf(e) in NotOf(m, ccb) ==> KeyOf(e) in m
  {
  }

  ghost function DueBy(m: Deadlines, t: nat): Deadlines {
    map key | key in m && m[key] <= t :: m[key]
  }

  ghost function DueAfter(m: Deadlines, t: nat): Deadlines {
    map key | key in m && t < m[key] :: m[key]
  }

  lemma {:induction false} SplitByTime(early: Deadlines, late: Deadlines, t: nat)
    requires early.Keys !! late.Keys
    requires forall key | key in early :: early[key] <= t
    requires forall key | key in late :: t < late[key]
    ensures early == DueBy(early + late, t) && late == DueAfter(early + late, t)
  {
  }

  /** A tick up to clock value t expires exactly the keys due at or before t and leaves the
      others alone. */
  lemma {:induction false} TickRefines(a: seq<Entry>, t: nat)
    requires Unique(a) && Ordered(a)
    ensures var n := DueCount(a, t);
      && Unique(a[..n]) && DeadlinesOf(a[..n]) == DueBy(DeadlinesOf(a), t)
      && Unique(a[n..]) && DeadlinesOf(a[n..]) == DueAfter(DeadlinesOf(a), t)
  {
    var n := DueCount(a, t);
    assert a == a[..n] + a[n..];
    Append(a[..n], a[n..]);
    DueCountSplits(a, t);
    hide DeadlinesOf, Unique, DueBy, DueAfter;
    forall key | key in DeadlinesOf(a[..n])
      ensures DeadlinesOf(a[..n])[key] <= t
    {
      InDeadlines(a[..n], key);
    }
    forall key | key in DeadlinesOf(a[n..])
      ensures t < DeadlinesOf(a[n..])[key]
    {
      InDeadlines(a[n..], key);
    }
    SplitByTime(DeadlinesOf(a[..n]), DeadlinesOf(a[n..]), t);
  }

  // ---------- order ----------

  /** A timer goes behind every timer due no later and before every timer due later, so
      equal deadlines fire in the order in which they were started. */
  lemma {:induction false} ScheduleIsFifo(a: seq<Entry>, e: Entry)
    requires Ordered(a)
    ensures var b, n := Schedule(a, e), DueCount(a, e.due);
      && Ordered(b) && b[n] == e && Drop(b, n) == a
      && (forall i | 0 <= i < n :: b[i].due <= e.due)
      && (forall i | n < i < |b| :: e.due < b[i].due)
  {
    DueCountSplits(a, e.due);
  }

  // ---------- slots ----------

  ghost function IdleSlots(cells: seq<TmrCb>): set<nat> {
    set s: nat | s < |cells| && cells[s].idle
  }

  lemma {:induction false} SlotsSnoc(a: seq<Entry>, e: Entry)
    ensures Slots(a + [e]) == Slots(a) + {e.slot}
  {
    var b := a + [e];
    assert b[|a|] == e;
    assert forall i | 0 <= i < |a| :: b[i] == a[i];
  }

  lemma {:induction false} SlotCount(a: seq<Entry>)
    requires DistinctSlots(a)
    ensures |Slots(a)| == |a|
  {
    if a == [] {
    } else {
      var front, last := a[..|a| - 1], a[|a| - 1];
      SlotCount(front);
      assert a == front + [last];
      SlotsSnoc(front, last);
      assert last.slot !in Slots(front);
      hide Slots, DistinctSlots;
    }
  }

  lemma {:induction false} SlotsPartition(cells: seq<TmrCb>, hdr: int, a: seq<Entry>, held: set<nat>, now: nat, s: nat)
    requires Represents(cells, hdr, a, held, now)
    ensures s in IdleSlots(cells) || s in held || s in Slots(a) <==> s < |cells|
    ensures s in Slots(a) ==> s !in IdleSlots(cells) && s !in held
    ensures s in held ==> s !in IdleSlots(cells)
  {
    if s in Slots(a) {
      var i :| 0 <= i < |a| && a[i].slot == s;
      assert Carried(cells, a, held, now, i);
    }
    hide WellFormed;
  }

  /** No slot is ever lost or used twice: idle, held and linked slots partition the pool. */
  lemma {:induction false} SlotConservation(cells: seq<TmrCb>, hdr: int, a: seq<Entry>, held: set<nat>, now: nat)
    requires Represents(cells, hdr, a, held, now)
    ensures |IdleSlots(cells)| + |held| + |a| == 1200
  {
    SlotCount(a);
    forall s: nat
      ensures s in IdleSlots(cells) || s in held || s in Slots(a) <==> s in Below(|cells|)
      ensures !(s in IdleSlots(cells) && s in held)
      ensures !(s in Slots(a) && (s in IdleSlots(cells) || s in held))
    {
      SlotsPartition(cells, hdr, a, held, now, s);
    }
    assert |cells| == MAX_TMR_CB_NUM;
    PartitionCount(IdleSlots(cells), held, Slots(a), Below(|cells|));
    hide *;
  }

  lemma {:induction false} PartitionCount(x: set<nat>, y: set<nat>, z: set<nat>, all: set<nat>)
    requires forall s: nat :: s in x || s in y || s in z <==> s in all
    requires x !! y && x !! z && y !! z
    ensures |x| + |y| + |z| == |all|
  {
    assert all == x + y + z;
  }

  // ---------- sequences of ticks ----------

  /** The clock after a number of ticks. */
  function ClockAfter(now: nat, elapsed: seq<int>, n: nat): nat
    requires n <= |elapsed|
  {
    if n == 0 then now else ClockAfter(now, elapsed, n - 1) + ChargeOf(elapsed[n - 1])
  }

  /** The agenda left after a number of ticks, each popping what it reaches. */
  function AgendaAfter(a: seq<Entry>, now: nat, elapsed: seq<int>, n: nat): seq<Entry>
    requires n <= |elapsed|
  {
    if n == 0 then a
    else
      var b := AgendaAfter(a, now, elapsed, n - 1);
      b[DueCount(b, ClockAfter(now, elapsed, n))..]
  }

  /** What tick n posts. */
  function FiredIn(a: seq<Entry>, now: nat, elapsed: seq<int>, n: nat): seq<Entry>
    requires n < |elapsed|
  {
    var b := AgendaAfter(a, now, elapsed, n);
    b[..DueCount(b, ClockAfter(now, elapsed, n + 1))]
  }

  lemma {:induction false} DueCountTail(a: seq<Entry>, t: nat, t': nat)
    requires Ordered(a) && t <= t'
    ensures var k, k' := DueCount(a, t), DueCount(a, t');
      k <= k' && DueCount(a[k..], t') == k' - k
  {
    var k, k' := DueCount(a, t), DueCount(a, t');
    DueCountSplits(a, t);
    DueCountSplits(a, t');
    assert k > 0 ==> a[k - 1].due <= t';
    DueCountIs(a[k..], t', k' - k);
  }

  lemma {:induction false} AgendaAfterIs(a: seq<Entry>, now: nat, elapsed: seq<int>, n: nat)
    requires Ordered(a) && 0 < n <= |elapsed|
    ensures AgendaAfter(a, now, elapsed, n) == a[DueCount(a, ClockAfter(now, elapsed, n))..]
  {
    if n > 1 {
      AgendaAfterIs(a, now, elapsed, n - 1);
      DueCountTail(a, ClockAfter(now, elapsed, n - 1), ClockAfter(now, elapsed, n));
    }
  }

  lemma {:induction false} FiredIs(a: seq<Entry>, now: nat, elapsed: seq<int>, n: nat)
    requires Ordered(a) && n < |elapsed|
    ensures var k := if n == 0 then 0 else DueCount(a, ClockAfter(now, elapsed, n));
      var k' := DueCount(a, ClockAfter(now, elapsed, n + 1));
      k <= k' && FiredIn(a, now, elapsed, n) == a[k..k']
  {
    if n > 0 {
      AgendaAfterIs(a, now, elapsed, n);
      DueCountTail(a, ClockAfter(now, elapsed, n), ClockAfter(now, elapsed, n + 1));
    }
    hide Ordered, DueCount;
  }

  /** Over any sequence of ticks, a timer fires in the first tick that brings the
      accumulated charge to its delay, and in no other. */
  lemma {:induction false} FiresAtFirstReach(a: seq<Entry>, now: nat, elapsed: seq<int>, n: nat, e: Entry)
    requires Ordered(a) && n < |elapsed|
    ensures e in FiredIn(a, now, elapsed, n) <==>
      e in a && e.due <= ClockAfter(now, elapsed, n + 1) && (n == 0 || ClockAfter(now, elapsed, n) < e.due)
  {
    FiredIs(a, now, elapsed, n);
    DueCountSplits(a, ClockAfter(now, elapsed, n));
    DueCountSplits(a, ClockAfter(now, elapsed, n + 1));
    hide FiredIn, Ordered, DueCount, ClockAfter;
    if e in a && e.due <= ClockAfter(now, elapsed, n + 1) && (n == 0 || ClockAfter(now, elapsed, n) < e.due) {
      var k := if n == 0 then 0 else DueCount(a, ClockAfter(now, elapsed, n));
      var i :| 0 <= i < |a| && a[i] == e;
      assert FiredIn(a, now, elapsed, n)[i - k] == e;
    }
  }

  // ---------- the charged clock and the time that passed ----------

  /** The time after a number of rounds that took p[0], p[1], ... microseconds. */
  function Passed(p: seq<nat>, n: nat): nat
    requires n <= |p|
  {
    if n == 0 then 0 else Passed(p, n - 1) + p[n - 1]
  }

  function LostIn(wrapped: bool, p: nat): int {
    if wrapped then p - 500_000 else p - p % 1_000_000
  }

  /** What is lost: of a round in which the reading wrapped all beyond half a second, of any
      other the whole seconds. */
  function Lost(t: nat, p: seq<nat>, n: nat): int
    requires n <= |p|
  {
    if n == 0 then 0
    else
      var wrapped := Reading(t + Passed(p, n)) < Reading(t + Passed(p, n - 1));
      Lost(t, p, n - 1) + LostIn(wrapped, p[n - 1])
  }

  /** The differences of the readings, the first one at time t. */
  function Differences(t: nat, p: seq<nat>): (d: seq<int>)
    ensures |d| == |p|
  {
    seq(|p|, i requires 0 <= i < |p| => Reading(t + Passed(p, i + 1)) - Reading(t + Passed(p, i)))
  }

  lemma DifferenceAt(t: nat, p: seq<nat>, n: nat)
    requires n < |p|
    ensures Differences(t, p)[n] == Reading(t + Passed(p, n + 1)) - Reading(t + Passed(p, n))
  {
    hide Reading, Passed;
  }

  lemma {:induction false} ClockUnfolds(now: nat, d: seq<int>, n: nat)
    requires n < |d|
    ensures ClockAfter(now, d, n + 1) == ClockAfter(now, d, n) + ChargeOf(d[n])
  {
    hide ChargeOf;
  }

  /** What round n adds to the clock. */
  lemma {:induction false} ClockStep(now: nat, t: nat, p: seq<nat>, n: nat)
    requires n < |p|
    ensures var u := t + Passed(p, n);
      ClockAfter(now, Differences(t, p), n + 1) ==
        ClockAfter(now, Differences(t, p), n) + ChargeOf(Reading(u + p[n]) - Reading(u))
  {
    hide *;
    PassedStep(p, n);
    DifferenceAt(t, p, n);
    ClockUnfolds(now, Differences(t, p), n);
  }

  lemma {:induction false} PassedStep(p: seq<nat>, n: nat)
    requires n < |p|
    ensures Passed(p, n + 1) == Passed(p, n) + p[n]
  {
  }

  lemma {:induction false} LostStep(t: nat, p: seq<nat>, n: nat)
    requires n < |p|
    ensures var u := t + Passed(p, n);
      Lost(t, p, n + 1) == Lost(t, p, n) + LostIn(Reading(u + p[n]) < Reading(u), p[n])
  {
    hide Reading, Passed, LostIn;
    PassedStep(p, n);
  }

  /** Over any rounds the charged clock is behind the time by exactly that. */
  lemma {:induction false} ClockFollows(now: nat, t: nat, p: seq<nat>, n: nat)
    requires n <= |p|
    ensures ClockAfter(now, Differences(t, p), n) == now + Passed(p, n) - Lost(t, p, n)
  {
    hide *;
    if n == 0 {
      NothingPassed(now, t, p);
    } else {
      ClockFollows(now, t, p, n - 1);
      ClockStep(now, t, p, n - 1);
      LostStep(t, p, n - 1);
      PassedStep(p, n - 1);
      ChargeLoses(t + Passed(p, n - 1), p[n - 1]);
    }
  }

  lemma ChargeLoses(t: nat, p: nat)
    ensures ChargeOf(Reading(t + p) - Reading(t)) == p - LostIn(Reading(t + p) < Reading(t), p)
  {
    hide Reading, ChargeOf;
    ChargeIs(t, p);
  }

  lemma NothingPassed(now: nat, t: nat, p: seq<nat>)
    ensures ClockAfter(now, Differences(t, p), 0) == now && Passed(p, 0) == 0 && Lost(t, p, 0) == 0
  {
    hide Differences;
  }

  /** So a timer fires in the first round after which the time less what is lost reaches it. */
  lemma {:induction false} FiresInTime(a: seq<Entry>, now: nat, t: nat, p: seq<nat>, n: nat, e: Entry)
    requires Ordered(a) && n < |p|
    ensures e in FiredIn(a, now, Differences(t, p), n) <==>
      && e in a && e.due <= now + Passed(p, n + 1) - Lost(t, p, n + 1)
      && (n == 0 || now + Passed(p, n) - Lost(t, p, n) < e.due)
  {
    hide *;
    FiresAtFirstReach(a, now, Differences(t, p), n, e);
    ClockFollows(now, t, p, n);
    ClockFollows(now, t, p, n + 1);
  }

  /** And not before its time when every round takes at least the half second that is slept. */
  lemma {:induction false} NeverEarly(a: seq<Entry>, now: nat, t: nat, p: seq<nat>, n: nat, e: Entry)
    requires Ordered(a) && n < |p| && (forall i | 0 <= i < |p| :: 500_000 <= p[i])
    ensures e in FiredIn(a, now, Differences(t, p), n) ==> e.due <= now + Passed(p, n + 1)
  {
    hide *;
    FiresInTime(a, now, t, p, n, e);
    LostPositive(t, p, n + 1);
  }

  lemma {:induction false} LostPositive(t: nat, p: seq<nat>, n: nat)
    requires n <= |p| && forall i | 0 <= i < |p| :: 500_000 <= p[i]
    ensures Lost(t, p, n) >= 0
  {
    hide Reading, Passed;
    if n > 0 {
      LostPositive(t, p, n - 1);
    }
  }
}
