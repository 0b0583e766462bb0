/** What the timer service of lib/com_util/os_timer.c is for: an agenda of absolute
    deadlines on the charged clock, and the delta-encoded list that represents it. */
module TimerAgenda {
  import opened Words
  import opened Seqs

  /** Ticks per second (lib/com_util/os_timer.h:9). */
  const SEC: int := 1_000_000
  /** Slots in the pool (lib/com_util/os_timer.h:11). */
  const MAX_TMR_CB_NUM: int := 1200
  const NULL: int := -1

  /** A running timer: the pool slot that carries it, where its mail goes, its owner and
      event, and the clock value at which it is due. */
  datatype Entry = Entry(slot: nat, que: int, ccb: nat, event: U8, due: nat)

  /** The mail the timer task posts, with the queue it goes to. */
  datatype Prim = Prim(que: int, evt: U8, ccb: nat)

  function PrimOf(e: Entry): Prim {
    Prim(e.que, e.event, e.ccb)
  }

  function PrimsOf(a: seq<Entry>): seq<Prim> {
    seq(|a|, i requires 0 <= i < |a| => PrimOf(a[i]))
  }

  /** The charge os_tmr derives from two clock readings: half a second when the reading
      wrapped, never more than a second (lib/com_util/os_timer.c:254-260). */
  function ChargeOf(elapsed: int): (delta: nat)
    ensures delta <= SEC
    ensures 0 <= elapsed <= SEC ==> delta == elapsed
  {
    if elapsed < 0 then SEC / 2 else if elapsed > SEC then SEC else elapsed
  }

  /** The reading of the clock at time t: the microseconds within the second. */
  function Reading(t: nat): (r: nat)
    ensures r < 1_000_000
  {
    t % 1_000_000
  }

  lemma ReadingIs(t: nat, q: nat, r: nat)
    requires t == SEC * q + r && r < SEC
    ensures Reading(t) == r
  {
  }

  /** A tick charges the time p that passed without its whole seconds, or half a second if the
      reading came out below the one before. */
  lemma ChargeIs(t: nat, p: nat)
    ensures var b, r := Reading(t), Reading(t + p);
      ChargeOf(r - b) == if r < b then 500_000 else p % 1_000_000
  {
    var k, q, d := t / SEC, p / SEC, p % SEC;
    var b := t % SEC;
    assert p == SEC * q + d && t == SEC * k + b;
    if b + d < SEC {
      ReadingIs(t + p, k + q, b + d);
    } else {
      ReadingIs(t + p, k + q + 1, b + d - SEC);
    }
  }

  /** The charge is the time that passed exactly when the reading stayed within its second, or
      half a second passed. */
  lemma ChargeExactIff(t: nat, p: nat)
    ensures ChargeOf(Reading(t + p) - Reading(t)) == p <==> Reading(t) + p < SEC || p == SEC / 2
  {
    ChargeIs(t, p);
    var k, b := t / SEC, Reading(t);
    assert t == SEC * k + b;
    if b + p < SEC {
      ReadingIs(t + p, k, b + p);
    } else if p < SEC {
      ReadingIs(t + p, k + 1, b + p - SEC);
    }
  }

  // ---------- the agenda as a plain list of deadlines ----------

  ghost predicate Ordered(a: seq<Entry>) {
    forall i, j | 0 <= i <= j < |a| :: a[i].due <= a[j].due
  }

  ghost predicate DistinctSlots(a: seq<Entry>) {
    forall i, j | 0 <= i < j < |a| :: a[i].slot != a[j].slot
  }

  /** Nothing is overdue, and every remaining time fits the U32 in which it is stored. */
  ghost predicate InRange(a: seq<Entry>, now: nat) {
    forall i | 0 <= i < |a| :: now <= a[i].due < now + 0x1_0000_0000
  }

  ghost predicate WellFormed(a: seq<Entry>, now: nat) {
    Ordered(a) && DistinctSlots(a) && InRange(a, now)
  }

  ghost function Slots(a: seq<Entry>): set<nat> {
    set i | 0 <= i < |a| :: a[i].slot
  }

  /** The slots of a pool of n cells. */
  function Below(n: nat): (r: set<nat>)
    ensures |r| == n && forall s: nat :: s in r <==> s < n
  {
    if n == 0 then {} else Below(n - 1) + {n - 1}
  }

  /** How many leading entries are due at or before t. */
  function DueCount(a: seq<Entry>, t: nat): (n: nat)
    ensures n <= |a|
  {
    if a == [] || t < a[0].due then 0 else 1 + DueCount(a[1..], t)
  }

  /** The agenda with e added behind every entry that is due no later. */
  function Schedule(a: seq<Entry>, e: Entry): seq<Entry> {
    var n := DueCount(a, e.due);
    a[..n] + [e] + a[n..]
  }

  /** Schedule, with the slot of e as a parameter. */
  function ScheduleIn(a: seq<Entry>, e: Entry, slot: nat): seq<Entry> {
    Schedule(a, e.(slot := slot))
  }

  /** Agenda b is agenda a plus timer e, whatever slot it lives in. */
  ghost predicate Started(a: seq<Entry>, b: seq<Entry>, e: Entry) {
    exists slot :: b == ScheduleIn(a, e, slot)
  }

  /** The first entry of an owner and event; |a| when there is none. */
  function FindKey(a: seq<Entry>, ccb: nat, event: int): (n: nat)
    ensures n <= |a|
  {
    if a == [] || (a[0].ccb == ccb && a[0].event == event) then 0 else 1 + FindKey(a[1..], ccb, event)
  }

  /** The agenda after stopping one owner's event. */
  function Stop(a: seq<Entry>, ccb: nat, event: int): seq<Entry> {
    var n := FindKey(a, ccb, event);
    if n < |a| then Drop(a, n) else a
  }

  /** The agenda after stopping everything of one owner. */
  function StopOwner(a: seq<Entry>, ccb: nat): seq<Entry> {
    if a == [] then []
    else
      var n := |a| - 1;
      StopOwner(a[..n], ccb) + (if a[n].ccb == ccb then [] else [a[n]])
  }

  /** One step of the pass: b is what the pass has kept of a[..i], then a[i..]. */
  lemma {:induction false} StopOwnerStep(b: seq<Entry>, k: nat, a: seq<Entry>, i: nat, ccb: nat)
    requires k < |b| && i < |a| && b[..k] == StopOwner(a[..i], ccb) && b[k..] == a[i..]
    ensures b[k] == a[i] && b[k + 1..] == a[i + 1..]
    ensures a[i].ccb != ccb ==> b[..k + 1] == StopOwner(a[..i + 1], ccb)
    ensures a[i].ccb == ccb ==> Drop(b, k)[..k] == StopOwner(a[..i + 1], ccb) && Drop(b, k)[k..] == a[i + 1..]
  {
    assert b[k] == b[k..][0] && b[k + 1..] == b[k..][1..];
    assert a[..i + 1][..i] == a[..i];
  }

  lemma {:induction false} DueCountIs(a: seq<Entry>, t: nat, n: nat)
    requires n <= |a|
    requires forall i | 0 <= i < n :: a[i].due <= t
    requires n < |a| ==> t < a[n].due
    ensures DueCount(a, t) == n
  {
    if n > 0 {
      DueCountIs(a[1..], t, n - 1);
    }
  }

  lemma {:induction false} DueCountSplits(a: seq<Entry>, t: nat)
    requires Ordered(a)
    ensures forall i | 0 <= i < |a| :: a[i].due <= t <==> i < DueCount(a, t)
  {
    if a != [] && a[0].due <= t {
      DueCountSplits(a[1..], t);
      forall i | 0 <= i < |a|
        ensures a[i].due <= t <==> i < DueCount(a, t)
      {
        if i > 0 {
          assert a[i] == a[1..][i - 1];
        }
      }
    }
  }

  lemma {:induction false} FindKeyIs(a: seq<Entry>, ccb: nat, event: int, n: nat)
    requires n <= |a|
    requires forall i | 0 <= i < n :: !(a[i].ccb == ccb && a[i].event == event)
    requires n < |a| ==> a[n].ccb == ccb && a[n].event == event
    ensures FindKey(a, ccb, event) == n
  {
    if n > 0 {
      FindKeyIs(a[1..], ccb, event, n - 1);
    }
  }

  lemma {:induction false} FindKeyFinds(a: seq<Entry>, ccb: nat, event: int)
    ensures var n := FindKey(a, ccb, event);
      && (n < |a| ==> a[n].ccb == ccb && a[n].event == event)
      && forall i | 0 <= i < n :: !(a[i].ccb == ccb && a[i].event == event)
  {
    if a != [] && !(a[0].ccb == ccb && a[0].event == event) {
      FindKeyFinds(a[1..], ccb, event);
      var n := FindKey(a, ccb, event);
      forall i | 0 <= i < n
        ensures !(a[i].ccb == ccb && a[i].event == event)
      {
        if i > 0 {
          assert a[i] == a[1..][i - 1];
        }
      }
    }
  }
}
