/** lib/com_util/os_timer.c: the timer pool in shared memory and its operations.

    Each part of the source that runs under one take of the semaphore is one method here;
    StartTmr, which releases it twice, is the composition of three of them.  Interleavings
    of those sections with the timer task are the subject of module TimerTask. */
module OsTimer {
  import opened Words
  import opened Seqs
  import opened TimerAgenda
  import opened TimerCells

  class TimerPool {
    const tcb: array<TmrCb>
    var tmrHdr: int

    /** The running timers with their absolute deadlines, in list order. */
    ghost var agenda: seq<Entry>
    /** Slots handed out by MallocTmrCb and not yet linked. */
    ghost var held: set<nat>
    /** Total time charged so far. */
    ghost var now: nat

    ghost predicate Valid()
      reads this, tcb
    {
      Represents(tcb[..], tmrHdr, agenda, held, now)
    }

    constructor ()
      ensures Valid() && fresh(tcb)
      ensures agenda == [] && held == {} && now == 0
    {
      tcb := new TmrCb[MAX_TMR_CB_NUM](_ => TmrCb(0, 0, 0, 0, NULL, true));
      tmrHdr := NULL;
      agenda, held, now := [], {}, 0;
    }

    /** OSTMR_InitTmrCbs: forget every timer and mark every slot idle. */
    method InitTmrCbs()
      requires tcb.Length == MAX_TMR_CB_NUM
      modifies this, tcb
      ensures Valid()
      ensures agenda == [] && held == {} && now == 0
      ensures forall s | 0 <= s < tcb.Length :: tcb[s].idle
    {
      tmrHdr := NULL;
      agenda, held, now := [], {}, 0;
      var i := 0;
      while i < MAX_TMR_CB_NUM
        invariant 0 <= i <= MAX_TMR_CB_NUM
        invariant forall s | 0 <= s < i :: tcb[s].idle
        invariant tmrHdr == NULL && agenda == [] && held == {} && now == 0
      {
        tcb[i] := tcb[i].(idle := true);
        i := i + 1;
      }
    }

    /** OSTMR_MallocTmrCb: the lowest idle slot, or NULL when there is none. */
    method MallocTmrCb() returns (slot: int)
      requires Valid()
      modifies this`held, tcb
      ensures Valid()
      ensures slot == NULL <==> !SomeIdle(old(tcb[..]))
      ensures slot == NULL ==> held == old(held) && tcb[..] == old(tcb[..])
      ensures slot != NULL ==>
        && FirstIdle(old(tcb[..]), slot) && slot < tcb.Length
        && held == old(held) + {slot}
        && tcb[..] == old(tcb[..])[slot := old(tcb[..])[slot].(idle := false)]
    {
      HeadRepresents(tcb[..], tmrHdr, agenda, held, now);
      hide Represents;
      var i := 0;
      while i < MAX_TMR_CB_NUM
        invariant 0 <= i <= MAX_TMR_CB_NUM
        invariant forall s | 0 <= s < i :: !tcb[..][s].idle
      {
        if tcb[i].idle {
          MallocRepresents(tcb[..], tmrHdr, agenda, held, now, i);
          assert tcb[..][i].idle;
          tcb[i] := tcb[i].(idle := false);
          held := held + {i};
          return i;
        }
        i := i + 1;
      }
      return NULL;
    }

    /** OSTMR_IsTmrListEmpty. */
    method IsTmrListEmpty() returns (empty: bool)
      requires Valid()
      ensures empty <==> agenda == []
    {
      empty := tmrHdr == NULL;
    }

    /** OSTMR_IsTmrExist: event 0 asks for any timer of the owner. */
    method IsTmrExist(ccb: nat, event: U16) returns (found: bool)
      requires Valid()
      ensures found <==> exists e | e in agenda :: e.ccb == ccb && (event == 0 || e.event == event)
    {
      HeadRepresents(tcb[..], tmrHdr, agenda, held, now);
      var cur := tmrHdr;
      ghost var k := 0;
      while cur != NULL
        invariant k <= |agenda| && cur == SlotAt(agenda, k)
        invariant forall i | 0 <= i < k :: !(agenda[i].ccb == ccb && (event == 0 || agenda[i].event == event))
        decreases |agenda| - k
      {
        CarriedAt(tcb[..], tmrHdr, agenda, held, now, k);
        if tcb[cur].ccb == ccb && (event == 0 || event == tcb[cur].event) {
          assert agenda[k] in agenda;
          return true;
        }
        cur := tcb[cur].next;
        k := k + 1;
      }
      return false;
    }

    /** The removal both stop operations share: bypass cur, hand its time to its
        successor, free its slot (OSTMR_FreeTmrCb). */
    method Unlink(prev: int, cur: int, ghost k: nat)
      requires Valid()
      requires k < |agenda| && cur == agenda[k].slot && prev == SlotBefore(agenda, k)
      modifies this`tmrHdr, this`agenda, tcb
      ensures Valid()
      ensures agenda == Drop(old(agenda), k)
      ensures SomeIdle(tcb[..])
    {
      ghost var cells, hdr := tcb[..], tmrHdr;
      HeadRepresents(cells, hdr, agenda, held, now);
      CarriedAt(cells, hdr, agenda, held, now, k);
      if k > 0 {
        CarriedAt(cells, hdr, agenda, held, now, k - 1);
      }
      CarriedAt(cells, hdr, agenda, held, now, k + 1);
      NoAlias(agenda, now, k);
      BypassRepresents(cells, hdr, agenda, held, now, k);
      assert SlotAt(Drop(agenda, k), 0) == if k == 0 then SlotAt(agenda, 1) else SlotAt(agenda, 0);
      hide Represents, WellFormed;
      var next := tcb[cur].next;
      if prev != NULL {
        tcb[prev] := tcb[prev].(next := next);
      } else {
        tmrHdr := next;
      }
      if next != NULL {
        tcb[next] := tcb[next].(timeleft := ToU32(tcb[next].timeleft + tcb[cur].timeleft));
      }
      tcb[cur] := tcb[cur].(idle := true);
      agenda := Drop(agenda, k);
      assert tcb[..] == Bypass(cells, prev, cur);
      assert tcb[..][cur].idle;
    }

    /** OSTMR_StopXtmr. */
    method StopXtmr(ccb: nat, event: U16)
      requires Valid()
      modifies this`tmrHdr, this`agenda, tcb
      ensures Valid()
      ensures agenda == Stop(old(agenda), ccb, event)
      ensures SomeIdle(tcb[..]) <==> SomeIdle(old(tcb[..])) || FindKey(old(agenda), ccb, event) < |old(agenda)|
    {
      ghost var cells := tcb[..];
      HeadRepresents(cells, tmrHdr, agenda, held, now);
      hide Represents, WellFormed;
      var prev, cur := NULL, tmrHdr;
      ghost var k := 0;
      while cur != NULL
        invariant tcb[..] == cells && agenda == old(agenda) && tmrHdr == old(tmrHdr)
        invariant k <= |agenda| && cur == SlotAt(agenda, k) && prev == SlotBefore(agenda, k)
        invariant forall i | 0 <= i < k :: !(agenda[i].ccb == ccb && agenda[i].event == event)
        decreases |agenda| - k
      {
        CarriedAt(cells, tmrHdr, agenda, held, now, k);
        if tcb[cur].ccb == ccb && event == tcb[cur].event {
          break;
        }
        prev, cur := cur, tcb[cur].next;
        k := k + 1;
      }
      FindKeyIs(agenda, ccb, event, k);
      if cur == NULL {
        return;
      }
      Unlink(prev, cur, k);
    }

    /** OSTMR_StopTmrs: one pass, removing as it goes. */
    method StopTmrs(ccb: nat)
      requires Valid()
      modifies this`tmrHdr, this`agenda, tcb
      ensures Valid()
      ensures agenda == StopOwner(old(agenda), ccb)
    {
      HeadRepresents(tcb[..], tmrHdr, agenda, held, now);
      assert agenda[..0] == StopOwner(agenda[..0], ccb);
      hide Represents, WellFormed, StopOwner, Drop;
      var prev, cur := NULL, tmrHdr;
      ghost var a, i, k := agenda, 0, 0;
      while cur != NULL
        invariant Valid()
        invariant k <= |agenda| && i <= |a| && cur == SlotAt(agenda, k) && prev == SlotBefore(agenda, k)
        invariant agenda[..k] == StopOwner(a[..i], ccb) && agenda[k..] == a[i..]
        decreases |a| - i
      {
        CarriedAt(tcb[..], tmrHdr, agenda, held, now, k);
        StopOwnerStep(agenda, k, a, i, ccb);
        DropSlots(agenda, k);
        if tcb[cur].ccb != ccb {
          prev, cur := cur, tcb[cur].next;
          k := k + 1;
        } else {
          var next := tcb[cur].next;
          Unlink(prev, cur, k);
          cur := next;
        }
        i := i + 1;
      }
      assert a[..i] == a && agenda[..k] == agenda;
    }

    /** The insertion scan of OSTMR_StartTmr: walk past every timer due no later than the
        new one, turning its timeleft into the distance from the last of them. */
    method ScanPlace(slot: int) returns (prev: int, cur: int, ghost n: nat)
      requires Valid() && slot in held
      modifies tcb
      ensures slot < |old(tcb[..])| == tcb.Length
      ensures n == DueCount(agenda, EntryOf(slot, old(tcb[..])[slot], now).due)
      ensures prev == SlotBefore(agenda, n) && cur == SlotAt(agenda, n)
      ensures Base(agenda, now, n) + tcb[slot].timeleft == EntryOf(slot, old(tcb[..])[slot], now).due
      ensures tcb[..] == old(tcb[..])[slot := old(tcb[..])[slot].(timeleft := tcb[slot].timeleft)]
    {
      ghost var cells, hdr := tcb[..], tmrHdr;
      HeadRepresents(cells, hdr, agenda, held, now);
      HeldAt(cells, hdr, agenda, held, now, slot);
      hide Represents, WellFormed;
      ghost var t := EntryOf(slot, tcb[slot], now).due;
      prev, cur, n := NULL, tmrHdr, 0;
      while cur != NULL
        invariant n <= |agenda| && cur == SlotAt(agenda, n) && prev == SlotBefore(agenda, n)
        invariant forall i | 0 <= i < n :: agenda[i].due <= t
        invariant Base(agenda, now, n) + tcb[slot].timeleft == t
        invariant tcb[..] == cells[slot := cells[slot].(timeleft := tcb[slot].timeleft)]
        decreases |agenda| - n
      {
        CarriedAt(cells, hdr, agenda, held, now, n);
        assert tcb[..][cur] == cells[cur];
        if tcb[slot].timeleft < tcb[cur].timeleft {
          break;
        }
        tcb[slot] := tcb[slot].(timeleft := ToU32(tcb[slot].timeleft - tcb[cur].timeleft));
        prev, cur := cur, tcb[cur].next;
        n := n + 1;
      }
      if cur != NULL {
        CarriedAt(cells, hdr, agenda, held, now, n);
        assert tcb[..][cur] == cells[cur];
      }
      DueCountIs(agenda, t, n);
    }

    /** The last critical section of OSTMR_StartTmr: insert an allocated, filled-in cell. */
    method LinkTmr(slot: int)
      requires Valid() && slot in held
      modifies this`tmrHdr, this`agenda, this`held, tcb
      ensures Valid()
      ensures held == old(held) - {slot}
      ensures agenda == Schedule(old(agenda), EntryOf(slot, old(tcb[slot]), now))
    {
      ghost var cells := tcb[..];
      hide Represents, Schedule, DueCount;
      var prev, cur, n := ScanPlace(slot);
      ghost var t, e := tcb[slot].timeleft, EntryOf(slot, cells[slot], now);
      LinkRepresents(cells, tmrHdr, agenda, held, now, slot, t);
      tcb[slot] := tcb[slot].(next := cur);
      ghost var c1 := tcb[..];
      assert c1 == cells[slot := cells[slot].(timeleft := t, next := cur)];
      if prev != NULL {
        tcb[prev] := tcb[prev].(next := slot);
      } else {
        tmrHdr := slot;
      }
      ghost var c2 := tcb[..];
      assert c2 == if prev < 0 then c1 else c1[prev := c1[prev].(next := slot)];
      if cur != NULL {
        tcb[cur] := tcb[cur].(timeleft := ToU32(tcb[cur].timeleft - tcb[slot].timeleft));
      }
      assert tcb[..] == Splice(cells, prev, slot, cur, t);
      agenda, held := Schedule(agenda, e), held - {slot};
    }

    /** OSTMR_StartTmr. */
    method StartTmr(que: int, ccb: nat, delay: U32, event: U16)
      requires Valid()
      modifies this`tmrHdr, this`agenda, this`held, tcb
      ensures Valid() && held == old(held)
      ensures ccb == 0 ==> agenda == old(agenda)
      ensures ccb != 0 ==>
        var rest := Stop(old(agenda), ccb, event);
        if SomeIdle(old(tcb[..])) || FindKey(old(agenda), ccb, event) < |old(agenda)| then
          Started(rest, agenda, Entry(0, que, ccb, ToU8(event), now + delay))
        else
          agenda == rest
    {
      if ccb == 0 {
        return;
      }
      hide Represents, Schedule, Stop, FindKey, SomeIdle, FirstIdle;
      StopXtmr(ccb, event);
      var slot := MallocTmrCb();
      if slot == NULL {
        return;
      }
      ghost var cells := tcb[..];
      var c := TmrCb(que, ccb, ToU8(event), delay, NULL, tcb[slot].idle);
      FillRepresents(cells, tmrHdr, agenda, held, now, slot, c);
      tcb[slot] := c;
      assert tcb[..] == cells[slot := c];
      LinkTmr(slot);
      assert agenda == ScheduleIn(Stop(old(agenda), ccb, event), Entry(0, que, ccb, ToU8(event), now + delay), slot);
    }

    /** One critical section of the inner loop of os_tmr: pop the head if the charge
        reaches it. */
    method PopExpired(delta: nat) returns (popped: bool, prim: Prim, rest: nat)
      requires Valid()
      modifies this`tmrHdr, this`agenda, this`now, tcb
      ensures Valid()
      ensures popped <==> old(agenda) != [] && old(agenda)[0].due <= old(now) + delta
      ensures !popped ==> agenda == old(agenda) && now == old(now) && rest == delta
      ensures popped ==>
        && agenda == old(agenda)[1..] && now == old(agenda)[0].due
        && prim == PrimOf(old(agenda)[0])
        && now + rest == old(now) + delta
    {
      HeadRepresents(tcb[..], tmrHdr, agenda, held, now);
      CarriedAt(tcb[..], tmrHdr, agenda, held, now, 0);
      hide Represents, WellFormed;
      popped, prim, rest := false, Prim(0, 0, 0), delta;
      if tmrHdr != NULL && tcb[tmrHdr].timeleft <= delta {
        PopRepresents(tcb[..], tmrHdr, agenda, held, now);
        var cur := tmrHdr;
        tmrHdr := tcb[cur].next;
        rest := delta - tcb[cur].timeleft;
        popped, prim := true, Prim(tcb[cur].que, tcb[cur].event, tcb[cur].ccb);
        tcb[cur] := tcb[cur].(idle := true);
        agenda, now := agenda[1..], agenda[0].due;
      }
    }

    /** The last critical section of a tick: charge what is left to the head. */
    method ChargeHead(delta: nat)
      requires Valid()
      requires agenda != [] ==> now + delta <= agenda[0].due
      modifies this`now, tcb
      ensures Valid() && now == old(now) + delta
    {
      HeadRepresents(tcb[..], tmrHdr, agenda, held, now);
      ChargeRepresents(tcb[..], tmrHdr, agenda, held, now, delta);
      hide Represents, WellFormed;
      if tmrHdr != NULL {
        tcb[tmrHdr] := tcb[tmrHdr].(timeleft := ToU32(tcb[tmrHdr].timeleft - delta));
      }
      now := now + delta;
    }

    /** One round of os_tmr with nothing interleaved: the mails posted are those of the
        timers that the charge reaches, in deadline order, and every other deadline
        stands. */
    method Tick(elapsed: int) returns (posted: seq<Prim>)
      requires Valid()
      modifies this`tmrHdr, this`agenda, this`now, tcb
      ensures Valid() && now == old(now) + ChargeOf(elapsed)
      ensures elapsed < 0 ==> now == old(now) + 500_000
      ensures 0 <= elapsed <= 1_000_000 ==> now == old(now) + elapsed
      ensures elapsed > 1_000_000 ==> now == old(now) + 1_000_000
      ensures var n := DueCount(old(agenda), now);
        posted == PrimsOf(old(agenda)[..n]) && agenda == old(agenda)[n..]
    {
      hide Represents;
      var delta := ChargeOf(elapsed);
      ghost var a, t, n := agenda, now + delta, 0;
      posted := [];
      while true
        invariant Valid() && now + delta == t && t == old(now) + ChargeOf(elapsed)
        invariant n <= |a| && agenda == a[n..] && posted == PrimsOf(a[..n])
        invariant forall i | 0 <= i < n :: a[i].due <= t
        decreases |a| - n
      {
        var popped, prim, rest := PopExpired(delta);
        if !popped {
          break;
        }
        assert a[..n + 1] == a[..n] + [a[n]];
        posted, delta, n := posted + [prim], rest, n + 1;
      }
      DueCountIs(a, t, n);
      ChargeHead(delta);
    }
  }
}
