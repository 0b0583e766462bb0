/** How the pool cells of lib/com_util/os_timer.c represent an agenda, and what the pointer
    and timeleft updates of its operations do to that representation. */
module TimerCells {
  import opened Words
  import opened Seqs
  import opened TimerAgenda

  /** struct _TMR_CB; a link is a slot number or NULL. */
  datatype TmrCb = TmrCb(que: int, ccb: nat, event: U8, timeleft: U32, next: int, idle: bool)

  /** Slot of entry k, or NULL past the end: the value of tmrHdr or of a next link. */
  ghost function SlotAt(a: seq<Entry>, k: nat): int {
    if k < |a| then a[k].slot else NULL
  }

  /** Slot of the entry before k, or NULL: the value of the trailing pointer of a scan. */
  ghost function SlotBefore(a: seq<Entry>, k: nat): int
    requires k <= |a|
  {
    if k == 0 then NULL else a[k - 1].slot
  }

  /** The clock value from which the timeleft of the entry at k is counted. */
  ghost function Base(a: seq<Entry>, now: nat, k: nat): nat
    requires k <= |a|
  {
    if k == 0 then now else a[k - 1].due
  }

  /** Entry k of a sits in a linked, unheld cell that stores its fields, its distance from
      the entry before it, and a link to the entry after it. */
  ghost predicate Carried(cells: seq<TmrCb>, a: seq<Entry>, held: set<nat>, now: nat, k: nat)
    requires k < |a|
  {
    var e := a[k];
    && e.slot < |cells| && e.slot !in held
    && cells[e.slot] == TmrCb(e.que, e.ccb, e.event, cells[e.slot].timeleft, SlotAt(a, k + 1), false)
    && Base(a, now, k) + cells[e.slot].timeleft == e.due
  }

  ghost predicate AllCarried(cells: seq<TmrCb>, a: seq<Entry>, held: set<nat>, now: nat) {
    forall k {:trigger Carried(cells, a, held, now, k)} | 0 <= k < |a| :: Carried(cells, a, held, now, k)
  }

  /** Every cell is idle, held, or linked; held cells are not idle. */
  ghost predicate Accounted(cells: seq<TmrCb>, a: seq<Entry>, held: set<nat>) {
    && (forall s | s in held :: s < |cells| && !cells[s].idle)
    && (forall s: nat {:trigger cells[s]} | s < |cells| :: cells[s].idle || s in held || s in Slots(a))
  }

  /** The cells and list head represent agenda a at clock now, with the slots in held
      allocated but not yet linked. */
  ghost predicate Represents(cells: seq<TmrCb>, hdr: int, a: seq<Entry>, held: set<nat>, now: nat) {
    && |cells| == MAX_TMR_CB_NUM && hdr == SlotAt(a, 0)
    && WellFormed(a, now)
    && AllCarried(cells, a, held, now)
    && Accounted(cells, a, held)
  }

  ghost predicate SomeIdle(cells: seq<TmrCb>) {
    exists s | 0 <= s < |cells| :: cells[s].idle
  }

  ghost predicate FirstIdle(cells: seq<TmrCb>, slot: int) {
    && 0 <= slot < |cells| && cells[slot].idle
    && forall s | 0 <= s < slot :: !cells[s].idle
  }

  // ---------- reading the representation ----------

  lemma {:induction false} HeadRepresents(cells: seq<TmrCb>, hdr: int, a: seq<Entry>, held: set<nat>, now: nat)
    requires Represents(cells, hdr, a, held, now)
    ensures |cells| == MAX_TMR_CB_NUM && hdr == SlotAt(a, 0) && WellFormed(a, now)
  {
  }

  lemma {:induction false} CarriedAt(cells: seq<TmrCb>, hdr: int, a: seq<Entry>, held: set<nat>, now: nat, k: nat)
    requires Represents(cells, hdr, a, held, now)
    ensures |cells| == MAX_TMR_CB_NUM
    ensures k < |a| ==> Carried(cells, a, held, now, k)
  {
  }

  lemma {:induction false} HeldAt(cells: seq<TmrCb>, hdr: int, a: seq<Entry>, held: set<nat>, now: nat, slot: nat)
    requires Represents(cells, hdr, a, held, now) && slot in held
    ensures slot < |cells| == MAX_TMR_CB_NUM && !cells[slot].idle && slot !in Slots(a)
  {
    forall k | 0 <= k < |a|
      ensures a[k].slot != slot
    {
      assert Carried(cells, a, held, now, k);
    }
  }

  /** Distinct entries never share a cell, so the pointers of a scan do not alias. */
  lemma {:induction false} NoAlias(a: seq<Entry>, now: nat, k: nat)
    requires WellFormed(a, now) && k <= |a|
    ensures k > 0 ==> SlotBefore(a, k) != SlotAt(a, k) && SlotBefore(a, k) != SlotAt(a, k + 1)
    ensures k < |a| ==> SlotAt(a, k) != SlotAt(a, k + 1)
  {
  }

  /** Around a dropped entry the scan pointers close up. */
  lemma {:induction false} DropSlots(a: seq<Entry>, k: nat)
    requires k < |a|
    ensures SlotAt(Drop(a, k), k) == SlotAt(a, k + 1) && SlotBefore(Drop(a, k), k) == SlotBefore(a, k)
  {
  }

  // ---------- MallocTmrCb ----------

  lemma {:induction false} MallocRepresents(cells: seq<TmrCb>, hdr: int, a: seq<Entry>, held: set<nat>,
        now: nat, s: nat)
    requires Represents(cells, hdr, a, held, now) && s < |cells| && cells[s].idle
    ensures Represents(cells[s := cells[s].(idle := false)], hdr, a, held + {s}, now)
  {
    var cells', held' := cells[s := cells[s].(idle := false)], held + {s};
    forall k | 0 <= k < |a|
      ensures Carried(cells', a, held', now, k)
    {
      assert Carried(cells, a, held, now, k);
    }
    hide WellFormed;
  }

  /** Filling in a held cell disturbs no running timer. */
  lemma {:induction false} FillRepresents(cells: seq<TmrCb>, hdr: int, a: seq<Entry>, held: set<nat>, now: nat,
        slot: nat, c: TmrCb)
    requires Represents(cells, hdr, a, held, now) && slot in held && slot < |cells| && !c.idle
    ensures Represents(cells[slot := c], hdr, a, held, now)
  {
    var cells' := cells[slot := c];
    forall k | 0 <= k < |a|
      ensures Carried(cells', a, held, now, k)
    {
      assert Carried(cells, a, held, now, k);
    }
    hide WellFormed;
  }

  // ---------- unlinking ----------

  /** The assignments of a removal: the predecessor links past cur, the successor takes
      over its timeleft, and cur becomes idle. */
  ghost function Bypass(cells: seq<TmrCb>, prev: int, cur: nat): seq<TmrCb>
    requires cur < |cells| && prev < |cells| && cells[cur].next < |cells|
  {
    var next := cells[cur].next;
    var c1 := if prev < 0 then cells else cells[prev := cells[prev].(next := next)];
    var c2 := if next < 0 then c1 else c1[next := c1[next].(timeleft := ToU32(c1[next].timeleft + c1[cur].timeleft))];
    c2[cur := c2[cur].(idle := true)]
  }

  lemma {:induction false} BypassAt(cells: seq<TmrCb>, prev: int, cur: nat, s: nat)
    requires cur < |cells| && prev < |cells| && cells[cur].next < |cells| && s < |cells|
    requires prev != cur && cells[cur].next != cur && (prev < 0 || prev != cells[cur].next)
    ensures |Bypass(cells, prev, cur)| == |cells|
    ensures Bypass(cells, prev, cur)[s] ==
      if s == cur then cells[s].(idle := true)
      else if s == prev then cells[s].(next := cells[cur].next)
      else if s == cells[cur].next then cells[s].(timeleft := ToU32(cells[s].timeleft + cells[cur].timeleft))
      else cells[s]
  {
  }

  /** Neighbours of the entries that remain when entry k goes. */
  lemma {:induction false} DropAt(a: seq<Entry>, now: nat, k: nat, j: nat)
    requires k < |a| && j < |a| && j != k
    ensures var b, i := Drop(a, k), if j < k then j else j - 1;
      && i < |b| && b[i] == a[j]
      && Base(b, now, i) == (if j == k + 1 then Base(a, now, k) else Base(a, now, j))
      && SlotAt(b, i + 1) == (if j + 1 == k then SlotAt(a, k + 1) else SlotAt(a, j + 1))
  {
  }

  /** Where entry j's slot stands relative to the pointers of a scan that stops at k. */
  lemma {:induction false} ScanSlots(a: seq<Entry>, now: nat, k: nat, j: nat)
    requires WellFormed(a, now) && k <= |a| && j < |a|
    ensures a[j].slot == SlotBefore(a, k) <==> j + 1 == k
    ensures a[j].slot == SlotAt(a, k) <==> j == k
    ensures a[j].slot == SlotAt(a, k + 1) <==> j == k + 1
    ensures now <= Base(a, now, k) && a[j].due < now + 0x1_0000_0000
    ensures j >= k ==> Base(a, now, k) <= a[j].due
  {
  }

  lemma {:induction false} BypassCarried(cells: seq<TmrCb>, a: seq<Entry>, held: set<nat>, now: nat, k: nat, j: nat)
    requires k < |a| && j < |a| && j != k && WellFormed(a, now)
    requires Carried(cells, a, held, now, j) && Carried(cells, a, held, now, k)
    requires SlotBefore(a, k) < |cells| && SlotAt(a, k + 1) < |cells|
    ensures Carried(Bypass(cells, SlotBefore(a, k), a[k].slot), Drop(a, k), held, now, if j < k then j else j - 1)
  {
    NoAlias(a, now, k);
    ScanSlots(a, now, k, j);
    DropAt(a, now, k, j);
    BypassAt(cells, SlotBefore(a, k), a[k].slot, a[j].slot);
    assert j == k + 1 ==> Base(a, now, j) == a[k].due;
    hide WellFormed, Drop, Bypass, SlotAt, SlotBefore, Base;
  }

  lemma {:induction false} DropKeeps(a: seq<Entry>, now: nat, k: nat)
    requires k < |a| && WellFormed(a, now)
    ensures WellFormed(Drop(a, k), now)
    ensures Slots(Drop(a, k)) == Slots(a) - {a[k].slot}
  {
    var b := Drop(a, k);
    forall s | s in Slots(a) && s != a[k].slot
      ensures s in Slots(b)
    {
      var j :| 0 <= j < |a| && a[j].slot == s;
      assert b[if j < k then j else j - 1].slot == s;
    }
  }

  lemma {:induction false} BypassAccounted(cells: seq<TmrCb>, a: seq<Entry>, held: set<nat>, prev: int,
        cur: nat, b: seq<Entry>)
    requires Accounted(cells, a, held) && cur !in held && Slots(b) == Slots(a) - {cur}
    requires cur < |cells| && prev < |cells| && cells[cur].next < |cells|
    ensures Accounted(Bypass(cells, prev, cur), b, held)
  {
    hide Slots;
  }

  lemma {:induction false} BypassRepresents(cells: seq<TmrCb>, hdr: int, a: seq<Entry>, held: set<nat>,
        now: nat, k: nat)
    requires Represents(cells, hdr, a, held, now) && k < |a|
    requires Carried(cells, a, held, now, k) && SlotBefore(a, k) < |cells| && SlotAt(a, k + 1) < |cells|
    ensures Represents(Bypass(cells, SlotBefore(a, k), a[k].slot), SlotAt(Drop(a, k), 0), Drop(a, k), held, now)
  {
    var cells', b := Bypass(cells, SlotBefore(a, k), a[k].slot), Drop(a, k);
    DropKeeps(a, now, k);
    BypassAccounted(cells, a, held, SlotBefore(a, k), a[k].slot, b);
    assert |b| == |a| - 1;
    hide WellFormed, Drop, Accounted, Carried;
    forall i | 0 <= i < |b|
      ensures Carried(cells', b, held, now, i)
    {
      var j := if i < k then i else i + 1;
      assert Carried(cells, a, held, now, j);
      BypassCarried(cells, a, held, now, k, j);
    }
  }

  // ---------- linking ----------

  /** The entry a filled-in cell stands for when it is linked at clock now. */
  ghost function EntryOf(slot: nat, c: TmrCb, now: nat): Entry {
    Entry(slot, c.que, c.ccb, c.event, now + c.timeleft)
  }

  /** The assignments of an insertion between prev and next. */
  ghost function Splice(cells: seq<TmrCb>, prev: int, slot: nat, next: int, timeleft: U32): seq<TmrCb>
    requires slot < |cells| && prev < |cells| && next < |cells|
  {
    var c1 := cells[slot := cells[slot].(timeleft := timeleft, next := next)];
    var c2 := if prev < 0 then c1 else c1[prev := c1[prev].(next := slot)];
    if next < 0 then c2 else c2[next := c2[next].(timeleft := ToU32(c2[next].timeleft - c2[slot].timeleft))]
  }

  /** The agenda with e at position n. */
  ghost function InsertAt(a: seq<Entry>, n: nat, e: Entry): seq<Entry>
    requires n <= |a|
  {
    a[..n] + [e] + a[n..]
  }

  /** Position n of a is where an entry due at t belongs. */
  ghost predicate PlaceFor(a: seq<Entry>, n: nat, t: nat) {
    && n <= |a|
    && (forall i | 0 <= i < n :: a[i].due <= t)
    && (forall i | n <= i < |a| :: t < a[i].due)
  }

  lemma {:induction false} SpliceAt(cells: seq<TmrCb>, prev: int, slot: nat, next: int, timeleft: U32, s: nat)
    requires slot < |cells| && prev < |cells| && next < |cells| && s < |cells|
    requires prev != slot && next != slot && (prev < 0 || prev != next)
    ensures |Splice(cells, prev, slot, next, timeleft)| == |cells|
    ensures Splice(cells, prev, slot, next, timeleft)[s] ==
      if s == slot then cells[s].(timeleft := timeleft, next := next)
      else if s == prev then cells[s].(next := slot)
      else if s == next then cells[s].(timeleft := ToU32(cells[s].timeleft - timeleft))
      else cells[s]
  {
  }

  /** Neighbours of the entries of a once e stands at n. */
  lemma {:induction false} InsertNeighbours(a: seq<Entry>, now: nat, n: nat, e: Entry, j: nat)
    requires n <= |a| && j < |a|
    ensures var b, i := InsertAt(a, n, e), if j < n then j else j + 1;
      && |b| == |a| + 1 && b[i] == a[j]
      && Base(b, now, i) == (if j == n then e.due else Base(a, now, j))
      && SlotAt(b, i + 1) == (if j + 1 == n then e.slot else SlotAt(a, j + 1))
  {
  }

  lemma {:induction false} SpliceCarried(cells: seq<TmrCb>, a: seq<Entry>, held: set<nat>, now: nat, slot: nat,
        n: nat, timeleft: U32, j: nat)
    requires j < |a| && Carried(cells, a, held, now, j) && WellFormed(a, now)
    requires slot < |cells| && slot in held && slot !in Slots(a) && PlaceFor(a, n, EntryOf(slot, cells[slot], now).due)
    requires Base(a, now, n) + timeleft == EntryOf(slot, cells[slot], now).due
    requires SlotBefore(a, n) < |cells| && SlotAt(a, n) < |cells|
    ensures Carried(Splice(cells, SlotBefore(a, n), slot, SlotAt(a, n), timeleft),
              InsertAt(a, n, EntryOf(slot, cells[slot], now)), held - {slot}, now, if j < n then j else j + 1)
  {
    NoAlias(a, now, n);
    NotSlot(a, n, slot);
    ScanSlots(a, now, n, j);
    InsertNeighbours(a, now, n, EntryOf(slot, cells[slot], now), j);
    SpliceAt(cells, SlotBefore(a, n), slot, SlotAt(a, n), timeleft, a[j].slot);
    assert n < |a| ==> EntryOf(slot, cells[slot], now).due < a[n].due;
    hide WellFormed, PlaceFor, InsertAt, Splice, SlotAt, SlotBefore, Base, Slots;
  }

  lemma {:induction false} NotSlot(a: seq<Entry>, n: nat, slot: nat)
    requires n <= |a| && slot !in Slots(a)
    ensures SlotBefore(a, n) != slot && SlotAt(a, n) != slot
  {
    assert forall i | 0 <= i < |a| :: a[i].slot in Slots(a);
  }

  lemma {:induction false} InsertKeeps(a: seq<Entry>, now: nat, n: nat, e: Entry)
    requires WellFormed(a, now) && PlaceFor(a, n, e.due)
    requires e.slot !in Slots(a) && now <= e.due < now + 0x1_0000_0000
    ensures WellFormed(InsertAt(a, n, e), now)
  {
    assert forall i | 0 <= i < |a| :: a[i].slot in Slots(a);
    hide Slots;
  }

  lemma {:induction false} InsertSlots(a: seq<Entry>, n: nat, e: Entry)
    requires n <= |a|
    ensures Slots(InsertAt(a, n, e)) == Slots(a) + {e.slot}
  {
    var b := InsertAt(a, n, e);
    forall i | 0 <= i < |a|
      ensures a[i].slot in Slots(b)
    {
      assert b[if i < n then i else i + 1] == a[i];
    }
    assert b[n] == e;
  }

  lemma {:induction false} SpliceAccounted(cells: seq<TmrCb>, a: seq<Entry>, held: set<nat>, prev: int,
        slot: nat, next: int, timeleft: U32, b: seq<Entry>)
    requires Accounted(cells, a, held) && Slots(b) == Slots(a) + {slot}
    requires slot < |cells| && prev < |cells| && next < |cells|
    ensures Accounted(Splice(cells, prev, slot, next, timeleft), b, held - {slot})
  {
    hide Slots;
  }

  lemma {:induction false} SpliceNew(cells: seq<TmrCb>, a: seq<Entry>, held: set<nat>, now: nat, slot: nat,
                                     n: nat, timeleft: U32)
    requires slot < |cells| && slot !in Slots(a) && !cells[slot].idle && n <= |a|
    requires Base(a, now, n) + timeleft == EntryOf(slot, cells[slot], now).due
    requires SlotBefore(a, n) < |cells| && SlotAt(a, n) < |cells|
    requires n > 0 ==> SlotBefore(a, n) != SlotAt(a, n)
    ensures Carried(Splice(cells, SlotBefore(a, n), slot, SlotAt(a, n), timeleft),
              InsertAt(a, n, EntryOf(slot, cells[slot], now)), held - {slot}, now, n)
  {
    NotSlot(a, n, slot);
    SpliceAt(cells, SlotBefore(a, n), slot, SlotAt(a, n), timeleft, slot);
    hide Splice;
    var e := EntryOf(slot, cells[slot], now);
    var b := InsertAt(a, n, e);
    assert b[n] == e && SlotAt(b, n + 1) == SlotAt(a, n) && Base(b, now, n) == Base(a, now, n);
  }

  lemma {:induction false} SpliceAll(cells: seq<TmrCb>, a: seq<Entry>, held: set<nat>, now: nat, slot: nat,
                                     n: nat, timeleft: U32)
    requires AllCarried(cells, a, held, now) && WellFormed(a, now)
    requires slot < |cells| && slot in held && slot !in Slots(a) && !cells[slot].idle
    requires PlaceFor(a, n, EntryOf(slot, cells[slot], now).due)
    requires Base(a, now, n) + timeleft == EntryOf(slot, cells[slot], now).due
    requires SlotBefore(a, n) < |cells| && SlotAt(a, n) < |cells|
    ensures AllCarried(Splice(cells, SlotBefore(a, n), slot, SlotAt(a, n), timeleft),
              InsertAt(a, n, EntryOf(slot, cells[slot], now)), held - {slot}, now)
  {
    var b := InsertAt(a, n, EntryOf(slot, cells[slot], now));
    assert |b| == |a| + 1;
    NoAlias(a, now, n);
    SpliceNew(cells, a, held, now, slot, n, timeleft);
    hide WellFormed, PlaceFor, Slots, Carried, InsertAt, Splice;
    forall i | 0 <= i < |b|
      ensures Carried(Splice(cells, SlotBefore(a, n), slot, SlotAt(a, n), timeleft), b, held - {slot}, now, i)
    {
      if i != n {
        var j := if i < n then i else i - 1;
        assert Carried(cells, a, held, now, j);
        SpliceCarried(cells, a, held, now, slot, n, timeleft, j);
      }
    }
  }

  lemma {:induction false} SpliceRepresents(cells: seq<TmrCb>, hdr: int, a: seq<Entry>, held: set<nat>,
        now: nat, slot: nat, n: nat, timeleft: U32)
    requires Represents(cells, hdr, a, held, now) && slot in held && slot < |cells|
    requires PlaceFor(a, n, EntryOf(slot, cells[slot], now).due)
    requires Base(a, now, n) + timeleft == EntryOf(slot, cells[slot], now).due
    requires SlotBefore(a, n) < |cells| && SlotAt(a, n) < |cells|
    ensures var b := InsertAt(a, n, EntryOf(slot, cells[slot], now));
      Represents(Splice(cells, SlotBefore(a, n), slot, SlotAt(a, n), timeleft), SlotAt(b, 0), b, held - {slot}, now)
  {
    HeldAt(cells, hdr, a, held, now, slot);
    var e := EntryOf(slot, cells[slot], now);
    InsertKeeps(a, now, n, e);
    InsertSlots(a, n, e);
    SpliceAll(cells, a, held, now, slot, n, timeleft);
    SpliceAccounted(cells, a, held, SlotBefore(a, n), slot, SlotAt(a, n), timeleft, InsertAt(a, n, e));
    hide WellFormed, PlaceFor, Slots, Accounted, AllCarried, InsertAt, EntryOf, SlotAt, SlotBefore;
  }

  /** Everything the last section of StartTmr needs to know once its scan has stopped. */
  lemma {:induction false} LinkRepresents(cells: seq<TmrCb>, hdr: int, a: seq<Entry>, held: set<nat>, now: nat,
        slot: nat, timeleft: U32)
    requires Represents(cells, hdr, a, held, now) && slot in held && slot < |cells|
    requires var e := EntryOf(slot, cells[slot], now);
      Base(a, now, DueCount(a, e.due)) + timeleft == e.due
    ensures var e := EntryOf(slot, cells[slot], now);
      var n := DueCount(a, e.due);
      && NULL <= SlotBefore(a, n) < |cells| && NULL <= SlotAt(a, n) < |cells|
      && SlotBefore(a, n) != slot && SlotAt(a, n) != slot && (n > 0 ==> SlotBefore(a, n) != SlotAt(a, n))
      && (n < |a| ==> cells[SlotAt(a, n)].timeleft >= timeleft)
      && Represents(Splice(cells, SlotBefore(a, n), slot, SlotAt(a, n), timeleft),
           if n == 0 then slot else hdr, Schedule(a, e), held - {slot}, now)
  {
    HeadRepresents(cells, hdr, a, held, now);
    HeldAt(cells, hdr, a, held, now, slot);
    hide Represents;
    var e := EntryOf(slot, cells[slot], now);
    var n := DueCount(a, e.due);
    DueCountSplits(a, e.due);
    CarriedAt(cells, hdr, a, held, now, n);
    if n > 0 {
      CarriedAt(cells, hdr, a, held, now, n - 1);
    }
    NoAlias(a, now, n);
    SpliceRepresents(cells, hdr, a, held, now, slot, n, timeleft);
    assert Schedule(a, e) == InsertAt(a, n, e);
    assert SlotAt(InsertAt(a, n, e), 0) == if n == 0 then slot else SlotAt(a, 0);
    hide WellFormed;
  }

  // ---------- the timer task ----------

  lemma {:induction false} PopCarried(cells: seq<TmrCb>, a: seq<Entry>, held: set<nat>, now: nat, i: nat)
    requires i + 1 < |a| && Carried(cells, a, held, now, 0) && Carried(cells, a, held, now, i + 1)
    requires a[0].slot != a[i + 1].slot
    ensures Carried(cells[a[0].slot := cells[a[0].slot].(idle := true)], a[1..], held, a[0].due, i)
  {
    var b := a[1..];
    assert b[i] == a[i + 1] && (i > 0 ==> b[i - 1] == a[i]) && SlotAt(b, i + 1) == SlotAt(a, i + 2);
  }

  lemma {:induction false} PopKeeps(a: seq<Entry>, now: nat)
    requires a != [] && WellFormed(a, now)
    ensures WellFormed(a[1..], a[0].due) && Slots(a[1..]) == Slots(a) - {a[0].slot}
  {
    DropKeeps(a, now, 0);
    assert a[1..] == Drop(a, 0);
    assert forall i | 0 <= i < |a[1..]| :: a[0].due <= a[1..][i].due;
  }

  /** Popping the head moves the clock to its deadline; its successor's timeleft already
      counts from there. */
  lemma {:induction false} PopRepresents(cells: seq<TmrCb>, hdr: int, a: seq<Entry>, held: set<nat>, now: nat)
    requires Represents(cells, hdr, a, held, now) && a != [] && a[0].slot < |cells|
    ensures Represents(cells[a[0].slot := cells[a[0].slot].(idle := true)], SlotAt(a, 1), a[1..], held, a[0].due)
  {
    assert Carried(cells, a, held, now, 0);
    var now', b := a[0].due, a[1..];
    var cells' := cells[a[0].slot := cells[a[0].slot].(idle := true)];
    forall i | 0 <= i < |b|
      ensures Carried(cells', b, held, now', i)
    {
      assert Carried(cells, a, held, now, i + 1);
      assert a[0].slot != a[i + 1].slot;
      PopCarried(cells, a, held, now, i);
    }
    PopKeeps(a, now);
    hide WellFormed;
    assert SlotAt(b, 0) == SlotAt(a, 1);
    hide Carried;
  }

  lemma {:induction false} ChargeRepresents(cells: seq<TmrCb>, hdr: int, a: seq<Entry>, held: set<nat>,
        now: nat, delta: nat)
    requires Represents(cells, hdr, a, held, now)
    requires a != [] ==> now + delta <= a[0].due
    ensures a != [] ==> a[0].slot < |cells| && cells[a[0].slot].timeleft >= delta
    ensures a == [] ==> Represents(cells, hdr, a, held, now + delta)
    ensures a != [] ==>
      var s := a[0].slot;
      Represents(cells[s := cells[s].(timeleft := ToU32(cells[s].timeleft - delta))], hdr, a, held, now + delta)
  {
    if a != [] {
      assert Carried(cells, a, held, now, 0);
      var s := a[0].slot;
      var cells', now' := cells[s := cells[s].(timeleft := ToU32(cells[s].timeleft - delta))], now + delta;
      forall i | 0 <= i < |a|
        ensures Carried(cells', a, held, now', i)
      {
        assert Carried(cells, a, held, now, i);
      }
      assert WellFormed(a, now') by {
        assert forall i | 0 <= i < |a| :: a[0].due <= a[i].due;
      }
    }
  }
}
