/** lib/com_util/ipc.c: the registry of message queues that house_keep serves. */
module IpcRegistry {
  import opened Wrappers

  const MAX_IPC_NUM := 64

  /** tIPC_TBL, as far as house_keep sets it. */
  datatype Entry = Entry(key: int, qid: int, name: string, valid: bool)

  /** The ways GET_MSGQ ends: with no queue; with a queue that it created but whose size it
      could not enlarge, which it reports as an error; or with a queue ready for use. */
  datatype Created = NoQueue | Unready(q: nat) | Ready(q: nat) {
    /** The id it stores, whether or not it reports an error. */
    function Id(): int {
      if NoQueue? then -1 else q
    }
  }

  datatype Queue = Queue(qid: int, name: string)

  datatype Request = Reg(key: int, name: string, created: Created) | Map(key: int)

  // ---------- the registry as a map ----------

  /** REG on a map from keys to queues.  A new key needs room and a queue; a known key gets
      the new id even if its queue could not be set up. */
  function Register(m: map<int, Queue>, key: int, name: string, created: Created): map<int, Queue> {
    if key in m then m[key := Queue(created.Id(), if created.Ready? then name else m[key].name)]
    else if |m| < MAX_IPC_NUM && created.Ready? then m[key := Queue(created.Id(), name)]
    else m
  }

  function After(requests: seq<Request>): map<int, Queue> {
    if requests == [] then map[]
    else
      var m, r := After(requests[..|requests| - 1]), requests[|requests| - 1];
      if r.Reg? then Register(m, r.key, r.name, r.created) else m
  }

  /** What GET_MSGQ gave for the latest REG of a key. */
  function LatestReg(requests: seq<Request>, key: int): Option<Created> {
    if requests == [] then None
    else
      var r := requests[|requests| - 1];
      if r.Reg? && r.key == key then Some(r.created) else LatestReg(requests[..|requests| - 1], key)
  }

  /** The registry never outgrows its table, and a key once in it stays. */
  lemma {:induction false} NeverOverfull(requests: seq<Request>, more: seq<Request>)
    ensures |After(requests)| <= MAX_IPC_NUM
    ensures After(requests).Keys <= After(requests + more).Keys
    decreases |requests| + |more|
  {
    if more != [] {
      var n := |more| - 1;
      assert (requests + more)[..|requests + more| - 1] == requests + more[..n];
      NeverOverfull(requests, more[..n]);
    } else {
      assert requests + more == requests;
      if requests != [] {
        NeverOverfull(requests[..|requests| - 1], []);
      }
    }
  }

  /** A registered key maps to the id its latest REG left. */
  lemma {:induction false} MapsToLatest(requests: seq<Request>, key: int)
    requires key in After(requests)
    ensures LatestReg(requests, key).Some? && After(requests)[key].qid == LatestReg(requests, key).value.Id()
  {
    var before := requests[..|requests| - 1];
    if key in After(before) {
      MapsToLatest(before, key);
    }
  }

  /** The name given by the latest REG of a key that succeeded. */
  function LatestName(requests: seq<Request>, key: int): Option<string> {
    if requests == [] then None
    else
      var before, r := requests[..|requests| - 1], requests[|requests| - 1];
      if r.Reg? && r.key == key && r.created.Ready? && (key in After(before) || |After(before)| < 64) then Some(r.name)
      else LatestName(before, key)
  }

  /** A key is registered once such a REG was, and under the name it gave. */
  lemma {:induction false} NamedByLatest(requests: seq<Request>, key: int)
    ensures key in After(requests) <==> LatestName(requests, key).Some?
    ensures key in After(requests) ==> After(requests)[key].name == LatestName(requests, key).value
  {
    if requests != [] {
      NamedByLatest(requests[..|requests| - 1], key);
    }
  }

  /** A REG of a registered key that fails is answered with the id it left from then on. */
  lemma FailedReRegistration(requests: seq<Request>, key: int, name: string, failed: Created)
    requires key in After(requests) && !failed.Ready?
    ensures var after := After(requests + [Reg(key, name, failed)]);
      key in after && after[key] == Queue(if failed.Unready? then failed.q else -1, After(requests)[key].name)
  {
    var more := requests + [Reg(key, name, failed)];
    assert more[..|more| - 1] == requests;
  }

  // ---------- which queues exist ----------

  /** The queues that exist, by key; there is one for a key at most. */
  type Kernel = map<int, int>

  /** DEL_MSGQ: whichever queue has the id is gone. */
  function Delete(k: Kernel, id: int): Kernel {
    map key | key in k && k[key] != id :: k[key]
  }

  ghost predicate Exists(k: Kernel, id: int) {
    exists key :: key in k && k[key] == id
  }

  /** A REG calls GET_MSGQ unless the key is new and the table full. */
  predicate SetsUp(m: map<int, Queue>, key: int) {
    key in m || |m| < MAX_IPC_NUM
  }

  /** What is left of the other queues when GET_MSGQ creates one: that of a registered key
      was deleted by its id, and one that still stands under the same key is removed. */
  function Cleared(k: Kernel, m: map<int, Queue>, key: int): Kernel {
    (if key in m then Delete(k, m[key].qid) else k) - {key}
  }

  function SetUp(k: Kernel, key: int, created: Created): Kernel {
    if created.NoQueue? then k else k[key := created.q]
  }

  function Queues(requests: seq<Request>): Kernel {
    if requests == [] then map[]
    else
      var before, r := requests[..|requests| - 1], requests[|requests| - 1];
      if r.Reg? && SetsUp(After(before), r.key) then
        SetUp(Cleared(Queues(before), After(before), r.key), r.key, r.created)
      else Queues(before)
  }

  /** How the latest GET_MSGQ for a key ended, if there was one. */
  function LatestSetUp(requests: seq<Request>, key: int): Option<Created> {
    if requests == [] then None
    else
      var before, r := requests[..|requests| - 1], requests[|requests| - 1];
      if r.Reg? && r.key == key && SetsUp(After(before), key) then Some(r.created) else LatestSetUp(before, key)
  }

  /** Some GET_MSGQ for the key succeeded. */
  predicate EverReady(requests: seq<Request>, key: int) {
    requests != [] &&
    var before, r := requests[..|requests| - 1], requests[|requests| - 1];
    EverReady(before, key) || (r.Reg? && r.key == key && SetsUp(After(before), key) && r.created.Ready?)
  }

  /** The kernel gives no id that is in use. */
  ghost predicate FreshIds(requests: seq<Request>) {
    requests == [] ||
    var before, r := requests[..|requests| - 1], requests[|requests| - 1];
    FreshIds(before)
    && (r.Reg? && SetsUp(After(before), r.key) && !r.created.NoQueue? ==>
          !Exists(Cleared(Queues(before), After(before), r.key), r.created.q))
  }

  ghost predicate LeftQueue(o: Option<Created>) {
    o.Some? && !o.value.NoQueue?
  }

  /** For one key: its queue is the one its latest set-up left, and what is registered is the
      id that set-up stored. */
  ghost predicate KeyOwned(k: Kernel, m: map<int, Queue>, latest: Option<Created>, key: int) {
    && (key in k <==> LeftQueue(latest))
    && (key in k ==> k[key] == latest.value.q)
    && (key in m ==> latest.Some? && m[key].qid == latest.value.Id())
  }

  ghost predicate NoneShared(k: Kernel) {
    forall i, j | i in k && j in k && i != j :: k[i] != k[j]
  }

  ghost predicate KernelFit(k: Kernel) {
    NoneShared(k) && forall j | j in k :: k[j] >= 0
  }

  /** Deleting by a registered id deletes the queue of that key and no other. */
  lemma ClearedIs(k: Kernel, m: map<int, Queue>, latest: Option<Created>, key: int)
    requires KernelFit(k) && KeyOwned(k, m, latest, key)
    ensures Cleared(k, m, key) == k - {key}
  {
    if key in m {
      assert forall j | j in k && j != key :: k[j] != m[key].qid;
    }
  }

  lemma SetUpOwned(k: Kernel, m: map<int, Queue>, key: int, name: string, c: Created)
    requires KernelFit(k) && SetsUp(m, key) && (!c.NoQueue? ==> !Exists(k - {key}, c.q))
    ensures var k' := SetUp(k - {key}, key, c);
      && KernelFit(k') && KeyOwned(k', Register(m, key, name, c), Some(c), key)
      && forall j | j != key :: j in k' <==> j in k
    ensures forall j | j != key && j in k :: SetUp(k - {key}, key, c)[j] == k[j]
  {
    var rest := k - {key};
    assert forall j | j in rest :: rest[j] == k[j];
    hide Register;
    assert key in Register(m, key, name, c) ==> Register(m, key, name, c)[key].qid == c.Id() by {
      RegisteredId(m, key, name, c);
    }
  }

  lemma RegisteredId(m: map<int, Queue>, key: int, name: string, c: Created)
    requires SetsUp(m, key)
    ensures key in Register(m, key, name, c) ==> Register(m, key, name, c)[key].qid == c.Id()
  {
  }

  lemma {:induction false} LastRequest(requests: seq<Request>, key: int)
    requires requests != [] && FreshIds(requests)
    ensures var before, r := requests[..|requests| - 1], requests[|requests| - 1];
      var k, m := Queues(before), After(before);
      && FreshIds(before)
      && if r.Reg? && SetsUp(m, r.key) then
           && Queues(requests) == SetUp(Cleared(k, m, r.key), r.key, r.created)
           && After(requests) == Register(m, r.key, r.name, r.created)
           && LatestSetUp(requests, key) == (if r.key == key then Some(r.created) else LatestSetUp(before, key))
           && (!r.created.NoQueue? ==> !Exists(Cleared(k, m, r.key), r.created.q))
         else
           Queues(requests) == k && After(requests) == m && LatestSetUp(requests, key) == LatestSetUp(before, key)
  {
    hide Cleared, SetUp, Exists;
  }

  lemma {:induction false} QueueOfKey(requests: seq<Request>, key: int)
    requires FreshIds(requests)
    ensures KeyOwned(Queues(requests), After(requests), LatestSetUp(requests, key), key) && KernelFit(Queues(requests))
  {
    assert requests == [] ==> KernelFit(Queues(requests)) && LatestSetUp(requests, key) == None;
    assert requests == [] ==> Queues(requests) == map[] && After(requests) == map[];
    hide Cleared, KernelFit, SetUp, Queues, After, LatestSetUp, FreshIds, Exists;
    if requests != [] {
      var before, r := requests[..|requests| - 1], requests[|requests| - 1];
      LastRequest(requests, key);
      QueueOfKey(before, key);
      if r.Reg? && SetsUp(After(before), r.key) {
        QueueOfKey(before, r.key);
        ClearedIs(Queues(before), After(before), LatestSetUp(before, r.key), r.key);
        SetUpOwned(Queues(before), After(before), r.key, r.name, r.created);
        if key != r.key {
          RegisterOther(After(before), r.key, r.name, r.created, key);
        }
        hide Register;
      }
    }
  }

  lemma RegisterOther(m: map<int, Queue>, key: int, name: string, c: Created, other: int)
    requires other != key
    ensures var m' := Register(m, key, name, c);
      (other in m' <==> other in m) && (other in m ==> m'[other] == m[other])
  {
  }

  /** A key is registered exactly when some set-up for it succeeded. */
  lemma {:induction false} RegisteredIff(requests: seq<Request>, key: int)
    ensures key in After(requests) <==> EverReady(requests, key)
  {
    if requests != [] {
      RegisteredIff(requests[..|requests| - 1], key);
    }
  }

  /** After any requests: a queue exists for exactly the keys whose latest set-up left one,
      no two keys share one, and MAP leads to an existing queue, that of the key, exactly
      when the key's latest set-up left one, be it that its registration failed. */
  lemma {:induction false} QueuesOwned(requests: seq<Request>, key: int)
    requires FreshIds(requests)
    ensures key in Queues(requests) <==> LeftQueue(LatestSetUp(requests, key))
    ensures NoneShared(Queues(requests))
    ensures key in After(requests) ==>
      (Exists(Queues(requests), After(requests)[key].qid) <==> LeftQueue(LatestSetUp(requests, key)))
      && (key in Queues(requests) ==> Queues(requests)[key] == After(requests)[key].qid)
  {
    QueueOfKey(requests, key);
    hide FreshIds, After, Queues, LatestSetUp;
  }

  /** The queues that no entry names are those of the keys for which a set-up left a queue
      the last time and never succeeded. */
  lemma {:induction false} OrphanIff(requests: seq<Request>, key: int)
    requires FreshIds(requests)
    ensures key in Queues(requests) && key !in After(requests) <==>
      LeftQueue(LatestSetUp(requests, key)) && !EverReady(requests, key)
  {
    QueueOfKey(requests, key);
    RegisteredIff(requests, key);
    hide FreshIds, After, Queues, LatestSetUp, EverReady;
  }

  // ---------- the table ----------

  function QueueOf(e: Entry): Queue {
    Queue(e.qid, e.name)
  }

  ghost predicate DistinctKeys(s: seq<Entry>) {
    forall i, j | 0 <= i < j < |s| :: s[i].key != s[j].key
  }

  function MapOf(s: seq<Entry>): map<int, Queue> {
    if s == [] then map[] else MapOf(s[..|s| - 1])[s[|s| - 1].key := QueueOf(s[|s| - 1])]
  }

  lemma {:induction false} MapOfIs(s: seq<Entry>)
    requires DistinctKeys(s)
    ensures |MapOf(s)| == |s|
    ensures forall i | 0 <= i < |s| :: s[i].key in MapOf(s) && MapOf(s)[s[i].key] == QueueOf(s[i])
    ensures forall key | key in MapOf(s) :: exists i :: 0 <= i < |s| && s[i].key == key
  {
    if s != [] {
      var before := s[..|s| - 1];
      assert forall i | 0 <= i < |before| :: before[i] == s[i];
      MapOfIs(before);
      assert s[|s| - 1].key !in MapOf(before);
    }
  }

  lemma {:induction false} MapOfSet(s: seq<Entry>, i: nat, e: Entry)
    requires DistinctKeys(s) && i < |s| && e.key == s[i].key
    ensures DistinctKeys(s[i := e]) && MapOf(s[i := e]) == MapOf(s)[e.key := QueueOf(e)]
  {
    var t, n := s[i := e], |s| - 1;
    if i < n {
      assert t[..n] == s[..n][i := e];
      MapOfSet(s[..n], i, e);
    } else {
      assert t[..n] == s[..n];
    }
  }

  lemma MapOfAppend(s: seq<Entry>, e: Entry)
    ensures MapOf(s + [e]) == MapOf(s)[e.key := QueueOf(e)]
  {
    assert (s + [e])[..|s|] == s;
  }

  /** Before n entries with distinct keys, from n on invalid ones. */
  ghost predicate Prefix(tbl: seq<Entry>, n: nat) {
    && n <= |tbl| && DistinctKeys(tbl[..n])
    && (forall i | 0 <= i < n :: tbl[i].valid)
    && (forall i | n <= i < |tbl| :: !tbl[i].valid)
  }

  lemma Full(m: map<int, Queue>, key: int, name: string, created: Created)
    requires key !in m && |m| == MAX_IPC_NUM
    ensures Register(m, key, name, created) == m
  {
  }

  /** What a REG stores in the slot it found. */
  function Stored(entry: Entry, key: int, name: string, created: Created): Entry {
    if created.Ready? then Entry(key, created.Id(), name, true) else entry.(qid := created.Id())
  }

  lemma StoreRegisters(tbl: seq<Entry>, n: nat, i: nat, key: int, name: string, created: Created)
    requires Prefix(tbl, n) && i <= n && i < |tbl| == MAX_IPC_NUM
    requires i < n <==> key in MapOf(tbl[..n])
    requires i < n ==> tbl[i].key == key
    ensures var t, n' := tbl[i := Stored(tbl[i], key, name, created)], if created.Ready? && i == n then n + 1 else n;
      && Prefix(t, n') && MapOf(t[..n']) == Register(MapOf(tbl[..n]), key, name, created)
      && (key in MapOf(t[..n']) <==> i < n || created.Ready?)
  {
    var e, s := Stored(tbl[i], key, name, created), tbl[..n];
    var t := tbl[i := e];
    MapOfIs(s);
    if i < n {
      MapOfSet(s, i, e);
      assert t[..n] == s[i := e];
    } else {
      assert t[..n] == s;
      if created.Ready? {
        assert t[..n + 1] == s + [e];
        MapOfAppend(s, e);
      }
    }
    hide MapOf;
  }

  class Registry {
    const tbl: array<Entry>
    ghost var used: nat

    ghost predicate Valid()
      reads this, tbl
    {
      tbl.Length == MAX_IPC_NUM && Prefix(tbl[..], used)
    }

    ghost function Shown(): map<int, Queue>
      requires Valid()
      reads this, tbl
    {
      MapOf(tbl[..used])
    }

    constructor ()
      ensures Valid() && Shown() == map[] && fresh(tbl)
    {
      tbl := new Entry[MAX_IPC_NUM](_ => Entry(0, 0, "", false));
      used := 0;
    }

    /** The scan of a REG: the entry of the key, else the first free one. */
    method FindSlot(key: int) returns (i: nat)
      requires Valid()
      ensures i <= used && (i < used <==> key in Shown()) && (i < used ==> tbl[i].key == key)
    {
      ghost var s := tbl[..used];
      MapOfIs(s);
      i := 0;
      while i < MAX_IPC_NUM
        invariant 0 <= i <= used
        invariant forall k | 0 <= k < i :: s[k].key != key
      {
        if tbl[i].valid && tbl[i].key == key {
          break;
        }
        if !tbl[i].valid {
          break;
        }
        i := i + 1;
      }
    }

    /** IPC_EV_TYPE_REG: the entry sent back, if any, and the queue deleted to make way. */
    method HandleReg(key: int, name: string, created: Created) returns (reply: Option<Entry>, deleted: Option<int>)
      requires Valid()
      modifies this, tbl
      ensures Valid() && Shown() == Register(old(Shown()), key, name, created)
      ensures deleted == if key in old(Shown()) then Some(old(Shown())[key].qid) else None
      ensures reply == if created.Ready? && (key in old(Shown()) || |old(Shown())| < 64)
                       then Some(Entry(key, created.q, name, true)) else None
    {
      ghost var was, n := tbl[..], used;
      MapOfIs(was[..n]);
      hide MapOf, Register;
      var i := FindSlot(key);
      if i == MAX_IPC_NUM {
        Full(Shown(), key, name, created);
        return None, None;
      }
      StoreRegisters(was, n, i, key, name, created);
      hide DistinctKeys;
      deleted := if tbl[i].valid then Some(tbl[i].qid) else None;
      tbl[i] := tbl[i].(qid := created.Id());
      if !created.Ready? {
        assert tbl[..] == was[i := Stored(was[i], key, name, created)];
        return None, deleted;
      }
      tbl[i] := Entry(key, created.Id(), name, true);
      assert tbl[..] == was[i := Stored(was[i], key, name, created)];
      used := if i == n then n + 1 else n;
      reply := Some(tbl[i]);
    }

    /** IPC_EV_TYPE_MAP: the entry of a registered key, and no answer for any other. */
    method HandleMap(key: int) returns (reply: Option<Entry>)
      requires Valid()
      ensures reply.Some? <==> key in Shown()
      ensures reply.Some? ==> reply.value.key == key && reply.value.valid && QueueOf(reply.value) == Shown()[key]
    {
      ghost var s := tbl[..used];
      MapOfIs(s);
      for i := 0 to MAX_IPC_NUM
        invariant forall k | 0 <= k < i && k < used :: s[k].key != key
      {
        if tbl[i].valid && tbl[i].key == key {
          assert s[i].key == key;
          return Some(tbl[i]);
        }
      }
      return None;
    }
  }
}
