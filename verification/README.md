# ofpagent: a Dafny model of an OpenFlow agent

ofpagent connects a switch port to an OpenFlow 1.3 controller. This project models the parts
of it where correctness is not obvious from one function, and proves what they promise.

* **Timer service** (`lib/com_util/os_timer.c`). A pool of 1200 cells in shared memory holds
  one list in which each cell stores its time relative to the cell before it. `OsTimer` is the
  pool as a class over an array, `TimerCells` says when the cells represent an *agenda* of
  absolute deadlines, `TimerAgenda` defines the operations on agendas and `TimerLaws` shows
  that they are update, removal and expiry in a map from (owner, event) to deadline. The
  semaphore is released between the parts of one start and of one tick, so `TimerTask` models
  every critical section as a step of its own and `TimerRuns` proves what every interleaving of
  a starting and stopping process with the timer task keeps. `TimerRefinement` joins the three:
  in every run each step is an operation on the map, and each section of the class acts as the
  step it stands for.
* **MD5 and HMAC** (`lib/com_util/md5.c`). `Md5Spec` states RFC 1321 and RFC 2104 as functions;
  `Md5` is the buffered, in-place code, proved to compute them however the input is cut up.
  `Md5Suite` works one digest of the test suite of RFC 1321 out, all 64 steps, which ties every
  table and constant of `Md5Spec` to the standard.
* **The agent** (`src/ofp_fsm.c`, `src/ofpd.c`). `OfpFsm` is the state table, its interpreter
  and the handlers on a port; `OfpAgent` is the whole agent as a step system in which handlers,
  sections of the timer service, mails and controller messages interleave, with restarts;
  `OfpDispatch` says what each mail does by its OpenFlow type, over whole runs; `OfpHeartbeat`
  proves that a silent controller is noticed within the query interval and an answer good for all
  of it.
* **Codec** (`lib/com_util/util.c`, `lib/com_util/ip_codec.c`, `src/ofp_codec.c`). `Checksum`
  has the byte order functions and the Internet checksum of RFC 1071, `IpCodec` IPv4 headers,
  `UdpCodec` UDP datagrams, `HostList` the linked list of learned hosts, `OfpCodec` the reply
  frame, `OfpExchange` packet-ins and flow-mods over whole sessions, and `OfpDecode` the
  dispatch of `OFP_decode_frame` on the bytes of a mail.
* **Smaller services.** `IpcRegistry` is the queue registry of `house_keep`
  (`lib/com_util/ipc.c`); `StrTok` is `GetStrTok` (`lib/com_util/util.c`).

`Words` defines the machine integers as ranges of `int`; every narrowing of the C code goes
through `ToU8`, `ToU16` or `ToU32`. Code that changes memory is imperative here too: arrays,
classes and loops, each proved against a function whose meaning the lemmas then establish.
Verify everything with `dafny verify dfyconfig.toml`.

## Where the code departs from what it is meant to do

Each of these is modelled as the code has it, with an input that shows it and the exact
condition under which the code is right.

- A tick that crosses the end of a second reads a smaller microsecond count than the tick before
  and charges half a second, whatever time passed; and a tick never charges whole seconds. The
  charge is the time that passed exactly when the reading stayed within its second or half a
  second passed (`TimerAgenda.ChargeExactIff`). Over any ticks the clock is behind by exactly what
  that loses (`TimerLaws.ClockFollows`), so timers are late by it and, when every tick takes at
  least the half second it sleeps, never early (`TimerLaws.FiresInTime`, `TimerLaws.NeverEarly`).
- The timer event is stored in a U8 but compared as a U16: starting an event of 256 or more can
  leave two timers with one stored key (`TimerLaws.StartUniqueIff`).
- A start with a short delay can be linked between the pop loop and the last section of a tick;
  the U32 subtraction from the head then wraps and every timer behind it is lost for more than an
  hour. Deadlines are kept exactly in the runs in which that does not happen
  (`TimerRuns.NoWrapIff`), and a least delay rules it out in every run exactly when it is at
  least one second (`TimerRuns.SafeDelayIff`, with the run in `TimerRuns.ShortDelayWraps`).
- `CHECK_SUM` keeps its carry in a U8, so it is right exactly for sums below 2^24
  (`Checksum.CheckSumExactIff`). An IP header never reaches that; a UDP datagram can from 499
  bytes of payload on (`UdpCodec.SafeLengthIff`), and then no valid checksum is accepted
  (`UdpCodec.AcceptsUdpIff`).
- RFC 768 sends a checksum that computes to zero as all ones; the encoder sends the zero, which
  stands for "no checksum". It sends what RFC 768 sends exactly when the sum is below 2^24 and
  the checksum does not compute to zero (`UdpCodec.UdpExactIff`, `UdpCodec.ZeroSentIff`; a
  datagram in `UdpCodec.ZeroIsSent`). The decoder refuses all ones.
- `DECODE_IP_PKT` accepts headers whose length field is below five, with the data pointer inside
  the header (`IpCodec.ShortAccepted`). What it accepts is a valid header exactly when the field
  is at least five (`IpCodec.AcceptedValidIff`), and of the valid ones it refuses exactly those
  sent with a checksum of all ones (`IpCodec.ValidAcceptedIff`). The length it hands back wraps
  exactly when the header is longer than what came in (`IpCodec.DataLenIff`).
- `hmac_md5` passes its `int` lengths through a U16: the tag is that of RFC 2104 for texts below
  65536 bytes, and every longer text has the tag of a shorter one (`Md5.hmac_md5`,
  `Md5.HmacTruncates`).
- `OFP_encode_packet_in` copies whatever `OFP_decode_frame` lets through behind 42 bytes of
  header into 1500 bytes: mails of 1464 to 1500 bytes overrun the buffer, by up to 37 bytes, and
  so do mails shorter than five (`OfpExchange.PacketInFitsIff`).
- `find_node` unlinks a match only when another node precedes it, yet the caller frees every
  match. The list stays sound exactly when an older buffered id is still open
  (`OfpExchange.HeadIffOldest`); one packet-in and its flow-mod break it
  (`OfpExchange.OneHostBreaks`).
- An OpenFlow message of a type that `OFP_decode_frame` does not know is handled as the last mail
  that it did know, over again (`OfpDispatch.UnknownRepeats`).
- A set-field flow-mod whose id is not buffered makes the original read through a null pointer;
  that outcome is a result of the modelled method
  (`OfpExchange.Port.OFP_encode_back_to_host`).
- `GET_MSGQ` reports an error for a queue that it created but could not enlarge. A key already
  registered keeps its entry, with the id stored by the failed attempt
  (`IpcRegistry.FailedReRegistration`); MAP then leads to an existing queue exactly when the
  latest set-up left one (`IpcRegistry.QueuesOwned`). For a new key the queue stays behind with
  no entry that names it, exactly as `IpcRegistry.OrphanIff` says.
- The repository's own README says flow-mods are only printed; the code answers a set-field
  flow-mod with a frame, and that is what is modelled.

## Model

| member | source | states |
|---|---|---|
| Words.Narrow8 | lib/com_util/common.h:98 | a U8 keeps a value modulo 256, whatever its sign |
| Words.Narrow16 | lib/com_util/common.h:100 | a U16 modulo 2^16 |
| Words.Narrow32 | lib/com_util/common.h:106 | a U32 modulo 2^32 |
| OsTimer.TimerPool.constructor | lib/com_util/os_timer.c:119-141 | a new pool is empty at clock zero |
| OsTimer.TimerPool.InitTmrCbs | lib/com_util/os_timer.c:134-140 | whatever was running is forgotten and every slot is idle |
| OsTimer.TimerPool.MallocTmrCb | lib/com_util/os_timer.c:649-683 | hands out the lowest idle slot, fails exactly when none is idle, changes no timer |
| OsTimer.TimerPool.IsTmrListEmpty | lib/com_util/os_timer.c:585-591 | true exactly when no timer is running |
| OsTimer.TimerPool.IsTmrExist | lib/com_util/os_timer.c:601-641 | true exactly when the owner has a timer with the event, any timer for event 0 |
| OsTimer.TimerPool.Unlink | lib/com_util/os_timer.c:553-567 | takes one timer out, frees its slot and keeps every other absolute deadline |
| OsTimer.TimerPool.StopXtmr | lib/com_util/os_timer.c:523-575 | the first timer with owner and event is gone, all others stand; afterwards a slot is idle if one was or the timer was running |
| OsTimer.TimerPool.StopTmrs | lib/com_util/os_timer.c:464-508 | one pass removes exactly the owner's timers, adjacent ones and the head included, and keeps order and deadlines of the rest |
| OsTimer.TimerPool.ScanPlace | lib/com_util/os_timer.c:431-434 | the scan stops behind all deadlines not later than the new one, with the distance left to store |
| OsTimer.TimerPool.LinkTmr | lib/com_util/os_timer.c:403-455 | the new timer enters at exactly the requested delay; no subtraction wraps and no other deadline moves |
| OsTimer.TimerPool.StartTmr | lib/com_util/os_timer.c:386-456 | restarts the key at the requested delay; fails only when no slot is idle and the timer was not running |
| OsTimer.TimerPool.PopExpired | lib/com_util/os_timer.c:279-311 | pops the head exactly when the charge reaches its deadline, and turns the clock to that deadline |
| OsTimer.TimerPool.ChargeHead | lib/com_util/os_timer.c:355-364 | charging the rest to the head moves the clock and no deadline |
| OsTimer.TimerPool.Tick | lib/com_util/os_timer.c:254-373 | the clock moves by the elapsed time, by half a second when that is negative, by a second when it is more; exactly the timers that this reaches are posted, in deadline order, and the others' deadlines stand |
| TimerCells.MallocRepresents | lib/com_util/os_timer.c:660-672 | taking an idle slot keeps the cells a representation of the agenda |
| TimerCells.BypassRepresents | lib/com_util/os_timer.c:553-567 | bypassing a cell and adding its time to the next represents the agenda without it |
| TimerCells.LinkRepresents | lib/com_util/os_timer.c:435-444 | splicing a cell in represents the agenda with the new deadline in its place |
| TimerCells.PopRepresents | lib/com_util/os_timer.c:299-309 | dropping the head at its deadline represents the rest from there |
| TimerCells.ChargeRepresents | lib/com_util/os_timer.c:363-364 | one subtraction at the head re-bases the whole list |
| TimerAgenda.DueCountSplits | lib/com_util/os_timer.c:431-434 | in an ordered agenda the timers due by t are a prefix |
| TimerAgenda.FindKeyFinds | lib/com_util/os_timer.c:533-535 | the scan finds the first timer with owner and event, and fails only if there is none |
| TimerAgenda.StopOwnerStep | lib/com_util/os_timer.c:474-501 | what one round of the in-place pass does to the part done and the part left |
| TimerAgenda.ChargeIs | lib/com_util/os_timer.c:244-260 | from the two clock readings a tick charges the time that passed without its whole seconds, or half a second if the reading wrapped |
| TimerAgenda.ChargeExactIff | lib/com_util/os_timer.c:254-255 | the charge is the time that passed exactly when the reading stayed within its second, or half a second passed |
| TimerLaws.StopRefines | lib/com_util/os_timer.c:523-575 | stopping is removal of the key from the map of deadlines |
| TimerLaws.StartRefines | lib/com_util/os_timer.c:386-456 | starting is an update of the map, running key or not, and changes no other key |
| TimerLaws.StartUniqueIff | lib/com_util/os_timer.h:22 | keys stay unique exactly when the event is below 256 or the truncated key is free |
| TimerLaws.StopOwnerRefines | lib/com_util/os_timer.c:474-501 | the pass over one owner is removal of all its keys |
| TimerLaws.TickRefines | lib/com_util/os_timer.c:279-364 | a tick expires exactly the keys due by the new clock and leaves the others' deadlines |
| TimerLaws.ScheduleIsFifo | lib/com_util/os_timer.c:431-444 | a new timer stands behind equal deadlines and before later ones |
| TimerLaws.SlotConservation | lib/com_util/os_timer.c:660-672 | idle, held and linked slots always add up to 1200 |
| TimerLaws.FiresAtFirstReach | lib/com_util/os_timer.c:254-364 | over any ticks a timer fires in the first one whose accumulated charge reaches its delay, and in no other |
| TimerLaws.ClockFollows | lib/com_util/os_timer.c:244-262 | over any rounds the charged clock is behind the time by what is lost: in a round whose reading wrapped all beyond half a second, in any other the whole seconds |
| TimerLaws.FiresInTime | lib/com_util/os_timer.c:244-364 | a timer fires in the first round after which the time less that loss reaches it, and in no other |
| TimerLaws.NeverEarly | lib/com_util/os_timer.c:242-364 | no timer fires before its time when every round takes at least the half second that is slept |
| TimerTask.StepSlots | lib/com_util/os_timer.c:386-456 | every critical section keeps idle, held and linked slots a partition of the pool |
| TimerTask.RunSlots | lib/com_util/os_timer.c:254-456 | in every interleaving no slot is lost, linked twice, or idle while in use |
| TimerRuns.LinkDeltas | lib/com_util/os_timer.c:431-444 | U32 insertion into the relative list is insertion at the absolute deadline |
| TimerRuns.StopDeltas | lib/com_util/os_timer.c:553-565 | U32 removal from the relative list keeps every other absolute deadline |
| TimerRuns.StopAllDeltas | lib/com_util/os_timer.c:474-501 | so does the pass over one owner |
| TimerRuns.StepKeys | lib/com_util/os_timer.c:392-400 | for events below 256 and any delays, no section makes two linked timers share owner and event, though a start releases the lock after its stop |
| TimerRuns.EveryRunKeys | lib/com_util/os_timer.c:386-456 | so in every run, whatever the delays, even one in which a charge wraps |
| TimerRuns.ChargeStoredIff | lib/com_util/os_timer.c:363-364 | the last section of a tick keeps all deadlines exactly when its subtraction does not wrap |
| TimerRuns.StepStoredIff | lib/com_util/os_timer.c:279-364 | every section keeps the list equal to the deadlines on the charged clock, whatever the delays and events, the charge exactly when it does not wrap |
| TimerRuns.StepOnTime | lib/com_util/os_timer.c:279-364 | with delays of at least a second, and any events, no section wraps and the next one will not |
| TimerRuns.StepBooked | lib/com_util/os_timer.c:299-325 | every timer ever linked is running, cancelled, or posted once with the clock at its deadline |
| TimerRuns.EveryRunSound | lib/com_util/os_timer.c:254-456 | all of that in every run of the step system in which no charge wraps, with any delays |
| TimerRuns.NothingOverdue | lib/com_util/os_timer.c:279-297 | between ticks no running timer is overdue or further away than U32 |
| TimerRuns.CellsStoreDeltas | lib/com_util/os_timer.c:396-401 | the cells of the class are the nodes of the step system |
| TimerRuns.NoWrapIff | lib/com_util/os_timer.c:363-364 | in a run with any delays and events no charge wraps exactly when the deadlines are kept in every state it passes |
| TimerRuns.SafeDelayIff | lib/com_util/os_timer.c:355-364 | a least delay keeps every run from wrapping, over runs that wake the timer task only with timers running, exactly when it is at least one second |
| TimerRuns.ShortDelayWraps | lib/com_util/os_timer.c:355-364 | for every delay d below a second, a run that wakes the timer task with a timer running, in which the charge leaves 2^32 + d - 1000000 in the head |
| TimerRefinement.SoundUnique | lib/com_util/os_timer.c:392-400 | in a sound state no key runs twice, nor while it is being started |
| TimerRefinement.StepRefines | lib/com_util/os_timer.c:254-567 | each action is an update, a removal, or the expiry of an earliest deadline in the map, or leaves it alone |
| TimerRefinement.RunRefines | lib/com_util/os_timer.c:254-567 | so at every point of every run from the empty pool |
| TimerRefinement.ShownIdle | lib/com_util/os_timer.c:660-672 | a pool and a state with the same list and clock have the same idle slots |
| TimerRefinement.StopSimulates | lib/com_util/os_timer.c:523-575 | StopXtmr on the cells is the stop step on the list |
| TimerRefinement.StopAllSimulates | lib/com_util/os_timer.c:464-508 | StopTmrs on the cells is the step for an owner |
| TimerRefinement.MallocSimulates | lib/com_util/os_timer.c:649-683 | handing out the lowest idle slot is a step that can be taken |
| TimerRefinement.MallocFails | lib/com_util/os_timer.c:674-682 | it fails exactly when the failing step can be taken |
| TimerRefinement.LinkSimulates | lib/com_util/os_timer.c:403-455 | the insertion into the cells is the link step on the list |
| TimerRefinement.PopSimulates | lib/com_util/os_timer.c:288-309 | the pop loop's section pops the same timer as the step, or neither does |
| TimerRefinement.ChargeSimulates | lib/com_util/os_timer.c:355-364 | the subtraction at the head is the charge step |
| Md5Spec.DecodeEncode | lib/com_util/md5.c:349-373 | decoding undoes encoding |
| Md5Spec.EncodeDecode | lib/com_util/md5.c:349-373 | encoding undoes decoding |
| Md5Spec.FoldAppend | lib/com_util/md5.c:201-207 | hashing whole blocks first and the rest later gives the same registers |
| Md5Spec.PadWhole | lib/com_util/md5.c:233-239 | a padded message is a whole number of blocks |
| Md5Spec.FChooses | lib/com_util/md5.c:41 | F takes y where x is set and z where it is not |
| Md5Spec.GChooses | lib/com_util/md5.c:42 | G takes x where z is set and y where it is not |
| Md5Spec.HAdds | lib/com_util/md5.c:43 | H adds without carry: it and two of its arguments give the third |
| Md5Spec.IInverts | lib/com_util/md5.c:44 | I keeps y where z is set and x is not, and inverts it elsewhere |
| Md5Spec.RotateIs | lib/com_util/md5.c:48 | every rotation of the 64 steps is multiplication by a power of two with what overflows brought in at the bottom |
| Md5Spec.LowByteFirst | lib/com_util/md5.c:349-359 | a word goes out low-order byte first |
| Md5Spec.LengthIs | lib/com_util/md5.c:230-239 | the padding ends with the count of bits modulo 2^64, low-order byte first |
| Md5Spec.HmacIs | lib/com_util/md5.c:105-143 | the tag over a key block: inner bytes with 0x36, outer ones with 0x5c |
| Md5Spec.KeyBlockIs | lib/com_util/md5.c:94-121 | the key block is the key, or its digest if it is longer than 64 bytes, then zeros |
| Md5Suite.AlphabetDigest | lib/com_util/md5.c:152-343 | the digest of the letters a to z is the one section A.5 of RFC 1321 lists |
| Md5.Round1 | lib/com_util/md5.c:264-280 | the unrolled round is steps 0 to 15 of section 3.4 of RFC 1321 |
| Md5.Round2 | lib/com_util/md5.c:282-298 | steps 16 to 31, words 5i + 1 mod 16 |
| Md5.Round3 | lib/com_util/md5.c:300-316 | steps 32 to 47, words 3i + 5 mod 16 |
| Md5.Round4 | lib/com_util/md5.c:318-334 | steps 48 to 63, words 7i mod 16 |
| Md5.MD5Transform | lib/com_util/md5.c:254-343 | the registers become those of one block more |
| Md5.MD5_encode | lib/com_util/md5.c:349-359 | words go out low-order byte first; bytes behind stay |
| Md5.MD5_decode | lib/com_util/md5.c:365-373 | reads the words whose encoding the bytes are |
| Md5.MD5_memcpy | lib/com_util/md5.c:378-384 | copies in place and changes nothing else |
| Md5.CountIndex | lib/com_util/md5.c:190 | the low count word alone gives the fill of the buffer, at every message length |
| Md5.CountAdd | lib/com_util/md5.c:193-196 | the two words with their carry test count bits modulo 2^64 |
| Md5.PaddingIs | lib/com_util/md5.c:233-239 | the padding chosen is that of sections 3.1 and 3.2 of RFC 1321 |
| Md5.Context.MD5Init | lib/com_util/md5.c:166-176 | the context of the empty message |
| Md5.Context.TransformBlocks | lib/com_util/md5.c:201-208 | the block loop folds in every complete block; its U16 counter never wraps |
| Md5.Context.MD5Update | lib/com_util/md5.c:185-214 | the context of message m becomes that of m followed by the input, for any cut and any U16 length |
| Md5.Context.FeedPadding | lib/com_util/md5.c:227-239 | the message becomes its padded form |
| Md5.Context.MD5Final | lib/com_util/md5.c:225-246 | the digest is that of RFC 1321 of everything fed in; the context is zeroed |
| Md5.MD5digest | lib/com_util/md5.c:152-159 | the digest of the string |
| Md5.ShortKey | lib/com_util/md5.c:94-101 | a key longer than 64 bytes is replaced by its digest |
| Md5.XorPad | lib/com_util/md5.c:116-126 | the zero-filled key block under XOR |
| Md5.hmac_md5 | lib/com_util/md5.c:84-143 | the tag of RFC 2104 of the text as far as a U16 length reaches, for short, 64-byte and longer keys |
| Md5.HmacExact | lib/com_util/md5.c:94-101 | for keys of at most 65535 bytes the derived block is that of RFC 2104 |
| Md5.HmacTruncates | lib/com_util/md5.c:133 | every text of 65536 bytes or more has the tag of the text without its last 65536 |
| Md5.TagDepends | lib/com_util/md5.c:133 | texts with the same bytes as far as their U16 lengths reach have one tag |
| OfpFsm.ScanTable | src/ofp_fsm.c:81-104 | the two-phase scan stays inside any terminated table and, when the rows of a state stand together, finds the first matching row |
| OfpFsm.TableShape | src/ofp_fsm.c:36-59 | the table is terminated and its rows are grouped |
| OfpFsm.Reactions | src/ofp_fsm.c:36-59 | what each event does in each state; all others are ignored |
| OfpFsm.StateForward | src/ofp_fsm.c:106-112 | the state never moves backwards, for any events |
| OfpFsm.TraceAlwaysFits | src/ofp_fsm.c:40-56 | hello first, then feature reply and echo request, neither of the first two again |
| OfpFsm.QueryCount | src/ofp_fsm.c:249-265 | query_cnt is one plus the timeouts since the last echo reply, modulo 256 |
| OfpFsm.EchoPerTimeout | src/ofp_fsm.c:44-52 | one echo request on establishment and one for each timeout handled |
| OfpFsm.StartedArms | src/ofp_fsm.c:222-232 | after a row with a start the agenda holds the port's query timer, due one interval from now |
| OfpFsm.Port.Handle | src/ofp_fsm.c:125-365 | what a handler shows and what it does to the agenda: a stop takes the port's query timer out, a start runs it anew for a whole interval unless no slot is idle and it was not running, the others touch no timer |
| OfpFsm.Port.RunHandlers | src/ofp_fsm.c:114-117 | the handlers take effect in order; a row with a start leaves the query timer running anew and no other timer touched |
| OfpFsm.Port.OFP_FSM | src/ofp_fsm.c:70-119 | the port reacts as the table says, and its timers are those the row's handlers leave; an event without a row changes nothing |
| OfpAgent.TaskInv | lib/com_util/os_timer.c:279-364 | a step of the timer task keeps the invariant: the timer moves from list to mail to mailbox and is never dropped |
| OfpAgent.ReceiveInv | src/ofpd.c:143-185 | taking any mail, stale ones and loss of the controller included, keeps the invariant |
| OfpAgent.WorkInv | src/ofp_fsm.c:222-265 | so does every piece of a handler, each section of a start on its own |
| OfpAgent.StepInv | src/ofpd.c:143-185 | every step keeps the invariant |
| OfpAgent.EveryReachable | src/ofpd.c:104-192 | the invariant holds in every reachable state, over any interleaving and any number of restarts |
| OfpAgent.HeartbeatNeverLost | src/ofp_fsm.c:44-52 | between events there is at most one query timer, and an established session has it running or its timeout under way |
| OfpAgent.HeartbeatDue | src/ofp_fsm.c:222-232 | with no timeout under way the one timer is the port's and is due within ten seconds of charged time |
| OfpAgent.StartNeverFails | lib/com_util/os_timer.c:392-394 | at least 1198 slots are idle in every reachable state |
| OfpAgent.AgentRefinesFsm | src/ofpd.c:154-185 | between events the port shows what handling the events taken in turn would, so the laws of OfpFsm hold of the agent |
| OfpDispatch.TakesMessage | src/ofp_codec.c:73-102 | what each OpenFlow type that is known shows in each state, and when it stops and starts the query timer: hello, echo reply, features request, packet-out, flow-mod, multipart request |
| OfpDispatch.TakesFrame | src/ofp_codec.c:58-62 | a frame from a host is sent on in an established session and ignored in any other |
| OfpDispatch.TakesTimeout | src/ofpd.c:155-160 | a timeout counts, asks again and starts the timer anew in an established session, and is ignored in any other |
| OfpDispatch.TakesLoss | src/ofpd.c:166-184 | losing the controller resets pool and port, which says hello again; a mail that is too long is dropped |
| OfpDispatch.UnknownRepeats | src/ofp_codec.c:103-104 | a message of unknown type is handled as the last mail that was known |
| OfpDispatch.EventKept | src/ofp_codec.c:58-107 | which mail that was changes only with mails that are known |
| OfpDispatch.UnknownIgnored | src/ofp_codec.c:103-104 | before the first such mail it is ignored |
| OfpDispatch.ShowsMails | src/ofpd.c:143-191 | in every run the port shows between events what taking the same mails one after the other calls for, by what each mail is, however handlers, timer sections and arrivals interleave |
| OfpDecode.OFP_decode_frame | src/ofp_codec.c:41-108 | on the bytes of a mail: the event left is that of the model's mail, a frame goes out as a packet-in, and no other mail but a set-field flow-mod touches hosts or buffer |
| OfpHeartbeat.StepPending | src/ofp_fsm.c:44-56 | while no message of type 3 is taken, nor one of unknown type after it, and the controller stays, every step leaves the query timer running or lets it fire |
| OfpHeartbeat.SilenceTimesOut | src/ofp_fsm.c:222-254 | from any moment between events of an established session with no timeout under way, once more than ten seconds are charged the query timer has fired, and within them |
| OfpHeartbeat.StartArms | src/ofp_fsm.c:222-232 | a start leaves one timer, the port's, due ten seconds of charged time from then |
| OfpHeartbeat.NoTimeoutBefore | src/ofp_fsm.c:222-265 | from the moment a start is done no timeout is posted for ten seconds of charged time, in any run in which the controller stays |
| Checksum.RoundTrip16 | lib/com_util/util.c:58-64 | reading a written U16 gives it back |
| Checksum.WordBytes | lib/com_util/util.c:161-167 | writing a read U16 gives its bytes back |
| Checksum.RoundTrip32 | lib/com_util/util.c:98-105 | reading a written U32 gives it back |
| Checksum.WordBytes32 | lib/com_util/util.c:190-198 | writing a read U32 gives its bytes back |
| Checksum.Be16Is | lib/com_util/util.c:206-215 | the high-order byte of a U16 comes first |
| Checksum.Be32Is | lib/com_util/util.c:240-249 | so it does for a U32, down to the lowest |
| Checksum.ENCODE_U16 | lib/com_util/util.c:206-215 | two bytes in network order, nothing else changed |
| Checksum.ENCODE_U32 | lib/com_util/util.c:240-249 | four bytes in network order, nothing else changed |
| Checksum.DECODE_U16 | lib/com_util/util.c:113-123 | the number in network order |
| Checksum.DECODE_U32 | lib/com_util/util.c:147-156 | the number whose four bytes stand there |
| Checksum.ADD_CARRY_FOR_CHKSUM | lib/com_util/util.c:255-268 | all carries are folded back, of the low 24 bits of the sum |
| Checksum.CHECK_SUM | lib/com_util/util.c:274-287 | the complement of that |
| Checksum.OnesSumIsFold | lib/com_util/util.c:274-287 | adding carries back at the end equals one's-complement addition word by word (section 1 of RFC 1071) |
| Checksum.CheckSumExactIff | lib/com_util/util.c:277-281 | CHECK_SUM is the complemented one's-complement sum exactly for sums below 2^24 |
| Checksum.ReceiverAccepts | lib/com_util/util.c:274-287 | recomputing accepts exactly the valid words whose checksum is not all ones |
| Checksum.WideNeverValid | lib/com_util/util.c:277-281 | what CHECK_SUM makes of a sum of 2^24 or more is never the right checksum |
| IpCodec.ParseBytes | lib/com_util/ip_codec.c:34-70 | reading back a written header gives every field |
| IpCodec.HeaderLayout | lib/com_util/ip_codec.c:129-160 | each field stands where section 3.1 of RFC 791 puts it, high-order byte first |
| IpCodec.BytesParse | lib/com_util/ip_codec.c:134-160 | writing a header that was read gives its bytes back, options included |
| IpCodec.HeaderRawBound | lib/com_util/ip_codec.c:183-189 | a header's sum stays below 2^24 |
| IpCodec.SealedIffValid | lib/com_util/ip_codec.c:90-96 | the checksum is the computed one exactly when the words sum to all ones and it is not all ones itself |
| IpCodec.IpRoundTrip | lib/com_util/ip_codec.c:21-162 | what is written for version 4, any header length 5 to 15 and matching options is valid under RFC 791, accepted, and reads back whole |
| IpCodec.AcceptsIff | lib/com_util/ip_codec.c:21-98 | accepted are exactly the headers that would be written for what was read |
| IpCodec.AcceptedValidIff | lib/com_util/ip_codec.c:72-97 | an accepted header is valid under section 3.1 of RFC 791, with its data behind at least twenty bytes, exactly when its length field is five or more |
| IpCodec.ValidAcceptedIff | lib/com_util/ip_codec.c:90-97 | a valid header is accepted exactly when its checksum is not all ones |
| IpCodec.ShortAccepted | lib/com_util/ip_codec.c:72-97 | for every length field below five a header of twenty bytes that is accepted, not valid, with its data starting inside it |
| IpCodec.DataLenIff | lib/com_util/ip_codec.c:85 | the length handed back is exact exactly when the header fits in what came in |
| IpCodec.SumOptions | lib/com_util/ip_codec.c:183-189 | the option loop adds the words of the options |
| IpCodec.CHKSUM_IP_HDR | lib/com_util/ip_codec.c:168-192 | the checksum RFC 791 asks for |
| IpCodec.EncodeOptions | lib/com_util/ip_codec.c:154-160 | the options, if any, are copied behind the header |
| IpCodec.ENCODE_IP_PKT | lib/com_util/ip_codec.c:129-162 | the sealed header and its options are written at the cursor and nothing else changes |
| IpCodec.ReadAddr | lib/com_util/ip_codec.c:64-66 | four bytes in order |
| IpCodec.ReadFields | lib/com_util/ip_codec.c:40-70 | every field of the fixed header |
| IpCodec.SetPointers | lib/com_util/ip_codec.c:72-86 | options and data point into what arrived |
| IpCodec.DECODE_IP_PKT | lib/com_util/ip_codec.c:21-98 | accepts exactly version 4 headers that are valid with a checksum other than all ones; reads all fields and shortens the length by the header's |
| UdpCodec.UdpRawIs | lib/com_util/ip_codec.c:359-385 | the sum of the fields is the sum over pseudo-header, header and padded payload |
| UdpCodec.UdpHeadBytes | lib/com_util/ip_codec.c:338-346 | source port, destination port, length and checksum, in that order, high-order byte first |
| UdpCodec.UdpRawFits | lib/com_util/ip_codec.c:354 | the U32 sum never wraps |
| UdpCodec.UdpExactIff | lib/com_util/ip_codec.c:352-387 | the checksum is the one RFC 768 sends exactly when the sum is below 2^24 and it does not compute to zero |
| UdpCodec.SafeLengthIff | lib/com_util/ip_codec.c:352-387 | up to 498 bytes of payload, and no further, the rule for a computed zero is all that any datagram of that length misses |
| UdpCodec.UdpRoundTrip | lib/com_util/ip_codec.c:294-346 | what is written is accepted and reads back, for every length and even with a computed checksum of zero |
| UdpCodec.AcceptsUdpIff | lib/com_util/ip_codec.c:302-324 | accepted are exactly agreeing lengths with a checksum of zero, or one that is right under RFC 768 and not all ones with a sum below 2^24; with a larger sum only what CHECK_SUM makes of it, which is never right |
| UdpCodec.ZeroSentIff | lib/com_util/ip_codec.c:343-344 | with a sum below 2^24 zero is sent for exactly the datagrams that RFC 768 sends with all ones |
| UdpCodec.ZeroIsSent | lib/com_util/ip_codec.c:343-344 | one of those datagrams |
| UdpCodec.PaddedInPlace | lib/com_util/ip_codec.c:373-380 | the words summed are those of the payload with a zero octet added when its length is odd |
| UdpCodec.PadOdd | lib/com_util/ip_codec.c:371-377 | one byte is zeroed, only for odd lengths, and the length becomes even |
| UdpCodec.SumWords | lib/com_util/ip_codec.c:378-385 | the loop adds the words, none for a negative count |
| UdpCodec.CHKSUM_UDP | lib/com_util/ip_codec.c:352-387 | the computed checksum, and the pad byte as the only change to memory |
| UdpCodec.ENCODE_UDP_PKT | lib/com_util/ip_codec.c:338-346 | ports, length and checksum are written at the cursor in that order, sealed, whether the payload lies elsewhere or behind them |
| UdpCodec.DECODE_UDP_PKT | lib/com_util/ip_codec.c:294-330 | exactly the acceptable datagrams are accepted; ports, length and checksum are the bytes at 0, 2, 4 and 6; lengths and the state of memory |
| HostList.InsertNode | src/ofp_codec.c:197-208 | the node becomes the last of the list |
| HostList.FindNode | src/ofp_codec.c:210-222 | the first node with the id, unlinked only when another precedes it |
| HostList.IdNamesOne | src/ofp_codec.c:152-155 | a buffered id names one host |
| HostList.ForgottenOnce | src/ofp_codec.c:216-219 | after a removal the id is not found again and every other host is |
| OfpCodec.ReplyAnswers | src/ofp_codec.c:175-193 | the frame goes to the learned sender, its bytes are those of the source's constants, ports 6655 and 8000 among them, with the addresses swapped and the payload, and the codec's decoders accept it |
| OfpCodec.IpHdrInit | src/ofp_codec.c:224-239 | the reply's IP header; opt_pad is left as it was |
| OfpCodec.UdpHdrInit | src/ofp_codec.c:241-248 | the reply's UDP header |
| OfpCodec.ReplyIpPart | src/ofp_codec.c:182-184 | the IP header at offset 14, whatever opt_pad holds |
| OfpCodec.ReplyUdpPart | src/ofp_codec.c:186-193 | the UDP header and payload behind it |
| OfpCodec.BuildReply | src/ofp_codec.c:177-193 | the 50 bytes of the reply and nothing else |
| OfpExchange.Port.Reset | src/ofpd.c:80-90 | the host list is forgotten, a dangling head included; the id counter goes on |
| OfpExchange.Port.FillPacketIn | src/ofp_codec.c:117-143 | ofpbuf holds a packet-in message byte by byte, the frame behind its 42 bytes, and zeros |
| OfpExchange.Port.OFP_encode_packet_in | src/ofp_codec.c:112-156 | the frame goes out whole in a packet-in message under a new id, lengths, match and padding included, and its addresses are learned under that id at the end of the list |
| OfpExchange.PacketInIs | src/ofp_codec.c:117-143 | the message is, byte by byte, the one of section 7.4.1 of the OpenFlow Switch Specification 1.3 |
| OfpExchange.Port.TakeNode | src/ofp_codec.c:175 | the buffered host, which stays linked exactly when it is the head, or none |
| OfpExchange.Port.SendBack | src/ofp_codec.c:177-194 | the frame is built and the node freed; the list is sound afterwards exactly when the node was unlinked |
| OfpExchange.Port.AnswerHost | src/ofp_codec.c:170-194 | the reply is built for the buffered host, if there is one; the list is sound afterwards exactly when that was not the head |
| OfpExchange.Port.OFP_encode_back_to_host | src/ofp_codec.c:158-195 | that for a set-field flow-mod; any other only becomes E_OTHERS; the null pointer for an id that is not buffered is an outcome |
| OfpExchange.ReadActions | src/ofp_codec.c:160-172 | the payload of the reply, and the two bytes of oxm_value swapped in place |
| OfpExchange.RunKeeps | src/ofp_codec.c:112-195 | over any session every buffered host is the frame of its id and every open id is buffered |
| OfpExchange.IdSurvives | src/ofp_codec.c:122-160 | the id at offset 8 of any packet-in message is the id the flow-mod that copies it names |
| OfpExchange.LearnedReply | src/ofp_codec.c:146-195 | after any session a set-field flow-mod with the id of any open packet-in is answered with that frame's addresses swapped |
| OfpExchange.PacketInFitsIff | src/ofp_codec.c:47-59 | of the mails let through, exactly those of 5 to 1463 bytes fit the buffer as a packet-in |
| OfpExchange.HeadIffOldest | src/ofp_codec.c:213-219 | the host of an open id is at the head, so that answering it breaks the list, exactly when no older id is open |
| OfpExchange.OneHostBreaks | src/ofp_codec.c:216-219 | one packet-in and its flow-mod do |
| IpcRegistry.NeverOverfull | lib/com_util/ipc.c:188-191 | never more than 64 keys, and a key once registered stays |
| IpcRegistry.MapsToLatest | lib/com_util/ipc.c:177-228 | a registered key maps to the id its latest REG left |
| IpcRegistry.NamedByLatest | lib/com_util/ipc.c:195-201 | a key is registered once a REG of it succeeded, under the name the latest of those gave |
| IpcRegistry.FailedReRegistration | lib/com_util/ipc.c:195-198 | a failed REG of a registered key is answered with the id it stored from then on |
| IpcRegistry.RegisteredIff | lib/com_util/ipc.c:195-201 | a key is registered exactly when some set-up for it succeeded |
| IpcRegistry.QueuesOwned | lib/com_util/ipc.c:177-201 | queues exist for exactly the keys whose latest set-up left one, none shared, and MAP leads to an existing queue, its own, exactly for those keys |
| IpcRegistry.OrphanIff | lib/com_util/ipc.c:574-602 | the queues that no entry names are those of the keys whose latest set-up left one and of which none succeeded |
| IpcRegistry.StoreRegisters | lib/com_util/ipc.c:193-201 | storing in the slot found is the update of the map; valid entries stay a prefix with distinct keys |
| IpcRegistry.Registry.constructor | lib/com_util/ipc.c:165-167 | no key is registered |
| IpcRegistry.Registry.FindSlot | lib/com_util/ipc.c:178-187 | the key's entry, else the first free one |
| IpcRegistry.Registry.HandleReg | lib/com_util/ipc.c:177-208 | the registry, the reply and the queue deleted, in all of success, failure, overwrite and full table |
| IpcRegistry.Registry.HandleMap | lib/com_util/ipc.c:210-228 | the entry of a registered key and no answer for any other |
| StrTok.TokensAreFields | lib/com_util/util.c:21-53 | for every text and every non-empty set of delimiters repeated calls give the non-empty fields of the line in order, and an empty one when the line ends right behind a delimiter |
| StrTok.LineIsFirstLine | lib/com_util/util.c:42-45 | without line ends among the delimiters that line is the first line |
| StrTok.SkipDelims | lib/com_util/util.c:29-37 | terminates and skips exactly the leading delimiters, though it tries them one at a time |
| StrTok.AtStop | lib/com_util/util.c:41-43 | whether a character ends the token |
| StrTok.FindStop | lib/com_util/util.c:40-51 | the first character that ends the token |
| StrTok.CutToken | lib/com_util/util.c:39-51 | cuts the first token off, overwriting one character |
| StrTok.GetStrTok | lib/com_util/util.c:21-53 | returns the first token and leaves the cursor at the rest, or returns none and changes nothing |

## Left out

- Sockets, the BPF filter, ioctl, getifaddrs and the bodies of the frames that only report
  constants: a frame of each kind is appended to an output trace; whether getifaddrs succeeds is
  an input.
- fork, kill, signals, pause, usleep and gettimeofday: a tick's elapsed time is any integer, and
  a restart is one step. The timer task may tick with an empty list, where the original sleeps,
  so runs of the model include those of the original. The wake-up signal, which the original can
  lose between releasing the semaphore and pausing, is not modelled: what is said to happen once
  time has been charged says nothing of a task that sleeps on.
- System V calls: the semaphore is the atomicity of a section, queues are sequences, mails are
  delivered, and what GET_MSGQ returns is an input.
- Restart leaves the old mailbox in place, as the original does; loss of a process in the middle
  of a section is not modelled.
- VxWorks branches, disabled code, printing, time strings, `tmr_name`, message counters and the
  socket descriptors.
- DECODE_U24 (the U32 reader on little-endian machines), ENCODE_U24, ENCODE_ARP_PKT,
  CHKSUM_IP_HDR2, OFP_state2str, bitswap64: easy or unused.
- Big-endian builds: the bit-fields and byte orders are those of the little-endian one.
- Pointers are an array with an offset; structures are laid out as byte sequences with explicit
  offsets.
- OfpExchange.Port.OFP_encode_packet_in: what an overrun of the buffer does to the fields behind it;
  such frames are outside its precondition.
- OfpExchange.Port.OFP_encode_back_to_host: an uninitialised dst_ip is an arbitrary parameter, and
  what a list with a freed head leads to is not modelled.
- OfpExchange.LearnedReply: sessions in which the host at the head was answered and no restart
  followed, for the same reason.
- IpCodec.ENCODE_IP_PKT: options that overlap the bytes written, and options with a length field
  below five, for which the original copies nearly 2^32 bytes.
- UdpCodec.ENCODE_UDP_PKT: a payload that overlaps the header written.
- IpcRegistry.QueuesOwned: assumes of the kernel that it gives out no id in use; other users of its
  queues, and the key 0 under which it makes a new queue each time, are not modelled.
- IpcRegistry.Registry.HandleReg: names are strings without the 80-byte limit of strcpy's target.
