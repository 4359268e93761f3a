# Models and proofs for the RT2870 wireless driver

A model in Dafny of the protocol logic of the RT2870 station driver in this repository
(`2008_0925_RT2870_Linux_STA_v1.4.0.0`): Block-Ack receive reordering and its session tables,
the incremental hashes and ciphers, and the queues, rings and indexes between the network stack
and USB. What the driver updates in place is a class or an array here; each such method is
proved equal to a function on values, and what the driver promises is proved of those
functions, over all inputs and over whole runs.

| part | files |
|---|---|
| reordering | `ReorderModel` (the steps, on the circle and on unbounded integers), `ReorderInvariant`, `ReorderRefinement`, `ReorderCircular`, `ReorderOrder`, `ReorderReference`, `ReorderAdapter` (all sessions), `ReorderTeardown`, `ReorderPool`, `ReorderList` and `ReorderDriver` (in place, on linked blocks) |
| session tables | `BaTables`, `BaWideTids`, `BaTableDriver` |
| hashes | `Words`, `Pieces`, `Memory`, `WordFacts`, `HashSpec`, `Md5Transform`, `Md5`, `Md5Answer`, `Sha1Transform`, `Sha1`, `Sha1Answer`, `Hmac`, `KeyWrap` |
| WEP and TKIP | `Arcfour`, `Wep`, `Michael` |
| indexes, queues, rings | `MacTable`, `MacTableDriver`, `Octets`, `Amsdu`, `Transmit`, `MgmtRing`, `MgmtRingDriver`, `BulkIn` |

`dafny verify dfyconfig.toml` checks everything.

## What the code does not do

Where a property the code is meant to have fails, there is a lemma with the input and one with
the exact condition.

- When no block is free, a frame inside the window may leave its successor stuck at the head of
  the list, and that successor can then be delivered twice. Input: `StuckHeadDeliversTwice`;
  condition: `CircularArriveKeepsInvIff`, `ArriveOrderedIff`. `AllocationNeverFails` shows that
  the limits of 8 sessions, 64 frames and 512 blocks keep this from happening, unless frames get
  between the steps of a set-up or teardown as below.
- A teardown flushes the list under one lock and clears the entry under another. Frames that
  come in between stay behind: block and packet are lost, and the next session in the entry
  starts with them on its list. A set-up on a live session can likewise set its mark over frames
  that came after its flush. Input: `FrameBetweenLeaks`, `LeakIsInherited`; condition:
  `AdapterStepKeepsInvIff`, `NothingLeaksIff`.
- A BlockAckReq whose StartSeq is held passes that frame up and steps LastIndSeq back behind it,
  where the standard goes on with the run that starts there. Input: `RequestDeliversTwice`;
  condition: `BarIsRequestIff`, `BarDeliversTwiceIff`.
- `PRF` with a key over 64 bytes and more than one block is not the standard's function for every
  hash, because `HMAC_SHA1` overwrites the key. Input and condition: `LongKeyPrfDiffers`,
  `PrfIsStandardIff`.
- Key unwrap does not look at register A, and the last eight of the bytes it writes are whatever
  was in the memory it allocated. Input: `UnwrapsWithoutCheck`; condition: `IsWrappingIff`.
- A lookup in the MAC table stops at a direct link to any station. Input:
  `DirectLinkHidesAddress`; condition: `LookupRightIff`.
- An MSDU of an A-MSDU that has no removable LLC/SNAP header is announced without its Ethernet
  header, what follows an MSDU of fewer than 15 or more than 1514 bytes is dropped, and the last
  one, if shorter than eight bytes, is judged by bytes behind the body. Input: `HeaderIsLost`,
  `ShortIsMistaken`; condition: `AnnouncedIsEthernetIff`, `RecoveredIff`.
- The 16-bit length total lets a packet of 65536 bytes or more slip past the A-MSDU limit; the
  network stack hands over none. Input: `LongPacketSlips`; condition: `AmsduFitsIff`.
- Management requests look for room outside the lock that takes it, and kicks look at a cell
  outside the lock that claims it. Input: `OverlappingRequestsOverwrite`,
  `OverlappingKicksClash`; condition: `EveryPutFitsIff`, `ClaimKeepsInvIff`.
- The sanity checks of ADDBA requests and DELBAs let TIDs 8..15 through, for which the arrays of
  a station have no room: the recipient side then reads and writes the originator index of
  TID - 8. Input: `WideRequestBreaks`, `WideDelBaBreaks`; condition: `WideAddKeepsInvIff`,
  `WideDelBaKeepsInvIff`.
- Frames shorter than 32 bytes reach the WEP decryption, whose lengths then wrap. Input:
  `ShortFrameRunsOn`; condition: `CountsStayInsideIff`.
- A setup timer that fires in monitor mode leaves its entry pending with no timer to free it.
  Input: `MonitorKeepsPending`; condition: `UnansweredIsFreedIff`.

## Assumptions

- ULONG has 32 bits and the host is little-endian. Each region under a spin lock is one step, and
  so is each assignment to the window or mark of a session that is made without one; what the
  management ring looks at without a lock is a step of its own.
- Sessions are set up and torn down by a thread, between whose steps frames can be received; the
  reception of a frame is not interrupted by that thread.
- `MAXSEQ` is 0xFFF; RxBAWinLimit is 1..64; TIDs are below 8 except in `BaWideTids`, where the
  array behind `BAOriWcidArray` is all zero, as nothing writes it.
- Of the nondeterministic outside world, memory allocation, USB, flags, clocks and descriptor
  counts are parameters or unconstrained choices.
- The block cipher of the key wrap and the CRC table are parameters, with lemmas on what the
  CRC-32 table (`IsCrcTable`), which `FCSTAB_32` is, makes of it; the MD5 and SHA-1 constants and
  tables are those of the standards.
- A single update of a hash is short enough that its length plus the buffered bytes fits 32 bits
  (`GuardRightIff`).

## Model

| member | source | states |
|---|---|---|
| ReorderModel.TimeAfterIs | 2008_0925_RT2870_Linux_STA_v1.4.0.0/include/rt_linux.h:109-112 | On 32-bit times less than half the range apart the comparison is that of the true times |
| ReorderModel.TimeoutIs | 2008_0925_RT2870_Linux_STA_v1.4.0.0/common/ba_action.c:426-483 | Told in true times: more than half a second of ticks after the session was last served two held frames or more are flushed, more than a tenth after it the next run is released, and otherwise nothing happens |
| ReorderModel.LimitsAre | 2008_0925_RT2870_Linux_STA_v1.4.0.0/common/ba_action.c:41-42 | The two limits are a tenth and half of the ticks of a second, rounded down |
| ReorderModel.IdleIs | 2008_0925_RT2870_Linux_STA_v1.4.0.0/common/ba_action.c:1137-1163 | Told in true times, a session is flushed exactly when it was not served for more than 1000 ticks |
| ReorderInvariant.StepKeepsInv | 2008_0925_RT2870_Linux_STA_v1.4.0.0/common/ba_action.c:337-483 | Every event (timeouts, data frame, BlockAckReq, flush, new window, new mark, idle timer, use of the pool by others) keeps the list strictly ascending at distance 2..BAWinSize past LastIndSeq, and empty after a reset, unless a data frame finds no free block while its successor is held, a new window does not hold what is held, or a mark is set while something is held |
| ReorderInvariant.SortedAt | 2008_0925_RT2870_Linux_STA_v1.4.0.0/common/ba_action.c:146-173 | What that says position by position: each number held is smaller than all behind it, and the i-th at least i past the first place it may have |
| ReorderInvariant.ArriveKeepsInvIff | 2008_0925_RT2870_Linux_STA_v1.4.0.0/common/ba_action.c:1696-1795 | A data frame keeps that invariant if and only if it is not a frame inside the window for which allocation fails while the next number is held |
| ReorderInvariant.ResizeKeepsInvIff | 2008_0925_RT2870_Linux_STA_v1.4.0.0/common/ba_action.c:687-687 | A new window keeps it if and only if it is 1..64 and nothing held lies outside it |
| ReorderInvariant.StuckHeadLeavesSuccessor | 2008_0925_RT2870_Linux_STA_v1.4.0.0/common/ba_action.c:1610-1613 | In the excepted case the frame goes up and the list starts at LastIndSeq + 1 |
| ReorderInvariant.BarKeepsInv | 2008_0925_RT2870_Linux_STA_v1.4.0.0/common/ba_action.c:1399-1407 | A BlockAckReq keeps the invariant although LastIndSeq becomes StartSeq - 1 |
| ReorderInvariant.LeLenSplits | 2008_0925_RT2870_Linux_STA_v1.4.0.0/common/ba_action.c:371-397 | Releasing up to a number takes exactly the numbers up to it and leaves exactly those past it |
| ReorderInvariant.RunLenSplits | 2008_0925_RT2870_Linux_STA_v1.4.0.0/common/ba_action.c:337-369 | Draining takes the consecutive numbers after the start and leaves a gap in front of the rest |
| ReorderInvariant.InsertSorted | 2008_0925_RT2870_Linux_STA_v1.4.0.0/common/ba_action.c:146-173 | Insertion refuses a number exactly when it is held and otherwise keeps the list strictly ascending |
| ReorderInvariant.QueueAssertHolds | 2008_0925_RT2870_Linux_STA_v1.4.0.0/common/ba_action.c:1592-1592 | The ASSERT that qlen is at most BAWinSize holds on both ways that lead to it, with and without a free block |
| ReorderRefinement.CompareWraps | 2008_0925_RT2870_Linux_STA_v1.4.0.0/include/mlme.h:1028-1030 | The circular comparisons agree with integer comparison while the numbers are -2048..+2047 apart |
| ReorderRefinement.RunRefines | 2008_0925_RT2870_Linux_STA_v1.4.0.0/common/ba_action.c:1702-1794 | Over any run whose true numbers stay within -2048..+2047 of the last one, the 12-bit session is the unbounded one modulo 4096: same branches, list, last number, frames passed up and released |
| ReorderCircular.CircularStepKeepsInv | 2008_0925_RT2870_Linux_STA_v1.4.0.0/common/ba_action.c:337-483 | The invariant by circular distance, for every 12-bit event from every state, with the same exceptions |
| ReorderCircular.CircularStepKeepsInvIff | 2008_0925_RT2870_Linux_STA_v1.4.0.0/common/ba_action.c:650-693 | Those exceptions are exact: any 12-bit event keeps the invariant if and only if it is none of the three |
| ReorderCircular.CircularArriveKeepsInvIff | 2008_0925_RT2870_Linux_STA_v1.4.0.0/common/ba_action.c:1696-1795 | On the circle, too, a data frame keeps the invariant if and only if it is not the excepted one |
| ReorderCircular.CircularRunKeepsInv | 2008_0925_RT2870_Linux_STA_v1.4.0.0/common/ba_action.c:1348-1410 | Over any run of 12-bit events, none of them an exception, the circular invariant holds |
| ReorderCircular.CircularListFits | 2008_0925_RT2870_Linux_STA_v1.4.0.0/common/ba_action.c:1592-1592 | A session holds fewer frames than its window |
| ReorderCircular.StuckHeadDeliversTwice | 2008_0925_RT2870_Linux_STA_v1.4.0.0/common/ba_action.c:1594-1613 | A concrete run from a good state: the exception passes sequence number 13 up twice |
| ReorderCircular.RequestDeliversTwice | 2008_0925_RT2870_Linux_STA_v1.4.0.0/common/ba_action.c:1402-1407 | A concrete run from a good state: a BlockAckReq for the held number 12 passes it up, leaves 13 behind, and 12 goes up a second time |
| ReorderOrder.ArriveOrderedIff | 2008_0925_RT2870_Linux_STA_v1.4.0.0/common/ba_action.c:1702-1794 | Inside an epoch the frames a data frame passes up climb from the old LastIndSeq to the new one, if and only if it is not a frame already held for which allocation fails |
| ReorderOrder.BarOrderedIff | 2008_0925_RT2870_Linux_STA_v1.4.0.0/common/ba_action.c:1402-1407 | The frames a BlockAckReq passes up keep below the new LastIndSeq if and only if StartSeq was not held |
| ReorderOrder.BarDeliversTwiceIff | 2008_0925_RT2870_Linux_STA_v1.4.0.0/common/ba_action.c:1402-1407 | A BlockAckReq passes up StartSeq itself and then takes it for the next number, so that a retransmission of it is passed up again, if and only if StartSeq was held |
| ReorderOrder.TimeoutOrdered | 2008_0925_RT2870_Linux_STA_v1.4.0.0/common/ba_action.c:426-483 | Both timeout flushes pass up frames that climb from the old LastIndSeq |
| ReorderOrder.EpochIsOrdered | 2008_0925_RT2870_Linux_STA_v1.4.0.0/common/ba_action.c:337-483 | Over any run between two resets the frames passed up have strictly increasing true numbers: none out of order, none twice |
| ReorderOrder.CircularEpochIsOrdered | 2008_0925_RT2870_Linux_STA_v1.4.0.0/common/ba_action.c:337-483 | So has the 12-bit session over such a run: what it passes up are strictly increasing true numbers modulo 4096 |
| ReorderReference.BarIsRequestIff | 2008_0925_RT2870_Linux_STA_v1.4.0.0/common/ba_action.c:1399-1407 | What the driver does with a BlockAckReq is what section 9.10.7.6.3 of IEEE 802.11n-2009 asks (pass up all below StartSeq and the run from StartSeq on) if and only if StartSeq is not held or not past the next number; after a reset, if and only if the 12-bit StartSeq is below 2048 modulo 4096 |
| ReorderReference.StepIsRefStep | 2008_0925_RT2870_Linux_STA_v1.4.0.0/common/ba_action.c:426-483 | When a frame that needs a block finds one, a BlockAckReq meets that condition, and a new window or mark finds nothing held that it shuts out, each event does what a map-based receiver does: data frames and BlockAckReqs as section 9.10.7.6 of IEEE 802.11n-2009 has them, timeouts and reset as the driver has them, told of the map |
| ReorderReference.DropsCountLate | 2008_0925_RT2870_Linux_STA_v1.4.0.0/common/ba_action.c:1740-1755 | The drop counter counts exactly the data frames at or before LastIndSeq, over all events |
| ReorderReference.RunIsRefRun | 2008_0925_RT2870_Linux_STA_v1.4.0.0/common/ba_action.c:1636-1795 | Over whole runs under those conditions the session and that receiver stay equal: numbers held, frames passed up and released |
| ReorderReference.CircularRunIsReference | 2008_0925_RT2870_Linux_STA_v1.4.0.0/common/ba_action.c:1636-1795 | Over such runs the 12-bit session passes up the frames of that receiver modulo 4096 and releases the same packets |
| ReorderAdapter.StepConserves | 2008_0925_RT2870_Linux_STA_v1.4.0.0/common/ba_action.c:310-334 | No event of a session loses or duplicates a block or a packet, in every branch including duplicates and failed allocation |
| ReorderAdapter.BootedRunConserves | 2008_0925_RT2870_Linux_STA_v1.4.0.0/common/ba_action.c:264-306 | From power-up, over any run of all sessions: each of the num blocks is in exactly one place, each packet is passed up, released or held exactly as often as it was given |
| ReorderAdapter.NothingLeaksIff | 2008_0925_RT2870_Linux_STA_v1.4.0.0/common/ba_action.c:226-257 | After any run and shut-down every block is free, and every packet was passed up or released, if and only if no entry that is Recipient_NONE holds a frame: shut-down passes those over |
| ReorderAdapter.NothingLeaks | 2008_0925_RT2870_Linux_STA_v1.4.0.0/common/ba_action.c:226-257 | So nothing leaks over any run in which each teardown, when it clears its entry, finds the list still empty |
| ReorderAdapter.AdapterStepKeepsInvIff | 2008_0925_RT2870_Linux_STA_v1.4.0.0/common/ba_action.c:952-1037 | A step (an event of one session, one locked region or assignment of a set-up or teardown) keeps the invariant of all sessions if and only if it is none of the exceptions and, where it clears an entry, the list is empty |
| ReorderAdapter.RunKeepsInv | 2008_0925_RT2870_Linux_STA_v1.4.0.0/common/ba_action.c:337-483 | Over any run of all sessions, frames coming in between the steps of set-ups and teardowns, every live session keeps its invariant and every other entry holds nothing, as long as each step meets that condition |
| ReorderTeardown.TornDownInSteps | 2008_0925_RT2870_Linux_STA_v1.4.0.0/common/ba_action.c:1013-1036 | With no frame in between, flush, locked region and freeing of a teardown come to one step that empties and vacates the entry, and each meets the condition |
| ReorderTeardown.SetUpAgainInSteps | 2008_0925_RT2870_Linux_STA_v1.4.0.0/common/ba_action.c:662-693 | With no frame in between, flush, window and mark of a set-up on a live session come to one step, and each meets the condition |
| ReorderTeardown.FrameBetweenLeaks | 2008_0925_RT2870_Linux_STA_v1.4.0.0/common/ba_action.c:1019-1021 | A run from power-up: frames 10 and 12 come between the flush and the locked region of a teardown; the freed entry holds 12, and shut-down gives back neither its block nor its packet |
| ReorderTeardown.LeakIsInherited | 2008_0925_RT2870_Linux_STA_v1.4.0.0/common/ba_action.c:660-693 | After it the next session in that entry starts at the reset mark with frame 12 on its list |
| ReorderPool.BlockIsFree | 2008_0925_RT2870_Linux_STA_v1.4.0.0/include/rtmp_def.h:445-445 | Eight sessions of at most 64 frames never hold more than 504 of the 512 blocks |
| ReorderPool.StepKeepsPoolIff | 2008_0925_RT2870_Linux_STA_v1.4.0.0/common/ba_action.c:726-760 | With 512 blocks and an allocator that refuses at MAX_BARECI_SESSION, a step keeps every session's invariant, the count of sessions and the blocks, whatever frames come, if and only if no set-up or teardown finds a frame held where it marks or clears |
| ReorderPool.AllocationNeverFails | 2008_0925_RT2870_Linux_STA_v1.4.0.0/common/ba_action.c:726-760 | From power-up, over any run in which no frame gets between the steps of a set-up or teardown in that way, eight blocks are free, so every session keeps its invariant with no assumption on allocation or on how many sessions are asked for |
| ReorderList.ReorderingList.Enqueue | 2008_0925_RT2870_Linux_STA_v1.4.0.0/common/ba_action.c:179-184 | On linked blocks: the block becomes the head, the others keep their order and their contents |
| ReorderList.ReorderingList.Dequeue | 2008_0925_RT2870_Linux_STA_v1.4.0.0/common/ba_action.c:189-206 | On linked blocks, deciding by qlen: the head is unlinked and returned, or null exactly when the list is empty |
| ReorderList.ReorderingList.InsertSorted | 2008_0925_RT2870_Linux_STA_v1.4.0.0/common/ba_action.c:146-173 | Following the next fields: the block is linked in at the model's position, wherever that is on the list, or refused when its number is held; only next fields change |
| ReorderDriver.BlockPool.Take | 2008_0925_RT2870_Linux_STA_v1.4.0.0/common/ba_action.c:310-324 | The first free block is taken off the linked free list and cleared, or null is returned exactly when there is none |
| ReorderDriver.RecEntry.PassHeadUp | 2008_0925_RT2870_Linux_STA_v1.4.0.0/common/ba_action.c:354-363 | Moves the head block from the session's list to the free list and passes its packet up: no block is lost and none hangs on both lists |
| ReorderDriver.RecEntry.IndicateInOrder | 2008_0925_RT2870_Linux_STA_v1.4.0.0/common/ba_action.c:337-369 | The loop passes up the run after the start, moves its blocks to the free list and returns the last number or the reset mark |
| ReorderDriver.RecEntry.IndicateLeSeq | 2008_0925_RT2870_Linux_STA_v1.4.0.0/common/ba_action.c:371-397 | The loop passes up what is at or before the number |
| ReorderDriver.RecEntry.RefreshMpdus | 2008_0925_RT2870_Linux_STA_v1.4.0.0/common/ba_action.c:400-422 | Everything is passed up, qlen is 0 and LastIndSeq is reset |
| ReorderDriver.RecEntry.FlushTimeout | 2008_0925_RT2870_Linux_STA_v1.4.0.0/common/ba_action.c:426-483 | The two timeout branches in place equal the model's timeout step |
| ReorderDriver.RecEntry.EnqueuePacket | 2008_0925_RT2870_Linux_STA_v1.4.0.0/common/ba_action.c:1553-1615 | Queueing a frame on the linked lists, with and without a free block, equals the model's step; the blocks of both lists together stay the same |
| ReorderDriver.RecEntry.IndicateAmpdu | 2008_0925_RT2870_Linux_STA_v1.4.0.0/common/ba_action.c:1636-1795 | The whole data-frame path of a live session equals the model's step, and the blocks of session and pool together stay the same |
| ReorderDriver.RecEntry.BlockAckRequest | 2008_0925_RT2870_Linux_STA_v1.4.0.0/common/ba_action.c:1399-1407 | The BlockAckReq path equals the model's step |
| ReorderDriver.RecEntry.AddSession | 2008_0925_RT2870_Linux_STA_v1.4.0.0/common/ba_action.c:650-693 | Set-up on a live session, with nothing in between: flushes it and takes the smaller window, reading 0 as 64 |
| ReorderDriver.RecEntry.IdleTimeout | 2008_0925_RT2870_Linux_STA_v1.4.0.0/common/ba_action.c:1137-1163 | The idle timer flushes a session not heard of for 1000 ticks |
| BaTables.TablesAgree | 2008_0925_RT2870_Linux_STA_v1.4.0.0/common/ba_action.c:490-1050 | In every state reachable from power-up with TIDs below 8 a non-zero index names exactly the live entry that points back, the counters count the live entries, a transmit bit is set iff its entry is done, a receive bit iff its index is non-zero, and there are at most 8 recipients |
| BaTables.StepKeepsInv | 2008_0925_RT2870_Linux_STA_v1.4.0.0/common/ba_action.c:490-1135 | Every event keeps that agreement |
| BaTables.OriSetUpFullTable | 2008_0925_RT2870_Linux_STA_v1.4.0.0/common/ba_action.c:762-794 | On a full table the allocator returns the last, live entry, and set-up changes nothing |
| BaTables.OriSetUpIs | 2008_0925_RT2870_Linux_STA_v1.4.0.0/common/ba_action.c:490-562 | Set-up takes the first free entry as pending, or changes nothing when a session exists or the table is full |
| BaTables.OriAddIs | 2008_0925_RT2870_Linux_STA_v1.4.0.0/common/ba_action.c:564-628 | An accepted response makes a pending session active: timer off, transmit bit set, the window the least of the three; no other entry, index or count changes, and nothing at all when no session is pending |
| BaTables.OriTearDownIs | 2008_0925_RT2870_Linux_STA_v1.4.0.0/common/ba_action.c:865-950 | Teardown frees the entry the index names, with index, bit, timer and count, and no other |
| BaTables.OriTimeoutIs | 2008_0925_RT2870_Linux_STA_v1.4.0.0/common/ba_action.c:1067-1121 | The timer asks again up to a token of 8, then tears the session down; in monitor mode it only goes off |
| BaTables.RecTearDownIs | 2008_0925_RT2870_Linux_STA_v1.4.0.0/common/ba_action.c:952-1037 | The same of a recipient session |
| BaTables.DelBaIs | 2008_0925_RT2870_Linux_STA_v1.4.0.0/common/ba_action.c:1319-1346 | A DELBA of the originator ends the session received, one of the recipient the session sent, and leaves the other table alone |
| BaTables.ResponseIs | 2008_0925_RT2870_Linux_STA_v1.4.0.0/common/ba_action.c:1273-1317 | A response that accepts makes the pending session active, one that refuses does what a DELBA of the recipient does |
| BaTables.OriTearDownKeepsInv | 2008_0925_RT2870_Linux_STA_v1.4.0.0/common/ba_action.c:865-950 | Teardown clears its own index entry and no other |
| BaTables.OriTimeoutKeepsInv | 2008_0925_RT2870_Linux_STA_v1.4.0.0/common/ba_action.c:1067-1121 | The retry timer keeps the agreement |
| BaTables.UnansweredIsFreedIff | 2008_0925_RT2870_Linux_STA_v1.4.0.0/common/ba_action.c:1067-1121 | A request nobody answers has freed its entry after its retries if and only if none of the timeouts came in monitor mode; one that did leaves the entry pending with no timer running |
| BaWideTids.WideAddKeepsInvIff | 2008_0925_RT2870_Linux_STA_v1.4.0.0/common/cmm_sanity.c:174-178 | A request with a TID the action-frame check lets through (0..15) keeps the agreement, whatever range of TIDs that allows, if and only if the TID is below 8, or the originator index of TID - 8 is empty and eight recipient sessions are live |
| BaWideTids.WideDelBaKeepsInvIff | 2008_0925_RT2870_Linux_STA_v1.4.0.0/common/cmm_sanity.c:237-238 | A DELBA with TID 8..15 keeps the agreement if and only if that originator index is empty or names a recipient entry that is not live; otherwise it frees that entry, whoever's it is, and leaves its bit set |
| BaWideTids.WideStepKeepsInvIff | 2008_0925_RT2870_Linux_STA_v1.4.0.0/common/cmm_sanity.c:174-238 | So an event of any TID keeps the agreement if and only if it meets its condition |
| BaWideTids.WideTablesAgree | 2008_0925_RT2870_Linux_STA_v1.4.0.0/common/cmm_sanity.c:174-238 | Over any run from power-up, whatever the TIDs, in which requests and DELBAs meet their conditions, the tables agree |
| BaWideTids.WideRequestBreaks | 2008_0925_RT2870_Linux_STA_v1.4.0.0/common/cmm_sanity.c:174-178 | A request for TID 8 at power-up: an originator index names an entry that is not live |
| BaWideTids.WideDelBaBreaks | 2008_0925_RT2870_Linux_STA_v1.4.0.0/common/cmm_sanity.c:237-238 | A session offered to peer 1 and one accepted from peer 2, then a DELBA of peer 1 for TID 8: the session of peer 2 is gone, its bit still set |
| BaTables.MonitorKeepsPending | 2008_0925_RT2870_Linux_STA_v1.4.0.0/common/ba_action.c:1079-1085 | A request at power-up whose timer fires in monitor mode stays pending with no timer running |
| BaTables.RecAddIs | 2008_0925_RT2870_Linux_STA_v1.4.0.0/common/ba_action.c:630-723 | Recipient set-up reuses the live entry, takes the first free one, or refuses exactly when 8 sessions are live |
| BaTables.RecTearDownKeepsInv | 2008_0925_RT2870_Linux_STA_v1.4.0.0/common/ba_action.c:952-1037 | Recipient teardown clears its own index entry and no other |
| BaTables.PeerGoneLeavesNothing | 2008_0925_RT2870_Linux_STA_v1.4.0.0/common/ba_action.c:1039-1050 | After a peer leaves no entry of either table serves it |
| BaTableDriver.SideTable.AllocateEntry | 2008_0925_RT2870_Linux_STA_v1.4.0.0/common/ba_action.c:726-794 | Both allocators, in place, return the model's entry and index |
| BaTableDriver.SideTable.SetUp | 2008_0925_RT2870_Linux_STA_v1.4.0.0/common/ba_action.c:490-562 | Originator set-up in place equals the table function |
| BaTableDriver.SideTable.AddOriginator | 2008_0925_RT2870_Linux_STA_v1.4.0.0/common/ba_action.c:564-628 | Accepting a response in place equals the table function |
| BaTableDriver.SideTable.FreeEntry | 2008_0925_RT2870_Linux_STA_v1.4.0.0/common/ba_action.c:797-832 | Freeing an originator entry in place clears status, index, bit and count together |
| BaTableDriver.SideTable.TearDownOriginator | 2008_0925_RT2870_Linux_STA_v1.4.0.0/common/ba_action.c:865-950 | Originator teardown in place equals the table function |
| BaTableDriver.SideTable.SetupTimeout | 2008_0925_RT2870_Linux_STA_v1.4.0.0/common/ba_action.c:1067-1121 | The retry timer in place equals the table function |
| BaTableDriver.SideTable.AddRecipient | 2008_0925_RT2870_Linux_STA_v1.4.0.0/common/ba_action.c:630-723 | Recipient set-up in place equals the table function, refusal included |
| BaTableDriver.SideTable.TearDownRecipient | 2008_0925_RT2870_Linux_STA_v1.4.0.0/common/ba_action.c:952-1037 | Recipient teardown in place equals the table function |
| BaTableDriver.TearDownAll | 2008_0925_RT2870_Linux_STA_v1.4.0.0/common/ba_action.c:1039-1050 | The loop over the TIDs tears down every session of a peer |
| HashSpec.PaddedIs | 2008_0925_RT2870_Linux_STA_v1.4.0.0/common/md5.c:279-320 | The padded message of RFC 1321 section 3.1 is the whole blocks followed by one last block or two |
| HashSpec.TwoBlocks | 2008_0925_RT2870_Linux_STA_v1.4.0.0/common/md5.c:302-320 | The two blocks the driver builds when 56 or more bytes are left are that padding |
| HashSpec.CounterAdds | 2008_0925_RT2870_Linux_STA_v1.4.0.0/common/md5.c:205-216 | Adding a length to the two 32-bit words with their carry counts bits modulo 2^64 |
| HashSpec.HighWordWraps | 2008_0925_RT2870_Linux_STA_v1.4.0.0/common/md5.c:503-511 | The high word gets smaller exactly when the count passes 2^64 bits |
| HashSpec.FillFromCounter | 2008_0925_RT2870_Linux_STA_v1.4.0.0/common/md5.c:215-215 | Bits 3..8 of the low word are the number of bytes waiting in the input buffer |
| HashSpec.GuardRightIff | 2008_0925_RT2870_Linux_STA_v1.4.0.0/common/md5.c:219-226 | The 32-bit guard of the short branch lets through only what the buffer has room for, if and only if the sum does not wrap |
| WordFacts.RotlTurns | 2008_0925_RT2870_Linux_STA_v1.4.0.0/common/md5.c:154-154 | The cyclic shift by s is s turns to the left: doubling modulo 2^32 with the bit that falls out coming in at the low end, for every s up to 32 |
| Md5Transform.ColumnsMatch | 2008_0925_RT2870_Linux_STA_v1.4.0.0/common/md5.c:380-440 | The index arithmetic of the four loops gives the k and s columns of section 3.4 of RFC 1321 |
| Md5Transform.StepRotates | 2008_0925_RT2870_Linux_STA_v1.4.0.0/common/md5.c:375-440 | One step on rotating registers is the listed operation on its fixed registers |
| Md5Transform.Transform | 2008_0925_RT2870_Linux_STA_v1.4.0.0/common/md5.c:352-450 | The 64 steps on an array that is shifted after each give section 3.4 of RFC 1321, for every state and block |
| Md5Answer.AbcDigest | 2008_0925_RT2870_Linux_STA_v1.4.0.0/common/md5.c:352-450 | The MD5 of "abc" is the digest section A.5 of RFC 1321 lists, proved through all 64 steps |
| Md5.Md5Ctx.Update | 2008_0925_RT2870_Linux_STA_v1.4.0.0/common/md5.c:198-252 | Absorbing data in place extends the message hashed so far by it, whatever was buffered, when the guard does not wrap |
| Md5.Md5Ctx.FinishInTwo | 2008_0925_RT2870_Linux_STA_v1.4.0.0/common/md5.c:302-320 | With 56 or more bytes left the padding and length that need a second block are absorbed in full |
| Md5.Md5Ctx.Final | 2008_0925_RT2870_Linux_STA_v1.4.0.0/common/md5.c:270-334 | The digest is the fold over the padded message with its 64-bit length, low word first |
| Md5.HashPieces | 2008_0925_RT2870_Linux_STA_v1.4.0.0/common/md5.c:170-334 | Init, any number of updates and final give the digest of the joined pieces |
| Sha1Transform.Schedule | 2008_0925_RT2870_Linux_STA_v1.4.0.0/common/md5.c:645-663 | The byte-swapped words and their extension are the W(t) of section 6.1 of RFC 3174 |
| Sha1Transform.Transform | 2008_0925_RT2870_Linux_STA_v1.4.0.0/common/md5.c:638-702 | The 80 rotating steps give section 6.1 of RFC 3174, for every state and block |
| Sha1Answer.AbcDigest | 2008_0925_RT2870_Linux_STA_v1.4.0.0/common/md5.c:638-702 | The SHA-1 of "abc" is the digest section 7.3 of RFC 3174 tests, proved through schedule and all 80 steps |
| Sha1.ShaCtx.Update | 2008_0925_RT2870_Linux_STA_v1.4.0.0/common/md5.c:494-558 | Extends the message, or returns 1 and absorbs nothing exactly when the message would reach 2^64 bits |
| Sha1.ShaCtx.Final | 2008_0925_RT2870_Linux_STA_v1.4.0.0/common/md5.c:562-633 | The digest is the fold over the padded message with its 64-bit length, high word first |
| Sha1.HashPieces | 2008_0925_RT2870_Linux_STA_v1.4.0.0/common/md5.c:466-633 | Init, any number of updates and final give the digest of the joined pieces |
| Hmac.HmacShown | 2008_0925_RT2870_Linux_STA_v1.4.0.0/common/md5.c:77-132 | With a hash that changes nothing, outer pad, inner pad and text stand in this order, each key byte XORed with 0x5c and 0x36 |
| Hmac.LongKeyIsHashed | 2008_0925_RT2870_Linux_STA_v1.4.0.0/common/md5.c:88-97 | A key over 64 bytes is as good as its hash |
| Hmac.HmacMd5 | 2008_0925_RT2870_Linux_STA_v1.4.0.0/common/md5.c:77-132 | H(K^opad, H(K^ipad, text)) of RFC 2104 for every key length |
| Hmac.HmacSha1 | 2008_0925_RT2870_Linux_STA_v1.4.0.0/common/md5.c:1328-1373 | HMAC with SHA-1 for every key length; a key over 64 bytes is replaced by its hash in the caller's buffer, nothing else is written |
| Hmac.F | 2008_0925_RT2870_Linux_STA_v1.4.0.0/common/md5.c:1382-1410 | The XOR of the whole chain of iterated HMACs, for a password of any length: each call finds in the buffer what the one before left, and strlen finds its length anew |
| Hmac.ShortPasswordChain | 2008_0925_RT2870_Linux_STA_v1.4.0.0/common/md5.c:1382-1410 | For a password of at most 64 characters that is the F of section 5.2 of RFC 2898 |
| Hmac.FirstUShown | 2008_0925_RT2870_Linux_STA_v1.4.0.0/common/md5.c:1392-1399 | The first iteration is over the salt followed by the block number |
| Hmac.Int4Is | 2008_0925_RT2870_Linux_STA_v1.4.0.0/common/md5.c:1393-1397 | The block number is four octets, most significant first |
| Hmac.ChainOfTwo | 2008_0925_RT2870_Linux_STA_v1.4.0.0/common/md5.c:1400-1409 | Two iterations give the XOR of the first value with the HMAC of it |
| Hmac.PasswordHash | 2008_0925_RT2870_Linux_STA_v1.4.0.0/common/md5.c:1417-1425 | Two blocks of the standard F at 4096 iterations, or 0 and nothing written for an over-long password or SSID; the password stays in its buffer |
| Hmac.Prf | 2008_0925_RT2870_Linux_STA_v1.4.0.0/common/cmm_wpa.c:86-136 | The output is the HMACs under the consecutive last octets, each with the key its predecessor left in the buffer; without memory nothing is written |
| Hmac.ShortKeyPrf | 2008_0925_RT2870_Linux_STA_v1.4.0.0/common/cmm_wpa.c:86-136 | For a key of at most 64 bytes, or one block of output, that is the concatenation of HMACs under one key |
| Hmac.PrfShown | 2008_0925_RT2870_Linux_STA_v1.4.0.0/common/cmm_wpa.c:106-129 | Each of the first four blocks is computed of prefix, a zero, data and the number of the block |
| Hmac.PrfIsStandardIff | 2008_0925_RT2870_Linux_STA_v1.4.0.0/common/cmm_wpa.c:118-129 | It is that concatenation whatever the hash, if and only if the key fits 64 bytes or one block is asked for; of one given hash, such as SHA-1, only the direction of ShortKeyPrf is stated |
| KeyWrap.StepUndone | 2008_0925_RT2870_Linux_STA_v1.4.0.0/common/cmm_wpa.c:820-825 | One unwrap step undoes one wrap step, register A included |
| KeyWrap.StepsUndone | 2008_0925_RT2870_Linux_STA_v1.4.0.0/common/cmm_wpa.c:882-893 | Any number of unwrap steps undoes as many wrap steps, for any block cipher with an inverse |
| KeyWrap.WrapIsStandard | 2008_0925_RT2870_Linux_STA_v1.4.0.0/common/cmm_wpa.c:815-825 | The count truncated to a byte is the 64-bit t of section 2.2.1 of RFC 3394 as long as it stays below 256 |
| KeyWrap.ExchangedWrap | 2008_0925_RT2870_Linux_STA_v1.4.0.0/common/cmm_wpa.c:785-836 | For a cipher that exchanges its halves, the wrapping of any two blocks worked out: six rounds over both, counts 1 to 12, A back at 0xA6 bytes |
| KeyWrap.Wrap | 2008_0925_RT2870_Linux_STA_v1.4.0.0/common/cmm_wpa.c:785-836 | The loops give the standard wrapping of the whole blocks of the plaintext, for every length a byte can hold |
| KeyWrap.Unwrap | 2008_0925_RT2870_Linux_STA_v1.4.0.0/common/cmm_wpa.c:854-909 | All of what is written, for every c_len a byte can hold: the unwrapped registers, an incomplete block copied, and eight bytes of the memory R was given; nothing without memory. Register A is looked at nowhere |
| KeyWrap.StepsRedone | 2008_0925_RT2870_Linux_STA_v1.4.0.0/common/cmm_wpa.c:882-893 | Wrapping what was unwrapped gives the ciphertext back, whatever A came out as |
| KeyWrap.IsWrappingIff | 2008_0925_RT2870_Linux_STA_v1.4.0.0/common/cmm_wpa.c:854-909 | A ciphertext is the wrapping of p if and only if unwrapping it gives p with A back at its initial value: the check of section 2.2.2 of RFC 3394, which is not made |
| KeyWrap.ForeignUnwraps | 2008_0925_RT2870_Linux_STA_v1.4.0.0/common/cmm_wpa.c:854-909 | Every other value of A leads to a ciphertext that is the wrapping of nothing and still unwraps to p |
| KeyWrap.UnwrapsWithoutCheck | 2008_0925_RT2870_Linux_STA_v1.4.0.0/common/cmm_wpa.c:854-909 | 24 bytes that wrap nothing, from which sixteen bytes are written as data |
| KeyWrap.UnwrapOfWrap | 2008_0925_RT2870_Linux_STA_v1.4.0.0/common/cmm_wpa.c:785-909 | Unwrapping a wrapping gives the plaintext, with A back at eight 0xA6 bytes |
| KeyWrap.WrapThenUnwrap | 2008_0925_RT2870_Linux_STA_v1.4.0.0/common/cmm_wpa.c:785-909 | Wrapping and then unwrapping returns the plaintext, for every length up to 240 bytes |
| Arcfour.StateIsPermutation | 2008_0925_RT2870_Linux_STA_v1.4.0.0/common/rtmp_wep.c:287-353 | For every key and any amount of data STATE holds every value 0..255 exactly once |
| Arcfour.StepBack | 2008_0925_RT2870_Linux_STA_v1.4.0.0/common/rtmp_wep.c:333-353 | A generator step can be taken back, so different states never run into one |
| Arcfour.CryptJoin | 2008_0925_RT2870_Linux_STA_v1.4.0.0/common/rtmp_wep.c:407-417 | Data cut in two is encrypted as if whole |
| Arcfour.CryptTwice | 2008_0925_RT2870_Linux_STA_v1.4.0.0/common/rtmp_wep.c:374-384 | Decryption with the state of the encryption gives the data back |
| Arcfour.FirstRounds | 2008_0925_RT2870_Linux_STA_v1.4.0.0/common/rtmp_wep.c:287-315 | With the key 01 02 03 the first rounds exchange entries 0 and 1, 1 and 3, 2 and 8 |
| Arcfour.FirstOutputs | 2008_0925_RT2870_Linux_STA_v1.4.0.0/common/rtmp_wep.c:333-353 | From a table in order the generator gives 02 05 07 |
| Arcfour.Context.Init | 2008_0925_RT2870_Linux_STA_v1.4.0.0/common/rtmp_wep.c:287-315 | The scheduling loop with its wrapping key index gives the scheduled state |
| Arcfour.Context.NextByte | 2008_0925_RT2870_Linux_STA_v1.4.0.0/common/rtmp_wep.c:333-353 | Swaps two places of STATE, moves X and Y on and returns the byte of the standard generator |
| Arcfour.Context.Encrypt | 2008_0925_RT2870_Linux_STA_v1.4.0.0/common/rtmp_wep.c:374-417 | The loop encrypts a buffer, also in place when the destination does not lie after the source, as if from a copy |
| Wep.FcsJoin | 2008_0925_RT2870_Linux_STA_v1.4.0.0/common/rtmp_wep.c:471-480 | The CRC of split data is the CRC of the whole, for any table |
| Wep.OneByteShows | 2008_0925_RT2870_Linux_STA_v1.4.0.0/common/rtmp_wep.c:471-480 | When the top bytes of the 256 entries differ, messages of one length that differ in exactly one byte have different checksums |
| Wep.FcsStepDivides | 2008_0925_RT2870_Linux_STA_v1.4.0.0/common/rtmp_wep.c:40-106 | With the CRC-32 table a step is eight steps of division by the polynomial |
| Wep.CrcTableTops | 2008_0925_RT2870_Linux_STA_v1.4.0.0/common/rtmp_wep.c:40-106 | The top bytes of the CRC-32 table differ |
| Wep.CheckIcv | 2008_0925_RT2870_Linux_STA_v1.4.0.0/common/rtmp_wep.c:499-507 | The check value of the digits 1 to 9 is that of CRC-32, 0xcbf43926, low byte first |
| Wep.CalcFcs32 | 2008_0925_RT2870_Linux_STA_v1.4.0.0/common/rtmp_wep.c:471-480 | The loop gives the CRC of the bytes, continuing from any earlier one |
| Wep.Engine.Init | 2008_0925_RT2870_Linux_STA_v1.4.0.0/common/rtmp_wep.c:139-175 | IV and key index are written, the engine is set up for no data yet |
| Wep.Engine.EncryptData | 2008_0925_RT2870_Linux_STA_v1.4.0.0/common/rtmp_wep.c:198-206 | Each piece extends what was encrypted and checksummed before |
| Wep.Engine.SetIcv | 2008_0925_RT2870_Linux_STA_v1.4.0.0/common/rtmp_wep.c:499-507 | Appends the complemented CRC of all pieces, encrypted by the running state |
| Wep.Engine.SoftDecrypt | 2008_0925_RT2870_Linux_STA_v1.4.0.0/common/rtmp_wep.c:228-265 | In place: refuses without a key, whatever the length; otherwise, of a frame of 32 bytes or more, leaves the decrypted payload four bytes towards its start and accepts exactly when the CRC matches |
| Wep.CountsStayInsideIff | 2008_0925_RT2870_Linux_STA_v1.4.0.0/common/rtmp_wep.c:244-256 | The 32-bit counts of the decryption and of the checksum loop stay inside the frame if and only if the frame has 28 bytes or more, and 32 or more |
| Wep.ShortFrameRunsOn | 2008_0925_RT2870_Linux_STA_v1.4.0.0/common/cmm_wpa.c:1596-1604 | A frame of 31 bytes, which passes as any 12-bit length does, makes the checksum run over almost 2^32 bytes |
| Wep.AcceptedIff | 2008_0925_RT2870_Linux_STA_v1.4.0.0/common/rtmp_wep.c:228-265 | A payload is accepted if and only if some data, encapsulated under its IV and key, gives its encrypted part; that data is what is left in the buffer |
| Wep.OneByteIsNoticed | 2008_0925_RT2870_Linux_STA_v1.4.0.0/common/rtmp_wep.c:228-265 | An accepted payload is refused once one encrypted byte, of the data or of the check value, is another |
| Wep.BuiltIsAccepted | 2008_0925_RT2870_Linux_STA_v1.4.0.0/common/rtmp_wep.c:139-265 | Every body the engine builds is accepted and gives its data back |
| Wep.BuildBody | 2008_0925_RT2870_Linux_STA_v1.4.0.0/sta/auth.c:253-271 | Building a body from any pieces gives the encapsulation of their concatenation |
| Wep.BuildThenDecrypt | 2008_0925_RT2870_Linux_STA_v1.4.0.0/common/rtmp_wep.c:139-265 | Sender and receiver together return the data, for any header, key slot, IV and cut |
| Michael.MixInjective | 2008_0925_RT2870_Linux_STA_v1.4.0.0/common/rtmp_tkip.c:345-353 | The block function of section 8.3.2.3 of IEEE 802.11i-2004 is one-to-one |
| Michael.OneWordShows | 2008_0925_RT2870_Linux_STA_v1.4.0.0/common/rtmp_tkip.c:337-360 | Messages of one length that differ in exactly one word leave different states |
| Michael.TestVector | 2008_0925_RT2870_Linux_STA_v1.4.0.0/common/rtmp_tkip.c:304-430 | The MIC of "M" under the key 82925c1ca1d130b8 is the one IEEE 802.11i-2004 lists |
| Michael.SwapHalvesIs | 2008_0925_RT2870_Linux_STA_v1.4.0.0/common/rtmp_tkip.c:351-351 | The two bytes of each half are exchanged |
| Michael.TkipKey.SetMicKey | 2008_0925_RT2870_Linux_STA_v1.4.0.0/common/rtmp_tkip.c:304-316 | The two key words are read least significant byte first and the message is reset |
| Michael.TkipKey.AppendByte | 2008_0925_RT2870_Linux_STA_v1.4.0.0/common/rtmp_tkip.c:337-360 | After each byte L and R are the state after the whole words and M holds the bytes waiting |
| Michael.TkipKey.Append | 2008_0925_RT2870_Linux_STA_v1.4.0.0/common/rtmp_tkip.c:382-393 | Only the concatenation of what was appended matters |
| Michael.TkipKey.GetMic | 2008_0925_RT2870_Linux_STA_v1.4.0.0/common/rtmp_tkip.c:413-430 | The padding loop ends on a word and gives the MIC of the padded message |
| Michael.CalculateMic | 2008_0925_RT2870_Linux_STA_v1.4.0.0/common/rtmp_tkip.c:678-736 | The MIC covers addresses, priority and the MSDU as it goes on the air, VLAN tag skipped |
| Michael.TagIsSkipped | 2008_0925_RT2870_Linux_STA_v1.4.0.0/common/rtmp_tkip.c:695-733 | A VLAN tag in the packet makes no difference to what the MIC covers |
| Michael.HeaderIs | 2008_0925_RT2870_Linux_STA_v1.4.0.0/common/rtmp_tkip.c:678-736 | In front of it stand destination, source, priority and three zeros |
| Michael.CompareMic | 2008_0925_RT2870_Linux_STA_v1.4.0.0/common/rtmp_tkip.c:545-585 | TRUE if and only if the eight bytes behind the data are its MIC |
| Michael.CompareMicWithLlc | 2008_0925_RT2870_Linux_STA_v1.4.0.0/common/rtmp_tkip.c:612-655 | TRUE if and only if the eight bytes behind the data are the MIC of LLC header and data at priority 0 |
| Michael.CalculateThenCompare | 2008_0925_RT2870_Linux_STA_v1.4.0.0/common/rtmp_tkip.c:545-736 | A MIC the sender computes is accepted by the receiver, and by the LLC variant at priority 0 |
| MacTable.HashTells | 2008_0925_RT2870_Linux_STA_v1.4.0.0/include/mlme.h:147-148 | Addresses that differ in exactly one byte are on different chains |
| MacTable.LookupRightIff | 2008_0925_RT2870_Linux_STA_v1.4.0.0/common/cmm_data.c:1738-1759 | A lookup finds an entry with the address, or nothing because there is none, if and only if no direct link to somebody else is in its way on the chain |
| MacTable.LookupIsScan | 2008_0925_RT2870_Linux_STA_v1.4.0.0/common/cmm_data.c:1738-1759 | Without direct links the hash index agrees with a scan of the table |
| MacTable.LookupAfterRun | 2008_0925_RT2870_Linux_STA_v1.4.0.0/common/cmm_data.c:1738-2028 | After any run of client inserts and deletes from the empty table every lookup is right |
| MacTable.DirectLinkHidesAddress | 2008_0925_RT2870_Linux_STA_v1.4.0.0/common/cmm_data.c:1748-1759 | A concrete run after which a lookup gives an entry of another address |
| MacTable.InsertKeepsInv | 2008_0925_RT2870_Linux_STA_v1.4.0.0/common/cmm_data.c:1761-1921 | Insertion keeps every valid entry on exactly the chain of its hash, once |
| MacTable.InsertIs | 2008_0925_RT2870_Linux_STA_v1.4.0.0/common/cmm_data.c:1761-1921 | The first vacant entry is filled and the count goes up by one; no other entry changes, and nothing happens on a full table |
| MacTable.InsertedIsFound | 2008_0925_RT2870_Linux_STA_v1.4.0.0/common/cmm_data.c:1738-1921 | Among clients, a lookup of the address just inserted gives its entry |
| MacTable.DeleteKeepsInv | 2008_0925_RT2870_Linux_STA_v1.4.0.0/common/cmm_data.c:1929-2028 | Deletion keeps every valid entry on exactly the chain of its hash, once |
| MacTable.DeleteIs | 2008_0925_RT2870_Linux_STA_v1.4.0.0/common/cmm_data.c:1929-2028 | The entry is vacated and the count goes down by one; no other entry changes, and nothing happens when the address is not that of the entry |
| MacTable.DeletedIsNotFound | 2008_0925_RT2870_Linux_STA_v1.4.0.0/common/cmm_data.c:1738-2028 | Among clients, an address just deleted, if no other entry has it, is not found |
| MacTable.RunKeepsInv | 2008_0925_RT2870_Linux_STA_v1.4.0.0/common/cmm_data.c:1761-2028 | So does any run of insertions and deletions |
| MacTable.NeverFull | 2008_0925_RT2870_Linux_STA_v1.4.0.0/common/cmm_data.c:1773-1774 | The test for a full table never fires, since entry 0 stays vacant |
| MacTableDriver.MacTab.Lookup | 2008_0925_RT2870_Linux_STA_v1.4.0.0/common/cmm_data.c:1738-1759 | Following pNext gives the model's answer |
| MacTableDriver.MacTab.Insert | 2008_0925_RT2870_Linux_STA_v1.4.0.0/common/cmm_data.c:1761-1921 | Insertion in place puts the first vacant entry at the end of its chain, leaves the other chains alone, and counts it; nothing happens when none is vacant |
| MacTableDriver.MacTab.Delete | 2008_0925_RT2870_Linux_STA_v1.4.0.0/common/cmm_data.c:1929-2028 | Deletion in place unlinks the entry wherever it is on its chain and vacates it; a wrong address changes nothing; FALSE only for an index outside the table |
| Amsdu.RemovedAre | 2008_0925_RT2870_Linux_STA_v1.4.0.0/include/rtmp.h:786-817 | The bridge tunnel header is always removed, the 802.1H header unless IPX or AppleTalk follows |
| Amsdu.OthersStay | 2008_0925_RT2870_Linux_STA_v1.4.0.0/include/rtmp.h:786-817 | No other header is |
| Amsdu.Deaggregate | 2008_0925_RT2870_Linux_STA_v1.4.0.0/common/cmm_data.c:1605-1710 | For any buffer the clones, which share its memory, end up showing the frames a pure parse of the buffer as it arrived gives: rewriting headers in place disturbs no frame; the count includes a malformed subframe |
| Amsdu.SplitOfPack | 2008_0925_RT2870_Linux_STA_v1.4.0.0/common/cmm_data.c:1605-1710 | Of a packed body (section 7.2.2.2 of IEEE 802.11n-2009), whatever lengths its MSDUs have, exactly the MSDUs up to the first that is too long or behind which the split ends are announced, in order, each once |
| Amsdu.RecoveredIff | 2008_0925_RT2870_Linux_STA_v1.4.0.0/common/cmm_data.c:1621-1700 | All of them are announced unchanged if and only if none is longer than 1518 bytes, all but the last have 15 to 1514 bytes, and the last is neither empty nor, being shorter than eight bytes, taken for a header together with what stands behind the body |
| Amsdu.ShortIsMistaken | 2008_0925_RT2870_Linux_STA_v1.4.0.0/common/cmm_data.c:1664-1675 | Seven bytes that are: with a 0 behind the body they lose a header they do not have |
| Amsdu.AnnouncedIsEthernetIff | 2008_0925_RT2870_Linux_STA_v1.4.0.0/common/cmm_data.c:1664-1675 | What is announced are the Ethernet frames of the MSDUs if and only if all are announced and each has an LLC/SNAP header that is removed; the others go up without addresses |
| Amsdu.HeaderIsLost | 2008_0925_RT2870_Linux_STA_v1.4.0.0/common/cmm_data.c:1664-1700 | A concrete body of two bridge messages: the first goes up without its Ethernet header, the second not at all |
| Amsdu.Convert | 2008_0925_RT2870_Linux_STA_v1.4.0.0/include/rtmp.h:786-817 | The removed header makes room for the Ethernet header; at most the 22 bytes from the start of the subframe change |
| Amsdu.SplitPacked | 2008_0925_RT2870_Linux_STA_v1.4.0.0/common/cmm_data.c:1605-1710 | After the method ran on a packed body the clones show the MSDUs it reaches, in order; when that is all of them their number is returned |
| Transmit.Queues.DeQueue | 2008_0925_RT2870_Linux_STA_v1.4.0.0/common/cmm_data.c:778-957 | On every queue the batches sent followed by what remains are what was queued and what joined meanwhile, in order, packets joining any queue whenever the lock is free; busy queues are left alone; undisturbed, each batch is as long as it could be when it was made, and serving ends with the queue or the limit |
| Transmit.Queues.NextBatch | 2008_0925_RT2870_Linux_STA_v1.4.0.0/common/cmm_data.c:872-926 | A batch is taken from the front, or the queue is restored exactly |
| Transmit.Queues.Extend | 2008_0925_RT2870_Linux_STA_v1.4.0.0/common/cmm_data.c:900-920 | The loop adds packets while the next one is admitted |
| Transmit.AmsduFitsIff | 2008_0925_RT2870_Linux_STA_v1.4.0.0/common/cmm_data.c:734-738 | An A-MSDU batch has two frames or more, and at most 3740 bytes if and only if its first packet is shorter than 65536 bytes |
| Transmit.LongPacketSlips | 2008_0925_RT2870_Linux_STA_v1.4.0.0/common/cmm_data.c:734-738 | A packet of 65536 bytes in front, which the network stack never hands over, would make the 16-bit total let an over-long A-MSDU pass |
| Transmit.RalinkIsPair | 2008_0925_RT2870_Linux_STA_v1.4.0.0/common/cmm_data.c:740-744 | A Ralink aggregate has exactly two frames |
| Transmit.KindsAre | 2008_0925_RT2870_Linux_STA_v1.4.0.0/common/cmm_data.c:524-587 | A-MPDUs go to HT stations with a session of the priority, A-MSDUs to HT stations without one that take them, Ralink aggregates to older stations that take those; group frames and fragments go alone |
| Transmit.SessionIsUsed | 2008_0925_RT2870_Linux_STA_v1.4.0.0/common/cmm_data.c:524-587 | Every packet such a session is for goes out as an A-MPDU |
| Transmit.AggregatesGoToAp | 2008_0925_RT2870_Linux_STA_v1.4.0.0/common/cmm_data.c:746-751 | Packets are aggregated in an infrastructure network only |
| Transmit.AggregatesAreOrdinary | 2008_0925_RT2870_Linux_STA_v1.4.0.0/common/cmm_data.c:725-732 | No group, DHCP, EAPOL or WAI frame is in an aggregate |
| MgmtRing.PutKeepsInvIff | 2008_0925_RT2870_Linux_STA_v1.4.0.0/common/cmm_data_2870.c:626-654 | Queueing under the lock keeps the ring invariant if and only if a cell is free at that moment |
| MgmtRing.ClaimKeepsInvIff | 2008_0925_RT2870_Linux_STA_v1.4.0.0/common/rtusb_bulk.c:911-923 | The locked region that claims a cell keeps the ring invariant if and only if it gives up (one is pending, or sending stops) or the cell that was looked at without the lock is still the one at TxDmaIdx and still waits |
| MgmtRing.SubmitKeepsInv | 2008_0925_RT2870_Linux_STA_v1.4.0.0/common/rtusb_bulk.c:957-973 | What follows the submission, accepted or refused, keeps the ring invariant |
| MgmtRing.Done2KeepsInv | 2008_0925_RT2870_Linux_STA_v1.4.0.0/common/2870_rtmp_init.c:1215-1272 | The tasklet finds its cell at TxDmaIdx, as the code asserts, and frees the oldest packet |
| MgmtRing.FinishIs | 2008_0925_RT2870_Linux_STA_v1.4.0.0/common/cmm_data.c:132-161 | A request puts its packet last exactly when it got one and may send it |
| MgmtRing.RefusedIsUndone | 2008_0925_RT2870_Linux_STA_v1.4.0.0/common/rtusb_bulk.c:957-974 | A refused submission leaves the ring as it was before the claim |
| MgmtRing.RoundFreesOldest | 2008_0925_RT2870_Linux_STA_v1.4.0.0/common/rtusb_bulk.c:898-974 | One kick undisturbed, from the look to the second region of the tasklet, sends and frees the oldest packet and its cell |
| MgmtRing.StepOrderly | 2008_0925_RT2870_Linux_STA_v1.4.0.0/common/cmm_data.c:129-166 | With no more requests under way than free cells and one kick at most, the step that comes next (a look, a locked region, the submission) keeps it so and keeps the ring invariant |
| MgmtRing.RunOrderly | 2008_0925_RT2870_Linux_STA_v1.4.0.0/common/2870_rtmp_init.c:1215-1272 | Over any interleaving cut at every lock, in which requests under way do not outnumber free cells and kicks do not overlap, the occupied cells are the arc from TxDmaIdx to TxCpuIdx with the flags right: no cell is overwritten |
| MgmtRing.RingIsFifo | 2008_0925_RT2870_Linux_STA_v1.4.0.0/common/cmm_data.c:100-174 | Over such runs packets are freed in the order queued, each once, and TxSwFreeIdx plus what is on the ring is 32 |
| MgmtRing.EveryPutFitsIff | 2008_0925_RT2870_Linux_STA_v1.4.0.0/common/cmm_data.c:132-161 | Requests under way can all put their frames with the ring in order if and only if they do not outnumber the free cells |
| MgmtRing.OverlappingRequestsOverwrite | 2008_0925_RT2870_Linux_STA_v1.4.0.0/common/cmm_data.c:132-161 | A run from the start, 33 requests that look before the first puts its frame: a packet is overwritten and never freed, and the free count wraps |
| MgmtRing.OverlappingKicksClash | 2008_0925_RT2870_Linux_STA_v1.4.0.0/common/rtusb_bulk.c:900-923 | A run from the start, two kicks that look at the same cell: the second sends it empty, and it is not the cell at TxDmaIdx |
| MgmtRing.FullOrEmpty | 2008_0925_RT2870_Linux_STA_v1.4.0.0/common/2870_rtmp_init.c:335-338 | Equal indexes mean full or empty, told apart by the free count |
| MgmtRingDriver.TxRing.AskForRoom | 2008_0925_RT2870_Linux_STA_v1.4.0.0/common/cmm_data.c:115-165 | The look at the free count outside the lock: the request goes on, is refused, or finds the ring full, which is counted and reported as success |
| MgmtRingDriver.TxRing.FinishRequest | 2008_0925_RT2870_Linux_STA_v1.4.0.0/common/cmm_data.c:141-157 | The rest of a request: its frame is put on the ring, or its packet is released, or there was no memory for one |
| MgmtRingDriver.TxRing.KickOut | 2008_0925_RT2870_Linux_STA_v1.4.0.0/common/cmm_data_2870.c:626-654 | Fills the cell at TxCpuIdx with packet and flags, moves the index on and takes one from the free count modulo 2^32; no other cell changes |
| MgmtRingDriver.TxRing.LookForWork | 2008_0925_RT2870_Linux_STA_v1.4.0.0/common/rtusb_bulk.c:898-912 | The look at the cell at TxDmaIdx without a lock: the call goes on exactly when the ring is not empty and the cell is in use and waiting |
| MgmtRingDriver.TxRing.ClaimCell | 2008_0925_RT2870_Linux_STA_v1.4.0.0/common/rtusb_bulk.c:915-925 | The locked region claims the cell that was looked at unless another is under way or sending stops |
| MgmtRingDriver.TxRing.AfterSubmission | 2008_0925_RT2870_Linux_STA_v1.4.0.0/common/rtusb_bulk.c:962-974 | A refused submission leaves the cell waiting again and nothing pending |
| MgmtRingDriver.TxRing.DmaDone1 | 2008_0925_RT2870_Linux_STA_v1.4.0.0/common/2870_rtmp_init.c:1234-1253 | The first locked region ends the pending state and nothing else |
| MgmtRingDriver.TxRing.DmaDone2 | 2008_0925_RT2870_Linux_STA_v1.4.0.0/common/2870_rtmp_init.c:1255-1272 | The second empties its cell, moves TxDmaIdx on, and gives back the packet of the cell; in an orderly ring that is the one at TxDmaIdx and the oldest packet queued |
| BulkIn.TakesIff | 2008_0925_RT2870_Linux_STA_v1.4.0.0/common/2870_rtmp_init.c:1050-1090 | A frame put in is taken if and only if its length is a multiple of four, 24 bytes are there, and the count in its RXWI does not exceed the length |
| BulkIn.NothingIsNotTaken | 2008_0925_RT2870_Linux_STA_v1.4.0.0/common/2870_rtmp_init.c:1057-1062 | A length of zero is not |
| BulkIn.ByteCountBack | 2008_0925_RT2870_Linux_STA_v1.4.0.0/common/2870_rtmp_init.c:1087-1087 | The count is the twelve bits it was written to, whatever stands above them |
| BulkIn.ParseIsPrefix | 2008_0925_RT2870_Linux_STA_v1.4.0.0/common/2870_rtmp_init.c:1033-1124 | The frames carved, put together again, are the start of the buffer, and where carving ends nothing more can be taken |
| BulkIn.ParseOfEncode | 2008_0925_RT2870_Linux_STA_v1.4.0.0/common/2870_rtmp_init.c:1033-1124 | Frames put in one after the other come out again |
| BulkIn.RxContext.GetPacket | 2008_0925_RT2870_Linux_STA_v1.4.0.0/common/2870_rtmp_init.c:1033-1124 | Returns the frame at the read position exactly when there is one; the position moves past it, and not at all otherwise, and never past BulkInOffset |
| BulkIn.RxContext.GetAll | 2008_0925_RT2870_Linux_STA_v1.4.0.0/sta/rtmp_data.c:716-724 | Repeated carving returns the parse of the buffer |

## Left out

- ReorderOrder.EpochIsOrdered: an epoch ends at a reset and excludes a BlockAckReq whose StartSeq is held, because the code then steps LastIndSeq back; `BarOrderedIff` and `BarDeliversTwiceIff` say exactly when.
- ReorderReference.RunIsRefRun: for runs in which a frame that needs a block finds one, as under the condition of `AllocationNeverFails`, in which a BlockAckReq meets the condition of `BarIsRequestIff`, and in which new windows and marks shut out nothing held.
- ReorderDriver.RecEntry.IndicateAmpdu: the clock is read once per frame; a second flush through `Indicate_Legacy_Packet` in the same call would find nothing to do.
- ReorderAdapter.AdapterStepKeepsInvIff: the session timers are atomic steps, and a BlockAckReq for a station without session, which the code applies to entry 0, is not an event.
- ReorderAdapter.NothingLeaks: only for runs in which teardowns clear empty lists, which the code does not enforce; `NothingLeaksIff` says what any run leaves behind.
- ReorderPool.AllocationNeverFails: only for runs in which no frame gets between the steps of a set-up or teardown and is held there, which the code does not enforce; `StepKeepsPoolIff` says what each step needs.
- BaWideTids.WideTablesAgree: only for runs in which frames with TIDs 8..15 do no harm; what the tables do after one that does is not followed.
- KeyWrap.WrapThenUnwrap: a wrapping longer than 248 bytes has no one-byte length, so it cannot be handed to unwrap.
- KeyWrap.Wrap: the at most seven bytes after the last whole block of the plaintext are dropped, as in the code.
- Amsdu.Deaggregate: the copy of EAPOL frames to the key state machine is not modelled; the buffer has seven bytes behind the data, since the code looks at eight bytes of a payload that may be shorter.
- Wep.Engine.SoftDecrypt: a frame for which there is a key has at least 32 bytes; for shorter ones the loops leave the frame (`CountsStayInsideIff`), and what they then do is not modelled; nor is the CKIP branch.
- Michael.CalculateMic: packets are at least as long as their Ethernet header and VLAN tag.
- MacTableDriver.MacTab.Insert: the fields of an entry other than kind, address and chain link; `CleanAll` makes no difference, since a vacant entry has no link.
- MgmtRing.RunOrderly: only for runs in which requests under way do not outnumber free cells and kicks do not overlap, which the code does not enforce (`EveryPutFitsIff` and `ClaimKeepsInvIff` say what each needs); the reset paths that resubmit a cell, and the padding of the USB frame.
- Hmac.PrfIsStandardIff: whether SHA-1 itself, given a long key, could by chance still give the standard's output.
- ReorderDriver.RecEntry.PassHeadUp: the lists of the other sessions are not named; the frame of every method says that no block outside this session's list and the free list changes.
- BulkIn.RxContext.GetAll: the limit on packets per call.
- MacTableDriver.MacTab.Delete: the Block-Ack teardown, the timers and the hardware updates it also starts.
- MgmtRingDriver.TxRing.AskForRoom: the branch for the RT2860C, which counts the cells of a transmit ring instead.
- Frames sent (ADDBA, DELBA, BlockAckReq), their sequence and timeout fields, and the action-frame sanity checks.
- The A-MSDU hand-off inside the reordering path and the monitor-mode returns.
- `RTMPDeFragmentDataFrame`, software AES and TKIP frame decryption, TKIP key mixing, `WPAARCFOUR_ENCRYPT`, `md5_mac`.
- `MacTableReset` and the direct writes to the entry of the access point at link-up.
- AES tables and S-boxes, big-endian paths, ATE, UAPSD and access-point conditionals.
- The queue headers' pointers in `Transmit` (queues are sequences) and the freeing of ring memory.
- Register, EEPROM, LED, firmware and calibration code, the iwpriv handlers, and the sensor and seismic programs elsewhere in the repository.
