# Verified model of the SRT tunnel

This project models, in Dafny, the parts of the tunnel whose correctness is hardest to see from the code, and proves
properties of them over all inputs and all runs.

* **The multiplexer** (`src/tunnel/multiplex.rs`, `src/tunnel/dispatch.rs`, the forward loops). One SRT connection carries
  up to 255 sessions. The encoder stamps every session frame with `[epoch:8 | seq:24]`; the decoder rebuilds the order of
  each (session, direction) with a hold queue before the Open, a gap buffer behind it and a wrap-around comparison of
  epochs. The network is an arbitrary arrival sequence. Main results: whatever the network does, a session's channel
  receives a prefix of what was sent, all of it once the Fin is there; sessions do not disturb each other; every frame is
  accounted for; the queues are bounded; and exactly which reorderings the decoder repairs.
* **HaiCrypt key rotation** (`srt-1.5.6/haicrypt`). Two key contexts, driven by packet counters, and the Keying Material
  messages that keep the receiver in step. Main results: the life-cycle invariant, the packet counts and the lead of every
  announcement over every run of the sender, and agreement of both sides on the key of every packet.
* **AES key wrap and the circular output buffer** (`srt-1.5.6/haicrypt/cryspr.c`). The in-place loops compute the
  algorithms of sections 2.2.1 and 2.2.2 of RFC 3394 and are inverse to each other, for any block cipher whose decryption
  inverts its encryption. Consecutive outputs do not overlap.
* **UDP fragments, the send loop and the RTT filter** (`src/server/forward.rs`, `src/srt/connection.rs`). Fragments in any
  order give back the datagram exactly; the two-queue sender is fair in a precise sense; the filter stays in range and
  settles.

## How it is organised

Objects that the source changes in place are classes (`MuxEncoder`, `MuxDecoder`, `SessionRegistry`, `TxSession`,
`RxSession`, `CrysprCb`, `UdpReassembler`, `RttTracker`), and its loops are methods with loops. Each method is proved
against a step function on values (`Step`, `Encode`, `Managed`, `Parsed`, `AfterPush`, ...), and the theorems are about
runs of those functions. `dafny verify dfyconfig.toml` checks everything.

| file | about |
|---|---|
| `Bytes`, `MuxFrame` | big-endian fields, flag bits, the 15-byte frame header |
| `MuxDecoder`, `Reordering`, `Generations`, `Isolation` | the decoder; bounds; order and completeness; independence and conservation |
| `MuxEncoder`, `EpochWindow`, `Transparency` | the encoder; the comparison of epochs; encoder and decoder together |
| `OpenerReuse`, `IdReuse`, `AcceptorReuse`, `ReuseRuns` | reuse of an id: by the opener; how far apart two lives are; in the acceptor direction; failing runs |
| `Dispatch`, `Forwarding`, `OpenTarget`, `EndToEnd` | registry and dispatch; half-close loops; the payload of an Open; the composition of all of it |
| `KeyWrap`, `OutputBuffer` | RFC 3394 in place; the circular buffer |
| `KeyMaterial`, `TxKeys`, `RxKeys`, `KeyRotation`, `KeyFreshness`, `KeyAgreement` | the KM message; sender; receiver; rotation; keys that do not return; agreement |
| `UdpFragments`, `UdpRoundTrip`, `UdpTargets` | splitting and reassembly; the round trip; several datagrams to one target |
| `SendLoop`, `RttFilter` | the send thread; the smoothed RTT |

## Findings

Eight promises of the documentation do not hold on all inputs. Each has a failing run and the exact condition under which
the code keeps it.

* *A session waits for its Open* (`src/tunnel/multiplex.rs:442-453`). Only the first life of an id does: once a session has a
  state, nothing is held for it (`OpenerReuse.OpenedHoldsNothing`). A frame of a later life that overtakes its Open is
  delivered at once if its epoch compares as newer than the one on record, or equals it and the number is the expected one;
  otherwise it is lost. `OpenerReuse.ReuseInOrderIff` says exactly when order is kept, for every relation of the epochs;
  `OpenerReuse.ReuseDeliversAllIff` that nothing is missing if and only if the Open comes first. The runs are
  `ReuseRuns.OvertakenOpenWitness` (delivered before its Open) and `ReuseRuns.OvertakenDataLostWitness` (lost).
* *A reused id is safe because leftovers have another epoch and are dropped* (`src/tunnel/multiplex.rs:317`), for the opener.
  A frame of another life is dropped if and only if it does not compare as newer; one that does takes the session over, whose
  own frames are then dropped (`OpenerReuse.OldGenerationsStayOutIff`, `OpenerReuse.TakenOver`). The allocator hands an id out
  again 255 allocations later, less the taken ids it passed over (`IdReuse.LivesApart`), and at that distance the old life's
  frames compare as newer or equal (`IdReuse.OrdinaryReuse`, `IdReuse.ReuseAfterTaken`). The run is
  `ReuseRuns.LateTakeoverWitness`.
* *The same, for the acceptor.* No Open changes its epoch, so an id keeps it across sessions
  (`AcceptorReuse.AcceptorKeepsEpoch`) and late data of an ended session can land in the next one
  (`ReuseRuns.LeakWitness`). `AcceptorReuse.LateFramesReachIff` says exactly when.
* *The acceptor direction needs no Open.* The first arrival sets the baseline, so delivery starts at the beginning if and
  only if the first frame sent is the first to arrive (`Generations.AcceptorInOrderIff`, and
  `ReuseRuns.OvertakenBaselineWitness`).
* *Epochs cycle through 1..=255, and a change of epoch avoids the disorder of a wrapping sequence number*
  (`src/tunnel/multiplex.rs:110, 132-137`). The counter is a byte, so it cycles through 256 values and 255 and 0 give the same
  epoch. `EpochWindow.ToldApartExactly` says exactly which two allocations the decoder tells apart;
  `ReuseRuns.EpochClashWitness` shows the clash. A session that outlives 2^24 - 1 frames goes on if and only if its two
  allocations are told apart (`Transparency.EncodedTransparentIff`, `Transparency.RolloverByAllocation`); otherwise it
  delivers nothing more (`Transparency.RefusedForGood`).
* *A small UDP datagram passes unchanged.* It does if and only if it is not empty and does not start with the fragment
  mark 0xFF, or completes what is pending to just itself (`UdpRoundTrip.SmallRoundTripIff`, and
  `UdpRoundTrip.SmallLossWitness`).
* *Fragments of one target need no group id* (`src/server/forward.rs:361-363`). Pieces of different datagrams of the same
  length to one target are put together. A datagram is delivered as sent if and only if every piece gathered equals its own
  (`UdpTargets.DeliversOwnIff`, `UdpTargets.TwoMixIff`); `UdpTargets.MixWitness` delivers one that nobody sent.
* *A refused Keying Material message leaves the old secret in place* (`srt-1.5.6/haicrypt/hcrypt_ctx_rx.c:200-207`). The
  contexts are left alone (`RxKeys.RejectedLeavesContexts`), but the KEK is derived again from the context the message was
  picked for. If no message has reached that one, its key length is 0, the derivation fails, and the provider keeps the KEK
  of the refused message. `KeyAgreement.RollbackKeepsIff` is the exact condition; in `KeyAgreement.RollbackRun` the repeat of
  the sender's own message is then refused, for every crypto in which the other KEK opens neither message.

Two smaller disagreements between comments and code, where the model follows the code: 256 is called the session limit but
255 sessions are the most (`Dispatch.SessionRegistry.Allocate`), and the KM case of `HaiCrypt_Rx_Process` picks the context
to compare with from the KEKI field, so it is the even one for odd-key messages too (`KeyAgreement.ProcessEffect`).

## Model

| member | source | states |
|---|---|---|
| `MuxFrame.DecodeExact` | src/tunnel/multiplex.rs:270-310 | a message decodes to a frame if and only if it starts with the encoding of that frame; everything else is refused, and bytes behind the announced payload are ignored |
| `MuxFrame.DecodeOfEncode` | src/tunnel/multiplex.rs:146-174 | round trip: an encoded frame, whatever follows it, decodes to itself |
| `MuxFrame.EncodeOfDecode` | src/tunnel/multiplex.rs:270-310 | the reverse round trip: what decodes to a frame begins with that frame's bytes |
| `MuxFrame.FromByte` | src/tunnel/mod.rs:68-83 | a type byte is accepted if and only if some frame type has it, and then gives that type |
| `MuxFrame.WireFormat` | src/tunnel/mod.rs:104-114 | the 15 header bytes, written out |
| `MuxFrame.WireTypes` | src/tunnel/mod.rs:36-64 | the eleven type bytes, written out |
| `MuxDecoder.MuxDecoder.constructor` | src/tunnel/multiplex.rs:249-265 | a new decoder has no state, no held frames and zero counters |
| `MuxDecoder.MuxDecoder.Feed` | src/tunnel/multiplex.rs:318-456 | for every message and state, the new state and the delivered frames are those of the step function, including undecodable messages |
| `MuxDecoder.MuxDecoder.FeedOpen` | src/tunnel/multiplex.rs:344-367 | an Open replaces the key's state by one that merges the held frames of its generation, counts the others as dropped, and delivers itself and the run behind it |
| `MuxDecoder.MuxDecoder.FlushReady` | src/tunnel/multiplex.rs:500-505 | the loop appends exactly the contiguous run at `next` and leaves the rest |
| `MuxDecoder.MuxDecoder.DropStale` | src/tunnel/multiplex.rs:466-471 | counts one dropped frame and changes nothing else |
| `MuxDecoder.MuxDecoder.BufferedFrames` | src/tunnel/multiplex.rs:460-463 | the number returned is the total over all gap buffers and hold queues, in whatever order the tables are walked |
| `MuxDecoder.BufferedRemove` | src/tunnel/multiplex.rs:460-463 | the total over the states does not depend on the order of iteration |
| `MuxDecoder.HeldRemove` | src/tunnel/multiplex.rs:460-463 | the same for the hold queues |
| `MuxDecoder.RunConcat` | src/tunnel/multiplex.rs:318-456 | a run is the composition of its parts, in state and in deliveries |
| `Reordering.FlushSpec` | src/tunnel/multiplex.rs:500-505 | what is flushed are the buffered frames numbered from `next` up to the first missing number, in order; exactly the others remain |
| `Reordering.MergeSpec` | src/tunnel/multiplex.rs:356-364 | a merged buffer holds only frames of the Open's generation at their own numbers, at most 4096 of them, and misses none that fits |
| `Reordering.StepWf` | src/tunnel/multiplex.rs:344-454 | every step keeps the bounds (gap buffer at most 4096 and beyond `next`, hold queue at most 64) and delivers only frames of the session it was given |
| `Reordering.RunWf` | src/tunnel/multiplex.rs:221-224 | the same bounds over every arrival sequence |
| `Reordering.StepDirected` | src/tunnel/multiplex.rs:339-342 | session by session, waiting frames travel in the direction of their key, and only opener frames wait for an Open |
| `Generations.StepInside` | src/tunnel/multiplex.rs:370-405 | a further frame of a generation keeps the state in the generation and delivers exactly its next stretch |
| `Generations.StepKeeps` | src/tunnel/multiplex.rs:370-405 | within the window, the numbers delivered or buffered grow by exactly the arrival |
| `Generations.FullWindow` | src/tunnel/multiplex.rs:393-401 | a full buffer inside its window already holds every number of the window, so a frame dropped for lack of room is a duplicate |
| `Generations.StepOpens` | src/tunnel/multiplex.rs:344-367 | the Open delivers a prefix of its generation made of itself and what was held, from any state |
| `Generations.ContinuesInOrder` | src/tunnel/multiplex.rs:370-426 | over every continuation, deliveries are one stretch of the generation: no gap, no repetition, no foreign frame |
| `Generations.ContinuesExactly` | src/tunnel/multiplex.rs:370-405 | while arrivals stay within 4096 of the first missing frame, delivered or buffered is exactly what has arrived |
| `Generations.ContinuesWithoutLoss` | src/tunnel/multiplex.rs:370-405 | over every continuation of a generation, nothing delivered or buffered is ever lost, however full the buffer is |
| `Generations.AheadIsCounted` | src/tunnel/multiplex.rs:383-405 | exactly the frames ahead of the expected one are counted as out of order; each is kept while the buffer holds fewer than 4096, and with a full buffer it is the arrival that goes |
| `Generations.WaitsForOpen` | src/tunnel/multiplex.rs:442-453 | before the Open nothing is delivered, and up to 64 frames are held in arrival order |
| `Generations.OpenThenContinue` | src/tunnel/multiplex.rs:344-426 | from any decoder state, what a key delivers from an Open on is a non-empty prefix of the generation it opens, whatever older generations left in flight |
| `Generations.OpenerDeliversPrefix` | src/tunnel/multiplex.rs:312-456 | under any order, loss, duplication, leftovers of older generations and any traffic of other sessions, the deliveries of an opener generation are a prefix of it, empty if and only if its Open has not arrived |
| `Generations.OpenerDeliversAll` | src/tunnel/multiplex.rs:221-224 | within the queue limits, the deliveries are exactly the longest contiguous run of what has arrived |
| `Generations.WholeGeneration` | src/tunnel/multiplex.rs:312-456 | once every frame has arrived, within the limits, the whole generation has been delivered in send order |
| `Generations.AcceptorDeliversRun` | src/tunnel/multiplex.rs:429-441 | in the acceptor direction the deliveries are one contiguous stretch from the first arrival, within the buffer up to exactly the first frame missing after it |
| `Generations.AcceptorInOrderIff` | src/tunnel/multiplex.rs:429-441 | that stretch starts at the beginning of the generation if and only if the first frame sent is the first to arrive |
| `Isolation.StepAlike` | src/tunnel/multiplex.rs:318-456 | decoders that agree on a session treat its frames alike |
| `Isolation.SessionsIndependent` | src/tunnel/multiplex.rs:312-318 | for every interleaving, what is delivered for a session is exactly what is delivered when its frames come alone |
| `Isolation.UnorderedPassBy` | src/tunnel/multiplex.rs:327-337 | on every trace, frames without an order leave the decoder's state and all other deliveries as if they had not come, and each is delivered alone, at once |
| `Isolation.DeliveredByType` | src/tunnel/multiplex.rs:327-337 | by type: in any state, a frame that is not Open, Data, Fin or Close, or has no generation, is delivered alone, at once, and changes nothing |
| `Isolation.HeldByType` | src/tunnel/multiplex.rs:442-453 | by type: stamped Data, Fin or Close of an unopened opener is delivered by no one; up to 64 are held, the next ones dropped and counted |
| `Isolation.NothingInvented` | src/tunnel/multiplex.rs:318-456 | on every trace, every delivered or waiting frame was fed |
| `Isolation.StepAccounts` | src/tunnel/multiplex.rs:344-454 | one step: fed = delivered + change in waiting + change in dropped + the silently lost frames named by `Lost` |
| `Isolation.Conservation` | src/tunnel/multiplex.rs:344-471 | the same balance over every trace |
| `Isolation.PlainRun` | src/tunnel/multiplex.rs:344-454 | on duplicate-free traffic with one generation per key nothing is silently lost |
| `Isolation.PlainConservation` | src/tunnel/multiplex.rs:344-471 | on such traffic frames fed = delivered + `buffered_frames` + `stale_dropped`, exactly |
| `MuxEncoder.EpochAt` | src/tunnel/multiplex.rs:110-114 | an epoch is never 0 |
| `MuxEncoder.WireFlags` | src/tunnel/multiplex.rs:161-169 | the reliable and direction bits on the wire are the caller's or the encoder's own; the other six bits are the caller's |
| `Transparency.StampedByType` | src/tunnel/multiplex.rs:121-141 | by type: Open, Data, Fin and Close are stamped with a generation and nothing else is; the others share one counter and use up no epoch |
| `Transparency.ControlPassesThrough` | src/tunnel/multiplex.rs:121-337 | end to end: a call of any other type reaches the receiver at once, from any state of either side |
| `MuxEncoder.MuxEncoder.constructor` | src/tunnel/multiplex.rs:91-108 | both constructors: counters at 0, no session used |
| `MuxEncoder.MuxEncoder.AllocEpoch` | src/tunnel/multiplex.rs:111-114 | the epoch of the old counter value; the byte counter wraps |
| `MuxEncoder.MuxEncoder.NextSeqField` | src/tunnel/multiplex.rs:121-141 | the stamp and the new tables for unordered frames, first use, Open, rollover and continuation; sequence numbers keep fitting 24 bits |
| `MuxEncoder.MuxEncoder.EncodeFrame` | src/tunnel/multiplex.rs:146-174 | the message is the wire form of the stamped frame |
| `EpochWindow.ToldApartExactly` | src/tunnel/multiplex.rs:409-416 | the decoder takes the later of two allocations for newer and the earlier for stale if and only if their distance, corrected at counter value 255, is 1 to 127 on the byte circle |
| `EpochWindow.WindowOf126` | src/tunnel/multiplex.rs:111-114 | within 126 allocations it always does, except for neighbours at counter values 255 and 0 |
| `EpochWindow.StaysOutExactly` | src/tunnel/multiplex.rs:409-416 | the frames of an older allocation are stale to a later one if and only if the corrected distance is 1 to 128 on the byte circle |
| `OpenerReuse.OldGenerationsStayOutIff` | src/tunnel/multiplex.rs:344-426 | from any decoder state, after an Open the session delivers a prefix of its generation and nothing else if and only if no frame of another generation arrives that compares as newer |
| `OpenerReuse.IntrudesByDistance` | src/tunnel/multiplex.rs:409-416 | which frames those are, by the distance of the two allocations |
| `OpenerReuse.TakenOver` | src/tunnel/multiplex.rs:409-426 | such a frame is delivered at once, and from then on the session delivers nothing more of its own generation |
| `OpenerReuse.OpenedHoldsNothing` | src/tunnel/multiplex.rs:442-453 | in every run, nothing is held for a session that has a state |
| `OpenerReuse.ReuseInOrderIff` | src/tunnel/multiplex.rs:344-426 | a session with any generation on record, of older, newer or equal epoch, delivers its new generation in order if and only if no frame before the Open is one the decoder delivers at once |
| `OpenerReuse.ReuseByEpoch` | src/tunnel/multiplex.rs:409-426 | with a newer epoch that means that the Open comes first; with an older one order is always kept, and what came before the Open is lost |
| `OpenerReuse.ReuseDeliversAllIff` | src/tunnel/multiplex.rs:344-426 | if every frame arrives once and fits the buffer, exactly the new generation is delivered if and only if the Open is the first of its frames to arrive, whatever the epoch on record |
| `IdReuse.AllocateStep` | src/tunnel/dispatch.rs:80-103 | `allocate` is a step of the history below, across the wrap-around of its counter |
| `IdReuse.LivesApart` | src/tunnel/dispatch.rs:86-101 | over every history of a registry, two allocations of one id are 255 allocations a round apart, less one for every taken id passed over |
| `IdReuse.OrdinaryReuse` | src/tunnel/multiplex.rs:111-114 | 255 allocations on, the epoch is the same or compares as older: the frames of the old life are never stale to the new one |
| `IdReuse.ReuseAfterTaken` | src/tunnel/multiplex.rs:111-114 | the same with taken ids: exact condition; up to 125 do not help, 128 to 253 do |
| `AcceptorReuse.AcceptorKeepsEpoch` | src/tunnel/multiplex.rs:121-141 | an acceptor, which opens no session, stamps all frames of an id as one generation, whatever sessions they belong to, up to 2^24 - 1 of them |
| `AcceptorReuse.AdvancesIff` | src/tunnel/multiplex.rs:370-405 | over every continuation of a generation something is delivered on the key if and only if the expected frame arrives |
| `AcceptorReuse.LateFramesReachIff` | src/tunnel/multiplex.rs:312-456 | frames of an ended session of an acceptor are delivered into the next one on the id if and only if the decoder still expects one of them and it arrives, or, if nothing had arrived before, the first arrival is one of them |
| `ReuseRuns.LeakWitness` | src/tunnel/multiplex.rs:312-318 | a run in which data of an ended session of an acceptor becomes the first data in the channel of the next one |
| `ReuseRuns.OvertakenBaselineWitness` | src/tunnel/multiplex.rs:429-441 | a run of two frames in which frame 1 is delivered and frame 0 is lost |
| `ReuseRuns.OvertakenOpenWitness` | src/tunnel/multiplex.rs:409-426 | a run, with a newer epoch, in which data is delivered before its own Open |
| `ReuseRuns.OvertakenDataLostWitness` | src/tunnel/multiplex.rs:409-416 | ordinary reuse, a whole round of the allocator apart: data that overtakes its Open is dropped and lost |
| `ReuseRuns.LateTakeoverWitness` | src/tunnel/multiplex.rs:409-426 | ordinary reuse: a late frame of the old life is delivered after the new Open, and the new session's own data is dropped |
| `ReuseRuns.EpochClashWitness` | src/tunnel/multiplex.rs:111-114 | allocations 255 and 256 are not told apart; a run in which old data is delivered after the new Open and the new data dropped |
| `Transparency.FeedOfEncoded` | src/tunnel/multiplex.rs:318-326 | feeding the bytes of a frame is feeding the frame |
| `Transparency.InStepStep` | src/tunnel/multiplex.rs:121-141 | an encode call whose frame is fed at once is delivered alone, and the decoder expects exactly the number stamped next, also across a change of epoch that compares as newer |
| `Transparency.InOrderTransparent` | src/tunnel/multiplex.rs:121-456 | for every sequence of encode calls whose changes of epoch compare as newer, in-order feeding returns each frame alone and at once and never buffers or drops |
| `Transparency.EncodedTransparentIff` | src/tunnel/multiplex.rs:121-456 | over the encoded bytes, for every sequence of encode calls: in-order feeding returns exactly the frames if and only if every change of epoch without an Open compares as newer |
| `Transparency.RolloverByAllocation` | src/tunnel/multiplex.rs:132-137 | which, for the two allocations, is that they are told apart |
| `Transparency.RefusedForGood` | src/tunnel/multiplex.rs:409-416 | a session whose change of epoch does not compare as newer delivers nothing more |
| `Transparency.CallsBecomeFrames` | src/tunnel/multiplex.rs:146-174 | the frames carry the type, session and payload of their calls, in order, and their flags but for the two bits added |
| `Transparency.LifeIsGeneration` | src/tunnel/multiplex.rs:116-141 | the frames stamped during one life of a session, however interleaved with other sessions, are one generation, numbered from 0, that carries its calls |
| `Dispatch.AllTakenMeansFull` | src/tunnel/dispatch.rs:87-102 | if 256 consecutive counter values find no free id, 255 sessions are live |
| `Dispatch.SessionRegistry.constructor` | src/tunnel/dispatch.rs:64-69 | an empty registry whose counter starts at 1 |
| `Dispatch.SessionRegistry.Allocate` | src/tunnel/dispatch.rs:80-103 | succeeds if and only if fewer than 255 sessions are live; gives the first free id in 1..255 from the counter on, across its wrap; the gauge stays the map's size |
| `Dispatch.SessionRegistry.RegisterSpecific` | src/tunnel/dispatch.rs:113-127 | succeeds if and only if the id is neither 0 nor taken; otherwise nothing changes |
| `Dispatch.SessionRegistry.Route` | src/tunnel/dispatch.rs:131-137 | appends the event to that session's channel if it is registered and its receiver exists, and says so; otherwise nothing changes |
| `Dispatch.SessionRegistry.CloseAll` | src/tunnel/dispatch.rs:147-156 | empties the registry and takes exactly its sessions off the gauge |
| `Dispatch.SessionRegistry.Remove` | src/tunnel/dispatch.rs:159-166 | removes one session; the gauge stays the map's size, so it never underflows |
| `Dispatch.SessionRegistry.DispatchOne` | src/server/listener.rs:361-438 | for every frame type the exact action with its session and payload, the exact new channels (Data and Datagram their payload, Fin, and Close for Close and Rst), a taken id never evicted, and the reply sent (Rst for data that finds no one, Close for a refused Open) |
| `Forwarding.ForwardLoop` | src/client/proxy.rs:153-217 | the log of attempts, written as they are made, is Data* and then at most one Fin: every byte read before the end of file, in order, and Fin if and only if it was seen; every peer byte before its Fin is written; the loop ends at exactly the first ending event |
| `Forwarding.ReadsAllOf` | src/client/proxy.rs:161-196 | what is read and what is written is every byte up to the first end of file, or Fin |
| `Forwarding.EndingsAre` | src/client/proxy.rs:153-217 | a session still going has seen no watchdog, no failure and no close on a side in use, and not both half-closes; one that has ended has just seen one of these |
| `Forwarding.ClientSession` | src/client/proxy.rs:82-86 | on every way out the attempts are Open, Data*, at most one Fin with no Data after it, then exactly one Close, last; also stated attempt by attempt |
| `Forwarding.ServerSession` | src/server/forward.rs:82-104 | on every way out the attempts are Data*, at most one Fin, then exactly one Close, last; also stated attempt by attempt |
| `EndToEnd.ChunksFlat` | src/tunnel/dispatch.rs:275-278 | the chunks of a batch, joined, are the batch |
| `EndToEnd.ChunksFull` | src/tunnel/dispatch.rs:275-278 | all chunks but the last have 1301 bytes |
| `EndToEnd.SendDataBatch` | src/tunnel/dispatch.rs:272-289 | the packets are the wire forms of the batch's chunks, stamped in order |
| `EndToEnd.OpsAreScript` | src/client/proxy.rs:82-217 | the encode calls of a client session's attempts are Open, all chunks of all batches, Fin and Close as attempted |
| `EndToEnd.ReceiveLoop` | src/server/listener.rs:317-325 | decoder, registry and accepted connection requests after any messages are those of the run of the decoder followed by dispatch of its deliveries |
| `Transparency.ReceiveIsRun` | src/server/listener.rs:317-325 | a run over messages is the run over the frames that decode |
| `EndToEnd.ChannelIsLocal` | src/tunnel/dispatch.rs:371-414 | a session's channel depends only on the session's own frames |
| `EndToEnd.PrefixFillsChannel` | src/tunnel/dispatch.rs:371-414 | a delivered prefix of a generation registers the session and fills its channel with exactly the events behind the Open |
| `EndToEnd.SessionEndToEnd` | src/tunnel/multiplex.rs:312-456 | for one life of a session, the first of its id or a later one, from any decoder state and under any network that brings no newer-comparing frame of another life after the Open: the channel holds a prefix of Data chunks, Fin, Close as sent; its data is a prefix of the bytes batched, and all of them once Fin is there; there is a channel if and only if the Open has arrived |
| `EndToEnd.ChannelAfterOpen` | src/tunnel/dispatch.rs:371-414 | from any decoder state, the channel holds exactly the events of what the key delivers from the Open on; what was delivered before went to no one |
| `EndToEnd.ForwardedEndToEnd` | src/client/proxy.rs:82-217 | from socket to channel: the peer receives a prefix of the bytes the local side delivered, pre-read bytes first, all of them once Fin is there, and sees Fin only after a real end of file |
| `EndToEnd.OpenCarriesTarget` | src/server/listener.rs:395-412 | a life of a session asks the server to connect exactly once if its Open arrives, with the payload the client gave, which reads back as the target, and not at all otherwise |
| `OpenTarget.ParseOpenExact` | src/server/forward.rs:41-53 | a payload is read as a target if and only if it starts with the payload `send_open` makes of that target |
| `OpenTarget.OpenLayout` | src/tunnel/dispatch.rs:328-336 | that payload, byte by byte |
| `EndToEnd.SessionCompletes` | src/tunnel/multiplex.rs:312-456 | if every frame has arrived and the queues suffice, the channel holds everything that was sent |
| `EndToEnd.LaterLifeCompletesIff` | src/tunnel/multiplex.rs:344-426 | with a generation on record and every frame of the new life arriving once, within the buffer, the channel holds everything that was sent if and only if the Open is the first to arrive |
| `KeyWrap.StepInverse` | srt-1.5.6/haicrypt/cryspr.c:231-250 | one unwrap step undoes the wrap step of the same counter |
| `KeyWrap.XorBitwise` | srt-1.5.6/haicrypt/cryspr.c:200-206 | the exclusive or, bit by bit |
| `KeyWrap.RfcStep` | srt-1.5.6/haicrypt/cryspr.c:187-209 | step n*j+i as section 2.2.1 of RFC 3394 counts it: what it encrypts, which bytes of its number are added to which bytes of A, and what goes back |
| `KeyWrap.WrapIsSixRounds` | srt-1.5.6/haicrypt/cryspr.c:183-211 | six rounds from A = A6..A6 and R = the key |
| `KeyWrap.WrapOfOne` | srt-1.5.6/haicrypt/cryspr.c:172-212 | the shortest key written out: six encryptions with the numbers 1 to 6 added to A |
| `KeyWrap.UnwrapOfWrap` | srt-1.5.6/haicrypt/cryspr.c:172-259 | unwrapping a wrapped key gives the key, for every key of 8n bytes and every cipher whose decryption inverts its encryption |
| `KeyWrap.UnwrapIffWrap` | srt-1.5.6/haicrypt/cryspr.c:253-258 | for a cipher that is a permutation, exactly the wrapped keys unwrap: everything else fails the integrity check |
| `KeyWrap.XorCounter` | srt-1.5.6/haicrypt/cryspr.c:200-206 | the guarded byte-wise xor is the xor with the 64-bit big-endian counter |
| `KeyWrap.WrapKey` | srt-1.5.6/haicrypt/cryspr.c:172-212 | the in-place loops compute section 2.2.1 of RFC 3394; -1 and an untouched buffer for a bad length; nothing behind the output is written |
| `KeyWrap.UnwrapKey` | srt-1.5.6/haicrypt/cryspr.c:214-259 | the in-place loops compute section 2.2.2 of RFC 3394; success if and only if the integrity check holds; a failed output is zeroed |
| `KeyWrap.WrapThenUnwrap` | srt-1.5.6/haicrypt/cryspr.c:172-259 | the two in-place methods, one after the other, return the original key |
| `OutputBuffer.CrysprCb.constructor` | srt-1.5.6/haicrypt/cryspr.c:274-316 | room for six padded messages, offset 0 |
| `OutputBuffer.PaddedIsNext` | srt-1.5.6/haicrypt/hcrypt_msg.h:72 | the padded length is the next multiple of 16 |
| `OutputBuffer.PlacedWhereItFits` | srt-1.5.6/haicrypt/cryspr.c:261-272 | a request goes behind the offset whenever there is room, and otherwise to the start |
| `OutputBuffer.CrysprCb.GetOutbuf` | srt-1.5.6/haicrypt/cryspr.c:261-272 | the region and the new offset; both are inside the buffer if and only if the request fits it |
| `OutputBuffer.LiveRegionsDisjoint` | srt-1.5.6/haicrypt/cryspr.c:261-272 | consecutive requests whose total is at most the size minus the largest get pairwise disjoint regions inside the buffer, from any offset |
| `OutputBuffer.FiveOutputsLive` | srt-1.5.6/haicrypt/cryspr.c:274-316 | with the buffer sized for six messages, any five consecutive outputs are disjoint |
| `KeyMaterial.KmMsgFields` | srt-1.5.6/haicrypt/hcrypt_ctx_tx.c:275-331 | an assembled message passes every check of the receiver and shows it exactly its flags, salt, key length and wrapped keys |
| `KeyMaterial.KmHeaderBytes` | srt-1.5.6/haicrypt/hcrypt_ctx_tx.c:275-331 | the first 32 bytes of an assembled message, written out |
| `KeyMaterial.CheckedBytes` | srt-1.5.6/haicrypt/hcrypt_ctx_rx.c:72-137 | byte by byte, which messages are recognised as Keying Material and which of them pass the checks |
| `KeyMaterial.SecretFromSaltEnd` | srt-1.5.6/haicrypt/hcrypt_sa.c:64-95 | the KEK is derived from the password, the last 8 bytes of the salt and the key length, and nothing else |
| `KeyMaterial.KmMsgInjective` | srt-1.5.6/haicrypt/hcrypt_ctx_tx.c:275-331 | equal messages carry equal keys |
| `KeyMaterial.CarriedOfKmMsg` | srt-1.5.6/haicrypt/hcrypt_ctx_rx.c:144-240 | the holder of the KEK finds exactly the keys that were assembled, even before odd |
| `TxKeys.TxSession.constructor` | srt-1.5.6/haicrypt/hcrypt.c:153-167 | the even context keyed, active, announced and due; the other one empty |
| `TxKeys.TxSession.Refresh` | srt-1.5.6/haicrypt/hcrypt_ctx_tx.c:172-220 | a fresh key in the other context and a message that carries both |
| `TxKeys.TxSession.PreSwitch` | srt-1.5.6/haicrypt/hcrypt_ctx_tx.c:226-242 | the other context is announced at once; the current one no longer, if the message has both keys |
| `TxKeys.TxSession.Switch` | srt-1.5.6/haicrypt/hcrypt_ctx_tx.c:244-256 | the two contexts change roles |
| `TxKeys.TxSession.PostSwitch` | srt-1.5.6/haicrypt/hcrypt_ctx_tx.c:258-272 | the old context is retired and its key leaves the announced message |
| `TxKeys.TxSession.ManageKm` | srt-1.5.6/haicrypt/hcrypt_ctx_tx.c:333-394 | which of the three transitions happens, by the counter, and which announcements fall due |
| `TxKeys.TxSession.InjectKm` | srt-1.5.6/haicrypt/hcrypt_ctx_tx.c:396-419 | the due messages, even first, each once |
| `TxKeys.TxSession.ManageKeys` | srt-1.5.6/haicrypt/hcrypt_tx.c:55-80 | both together |
| `TxKeys.TxSession.Data` | srt-1.5.6/haicrypt/hcrypt_tx.c:95-130 | the packet goes out under the current key and is counted, modulo 2^32 |
| `TxKeys.CounterWraps` | srt-1.5.6/haicrypt/hcrypt_tx.c:95-130 | the packet counter is 32 bits wide |
| `RxKeys.RxSession.constructor` | srt-1.5.6/haicrypt/hcrypt.c:168-175 | two contexts without a key |
| `RxKeys.RxSession.ParseKm` | srt-1.5.6/haicrypt/hcrypt_ctx_rx.c:57-240 | result and state for malformed messages (-1), a secret that does not match (-2, with the rollback) and one or two keys (0) |
| `RxKeys.RejectedLeavesContexts` | srt-1.5.6/haicrypt/hcrypt_ctx_rx.c:198-210 | for every receiver and message: a rejected message leaves both contexts and the current one alone, and a malformed one the KEK too |
| `RxKeys.RefusedIff` | srt-1.5.6/haicrypt/hcrypt_ctx_rx.c:177-197 | which KEK a message is unwrapped with, and that it is refused if and only if it does not unwrap under that |
| `RxKeys.PickedIs` | srt-1.5.6/haicrypt/hcrypt_ctx_rx.c:144-153 | which context a message is checked for |
| `RxKeys.ComparedBit` | srt-1.5.6/haicrypt/hcrypt_rx.c:146-162 | which context a message is compared with, by a bit of the KEKI field |
| `RxKeys.RxSession.ProcessKm` | srt-1.5.6/haicrypt/hcrypt_rx.c:146-162 | a message already in the compared context's cache is skipped, any other is parsed |
| `RxKeys.RxSession.Data` | srt-1.5.6/haicrypt/hcrypt_rx.c:26-62 | the key a packet is decrypted with, if its slot has one |
| `KeyRotation.LifecycleMeaning` | srt-1.5.6/haicrypt/hcrypt_ctx_tx.c:226-272 | exactly one context is ACTIVE and it is the current one; exactly one is announced; its message carries the active key, and the other one exactly while that is being introduced or phased out |
| `KeyRotation.BeginsSteady` | srt-1.5.6/haicrypt/hcrypt_ctx_tx.c:47-102 | the first `ManageKeys` announces the first key |
| `KeyRotation.DataKeeps` | srt-1.5.6/haicrypt/hcrypt_tx.c:95-130 | a data packet keeps the life cycle and the counter does not wrap |
| `KeyRotation.ManageSteady` | srt-1.5.6/haicrypt/hcrypt_ctx_tx.c:354-367 | below R-P packets nothing changes; above, the next key is made and announced at once |
| `KeyRotation.ManagePreSwitch` | srt-1.5.6/haicrypt/hcrypt_ctx_tx.c:343-353 | above R packets the announced key takes over, with no packet counted; the assertion in the switch holds |
| `KeyRotation.ManageOverlap` | srt-1.5.6/haicrypt/hcrypt_ctx_tx.c:368-379 | above P packets the old key leaves the announcement, before the next refresh |
| `KeyRotation.EveryRunOk` | srt-1.5.6/haicrypt/hcrypt_tx.c:55-130 | over every run: the life cycle, and a log in which every packet goes out under the key its slot was last announced with |
| `KeyRotation.ManageCounter` | srt-1.5.6/haicrypt/hcrypt_ctx_tx.c:244-256 | a switch happens exactly in the pre-switch phase above R packets, and its assertion never fails |
| `KeyRotation.NoKeyOverused` | srt-1.5.6/haicrypt/hcrypt_ctx_tx.c:343-379 | no key encrypts more than R+k packets, in every run |
| `KeyRotation.KeysAnnouncedAhead` | srt-1.5.6/haicrypt/hcrypt_ctx_tx.c:354-367 | each later key is announced, with both keys in the message, at least P+1-k packets before its first use, in every run |
| `KeyRotation.RunsStartOk` | srt-1.5.6/haicrypt/hcrypt.c:153-167 | the start of a session satisfies all these invariants |
| `KeyRotation.Rotation` | srt-1.5.6/haicrypt/hcrypt_ctx_tx.c:333-394 | for every run from creation on: life cycle, at most R+k packets a key, lead of P+1-k, and a due switch finds its key ready |
| `KeyFreshness.ActNeverReturns` | srt-1.5.6/haicrypt/hcrypt_ctx_tx.c:333-394 | an announcement carries only the latest key of a slot or the one just generated, so that with fresh keys none that was replaced comes back |
| `KeyFreshness.KeysNeverReturn` | srt-1.5.6/haicrypt/hcrypt_ctx_tx.c:172-220 | the same over every run that never generates a key twice |
| `KeyAgreement.ParseEffect` | srt-1.5.6/haicrypt/hcrypt_ctx_rx.c:144-240 | parsing an assembled message succeeds from every sound state and sets exactly the contexts whose keys it carries |
| `KeyAgreement.ProcessEffect` | srt-1.5.6/haicrypt/hcrypt_rx.c:146-162 | the same with the cache: a skipped message would have changed no key |
| `KeyAgreement.KmArrives` | srt-1.5.6/haicrypt/hcrypt_rx.c:146-162 | processing one more message that comes in order, with the cache in between, leaves the receiver with the latest keys of all that came |
| `KeyAgreement.EveryReceptionTracks` | srt-1.5.6/haicrypt/hcrypt_rx.c:87-162 | over every arrival sequence, messages and packets in any order, lost and repeated, with rejected messages of others in between that do not cost the KEK, the receiver holds what it has parsed last |
| `KeyAgreement.OrderlyReceptionTracks` | srt-1.5.6/haicrypt/hcrypt_rx.c:87-162 | over messages that come in order, with harmless losses, it holds what has come last |
| `KeyAgreement.RollbackKeepsIff` | srt-1.5.6/haicrypt/hcrypt_ctx_rx.c:198-208 | a refused message leaves the session's KEK in place if and only if it was checked under that KEK or was picked for a keyed context |
| `KeyAgreement.RefusedWithoutKek` | srt-1.5.6/haicrypt/hcrypt_ctx_rx.c:190-210 | a receiver that has lost the KEK refuses the session's messages for a keyed context, without any change |
| `KeyAgreement.RollbackRun` | srt-1.5.6/haicrypt/hcrypt_ctx_rx.c:177-210 | a run in which that happens: one foreign message, and the repeat of the sender's own is refused |
| `KeyAgreement.SyncKept` | srt-1.5.6/haicrypt/hcrypt_rx.c:146-162 | losing messages that only repeat announced keys leaves the receiver with the keys of the whole log so far |
| `KeyAgreement.FreshIsSkipSafe` | srt-1.5.6/haicrypt/hcrypt_rx.c:146-162 | if no replaced key comes back, a message skipped by the cache comparison brings no new key, whatever was lost before it |
| `KeyAgreement.EveryKeyIntroduced` | srt-1.5.6/haicrypt/hcrypt_ctx_tx.c:172-331 | every packet of a sender's log has a message before it that introduces its key |
| `KeyAgreement.PacketKeyAgrees` | srt-1.5.6/haicrypt/hcrypt_rx.c:26-62 | after any arrivals in any order a slot holds a given key if and only if some parsed message carries it for the slot and none parsed later carries another; for messages in order, the same of all that came |
| `KeyAgreement.IntroducedIsCurrent` | srt-1.5.6/haicrypt/hcrypt_ctx_tx.c:226-272 | a packet's key is current from the processing of a message that introduces it until that of one that replaces it |
| `KeyAgreement.RunKeysAgree` | srt-1.5.6/haicrypt/hcrypt_ctx_rx.c:57-240 | both for every run of the sender from creation on; in order, any messages may be lost if no key is generated twice, and repeats in any case |
| `UdpFragments.ParseOfAddr` | src/server/forward.rs:316-338 | address header round trip for hosts of at most 255 bytes |
| `UdpFragments.ParseAddrExact` | src/server/forward.rs:316-328 | a frame is read as header and rest if and only if it is made of them |
| `UdpFragments.AddrBytes` | src/server/forward.rs:333-338 | the header, byte by byte |
| `UdpFragments.PartsBounds` | src/server/forward.rs:395-399 | at most 64 parts for a datagram of at most 65535 bytes, and they cover it exactly |
| `UdpFragments.SplitUdpFrames` | src/server/forward.rs:381-413 | one frame if header, payload and 5 bytes fit 1301, and otherwise the numbered pieces; no frame exceeds 1301 bytes |
| `UdpFragments.PieceSizes` | src/server/forward.rs:393-412 | all pieces but the last have 1301 bytes |
| `UdpFragments.PieceBytes` | src/server/forward.rs:402-411 | a piece, byte by byte |
| `UdpFragments.FragmentBytes` | src/server/forward.rs:489-503 | byte by byte, what is taken for a fragment |
| `UdpFragments.PushWf` | src/server/forward.rs:478-553 | every push keeps equal key sets in `pending` and `created_at`, and `received` the number of filled slots |
| `UdpFragments.UdpReassembler.constructor` | src/server/forward.rs:446-451 | both tables empty |
| `UdpFragments.UdpReassembler.CleanupExpired` | src/server/forward.rs:457-471 | removes exactly the states older than 30 seconds, from both tables, and returns their number |
| `UdpFragments.UdpReassembler.Push` | src/server/forward.rs:478-553 | state and result for every frame: malformed, small, fragment, changed shape, complete |
| `UdpRoundTrip.PieceParses` | src/server/forward.rs:400-411 | the receiver reads from a piece its target, its number, the total and its slice |
| `UdpRoundTrip.JoinedSlices` | src/server/forward.rs:541-547 | the first m slices, joined, are the payload up to there |
| `UdpRoundTrip.PushPiece` | src/server/forward.rs:507-551 | a piece that does not complete the datagram is stored; the one that does yields header and payload |
| `UdpRoundTrip.PushElsewhere` | src/server/forward.rs:503-516 | a frame of another target leaves the datagram alone |
| `UdpRoundTrip.StillWaiting` | src/server/forward.rs:478-553 | as long as a piece is missing, nothing is delivered for the target |
| `UdpRoundTrip.ReassemblesExactly` | src/server/forward.rs:478-553 | in any order, with repeats and among other targets, exactly the last distinct piece delivers header and payload, and clears the target |
| `UdpTargets.PushAnyPiece` | src/server/forward.rs:478-553 | a piece of any datagram to a target: another shape discards what is there, a number that is there keeps its first piece, the last missing one delivers what has been gathered |
| `UdpTargets.TargetRefines` | src/server/forward.rs:457-553 | the same over every sequence of pieces of any datagrams to the target, other frames and clean-ups; the age counts from the first piece; and a frame that is no fragment is passed on or dropped by itself, whatever is pending |
| `UdpTargets.DeliversOwnIff` | src/server/forward.rs:519-547 | the completing piece delivers its own datagram if and only if every piece gathered equals the datagram's own |
| `UdpTargets.TwoMixIff` | src/server/forward.rs:519-547 | with pieces of one datagram held, the last missing piece of another of the same shape delivers that one if and only if they agree on the pieces held |
| `UdpTargets.MixTwo` | src/server/forward.rs:519-547 | the first piece of one datagram and the second of another of the same shape are delivered together |
| `UdpTargets.MixWitness` | src/server/forward.rs:519-547 | two concrete datagrams whose pieces give a third one that nobody sent |
| `UdpRoundTrip.SmallRoundTripIff` | src/server/forward.rs:481-488 | in every state, a small datagram comes back at once as it was if and only if it is not empty and does not start with 0xFF, unless it completes what is pending to just itself |
| `UdpRoundTrip.SmallPushExactly` | src/server/forward.rs:478-553 | in every state: an empty small datagram is swallowed, one without the mark is returned and changes nothing, one with it is dropped, stored or completes what is pending |
| `UdpRoundTrip.SmallRoundTripIdle` | src/server/forward.rs:481-488 | with nothing pending for the target: it comes back if and only if it is not empty and does not start with 0xFF |
| `UdpRoundTrip.SmallLossWitness` | src/server/forward.rs:481-488 | an empty datagram and the single byte 0xFF are swallowed, and a small datagram that starts with 0xFF comes out as another one |
| `SendLoop.StepFifo` | src/srt/connection.rs:1046-1081 | every step of the threads keeps both queues first in, first out, each item at most once |
| `SendLoop.StepPrompt` | src/srt/connection.rs:1046-1081 | every step keeps the bound on the delay of priority items |
| `SendLoop.StepFaithful` | src/srt/connection.rs:1084-1133 | every step keeps the wire equal to the started messages that are not empty, but for the last one before the thread stops |
| `SendLoop.Schedule` | src/srt/connection.rs:1046-1133 | over every interleaving: first in, first out; at most one reliable item starts between the arrival of a priority item and its start; the wire carries the started messages in order |
| `SendLoop.AllEnqueued` | src/srt/connection.rs:1046-1081 | every item handed over is in its queue, the reliable ones until that is closed |
| `SendLoop.StepStarts` | src/srt/connection.rs:1057-1067 | a step of the thread starts the head of the queue its phase looks at |
| `SendLoop.EverythingIsSent` | src/srt/connection.rs:1046-1133 | progress: with a working socket, within twice the queued items and two steps of the thread both queues are empty and all that was ever enqueued is on the wire |
| `SendLoop.StopsWhenClosed` | src/srt/connection.rs:1068-1079 | once the reliable queue is closed the thread stops within one step more, with both queues drained |
| `RttFilter.RttTracker.constructor` | src/srt/connection.rs:234-240 | the average starts at 70 ms |
| `RttFilter.RttTracker.Update` | src/srt/connection.rs:262-274 | the new average, unchanged by a sample that is not positive and finite |
| `RttFilter.UpdatedIsNearest` | src/srt/connection.rs:262-274 | the new average is the whole number nearest to seven eighths of the old one and an eighth of the sample, as far as 60..800 allows |
| `RttFilter.RejectedSample` | src/srt/connection.rs:264-267 | a sample that is not positive and finite changes nothing |
| `RttFilter.RttTracker.Ttl` | src/srt/connection.rs:286-290 | the lifetime for the current average |
| `RttFilter.TtlIsLeast` | src/srt/connection.rs:286-290 | the lifetime is the least one that is at least three averages and the configured minimum, cut off at 1500 |
| `RttFilter.AlwaysInRange` | src/srt/connection.rs:217-290 | over all samples the average stays in 60..800 and the lifetime in 180..1500 |
| `RttFilter.IntegerStep` | src/srt/connection.rs:262-274 | for a whole-number sample the filter moves by the rounded eighth of the distance |
| `RttFilter.StepTowards` | src/srt/connection.rs:262-274 | never past the sample, and no move exactly if the distance is in -4..3 |
| `RttFilter.MovesMonotonically` | src/srt/connection.rs:262-274 | under a constant sample the average moves monotonically towards it without overshoot |
| `RttFilter.StopsInDeadBand` | src/srt/connection.rs:262-290 | it stops exactly in the dead band, and within as many samples as the initial distance |

## Left out

- Networking, processes and foreign code: libsrt and its sockets, tokio and its timers, DNS, SOCKS5 and HTTP parsing, threads. What they deliver are inputs (arrival sequences, happenings of the forward loops, whether a send works).
- AES, PBKDF2, the PRNG and the clocks: uninterpreted functions and inputs. Crypto calls succeed, but for a key derivation of length 0; the only law used is that block decryption inverts block encryption (and the reverse, in `KeyWrap.UnwrapIffWrap`).
- Authentication (`src/auth`), configuration, command line, logging and metrics: easy members only. The reorder counters are kept, without the 64-bit limit of the source's; `report_now` and the global metrics are not.
- The separate decoder of the authentication window (`src/server/listener.rs:180`): the model starts with a fresh decoder that sees all frames.
- An Open sent in the acceptor direction of the very session a theorem on its opener is about: no encoder sends one, and it would take over the opener's hold queue. Other sessions are not restricted.
- Removal of a session while frames are still arriving: the end-to-end theorems hold at every moment before the session's task ends; after that its frames find no channel.
- EndToEnd.ReceiveLoop: the tasks of the sessions are taken to listen while messages arrive; what the loop sends back (the replies of `DispatchOne`) is not followed further.
- The client's dispatch of an Open, UDP forwarding loops and `recv`: they add no harder property.
- AES-GCM, preshared keys, `HaiCrypt_Clone` and `HaiCrypt_Tx_Process`: further cases of the same rotation.
- KeyRotation.Rotation: assumes gaps of 1 to k packets between `ManageKeys` calls with k <= P, 3P <= R and R + k below 2^32; `StaysIffUsed` shows why a gap of 0 is different.
- KeyAgreement.OrderlyReceptionTracks: speaks of messages that are not reordered among themselves; and if a key may be generated twice, only repeats may be lost. `EveryReceptionTracks` has no such condition and speaks of the messages parsed.
- KeyRotation.NoKeyOverused: counts packets between switches, so it speaks of different keys as far as the PRNG gives different ones.
- RxKeys.RxSession.ProcessKm: the field that selects the compared context is read as a little-endian host reads it.
- KeyWrap.UnwrapKey: needs a non-empty input, because the source subtracts 8 from an unsigned length before its checks.
- OutputBuffer.CrysprCb.GetOutbuf: after a request larger than the whole buffer the offset is outside it; what the source does from there is not modelled.
- UdpRoundTrip.ReassemblesExactly: one datagram in flight per target and no expiry in between; `UdpTargets.TargetRefines` has neither condition, and takes fragments to the target to be pieces of datagrams that could have been sent. Hosts are valid UTF-8, so that the lossy conversion is the identity.
- UdpFragments.SplitUdpFrames: payloads of at most 65535 bytes and headers of at most 258, as the source's debug assertions and its one-byte host length demand.
- KeyAgreement.EveryReceptionTracks: a foreign message is one that is rejected; one that unwraps under the session's KEK without being the sender's is not modelled.
- SendLoop: a value-level step machine rather than a loop, since the application threads act between any two of its steps; the retry inside `send_one` is one step. The lifetime and ordering flags handed to the socket with each message are not modelled.
- RttFilter: reals instead of 64-bit floats; the back-pressure sample (`set_sndbuf_ms`) is not modelled.
- Transparency.LifeIsGeneration: one generation, so at most 2^24 - 1 frames; what happens beyond is in `EncodedTransparentIff`.
- IdReuse.OrdinaryReuse: an allocation is taken to cost one epoch, the one of its Open; a session that changes its epoch by itself would cost one more.
