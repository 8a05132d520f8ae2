# Starlift voice transport and gameplay rules in Dafny

This project models the deterministic core of the Starlift Unity game:

- **The voice packet layer of the Dissonance/Coherence bridge.**
  `FragmentedPacketSender` splits a voice payload into segments of at most `S` bytes.
  `S` stands for the SDK constant `BYTES_LIST_MAX_LENGTH` and is a positive parameter here.
  Each segment carries a transfer id, its index, the segment count, the sender id and the send time.
  The id counter then advances modulo `uint.MaxValue`.
  `FragmentedPacketQueue` reassembles the segments per sender with a state machine: `Idle`, or `Accumulating(id, chunks)`.
  Completed payloads go into a FIFO queue.
- **The receive handlers.** The server side is `CoherenceCommsNetwork` and the client side is `CoherenceSyncVoice`; their receive code is the same.
  - A map from sender id to queue is filled lazily.
  - Unreliable segments are dropped when their age strictly exceeds a threshold. Time is integer ticks, and the threshold defaults to 3 s, which is 30,000,000 ticks.
  - A drain empties every queue in the dictionary's enumeration order.
- **The part placement editor tool.** This covers the connection-point labels (A…Z, AA…ZZ), the scroll-wheel index wrap, and the resets that keep the index inside the part's connection points.
- **`Health`.** Damage is integer subtraction with `int` wrap-around. A result at or below zero is pinned at zero and kills the entity.
- **`Modifiers`.** Each slot's current value is clamped into a configured range, and configuration keys map to slots.

C# fixed-width arithmetic is written out explicitly:

- `(byte)` keeps the low 8 bits (`Types.ToByte`).
- Unchecked `int` subtraction wraps (`Types.Wrap32`).
- `(char)` keeps the low 16 bits (`PartPlacement.ToChar`).
- `uint` addition wraps before the remainder by `uint.MaxValue` (`PacketSender.NextDataId`).

Exceptions the modelled code can throw become `Result.Failure`:

- `new DateTime(sendTime)` for a send time outside the `DateTime` range.
- An array index past the end of the serialised modifier array.
- A preview read at a negative connection-point index, which the `List<T>` indexer refuses with `ArgumentOutOfRangeException`.

The configuration load writes the array in place before it can throw on a `null` value, so it returns an `Outcome`: the array afterwards together with the exception, if any.

A C# dictionary's enumeration order is unspecified, so the drains take it as a parameter `order` that lists each key exactly once.

What the proofs establish beyond single calls:

- **Round trip.** Send a payload of 1 to 255·S bytes and deliver its commands in order. The queue receives exactly that payload, and an idle queue is idle again afterwards, also when each fragment arrives at its own time within the receiver's threshold of the send (`RoundTrip.SendThenReassemble`, `VoiceEndpoint.EndToEnd`, `VoiceEndpoint.EndToEndEach`).
- **Capacity limit.** A payload needing 256 slices announces `total == (byte)256 == 0`, so it is never delivered (`RoundTrip.TooManySlicesIsLost`). One needing 257 slices is worse: it announces `total == (byte)257 == 1`, so at an idle queue its first fragment alone completes and hands over the first `S` bytes as a whole payload, and its last fragment, numbered `(byte)256 == 0`, alone hands over the remaining bytes as another (`RoundTrip.TooManySlicesTruncates`).
- **Desynchronisation is permanent.** Losing a whole one-fragment transfer is harmless: the queue stays `Idle` and the next payload gets through. Suppose instead a fragment other than the last of a multi-fragment transfer is lost. The next fragment of that transfer is out of position, so the queue drops what it held and records `Accumulating(x, [])`, which is not `Idle`. If instead the last fragment is lost, the queue keeps the earlier chunks until the next transfer's first fragment arrives; its new id then drops them and records the same kind of reset state for that id. From a reset state, the first fragment of each next transfer carries a new id, so it only moves the recorded id and is dropped, and the transfer's other fragments are then out of position (`PacketQueue.ResetAcceptsOnlyFirstOfSameId`, `PacketQueue.HeldChunksAreLastFragments`).
  For a sender whose ids advance by one per call, no later payload of 1 to 255·S bytes ever gets through, however many calls follow: the queue compares an index-0 fragment only with the id of the fragment just before it, and consecutive calls never share an id (`PacketQueue.StuckForever`, `RoundTrip.SenderStuckAfterDesync`, `RoundTrip.SenderStuckOnLostId`). The only way out is a payload of more than 256 slices, whose fragment 256 carries index `(byte)256 == 0` and the same id as the fragment before it.
  The comment at `FragmentedPacketQueue.cs:33` says "now we're on new data". The model follows the code.
- **Drain.** The drain hands each sender's completed payloads over exactly once, oldest first, and leaves every queue empty with its assembly state intact (`VoiceEndpoint.TryGetServerData`).

Files:

- `types.dfy`: integer ranges, casts, `Result`, `Segment`.
- `packet_queue.dfy`: `FragmentedPacketQueue`.
- `packet_sender.dfy`: `FragmentedPacketSender`.
- `round_trip.dfy`: sender and queue together.
- `voice_endpoint.dfy`: the two components' handlers.
- `part_placement.dfy`, `health.dfy`, `modifiers.dfy`: the gameplay rules.

## Model

| member | source | states |
|---|---|---|
| `Types.ToByte` | Assets/Dissonance/Integrations/Coherence/FragmentedPacketSender.cs:36-37 | the `(byte)` cast of index and total keeps values below 256 and reduces larger ones modulo 256 |
| `Types.Wrap32` | Assets/Scripts/Health.cs:32 | unchecked `int` arithmetic: in-range results are exact, others differ by a multiple of 2^32 |
| `PartPlacement.ToChar` | Assets/Scripts/Editor/PartPlacementTool.cs:367-375 | the `(char)` cast keeps values below 65536 and reduces larger ones modulo 65536 |
| `PacketQueue.AddData` | Assets/Dissonance/Integrations/Coherence/FragmentedPacketQueue.cs:21-64 | the completed queue is only ever extended, by at most one payload, exactly when the result is idle. A different id drops the held chunks and the fragment, recording the new id. An out-of-position index, including a nonzero index from idle, drops them and keeps the id. An in-position fragment is held, or completes the transfer with the in-order concatenation |
| `PacketQueue.TryGetData` | Assets/Dissonance/Integrations/Coherence/FragmentedPacketQueue.cs:13-16 | FIFO: none exactly when the queue is empty, otherwise the oldest payload, removed, with the assembly untouched |
| `PacketQueue.FeedKeepsQueued` | Assets/Dissonance/Integrations/Coherence/FragmentedPacketQueue.cs:51-62 | no stream of fragments ever removes or reorders completed payloads |
| `PacketQueue.PrefixAccumulates` | Assets/Dissonance/Integrations/Coherence/FragmentedPacketQueue.cs:23-53 | a strict prefix of a transfer, from idle, enqueues nothing and holds exactly the fragments seen, in order |
| `PacketQueue.TransferCompletes` | Assets/Dissonance/Integrations/Coherence/FragmentedPacketQueue.cs:23-62 | a whole transfer, in order from idle, enqueues exactly the concatenation of its fragments and leaves the queue idle |
| `PacketQueue.ResetAcceptsOnlyFirstOfSameId` | Assets/Dissonance/Integrations/Coherence/FragmentedPacketQueue.cs:29-51 | in the reset state `(x, [])` a fragment is taken in if and only if it carries id `x` and index 0; any other leaves a reset state on its own id and enqueues nothing |
| `PacketQueue.ResetStaysStuck` | Assets/Dissonance/Integrations/Coherence/FragmentedPacketQueue.cs:29-49 | from a reset state, a stream whose index-0 fragments never repeat the id before them enqueues nothing and stays reset on the last id seen |
| `PacketQueue.TransferLostWhenStuck` | Assets/Dissonance/Integrations/Coherence/FragmentedPacketQueue.cs:29-49 | a whole transfer with a new id, arriving at a reset queue, is lost entirely and leaves the queue reset on its id |
| `PacketQueue.StuckOverPrefix` | Assets/Dissonance/Integrations/Coherence/FragmentedPacketQueue.cs:29-49 | any number of whole transfers, each with an id different from the one before it (the first from the stuck id), are all lost after a reset |
| `PacketQueue.StuckForever` | Assets/Dissonance/Integrations/Coherence/FragmentedPacketQueue.cs:29-49 | after a reset, all of a sender's later transfers, each with an id different from the one before it, are lost and the queue never returns to idle |
| `PacketQueue.HeldChunksAreLastFragments` | Assets/Dissonance/Integrations/Coherence/FragmentedPacketQueue.cs:40-51 | invariant from a fresh queue: the held chunks are the last fragments received, with the held id and indices 0..k-1 in arrival order |
| `PacketSender.CeilDiv` | Assets/Dissonance/Integrations/Coherence/FragmentedPacketSender.cs:18 | the segment count is the least `r` with `n <= r * S`: zero for an empty payload |
| `PacketSender.NextDataId` | Assets/Dissonance/Integrations/Coherence/FragmentedPacketSender.cs:46 | the id stays below `uint.MaxValue`, advances by one, and goes from 4294967294 to 0 |
| `PacketSender.NextDataIdChanges` | Assets/Dissonance/Integrations/Coherence/FragmentedPacketSender.cs:46 | every call, even one with an empty payload, changes the id |
| `PacketSender.IdAfterIsModular` | Assets/Dissonance/Integrations/Coherence/FragmentedPacketSender.cs:46 | after `n` calls from a reachable id, the id is the start plus `n` modulo `uint.MaxValue` |
| `PacketSender.IdsDistinct` | Assets/Dissonance/Integrations/Coherence/FragmentedPacketSender.cs:46 | fewer than `uint.MaxValue` consecutive calls never reuse an id |
| `PacketSender.SlicesCount` | Assets/Dissonance/Integrations/Coherence/FragmentedPacketSender.cs:18-23 | the loop makes `ceil(count / S)` slices, the same number it announces as the total |
| `PacketSender.SlicesConcat` | Assets/Dissonance/Integrations/Coherence/FragmentedPacketSender.cs:21-44 | the slices concatenated in order reproduce the payload exactly |
| `PacketSender.SlicesSizes` | Assets/Dissonance/Integrations/Coherence/FragmentedPacketSender.cs:23-24 | every slice holds 1 to `S` bytes and every slice but the last holds exactly `S` |
| `RoundTrip.SlicesFrom` | Assets/Dissonance/Integrations/Coherence/FragmentedPacketSender.cs:21-25 | the slices from the `k`-th on are the slices of the payload from byte `k·S` on |
| `PacketSender.EmitProperties` | Assets/Dissonance/Integrations/Coherence/FragmentedPacketSender.cs:14-47 | one call emits `ceil(count / S)` commands. Their slices concatenate to the payload, all but the last are full, and the k-th carries index `(byte)k`. All carry the same id, total, sender and time, and all go on the channel `reliable` selects. The id then advances |
| `PacketSender.SendDissonanceData` | Assets/Dissonance/Integrations/Coherence/FragmentedPacketSender.cs:14-47 | the cursor loop emits exactly the reference commands, with every property above |
| `RoundTrip.SegmentsFormTransfer` | Assets/Dissonance/Integrations/Coherence/FragmentedPacketSender.cs:18-44 | a payload of 1 to 255·S bytes becomes one well-numbered transfer whose fragments concatenate to the payload |
| `RoundTrip.SendThenReassemble` | Assets/Dissonance/Integrations/Coherence/FragmentedPacketQueue.cs:23-62 | round trip: one call's commands, in order at an idle queue, enqueue exactly the original payload and leave the queue idle |
| `RoundTrip.EmptyPayloadSendsNothing` | Assets/Dissonance/Integrations/Coherence/FragmentedPacketSender.cs:18-46 | an empty payload sends no command and leaves the receiver untouched, but still advances the id |
| `RoundTrip.ZeroTotalNeverCompletes` | Assets/Dissonance/Integrations/Coherence/FragmentedPacketQueue.cs:51-53 | fragments announcing a total of 0 never complete anything |
| `RoundTrip.TooManySlicesIsLost` | Assets/Dissonance/Integrations/Coherence/FragmentedPacketSender.cs:18-37 | a payload needing exactly 256 slices is announced with total `(byte)256 == 0` and is never delivered |
| `RoundTrip.TooManySlicesTruncates` | Assets/Dissonance/Integrations/Coherence/FragmentedPacketSender.cs:18-37 | a payload needing 257 slices announces total `(byte)257 == 1` and numbers its last fragment `(byte)256 == 0`; at an idle queue each of those two fragments alone is delivered as a whole payload: the first `S` bytes, and the bytes from `256·S` on |
| `RoundTrip.SenderStuckAfterDesync` | Assets/Dissonance/Integrations/Coherence/FragmentedPacketQueue.cs:29-49 | after a reset on an id other than the sender's next one, none of the sender's following payloads of 1 to 255·S bytes gets through, however many calls follow |
| `RoundTrip.SenderStuckOnLostId` | Assets/Dissonance/Integrations/Coherence/FragmentedPacketQueue.cs:29-49 | after a reset on the id of the transfer that lost a fragment, the sender carries on from the next id and none of its following payloads gets through |
| `RoundTrip.TenBytesInFours` | Assets/Dissonance/Integrations/Coherence/FragmentedPacketSender.cs:14-47 | ten bytes with `S = 4` become slices of 4, 4 and 2 bytes announcing total 3. All three reassemble to the payload; the first two alone enqueue nothing |
| `RoundTrip.NextTransferAfterAbandoned` | Assets/Dissonance/Integrations/Coherence/FragmentedPacketQueue.cs:29-49 | after three fragments of an abandoned transfer, the next transfer's first fragment is dropped, and so is its second |
| `VoiceEndpoint.NewEndpoint` | Assets/Dissonance/Integrations/Coherence/CoherenceCommsNetwork.cs:22-31 | a new component has no queues, id 0 and a 3-second (30,000,000-tick) threshold |
| `VoiceEndpoint.Route` | Assets/Dissonance/Integrations/Coherence/CoherenceCommsNetwork.cs:59-66 | the first segment from an unseen sender creates a fresh idle queue, later ones reuse it, and no other sender's queue changes |
| `VoiceEndpoint.ReceiveReliable` | Assets/Dissonance/Integrations/Coherence/CoherenceCommsNetwork.cs:52-67 | whatever its send time, the segment is added with `AddData` to its sender's queue, or to a fresh queue created for an unseen sender; other senders and the sender state are untouched |
| `VoiceEndpoint.ReceiveUnreliable` | Assets/Dissonance/Integrations/Coherence/CoherenceCommsNetwork.cs:70-91 | throws exactly for a send time outside the `DateTime` range. A segment whose age `now - sendTime` strictly exceeds the threshold (`IsStale`, lines 77-81) changes nothing; any other goes where a reliable one would |
| `VoiceEndpoint.ReliableIgnoresSendTime` | Assets/Dissonance/Integrations/Coherence/CoherenceSyncVoice.cs:61-76 | a reliable segment's send time has no effect on the result |
| `VoiceEndpoint.StalenessBoundary` | Assets/Dissonance/Integrations/Coherence/CoherenceSyncVoice.cs:89-93 | an age exactly at the threshold, or a negative age, is admitted; one tick older is dropped |
| `VoiceEndpoint.SendReliable` | Assets/Dissonance/Integrations/Coherence/CoherenceCommsNetwork.cs:41-44 | the payload goes out as `ceil(|data| / S)` segments whose data concatenate back to it, each ordered to the reliable handler with the current id, its `(byte)` position, the `(byte)` count, the sender id and the send time; the shared counter advances |
| `VoiceEndpoint.SendUnreliable` | Assets/Dissonance/Integrations/Coherence/CoherenceCommsNetwork.cs:46-49 | the payload goes out as `ceil(|data| / S)` segments whose data concatenate back to it, each unordered to the unreliable handler with the current id, its `(byte)` position, the `(byte)` count, the sender id and the send time; the shared counter advances |
| `VoiceEndpoint.SharedCounter` | Assets/Dissonance/Integrations/Coherence/CoherenceSyncVoice.cs:17-18 | both send paths draw from one counter: the second call uses the id after the first's, whichever paths are used |
| `VoiceEndpoint.EmitAdmitted` | Assets/Dissonance/Integrations/Coherence/CoherenceSyncVoice.cs:42-103 | a non-empty payload sent at `now` yields at least one command; all carry the sender id and share one handler, and none sent unreliably is outside the `DateTime` range or stale when it arrives at any time from `now` to `now` plus the threshold |
| `VoiceEndpoint.DeliverStep` | Assets/Dissonance/Integrations/Coherence/CoherenceSyncVoice.cs:61-103 | an admitted segment, reliable or unreliable, acts on its sender's single queue as `AddData` does and on nothing else |
| `VoiceEndpoint.DeliverAllFeeds` | Assets/Dissonance/Integrations/Coherence/CoherenceSyncVoice.cs:61-103 | a run of admitted segments from one sender acts on that sender's queue as feeding them in order does |
| `VoiceEndpoint.DeliverAllFromAbsent` | Assets/Dissonance/Integrations/Coherence/CoherenceSyncVoice.cs:95-100 | delivering to an endpoint with no queue for the sender is the same as delivering to one with a fresh queue |
| `VoiceEndpoint.DeliverFirstFromAbsent` | Assets/Dissonance/Integrations/Coherence/CoherenceCommsNetwork.cs:59-64 | the queue created lazily for an unseen sender behaves exactly like a fresh queue installed beforehand |
| `VoiceEndpoint.EndToEnd` | Assets/Dissonance/Integrations/Coherence/CoherenceCommsNetwork.cs:41-91 | a payload of 1 to 255·S bytes, sent reliably or unreliably and delivered in order, all at one instant `later` within the receiver's threshold of the send, lands as one payload at the back of the receiver's queue for the sender. That queue is then idle, and every other sender's queue is untouched |
| `VoiceEndpoint.DeliverEach` | Assets/Dissonance/Integrations/Coherence/CoherenceSyncVoice.cs:61-103 | delivering each command at its own arrival time never changes the receiver's sender state or threshold |
| `VoiceEndpoint.DeliverEachAgrees` | Assets/Dissonance/Integrations/Coherence/CoherenceSyncVoice.cs:77-103 | when every unreliable command is admitted at its own arrival time and at an instant `t`, delivering each at its own time equals delivering all at `t` |
| `VoiceEndpoint.EndToEndEach` | Assets/Dissonance/Integrations/Coherence/CoherenceCommsNetwork.cs:41-91 | the end-to-end result when each fragment arrives at its own time from the send up to the receiver's threshold after it: the payload lands whole at the back of the sender's queue, which is idle again, and no other queue changes |
| `VoiceEndpoint.DrainIsPerSenderFifo` | Assets/Dissonance/Integrations/Coherence/CoherenceCommsNetwork.cs:95-101 | the drain passes each drained sender's payloads exactly once, oldest first, and nothing from senders it did not drain |
| `VoiceEndpoint.DrainHandsOverAll` | Assets/Dissonance/Integrations/Coherence/CoherenceCommsNetwork.cs:95-101 | over a full enumeration of the dictionary, every sender gets exactly its own queue |
| `VoiceEndpoint.Drained` | Assets/Dissonance/Integrations/Coherence/CoherenceCommsNetwork.cs:97 | after a drain every queue is empty, every assembly state is kept, and no sender is added or removed |
| `VoiceEndpoint.DrainQueue` | Assets/Dissonance/Integrations/Coherence/CoherenceCommsNetwork.cs:97-100 | the `TryGetData` loop hands over the queue's payloads in order, tagged with the sender, and leaves it empty |
| `VoiceEndpoint.TryGetServerData` | Assets/Dissonance/Integrations/Coherence/CoherenceCommsNetwork.cs:93-102 | every queue, in enumeration order, is emptied; each sender's payloads are handed over once, FIFO, tagged with that sender |
| `VoiceEndpoint.TryGetClientData` | Assets/Dissonance/Integrations/Coherence/CoherenceSyncVoice.cs:108-117 | the same drain with untagged payloads; the callback's return value plays no part |
| `PartPlacement.Label` | Assets/Scripts/Editor/PartPlacementTool.cs:363-376 | one code unit below index 26 and two from 26 on; all capital letters for indices 0 to 701 |
| `PartPlacement.LabelIndex` | Assets/Scripts/Editor/PartPlacementTool.cs:363-376 | reading a label back gives an index below 702 |
| `PartPlacement.LabelRoundTrip` | Assets/Scripts/Editor/PartPlacementTool.cs:363-376 | every index from 0 to 701 reads back from its label |
| `PartPlacement.LabelIndexRoundTrip` | Assets/Scripts/Editor/PartPlacementTool.cs:363-376 | every one- or two-letter label is the label of the index it reads as |
| `PartPlacement.LabelsDistinct` | Assets/Scripts/Editor/PartPlacementTool.cs:365-375 | labels are pairwise distinct over indices 0 to 701 |
| `PartPlacement.LabelExamples` | Assets/Scripts/Editor/PartPlacementTool.cs:365-375 | 0, 25, 26, 51, 52 and 701 are labelled A, Z, AA, AZ, BA and ZZ |
| `PartPlacement.LabelPastZZ` | Assets/Scripts/Editor/PartPlacementTool.cs:370-375 | from index 702 the first character runs past 'Z': 702 is labelled "[A" |
| `PartPlacement.ScrollIndex` | Assets/Scripts/Editor/PartPlacementTool.cs:84-101 | with `n > 0` connection points the index lies in `[0, n)` after any scroll, whatever it was before; a zero delta keeps an in-range index |
| `PartPlacement.ScrollIsCyclic` | Assets/Scripts/Editor/PartPlacementTool.cs:84-101 | on an in-range index a positive delta adds one and a negative delta subtracts one, modulo `n` |
| `PartPlacement.ScrollBackUndoes` | Assets/Scripts/Editor/PartPlacementTool.cs:84-101 | scrolling back undoes scrolling forward, and the other way round |
| `PartPlacement.ScrollWraps` | Assets/Scripts/Editor/PartPlacementTool.cs:93-101 | scrolling down from `n - 1` gives 0 and scrolling up from 0 gives `n - 1` |
| `PartPlacement.ScrollOverflow` | Assets/Scripts/Editor/PartPlacementTool.cs:86-96 | `int.MaxValue + 1` wraps negative and lands on the last index |
| `PartPlacement.Scroll` | Assets/Scripts/Editor/PartPlacementTool.cs:78-105 | without part data, or with no connection points, the tool is unchanged; otherwise the index lands in range |
| `PartPlacement.SelectPart` | Assets/Scripts/Editor/PartPlacementTool.cs:126-169 | the selection is compared with the cached prefab as Unity compares objects: by instance id when both are present, with a destroyed object equal to a missing one. The same object, or an empty selection after the prefab was destroyed, changes nothing; a different live object with a part resets the index to 0. Any other selection clears the cache but keeps the index |
| `PartPlacement.SelectionKeepsCache` | Assets/Scripts/Editor/PartPlacementTool.cs:78-169 | with object 7 selected (3 points, index 2), removing its part or changing its count keeps the cache and index; selecting object 8 with 5 points resets the index to 0. Deselecting clears the cache, but deleting object 7 keeps it, so a scroll still moves the index; a destroyed object 9 is not the destroyed object 7 and clears the cache |
| `PartPlacement.Preview` | Assets/Scripts/Editor/PartPlacementTool.cs:247-255 | when shown with at least one point, an index at or past the count is reset to 0 and any other index is read unchanged; the read index is inside the list and is kept. It throws `ArgumentOutOfRange` exactly for a negative index; when not shown nothing changes |
| `PartPlacement.StepKeepsValid` | Assets/Scripts/Editor/PartPlacementTool.cs:78-105 | every event, as dispatched by `Step` to selection, scroll or preview, keeps the index non-negative |
| `PartPlacement.RunKeepsValid` | Assets/Scripts/Editor/PartPlacementTool.cs:21 | from the initial index 0, whatever the events, the index stays non-negative and the preview never throws |
| `Health.Start` | Assets/Scripts/Health.cs:13-17 | after `Start`, health equals `maxHealth` |
| `Health.OnDamageEvent` | Assets/Scripts/Health.cs:30-38 | health is never negative afterwards, and `Kill` is counted at most once, only with an entity, and only when health ends at 0 |
| `Health.DamageWithoutOverflow` | Assets/Scripts/Health.cs:32-37 | without overflow, a positive result is kept exactly and kills nobody. A result at or below 0 leaves 0 and kills once when an entity is present |
| `Health.NegativeDamageHeals` | Assets/Scripts/Health.cs:32 | a negative amount raises health with no cap at `maxHealth` |
| `Health.DeadIsKilledAgain` | Assets/Scripts/Health.cs:32-37 | at health 0 every further non-negative damage keeps 0 and kills again |
| `Health.DamageWraps` | Assets/Scripts/Health.cs:32-36 | healing by one at `int.MaxValue` wraps to a kill; a large damage on a negative health wraps to a large health |
| `Health.DamageAll` | Assets/Scripts/Health.cs:30-38 | over a run of events the kill count never decreases and health ends non-negative |
| `Health.DamageAccumulates` | Assets/Scripts/Health.cs:32-37 | non-negative damages from non-negative health leave `max(0, health - total)`, with at least one kill once the total reaches the starting health |
| `Modifiers.TypeOf` | Assets/Scripts/Modifiers.cs:47-50 | a key maps to a type only if it is that type's key |
| `Modifiers.KeysRoundTrip` | Assets/Scripts/Modifiers.cs:47-55 | the key-to-type and type-to-key maps are inverse |
| `Modifiers.Clamp` | Assets/Scripts/Modifiers.cs:126 | the result lies in `[min, max]` when `min <= max`, is the value itself when already inside, and is always the value, `min` or `max` |
| `Modifiers.ResetValue` | Assets/Scripts/Modifiers.cs:111 | the initial value clamped into the range lies inside it whenever the range is not inverted |
| `Modifiers.Set` | Assets/Scripts/Modifiers.cs:123-127 | only the slot's current value changes, to the clamped value; throws exactly when the array has no slot for the type |
| `Modifiers.Get` | Assets/Scripts/Modifiers.cs:129-132 | the slot's current value; throws exactly when the array has no slot for the type |
| `Modifiers.GetAfterSet` | Assets/Scripts/Modifiers.cs:123-132 | `Get` after `Set` lies in `[min, max]`, and equals the value written when that was already in range |
| `Modifiers.SetIdempotent` | Assets/Scripts/Modifiers.cs:126 | setting the same value twice is setting it once |
| `Modifiers.ResetModifier` | Assets/Scripts/Modifiers.cs:109-113 | only the slot's current value changes, to its initial value clamped into its range |
| `Modifiers.ResetAll` | Assets/Scripts/Modifiers.cs:115-121 | every slot's current value becomes its clamped initial value and nothing else changes |
| `Modifiers.ResetModifierAgreesWithResetAll` | Assets/Scripts/Modifiers.cs:109-121 | resetting one slot agrees with resetting all on that slot |
| `Modifiers.ApplyConfig` | Assets/Scripts/Modifiers.cs:85-99 | applying configuration entries never touches current values or the array length; it can only throw an index or `null` exception |
| `Modifiers.UnknownKeysIgnored` | Assets/Scripts/Modifiers.cs:87-98 | entries whose keys name no type leave the array unchanged |
| `Modifiers.ThrowStops` | Assets/Scripts/Modifiers.cs:85-99 | once an entry throws, the later entries are never applied |
| `Modifiers.NullEntryThrows` | Assets/Scripts/Modifiers.cs:89-91 | a `null` value for a known key throws after the slot's name is written and before its range is; without the slot, the index throws first |
| `Modifiers.LastEntryWins` | Assets/Scripts/Modifiers.cs:87-94 | the last entry for a key sets the slot's name, range and initial value (the minimum) |
| `Modifiers.ApplyConfigSucceeds` | Assets/Scripts/Modifiers.cs:85-99 | the load runs to the end if and only if no known key has a `null` value and the array has every slot, unless no key is known |
| `Modifiers.LoadModifiersConfig` | Assets/Scripts/Modifiers.cs:68-107 | an empty name, a missing file or a `null` parse change nothing; a `null` dictionary throws at the loop; otherwise the entries are applied |
| `Modifiers.Start` | Assets/Scripts/Modifiers.cs:57-61 | a throwing load skips `ResetAll`; otherwise every current value afterwards is its slot's initial value clamped into its range |
| `Modifiers.ConfigThenResetAll` | Assets/Scripts/Modifiers.cs:57-61 | after `Start` with a configured key and no `null` value, the slot's current value is the configured minimum, or the maximum when the range is inverted |
| `Modifiers.StartExamples` | Assets/Scripts/Modifiers.cs:45-121 | a fresh component configured with an oxygen range of `[0.5, 2]` starts at 0.5; a `null` oxygen entry throws after naming the slot and skips the reset |

## Left out

- The Coherence and Dissonance lifecycle is not modelled: `RestartComms`, `OnEnable`, `Update`, authority changes and disconnects, plus `CoherenceServer`, `CoherenceClient`, `CoherencePlayer`, the demo scenes and the editor inspectors. These are callbacks into SDKs whose code is not part of this model.
- The transport is a returned list: `SendOrderedCommand` and `SendCommand` become `Command` records naming the channel and the receiving handler. `MessageTarget.AuthorityOnly` and the conversions between `ClientID` and `uint` are taken as identity.
- A handler that throws, from `new DateTime(sendTime)`, is taken to leave the endpoint unchanged. That is where the throw happens in the source; the SDK's handling of the exception is not modelled.
- `DateTime.UtcNow` is an integer parameter `now` in ticks. The threshold is integer ticks, so the rounding of `TimeSpan.FromSeconds` on a `float` is not modelled, nor its exception for a NaN or out-of-range `staleAudioTimeSeconds`: the threshold is taken as already computed.
- Logging is not modelled: the `Debug.Log`, `LogWarning` and `LogError` calls at FragmentedPacketQueue.cs:31 and 42 and Modifiers.cs:72, 97, 100 and 105 have no effect on state.
- `PacketSender.CeilDiv`: the source computes the total as `Mathf.Ceil` of a `float` quotient. The model uses the exact integer ceiling, which agrees for payloads below 2^24 bytes.
- The drains' callbacks are modelled by the sequence of values they receive. Side effects and re-entrancy of a callback are not modelled.
- `RoundTrip.SenderStuckAfterDesync`: stated for payloads of 1 to 255·S bytes. A payload of more than 256 slices has a fragment 256 numbered `(byte)256 == 0` with the same id as the fragment before it, which the reset queue takes in; `RoundTrip.TooManySlicesTruncates` shows what such payloads do.
- `VoiceEndpoint.EndToEnd`: stated for a receiver whose queue for the sender is absent or idle, and for delivery in order with every fragment arriving at one instant within the receiver's threshold of the send; `VoiceEndpoint.EndToEndEach` gives each fragment its own arrival time in that window. A late unreliable fragment is dropped and the transfer then desynchronises as described above.
- The part placement geometry is not modelled: frustum test, screen distances, the mouse threshold, the aligned transform and the wireframe. Whether a preview is drawn is the parameter `showing`. `PlacePartInstance`, the menu toggle and logging are left out too.
- `PartPlacement.Label` returns UTF-16 code units rather than a `string`.
- `PartPlacement.LabelPastZZ`: stated up to the 16-bit wrap of the first code unit. Larger indices cycle back into letters and are not characterised.
- `PartPlacement.ScrollIndex` takes the scroll delta as a `real`. A NaN delta fails both comparisons in the source, so it behaves like a zero delta.
- Health's subscription to `DamageEventHandler.OnDamaged` and its error log are not modelled; `OnDamageEvent` is modelled as called directly. `Entity.Kill` is counted rather than performed, so the `Destroy` it triggers and any event arriving after it are not modelled.
- `Health.DamageAccumulates`: stated for non-negative damage from non-negative health, where no wrap-around occurs. The wrapping cases are pinned by `Health.DamageWraps`.
- `Modifiers` values are exact reals. `float` rounding, NaN and infinities are not modelled.
- Reading and parsing the JSON file is out of scope: the configuration arrives as the parsed result, with `null` values as `None` and the entries in the dictionary's enumeration order.
- `OnValidate` only calls `LoadModifiersConfig`, so it has no member of its own. The Unity messages that would log an exception thrown by `Start` are not modelled.
- The power simulation, physics, movement, rendering, oxygen and HUD glue and `Singleton` are outside the modelled core.
