# Universal Bridge core: a verified model

The bridge connects a hardware sequencer and a digital audio workstation (DAW). This project models the stateful
part of its core in Dafny 4.11 and proves what that part is relied on for:

- **Real-time queue.** A lock-free single-producer/single-consumer queue with free-running 64-bit counters. It is
  modelled twice: as an interleaving of atomic steps with stale snapshots (`SpscInterleaving`, `SpscWraparound`,
  `SpscRefusals`), and as the in-place class one owner uses (`RealtimeBuffer`).
- **MIDI mediation.** Direction, authority, echo and rate gates in front of two queues, with a transport state
  (`MidiMessages`, `MidiMediation`, `MidiRateBound`, `MidiRateSkew`, `MidiEchoDepth`, `MidiRouting` on values and
  runs; `MidiMediator` is the class). Transport semantics follow the MIDI 1.0 Detailed Specification, "System Common
  Messages" and "System Real Time Messages".
- **Session store.** A three-file snapshot protocol that survives interrupted saves (`SnapshotProtocol`,
  `SessionStore`), its JSON payload and envelope (`Json`, `JsonReading`, `Doubles` for IEEE 754 binary64 patterns,
  `SessionCodec`, `SessionDocuments`, `Envelopes`, `SessionFormat`) and its checksum (`Fnv1a`, section 2 of draft-eastlake-fnv).
  `ReferenceLibrary` shows that what the store assumes of its JSON library can be met.
- **Parameter synchronisation.** Range conversion and stepped relays in exact reals (`Reals`, `ParameterRelay`),
  planning of one relayed write (`RelayPlanning`), the write-intent life cycle and the two-sided mirror (`StateSync`).
- **Merging.** Conflict detection, automatic changes and resolution of two branches (`SessionMerge`,
  `MergeCorrectness`, `MergeReadiness`, `MergeResolution`).
- **Local service.** Length-prefixed frames over partial reads and writes (`FrameCodec`), and durable counters across
  crashes (`ServiceAccounting`).
- **Import budget.** The recursive size budget of an imported project (`JsonBudget`, `JsonPositions`; `Bytes` for lengths
  in UTF-8, section 3 of RFC 3629).

Objects that the source updates in place are classes here; each method's contract gives the new state as a function of
the old one, and what the source promises is proved about that function, mostly over whole runs. Fields described as
history (`pushed`, `popped`, `log`, `saved`, `replies`, `runs`) are not kept by the program.

Several promises turn out to hold only under a condition, which is proved to be exact:

- The queue is FIFO in every run exactly when its capacity divides 2^64 (`SafeIffCapacityDividesModulus`); every
  capacity used in the repository is a power of two.
- A source gets fewer than twice its maximum through in any interval of one rate window (the maximum itself, if the
  window is a single instant), in all runs whose timestamps lag by at most so much, exactly when they do not lag at
  all or the policy lets nothing of the source through (`RateBoundExactly`); once they may lag by one, three full
  windows fit into one. Without lag the bound is reached (`RateBoundIsReached`).
- A packet that the other side returns within the echo window is certainly suppressed exactly while at most 63 others
  have been forwarded since, or as long as one side cannot get anything through (`SuppressionDepthExactly`).
- The automatic merge of a key that is not in conflict gives the value both branches agree on exactly when hardware
  writes the key too, or the DAW branch does not come back to an earlier value of its own after writing a new one
  (`MergedExactly`). Swapping the branches keeps the merged state exactly when at each such key both branches write, or
  neither comes back to an earlier value of its own (`MergeIsSymmetricExactly`).
- From some point on, whatever new keys are resolved after it, a plan is ready exactly when everything is resolved,
  if and only if the resolutions up to that point repeat as many keys as the conflicts do; with one conflict per key,
  if and only if no key has been resolved twice (`CountingIsRightExactly`). Resolving one key often enough makes the
  plan ready with every other key open (`RepeatsMakeReadyTooEarly`).
- A session comes back from its snapshot as it was exactly when it is within the store's bounds and all its numbers
  are finite (`SessionRoundTrip`). One with an infinite or NaN parameter value is refused when it is saved; one with
  an infinite or NaN event value is saved, the save returns true, and what is loaded is the session without that
  value (`SavableExactly`, `SaveGivesBackExactly`). What the store promises of saved sessions, it promises of what is
  kept of them in this sense.

Two more facts a caller may not expect. The next save can make loading go back to an older snapshot, exactly when
there is no current file and the pending one opens (`GoesBackExactly`); a run in which that happens is
`LoadGoesBackInARun`. And a concurrent `size_approx` reports a full queue once the consumer has passed its first
snapshot, even if the queue is empty (`SizeApproxBetweenLoads`, `EmptyReportedAsFull`).

`dafny verify dfyconfig.toml` checks the whole project.

## Model

| member | source | states |
|---|---|---|
| SpscInterleaving.StepKeepsInv | include/ubridge/core/realtime_buffer.hpp:19-44 | every atomic step of either thread, with its snapshot stale, keeps occupancy, the slot contents and the logs consistent (unbounded counters) |
| SpscInterleaving.RunRefines | include/ubridge/core/realtime_buffer.hpp:20-24 | every run with counters reduced modulo m is the projection of the same run with unbounded counters, for the full test, the empty test and the slot index |
| SpscInterleaving.SafeUnderEveryInterleaving | include/ubridge/core/realtime_buffer.hpp:19-44 | under every interleaving popped values are a prefix of pushed values, occupancy stays within capacity, and no slot is touched from both sides at once |
| SpscWraparound.WrapBreaksFifo | include/ubridge/core/realtime_buffer.hpp:20-24 | a capacity that does not divide the modulus has a run that overwrites an unread value and pops out of order |
| SpscWraparound.SafeIffCapacityDividesModulus | include/ubridge/core/realtime_buffer.hpp:14-24 | for 1 < capacity < modulus, safety in every run holds exactly when the capacity divides the modulus |
| SpscRefusals.PushRefusedExactlyWhenFull | include/ubridge/core/realtime_buffer.hpp:19-26 | under every interleaving a push is refused exactly if the queue was full when it loaded the read counter |
| SpscRefusals.PopRefusedExactlyWhenEmpty | include/ubridge/core/realtime_buffer.hpp:37-44 | under every interleaving a pop is refused exactly if the queue was empty when it loaded the write counter |
| SpscWraparound.SizeApproxBetweenLoads | include/ubridge/core/realtime_buffer.hpp:55-60 | a third thread's size, with the queue running on between its two loads, for every distance by which the consumer has passed the first load: what was pushed before the first load and not popped before the second, then the full capacity, then shrinking as the counters come round; and when it is a lower bound on the occupancy |
| SpscWraparound.EmptyReportedAsFull | include/ubridge/core/realtime_buffer.hpp:55-60 | a push and a pop between the two loads make an empty queue look full |
| RealtimeBuffer.SpscRingBuffer.constructor | include/ubridge/core/realtime_buffer.hpp:14-17 | an empty queue of the given capacity |
| RealtimeBuffer.SpscRingBuffer.TryPush | include/ubridge/core/realtime_buffer.hpp:19-26 | accepts exactly when there is room, and then appends the value |
| RealtimeBuffer.SpscRingBuffer.TryPop | include/ubridge/core/realtime_buffer.hpp:37-44 | succeeds exactly when not empty, and then removes and returns the oldest value; otherwise the caller keeps the value it had |
| RealtimeBuffer.SpscRingBuffer.TryPushAll | include/ubridge/core/realtime_buffer.hpp:28-35 | accepts the longest prefix that fits, in order |
| RealtimeBuffer.SpscRingBuffer.TryPopAll | include/ubridge/core/realtime_buffer.hpp:46-53 | fills the front of the span with the oldest values and leaves the rest of it alone |
| RealtimeBuffer.SpscRingBuffer.SizeApprox | include/ubridge/core/realtime_buffer.hpp:55-60 | without concurrency the size is exact |
| RealtimeBuffer.SpscRingBuffer.Reset | include/ubridge/core/realtime_buffer.hpp:65-69 | empties the queue |
| MidiMessages.ValidPacketIsMidi | src/core/midi_mediation.cpp:30-42 | a packet is valid exactly when its status is a short message of MIDI 1.0 carried here, with exactly its data bytes, each below 0x80 |
| MidiMessages.SameMessageIsSameBytes | src/core/midi_mediation.cpp:16-22 | two packets are the same message exactly when they are equally long and agree in every byte that counts |
| MidiMediation.RunObeysPolicy | src/core/midi_mediation.cpp:58-81 | over every run under one policy everything forwarded is a valid message, goes a permitted way to the other side, and has the clock or transport authority it needs |
| MidiMediation.RunConserves | src/core/midi_mediation.cpp:58-97 | over every run of routing, popping and policy changes both queues hold what the log sent there, at most 1024 at a time; transport is the replay of the log, both authorities match the policy, song position stays below 16384 |
| MidiMediation.HandedThenQueuedIsTheLog | src/core/midi_mediation.cpp:74-85 | for each side, the packets that its pops handed out along the run, followed by those still queued, are the forwarded log for that side, in order |
| MidiMediation.ReplayCountsClocks | src/core/midi_mediation.cpp:137-143 | the pulse count is the number of Timing Clocks forwarded, as a 64-bit word |
| MidiMediation.ReplayRunState | src/core/midi_mediation.cpp:144-149 | the run state is that of the last Start, Continue or Stop forwarded |
| MidiMediation.ReplaySongPosition | src/core/midi_mediation.cpp:150-152 | the song position is that of the last Song Position Pointer forwarded, low seven bits first |
| MidiMediation.ReplayLastClock | src/core/midi_mediation.cpp:139-143 | the clock timestamp is that of the last Timing Clock forwarded, or 0 before any |
| MidiMediation.ReplayLastTransport | src/core/midi_mediation.cpp:144-157 | the transport timestamp is that of the last Start, Continue, Stop or Song Position Pointer forwarded, or 0 before any |
| MidiMediation.ReturnedPacketIsSuppressed | src/core/midi_mediation.cpp:110-116 | a packet returned by its target within the echo window, with at most 63 forwards since, is never forwarded and changes nothing |
| MidiEchoDepth.SuppressionDepthExactly | src/core/midi_mediation.cpp:110-135 | over all runs under a policy, a return with n forwards since is never forwarded again exactly when n is at most 63 or one side cannot get anything through; with 64 forwards since there is a run in which the returned packet is forwarded again |
| MidiMediation.RunIsEchoFree | src/core/midi_mediation.cpp:71-79 | over any run under one policy no forwarded packet is the return of one of the 64 forwards before it |
| MidiRateBound.GrantKeepsAccount | src/core/midi_mediation.cpp:118-130 | every tumbling window grants between 1 and the maximum number of messages, within one window length of its start, and windows start at least one length apart |
| MidiRateBound.RefusedExactlyWhenFull | src/core/midi_mediation.cpp:118-130 | with times that do not go back, a message is refused exactly when its tumbling window already holds the maximum |
| MidiRateBound.TwoWindowsAtMost | src/core/midi_mediation.cpp:118-130 | an interval of one window length, wherever placed, contains fewer than twice the maximum of granted messages (at most the maximum, if it is a single instant): it meets at most two windows, and only one from its start |
| MidiRateBound.RateBound | src/core/midi_mediation.cpp:71-80 | over any run from fresh windows, under one policy and with times that do not go back, a source forwards fewer than twice the maximum within any window length, and at most the maximum within a window of a single instant |
| MidiRateSkew.RateBoundExactly | src/core/midi_mediation.cpp:71-80 | for every policy, source and lag: the bound holds in all runs whose timestamps lag an earlier one by at most that much exactly when the lag is zero or the policy lets nothing of the source through |
| MidiRateSkew.RateBoundIsReached | src/core/midi_mediation.cpp:118-130 | without lag some run of the mediator reaches the bound, for every policy that lets something of the source through |
| MidiRateSkew.QuietSourceGetsThrough | src/core/midi_mediation.cpp:58-81 | after a quiet window length, or at the start, a permitted packet that is no echo is forwarded whenever its queue has room |
| MidiRouting.RouteDecidedByHistory | src/core/midi_mediation.cpp:58-81 | after any run under one policy with times that do not go back, the decision on the next packet is a function of what has happened: its shape, the permitted way, its authority, a repetition among the last 64 forwards, a full tumbling window, 1024 packets waiting, in this order; the log grows exactly if it is forwarded |
| MidiRouting.PolicyChangeKeeps | src/core/midi_mediation.cpp:91-97 | a change of policy keeps the log and both queues, and brings its two authorities |
| MidiRouting.PolicyChangeReopensBudgets | src/core/midi_mediation.cpp:95-96 | after a change of policy a permitted packet that is no echo gets through, whatever had been used up, and the new rate bound holds from there on |
| MidiMediator.MidiMediator.constructor | src/core/midi_mediation.cpp:53-56 | a fresh mediator under the given policy |
| MidiMediator.MidiMediator.CheckEcho | src/core/midi_mediation.cpp:110-116 | scanning the 64-entry ring is searching the last 64 entries of the forwarded log |
| MidiMediator.MidiMediator.ConsumeRateBudget | src/core/midi_mediation.cpp:118-130 | the in-place window update is the tumbling-window step, for the source's window only |
| MidiMediator.MidiMediator.Offer | src/core/midi_mediation.cpp:74-77 | the packet goes to its target's queue exactly when fewer than 1024 wait there |
| MidiMediator.MidiMediator.RememberForward | src/core/midi_mediation.cpp:132-135 | the ring still holds the last min(64, n) entries of the log after one more forward |
| MidiMediator.MidiMediator.Announce | src/core/midi_mediation.cpp:137-158 | the transport update is the step that the replay of the log folds: its five fields are those of `ReplayCountsClocks`, `ReplayRunState`, `ReplaySongPosition`, `ReplayLastClock` and `ReplayLastTransport` |
| MidiMediator.MidiMediator.Admit | src/core/midi_mediation.cpp:72-80 | budget, queue, ring and transport in place are those of the admission function; a full queue still costs budget |
| MidiMediator.MidiMediator.Route | src/core/midi_mediation.cpp:58-81 | decision and whole new state of the in-place mediator are those of the routing function on its value, and conservation is kept |
| MidiMediator.MidiMediator.PopForHardware | src/core/midi_mediation.cpp:83-83 | hands out the oldest packet waiting for the hardware side; if there is none the caller keeps what it had |
| MidiMediator.MidiMediator.PopForDaw | src/core/midi_mediation.cpp:85-85 | hands out the oldest packet waiting for the DAW side; if there is none the caller keeps what it had |
| MidiMediator.MidiMediator.ChangePolicy | src/core/midi_mediation.cpp:91-97 | replaces the policy and both authorities and reopens both rate windows; queues, ring and log stay |
| MidiMediator.MidiMediator.Reset | src/core/midi_mediation.cpp:99-108 | back to a fresh mediator under the same policy |
| Fnv1a.TimesPrimeIsInvertible | src/core/session_store.cpp:34-34 | multiplying by the prime modulo 2^64 loses nothing |
| Fnv1a.XorBits | src/core/session_store.cpp:33-33 | every binary digit of the exclusive or is set exactly if it is set in one of the two |
| Fnv1a.HashSeparatesStates | src/core/session_store.cpp:30-35 | two different states stay different through any common continuation |
| Fnv1a.SingleByteChangeIsDetected | src/core/session_store.cpp:30-39 | the printed checksum of a payload with one byte replaced equals the original exactly when the byte is the same |
| Fnv1a.HexIsInjective | src/core/session_store.cpp:36-38 | zero-padded hexadecimal printing of a word in range is injective |
| Fnv1a.HexReadsBack | src/core/session_store.cpp:36-38 | the printed text consists of decimal digits and lower-case letters and, read with the most significant digit first, is the value |
| Fnv1a.ChecksumTextExactly | src/core/session_store.cpp:30-39 | a checksum is the hash from the published start value, in sixteen such digits |
| Fnv1a.KnownAnswers | src/core/session_store.cpp:30-35 | the published hashes of the empty text and of "a" |
| Fnv1a.Checksum | src/core/session_store.cpp:30-39 | the loop computes the checksum of the payload |
| Fnv1a.HashFile | src/main.cpp:149-175 | hashing 64 KiB at a time through one buffer gives the checksum of the whole file; a file that cannot be opened is reported as unreadable |
| SessionCodec.PolicyRoundTrip | src/core/session_store.cpp:41-50 | every synchronisation policy is read back from its name |
| SessionDocuments.PolicyNamesExactly | src/core/session_store.cpp:41-50 | every policy has its one name, and no other text names it |
| SessionDocuments.SessionIdsExactly | src/core/session_store.cpp:23-28 | an identity is 1 to 128 letters, digits, `-`, `.` and `_`, and not `.` or `..`; so it holds no path separator |
| SessionCodec.EventRoundTrip | src/core/session_store.cpp:77-89 | every musical event is read back from its object, with absent controller and value as null, except that a value that is not finite is lost |
| SessionCodec.SerializedSessionParses | src/core/session_store.cpp:52-162 | what comes back of any serialised session: nothing if it exceeds a bound or a parameter is not finite, otherwise everything but the event values that are not finite |
| SessionCodec.SessionRoundTrip | src/core/session_store.cpp:52-162 | a serialised session comes back as it was exactly when it is within bounds and all its numbers are finite |
| SessionDocuments.SparseEvent | src/core/session_store.cpp:138-149 | an event object that leaves out any of its members parses, with empty texts, zero times and channel, and -1 for note and velocity in their place |
| SessionDocuments.SparseAsset | src/core/session_store.cpp:129-137 | the same of an asset; one that does not say whether it is required is required |
| SessionDocuments.SparseParameter | src/core/session_store.cpp:151-160 | the same of a parameter, except that one without a policy does not parse |
| SessionDocuments.SparseRevision | src/core/session_store.cpp:112-116 | the same of a revision: a counter left out is zero |
| SessionDocuments.SparseSession | src/core/session_store.cpp:101-162 | a session object may leave out its source and its metadata, and nothing else |
| SessionDocuments.ParsedSessionHasShape | src/core/session_store.cpp:101-162 | what parses is an object with a revision object, three arrays of objects and, if any, metadata of texts |
| SessionDocuments.IntegersReadExactly | src/core/session_store.cpp:112-149 | any number serves as an integer of any width, congruent to it modulo that width; a truth value serves as a 32-bit integer only; nothing else does |
| SessionDocuments.OthersReadExactly | src/core/session_store.cpp:104-160 | texts serve as texts only, truth values as such, and numbers as doubles |
| SessionDocuments.OptionsReadExactly | src/core/session_store.cpp:147-148 | controller and value may be null, and are otherwise read like any other of their kind |
| SessionCodec.SessionIsCanonical | src/core/session_store.cpp:52-99 | a serialised session is a tree as the library keeps it: every object sorted by its keys, each key once |
| Doubles.SmallIntegersSurvive | src/core/session_store.cpp:137-146 | an integer of at most 53 bits that a snapshot holds as a double is read as that integer |
| Doubles.TruncatesTowardZero | src/core/session_store.cpp:112-147 | a double read as an integer, by its significand and exponent fields: the integer of its sign whose size is the whole part |
| Doubles.FiniteExactly | src/core/session_store.cpp:77-97 | a pattern is a number exactly if its exponent field is not all ones |
| Doubles.NearestWithinHalfStep | src/core/session_store.cpp:146-158 | an integer read as a double is off by at most half the distance of two neighbouring doubles, and exactly half only if the double's last bit is even |
| SessionCodec.ParsedSessionIsStable | src/core/session_store.cpp:101-162 | whatever parses is within bounds, and serialising it again parses to the same session |
| Envelopes.UnsealsExactly | src/core/session_store.cpp:183-191 | an envelope opens exactly when its integrity value is the checksum of the payload it holds |
| Envelopes.OnlySnapshotsOpen | src/core/session_store.cpp:183-191 | of all trees exactly those open that carry the format name, a version that converts to 1, a payload, and an integrity object with the algorithm name and the checksum of that payload |
| Envelopes.SnapshotRoundTrip | src/core/session_store.cpp:164-193 | a session is read back from its snapshot text exactly as from its payload, as long as the text fits; the library is assumed to read back the objects it prints |
| Envelopes.SnapshotFormatIsTornSafe | src/core/session_store.cpp:176-193 | the beginning of a snapshot text opens as what is kept of the session it was written for, or not at all, whatever the payload is, for such a library |
| Envelopes.DamagedPayloadIsRejected | src/core/session_store.cpp:187-191 | a payload whose text differs in one byte, under the original integrity value, never opens |
| SessionFormat.StoreFormatIsTornSafe | src/core/session_store.cpp:176-193 | the same for any session of the store; what is kept is the session without its infinite and NaN event values |
| SessionFormat.SavableExactly | src/core/session_store.cpp:265-280 | any session passes save's checks exactly when it is within the bounds that loading imposes, its text fits, and its parameter values are finite |
| SessionFormat.SavedSessionsSurvive | src/core/session_store.cpp:265-337 | durability of the snapshot protocol, for the store's own format and any sessions |
| SessionFormat.StoreKeepsSessions | src/core/session_store.cpp:265-337 | after any saves by a store object, however they went, loading from any of its directories is no older than the last acknowledged save, and gives what is kept of a session it was asked to save |
| SessionFormat.SaveGivesBackExactly | src/core/session_store.cpp:77-89 | what an uninterrupted save gives back: the session without its infinite and NaN event values, which is the session itself exactly if it has none |
| SessionFormat.StoreGoesBackExactly | src/core/session_store.cpp:265-331 | in the store's format the next save can make loading go back exactly when there is no current file and the pending one opens |
| SnapshotProtocol.StepKeepsInv | src/core/session_store.cpp:265-294 | every step of a save, every failure and every crash point keeps current and previous readable, the attempts ordered, and the acknowledged snapshot sheltered |
| SnapshotProtocol.AcknowledgedSavesSurvive | src/core/session_store.cpp:265-337 | over every run, once a save has returned true, load finds what is kept of some attempt's session, none older than the last acknowledged one |
| SnapshotProtocol.SnapshotsStayOrdered | src/core/session_store.cpp:279-282 | over every run previous is older than current and current older than pending, and current and previous always open |
| SnapshotProtocol.LoadGoesBackExactly | src/core/session_store.cpp:300-331 | one more attempt makes load return an older snapshot exactly when load had come from a pending file with no current and the attempt left that file unreadable |
| SnapshotProtocol.GoesBackExactly | src/core/session_store.cpp:265-331 | before the call: some way for the next attempt to end makes load go back exactly when there is no current file and the pending one opens, if an empty file does not open |
| SnapshotProtocol.LoadGoesBackInARun | src/core/session_store.cpp:265-331 | a run in which it happens: a full save, one interrupted between the renames, the beginning of a third |
| SnapshotProtocol.FullSaveEffect | src/core/session_store.cpp:273-287 | an uninterrupted save is current and loads back from there; what was current is previous |
| SnapshotProtocol.CurrentLoadsBack | src/core/session_store.cpp:304-325 | a readable current snapshot loads back as what is kept of the session it was written for |
| SnapshotProtocol.DamagedCurrentFallsBack | src/core/session_store.cpp:304-325 | after two uninterrupted saves, damage to current alone gives back the earlier session, marked recovered |
| SessionStore.WritesAllExactly | src/core/session_store.cpp:226-235 | everything is written exactly if some write calls in a row, none of them an error, take that much between them, interrupted ones taking nothing |
| SessionStore.DurableSessionStore.WritePending | src/core/session_store.cpp:195-246 | for every pattern of partial, interrupted and failing writes, writing the pending file is a run of the protocol, successful exactly when everything was written and flushed |
| SessionStore.DurableSessionStore.DisplaceCurrent | src/core/session_store.cpp:281-281 | the first rename is the protocol's step, skipped when there is no current |
| SessionStore.DurableSessionStore.PromotePending | src/core/session_store.cpp:282-282 | the second rename is the protocol's step |
| SessionStore.DurableSessionStore.Attempt | src/core/session_store.cpp:279-287 | writing, reading back and replacing, under any outcomes, is a run of the protocol; true exactly when nothing failed and the text reads back |
| SessionStore.DurableSessionStore.TrySave | src/core/session_store.cpp:265-294 | a save, under any outcomes of its system calls, is a run of the protocol on its own directory and touches no other |
| SessionStore.DurableSessionStore.Save | src/core/session_store.cpp:265-294 | the same, kept in step with the history of every directory; it returns true exactly when the session is savable and nothing failed, and then the session is current, and loading gives back what a torn-safe format keeps of it |
| SessionStore.DurableSessionStore.SavesSurvive | src/core/session_store.cpp:265-337 | after any sequence of saves by this object, however they went, what load finds is no older than the last acknowledged save |
| SessionStore.DurableSessionStore.LoadSession | src/core/session_store.cpp:296-337 | for a valid id, the first of current, pending, previous that opens; otherwise nothing |
| ParameterRelay.RelayStaysInRange | src/core/parameter_sync.cpp:28-45 | a relayed value is always inside the target range |
| ParameterRelay.RelayIsMonotone | src/core/parameter_sync.cpp:28-45 | relaying never reverses an order |
| ParameterRelay.SteppedRelayError | src/core/parameter_sync.cpp:28-45 | a stepped relay moves the normalised position by at most half a step of each side |
| Reals.RoundExactly | src/core/parameter_sync.cpp:33-33 | the integer a number is rounded to, halves going away from zero |
| ParameterRelay.SteppedRelayExactly | src/core/parameter_sync.cpp:28-45 | where any value in range lands: at the target step nearest to the source step nearest to it, the higher step being taken halfway, both times |
| ParameterRelay.StepBetweenGoesUp | src/core/parameter_sync.cpp:33-42 | a source step exactly between two target steps is relayed to the higher one |
| ParameterRelay.ValueBetweenGoesUp | src/core/parameter_sync.cpp:33-42 | a value exactly between two source steps is relayed like the higher one |
| ParameterRelay.LinearRelayIsExact | src/core/parameter_sync.cpp:28-45 | a linear relay, or a stepped one between endpoints without steps, keeps the normalised position and comes back to the same value |
| ParameterRelay.SteppedRoundTripExactly | src/core/parameter_sync.cpp:28-45 | every source step comes back from a stepped relay there and back exactly when the target has at least as many steps |
| RelayPlanning.ValidateMapping | src/core/parameter_sync.cpp:55-109 | the diagnostics are exactly the faults of the mapping, in order; they contain an error exactly when it is unsound, and are empty exactly when it is sound and qualified |
| RelayPlanning.PlanRelay | src/core/parameter_sync.cpp:111-147 | a relay is allowed exactly when the mapping is sound and qualified, the direction authorised, the value in range and the deadline representable; then the planned write is of the mapped parameter, with the relayed value, the revision and the deadline; otherwise it is blocked; the diagnostics are the faults of the mapping or, without any, the one thing that became of the relay |
| RelayPlanning.PlanSoundRelay | src/core/parameter_sync.cpp:123-146 | the same over a mapping that has passed validation |
| RelayPlanning.PlanWriteTo | src/core/parameter_sync.cpp:140-145 | the write that carries a value to a side: its id, parameter, target, value, revision and times, planned exactly if the deadline is representable |
| StateSync.WriteCanBeAcknowledgedExactly | src/core/state_sync.cpp:162-262 | the plan carries what was asked for; some events lead it to its acknowledgement exactly if it names its parameter and value, the target is writable and qualified, and the timeout is at most a minute and the deadline in range; any other request is never changed by any events |
| StateSync.PlanNamesFirstFault | src/core/state_sync.cpp:180-205 | a blocked plan names the first of its faults, and a plan without one says that it is planned |
| StateSync.ParameterWriteIntent.DispatchWrite | src/core/state_sync.cpp:207-225 | the in-place update is the dispatch step; true exactly when the intent became dispatched |
| StateSync.ParameterWriteIntent.AcknowledgeWrite | src/core/state_sync.cpp:227-262 | the in-place update is the acknowledgement step, whose every outcome is that of `HarmlessEventsAreOnlyNoted`, `UnrelatedIsNoted` and `ObservationDecides`; true exactly when the intent became acknowledged |
| StateSync.ParameterWriteIntent.ExpireWrite | src/core/state_sync.cpp:264-270 | the in-place update is the expiry step; true exactly for an open intent at or past its deadline |
| StateSync.AcknowledgedWriteIsGenuine | src/core/state_sync.cpp:162-262 | over every run, an acknowledged intent was dispatched at its expected revision and later confirmed by its target with the desired value and a current revision, with creation <= dispatch <= observation < deadline |
| StateSync.DispatchDecides | src/core/state_sync.cpp:207-225 | a planned write leaves for its target only at its expected revision and within its time; otherwise it ends in conflict or times out, and says why |
| StateSync.HarmlessEventsAreOnlyNoted | src/core/state_sync.cpp:231-242 | over any run of observations of another side, unobserved or from before the dispatch, of further dispatches and of expiries before the deadline, a dispatched write changes in nothing but its diagnostics |
| StateSync.UnrelatedIsNoted | src/core/state_sync.cpp:231-242 | each such observation is noted with the first reason that applies |
| StateSync.ObservationDecides | src/core/state_sync.cpp:243-261 | after any such run the first observation that bears on the write decides it: timed out if late, in conflict if of an older revision or another value, otherwise acknowledged; it is kept if in time and current |
| StateSync.ExpiryDecides | src/core/state_sync.cpp:264-270 | an expiry times out exactly the planned and dispatched writes whose deadline has come, and changes no other |
| StateSync.ClosedPhasesNeverChange | src/core/state_sync.cpp:207-270 | no event changes an intent in a terminal phase |
| StateSync.ExpiryCloses | src/core/state_sync.cpp:264-270 | after an expiry at or past the deadline no run leaves the intent open |
| StateSync.ParameterMirror.Evaluate | src/core/state_sync.cpp:137-160 | the branches compute the classification by what each side shows |
| StateSync.ClassifyExactly | src/core/state_sync.cpp:137-160 | each of the seven states holds exactly when the two values shown stand so to each other and to the desired one |
| StateSync.ClassifyIsSymmetric | src/core/state_sync.cpp:137-160 | swapping the two sides swaps the two pending states and nothing else |
| StateSync.AcknowledgedWriteSettlesSide | src/core/state_sync.cpp:137-262 | storing an acknowledged observation synchronizes exactly a mirror that was pending on that side or already synchronized; any other is left pending on the other side |
| StateSync.PendingMirrorConverges | src/core/state_sync.cpp:137-262 | a pending mirror becomes synchronized once a write to its pending side is planned, dispatched in time and, whatever harmless happens in between, confirmed |
| SessionMerge.DetectConflicts | src/core/bridge_core.cpp:188-215 | the nested loops list the conflicts in hardware order, then DAW order, with their hints |
| SessionMerge.ConflictsAreDisputes | src/core/bridge_core.cpp:188-215 | a key is in the conflict list exactly when the branches set it to different values |
| SessionMerge.ConflictsInOrder | src/core/bridge_core.cpp:188-215 | one conflict for every pair of changes that set a field of an entity differently, each change on its own side, in hardware order and then DAW order, with the hint that the policies ask for |
| SessionMerge.SessionMergePlan.constructor | src/core/session_tools.cpp:245-269 | the loops compute conflicts and automatic changes; ready exactly without conflicts |
| SessionMerge.SessionMergePlan.ResolveConflict | src/core/session_tools.cpp:271-282 | records a resolution of the first conflict on the key, with the value of `RecordedExactly`, and compares the counts; rejects unknown keys and empty values |
| MergeResolution.RecordedExactly | src/core/session_tools.cpp:271-282 | keeping the hardware records the value of the hardware change in the first pair that sets the key differently, keeping the DAW that of its DAW change, any other choice its own; nothing if it is empty |
| MergeResolution.KeptSideBringsItsValue | src/core/session_tools.cpp:276-277 | when each branch changes a key once, keeping a side records the one value that side gives the key |
| MergeResolution.UndisputedIsNotRecorded | src/core/session_tools.cpp:271-275 | on a key that the branches do not set differently nothing is recorded |
| MergeCorrectness.DisputedKeysAreUntouched | src/core/session_tools.cpp:254-266 | the automatic changes leave every key in conflict as it was |
| MergeCorrectness.AutomaticExactly | src/core/session_tools.cpp:254-266 | the automatic changes are changes of the two branches on keys not in conflict: all those of the hardware, and enough of the DAW's to set every such key to every value that the DAW sets it to |
| MergeCorrectness.OrderIsIrrelevant | src/core/session_tools.cpp:254-266 | at a key not in conflict hardware-then-DAW and DAW-then-hardware agree, for any branches |
| MergeCorrectness.MergedExactly | src/core/session_tools.cpp:259-266 | the exact condition under which the automatic changes give a key not in conflict the value both orders give it |
| MergeCorrectness.SetResetSetLosesLastWrite | src/core/session_tools.cpp:260-265 | a DAW branch that sets, resets and sets a key again loses its last write |
| MergeCorrectness.MergeIsCorrectExactly | src/core/session_tools.cpp:245-269 | the automatic changes give every key not in conflict its merged value and touch no other, exactly when at each such key hardware writes or the DAW branch does not come back to an earlier value |
| MergeCorrectness.MergeIsCorrect | src/core/session_tools.cpp:245-269 | so they do when each branch changes a key at most once |
| MergeCorrectness.MergeIsSymmetricExactly | src/core/session_tools.cpp:245-269 | for any branches, swapping them never changes the keys in conflict, and keeps the merged state exactly when at every key not in conflict both write, or neither comes back to an earlier value |
| MergeCorrectness.MergeIsSymmetric | src/core/session_tools.cpp:245-269 | so it does when each branch changes a key at most once |
| MergeReadiness.ReadinessByCounting | src/core/session_tools.cpp:271-282 | over every run of resolutions with one conflict per key, any two of ready, all resolved and no key resolved twice give the third |
| MergeReadiness.CountingIsRightExactly | src/core/session_tools.cpp:271-282 | after any run of resolutions: every continuation that resolves only new keys keeps "ready exactly when all resolved" if and only if the resolutions so far repeat as many keys as the conflicts do; with one conflict per key, if and only if no key was resolved twice |
| MergeReadiness.RepeatsMakeReadyTooEarly | src/core/session_tools.cpp:280-280 | resolving one key as often as there are conflicts makes the plan ready with every other key open |
| MergeReadiness.RepeatedConflictsBlockReadiness | src/core/session_tools.cpp:280-280 | with several conflicts on one key, resolving each key at most once never makes the plan ready |
| MergeReadiness.OncePerKeyGivesDistinctConflicts | src/core/bridge_core.cpp:188-215 | branches that change each key at most once have at most one conflict per key |
| FrameCodec.Pipe.WriteAll | src/platform/local_ipc.cpp:178-189 | however the pipe splits the writes, the bytes arrive in order up to what the other side takes; true exactly when that is all of them |
| FrameCodec.Pipe.ReadAll | src/platform/local_ipc.cpp:191-202 | however the pipe splits the reads, the buffer gets the next bytes of the stream; true exactly when there are enough |
| FrameCodec.Pipe.WriteFrame | src/platform/local_ipc.cpp:204-215 | a payload of 1..65536 bytes goes out as its frame; any other writes nothing |
| FrameCodec.Pipe.ReadFrame | src/platform/local_ipc.cpp:217-227 | reading a frame is decoding the first frame of the stream, and uses exactly its bytes |
| FrameCodec.Pipe.WriteFrames | src/platform/local_ipc.cpp:204-215 | frame after frame until one fails: the bytes out are those of the frames in range, up to what the other side takes |
| FrameCodec.Pipe.ReadFrames | src/platform/local_ipc.cpp:217-227 | frame after frame until one fails: what is read are the decoded payloads up to the first that is no object |
| FrameCodec.Exchange | src/platform/local_ipc.cpp:204-227 | any list of payloads written and read through one pipe, however it splits both and wherever it breaks, arrives as the longest beginning that is in range, was taken whole, and holds objects |
| FrameCodec.HeaderRoundTrip | src/platform/local_ipc.cpp:207-221 | every 32-bit size is read back from its little-endian header |
| FrameCodec.HeaderIsLittleEndian | src/platform/local_ipc.cpp:207-211 | the first byte of a header is the lowest of the size, and the others are those of the rest |
| FrameCodec.DecodesExactly | src/platform/local_ipc.cpp:217-227 | a stream decodes to a payload and a rest exactly if it is the frame of that payload, of 1 to 65536 bytes, followed by the rest |
| FrameCodec.TruncatedStreamYieldsWholeFrames | src/platform/local_ipc.cpp:204-227 | a stream of frames cut at any byte yields exactly the payloads whose frames were complete |
| FrameCodec.WholeFramesIsMaximal | src/platform/local_ipc.cpp:204-227 | those payloads are the longest prefix of the list whose frames fit before the cut |
| FrameCodec.StreamRoundTrip | src/platform/local_ipc.cpp:204-227 | decoding a whole stream of frames gives exactly the payloads encoded |
| ServiceAccounting.ServedExactly | src/platform/local_ipc.cpp:374-447 | a request that is received, persisted and answered is accepted exactly if it is well formed, for this protocol version, authenticated and supported; then its command has the next number and is in the file, and the server stops exactly if it was told to shut down or has served its last request; otherwise nothing changes; the answer tells the outcome, the version and the first fault |
| ServiceAccounting.CleanLifeExactly | src/platform/local_ipc.cpp:374-453 | a server that starts, serves any requests, is ended by the last of them and saves its state is down, and leaves a file with one start more, every request counted, a restart after a crash counted, and a clean end |
| ServiceAccounting.StrangersChangeNothing | src/platform/local_ipc.cpp:388-447 | over any run of requests without the credential the file, the history and the state in memory stay, and no reply says authenticated or accepted |
| ServiceAccounting.RunKeepsAccounts | src/platform/local_ipc.cpp:374-453 | over every run of receiving, persisting and replying, with crashes and failed writes anywhere between them, the file satisfies starts = clean stops + unclean restarts + (0 if marked clean, else 1), its request count is the number of commands persisted, every reply carries the counts that the file held when it was sent, and no two accepted replies share a number |
| ServiceAccounting.LocalService.Handle | src/platform/local_ipc.cpp:384-447 | one connection, with its response built and sent in place, is a run of receive, persist and reply steps |
| ServiceAccounting.LocalService.Serve | src/platform/local_ipc.cpp:374-456 | one life of the server is a run of the step machine; it returns 0 exactly after a clean stop that reached the disk |
| JsonBudget.TreeIsCharged | src/core/mpc_xpj_reader.cpp:68-97 | whatever was charged before, charging a tree one value, container, key and text after the other finds no fault exactly if what is left of the budget, never less than nothing, covers its totals, and a fault names a limit that they exceed |
| JsonBudget.Measure | src/core/mpc_xpj_reader.cpp:68-97 | from any accumulator, the walk throws exactly the first fault in the list of the charges of the tree (a value at its depth, then the size of a container or the bytes of a text, each key before its value), and otherwise adds the exact totals |
| JsonBudget.MeasureItems | src/core/mpc_xpj_reader.cpp:93-96 | the same for the items of an array |
| JsonBudget.MeasureMembers | src/core/mpc_xpj_reader.cpp:84-92 | the same for the members of an object |
| JsonBudget.MeasureMember | src/core/mpc_xpj_reader.cpp:86-91 | the same for one member, its key charged before its value |
| JsonBudget.MeasureDocument | src/core/mpc_xpj_reader.cpp:130-131 | a document is accepted exactly when nodes, depth, every container and the key and string bytes are within limits; the figures are its exact totals; otherwise the failure is that of the first charge over its limit, and the whole document is over it |
| JsonBudget.HeightAtMostNodes | src/core/mpc_xpj_reader.cpp:69-72 | the depth of a tree never exceeds its node count |
| JsonPositions.NodesAreCounted | src/core/mpc_xpj_reader.cpp:68-72 | the node figure is the number of positions in the tree |
| JsonPositions.ChargedInOrder | src/core/mpc_xpj_reader.cpp:68-97 | the walk charges the values of a tree in the order of their positions, each at its depth |
| JsonPositions.HeightIsLongestPath | src/core/mpc_xpj_reader.cpp:70-72 | the depth figure is one more than the length of the longest path |
| JsonPositions.NarrowIsEverywhere | src/core/mpc_xpj_reader.cpp:73-75 | the container limit holds exactly if no value at any position has more children |
| JsonPositions.StringBytesAreTotal | src/core/mpc_xpj_reader.cpp:76-92 | the string figure is the total, over all positions, of the bytes of texts and of the keys of objects |
| Bytes.Utf8LengthExactly | src/core/mpc_xpj_reader.cpp:77-86 | the bytes of a text are the sum of one to four for each character, by its code point |

## Left out

- RealtimeBuffer.SpscRingBuffer.constructor: asks for a capacity that divides 2^64, which the source does not demand,
  because the queue is correct exactly then (`SafeIffCapacityDividesModulus`).
- Memory ordering below acquire/release publication: the queue's atomics are indivisible steps with stale snapshots.
- The mediator's queues are used here by one owner at a time; their concurrent use is what `SpscInterleaving` covers.
- JSON text: printing and parsing are parameters of the model. The store's theorems assume that the library reads back
  the objects it prints, and reads a truncated one as nothing or (the final newline missing) as the same object.
  `ReferenceLibrary.TheLibraryIsFaithful` shows that the assumption can be met.
- Strings are Unicode text; text that is not valid UTF-8, for which the library refuses to print, is not modelled.
- Floating point elsewhere than in sessions: relayed parameter values are exact reals, so rounding is absent there.
  In sessions doubles are 64-bit patterns, and printing and reading back a finite one is assumed to lose nothing.
- JSON objects keep their members in a list. Trees that are printed have sorted, distinct keys; a parsed tree with
  duplicate keys, which the library cannot represent, is not excluded.
- Booleans in place of 64-bit integers are refused, as where `long long` is the library's own 64-bit type; elsewhere
  the library converts them.
- Numbers out of a target type's range in hand-edited snapshots are narrowed as two's complement, and fractions truncated.
- Loss of a flushed file or of a completed rename after a power failure, and two processes saving one session at once.
- Diagnostics texts, and in the store the diagnostics themselves: elsewhere codes and, for mappings, severities are kept.
- Windows pipes, access control, credential protection and the comparison of credentials in constant time: equality.
- The fields of the service state that are only reported (instance id, schema version, update time).
- The streaming pre-check of the imported JSON: its callback is driven by the library's parser.
- zlib decompression and the interpretation of an imported project: reading of one vendor's format.
- Branches' revision bookkeeping, capability negotiation, transaction phases, and the recording and learn planners:
  each is a table of cases on its arguments, and nothing modelled here depends on one.
