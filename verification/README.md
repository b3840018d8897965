# A verified model of the toolkit's byte pipeline

The toolkit reads game-server traffic: TCP segments are reassembled per flow, the stream is cut into length-framed
messages, target messages are decoded into item records, and records are classified and delivered to an application.
This project models that path in Dafny and proves what it promises. `dafny verify dfyconfig.toml` checks all of it.

## How it is organised

- `Wire.dfy`, `SequenceNumbers.dfy`: bytes, little-endian fields, the true stream, 32-bit sequence arithmetic
  (section 3.4 of RFC 9293; the nearest-value rule is serial-number arithmetic, section 3.2 of RFC 1982).
- `ScannerLog.dfy`, `ReceivedSet.dfy`: what a stream scanner is entitled to, as a log of calls; and the set of received
  positions a flow has to answer to.
- `Holding.dfy`, `InitialOrder.dfy`, `Gaps.dfy`, `FinLoss.dfy`: held segments, the provisional order before an origin is
  known, how a flow walks over its gaps, as a function of what it holds, its limits, FIN and the clock, and exactly when
  that gives up a gap or loses held bytes.
- `Reassembly.dfy`, `FlowManager.dfy`: the class of one flow's state, whose methods are proved against `Gaps` and keep the
  received-set books, and the class that admits, evicts, replaces and closes flows. `ArrivalOrder.dfy` is about whole runs
  of arrivals.
- `FrameCollector.dfy`, `Framing.dfy`, `Pipeline.dfy`: the generic frame scanner, its round trip in any chunking, and
  reassembly and framing joined into one theorem about true stream bytes. `Recovery.dfy` is about the frame scanner where
  no boundary is given, and about bytes that come late.
- `RecordGeometry.dfy`, `Specs.dfy`, `Decoder.dfy`, `MessageDecoder.dfy`, `Batches.dfy`, `BatchRoundTrip.dfy`,
  `DecodedFields.dfy`: tilings, the layouts the toolkit builds, declared and structural batches, all-or-nothing decoding,
  and reading back what was written, field by field.
- `TargetStream.dfy`, `TargetScanner.dfy`: the target-message scan as a function, its indifference to chunking, and the
  scanner class that performs it in place. `StreamRoundTrip.dfy` carries the storage round trip through scanner and chunks.
  `TargetPipeline.dfy` joins reassembly and this scan; `CapturePath.dfy` states
  both theorems, and conservation, of the flows a manager has.
- `Hydration.dfy`, `Outbox.dfy`: the storage-hydration classifier over whole runs, and its dispatch protocol over every
  interleaving.
- `InventoryBoundary.dfy`, `InventoryBelief.dfy`: which inventory wrappers are believed, in place, and as a law about whole
  runs.
- `LiveShutdown.dfy`, `LiveDelivery.dfy`: the live capture pipeline from native callbacks to `poll`, through shutdown.
- `CountColumn.dfy`, `DecrementShape.dfy`, `CompanionCache.dfy`, `RetentionWindow.dfy`: the calibration learners and
  their agreement with the decoder, the companion discovery cache, the bounded evidence window.

## Conventions

- The scanner behind a flow is represented by the log of the calls made on it (`calls`), `on_gap_reset` by the list of
  reported positions (`gapResets`), and the manager's callbacks by lists and counters. `FrameCollector` and
  `TargetScanner` are then proved on such calls, so that both sides meet in `Pipeline`.
- Ghost fields of a flow state carry what no code stores: the true `stream`, the `shift` from state to stream positions,
  the set of received positions `due`, and the list of `skips`. `coherent` says that every segment so far was a true
  piece of one stream, near enough (strictly less than 2^31) to be placed; claims about stream bytes are made under it.
  `own` says that every segment came with the flow's own key and generation.
- Times are reals passed in as arguments; digests are an abstract function of the bytes.
- Ordered dictionaries are sequences where their order matters and maps where it does not.
- Concurrent code is a state machine: one action is what one thread does under one hold of a lock or between two.

## Where code and promise differ

- `TCPFlowState.service_gaps` does not count resets that happen inside the commit it may begin with. The count falls short by
  what that commit gives up, a number computed from what is held (`ServiceGaps`). It is exact if and only if at no item of
  the commit a limit is exceeded beyond a gap or, without deferred timeouts, the gap timer has run out (`SilentCommits`);
  so it is with deferred timeouts and a holding within its limits (`DeferredCommitIsSilent`), and `Gaps.CommitGivesUp` is
  an input where it is not.
  `FlowManager.service_gaps` returns the exact number of scanner resets.
- Without deferred timeouts, a FIN timeout inside a commit can pass provisional segments that are still to be taken in, and
  their bytes are dropped (`Gaps.FinOverrunsHeldBytes`, `FinOverrunLosesBytes`). It happens if and only if, at one of the
  ordered segments, the guard of giving up on FIN holds (`Gaps.FinRunsOut`) while a later one begins before FIN and ends
  beyond everything up to that one: `FinLoss.LossToFin`, stated of a flow in `CommitUnanchored`, `CommitEarliest`,
  `AnchorSequence`, `ServiceGaps` and `Finish` (`PassesOver`). What is lost is exactly those ranges from the end of the
  segments so far to FIN (`FinLoss.LostBeforeFin`). It cannot happen if no FIN was seen, timeouts are deferred, or
  everything held was captured less than 1.5 s after FIN (`Gaps.PromptLosesNothing`). The flow still stands in the true
  stream afterwards, if FIN lies within half the sequence space of what was held.
- `poll` can return an event from the tail before one from the queue, when a producer puts an event and the whole
  shutdown runs between the poll's last look at the queue and its look at the stopped flag
  (`LiveDelivery.TailOvertakes`). `LiveDelivery.ReturnedInOrderIff` is the exact condition; a caller meets it by not
  polling across the end of `stop` (`PollsOutsideStopAreInOrder`).
- An event can be given up by `_enqueue` when a stop was requested (`dropped` in `LiveDelivery`): order and conservation
  are claimed for the events it took.
- A hydration callback that raises gives the dispatcher's role back with events still queued
  (`Outbox.RaisingLeavesEvents`); `Outbox.QuietLeavesExactly` says which.

## Model

| member | source | states |
|---|---|---|
| SequenceNumbers.UnwrapIsNearest | src/bdo_toolkit/_reassembly.py:671-679 | the unwrapped position carries the 32-bit number it came from and no other such position is nearer the reference |
| SequenceNumbers.UnwrapRecovers | src/bdo_toolkit/_reassembly.py:671-679 | strictly within half the sequence space of the reference, unwrapping gives back the position the number was cut from |
| SequenceNumbers.HalfRangeIsAmbiguous | src/bdo_toolkit/_reassembly.py:671-679 | at a distance of exactly 2^31 two positions share the number, and whether the low half of the reference is under 2^31 decides alone which one is returned |
| ScannerLog.Append | src/bdo_toolkit/_reassembly.py:291-301 | one more call keeps a log faithful to the stream if and only if it carries true bytes and goes on where the feeds ended, or after a reset no earlier |
| ScannerLog.FedAtMostOnce | src/bdo_toolkit/_reassembly.py:291-301 | in a faithful log no stream position is fed by two different calls |
| ScannerLog.FedBelowHighWater | src/bdo_toolkit/_reassembly.py:291-301 | everything fed lies between the anchor and the high-water mark |
| ScannerLog.UninterruptedRun | src/bdo_toolkit/_reassembly.py:291-301 | without a reset the bytes fed are exactly the stream from the anchor to the high-water mark |
| ReceivedSet.SoundAtOpening | src/bdo_toolkit/_reassembly.py:211-227 | a freshly anchored flow has received, fed and skipped nothing |
| ReceivedSet.SoundAfterFeed | src/bdo_toolkit/_reassembly.py:291-301 | feeding received bytes at the cursor keeps the books: received means fed or held, and skipped means never received |
| ReceivedSet.SoundAfterStandalone | src/bdo_toolkit/_reassembly.py:247-263 | showing the scanner passed bytes changes nothing in the books |
| ReceivedSet.SoundAfterRelease | src/bdo_toolkit/_reassembly.py:303-327 | dropping a held segment whose bytes have all been passed or are about to be fed loses nothing |
| ReceivedSet.SoundAfterArrivalInOrder | src/bdo_toolkit/_reassembly.py:287-289 | bytes arriving at the cursor are received, and no skip swallowed them |
| ReceivedSet.SoundAfterArrivalBeyondGap | src/bdo_toolkit/_reassembly.py:266-286 | keeping the longer of two segments under one key still holds every received byte |
| ReceivedSet.SoundAfterGivingUp | src/bdo_toolkit/_reassembly.py:363-389 | giving up the range before FIN, or before the earliest held segment, skips only positions that never arrived |
| ReceivedSet.PassedBeyondSkips | src/bdo_toolkit/_reassembly.py:233-264 | a passed position beyond every other skip has been received if and only if it was not given up because of FIN |
| ReceivedSet.FirstMissingIsUnique | src/bdo_toolkit/_reassembly.py:85-95 | there is one first position that no arrived segment covers |
| ReceivedSet.FedUpToFirstMissing | src/bdo_toolkit/_reassembly.py:233-327 | while nothing is skipped the fed bytes are the stream from the anchor to that position |
| ReceivedSet.Conservation | src/bdo_toolkit/_reassembly.py:391-403 | with nothing held, a position was fed if and only if it was received, and each passed position was fed or skipped, never both |
| Holding.TotalWithout | src/bdo_toolkit/_reassembly.py:157-167 | the byte total of a held map drops by exactly the removed segment, whichever is removed |
| Holding.FewerFit | src/bdo_toolkit/_reassembly.py:157-167 | part of what is within the segment and byte limits is within them |
| Holding.MinTimestamp | src/bdo_toolkit/_reassembly.py:303-327 | the restarted gap timer is the earliest capture time among held segments |
| Holding.KeepMeasures | src/bdo_toolkit/_reassembly.py:266-270 | keeping a segment adds at most one entry and at most its own bytes |
| Holding.SortedItemsAreHeld | src/bdo_toolkit/_reassembly.py:303-327 | ordering held segments by position alters and repeats none |
| Holding.SortedItemsAreAll | src/bdo_toolkit/_reassembly.py:303-327 | and loses none |
| InitialOrder.LiftIsEnough | src/bdo_toolkit/_reassembly.py:169-185 | one modulus of lift makes every unwrapped provisional position non-negative |
| InitialOrder.OrderedIsAscending | src/bdo_toolkit/_reassembly.py:169-185 | provisional segments are ordered by unwrapped position |
| InitialOrder.OrderedInvents | src/bdo_toolkit/_reassembly.py:169-185 | every ordered item is a held segment at its lifted position |
| InitialOrder.OrderedKeeps | src/bdo_toolkit/_reassembly.py:169-185 | every held segment is among the ordered items, across a 32-bit wrap too |
| InitialOrder.OrderedCovers | src/bdo_toolkit/_reassembly.py:169-185 | the ordered items cover exactly the positions the held segments cover |
| InitialOrder.OrderedMeasures | src/bdo_toolkit/_reassembly.py:169-185 | there are as many ordered items as held segments, with as many bytes |
| InitialOrder.EarliestIsFirst | src/bdo_toolkit/_reassembly.py:211-227 | no provisionally held position lies before the first ordered item |
| InitialOrder.DueAfterItem | src/bdo_toolkit/_reassembly.py:219-227 | taking in one item receives exactly its positions: what of it was passed already had been received, or was given up because of FIN |
| InitialOrder.TakenInExactly | src/bdo_toolkit/_reassembly.py:211-227 | what was given up because of FIN has not been received, so that received is exactly held without that |
| InitialOrder.EarliestIsCredible | src/bdo_toolkit/_reassembly.py:211-227 | within half the sequence space the earliest held byte is an origin from which all of them unwrap correctly |
| InitialOrder.CredibleIsPlaced | src/bdo_toolkit/_reassembly.py:211-227 | from a credible origin every held segment keeps its true place, under one common bound |
| InitialOrder.PlacedUnwraps | src/bdo_toolkit/_reassembly.py:211-227 | a segment committed from anywhere between origin and bound unwraps to its true position |
| InitialOrder.ArrivalUnwraps | src/bdo_toolkit/_reassembly.py:135-155 | a provisional arrival near what is held unwraps to its true position relative to the first one |
| InitialOrder.KeepProvisional | src/bdo_toolkit/_reassembly.py:135-155 | keeping the longer duplicate holds exactly the union of the positions |
| InitialOrder.ContiguousProbe | src/bdo_toolkit/_reassembly.py:188-209 | the in-place loop computes the probe of the ordered items |
| InitialOrder.ProbeIsContiguous | src/bdo_toolkit/_reassembly.py:188-209 | every probe byte lies in some item, and a probe below its limit ends where no item covers |
| InitialOrder.ProbeIsTrue | src/bdo_toolkit/_reassembly.py:188-209 | the probe of true items is a true piece of the stream from the earliest of them |
| Gaps.TimedOutDrains | src/bdo_toolkit/_reassembly.py:343-349 | the gap timer clears everything held if and only if it has run out and beyond every further gap some segment is overdue; the stream then stands at the end of what was held |
| Gaps.TakenGivesUpOnFin | src/bdo_toolkit/_reassembly.py:266-289 | one segment gives up on the range before FIN if and only if it is held beyond a gap within the limits, its time clears everything held, and FIN lies beyond that and was seen 1.5 s before or earlier |
| Gaps.TakenAllSteps | src/bdo_toolkit/_reassembly.py:211-227 | a commit gives up on FIN only for an item captured at least 1.5 s after FIN was seen |
| Gaps.CommitGivesUpOnFin | src/bdo_toolkit/_reassembly.py:211-227 | a commit gives up on the range before FIN if and only if that guard holds at one of its items |
| Gaps.PromptLosesNothing | src/bdo_toolkit/_reassembly.py:211-227 | known before the commit: if FIN was not seen, timeouts are deferred, or everything held was captured less than 1.5 s after FIN, no held byte is lost |
| Gaps.FinOverrunsHeldBytes | src/bdo_toolkit/_reassembly.py:211-289 | for any times and places of this shape, once one segment is 1.5 s or more after FIN, all bytes of a later held one are passed over: the bound of PromptLosesNothing is sharp |
| Gaps.TakenAllReaches | src/bdo_toolkit/_reassembly.py:211-227 | committed items keep their own places, and no gap given up on before one of them reaches into it, FIN aside |
| Gaps.FinIsPlaced | src/bdo_toolkit/_reassembly.py:104-118 | a FIN within half the sequence space of what is held names one place throughout the commit |
| Gaps.DeferredCommit | src/bdo_toolkit/_reassembly.py:157-167 | with deferred timers a commit of what is within the limits gives up nothing |
| Gaps.CommitGivesUp | src/bdo_toolkit/_reassembly.py:329-361 | without deferred timers a commit can itself give up a gap that the timer part then finds nothing of, so that 0 resets are returned for 1 made |
| FinLoss.TakenLosesToFin | src/bdo_toolkit/_reassembly.py:266-289 | what one segment gives up because of FIN: nothing unless that guard holds, and then exactly the range from the end of all that is then held to FIN |
| FinLoss.LostBeforeFin | src/bdo_toolkit/_reassembly.py:211-289 | what a commit has given up because of FIN after any number of items: exactly, for each item where the guard holds, the range from the largest end of the items so far to FIN |
| FinLoss.LossToFin | src/bdo_toolkit/_reassembly.py:211-289 | a commit passes over a byte it was to take in if and only if the guard holds at some item and a later item begins before FIN and ends beyond all items up to that one |
| FinLoss.HeldLossToFin | src/bdo_toolkit/_reassembly.py:211-231 | the same for any origin and in stream positions: some held byte from the origin on is lost to FIN if and only if that is so |
| FinLoss.EarliestLossToFin | src/bdo_toolkit/_reassembly.py:211-231 | the same for the earliest origin |
| FinLoss.KeepsEverything | src/bdo_toolkit/_reassembly.py:211-231 | nothing held is lost if and only if no FIN timer can run out over it or that condition fails |
| FinLoss.TakenGivesUp | src/bdo_toolkit/_reassembly.py:266-289 | one segment makes the stream give up anything if and only if it lies beyond a gap while a limit is exceeded with it or, without deferred timeouts, the gap timer has run out |
| FinLoss.CommitGivesUpNothing | src/bdo_toolkit/_reassembly.py:211-231 | a commit gives up nothing if and only if that guard holds at none of its items |
| Reassembly.TcpFlowState.constructor | src/bdo_toolkit/_reassembly.py:46-60 | a fresh flow state holds nothing and knows no origin |
| Reassembly.TcpFlowState.Deliver | src/bdo_toolkit/_reassembly.py:291-301 | feeds exactly at next_sequence, advances by the length and clears the gap timer |
| Reassembly.TcpFlowState.ReleaseEarliest | src/bdo_toolkit/_reassembly.py:303-327 | removes the earliest held segment and feeds exactly its bytes beyond next_sequence, at next_sequence, or nothing |
| Reassembly.TcpFlowState.TakeOut | src/bdo_toolkit/_reassembly.py:311-320 | what the removed segment has beyond next_sequence is received and true, and nothing else changes |
| Reassembly.TcpFlowState.GiveUpTo | src/bdo_toolkit/_reassembly.py:363-389 | one reset, one report, one skip, and no position of the skip had been received |
| Reassembly.TcpFlowState.FlushPending | src/bdo_toolkit/_reassembly.py:303-327 | afterwards everything held starts beyond next_sequence and the timer restarts at the earliest held capture time; the result is the flush of the model |
| Reassembly.TcpFlowState.StepOverGap | src/bdo_toolkit/_reassembly.py:377-389 | resets the scanner once, reports the resume position once and records exactly the skipped range |
| Reassembly.TcpFlowState.ResumeAfterGap | src/bdo_toolkit/_reassembly.py:377-389 | moves forward strictly, holds strictly less, one reset and one report |
| Reassembly.TcpFlowState.ScanPassed | src/bdo_toolkit/_reassembly.py:247-263 | shows the scanner the bytes at their own position without moving the stream |
| Reassembly.TcpFlowState.HoldBeyondGap | src/bdo_toolkit/_reassembly.py:266-274 | keeps the longer segment per position and starts the gap timer only if none runs |
| Reassembly.TcpFlowState.DeliverInOrder | src/bdo_toolkit/_reassembly.py:287-289 | receives, feeds and then drains everything connected |
| Reassembly.TcpFlowState.StartFinGapTimerIfNeeded | src/bdo_toolkit/_reassembly.py:104-118 | the FIN timer starts at the FIN observation, only with an origin, nothing held and bytes missing before FIN |
| Reassembly.TcpFlowState.ResumeAfterFinGap | src/bdo_toolkit/_reassembly.py:363-375 | skips to FIN with one reset and one report exactly when the stream is short of it |
| Reassembly.TcpFlowState.ServiceHeldGaps | src/bdo_toolkit/_reassembly.py:329-361 | no expired gap is left; every skip is for a timer that had run out at the given time |
| Reassembly.TcpFlowState.ServiceFinGap | src/bdo_toolkit/_reassembly.py:329-361 | no expired FIN gap is left, and at most one reset is made for it |
| Reassembly.TcpFlowState.RestoreCapacity | src/bdo_toolkit/_reassembly.py:276-286 | terminates with both limits met, skipping for capacity only |
| Reassembly.TcpFlowState.AddBeyondGap | src/bdo_toolkit/_reassembly.py:266-286 | a segment beyond a gap is held unless a limit or the clock forces gaps to be given up |
| Reassembly.TcpFlowState.DropPassed | src/bdo_toolkit/_reassembly.py:240-264 | exactly the bytes before next_sequence are dropped, and shown to the scanner on request |
| Reassembly.TcpFlowState.AddUpToNext | src/bdo_toolkit/_reassembly.py:240-289 | a segment that starts at or before next_sequence is passed over or fed, with the exact received set |
| Reassembly.TcpFlowState.ServiceTimers | src/bdo_toolkit/_reassembly.py:329-361 | both timers are serviced, and the count returned is the number of reports |
| Reassembly.TcpFlowState.AddAnchoredSegment | src/bdo_toolkit/_reassembly.py:233-289 | where a segment of an anchored flow goes: passed, fed in order, or held beyond a gap, in all three cases with the exact received set |
| Reassembly.TcpFlowState.CommitItem | src/bdo_toolkit/_reassembly.py:219-227 | one provisional segment is routed from its own sequence number, without retransmission scan, with the exact received set |
| Reassembly.TcpFlowState.FixOrigin | src/bdo_toolkit/_reassembly.py:211-227 | the origin is the given sequence or the earliest held byte, and held positions keep their place |
| Reassembly.TcpFlowState.TracksOneMore | src/bdo_toolkit/_reassembly.py:219-227 | taking in the next item keeps received equal to the items so far, up to what was given up because of FIN |
| Reassembly.TcpFlowState.TakeIn | src/bdo_toolkit/_reassembly.py:219-227 | the whole run of a commit: where it ends, what it gives up, and that received is exactly what was held from the origin on and not given up because of FIN |
| Reassembly.TcpFlowState.CommitUnanchored | src/bdo_toolkit/_reassembly.py:211-231 | one-way; settles on the given or the earliest origin; held and received differ exactly by what lies before the origin and what was given up because of FIN; everything from the origin on is received if and only if the guard of losing to FIN fails, known before the commit |
| Reassembly.TcpFlowState.CommitEarliest | src/bdo_toolkit/_reassembly.py:211-231 | from the earliest held byte nothing lies before the origin: received is exactly what was held for good, and that is everything if and only if the guard of losing to FIN fails |
| Reassembly.TcpFlowState.FinOverrunLosesBytes | src/bdo_toolkit/_reassembly.py:211-231 | a flow that holds such segments loses every byte of the last one |
| Reassembly.TcpFlowState.ServiceGaps | src/bdo_toolkit/_reassembly.py:329-361 | a provisional holding is left as it is until 0.25 s after its first segment came, and from then on committed to the earliest held byte; no timer of 1.5 s is left expired; the count is the growth of the reports less what the commit gave up, a number known before; the commit loses no byte held for good, and none at all if and only if the guard of losing to FIN fails |
| Reassembly.TcpFlowState.SilentCommits | src/bdo_toolkit/_reassembly.py:329-361 | the commit gives up nothing, so that the count is the number of resets made, if and only if at no item a limit is exceeded beyond a gap or, without deferred timeouts, the gap timer has run out |
| Reassembly.TcpFlowState.DeferredCommitIsSilent | src/bdo_toolkit/_reassembly.py:329-361 | with deferred timers and a provisional holding within its limits that number is 0, so the count is exact |
| Reassembly.TcpFlowState.JudgeArrival | src/bdo_toolkit/_reassembly.py:135-155 | a provisional arrival extends the believed stream exactly by its own positions |
| Reassembly.TcpFlowState.HoldProvisionally | src/bdo_toolkit/_reassembly.py:135-155 | keeps the longest segment per sequence number and starts the grace period once |
| Reassembly.TcpFlowState.CommitIfConvincing | src/bdo_toolkit/_reassembly.py:135-155 | commits if and only if the scanner vouches for the probe or a limit is exceeded, and then to the earliest held byte |
| Reassembly.TcpFlowState.AddUnanchoredSegment | src/bdo_toolkit/_reassembly.py:135-155 | held, or committed if and only if what is then held is convincing; in both cases the flow has exactly what it had and the arriving bytes, up to what FIN lets it lose |
| Reassembly.TcpFlowState.AnchorSequence | src/bdo_toolkit/_reassembly.py:71-83 | an origin already known is left alone; otherwise it is exactly the given sequence number, and everything held from there on is received if and only if the guard of losing to FIN fails |
| Reassembly.TcpFlowState.AcceptedAbsorbs | src/bdo_toolkit/_reassembly.py:85-95 | on a flow without an origin a true segment adds exactly its positions and nothing is lost, unless a commit of what is then held loses something to FIN |
| Reassembly.TcpFlowState.AnchoredAbsorbs | src/bdo_toolkit/_reassembly.py:85-95 | on a flow with an origin a true segment adds exactly its positions not passed yet |
| Reassembly.TcpFlowState.AddSegment | src/bdo_toolkit/_reassembly.py:85-95 | the contract of one arrival in every state: positions received, bytes fed, segments held, commit decided, origin chosen, limits kept |
| Reassembly.TcpFlowState.MarkFin | src/bdo_toolkit/_reassembly.py:97-102 | remembers FIN and starts the FIN timer only in the state that needs it |
| Reassembly.TcpFlowState.WithinLimits | src/bdo_toolkit/_reassembly.py:157-167 | no state ever holds more segments or bytes than its limits allow, behind a gap or before the origin is known |
| Reassembly.TcpFlowState.StaysConserved | src/bdo_toolkit/_reassembly.py:329-403 | timers and finishing lose nothing the flow has, with the same proviso on FIN |
| Reassembly.TcpFlowState.Finish | src/bdo_toolkit/_reassembly.py:391-403 | afterwards nothing is held, a known stream reaches FIN, everything held for good is received, which is everything held if and only if the guard of losing to FIN fails, and every received position was fed |
| Reassembly.TcpFlowState.CloseOut | src/bdo_toolkit/_reassembly.py:391-403 | every remaining gap is resumed over, then FIN is accounted for |
| Reassembly.TcpFlowState.NothingHeldIsConserved | src/bdo_toolkit/_reassembly.py:391-403 | with nothing held every passed position was either fed or given up |
| Reassembly.TcpFlowState.FedIsThePrefix | src/bdo_toolkit/_reassembly.py:85-95 | until a gap is given up, the fed bytes are the stream from the anchor to the first missing position |
| Reassembly.TcpFlowState.ArrivalOrderNeverMatters | src/bdo_toolkit/_reassembly.py:85-95 | two flows of one stream with one origin and the same received positions have fed the same bytes, whatever the order, overlap and duplication |
| Reassembly.TcpFlowState.CallsAreOwn | src/bdo_toolkit/_reassembly.py:291-301 | every call on the scanner names the flow and generation of its own state |
| Reassembly.TcpFlowState.CallsAreLocated | src/bdo_toolkit/_reassembly.py:247-252 | every call on the scanner comes with its position in the stream |
| Reassembly.TcpFlowState.ResetsAreReported | src/bdo_toolkit/_reassembly.py:363-389 | every scanner reset was reported to on_gap_reset, restarts aside |
| Reassembly.TcpFlowState.Restart | src/bdo_toolkit/_reassembly.py:62-69 | reset forgets the stream and resets the scanner once |
| ArrivalOrder.ArrivesNext | src/bdo_toolkit/_reassembly.py:85-95 | while nothing was given up, a true segment within a quarter of the sequence space of the origin is near enough to be placed, however far the stream has come |
| ArrivalOrder.AddEach | src/bdo_toolkit/_reassembly.py:85-95 | over any sequence of segments at a flow with an origin: unless a gap was given up, received is exactly the union of their positions from the origin on |
| ArrivalOrder.UntilOrigin | src/bdo_toolkit/_reassembly.py:329-343 | over any sequence of segments and clock ticks at a flow whose beginning was not captured: a tick fixes the origin if and only if it comes 0.25 s or more after the first bytes, and nothing is fed before |
| ArrivalOrder.OnlyPositionsMatter | src/bdo_toolkit/_reassembly.py:85-95 | two such sequences that cover the same positions, permuted, cut differently or repeated, make two flows feed the same bytes |
| FlowManagement.ResetsWithout | src/bdo_toolkit/_reassembly.py:482-497 | the total of scanner resets splits off any one state exactly |
| FlowManagement.AdmitSyn | src/bdo_toolkit/_reassembly.py:620-636 | SYN makes the byte after it the origin, and its own payload the first thing fed; with a true payload the flow has just its positions |
| FlowManagement.AdmitPayload | src/bdo_toolkit/_reassembly.py:624-636 | later payload reaches the state under its own flow and generation, at its own sequence number; true payload adds exactly its timely positions |
| FlowManagement.OutlivesFurther | src/bdo_toolkit/_reassembly.py:499-529 | that a state lost nothing over one stretch and then over another means that it lost nothing over both |
| FlowManagement.Service | src/bdo_toolkit/_reassembly.py:499-513 | advancing the timers of a flow loses nothing it has |
| FlowManagement.Close | src/bdo_toolkit/_reassembly.py:514-518 | finishing a flow that is closed loses nothing it has, and leaves nothing held |
| FlowManagement.FlowManager.Create | src/bdo_toolkit/_reassembly.py:409-462 | exactly the configurations with positive bounds give a manager |
| FlowManagement.FlowManager.Open | src/bdo_toolkit/_reassembly.py:464-480 | a new state has a fresh generation and is the most recently active flow |
| FlowManagement.FlowManager.Retire | src/bdo_toolkit/_reassembly.py:516-518 | finish comes before the close notification, the reset counter takes in what finish reported, and nothing the flow had is lost |
| FlowManagement.FlowManager.Touch | src/bdo_toolkit/_reassembly.py:617-619 | an observed packet moves its flow behind all others |
| FlowManagement.FlowManager.MakeRoom | src/bdo_toolkit/_reassembly.py:597-612 | the evicted flow is the first one; a SYN closes the previous connection of its key; whichever is closed loses nothing it had |
| FlowManagement.FlowManager.Begin | src/bdo_toolkit/_reassembly.py:597-636 | a new connection leaves every other flow untouched, and the one that made room keeps what it had |
| FlowManagement.FlowManager.Continue | src/bdo_toolkit/_reassembly.py:617-636 | a known flow keeps its state and takes the packet |
| FlowManagement.FlowManager.Conclude | src/bdo_toolkit/_reassembly.py:638-660 | a flow is closed exactly on RST or with every byte up to FIN contiguous, otherwise FIN is remembered at its own sequence number |
| FlowManagement.FlowManager.RouteKnown | src/bdo_toolkit/_reassembly.py:617-660 | FIN and closing packets included: the payload is placed, and the flow, active or just closed, has what it had and what the payload adds |
| FlowManagement.FlowManager.RouteNew | src/bdo_toolkit/_reassembly.py:597-660 | a flow begun by the packet, active or closed at once, stands in the true stream and has just its payload; the flow displaced by it loses nothing |
| FlowManagement.FlowManager.ProcessPacket | src/bdo_toolkit/_reassembly.py:563-660 | the whole packet, in terms of port, key, flags and payload: nothing changes for a foreign port, or an unknown key without payload and SYN; any other packet, a bare ACK, FIN or RST of a known flow included, makes its flow the most recent one, closes it on RST or with every byte up to FIN, or remembers its FIN; the oldest flow gives way only if all slots are taken, loses nothing, and no other flow is touched |
| FlowManagement.FlowManager.ServiceEach | src/bdo_toolkit/_reassembly.py:508-513 | no timer is expired at the given time, the FIN timer included, exactly the flows that reached FIN are named, and no flow loses anything it had |
| FlowManagement.FlowManager.RetireAll | src/bdo_toolkit/_reassembly.py:514-518 | exactly the named flows are closed, in order, losing nothing, the rest untouched |
| FlowManagement.FlowManager.Expired | src/bdo_toolkit/_reassembly.py:519-525 | exactly the flows idle for the timeout or longer are named |
| FlowManagement.FlowManager.ServiceGaps | src/bdo_toolkit/_reassembly.py:499-529 | returns exactly how often scanners were reset, those of flows closed here included; no flow left has an expired timer, has reached its FIN or was idle for the timeout, and each closed one had or was; no flow, left or closed, loses its place in the stream or anything it had |
| FlowManagement.FlowManager.Finish | src/bdo_toolkit/_reassembly.py:662-668 | every active flow is finished and then closed, in order, and none loses anything it had |
| FlowManagement.FlowManager.EvictsLeastRecentlyActive | src/bdo_toolkit/_reassembly.py:597-607 | the evicted flow was last touched before every other active one |
| FlowManagement.FlowManager.CallsNameTheirState | src/bdo_toolkit/_reassembly.py:464-480 | with tracked generations no two states ever make a call under the same generation |
| CapturePath.ManagedFramesAreTheStreams | src/bdo_toolkit/_reassembly.py:563-660 | every frame cut from a managed flow of true segments is its stream at the stated place and, if assembled from feeds, spans nothing given up |
| CapturePath.ClosedFlowsAreConserved | src/bdo_toolkit/_reassembly.py:514-518 | of a closed flow, what it received is what its scanner was fed, and the rest of what it passed was given up |
| CapturePath.SurvivorsKeepTheirBytes | src/bdo_toolkit/_reassembly.py:499-529 | after a clock tick, a close, an eviction, a replacement or the end of the capture a flow that only saw true segments still stands in its stream and has exactly what it had |
| CapturePath.ClosedFlowsWereFed | src/bdo_toolkit/_reassembly.py:514-518 | what a flow had when it was closed, for whatever reason, is exactly what its scanner was fed in the end |
| CapturePath.ManagedRecordsAreTheStreams | src/bdo_toolkit/_reassembly.py:563-660 | every record and verdict of a managed flow of true segments is about its stream's own message at the stated place; one assembled from feeds touches nothing given up |
| CapturePath.DecodedRecordsAreLocated | src/bdo_toolkit/_reassembly.py:247-301 | every record decoded from a managed flow has a place in its stream |
| FrameCollector.AnchoringMatchesScanning | src/bdo_toolkit/_framing.py:359-379 | what may anchor a stream is what the search accepts at its start, completed |
| FrameCollector.Bounded | src/bdo_toolkit/_framing.py:501-505 | while unsynchronized exactly the newest bytes up to the bound are kept |
| FrameCollector.FrameCollectorScanner.FindSynchronizationCandidate | src/bdo_toolkit/_framing.py:465-499 | finds the earliest acceptable boundary |
| FrameCollector.FrameCollectorScanner.Synchronized | src/bdo_toolkit/_framing.py:440-452 | stands at the earliest trusted boundary, or keeps a bounded tail |
| FrameCollector.FrameCollectorScanner.ScanBuffer | src/bdo_toolkit/_framing.py:428-463 | the in-place loop emits exactly the frames of one functional scan |
| FrameCollector.FrameCollectorScanner.Feed | src/bdo_toolkit/_framing.py:381-387 | appending and scanning is the functional feed, empty data aside |
| FrameCollector.FrameCollectorScanner.ScanStandalone | src/bdo_toolkit/_framing.py:389-417 | bytes scanned apart leave the stream position alone and frame only what precedes the framed part |
| Framing.ScanCuts | src/bdo_toolkit/_framing.py:428-463 | from a boundary, well-formed frames and a partial one come out exactly |
| Framing.CutFalls | src/bdo_toolkit/_framing.py:381-463 | wherever a chunk ends, it ends inside at most one frame |
| Framing.FeedOne | src/bdo_toolkit/_framing.py:381-387 | one chunk completes exactly the frames it closes |
| Framing.RoundTripInAnyChunking | src/bdo_toolkit/_framing.py:381-463 | from a synchronized boundary any chunking of well-formed frames emits exactly those frames, with cumulative stream_sequence values, and keeps only the last partial one |
| Pipeline.ScanIsTrue | src/bdo_toolkit/_framing.py:428-463 | every frame of a scan of true bytes is the stream slice at its stream_sequence |
| Pipeline.FeedIsTrue | src/bdo_toolkit/_framing.py:381-387 | after each feed the buffer is the tail of what was fed since the last reset |
| Pipeline.ApartIsTrue | src/bdo_toolkit/_framing.py:389-417 | frames from retransmissions are true and end before the part already framed |
| Pipeline.ReplayIsTrue | src/bdo_toolkit/_framing.py:353-463 | over every faithful log of feeds, retransmissions and resets each frame is true and comes from one run of feeds or one retransmission |
| Pipeline.EveryFrameIsTheStreams | src/bdo_toolkit/_framing.py:353-463 | reassembly and framing composed: every emitted frame equals the true stream at its position, and a frame assembled from feeds touches no skipped range |
| Recovery.MidStream | src/bdo_toolkit/_framing.py:428-499 | without a boundary, behind bytes that offer none, messages with evidence of one come out exactly: a known opcode, a second whole message, or nothing but one message |
| Recovery.KeepsWaiting | src/bdo_toolkit/_framing.py:428-505 | without evidence of a boundary nothing is emitted and up to 65539 bytes, the newest ones, are kept |
| Recovery.AfterImpossibleLength | src/bdo_toolkit/_framing.py:442-446 | where a trusted boundary has an impossible length the search for one starts again at the next byte |
| Recovery.FramedFromFirst | src/bdo_toolkit/_framing.py:353-440 | over any log of calls the framed part of the stream begins at the first frame cut from it since the last reset, and there is none before that |
| Recovery.LateBytes | src/bdo_toolkit/_framing.py:389-417 | bytes shown apart yield exactly what a fresh scanner cuts from those of them before the framed part, and leave the scanner where it is |
| Recovery.LateMessages | src/bdo_toolkit/_framing.py:353-417 | whole messages of a range that was given up are recovered when they come late, after any log of calls |
| Pipeline.FedIsNotSkipped | src/bdo_toolkit/_reassembly.py:363-389 | what was fed was never skipped |
| RecordGeometry.StrideSolvesTheTiling | src/bdo_toolkit/_record_geometry.py:10-19 | a stride is found exactly when a positive one solves length = single + (count - 1) * stride, and then it is that one |
| RecordGeometry.UniformIsArithmetic | src/bdo_toolkit/_record_geometry.py:22-29 | uniform spacing means an arithmetic progression |
| RecordGeometry.FieldsStayInTheirRecords | src/bdo_toolkit/_record_geometry.py:32-39 | a field that fits the first record lies in its own disjoint window of the message in every record |
| Decoder.SearchDeclaredInventoryDeltas | src/bdo_toolkit/_framing.py:104-179 | the column search accepts exactly when all viable columns declare one geometry |
| Decoder.SnapshotNeedsOneGeometry | src/bdo_toolkit/_framing.py:104-179 | a character-load wrapper is accepted if and only if its viable count columns imply exactly one geometry |
| Decoder.AcceptedGeometryTiles | src/bdo_toolkit/_framing.py:122-179 | an accepted geometry tiles the message, with every item, quantity and instance inside its own window |
| MessageDecoder.SearchRecordOffsets | src/bdo_toolkit/_framing.py:278-290 | the marker search finds exactly the self-validating records, in order |
| MessageDecoder.StructuralRecordsAreSpaced | src/bdo_toolkit/_framing.py:253-312 | accepted structural records start at the calibrated first one, are evenly spaced and never overlap |
| MessageDecoder.TiledIsFound | src/bdo_toolkit/_framing.py:253-312 | if the self-validating records of a message are spaced evenly from the calibrated one on and tile it, they are all found |
| MessageDecoder.StructuralIsTiled | src/bdo_toolkit/_framing.py:253-312 | and a structural search accepts no other message |
| DecodedFields.MarkedIsRecord | src/bdo_toolkit/_framing.py:44-69 | a place looks like a transfer record if and only if an item, a quantity, the marker and an instance are written there |
| DecodedFields.MarkedRoundTrip | src/bdo_toolkit/_framing.py:753-935 | of a message whose marked records are these and no others each is decoded, with every field it was written with |
| DecodedFields.ColumnIsViable | src/bdo_toolkit/_framing.py:104-179 | which bytes declare a snapshot geometry, solved for the number of records and their distance |
| DecodedFields.SnapshotRoundTrip | src/bdo_toolkit/_framing.py:104-179 | if all declaring bytes agree, every item of a character load is decoded with every field, quantities in eight bytes |
| DecodedFields.LengthIsConfigured | src/bdo_toolkit/_framing.py:315-325 | the lengths a configured layout admits are the single-record one and, with a stride, those any number of strides longer |
| DecodedFields.ConfiguredRoundTrip | src/bdo_toolkit/_framing.py:786-825 | a layout without structure is read at its configured places, as far as whole records fit, with every field |
| Batches.ValidatedBatch | src/bdo_toolkit/_framing.py:829-880 | a validated batch decodes completely, partly or not at all, and which of the three is decided by the ends of its first and last record |
| Batches.ValidatedFieldsFit | src/bdo_toolkit/_framing.py:152-167 | validated fields never cut a batch |
| Specs.TransferLayout | src/bdo_toolkit/_specs.py:168-198 | a transfer entry is accepted if and only if its fields end inside its messages, and its layout has each field where the entry says |
| Specs.StorageLayout | src/bdo_toolkit/_specs.py:200-236 | the same for a storage entry, whose destination and count must lie before the first item |
| Specs.LayoutsAreBuilt | src/bdo_toolkit/_specs.py:168-236 | whatever the entry, a layout made of it holds each configured field within its minimum length, and its single record is no shorter |
| Batches.BuiltFieldsFit | src/bdo_toolkit/_framing.py:104-167 | so every configured field of the last declared record ends inside the message |
| Batches.StorageBatch | src/bdo_toolkit/_framing.py:182-250 | a storage wrapper yields no event or, with every layout the toolkit builds, exactly the declared count; with a layout built by hand that is so if and only if no unvalidated field cuts the batch |
| Batches.SnapshotBatch | src/bdo_toolkit/_framing.py:104-179 | the same for a character-load wrapper |
| BatchRoundTrip.RecordReads | src/bdo_toolkit/_framing.py:72-101 | each record reads back the item, quantity and instance written into it |
| BatchRoundTrip.WrapperGeometry | src/bdo_toolkit/_framing.py:182-238 | a wrapper written record by record declares its own geometry |
| BatchRoundTrip.StorageRoundTrip | src/bdo_toolkit/_framing.py:746-935 | a wrapper written record by record decodes to exactly those items, in order and numbered, with layout, length and destination of the message |
| TargetStream.LeftmostStays | src/bdo_toolkit/_framing.py:588-659 | more bytes never move the leftmost header |
| TargetStream.CompleteStays | src/bdo_toolkit/_framing.py:586-735 | more bytes never change what a complete message decodes to |
| TargetStream.ScanSkips | src/bdo_toolkit/_framing.py:635-647 | bytes before any header never matter, if a split header is kept |
| TargetStream.ScanSplits | src/bdo_toolkit/_framing.py:556-562 | scanning a prefix and then its rest with more is scanning it all |
| TargetStream.ChunkingIsIrrelevant | src/bdo_toolkit/_framing.py:556-735 | any chunking of a contiguous stream leaves the same buffer and emits the same messages and records |
| TargetStream.FeedsJoin | src/bdo_toolkit/_framing.py:556-562 | two feeds of consecutive chunks leave the scanner, its position and its outputs as one feed of both does |
| TargetStream.ReplayIsLocated | src/bdo_toolkit/_framing.py:556-735 | over calls that name their place, every record and verdict has a stream position |
| StreamRoundTrip.SingleIsReported | src/bdo_toolkit/_framing.py:661-735 | a message that a single layout decodes is consumed and each of its records reported, in order, after the verdict |
| StreamRoundTrip.AmbiguousIsSilent | src/bdo_toolkit/_framing.py:692-735 | of a message that several layouts decode no record is reported, and it is not consumed |
| StreamRoundTrip.UndecodedIsTold | src/bdo_toolkit/_framing.py:692-735 | a message of a storage layout that none decodes is reported as such and not consumed |
| StreamRoundTrip.FalseMessageIsSteppedInto | src/bdo_toolkit/_framing.py:692-735 | behind the header of a message that no single layout decodes the scan goes on with the very next byte |
| StreamRoundTrip.StreamIsReported | src/bdo_toolkit/_framing.py:586-735 | a scan of a stream of written wrappers reports each of their items, in order and at its place, and keeps nothing |
| StreamRoundTrip.Receive | src/bdo_toolkit/_framing.py:556-735 | however that stream is cut into chunks, the scanner fed with them reports exactly the items |
| TargetPipeline.ScanIsTrue | src/bdo_toolkit/_framing.py:586-735 | a scan of true bytes reports only whole messages of the stream, at their places, with records a configured layout decodes from them, and keeps the end of the bytes |
| TargetPipeline.HandledIsTrue | src/bdo_toolkit/_framing.py:670-735 | every record reported for a message is one that a configured layout decodes from just that message |
| TargetPipeline.ReplayIsTrue | src/bdo_toolkit/_framing.py:556-735 | over every faithful log of feeds, retransmissions and resets all that is reported is true of the stream and comes from one run of feeds or one retransmission |
| TargetPipeline.EveryRecordIsTheStreams | src/bdo_toolkit/_framing.py:556-735 | reassembly and target scan composed: every record and verdict is about the true stream's message at its position, and one assembled from feeds touches no skipped range |
| StreamRoundTrip.ReceiveLate | src/bdo_toolkit/_framing.py:564-575 | wrappers that come late, apart from the stream, are reported just so, whatever is buffered |
| TargetScanner.GroupBySignature | src/bdo_toolkit/_framing.py:511-527 | layouts are grouped by header signature without loss or reordering |
| TargetScanner.SearchGroup | src/bdo_toolkit/_framing.py:593-633 | per signature the earliest complete and incomplete headers are found |
| TargetScanner.Search | src/bdo_toolkit/_framing.py:588-659 | the search over signatures finds the leftmost header and exactly the layouts that match there |
| TargetScanner.DecodeAll | src/bdo_toolkit/_framing.py:670-690 | every layout at the header is tried |
| TargetScanner.TargetMessageScanner.constructor | src/bdo_toolkit/_framing.py:511-527 | a new scanner holds the grouped layouts and nothing else |
| TargetScanner.TargetMessageScanner.CanAnchorAtStart | src/bdo_toolkit/_framing.py:533-554 | true exactly when some configured header occurs |
| TargetScanner.TargetMessageScanner.HandleMessage | src/bdo_toolkit/_framing.py:692-735 | a message is consumed exactly when one layout proves its geometry |
| TargetScanner.TargetMessageScanner.ScanOnce | src/bdo_toolkit/_framing.py:586-735 | one round acts on the leftmost header and discards exactly what it settled |
| TargetScanner.TargetMessageScanner.ScanBuffer | src/bdo_toolkit/_framing.py:586-735 | the in-place loop is the functional scan |
| TargetScanner.TargetMessageScanner.Feed | src/bdo_toolkit/_framing.py:556-562 | buffer, position and outputs after a feed are those of the functional feed, so that chunks join |
| TargetScanner.TargetMessageScanner.ScanStandalone | src/bdo_toolkit/_framing.py:564-575 | bytes scanned apart report what they hold and leave buffer and position alone |
| Hydration.EnoughStays | src/bdo_toolkit/_storage_hydration.py:139-150 | one more record never takes the proof of a snapshot back |
| Hydration.GrownIsCoherent | src/bdo_toolkit/_storage_hydration.py:104-133 | a record that joins keeps its burst of one key and opcode, gaps within 0.5 s, span within 1 s, inside the epoch if anchored |
| Hydration.JoiningIsSound | src/bdo_toolkit/_storage_hydration.py:122-158 | after a record joins, delivered and pending are still the bursts in order, each wholly promoted or wholly neutral |
| Hydration.FlushIsSound | src/bdo_toolkit/_storage_hydration.py:205-213 | an unproven burst is handed on neutral as a whole, without effect on other keys |
| Hydration.InventoryIsSound | src/bdo_toolkit/_storage_hydration.py:64-77 | more inventory evidence takes nothing back |
| Hydration.JoinIsSound | src/bdo_toolkit/_storage_hydration.py:104-158 | the same for all keys at once |
| Hydration.StorageHydrationTracker.FlushKey | src/bdo_toolkit/_storage_hydration.py:205-213 | exactly the pending events of one key are queued, in order |
| Hydration.StorageHydrationTracker.Stage | src/bdo_toolkit/_storage_hydration.py:104-158 | the record joins the open burst exactly when gap, span, order, anchoring and opcode allow; exactly the proven or overflowing burst is released |
| Hydration.StorageHydrationTracker.ObserveInventory | src/bdo_toolkit/_storage_hydration.py:64-77 | a new inventory generation ends the open burst and opens an epoch; the same generation only extends it |
| Hydration.StorageHydrationTracker.ObserveLive | src/bdo_toolkit/_storage_hydration.py:82-101 | live evidence retires burst and epoch unless they are newer than the event |
| Hydration.StorageHydrationTracker.ObserveStorage | src/bdo_toolkit/_storage_hydration.py:79-159 | neutral records are staged, everything else passes through at once |
| Hydration.StorageHydrationTracker.FlushStale | src/bdo_toolkit/_storage_hydration.py:161-178 | exactly the bursts past their gap and the epochs past 30 s are retired |
| Hydration.StorageHydrationTracker.CloseFlow | src/bdo_toolkit/_storage_hydration.py:180-195 | nothing of the closed flow stays behind, and nothing else changes |
| Hydration.StorageHydrationTracker.FinalizeAll | src/bdo_toolkit/_storage_hydration.py:197-203 | nothing is pending afterwards |
| Hydration.StorageHydrationTracker.StorageKeepsItsOrder | src/bdo_toolkit/_storage_hydration.py:104-159 | storage records of one key come out in the order observed |
| Hydration.StorageHydrationTracker.EverythingComesOutOnce | src/bdo_toolkit/_storage_hydration.py:64-213 | with nothing pending, the emitted events are the observed ones, each exactly once |
| Hydration.StorageHydrationTracker.SnapshotsAreProven | src/bdo_toolkit/_storage_hydration.py:137-151 | every promoted record belongs to a burst of one opcode within one second with at least 8 destinations, or 17 and a record count of at least 8 when unanchored |
| Hydration.StorageHydrationTracker.EmittedAreClassified | src/bdo_toolkit/_storage_hydration.py:137-151 | what is emitted for a neutral record has kind storage_snapshot and no source, and all else as observed, if its burst has at least 8 different destinations inside an epoch, or 17 and a record count of 8 outside; otherwise it is the record observed, and any other event comes out as it was |
| Hydration.StorageHydrationTracker.RecordsAreEmitted | src/bdo_toolkit/_storage_hydration.py:137-151 | and each record of each burst of a key with nothing pending was emitted so |
| Hydration.ObserveBurst | src/bdo_toolkit/_storage_hydration.py:104-159 | records of one key and opcode at most 0.5 s apart and within 1 s end up in one burst: with that evidence all are emitted as snapshots, in order, without it none yet |
| Hydration.StorageHydrationTracker.BurstsComeOutWhole | src/bdo_toolkit/_storage_hydration.py:135-159 | what a key delivers is its bursts one after the other, each entirely snapshots or entirely neutral, promoted if and only if proven |
| Outbox.StepKeepsOneDispatcher | src/bdo_toolkit/_storage_hydration.py:225-241 | at most one thread holds the role, and the flag says whether one does |
| Outbox.StepKeepsOrder | src/bdo_toolkit/_storage_hydration.py:225-237 | emitted, in hand and outbox are together what was queued, in order |
| Outbox.StepForgetsNone | src/bdo_toolkit/_storage_hydration.py:225-241 | a queued event always has someone who will see to it, failed callbacks aside |
| Outbox.RunKeepsSound | src/bdo_toolkit/_storage_hydration.py:222-241 | all of this over every interleaving of any number of threads and re-entrant calls |
| Outbox.OneDispatcherAlways | src/bdo_toolkit/_storage_hydration.py:225-241 | at most one thread dispatches |
| Outbox.EmittedInQueueOrder | src/bdo_toolkit/_storage_hydration.py:225-237 | events leave in queue order, none twice, none left out |
| Outbox.QuietMeansEmpty | src/bdo_toolkit/_storage_hydration.py:225-241 | with no thread inside and no callback failed the outbox is empty |
| Outbox.QuietLeavesExactly | src/bdo_toolkit/_storage_hydration.py:225-241 | with no thread inside, raised or not, queued is emitted and outbox together, and the outbox is exactly what the last dispatcher left |
| Outbox.RaisingLeavesEvents | src/bdo_toolkit/_storage_hydration.py:238-241 | a callback that raises can leave events queued with nobody inside |
| InventoryBoundary.DecideIsSound | src/bdo_toolkit/capture.py:494-544 | what is released or accepted is a top-level wrapper or exactly abuts another |
| InventoryBoundary.DecisionInOrder | src/bdo_toolkit/capture.py:494-544 | releases never repeat a record or overtake a waiting one |
| InventoryBoundary.RunIsSound | src/bdo_toolkit/capture.py:467-544 | over any run: released at most once, proven, in input order per key among placed records; an accepted state holds no records; at most 64 cohorts |
| InventoryBoundary.ReleasedAtMostOnce | src/bdo_toolkit/capture.py:467-544 | no record is released twice, and every released wrapper is proven |
| InventoryBoundary.InventoryBoundaries.RecordsReady | src/bdo_toolkit/capture.py:467-544 | the in-place update of the ordered dictionary is one step of the model |
| InventoryBoundary.InventoryBoundaries.Put | src/bdo_toolkit/capture.py:532-544 | the touched entry goes last and only the oldest give way |
| InventoryBoundary.InventoryBoundaries.Close | src/bdo_toolkit/capture.py:605-608 | a closed flow leaves no waiting records |
| InventoryBelief.ReleasesTheBelieved | src/bdo_toolkit/capture.py:467-544 | over any run: a placed record is released if and only if its block is believed: top-level somewhere in it, or abutting the remembered wrapper before or the next one after it |
| InventoryBelief.EarlierIsExact | src/bdo_toolkit/capture.py:494-544 | one input releases exactly the earlier records whose block becomes believed through it |
| InventoryBelief.NewestIsExact | src/bdo_toolkit/capture.py:494-544 | and the newest one exactly if its own block is believed by then |
| InventoryBelief.ReleasedInOrder | src/bdo_toolkit/capture.py:467-544 | when every record has a place, as reassembly gives it, records of one key are released in order of arrival |
| InventoryBelief.UnplacedIsReleasedAtOnce | src/bdo_toolkit/capture.py:467-493 | a record without a place in the stream is released at once if it is a top-level frame, and otherwise never |
| InventoryBelief.RunForgetsForCause | src/bdo_toolkit/capture.py:532-544 | a key is forgotten only if its flow was closed, all was finalized, or records of at least 64 other keys came since |
| LiveShutdown.StepKeepsFifo | src/bdo_toolkit/capture.py:1363-1422 | dequeued and queued items are the accepted packets in order, the one sentinel behind them |
| LiveShutdown.StepKeepsWorker | src/bdo_toolkit/capture.py:1385-1422 | the worker decodes in order, everything taken or everything up to the first failure |
| LiveShutdown.StepKeepsFinish | src/bdo_toolkit/capture.py:1551-1632 | engine.finish runs at most once, after capture and worker are over |
| LiveShutdown.RunKeepsSound | src/bdo_toolkit/capture.py:1363-1632 | all of this over every interleaving of callbacks, worker and stopping threads |
| LiveShutdown.FinishSeesEverything | src/bdo_toolkit/capture.py:1551-1632 | when engine.finish runs, native capture has stopped, the worker has ended, every accepted packet was dequeued before the single sentinel, and all were decoded unless one failed |
| LiveShutdown.StoppedIsFinal | src/bdo_toolkit/capture.py:1551-1632 | once stopped nothing is accepted, decoded or finished any more |
| LiveShutdown.DecodedInAcceptanceOrder | src/bdo_toolkit/capture.py:1385-1422 | at every moment the decoded packets are a prefix of the accepted ones |
| LiveShutdown.FullQueueRefuses | src/bdo_toolkit/capture.py:1363-1377 | a packet is refused and counted as an overflow exactly if the queue is full when it is put |
| LiveShutdown.OverflowRequestsStop | src/bdo_toolkit/capture.py:1363-1384 | over every interleaving an overflow or a decoder failure requests the stop, once and for all, and the queue never exceeds its capacity |
| LiveShutdown.EveryPacketIsAccounted | src/bdo_toolkit/capture.py:1363-1384 | each packet that came before a stop request is accepted, counted as an overflow or about to be put |
| LiveShutdown.NothingEntersAfterStop | src/bdo_toolkit/capture.py:1366-1367 | after a stop request no packet comes in |
| LiveDelivery.StepKeepsOrder | src/bdo_toolkit/capture.py:1287-1342 | an orderly step keeps returned, queue and tail together equal to what was taken, in order |
| LiveDelivery.DisorderShows | src/bdo_toolkit/capture.py:1326-1331 | a poll that takes from the tail past a queued event returns it in the wrong place |
| LiveDelivery.ReturnedInOrderIff | src/bdo_toolkit/capture.py:1287-1342 | events are returned in the order they were taken if and only if every poll that took from the tail found the queue still empty |
| LiveDelivery.PollsOutsideStopAreInOrder | src/bdo_toolkit/capture.py:1287-1342 | events are returned in the order they were taken if no poll is under way at the moment the session stops |
| LiveDelivery.NothingTakenIsLost | src/bdo_toolkit/capture.py:1501-1524 | every event taken is returned once or still queued or in the tail |
| LiveDelivery.QuietIsOrderly | src/bdo_toolkit/capture.py:1287-1342 | once finalizing with an empty queue and no put under way, every poll is orderly |
| LiveDelivery.TailOvertakes | src/bdo_toolkit/capture.py:1326-1331 | a run in which a finalized event is returned before a queued one |
| CountColumn.RecordsFromAreAll | src/bdo_toolkit/_calibration/_records.py:321-336 | the full record offsets are exactly the complete records, ascending |
| CountColumn.DiscoverStorageRecordCountOffset | src/bdo_toolkit/_calibration/_records.py:643-723 | a column is learned if and only if it is the only one holding the record count in every validated frame, over at least two different counts |
| CountColumn.NothingLeft | src/bdo_toolkit/_calibration/_records.py:708-709 | a column excluded by some frames is excluded by all, so giving up early is right |
| CountColumn.CountsAreTwo | src/bdo_toolkit/_calibration/_records.py:711-722 | the two-count requirement is about different counts, not frames |
| CountColumn.OrderNeverMatters | src/bdo_toolkit/_calibration/_records.py:643-723 | frame order and duplicates do not matter |
| CountColumn.AuthorityIsUnique | src/bdo_toolkit/_calibration/_records.py:715-723 | at most one column is authoritative |
| CountColumn.OffsetsAreStrides | src/bdo_toolkit/_calibration/_records.py:276-302 | validated offsets are the strides of the geometry the count implies |
| CountColumn.CalibratedIsDecoded | src/bdo_toolkit/_calibration/_records.py:339-362 | calibration takes for a record exactly what the decoder does, up to a quantity of a million |
| CountColumn.OffsetsAreRecords | src/bdo_toolkit/_calibration/_records.py:321-336 | the record places of a message are the marked ones, or without any the watched ones, in order |
| CountColumn.EvidenceIsProof | src/bdo_toolkit/_calibration/_records.py:676-700 | a frame proves a count if and only if just as many records begin at the calibrated place and follow at one distance, and without the further ones it has the single-record length |
| CountColumn.DecoderFindsTheSameRecords | src/bdo_toolkit/_framing.py:182-250 | on every marker-backed evidence frame the decoder finds exactly the offsets calibration found, if and only if header and fields fit the implied tiling, and nothing otherwise |
| DecrementShape.CountRecords | src/bdo_toolkit/_calibration/companions.py:293-321 | counts the records in a row from record zero |
| DecrementShape.RunIsShape | src/bdo_toolkit/_calibration/companions.py:293-345 | a valid shape is exactly as long as its run |
| DecrementShape.TryPhase | src/bdo_toolkit/_calibration/companions.py:287-345 | one phase yields its admissible shape, or has none |
| DecrementShape.CollectShapes | src/bdo_toolkit/_calibration/companions.py:278-345 | every admissible shape is found |
| DecrementShape.SourceStackRepeatedShape | src/bdo_toolkit/_calibration/companions.py:249-364 | a shape is returned if and only if it is valid and no other valid shape repeats as often |
| DecrementShape.ShapeTilesFrame | src/bdo_toolkit/_calibration/companions.py:323-345 | in a valid shape every record has quantity and instance at the same disjoint places of its own window |
| CompanionCache.StrongestFrom | src/bdo_toolkit/origin_learning.py:67-98 | the chosen token has the most distinct bytes, the earliest of those |
| CompanionCache.SearchSharedToken | src/bdo_toolkit/origin_learning.py:67-98 | the search with a running best is the strongest shared token |
| CompanionCache.PrefixDecidesToken | src/bdo_toolkit/origin_learning.py:67-98 | tokens come from the keyed prefix only |
| CompanionCache.CompanionsAreDiscovered | src/bdo_toolkit/origin_learning.py:152-212 | three frames are an observation if and only if each declares its own length, their opcodes differ pairwise, the prefix is 13 bytes or longer and within the delta, and eight of its bytes, six of them different, occur in both others; and what each of its fields is |
| CompanionCache.KeyDecides | src/bdo_toolkit/origin_learning.py:152-212 | discovery depends on the delta message only through its keyed prefix and length |
| CompanionCache.RightForAll | src/bdo_toolkit/_origin/discovery.py:37-48 | a remembered observation, restamped, is what any discovery under its key says |
| CompanionCache.CompanionDiscoveryCache.Discover | src/bdo_toolkit/_origin/discovery.py:24-74 | in every cache state the answer is that of a direct discovery; counter and both limits hold; a hit moves to the end |
| CompanionCache.CompanionDiscoveryCache.Remember | src/bdo_toolkit/_origin/discovery.py:59-73 | no more of the oldest entries go than the new one needs |
| CompanionCache.CompanionDiscoveryCache.Clear | src/bdo_toolkit/_origin/discovery.py:76-78 | nothing is remembered |
| CompanionCache.CompanionDiscoveryCache.IsBounded | src/bdo_toolkit/_origin/discovery.py:24-74 | at most 4096 entries are remembered, with keys of at most two mebibytes |
| RetentionWindow.LongestTailIsUnique | src/bdo_toolkit/_calibration/capture.py:546-564 | there is one longest tail within both limits |
| RetentionWindow.LongerStaysTooMuch | src/bdo_toolkit/_calibration/capture.py:546-564 | what was too much before one more frame is too much after it |
| RetentionWindow.RetainedFrames.Retain | src/bdo_toolkit/_calibration/capture.py:546-564 | the window is the longest tail of everything observed that fits both limits, and observed equals retained plus discarded in frames and bytes |
| RetentionWindow.RetainedFrames.Reset | src/bdo_toolkit/_calibration/capture.py:537-544 | a new session starts with an empty window and zero counters |

## Left out

- Capture backends, sockets, pcap files, command line, writers and formatting: foreign calls and user interface; native
  capture is a flag that says no callback runs any more.
- Profiles, remote fetch and atomic writes: input and output.
- Floating-point rounding and real clocks: times are exact reals.
- Locks of `FlowManager` and the calibration session: their methods are modelled one at a time, as the locks make them.
- Callback exceptions in reassembly and framing, and logging inside callbacks.
- FrameCollector.Scan: depends on chunk boundaries while unsynchronized, as the code does; the chunk theorem starts at a synchronized boundary.
- Reassembly.TcpFlowState.CommitUnanchored: says nothing about the received set if a FIN whose timer can run out lies half the sequence space or more from a held segment: its sequence number then names no one place.
- ArrivalOrder.AddEach: is about a flow whose origin is known and segments within a quarter of the sequence space of it; before an origin is known the union of positions is `AddSegment`'s own contract.
- Specs.LayoutsAreBuilt: the gathering layout, which has no declared batches, and profile parsing are not modelled.
- Hydration.StorageHydrationTracker.FlushStale: the order in which different keys are flushed is not modelled, because only the order within a key is promised.
- Hydration.StorageHydrationTracker.DrainOutbox: one thread without re-entry; the protocol itself is `Outbox`.
- Hydration.StorageHydrationTracker.ObserveInventory: takes no neutral storage record, as its only caller (src/bdo_toolkit/capture.py:452-453) sends inventory snapshots.
- DecrementShape.CollectShapes: takes a four-byte quantity, the width its caller encodes.
- FlowManagement.FlowManager.ServiceGaps: the reset counter is brought up to date after each call on a state rather than inside it, because no one can look in between under the lock.
- LiveShutdown.Step: the rollback of a failed start and the clock service of an idle worker are not actions of the model.
- CountColumn.Evidence: the single-record length is an input; how `_record_frame_shape` and confidence scores choose the watched records is not modelled.
- DecrementShape.SourceStackRepeatedShape: the surrounding choice of frames and scores in `_discover_source_stack_decrement` is not modelled.
- Dedup histories, confidence scoring, character and roster discovery, name tables: easy members or no independent specification.
- Origin tracker and ledger, storage assembly, experience and other trackers: not part of this model.
- Storage destination fields and their discovery (`_discover_storage_context_offset_from_frames`): the column search is the same narrowing as for counts, over a town registry.
