# Signal watcher: a verified model

The system is a Csound plugin that offers signals (audio and control samples, points,
spectral frames, function tables, meter levels) and a viewer process that shows them. They
talk over datagrams that may be lost, repeated and, for data, reordered. This project models
both halves and the protocol between them, and proves what the design promises: that no
sample is ever shown at another time than its own, that the lock-free packet rings lose
nothing they do not count, that tables and spectra are shown whole or not at all, that
graphs and streams are freed exactly when nobody needs them, and that plugin and viewer
agree on configurations.

`dafny verify dfyconfig.toml` checks the whole project.

## How it is built

The modules follow the pipeline.

* `Samples`, `Wire`, `Items`, `Frames`: sample values, packet layouts in bytes, the viewer's
  validators, and how samples lie in payloads.
* `StreamRing`, `StreamRuns`: the packet ring of one stream as a state machine over the
  atomic steps of the producer and the sender, with the snapshots each has loaded; then
  what holds over every run, that is, for every interleaving and every age of snapshot.
* `StreamOps`, `Meters`: the stream and meter objects. Every access to a shared field is
  one step of `StreamRing`, and between two accesses the other thread may take any number of
  steps, so these contracts too hold for every interleaving.
* `Registry`, `Actions`, `Lifecycle`, `Retries`, `GraphManager`: graphs, handles, stream cells
  and the pointers opcode instances keep, as a state machine over the actions that run under
  the registry lock; what each action does to every slot; whole runs of it, and when they
  send a configuration again; and the manager object whose loops and updates do those
  actions.
* `Draining`: the registry joined to the packet ring and the table of each of its streams.
* `ConfigProtocol`, `ConfigRuns`, `Closing`, `ViewerGraphs`: the registry joined to the viewer by an
  order-preserving channel that loses and repeats configuration packets and by
  acknowledgements that arrive in any order, any number of times, or never; whole runs of
  it; and the viewer's window table.
* `Modulo`, `HistoryRing`, `Points`, `Timeline`: rings that hold the newest entries, and the
  time-domain buffer proved against a plain function from sequence number to sample.
* `DisplayClock`, `Extremes`, `ScopeDraw`: the clock a graph's streams share, and the
  reduction of what is visible to columns.
* `TableChunks`, `TableTransfer`: a table cut into chunks, sent, received in any order, and
  reduced to an envelope.
* `SpectralFrames`, `Spectral`: spectral frames received in any order.
* `WireAgreement`, `EndToEnd`, `PointPath`: encoder against validator, and the theorems that
  join the producer's run to what the viewer shows.

Objects whose fields the program updates in place are classes, each tied by its methods'
contracts to the function or state machine it refines; the whole-run theorems are lemmas
about those.

## Where code and comments part, and where a plausible law fails

* The viewer applies a configuration without comparing sequence numbers
  (`src/watch_viewer.c:2539-2541`). `AcknowledgedMeansApplied` therefore needs the channel
  to keep the order of configuration packets: `SwappedConfigsDisagree` swaps two packets of
  the reachable state that `RacingRun` gives, and then plugin and viewer disagree. It does
  not need sequence numbers not to wrap, only that no graph has more than 2^63
  configurations.
* The comments at `src/watch.c:412-420` and `src/watch.c:432-437` say that a graph abandoned
  before the viewer answered has no window, and that the window of a replaced graph goes at
  once. Both fail. The window may be open with its acknowledgement still under way:
  `LateAckStrandsWindow` gives the run. Or a theme change between the request and the
  sender's next visit takes the acknowledgement away: `ThemeChangeCanStrandWindow` gives
  that run. `CloseComesExactly` says for every reachable state when a close can still come,
  and `NextVisitDecides` what the next visit does once the streams are released.
* `watch_add_f_init` clears its stream pointer before the old stream is released
  (`src/watch.c:1161`). `ReinitLosesStream` gives the run. Such a stream is never freed and
  its graph never leaves the registry (`LostStreamPinsGraph`); `PinnedExactly` says that
  pointers held or lost are the only thing that keeps a finished graph.
* The comment at `src/watch_viewer.c:1491-1495` says the clock jumps to the oldest complete
  window still available. With several streams the jump may not be allowed, and a stream's
  window is then partly overwritten: `LateStreamMissesWindow` builds two such streams from
  packets the plugin can send. `WindowsExactly` says for all
  inputs when every full window is still there, and `SingleStreamCatchUp` when the jump is
  allowed for one stream.
* `watch_meter_init` lets through linear-gain ranges with a negative bound that the viewer
  refuses: `NegativeGainMeterIsRefused`, with the exact condition in `MeterRangeAgreement`.
* `watch_add_f_init` does not compare the hop with the analysis window or bound the number
  of bins; the viewer does: `LongHopIsRefused`, with the exact condition in
  `SpectralIsAccepted`.

## Model

| member | source | states |
|---|---|---|
| StreamOps.ThresholdFits | src/watch.c:993-1005 | for every domain, rate and sample width the publishing threshold is at least one sample and its packet fits the 256-float payload: one meter sample, as many audio or control samples as fit, and of points the fewest that last a viewer frame, or as many as fit |
| StreamRing.NextIsModulo | src/watch.c:1110 | the ring successor is the remainder the program computes |
| StreamRing.WriteCellBounds | src/watch.c:1143-1146 | a sample written at or behind the pending count stays inside the payload, sets exactly its own cell, and leaves the pending samples as they were |
| StreamRing.SealedFits | src/watch.c:269-293 | no published packet is larger than its type allows, so the sender's oversize branch is dead |
| StreamRing.HeldSlot | src/watch.c:261-267 | the slot the sender has loaded is the oldest packet published and not yet freed, complete |
| StreamRing.ExtendKeepsHistory | src/watch.c:1148-1150 | extending the pending packet adds exactly the written samples to what is kept |
| StreamRing.CloseKeepsHistory | src/watch.c:1040-1042 | sealing the packet and clearing the pending count loses no sample |
| StreamRing.PublishKeepsHistory | src/watch.c:1043 | moving the write position moves the sealed samples, in order, behind those already queued |
| StreamRing.LoseKeepsHistory | src/watch.c:1123-1126 | samples refused by a full ring are counted, and nothing kept is touched |
| StreamRing.StepKeepsInv | src/watch.c:1036-1155 | every atomic step of producer or sender, whatever stale snapshot it acts on, keeps the queue, sender and history invariants |
| StreamRing.EmptyExactly | src/watch.c:1122-1124 | equal positions mean an empty queue, and the full test is true exactly with one slot left |
| StreamRuns.RunKeepsInv | src/watch.c:259-303 | the ring invariants hold in every state of every run |
| StreamRuns.SentInOrder | src/watch.c:259-303 | the packets sent are a prefix of the packets published: none skipped, repeated, torn or oversize |
| StreamRuns.HeldSlotIsStable | src/watch.c:1108-1155 | while the sender uses a slot no producer step changes it |
| StreamRuns.PendingReservesRoom | src/watch.c:1076-1081 | with samples pending the slot after the pending one is free, so publishing without a full check never makes a full ring look empty |
| StreamRuns.StaleSnapshotIsSafe | src/watch.c:1121-1126 | a stale read position never shows room that is not there, and shows a full ring whenever it is full |
| StreamRuns.Conservation | src/watch.c:1115-1126 | offered samples are exactly those sent, queued, pending and dropped, the kept ones in offered order |
| StreamRuns.DrainedStreamSentAll | src/watch.c:348-356 | a released stream that passes the drain test has sent every sample it did not count as dropped, and nothing more will happen to it |
| StreamRuns.WireIsFaithful | src/watch.c:1128-1146 | each sample of each sent packet is a sample that was offered at exactly that position |
| StreamOps.WatchStream.constructor | src/watch.c:982-1012 | a new stream has an empty ring and the threshold of its domain |
| StreamOps.WatchStream.LoadReadPos | src/watch.c:1122 | the acquire load is one step of the ring machine |
| StreamOps.WatchStream.CountDropped | src/watch.c:1124 | counting drops is one step and records which samples were lost |
| StreamOps.WatchStream.OpenSlot | src/watch.c:1128-1136 | writing the packet header is one step |
| StreamOps.WatchStream.StoreCell | src/watch.c:1143-1146 | writing one sample is one step and changes that sample only |
| StreamOps.WatchStream.StorePending | src/watch.c:1150 | storing the pending count is one step that makes exactly the written samples pending |
| StreamOps.WatchStream.ClosePending | src/watch.c:1040-1042 | sealing the packet and clearing the pending count is one step |
| StreamOps.WatchStream.StoreWritePos | src/watch.c:1043 | moving the write position is another |
| StreamOps.WatchStream.PublishTimePacket | src/watch.c:1036-1044 | publishes exactly the pending packet, whatever the sender does between the two stores, without reading its position |
| StreamOps.WatchStream.PublishPacket | src/watch.c:1239-1261 | publishes one whole packet in one step |
| StreamOps.WatchStream.LoadPositions | src/watch.c:261-265 | loads both positions; the sender rests exactly when they are equal |
| StreamOps.WatchStream.SendSlot | src/watch.c:295-298 | a packet the socket takes is the oldest unsent one, and one it refuses changes nothing |
| StreamOps.WatchStream.AdvanceRead | src/watch.c:300-301 | frees exactly the slot just sent |
| StreamOps.WatchStream.SenderTurns | src/watch.c:259-303 | any number of sender steps change nothing the producer owns and never take back a freed slot |
| StreamOps.WatchStream.ProducerTurns | src/watch.c:1095-1158 | any number of producer steps change nothing the sender owns and only add to what is published |
| StreamOps.WatchStream.SendNext | src/watch.c:260-301 | one turn of the sender's loop sends the packet published at that place exactly when the socket takes it, or finds nothing left of what was published before |
| StreamOps.WatchStream.SendStreamPackets | src/watch.c:259-303 | a pass sends at most eight packets, in order, and stops early only when the socket refuses or everything published before the pass was sent |
| StreamOps.WatchStream.OpenOrDrop | src/watch.c:1121-1137 | a packet is started unless the ring was full, in which case exactly the offered samples are counted as dropped |
| StreamOps.WatchStream.FillCells | src/watch.c:1143-1146 | the loop copies each sample to its own cell |
| StreamOps.WatchStream.AppendRun | src/watch.c:1143-1150 | a run of the block becomes pending, sample for sample, at its own positions |
| StreamOps.WatchStream.AddChunk | src/watch.c:1139-1154 | each chunk has at least one sample, and a full packet is published, so fewer samples than the threshold stay pending |
| StreamOps.WatchStream.OpenOrDropBlock | src/watch.c:1121-1137 | either a packet is open for the rest of the block or all of that rest was dropped |
| StreamOps.WatchStream.OfferTurn | src/watch.c:1108-1154 | a turn of the audio loop queues the pending packet exactly when the block does not continue it, and otherwise keeps a part of the block or drops all the rest |
| StreamOps.WatchStream.WatchAddA | src/watch.c:1095-1158 | the audio loop terminates; each sample of the block is logged at its own position, a prefix as kept and the rest, only if the ring filled up, as dropped and counted; packets are queued when full, apart from a pending one the block does not continue |
| StreamOps.WatchStream.StoreOne | src/watch.c:1502-1504 | one sample becomes pending at its position |
| StreamOps.WatchStream.AddCycle | src/watch.c:1466-1512 | the retry loop terminates; the sample is kept, or dropped and counted only if the ring was full; packets are queued when full, apart from a pending one the sample does not continue |
| StreamOps.WatchStream.WatchAddK | src/watch.c:1466-1512 | a control value is offered at its control cycle, zero in place of one that is not a number |
| StreamOps.WatchStream.WatchAddP | src/watch.c:1550-1599 | a point is offered as two floats, x then y, at its control cycle, zero in place of what is not a number |
| StreamOps.WatchStream.ReleaseStream | src/watch.c:1064-1083 | releasing publishes the residual packet, loses nothing, and leaves every kept sample in a published packet |
| StreamOps.WatchStream.PutPacket | src/watch.c:1231-1261 | a whole packet is queued, or counted as dropped only if the ring was full |
| StreamOps.WatchStream.WatchAddF | src/watch.c:1212-1267 | a new frame queues its chunks in order up to the first that finds the ring full and counts the missing bins; a repeated frame does nothing |
| Meters.FramesPerPacket | src/watch.c:1680-1682 | the fewest control cycles, at least one, that last as long as a viewer frame |
| Meters.NoPeakIsLost | src/watch.c:1708-1747 | packets that carry the peaks of consecutive parts, with a held peak for the rest, lose no peak of the whole |
| Meters.WatchMeter.constructor | src/watch.c:1680-1687 | a new meter holds no cycle and the bottom value everywhere |
| Meters.WatchMeter.RaisePeaks | src/watch.c:1708-1713 | each held peak becomes the largest finite level of the cycles held |
| Meters.WatchMeter.PublishPeaks | src/watch.c:1719-1746 | the held cycles become one part whose peaks are published; on a full ring nothing of them changes and one drop is counted |
| Meters.WatchMeter.ClearPeaks | src/watch.c:1744-1746 | after publishing every peak is that of no cycle |
| Meters.WatchMeter.WatchCycle | src/watch.c:1691-1748 | every cycle whose array is long enough is processed, ring full or not; published packets and held cycles partition the processed cycles, with one attempt to publish for each full count of cycles; a packet is stamped with its control cycle, and an attempt fails only on a full ring |
| Meters.WatchMeter.PeaksAreNotLost | src/watch.c:1691-1748 | in every state the largest level published or held on a channel is the largest finite level it was ever given |
| Registry.FirstFree | src/watch.c:637-642 | the search finds the first empty slot, or none if there is none |
| Registry.Find | src/watch.c:101-109 | the search finds the first graph with a handle, or none if no graph has it |
| Registry.TriedAreDistinct | src/watch.c:601-607 | successive handles are distinct and in range, wrap-around included |
| Registry.AllocateFindsFree | src/watch.c:600-624 | capacity plus one attempts always find a handle in range that no live graph has |
| Registry.RegisterOutcome | src/watch.c:626-670 | registration is refused exactly when every slot is taken; the inconsistent and handle-unavailable results are unreachable |
| Registry.FreedExactly | src/watch.c:453-462 | a visit frees a graph exactly when destruction was requested, it is acknowledged or abandoned, and every stream left is released and, unless abandoned, drained |
| Registry.StepKeepsSlots | src/watch.c:626-670 | every action keeps the slot count exact and live handles distinct and in range |
| Registry.StepKeepsRefs | src/watch.c:1064-1083 | no action leaves a pointer that an opcode instance holds dangling |
| Registry.SlotStep | src/watch.c:453-462 | in one action a graph keeps its identity and its requests, gains no stream once destruction is requested, and goes only by a visit that may free it |
| Actions.DestroyExactly | src/watch.c:117-136 | a destroy request marks the graph with the handle, and its window if that was asked for, and changes no other slot |
| Actions.ThemeExactly | src/watch.c:1416-1435 | a different theme gets the next sequence number, wrapping to zero, and the graph counts as unacknowledged and never sent; nothing else changes |
| Actions.AckExactly | src/watch.c:248-255 | an acknowledgement marks exactly the graph with that handle and sequence number |
| Actions.ReleaseExactly | src/watch.c:1064-1083 | releasing marks exactly the stream the instance points to and removes that pointer |
| Actions.CreateStreamExactly | src/watch.c:929-1018 | an instance gets a stream exactly when there is memory and a graph with the handle that is not being destroyed, is of one of the two domains and has a free cell |
| Actions.CreateStreamPlaces | src/watch.c:967-1016 | the new stream lies in a free cell of that graph, the instance points to it, and besides the released old stream nothing else changes |
| Actions.RegisterExactly | src/watch.c:626-670 | unless every slot is taken the first empty slot gets a new graph with an unused handle, unacknowledged, never sent and without streams |
| Actions.VisitExactly | src/watch.c:406-463 | one visit, branch by branch: what is sent, when a configuration is due, which streams are cleared, and when the graph goes |
| Lifecycle.RunKeepsInv | src/watch.c:600-670 | all registry invariants hold in every reachable state |
| Lifecycle.HeldStreamIsNeverFreed | src/watch.c:367-388 | a stream an instance holds stays where it is, unreleased, whatever anybody else does |
| Lifecycle.StreamsOnlyShrink | src/watch.c:954-958 | over every run, from the moment destruction is requested, a graph's set of streams only shrinks |
| Lifecycle.FreedOnlyWhenFinished | src/watch.c:453-462 | a graph leaves only in a visit, after a destroy request, with every stream released and, unless abandoned, among those the visit found complete, and with nothing anybody holds |
| Lifecycle.RunKeepsOwned | src/watch.c:1064-1083 | in every reachable state each stream not yet released is held by an instance or had its pointer lost |
| Lifecycle.PinnedExactly | src/watch.c:453-462 | in every reachable state a visit frees a finished graph exactly when no instance holds a stream of it and no pointer into it was lost |
| Lifecycle.ReinitLosesStream | src/watch.c:1160-1191 | a concrete run in which a reinit loses a stream |
| Lifecycle.LostStreamPinsGraph | src/watch.c:1160-1191 | a stream whose pointer was overwritten is never freed and its graph never leaves, for the rest of every run |
| Lifecycle.FinishedGraphIsFreed | src/watch.c:453-462 | a graph with nothing left to wait for is gone after the next visit |
| Retries.RetriesExactly | src/watch.c:442-446 | in every run, after a visit that sent a configuration, a later visit is the next to send it if and only if it is unanswered and 250 ms have passed or the clock went back |
| Retries.NewGraphIsSent | src/watch.c:442-446 | a new graph's configuration is sent at the first visit that finds it unanswered |
| Retries.NewThemeIsSent | src/watch.c:1425-1433 | so is that of a graph whose theme has changed |
| Draining.ReleasedRingIs | src/watch.c:1076-1081 | releasing queues the residual packet, keeps every sample and marks the ring |
| Draining.StepKeepsJoint | src/watch.c:373-388 | every action of the registry and every step of any ring or table keeps each stream's cell and ring in agreement |
| Draining.FreedStreamSentAll | src/watch.c:348-388 | over every run, a stream the sender frees in an acknowledged graph has sent every sample it did not count as dropped, in order, and every chunk of its table; only abandoned graphs free streams undrained |
| GraphManager.GraphRegistry.constructor | src/watch.c:538-547 | a new registry is empty and starts at handle 1 |
| GraphManager.GraphRegistry.FindGraph | src/watch.c:101-109 | the loop computes `Find` |
| GraphManager.GraphRegistry.AllocateGraphId | src/watch.c:600-624 | the two nested loops compute `Allocate` |
| GraphManager.GraphRegistry.FirstFreeSlot | src/watch.c:637-642 | the loop computes `FirstFree` |
| GraphManager.GraphRegistry.RegisterGraph | src/watch.c:626-670 | does the registry's registration; only a full registry refuses, and a new handle is in range and was not in use |
| GraphManager.GraphRegistry.RequestDestroy | src/watch.c:117-136 | sets the flags of the graph with that handle, if there is one |
| GraphManager.GraphRegistry.ChangeTheme | src/watch.c:1416-1435 | a different theme gets the next sequence number and loses the acknowledgement; the same theme changes nothing; an unknown handle is an error |
| GraphManager.GraphRegistry.ReceiveAck | src/watch.c:248-255 | acknowledges only the graph whose handle and current sequence number match |
| GraphManager.GraphRegistry.ReleaseStream | src/watch.c:1064-1083 | marks the stream the instance holds and clears the pointer |
| GraphManager.GraphRegistry.FirstFreeStream | src/watch.c:967-974 | the loop finds the first free stream cell |
| GraphManager.GraphRegistry.AttachStream | src/watch.c:952-1016 | attaches a stream exactly when the handle is known, not being destroyed, of the right domain, and has a free cell |
| GraphManager.GraphRegistry.CreateStream | src/watch.c:929-1018 | lets go of the previous stream first, then attaches exactly when there is memory and a graph that takes a stream of the two domains, and else leaves the instance with none |
| GraphManager.GraphRegistry.ReleaseFinishedStreams | src/watch.c:373-388 | the loop computes `ReleaseFinished` |
| GraphManager.GraphRegistry.GraphHasStreams | src/watch.c:358-365 | true exactly when a cell is taken |
| GraphManager.GraphRegistry.VisitGraph | src/watch.c:406-463 | does the registry's visit of one slot and emits what the machine says |
| GraphManager.GraphRegistry.SenderPass | src/watch.c:404-465 | after one pass every slot is what its own visit makes of it, and what is sent is what the visits of all slots send, in slot order |
| GraphManager.PassedSlots | src/watch.c:406-463 | visiting the first slots one after the other does to each of them what its own visit does, and to the others nothing |
| GraphManager.PassedSends | src/watch.c:406-463 | and sends what those visits send, in slot order |
| ConfigProtocol.SequencesDiffer | src/watch.c:1431 | fewer than 2^63 configurations of one graph have different sequence numbers, wrap-around included |
| ConfigProtocol.FreshHandle | src/watch.c:649-665 | until handles come round again a new graph's handle was never used before |
| ConfigProtocol.SlotConfig | src/watch.c:1425-1433 | what each action does to a graph's theme, sequence number, acknowledgement and closing flags |
| ConfigProtocol.SentInOrder | src/watch.c:442-450 | what a visit sends about a graph is its current configuration, newer than anything under way, or its close |
| ConfigProtocol.ConfigArrives | src/watch_viewer.c:2519-2547 | applying a configuration, or failing to open its window, keeps all invariants |
| ConfigProtocol.CloseArrives | src/watch_viewer.c:2575-2589 | closing a window keeps all invariants |
| ConfigProtocol.AckKeepsInv | src/watch.c:248-255 | an acknowledgement, however late or often repeated, keeps all invariants |
| ConfigProtocol.StepKeepsInv | src/watch.c:390-465 | every step of plugin, viewer, user and channels keeps the invariants of the whole protocol |
| ConfigRuns.AcknowledgedMeansApplied | src/watch.c:248-255 | in every reachable state an acknowledged graph's exact configuration is the last one the viewer applied, and an open window shows its theme |
| ConfigRuns.NoConfigAfterClosing | src/watch.c:421-451 | once a graph is marked for closing no later step of any run sends a configuration for its handle |
| ConfigRuns.OneBurst | src/watch.c:438-441 | at most one closing burst is ever sent for a handle |
| ConfigRuns.ClosedStaysClosed | src/watch_viewer.c:2575-2589 | a window the plugin closed never opens again, in any run |
| ConfigRuns.ThemeChangeStrands | src/watch.c:1425-1433 | any theme change of a graph marked for closing leaves it unable ever to be acknowledged |
| ConfigRuns.StrandedForever | src/watch.c:421-441 | for the rest of every run no close is sent for a graph stranded that way |
| ConfigRuns.ThemeChangeCanStrandWindow | src/watch.c:421-441 | a concrete run in which a window about to be closed is left open that way |
| ConfigRuns.SwappedConfigsDisagree | src/watch_viewer.c:2539-2541 | two configurations that arrive in the wrong order leave an acknowledged graph with another theme than its window |
| ConfigRuns.RacingRun | src/watch.c:1425-1433 | the state those two packets are taken from is reachable |
| Closing.CannotClose | src/watch.c:421-441 | a close cannot come exactly when it was sent, the graph is gone, or nothing can acknowledge its configuration |
| Closing.NeverCloses | src/watch.c:421-441 | from such a state no run ever sends a close |
| Closing.CloseCanBeSent | src/watch.c:421-441 | from any other state some run sends it |
| Closing.CloseComesExactly | src/watch.c:421-441 | in every reachable state, for every graph marked for closing, a close can still be sent if and only if the graph is there, was not asked yet, and is acknowledged or may be by what is under way |
| Closing.NextVisitDecides | src/watch.c:421-462 | for a replaced graph with its streams released the next visit sends the close if it is acknowledged, and otherwise frees it and no close ever comes |
| Closing.LateAckStrandsWindow | src/watch.c:412-421 | a concrete run in which a graph is freed as abandoned while its window is open |
| ViewerGraphs.Windows.FindGraph | src/watch_viewer.c:1800-1811 | finds the slot of an open window exactly when there is one |
| ViewerGraphs.Windows.CreateGraph | src/watch_viewer.c:2366-2466 | opens a window exactly when a slot is free and resources are granted, and changes no other |
| ViewerGraphs.Windows.ProcessConfig | src/watch_viewer.c:2519-2547 | acknowledges exactly when the window was open or could be opened, and then it shows the theme |
| ViewerGraphs.Windows.CloseGraph | src/watch_viewer.c:2575-2589 | closes that window and no other |
| ViewerGraphs.Windows.Receive | src/watch_viewer.c:2519-2589 | the window table does exactly the viewer's step of the protocol |
| HistoryRing.Push | src/watch_viewer.c:1246-1254 | one append keeps the ring holding exactly the newest entries |
| HistoryRing.ReadOrder | src/watch_viewer.c:3372-3377 | reading from the computed start lists the newest entries oldest first, each slot once |
| HistoryRing.SegmentsInOrder | src/watch_viewer.c:3106-3158 | the one or two source ranges of the history, laid side by side, are the newest columns oldest first |
| Points.PointTrailCapacity | src/watch_viewer.c:1202-1211 | the fewest points that last a tenth of a second, at least two and at most the maximum |
| Points.PointTrail.AppendPoint | src/watch_viewer.c:1246-1254 | adds one sanitized point to the history the ring stands for |
| Points.PointTrail.EnsurePointBuffer | src/watch_viewer.c:1213-1244 | keeps the trail exactly when the capacity still fits, starts over otherwise, and remembers a refusal |
| Points.PointTrail.ProcessPoints | src/watch_viewer.c:2813-2849 | a valid packet adds its points in order, an invalid one nothing; x and y are joined to what was offered by `PointPath.SentPoint` |
| Points.PointTrail.ReadTrail | src/watch_viewer.c:3372-3377 | what is drawn is the last points, oldest first |
| PointPath.PointIsPair | src/watch_viewer.c:2844-2847 | the i-th point of a packet has the first float of its i-th pair as x and the second as y |
| PointPath.SentPoint | src/watch.c:1550-1599 | every point of every packet sent is the pair offered at its position |
| PointPath.ReceivePoints | src/watch_viewer.c:2813-2849 | packets given to a fresh trail one by one leave their points, in order |
| PointPath.ReadPoints | src/watch_viewer.c:2813-2849 | the whole way for points: of the packets of any run, lost, repeated and reordered, the newest points that arrived are drawn, each the pair offered at its position, x as x and y as y, and with loss alone in offered order |
| Timeline.AppendAt | src/watch_viewer.c:1342-1364 | an append keeps what is there, fills what is missing with zero and adds the samples at their own positions |
| Timeline.ReplayIsFaithful | src/watch_viewer.c:1342-1364 | however faithful packets are lost, repeated or reordered, each position shows its own sample or zero |
| Timeline.InOrderSpan | src/watch_viewer.c:1342-1364 | with loss only, the timeline runs from the start of the first packet to the end of the last |
| Timeline.InOrderReplayIsExact | src/watch_viewer.c:1342-1364 | with loss only, the timeline shows at each position what the last packet covering it carried, and zero where none does |
| Timeline.ScopeGeometry | src/watch_viewer.c:1274-1284 | the window is the fewest samples that last the window's time, the capacity is window, latency and one packet; refused exactly when the length is not positive or one of them is too large |
| Timeline.ScopeStream.AppendScopeValue | src/watch_viewer.c:1319-1326 | one append adds one sanitized sample to the history the ring stands for |
| Timeline.ScopeStream.AppendScopeGap | src/watch_viewer.c:1328-1340 | both branches leave the contents, index and counters that appending the zeros one by one would |
| Timeline.ScopeStream.AppendScopeSamples | src/watch_viewer.c:1342-1364 | the ring refines the timeline's append, overlap and gap included |
| Timeline.ScopeStream.ReadBack | src/watch_viewer.c:1423-1432 | the index arithmetic finds, for every position still held, exactly the timeline's sample, without overflow |
| Timeline.ScopeStream.EnsureScopeBuffer | src/watch_viewer.c:1269-1317 | keeps a fitting buffer untouched, replaces any other, and remembers what it cannot honour |
| Timeline.ScopeStream.ProcessData | src/watch_viewer.c:2591-2627 | accepts exactly valid packets it has a buffer for, and appends them to the timeline |
| DisplayClock.FrameIsSound | src/watch_viewer.c:1475-1504 | one frame never moves the display back, never passes any active stream's newest sample, and under the catch-up condition lands where every full window is held |
| DisplayClock.FrameIsExact | src/watch_viewer.c:1479-1503 | the clock starts at the earliest received end less its latency; a started clock moves by elapsed time times rate, unless it jumps to the latest full-window end or is held at what was received, and when it does which |
| DisplayClock.RunClock | src/watch_viewer.c:1434-1505 | the same in every frame of every run |
| DisplayClock.RunMoves | src/watch_viewer.c:1484-1503 | every frame of a run after the first moves the clock that way |
| DisplayClock.DisplayKeepsTime | src/watch_viewer.c:1484-1487 | over any stretch of a run without jump or hold the display advances by exactly the elapsed time times the rate, however many frames it takes |
| DisplayClock.DisplayNeverGoesBack | src/watch_viewer.c:1434-1505 | over a run with the same active streams the display end only moves forward |
| DisplayClock.SingleStreamCatchUp | src/watch_viewer.c:1496-1500 | for one stream the condition is exactly that a window plus the latency is buffered |
| DisplayClock.FullRingCatchesUp | src/watch_viewer.c:1278-1284 | a single stream with a full ring always meets it |
| DisplayClock.WindowsExactly | src/watch_viewer.c:1496-1503 | exactly when every full window is still held at the new display end, for any streams |
| DisplayClock.LateViewsMissWindow | src/watch_viewer.c:1491-1503 | two streams' readings for which it is not |
| DisplayClock.LateStreamMissesWindow | src/watch_viewer.c:1491-1503 | two streams with those readings, built by receiving packets the plugin can send |
| DisplayClock.ScanStreams | src/watch_viewer.c:1442-1473 | the loop finds the least safe and received ends, the latest full-window end, and the first active rate |
| DisplayClock.ScopeClock.AdvanceScopeTimeline | src/watch_viewer.c:1434-1505 | the clock object advances as specified: it starts at the least safe end, then moves by elapsed time, jumps or is held, and not at all without active streams |
| Extremes.BucketsPartition | src/watch_viewer.c:2794-2796 | the buckets are non-empty, adjacent and cover every sample once |
| Extremes.ColumnsCover | src/watch_viewer.c:3233-3238 | for every column count the columns are non-empty, in bounds, and cover every bucket |
| Extremes.BucketHolds | src/watch_viewer.c:2795-2796 | an element is in a bucket exactly when it ends inside that bucket's share of the width |
| Extremes.ColumnHolds | src/watch_viewer.c:3234-3238 | the same for columns of buckets; with more columns than buckets a column is the one bucket at its left edge |
| Extremes.ColumnsPartition | src/watch_viewer.c:3234-3238 | with no more columns than buckets the columns are non-empty, adjacent and cover every bucket once |
| Extremes.ColumnsRepeat | src/watch_viewer.c:3236-3238 | with more, each is one bucket, and they come in order with none left out |
| Extremes.UnderHolds | src/watch_viewer.c:3234-3238 | a sample is under a column exactly when its bucket is |
| Extremes.MinOverCover | src/watch_viewer.c:3240-3245 | the least of the minima over a cover is the least of the whole |
| Extremes.MaxOverCover | src/watch_viewer.c:3240-3245 | the greatest of the maxima over a cover is the greatest of the whole |
| ScopeDraw.VisibleIsHeld | src/watch_viewer.c:1520-1535 | what is selected for drawing is still in the ring |
| ScopeDraw.VisibleExactly | src/watch_viewer.c:1520-1535 | nothing is visible exactly when the window is empty or the display end has not passed the oldest sample; else the stretch ends at the display end and is a whole window or all there is before it |
| ScopeDraw.FullWindowIsDrawn | src/watch_viewer.c:1520-1535 | a stream that holds the window at the display end is drawn with a full window |
| ScopeDraw.CaughtUpStreamsAreFull | src/watch_viewer.c:1496-1535 | after a frame under the catch-up condition every stream with a full window is drawn with one |
| ScopeDraw.DisplaySample | src/watch_viewer.c:1429-1432 | reads exactly the timeline's sample |
| ScopeDraw.SpanOf | src/watch_viewer.c:1564-1574 | the extremes of one column |
| ScopeDraw.DrawScope | src/watch_viewer.c:1507-1606 | draws nothing exactly when the stream has nothing before the display end; else the stretch that ends there, a whole window or all there is, as samples or as columns that partition it with their extremes |
| ScopeDraw.SpansKeepExtremes | src/watch_viewer.c:1546-1591 | the drawn columns keep the extremes of all that is visible |
| TableChunks.TablePacketIsValid | src/watch_viewer.c:2048-2073 | every chunk the plugin can send is accepted by the validator and fits |
| TableChunks.TransferRoundTrip | src/watch_viewer.c:2870-2924 | for every table, whatever other transfer was there before, and every delivery with repetition and loss: complete exactly when each chunk arrived, and then equal to the sanitized snapshot |
| TableChunks.CoveredAll | src/watch_viewer.c:2909-2912 | the running sample count reaches the total exactly when no chunk is missing |
| TableTransfer.TableSender.constructor | src/watch.c:1368-1374 | a transfer starts with nothing accepted |
| TableTransfer.TableSender.DoneMeansAllAccepted | src/watch.c:353-355 | the offset is at the end exactly when the socket has accepted the whole table |
| TableTransfer.TableSender.SendFtablePackets | src/watch.c:305-346 | a pass sends as many chunks as the socket takes, up to eight, next in order, each once; the snapshot goes only when all were accepted |
| TableTransfer.FtableStream.StoreSample | src/watch_viewer.c:2896-2908 | stores one sample and keeps the data range that of what arrived |
| TableTransfer.FtableStream.StoreChunk | src/watch_viewer.c:2896-2908 | stores one chunk at its place, sanitized |
| TableTransfer.FtableStream.EnsureFtableStream | src/watch_viewer.c:2760-2782 | keeps the buffer of this very transfer, starts over for another, and remembers a refusal |
| TableTransfer.FtableStream.PrepareFtableEnvelope | src/watch_viewer.c:2784-2811 | each bucket holds the extremes of its own samples |
| TableTransfer.FtableStream.MarkChunk | src/watch_viewer.c:2909-2912 | the flags name exactly the chunks that arrived, and the count is complete exactly when they are |
| TableTransfer.FtableStream.AcceptChunk | src/watch_viewer.c:2892-2932 | ready exactly when the transfer is complete and the envelope could be made |
| TableTransfer.FtableStream.ProcessFtable | src/watch_viewer.c:2851-2933 | the buffer does exactly what receiving the packet does to the transfer, and ignores every invalid one |
| TableTransfer.FtableStream.DisplayIsWhole | src/watch_viewer.c:2896-2924 | what is displayed is the whole table as received, and the data range is its range |
| TableTransfer.FtableStream.RenderColumns | src/watch_viewer.c:3228-3280 | for every column count each column has exactly the extremes of the samples under it, and all of them keep the incrementally computed data minimum and maximum |
| TableTransfer.SmallTableColumns | src/watch_viewer.c:3228-3245 | in a table with no more samples than buckets the samples under a column are those that end inside it |
| TableTransfer.RenderColumn | src/watch_viewer.c:3234-3249 | one column's extremes over its buckets, in bounds |
| SpectralFrames.ReceiveKeepsIntact | src/watch_viewer.c:2685-2738 | no packet mixes two frames or takes the frame sequence back |
| SpectralFrames.ContradictionIsIgnored | src/watch_viewer.c:2686-2697 | a packet of an older frame, or of the current number with another identity or description, changes nothing |
| SpectralFrames.NewerFrameTakesOver | src/watch_viewer.c:2714-2718 | a packet of a newer frame starts it with its own bins; another description starts the stream over, the same one keeps what was displayed |
| SpectralFrames.DeliveryIsIntact | src/watch_viewer.c:2685-2738 | under any loss, repetition and reordering every displayed spectrum is one whole frame, in order |
| SpectralFrames.DeliveryProgress | src/watch_viewer.c:2714-2732 | the marked bins are exactly those of the chunks that arrived |
| SpectralFrames.CompleteFrameIsShown | src/watch_viewer.c:2730-2738 | a newer frame all of whose chunks arrive, with nothing newer in between, is displayed |
| Spectral.HistoryColumns | src/watch_viewer.c:1781-1790 | the fewest columns that last the history's time, refused exactly when there is none or they are too many |
| Spectral.SpectralStream.EnsureSpectralStream | src/watch_viewer.c:1736-1798 | keeps a buffer of the same description untouched, starts over for another, remembers a refusal, and says exactly when it refuses |
| Spectral.SpectralStream.BeginSpectralFrame | src/watch_viewer.c:2629-2636 | a new frame starts with no bin marked |
| Spectral.SpectralStream.StoreBin | src/watch_viewer.c:2720-2728 | stores one bin and counts it once |
| Spectral.SpectralStream.StoreBins | src/watch_viewer.c:2720-2728 | stores the bins of the packet at their own places |
| Spectral.SpectralStream.ShowSpectrum | src/watch_viewer.c:2736-2738 | the display becomes the completed frame |
| Spectral.SpectralStream.AppendSpectrogramFrame | src/watch_viewer.c:2638-2668 | the completed frame becomes the newest history column |
| Spectral.SpectralStream.BinsCounted | src/watch_viewer.c:2730-2732 | the count equals the number of bins exactly when every bin is marked |
| Spectral.SpectralStream.JoinPacket | src/watch_viewer.c:2720-2749 | a packet of the current frame does what the specification says, or the stream is rejected |
| Spectral.SpectralStream.IntactIsShown | src/watch_viewer.c:2736-2738 | the displayed spectrum, or every column of the history, is one whole produced frame, every finite power that is not negative as it was and zero in place of the others |
| Spectral.ReceiveSpectra | src/watch_viewer.c:2670-2750 | under any loss, repetition and reordering, any rejections and any theme changes in between, the buffer displays whole produced frames only |
| Spectral.SpectralStream.ProcessSpectral | src/watch_viewer.c:2670-2750 | the buffer refines the receiving function for every packet unless it is rejected for want of resources |
| WireAgreement.DataIsAccepted | src/watch_viewer.c:1985-2000 | a published audio or control packet is accepted exactly when its position is not negative, its stream identified and its rate a positive number |
| WireAgreement.PointIsAccepted | src/watch_viewer.c:2031-2046 | the same for point packets |
| WireAgreement.MeterIsAccepted | src/watch_viewer.c:2075-2088 | the same for meter packets |
| WireAgreement.SpectralIsAccepted | src/watch_viewer.c:2002-2025 | the exact condition for spectral packets, which fit in every case |
| WireAgreement.AcceptedIsWhole | src/watch_viewer.c:1985-2088 | whatever arrives, an accepted datagram is of this protocol and of one kind only, and ends exactly behind the last float that is read |
| WireAgreement.LongHopIsRefused | src/watch_viewer.c:2013 | a spectral set-up the plugin accepts and the viewer refuses |
| WireAgreement.EverySentPacketIsAccepted | src/watch.c:295-301 | in every run every time packet sent is accepted |
| WireAgreement.RangeAgreement | src/watch_viewer.c:1912-1925 | which axis ranges the plugin lets through are accepted, exactly |
| WireAgreement.NumericRangeExactly | src/watch.c:686-719 | which ranges the plugin lets through, and with which bounds |
| WireAgreement.NegativeGainMeterIsRefused | src/watch.c:1634 | a meter range the plugin accepts and the viewer refuses |
| WireAgreement.MeterRangeAgreement | src/watch_viewer.c:1957-1968 | the plugin's meter ranges are accepted exactly on a decibel scale or without a negative bound |
| EndToEnd.SentIsFaithful | src/watch.c:1143-1146 | every packet sent bears the stream's identity and rate and carries the samples offered at its positions |
| EndToEnd.ShownSampleIsTrueOrZero | src/watch_viewer.c:1423-1432 | for every interleaving and every loss, repetition and reordering, the sample read for a position in the valid window is the one offered there, or zero |
| EndToEnd.ReadPosition | src/watch_viewer.c:2591-2627 | the whole way in one: packets of any run, lost, repeated and reordered, received into a fresh buffer; a position is found exactly in the newest part of the timeline and reads the sample offered there, or zero |
| EndToEnd.SentRises | src/watch.c:1115-1119 | the packets sent cover stretches that do not overlap, in order |
| EndToEnd.LossyTimelineIsExact | src/watch_viewer.c:1342-1364 | with loss only, every delivered finite sample is shown at its place as it was, and zero exactly where none was delivered |
| EndToEnd.ReceiveAll | src/watch_viewer.c:2591-2627 | packets given to a fresh buffer one by one leave their replay |
| EndToEnd.ReceiveTable | src/watch_viewer.c:2851-2933 | chunks given in any order to a viewer that may hold another table: displayed exactly when each arrived, and then every finite sample as it was, zero in place of the others |

## Left out

* Windows, rendering calls, fonts, colours, axis ranges and tick labels, and the colour
  mapping of spectrogram columns: a history column is modelled by the powers of its frame.
* The number of columns to draw and all pixel coordinates: the column count is a parameter.
* Sockets: a send is a step that may be refused, the network a channel.
* Viewer launching, its throttling, session close and session reset.
* Csound's argument checking beyond numeric ranges and the spectral preconditions named
  above; memory allocation is a boolean parameter of the method that needs it.
* C11 memory order below the acquire and release pairs, which are atomic interleaved steps.
* IEEE arithmetic: samples and clocks are reals, NaN and the infinities are one non-finite
  value, and a double that overflows a float is not modelled.
* 64-bit wrap-around of sample positions and of `dropped_samples`; positions are integers.
* The bar levels, release and peak hold of `process_meter_packet` and `render_meter`.
* The analysis-bin powers of `spectral_bin_power`: a frame's powers are given.
* Several plugin sessions talking to one viewer: `find_graph` compares one sender's handles.
* Graphs and streams in the registry are values in the registry's array, and a pointer to a
  stream is its cell with the allocation it was taken for; the stream's packet ring is not
  nested in it. In `Registry` alone a visit is told which streams are complete; `Draining`
  takes exactly those whose rings and tables pass the drain test.
* The unused counter `stream_count`.
* The lookup of the graph before a data packet is processed: packets for an unknown graph or
  one of another domain are ignored before the modelled part begins.
* A meter whose graph could not be registered, and a spectral signal without a frame buffer:
  the opcodes return at once.
- DisplayNeverGoesBack: claimed while the same streams stay active, because a stream that joins behind the others clamps the display end to its own newest sample.
- AcknowledgedMeansApplied: up to the reuse of handles after 16777215 graphs, and of sequence numbers after 2^63 configurations of one graph, because an old acknowledgement could then match.
- ProcessSpectral: a refusal for want of memory or of a usable texture empties the stream, as in the program, so refinement is claimed for the other cases.
