# Notebook extension and kernel driver: a Dafny model

The repository holds a VS Code extension for `.llmnb` notebooks and a Python driver for the notebook kernel.
This project models the parts of both that carry state or meaning, and proves what they keep over every input,
every run or every interleaving. One module stands for one component:

- `MapLayout`, `MapGeometry`, `MapRules`: the map view's recursive tile-and-wrap layout, the geometry of its result and
  the rules every node of it obeys
- `CellExecution`, `CellEnds`: who ends a cell execution: the controller, the router's classifier, the kernel call
- `Framing`, `Json`: newline framing in both directions, the driver's byte reader, compact JSON text
- `ReadyHandshake`: spawning the kernel and settling the ready promise
- `Directive`, `DirectiveTrips`, `MagicTrips`: the cell-directive parser and printing-then-parsing
- `LiveRun`, `LiveCells`, `LiveReasons`, `LiveAccounting`: the headless live driver: ship, drain, deadlines, verdicts
- `Replay`: stub runs, their recordings and replay
- `SnapshotApplier`, `HydrateWatchdog`, `SecretScan`, `Contamination`: the snapshot protocol: applying versions,
  hydrate timers and the scan before a hydrate, the incremental index
- `Links`, `LinkTrips`, `Text`: link rewriting when documents move, with the path functions it rests on, and where the
  rewritten links lead
- `Attrs`: the OTLP/JSON attribute codec
- `Serializer`: saving and reopening a notebook
- `Turns`, `TurnFences`: the chat-export pipeline: delimiters, lines, sections, merged turns, phases
- `RunFrames`, `Lineage`, `Sorting`: run frames of a cell, the fork forest

Code that updates fields or runs loops is a class or a method with loops, proved equal to a function or a relation;
the theorems are about that function or relation. Asynchronous code is a state machine whose steps are the stretches
between two awaits, so a theorem over all step sequences is one over all interleavings.

Where a property one would expect is false of the code, the code is kept, a lemma gives an input that breaks the
property, and another says exactly when it holds:

- a zone nested in a zone can stick out of its parent (`NestedZoneEscapes`); every child is horizontally inside its
  parent if and only if every container is wide enough (`HorizontalContainment`);
- restarting a cell whose run has not returned can lose an end (`RestartLosesEnd`); each execution is ended exactly
  once if and only if every run takes an empty slot and comes back to an empty slot or its own (`EndedExactlyOnce`);
- a link to a target with a literal `%20` or `%2520` or a `#` in a component below the directory it shares with the
  source does not survive the rewriting (`LiteralEscapeBreaks`, `SignBreaks`, `NumberSignBreaks`), and every other link
  does (`LinkSurvives`);
- a raising `recv` files a cell as failed and as succeeded (`RaiseCountsTwice`), so the lists hold one entry per cell
  plus one per raise (`OneVerdictUnlessRaised`, `ExactlyOneVerdict`): a raise leaves no reply, so the branch meant for
  quiescence runs too;
- the driver's `recv` reports a timeout although a frame is buffered behind a blank line (`FrameBehindBlankLine`,
  `EmptyHanded`);
- a ready record accepted after `start` begins to listen and before it spawns the kernel makes the ready timer terminate
  a ready kernel (`TimerSparesReadyKernel`, `EarlyRecordKillsKernel`); since the spawn follows as soon as the listen
  callback resolves, a record can hardly come over the socket in between, and the trace needs a call of the public
  `dispatchLine` (extension/src/notebook/pty-kernel-client.ts:811);
- with two snapshots in flight the accepted version can drop (`VersionDrops`, `OverlappingRuns`, `EveryRunExactly`): the
  version is checked before the await and recorded after it, although the check is there to keep versions monotone;
- an edit of another metadata key made while a snapshot is in flight is undone when that snapshot is applied
  (`ForeignEditLost`); it stays if and only if none of the edits in flight that would undo it is applied
  (`ForeignEditExactly`): the new metadata is computed before the await;
- the legacy `/spawn` alias differs from `@@spawn` when the arguments mention an endpoint (`AliasDiffers`,
  `AliasAgrees`);
- a line `@id: message` does not continue an agent whose id is an at sign and the name of a cell magic
  (`ContinueExactly`);
- a phase that runs backwards passes the contiguity check and writes sub-turns twice (`BackwardPhase`,
  `PhasesCoverOnce`);
- a log rewritten at the same length leaves the contamination registry stale (`RewrittenLogStale`, `AgreesExactly`);
- a flat `kind` of a markup cell that is no text is not repaired (`NumberKindStays`, `FlatKindExactly`);
- forks of unknown time do not come last if a fork of the bucket has a time above 2^53-1 (`UnknownBeforeLate`,
  `BranchesOrdered`);
- forks that name each other have no root (`MutualForksLoop`); following parents comes to an end from every agent if and
  only if in the log no agent descends from itself (`ChainsStopExactly`).

## Model

| member | source | states |
|---|---|---|
| `MapLayout.MapView.OnLayoutUpdate` | extension/src/webviews/map-view-renderer.ts:80-88 | A host snapshot replaces the position map by exactly the placements of the tree laid out from the padded corner; nothing of the old layout stays. |
| `MapLayout.MapView.LayoutTree` | extension/src/webviews/map-view-renderer.ts:101-189 | The recursive procedure with its loops returns the node's box and writes exactly the subtree's placements, each node once at its final slot, although a wrapped child is laid out twice. |
| `MapLayout.MapView.TileChildren` | extension/src/webviews/map-view-renderer.ts:145-173 | The zone loop ends at the cursor of the tiling and leaves only the writes of the final slots. |
| `MapLayout.MapView.StackChildren` | extension/src/webviews/map-view-renderer.ts:125-143 | The vertical loop ends at the column of the stack (next y, widest child) and writes the stacked placements. |
| `MapGeometry.LayoutMoves` | extension/src/webviews/map-view-renderer.ts:101-189 | Laying any hint-free tree out elsewhere moves every rectangle of the position map by the same vector. |
| `MapGeometry.BoxMoves` | extension/src/webviews/map-view-renderer.ts:101-189 | The box of a hint-free node commutes with translation, wraps included. |
| `MapGeometry.Lookup` | extension/src/webviews/map-view-renderer.ts:61-189 | With unique ids the final map holds for every node, at every depth, the rectangle reached by following the slots down. |
| `MapGeometry.SiblingsApart` | extension/src/webviews/map-view-renderer.ts:101-189 | In the final map any two siblings anywhere in any tree are separated by at least the gap, wrapped rows included. |
| `MapGeometry.InsideAncestors` | extension/src/webviews/map-view-renderer.ts:101-189 | Every positioned node lies vertically inside every one of its ancestors. |
| `MapGeometry.HorizontalContainment` | extension/src/webviews/map-view-renderer.ts:101-189 | Every child lies horizontally inside its parent if and only if every container of the tree is wide enough for its children. |
| `MapGeometry.GridFits` | extension/src/webviews/map-view-renderer.ts:120-173 | Workspace, zones, leaves: that shape fits at every available width. |
| `MapGeometry.UnrelatedApart` | extension/src/webviews/map-view-renderer.ts:101-189 | In a tree that fits, any two nodes of which neither contains the other are apart. |
| `MapGeometry.NestedZoneThreshold` | extension/src/webviews/map-view-renderer.ts:120-173 | A zone of leaves and leaf-zones fits if and only if all its children are leaves or it gets at least 156. |
| `MapGeometry.NestedZoneEscapes` | extension/src/webviews/map-view-renderer.ts:145-173 | A zone inside a zone of width 96 sticks out of its parent. |
| `MapRules.LayoutRules` | extension/src/webviews/map-view-renderer.ts:101-189 | Told by the final map alone, for every node of every hint-free tree: leaf sizes; in a zone a child stands a gap right of the one before if it ends there before the right padding, and otherwise starts the next row, a gap below the tallest child of the row; elsewhere children stand below one another; each container is exactly as high and as wide as its children make it. |
| `MapRules.ChildWidth` | extension/src/webviews/map-view-renderer.ts:118-182 | The width a child is laid out in: the file width in a zone, the inner width elsewhere. |
| `CellExecution.Controller.BeginRun` | extension/src/notebook/controller.ts:337-341 | The first stretch of a run starts one execution and changes nothing else. |
| `CellExecution.Controller.TakeSlot` | extension/src/notebook/controller.ts:341-343 | After the output is cleared the cell's slot holds this execution. |
| `CellExecution.Controller.FinishRun` | extension/src/notebook/controller.ts:353-377 | On return or throw the execution is ended unsuccessfully exactly if the cell's slot is still taken. |
| `CellExecution.Controller.RouteRunMime` | extension/src/messaging/router.ts:268-295 | A payload is dropped, appended or used as a claim as the classifier says, on absent and empty fields too. |
| `CellExecution.Controller.OnRunComplete` | extension/src/notebook/controller.ts:399-433 | The scan frees the one slot of the execution before the await and queues its closing append. |
| `CellExecution.Controller.FindExecForCorrelation` | extension/src/notebook/controller.ts:437-447 | By binding, else the only execution in flight. |
| `CellExecution.FoundExactly` | extension/src/notebook/controller.ts:437-447 | An emission belongs to the execution in the slot of the cell bound to its span or, for a span not bound, to the only one in flight; to none otherwise. |
| `CellExecution.RoutedExactly` | extension/src/messaging/router.ts:268-295 | Told by the payload's fields: a span with an id and an end time closes the execution it belongs to, frees its slot and queues its append; an event, or a span with an id and no end time, adds one output to it and leaves the slot; everything else changes nothing. |
| `CellExecution.BoundExactly` | extension/src/notebook/controller.ts:428-453 | A span is bound from its binding until its closing append settles. |
| `CellExecution.StepKeepsInv` | extension/src/notebook/controller.ts:337-447 | Every step of every kind that takes an empty slot, or comes back to an empty slot or its own, keeps the invariant that ties journals, slots and pending closes. |
| `CellExecution.EndedAtMostOnce` | extension/src/notebook/controller.ts:337-447 | In every state a run of such steps reaches, no execution was ended twice, and after a claim or an end it got no output and no second terminal span. |
| `CellEnds.EndedExactlyOnce` | extension/src/notebook/controller.ts:337-447 | Over every interleaving that comes to rest: each execution started is ended exactly once if and only if every run took an empty slot and came back to an empty slot or its own; each then with the verdict of the one terminal span routed to it (no event, an id, an end time), everything shown before being interim, or unsuccessfully. |
| `CellEnds.EndsCounted` | extension/src/notebook/controller.ts:337-447 | In every interleaving that comes to rest, restarts included, the ends given are one per execution less one for each slot taken from another execution, and no slot is left taken. |
| `CellEnds.WaitingEndsOnce` | extension/src/notebook/controller.ts:337-447 | If no cell is restarted before its previous run returned, each execution is ended exactly once in every interleaving. |
| `CellExecution.CanFinish` | extension/src/notebook/controller.ts:337-447 | From every state such a quiet state can be reached. |
| `CellEnds.RestartLosesEnd` | extension/src/notebook/controller.ts:337-377 | A cell restarted before its run returned leaves an execution that is never ended. |
| `Framing.Reader.OnSocketData` | extension/src/notebook/pty-kernel-client.ts:782-795 | A chunk dispatches exactly the non-empty complete lines of buffer and chunk, in order, and leaves the unterminated tail. |
| `Framing.AnyChunking` | extension/src/notebook/pty-kernel-client.ts:782-795 | However a stream is cut, the lines dispatched and the buffer left are those of the concatenation. |
| `Framing.EitherLineBreak` | extension/src/notebook/pty-kernel-client.ts:782-795 | Lines ended by LF or CRLF, in any chunks: exactly the non-empty ones are dispatched, in order, without their line break. |
| `Framing.Writer.WriteFrame` | extension/src/notebook/pty-kernel-client.ts:941-961 | Frames written, then frames buffered, are the frames issued, in order, whether or not the kernel is connected. |
| `Framing.Writer.OnConnection` | extension/src/notebook/pty-kernel-client.ts:637-656 | The connect-time flush puts everything issued on the wire, once and in order; a second client changes nothing. |
| `Framing.PeerRecoversFrames` | extension/src/notebook/pty-kernel-client.ts:782-795 | Whatever prefix of the wire arrived in whatever chunks, a reader with this framing dispatched an exact prefix of the serialised frames, and all of them at the end. |
| `Json.PrintNoControl` | extension/src/notebook/pty-kernel-client.ts:949-961 | Compact JSON text (section 7 of RFC 8259) is not empty and holds no line break or other control character, at any depth. |
| `Framing.TcpConnection.Receive` | llm_client/transport/tcp.py:137-160 | The receive loop returns the frame, buffer and socket state of the one-call specification, on lines that do not parse, timeouts, errors and end of stream too. |
| `Framing.NothingLost` | llm_client/transport/tcp.py:137-160 | Over any number of calls with timeouts anywhere, the frames returned, then those still buffered, are the lines that arrived and parse. |
| `Framing.EmptyHanded` | llm_client/transport/tcp.py:143-157 | With a silent socket a call returns nothing if and only if no complete line is buffered or the first one is blank or does not parse. |
| `Framing.FrameBehindBlankLine` | llm_client/transport/tcp.py:143-157 | A complete frame behind a blank line is reported as a timeout. |
| `ReadyHandshake.KernelClient.RouteLogRecord` | extension/src/notebook/pty-kernel-client.ts:882-938 | A ready record records its drift events and resolves the promise if it is pending; any other record, or a late one, changes nothing. |
| `ReadyHandshake.DriftExactly` | extension/src/notebook/pty-kernel-client.ts:902-938 | A drift event is recorded for exactly the version attributes that are present, non-empty and different, with its severity. |
| `ReadyHandshake.SeverityExactly` | extension/src/notebook/pty-kernel-client.ts:1025-1042 | On versions of three parts a difference is major in the first, minor in the second, unknown in the third. |
| `ReadyHandshake.VerdictExactly` | extension/src/notebook/pty-kernel-client.ts:737-778 | In every run the promise is what the steps tell: pending from the first start, resolved by a ready record, rejected by a failed spawn or listen, a timeout, an exit or a socket end, whichever comes first. |
| `ReadyHandshake.TimerExactly` | extension/src/notebook/pty-kernel-client.ts:737-778 | The ready timer runs from the spawn to the verdict, unless it fires, the kernel exits or the client is shut down before. |
| `ReadyHandshake.OneKernelOneVerdict` | extension/src/notebook/pty-kernel-client.ts:280-298 | In every interleaving at most one kernel is spawned, the promise settles at most once, and ready means resolved. |
| `ReadyHandshake.VerdictIsFinal` | extension/src/notebook/pty-kernel-client.ts:752-778 | After a verdict nothing changes the promise, readiness or the drift events. |
| `ReadyHandshake.TimerSparesReadyKernel` | extension/src/notebook/pty-kernel-client.ts:280-298 | In every run the timer is armed on a ready kernel if and only if a ready record was accepted between listening and spawning and the kernel was spawned after it; otherwise it terminates no ready kernel. |
| `ReadyHandshake.ArmedTimerKills` | extension/src/notebook/pty-kernel-client.ts:737-750 | A timer armed on a ready kernel terminates it when it fires. |
| `ReadyHandshake.EarlyRecordKillsKernel` | extension/src/notebook/pty-kernel-client.ts:737-756 | One such run, in which the record comes through the public line dispatcher before the spawn. |
| `Directive.FindHead` | extension/src/notebook/controller.ts:152-162 | The index loop stops at the first line that is not blank. |
| `DirectiveTrips.SpawnRoundTrip` | extension/src/notebook/controller.ts:144-197 | A spawn printed canonically, with or without endpoint, parses back to itself. |
| `DirectiveTrips.LegacySpawn` | extension/src/notebook/controller.ts:246-254 | The legacy form parses to a spawn without endpoint, whatever its quoted text mentions. |
| `DirectiveTrips.AliasAgrees` | extension/src/notebook/controller.ts:169-254 | Legacy and canonical form agree if and only if nowhere in the arguments stands `endpoint:` followed by a non-space. |
| `DirectiveTrips.AliasDiffers` | extension/src/notebook/controller.ts:169-254 | A whole family of tasks on which they differ, with both results. |
| `DirectiveTrips.AgentParses` | extension/src/notebook/controller.ts:152-207 | An `@@agent` cell with any body parses to the trimmed body with Unix line breaks, or to nothing if that is empty. |
| `DirectiveTrips.AgentRoundTrip` | extension/src/notebook/controller.ts:152-207 | A continuation survives printing and parsing if and only if its body is non-empty and already in that form. |
| `DirectiveTrips.UnixKeeps` | extension/src/notebook/controller.ts:149-162 | A body without carriage returns before line breaks is left alone by the line split. |
| `MagicTrips.ContinueExactly` | extension/src/notebook/controller.ts:204-268 | The line `@id: message` continues that agent with the trimmed message, or is nothing if that is empty, unless it reads as a cell magic; then it never continues that agent. |
| `MagicTrips.ContinueRoundTrip` | extension/src/notebook/controller.ts:204-268 | A continuation of an agent whose id does not start with an at sign survives if and only if its message is not empty and trimmed. |
| `MagicTrips.LineMagicParses` | extension/src/notebook/controller.ts:100-243 | A line magic without a colon parses to itself with its trimmed arguments; `pin` and `exclude` set a flag, `unpin` and `include` unset it. |
| `MagicTrips.CellMagicParses` | extension/src/notebook/controller.ts:165-214 | A cell magic other than `spawn` and `agent` is passed on with its trimmed arguments. |
| `LiveRun.RunLive` | llm_client/executor.py:546-732 | The nested loops compute the run of the environment, for every clock, socket and kernel behaviour; an interrupt in the trailing drain escapes. |
| `LiveRun.DrainCell` | llm_client/executor.py:603-669 | The drain loop ends, and it ends and files as the turn-by-turn specification says. |
| `LiveCells.DrainIsDrained` | llm_client/executor.py:603-669 | How a drain ended, told by the environment alone: by which receive or which clock reading, and that no earlier receive of that drain would have ended it. |
| `LiveCells.AnswersOne` | llm_client/executor.py:363-660 | No reply answers two cells: request ids of different ordinals differ. |
| `LiveAccounting.RepliesDecide` | llm_client/executor.py:603-669 | The drain of a shipped cell ends with an answer exactly when a receive of its turn carries the cell's request id as the first of its four ids, and with a K code exactly when one names the cell and no such id. |
| `LiveAccounting.VerdictsAccounted` | llm_client/executor.py:548-713 | In every environment a cell gets one verdict if a send failed before it; none if the loop did not get to it, it was interrupted or its record is no dictionary; two if a receive of its own turn raised; else one. |
| `LiveAccounting.OneVerdictUnlessRaised` | llm_client/executor.py:548-713 | With dictionary records and no interrupt among the receives of the loop, a cell gets one verdict, or two if a receive of its turn raised, and the lists hold one entry per cell plus one per receive of the loop that raised; send failures and timeouts included. |
| `LiveAccounting.ExactlyOneVerdict` | llm_client/executor.py:548-713 | So every cell gets exactly one verdict if and only if no receive of the loop raised. |
| `LiveAccounting.RunEndsExactly` | llm_client/executor.py:546-732 | A run ends with the interrupt of a cell, or of the trailing drain, exactly if a receive of that turn, or of that drain, was one. |
| `LiveReasons.EveryVerdictHasItsReason` | llm_client/executor.py:548-732 | Each verdict rests on the environment within the cell's own turn: a success by silence on an unbroken run of empty receives of its drain whose clock readings lie the window apart, a success by reply on the drain's last receive, correlated and without a K code, a timeout on a reading of that drain at or past the send time plus the cell timeout; the run ends with the last snapshot received. |
| `LiveAccounting.RaiseCountsTwice` | llm_client/executor.py:614-707 | A first receive that raises in time files the cell as failed and as succeeded, in every environment. |
| `LiveAccounting.RaisingEnvironment` | llm_client/executor.py:614-707 | Such environments exist. |
| `Replay.OrderedIdsLoop` | llm_client/executor.py:205-212 | The layout walk comes first, then exactly the cells it does not mention. |
| `Replay.RunStub` | llm_client/executor.py:214-262 | The stub loop computes the outcome and recording of the stub specification. |
| `Replay.RunReplay` | llm_client/executor.py:306-336 | A recording is refused for its length if and only if the lengths differ; otherwise the driver stops at the first entry that names another cell or whose `sent` is null; it files every entry if and only if there is none. |
| `Replay.FiledByStatus` | llm_client/executor.py:306-336 | Filing sorts the replies into the two lists by their status alone, in order: absent or `ok`, or anything else. |
| `Replay.OutputsExactly` | llm_client/executor.py:244-258 | What a good reply files as outputs: its list, or none for the values that count as absent. |
| `Replay.StubStamps` | llm_client/executor.py:161-240 | Every recorded reply is the registry's answer for the cell's record as it was before the run, stamped with the cell id and ordinal. |
| `Replay.StubRecordingAccepted` | llm_client/executor.py:182-336 | A stub recording meets the replay's conditions if and only if every ordered id has a dictionary record. |
| `Replay.ReplayReproducesStub` | llm_client/executor.py:182-336 | Replaying it gives the same lists and the same cells, on the notebook before the run and on the one the run left. |
| `Replay.RefileOverlays` | llm_client/executor.py:312-336 | Filing changes only outputs, and leaves each cell the outputs of its last accepted entry. |
| `Replay.SkippedIdRefused` | llm_client/executor.py:214-217 | A run that skipped an id leaves a recording of the wrong length. |
| `SnapshotApplier.Applier.OnNotebookMetadata` | extension/src/notebook/metadata-applier.ts:110-164 | Each check fails with its own code, in order; an envelope that passes starts one edit of the document's `rts`. |
| `SnapshotApplier.Applier.FinishApply` | extension/src/notebook/metadata-applier.ts:191-226 | The edit installs its metadata and only then records its version; a refused edit records nothing. |
| `SnapshotApplier.StartsExactly` | extension/src/notebook/metadata-applier.ts:110-164 | An edit is begun if and only if the envelope is a snapshot of schema version 1, not older than the version recorded last, and a notebook is open; otherwise exactly one failure names the first of these that does not hold. |
| `SnapshotApplier.AcceptedWereSent` | extension/src/notebook/metadata-applier.ts:110-226 | In every run every version recorded was carried by such an envelope of that run. |
| `SnapshotApplier.SequentialRuns` | extension/src/notebook/metadata-applier.ts:110-226 | One edit at a time: accepted versions never decrease and `rts` is always the snapshot accepted last. |
| `SnapshotApplier.OtherKeysKept` | extension/src/notebook/metadata-applier.ts:169-207 | If nobody else edits, every other metadata key is untouched over the whole run, with any number of edits in flight and in whatever order they finish or are refused. |
| `SnapshotApplier.ForeignEditExactly` | extension/src/notebook/metadata-applier.ts:184-207 | Another party's edit of another key, in every run in which nobody edits that key again, stays in the document throughout if and only if no edit in flight that would undo it is applied; edits begun later carry it. |
| `SnapshotApplier.ForeignEditLost` | extension/src/notebook/metadata-applier.ts:184-207 | An edit made between a snapshot's arrival and its application is lost. |
| `SnapshotApplier.OverlappingRuns` | extension/src/notebook/metadata-applier.ts:149-207 | Edits in flight together, applied in order: versions never decrease if and only if no envelope that passed the check was older than an edit still in flight. |
| `SnapshotApplier.RefusedRuns` | extension/src/notebook/metadata-applier.ts:149-207 | With refused edits too: if no envelope that passed was overtaken, the versions never decrease. |
| `SnapshotApplier.EveryRunExactly` | extension/src/notebook/metadata-applier.ts:149-207 | In every run, in any order and with refusals, the versions never decrease if and only if no edit is recorded below the version recorded last at that moment. |
| `SnapshotApplier.VersionDrops` | extension/src/notebook/metadata-applier.ts:149-207 | Two envelopes in flight after which the last accepted version has dropped. |
| `HydrateWatchdog.MetadataLoader.OnDidOpenNotebook` | extension/src/notebook/metadata-loader.ts:132-239 | The outcome of each check, the secret scan included, and for a shipped hydrate the old timer of the URI stopped and one new timer armed. |
| `HydrateWatchdog.ShippedExactly` | extension/src/notebook/metadata-loader.ts:132-239 | A hydrate is shipped if and only if the notebook is ours with metadata of schema version 1, no field name at any depth of its configuration is forbidden, and there is a router; otherwise the first reason that applies is the outcome. |
| `HydrateWatchdog.MetadataLoader.HandleConfirmation` | extension/src/notebook/metadata-loader.ts:261-279 | A hydrate-complete snapshot stops every pending timer; any other payload changes nothing. |
| `HydrateWatchdog.MetadataLoader.DisposeLoader` | extension/src/notebook/metadata-loader.ts:118-127 | Disposal stops every pending timer and ends the subscription. |
| `HydrateWatchdog.EveryHydrateAccounted` | extension/src/notebook/metadata-loader.ts:118-279 | In every run each hydrate shipped is exactly one of pending, confirmed, superseded, cleared and timed out. |
| `HydrateWatchdog.PendingIsArmed` | extension/src/notebook/metadata-loader.ts:213-279 | In every run the pending URIs are those with an armed timer, one each, and timeout warnings name exactly the hydrates that timed out, in order. |
| `HydrateWatchdog.ConfirmationSettlesAll` | extension/src/notebook/metadata-loader.ts:261-279 | One confirmation settles every pending hydrate, whichever it was meant for. |
| `HydrateWatchdog.DisposalStopsAll` | extension/src/notebook/metadata-loader.ts:118-127 | After disposal nothing is pending, no timer is armed and confirmations no longer arrive. |
| `SecretScan.ScanForbiddenSecrets` | extension/src/notebook/metadata-loader.ts:286-313 | The recursive scan with its accumulators computes the specified matches. |
| `SecretScan.MatchesExactly` | extension/src/notebook/metadata-loader.ts:282-313 | The matches are exactly the forbidden field names at any depth of arrays and objects, each with the text of its path and its rule. |
| `SecretScan.PatternIs` | extension/src/notebook/metadata-loader.ts:45-60 | The rule of a name is its ending behind a star, or the name itself. |
| `SecretScan.ScanFindsExactly` | extension/src/notebook/metadata-loader.ts:282-313 | It comes back empty if and only if no field name at any depth of the configuration is forbidden. |
| `Contamination.Registry.OnNotebookMetadata` | extension/src/notebook/contamination-badge.ts:94-141 | After a snapshot the registry holds exactly its ids, each with the slot its row leaves behind; the change event fires if and only if the projection on keys, flag, log length and agent changed. |
| `Contamination.RowReadsBack` | extension/src/notebook/contamination-badge.ts:102-119 | A slot written as a row, among any other fields, is read back. |
| `Contamination.AgreesExactly` | extension/src/notebook/contamination-badge.ts:94-141 | The update agrees with a fresh projection if and only if no malformed row names a known cell, and in full if and only if, besides, no log changed without changing length. |
| `Contamination.RunAgrees` | extension/src/notebook/contamination-badge.ts:94-141 | After any run the registry agrees with a fresh projection of the last snapshot, if that one's rows are well formed. |
| `Contamination.RunExact` | extension/src/notebook/contamination-badge.ts:94-141 | When logs are append-only it equals that projection in full. |
| `Contamination.RewrittenLogStale` | extension/src/notebook/contamination-badge.ts:120-129 | A log rewritten at the same length is not taken over. |
| `Links.MapDirLoop` | tools/reorg_docs.py:87-96 | The loop computes the specified directory mapping. |
| `Links.BestDirMatches` | tools/reorg_docs.py:87-96 | The rule chosen matches and no matching rule is longer; there is none if and only if none matches. |
| `Links.MapDirIs` | tools/reorg_docs.py:87-96 | The longest matching rule, if it alone has its source, swaps source for destination and keeps what stands below. |
| `Links.MapDirNone` | tools/reorg_docs.py:87-96 | A target that no rule matches stays. |
| `Links.ScriptKeepsSubpath` | tools/reorg_docs.py:32-96 | Every directory of the script's own table moves with everything in it. |
| `Links.AtomsMove` | tools/reorg_docs.py:32-96 | For example, whatever stood in `docs/atoms`. |
| `Links.RelativeExactly` | tools/reorg_docs.py:121-126 | A link is left alone for what it is exactly if it is an anchor, a path from the root, mail or telephone, or names a scheme. |
| `Links.MapDirOrderFree` | tools/reorg_docs.py:87-96 | The mapping does not depend on the order of the rules. |
| `Links.RelPathOf` | tools/reorg_docs.py:154-167 | The relative path between inside paths does not depend on the working directory: up to the shared directory, then down. |
| `Links.DecodeEncode` | tools/reorg_docs.py:136-145 | Decoding an encoded text turns literal `%20` and `%2520` into spaces and changes nothing else. |
| `LinkTrips.LinkResolves` | tools/reorg_docs.py:129-167 | For every move table, source and working directory: if no component of the remapped target below the shared directory holds a `#`, the rewritten link keeps its anchor and resolves from its new place to that target up to those literals; otherwise it loses its anchor and resolves elsewhere. |
| `LinkTrips.LinkSurvives` | tools/reorg_docs.py:129-167 | It resolves to exactly the remapped target if and only if no component of it below the shared directory holds such a literal or a `#`. |
| `LinkTrips.InsideLinkKept` | tools/reorg_docs.py:30-167 | A link between two files of one moved directory is rewritten to the relative path between them, which depends on neither the old nor the new directory. |
| `Links.RemapStaysInside` | tools/reorg_docs.py:87-151 | Move tables whose destinations are inside the repository keep every inside target inside. |
| `Links.ScriptTableInside` | tools/reorg_docs.py:32-42 | The script's own directory table has such destinations. |
| `LinkTrips.RenamedLink` | tools/reorg_docs.py:136-167 | A link to a renamed file at the root resolves to the new name with its literal `%20` and `%2520` turned into spaces. |
| `LinkTrips.LiteralEscapeBreaks` | tools/reorg_docs.py:136-167 | So a file renamed to a name with a literal `%20` is lost. |
| `LinkTrips.SignBreaks` | tools/reorg_docs.py:129-167 | A file that leaves a directory with a `#` in its name for the one above: its link to any neighbour left behind is cut at the sign and resolves elsewhere. |
| `LinkTrips.NumberSignBreaks` | tools/reorg_docs.py:129-167 | For example, a file moved from `d/c#/x` to `d/x` with a link to `y`. |
| `Attrs.RoundTrip` | extension/src/otel/attrs.ts:120-213 | Decoding an encoded value gives its normal form at every nesting depth: null is the empty string, an integral number beyond the safe range the text it prints as. |
| `Attrs.LosslessExactly` | extension/src/otel/attrs.ts:120-213 | The codec is lossless if and only if the value holds no undefined, null, bigint, negative zero or unsafe integral number at any depth. |
| `Attrs.NormalIsFixed` | extension/src/otel/attrs.ts:120-213 | Normalising twice is normalising once, so a second trip is exact. |
| `Attrs.IntTextKept` | extension/src/otel/attrs.ts:157-191 | An `intValue` decodes to a number if and only if re-encoding that number gives the same text; otherwise the text is kept. |
| `Attrs.FirstTagCounts` | extension/src/otel/attrs.ts:157-191 | Of several tags the first counts, in the order text, flag, integer, double, array, record. |
| `Attrs.GetAttr` | extension/src/otel/attrs.ts:216-227 | The reverse scan equals looking the key up in the decoded record, on duplicates too. |
| `Attrs.DecodedKeysDistinct` | extension/src/otel/attrs.ts:204-213 | A decoded record never holds a key twice. |
| `Serializer.SanitizeMarkdownCellMetadata` | extension/src/llmnb/serializer.ts:144-186 | The key-by-key edits compute the specified sanitising. |
| `Serializer.SanitizeCleans` | extension/src/llmnb/serializer.ts:144-186 | The result carries no bound agent in either place, a markup kind in its slot, and no text kind beside it that is none. |
| `Serializer.SanitizeKeeps` | extension/src/llmnb/serializer.ts:144-186 | Every other key of the metadata and of its `rts` object is kept. |
| `Serializer.SlotKeeps` | extension/src/llmnb/serializer.ts:155-165 | Every other key of the cell slot is kept, and its kind if it renders as markup. |
| `Serializer.FlatKindExactly` | extension/src/llmnb/serializer.ts:174-183 | The flat kind ends up absent or a markup kind if and only if it was absent or a text. |
| `Serializer.NumberKindStays` | extension/src/llmnb/serializer.ts:174-183 | A flat kind that is a number stays. |
| `Serializer.SaveReopenSave` | extension/src/llmnb/serializer.ts:42-208 | For every notebook in memory: saved, reopened and saved again is what was saved. |
| `Serializer.OneCycleIsEnough` | extension/src/llmnb/serializer.ts:42-90 | For every file, one cycle of opening and saving reaches a fixed point and keeps the notebook's metadata. |
| `Serializer.MarkupCellsClean` | extension/src/llmnb/serializer.ts:51-123 | Every markup cell opened and every markdown cell saved is clean in that sense. |
| `Serializer.CycleKeepsCells` | extension/src/llmnb/serializer.ts:51-123 | A cycle keeps the number of cells, their texts and the metadata of code cells, makes raw cells code cells and drops execution counts. |
| `Serializer.NormalSurvives` | extension/src/llmnb/serializer.ts:93-208 | Output data with distinct MIME types and savable values (under a JSON type a value that is read back as printed, otherwise a text) survives a cycle unchanged. |
| `Serializer.OutputValueKept` | extension/src/llmnb/serializer.ts:93-208 | An output value that JSON text carries survives a cycle if and only if its MIME type is JSON or it is a text; otherwise it becomes the text it prints as. |
| `Serializer.DecodeOutput` | extension/src/llmnb/serializer.ts:93-106 | The loop decodes every entry in order. |
| `Serializer.EncodeOutput` | extension/src/llmnb/serializer.ts:188-208 | The loop assigns every item under its MIME type, keeping text that does not parse. |
| `Turns.FindRealDelimiters` | _ingest/scripts/build_turn_index.py:33-64 | The character loop finds what folding the fence automaton over the lines finds. |
| `TurnFences.DelimitersExactly` | _ingest/scripts/build_turn_index.py:33-64 | Told by the text alone: a span is found if and only if it is a line that holds nothing but `---` and space and stands in no fenced block; a block runs from a line with three backticks or tildes, itself in no earlier block, through the next line with the same marker, or to the end. |
| `Turns.FoundOrdered` | _ingest/scripts/build_turn_index.py:33-64 | The delimiters found lie in the text, in order, without overlap. |
| `Turns.LineOf` | _ingest/scripts/build_turn_index.py:83-98 | The binary search returns one plus the line breaks before the offset. |
| `Turns.Sections` | _ingest/scripts/build_turn_index.py:112-144 | The split yields preamble, stretches between delimiters, and a postamble unless only line breaks are left. |
| `Turns.SectionsTileText` | _ingest/scripts/build_turn_index.py:112-144 | Each character is in exactly one section or delimiter, except that a rest of nothing but line breaks is in none. |
| `Turns.MergeTurns` | _ingest/scripts/build_turn_index.py:196-215 | The sub-turns split in order into runs of one role; each merged turn sums up its run; neighbours differ in role. |
| `Turns.MergesUnique` | _ingest/scripts/build_turn_index.py:196-215 | That determines the merged turns, and flattening them gives back the ids of all sub-turns in order. |
| `Turns.MergedFlatten` | _ingest/scripts/build_turn_index.py:196-224 | Flattening the merged turns gives back the ids of all sub-turns in order. |
| `Turns.ExpandPhases` | _ingest/scripts/split_into_phases.py:57-71 | The phase loops write the sub-turns of the ranges, or stop if and only if some range names an unknown merged turn. |
| `Turns.PhasesCoverOnce` | _ingest/scripts/verify.py:153-167 | Phases that pass the contiguity check write every sub-turn once, in order, if and only if none runs backwards. |
| `Turns.BackwardPhase` | _ingest/scripts/verify.py:153-167 | A backward phase passes the check and writes sub-turns twice. |
| `RunFrames.GroupRuns` | extension/src/inspect/run-frame-reader.ts:297-310 | The grouping loop computes the specified groups. |
| `RunFrames.GroupChooses` | extension/src/inspect/run-frame-reader.ts:297-310 | For every run the loop keeps its first terminal record, otherwise its first record. |
| `RunFrames.ChosenIs` | extension/src/inspect/run-frame-reader.ts:291-341 | A run has a chosen record if and only if it has any, and a terminal one if and only if any of its records is. |
| `RunFrames.ChosenIsFirst` | extension/src/inspect/run-frame-reader.ts:297-376 | The chosen record is the first that says how the run ended or, if none does, the first of the run. |
| `RunFrames.LatestRunFrame` | extension/src/inspect/run-frame-reader.ts:291-315 | None if and only if the cell has no record; else the record that started last, ties to the least run id. |
| `RunFrames.RunFrameHistory` | extension/src/inspect/run-frame-reader.ts:321-341 | Exactly the runs with a terminal record, each once, in exactly the reverse of newest first. |
| `RunFrames.LatestEndsHistory` | extension/src/inspect/run-frame-reader.ts:291-341 | A latest record that is terminal is the last of the history. |
| `RunFrames.RunCount` | extension/src/inspect/run-frame-reader.ts:357-368 | The number of distinct run ids of the cell, which is the number of groups. |
| `RunFrames.ComparesByAge` | extension/src/inspect/run-frame-reader.ts:383-392 | What the two comparators mean; the ascending one is the descending one turned round. |
| `Lineage.BuildAgentLineage` | extension/src/sidebar/agent-lineage.ts:54-127 | From raw log entries: each that passes the shape checks is a fork; the parent of a branch is its first fork; each source's children are its forks, sorted. |
| `Lineage.ForkExactly` | extension/src/sidebar/agent-lineage.ts:93-129 | An entry is read as a fork if and only if it is a fork intent that names both agents, told by the paths of its fields; the fork then carries exactly what the entry says. |
| `Lineage.EveryForkOnce` | extension/src/sidebar/agent-lineage.ts:69-86 | In any log the child buckets hold each fork as often as the log does, under its source and nowhere else. |
| `Lineage.BranchesOrdered` | extension/src/sidebar/agent-lineage.ts:76-85 | Each bucket is ordered by time; unknown times come last if and only if no time above 2^53-1 shares their bucket. |
| `Lineage.UnknownBeforeLate` | extension/src/sidebar/agent-lineage.ts:76-85 | A fork of unknown time that comes before one of a known time. |
| `Lineage.TiesKeepLogOrder` | extension/src/sidebar/agent-lineage.ts:76-85 | Forks with the same sort key keep their log order. |
| `Lineage.EveryChainEndsAtRoot` | extension/src/sidebar/agent-lineage.ts:54-154 | If each fork names an agent not seen before and not its source, following parents from any agent ends at one that is no branch, which is a root if listed. |
| `Lineage.ChainsStopExactly` | extension/src/sidebar/agent-lineage.ts:54-87 | In any log, following parents comes to an end from every agent if and only if no agent comes back to itself by way of first forks. |
| `Lineage.MutualForksLoop` | extension/src/sidebar/agent-lineage.ts:60-68 | Two forks that name each other loop, and the chain from them has no end. |

## Left out

- Floating point: layout coordinates are reals, so rounding is not modelled.
- Position hints, dragging and the agent overlay: hints are in the layout's model but outside the geometric theorems, since they override them.
- Provider classes, tree items, status bars, webview HTML and renderers: user interface with little state.
- The kernel package (cell parsing, the layout walk, converters) is not part of this model; the layout walk is an arbitrary list of ids, the stub registry an arbitrary function.
- JSON parsing: that every string and every value parsing yields is read back as printed is a premise in `Serializer`; `Replay` records entries rather than text.
- Sockets, terminals, processes, timers and the clock are steps or an environment of arbitrary outcomes, not modelled as such.
- The router's fan-out to several observers: one observer of each kind is modelled.
- `clearOutput` and `end` that throw, and a shutdown in the middle of a cell run, are not steps of `CellExecution`.
- Bytes read past the handshake frame by the driver's `connect`; the reader is modelled from construction on.
- Live runs: section-title parsing and envelope bodies (only whether an envelope is shipped), the record file of a live run, and its replay.
- Cell ids of a notebook in stub mode are those of the cell table; nothing is minted.
- Attributes: key order of integer-like keys, `__proto__`, functions and symbols, NaN and the infinities.
- Serializer: key order of integer-like keys, sources that are neither a text nor a list of texts, and metadata that is no object.
- Link rewriting: `map_file`, `git mv`, the regular expressions that find links, targets outside the repository, and a working directory that is not a clean absolute path.
- Turn index: role headings, hashes, zero-padded ids, first characters and line ranges of turns; phase directories and front matter.
- Run frames: the defensive parsers of single records and context manifests. Lineage: date parsing.
- Metadata loader: building the envelope and enqueueing it are one step with arming the timer; `toLowerCase` is any function.
- Contamination: badge and chip computations, and the two seams that edit rows directly.
- Searching: it rests on the JavaScript regular-expression engine.
- Map view `indexNodes`, status text and error reporting: easy members.
- Lineage.EveryChainEndsAtRoot: is the sufficient case of a log of fresh forks, which names the root reached; `ChainsStopExactly` has the exact condition.
- Lineage.BuildAgentLineage: takes reading an envelope's timestamp as any function.
- LiveRun.RunLive: starts after the hydrate envelope was sent and does not build the reply envelopes, only the verdicts and their reasons.
- Replay.RunReplay: takes a recording whose lines all hold objects with a reply payload.
- SnapshotApplier.OverlappingRuns: its check at arrival covers edits that all succeed in the order they were begun; `RefusedRuns` and `EveryRunExactly` cover the rest.
- DirectiveTrips.SpawnRoundTrip: asks for ids free of spaces, `task:"` and `endpoint:`, and tasks of one line without quotes.
