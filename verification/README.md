# Live media plane: a verified model

This project models the live-media plane of a device-control service and proves what it promises. The parts, hardest first:

- **The live mirror** (`MirrorMemory`, `MirrorSteps`, `MirrorRuns`, `MirrorReasons`, `MirrorCapacity`, `MirrorPlane`,
  `MirrorEngine`, `MirrorEngineRuns`, `MirrorAccounting`, `MirrorFeed`). One session per device: viewers attach and leave, a worker dials,
  publishes, reads, releases and dials again, and an idle timer, the worker or a stop ends it. Each critical section is one
  step; each load of an atomic count is a step of its own. `MirrorMemory` gives one function per critical section, and a
  session object whose methods are those functions; `MirrorSteps` interleaves them; `MirrorRuns` says what every run keeps,
  `MirrorReasons` why a session does what it does.
  `MirrorEngine` puts any number of such sessions under one engine, whose start holds the engine's lock while the counts it
  loads keep moving. `MirrorFeed` is what viewers are offered.
- **Annex B to fragmented MP4** (`AnnexB`, `AnnexBLaws`, `Mp4Boxes`, `Mp4Sample`, `Mp4Writer`, `Mp4Reader`, `Mp4Laws`,
  `Mp4Session`, `Mp4Run`, `Mp4Pictures`). A scanner of ITU-T H.264 Annex B byte streams, a translator to length-prefixed samples, and a stateful
  printer of ISO/IEC 14496-12 boxes; a reader written from the box layouts alone reads every run back.
- **The control channel** (`ControlMessage`, `ControlProtocol`, `ControlHistory`, `ControlQueue`). The message codec, the
  gesture automaton, and the bounded queue that overwrites pending moves in front of it and loses what finds no room.
- **The capture scheduler** (`FrameScheduler`, `FrameStarts`), **the transport watcher** (`TransportWatcher`, `TransportKeys`,
  `TransportCondition`),
  **event grouping** (`EventGrouping`), **the H.264 wire packet and its timeline** (`H264Wire`, `H264Timeline`) and **the
  area downscale** (`Downscale`).

`Bytes`, `Words`, `Text`, `Quotients` and `Wrappers` hold bytes, big-endian numbers, white space and UTF-8, division and an
option type. `dafny verify dfyconfig.toml` checks everything.

What the program moves in place is a class here, its methods proved against functions over values; what is promised
over many calls is a lemma over those functions or an invariant the methods keep. Dials, reads, closes, captures, sinks and
enumerations are nondeterministic outcomes, time is an integer or an order, and a caller's environment is a script that can
be any sequence.

## Where the code and its own words differ

The model follows the code. Each of these has a concrete run or input below, and the exact condition under which the code
does keep what is said of it.

- The operator's reserve is not kept once an operator leaves a session that goes on (`ReserveIsNotKept`). What holds is that
  sessions no operator ever opened or watched stay within the allowance (`OnlyOperatorsFillTheReserve`), and a full plane has
  the reserve watched exactly when what operators left behind and what is the grid's own leave it free (`RefusalCounts`).
- A stop's last wait is said to wait on nothing; it can wait for the worker of a session forgotten before the stop
  (`StopWaitsForTheForgotten`), and is idle exactly when no such worker is left (`FinalWaitIsIdle`).
- One device can have two open streams, because a session is forgotten before its worker releases
  (`TwoStreamsOfOneDevice`), and in no other way (`OneStreamOfADevice`).
- A fired idle timer ends a session a viewer has attached to since (`FiredTimerEndsWatched`), and ends an unwatched one
  exactly when everybody who attached since has detached (`IdleEndEvicts`).
- Ends on a leftover server are in no list of ends, so an audit can say that nothing failed when something did
  (`EndsLeaveOutLeftovers`, `LeftoverGoesUnreported`), and says it exactly when nothing else did (`NoFailureMeans`).
- A cancellation seen in the scheduler's select skips the drain of what waits (`LeftWaiting`): something is left waiting
  exactly when that select was the first to see it while something waited (`Run`).
- The control decoder ignores bits 1 to 7 of the third byte, and nothing else (`SameMessageSameWire`, `IgnoredBitsAreIgnored`).
- A queue overflow accepts a message and loses it. The channel is then closed, but until it has closed messages are still
  accepted, and what goes out need not be a run of the protocol (`LostUpBreaksProtocol`). Any beginning of it is a run exactly
  when no touch in it was queued out of step: while everything accepted and everything queued before it left different
  gestures under way (`Receive`, `HandOver`, `BeginningIsExact`). So a lost message does no harm exactly when it is no
  touch-down, touch-up or touch-cancel (`LossIsHarmless`), and a lost stretch, a whole tap say, exactly when it leaves the
  gesture as it was (`LossesAreHarmless`).
- A watcher's key is text joined from a transport's own texts, so a serial that holds the separator can make two transports
  one (`SharedRecord`, `SharedTransport`); no others are (`RecordsTellApart`, `RecordsAreEndpoints`, `TransportsTellApart`).
- Combining two taps keeps the first tap's sensitivity, whatever the second's (`OtherRuns`, `SecondTapIsForgotten`), which is
  the group's exactly when the first is at least as severe (`GroupSeverity`).

## Model

| member | source | states |
|---|---|---|
| `MirrorMemory.MirrorSession.Attach` | internal/media/mirror.go:1478-1526 | attaching fails exactly when the session has ended; otherwise a new number is recorded with its purpose, an operator is counted, and the idle timer is stopped |
| `MirrorMemory.MirrorSession.GiveBack` | internal/media/mirror.go:2213-2229 | closing an operator viewer takes exactly one from the count, an ambient one nothing |
| `MirrorMemory.MirrorSession.Detach` | internal/media/mirror.go:1555-1565 | the viewer goes; the timer is armed exactly when it was the last of a session that goes on |
| `MirrorMemory.MirrorSession.End` | internal/media/mirror.go:1592-1613 | the locked part of an end: closed, class recorded, timer stopped, every recorded viewer handed back to be closed |
| `MirrorMemory.MirrorSession.BeginDial` | internal/media/mirror.go:1909-1914 | the purpose dialed for and the cancel of that dial become the session's |
| `MirrorMemory.MirrorSession.PublishStream` | internal/media/mirror.go:2010-2020 | the opened stream and its purpose become the session's |
| `MirrorMemory.MirrorSession.ReleaseStream` | internal/media/mirror.go:2027-2036 | the stream is taken back only if it is still the session's |
| `MirrorMemory.MirrorSession.RequestProfile` | internal/media/mirror.go:1950-1963 | a viewer is told to cancel the current dial exactly when it needs more than was dialed for and a stream is published |
| `MirrorMemory.MirrorSession.RequiredPurpose` | internal/media/mirror.go:1893-1903 | the operator's profile is required when an operator is counted or opened the session |
| `MirrorMemory.MirrorSession.StrongerStreamRequired` | internal/media/mirror.go:1842-1847 | a stronger stream is called for exactly when the stream was dialed for the grid and an operator opened the session or is counted |
| `MirrorSteps.StepKeeps` | internal/media/mirror.go:1478-1526 | every step of every viewer, of the worker and of an end, in any interleaving, keeps the session's whole invariant (counts, dials, cancellations, stream, end, pending upgrades) |
| `MirrorSteps.ViewerStepKeeps` | internal/media/mirror.go:1478-1565 | the steps of attaches and closes keep it, with the count's increment and the profile request as separate steps |
| `MirrorSteps.OpenStepKeeps` | internal/media/mirror.go:1750-1769 | the steps of opening a device keep it, with the load of the count apart from the dial |
| `MirrorSteps.CarryStepKeeps` | internal/media/mirror.go:1771-1831 | publishing, checking for a stronger stream and reading keep it |
| `MirrorSteps.CloseStepKeeps` | internal/media/mirror.go:2027-2043 | releasing, closing and leaving keep it |
| `MirrorSteps.EndStepKeeps` | internal/media/mirror.go:1592-1627 | the stages of an end keep it |
| `MirrorSteps.OnlyAmbientIsReplaced` | internal/media/mirror.go:1775-1829 | only a stream dialed at the grid's profile is ever given up for another |
| `MirrorSteps.OnlyAmbientIsCancelled` | internal/media/mirror.go:1950-1963 | what a viewer is told to cancel is an ambient dial, and only an operator viewer is told |
| `MirrorRuns.NoLostUpgrade` | internal/media/mirror.go:1478-1526 | in every run: while an uncancelled ambient stream is read, every operator viewer holding a place is still inside its attach and about to cancel this very dial |
| `MirrorRuns.UpgradeIsDialed` | internal/media/mirror.go:1893-1903 | in every run: a purpose picked while an operator viewer holds a place is the operator's |
| `MirrorRuns.DialsNeverWeaken` | internal/media/mirror.go:1703-1717 | in every run: successive dials never drop in rank, nothing is dialed after the operator's profile, an operator's session dials once |
| `MirrorRuns.OneStreamAtATime` | internal/media/mirror.go:1750-1769 | in every run: at most one stream is dialed and unreleased, it is the newest dial, none is open when the device is dialed again, and streams opened are those released, failed to close, or open |
| `MirrorRuns.FinishedMeansReleased` | internal/media/mirror.go:1703-1717 | in every run: once `finished` is closed every stream has been released, the end is over and nobody is counted |
| `MirrorRuns.WorkerComesCloser` | internal/media/mirror.go:1750-1831 | once the session's context is cancelled each worker step comes strictly closer to its return, and no other step moves it |
| `MirrorRuns.EndedWorkerReturns` | internal/media/mirror.go:1574-1582 | so in any further run the worker takes at most 21 steps of its own: what a stop waits for is bounded |
| `MirrorRuns.NeverStuck` | internal/media/mirror.go:1592-1627 | in every run, until the worker has returned it has a step of its own unless it waits for the device, whose answer is then a step, or for an end that is not over, which then has a step and the worker none |
| `MirrorRuns.IdleMeansUnwatched` | internal/media/mirror.go:1555-1565 | in every run the armed idle timer means no viewer is recorded |
| `MirrorRuns.FiredTimerEndsWatched` | internal/media/mirror.go:1489-1492 | a concrete run in which a timer that had already fired ends a session an operator has since attached to |
| `MirrorRuns.IdleEndEvicts` | internal/media/mirror.go:1555-1600 | in every run: the end a fired timer begins evicts nobody exactly when every viewer attached since the timer last fired has detached |
| `MirrorRuns.EndIsRecordedOnce` | internal/media/mirror.go:1592-1600 | whatever follows an end, the class it recorded stays |
| `MirrorReasons.PickIsExact` | internal/media/mirror.go:1893-1903 | in every run the purpose picked for a dial is the operator's if and only if an operator opened the session or a viewer of the operator's holds a place, said of the viewers and not of the count |
| `MirrorReasons.CheckIsExact` | internal/media/mirror.go:1842-1847 | so is the purpose a published stream is compared with |
| `MirrorReasons.DialFollowsPick` | internal/media/mirror.go:1754-1757 | whatever viewers and ends do in between, what is dialed is what was picked: the operator's profile exactly if it was needed at the load |
| `MirrorReasons.CompareFollowsLoad` | internal/media/mirror.go:1790-1800 | whatever happens in between, a published stream is given up exactly when it is the grid's and the operator's was needed at the load |
| `MirrorReasons.ReadEndMeans` | internal/media/mirror.go:1808-1831 | in every run a read that is over leads to another dial exactly when its own dial was cancelled and the session's context was not |
| `MirrorReasons.CancelIsExact` | internal/media/mirror.go:1950-1963 | in every run a viewer is told to cancel exactly the published stream, when that was dialed for the grid and the viewer is an operator's |
| `MirrorReasons.IdleTimerIsExact` | internal/media/mirror.go:1555-1565 | in every run a live session's timer is armed exactly when nobody watches it, somebody has, and it has not fired since the last of them attached |
| `MirrorReasons.DialsAsOpened` | internal/media/mirror.go:1893-1903 | in every run in which no operator attaches, the device is dialed at most once, and for what the session was opened for |
| `MirrorReasons.DialsAreLetGo` | internal/media/mirror.go:1752-1753 | in every run every dial but the one in use has had its context cancelled, and that one too once the worker is done |
| `MirrorReasons.ClassIsTheEnds` | internal/media/mirror.go:1592-1600 | a session has a class exactly once an end has begun, and it is that end's: for an idle one that the viewers left, for a stop that the engine stopped |
| `MirrorCapacity.AllowanceIsLargest` | internal/media/mirror.go:962-975 | a positive number of tiles is allowed exactly when it leaves the reserve and, with the reserve, fits the transport budget: the allowance is the largest such number |
| `MirrorCapacity.CarriedFits` | internal/media/mirror_profile.go:154-159 | a positive number of streams is carried by a budget exactly when their price is positive and together they fit it |
| `MirrorCapacity.OperatorIsRefused` | internal/media/mirror.go:1101-1108 | an operator's new session is refused exactly when the plane is full, whatever the grid holds |
| `MirrorCapacity.TileIsAdmitted` | internal/media/mirror.go:1101-1133 | a tile's is admitted exactly when there is a place and one tile more leaves the reserve free and fits the transport budget with it |
| `MirrorCapacity.TileRefusalStates` | internal/media/mirror.go:1122-1133 | a refused tile is told the plane is full, or the largest share that leaves the reserve and fits the budget |
| `MirrorPlane.MirrorEngine.CapacityRefusal` | internal/media/mirror.go:1101-1133 | the refusal a new session meets: the full plane first, then the spent tile share, counted over the sessions no operator is watching |
| `MirrorPlane.MirrorEngine.SessionFor` | internal/media/mirror.go:1058-1086 | the locked part of a start: the device's session, or a new one recorded exactly when its purpose is admitted |
| `MirrorPlane.MirrorEngine.StartViewer` | internal/media/mirror.go:1052-1092 | a stopped engine starts nothing; a viewer attaches to the device's session, or to a new one recorded exactly when its purpose is admitted, and to none that has ended; no other session changes |
| `MirrorPlane.MirrorEngine.Forget` | internal/media/mirror.go:1242-1248 | the device's session is forgotten only if it is still this one |
| `MirrorPlane.MirrorEngine.BeginStop` | internal/media/mirror.go:1210-1220 | no start is admitted any more, and the sessions of the map are the ones to end |
| `MirrorEngine.EngineStepKeeps` | internal/media/mirror.go:1052-1133 | every step of the engine over its interleaved sessions keeps the capacity split, the map, the counters and every session's invariant |
| `MirrorEngine.LoadKeepsCapacity` | internal/media/mirror.go:1114-1119 | a count loaded while viewers come and go still bounds the sessions that are the grid's alone |
| `MirrorEngineRuns.QuietStart` | internal/media/mirror.go:1101-1133 | while no count moves, a tile's start of a new device that has loaded every count comes to the one decision the engine object takes, over the sessions no operator is watching |
| `MirrorEngine.SessionStepKeepsMap` | internal/media/mirror.go:1242-1248 | a session is in the map exactly until its end forgets it |
| `MirrorEngine.SessionStepKeepsTally` | internal/media/mirror_accounting.go:46-78 | the audit's counters are the sums over all sessions they stand for |
| `MirrorEngineRuns.CapacityHolds` | internal/media/mirror.go:1101-1133 | in every run: live sessions never exceed the maximum, and those no operator opened or ever watched never exceed the tile allowance |
| `MirrorEngineRuns.OnlyOperatorsFillTheReserve` | internal/media/mirror.go:1101-1104 | in every run: when the operator meets a full plane, at least the reserve's number of sessions were opened or watched by an operator |
| `MirrorEngineRuns.RefusalCounts` | internal/media/mirror.go:1101-1104 | in every run the sessions are those an operator watches now, those operators have left behind and the grid's own, each once; as a corollary a full plane has the whole reserve watched exactly when the last two leave the reserve free |
| `MirrorEngineRuns.ReserveIsNotKept` | internal/media/mirror.go:1101-1133 | a concrete run after which every session is a tile's, one more than the allowance, and the operator is refused |
| `MirrorEngineRuns.StopLeavesNothing` | internal/media/mirror.go:1210-1238 | in every run: when a stop has returned with no error every session ever started has ended, its worker has returned, its streams are let go, the map is empty, and the audit is clean exactly when no close failed |
| `MirrorEngineRuns.StoppedStaysStopped` | internal/media/mirror.go:1052-1063 | after a stop nothing is started and nothing more runs |
| `MirrorEngineRuns.StopWaitsForTheForgotten` | internal/media/mirror.go:1233-1236 | a run in which nothing of a stop's snapshot is outstanding and the wait group still has a worker with an open stream: the final wait is not idle, against its comment |
| `MirrorEngineRuns.SnapshotMissesTheForgotten` | internal/media/mirror.go:1210-1220 | in every run, once stopped, every session outside the stop's snapshot has been forgotten by its end |
| `MirrorEngineRuns.FinalWaitIsIdle` | internal/media/mirror.go:1221-1238 | in every run, with the snapshot's workers finished: no goroutine is left exactly when those workers and the worker of every session forgotten before the stop have returned, and a worker still has something to do exactly when one of the forgotten has |
| `MirrorEngineRuns.EngineNeverStuck` | internal/media/mirror.go:1064-1133 | in every run, while a goroutine runs the engine has a step that no viewer, start or stop has to bring: a start holding the lock goes on with its counting or its decision, else some session goes on |
| `MirrorEngineRuns.TwoStreamsOfOneDevice` | internal/media/mirror.go:1622-1624 | a run with two open streams of one device: a session is forgotten before its worker releases |
| `MirrorEngineRuns.OneOfTwoIsForgotten` | internal/media/mirror.go:1242-1248 | in every run, of two sessions of one device one has been forgotten by its end |
| `MirrorEngineRuns.OneStreamOfADevice` | internal/media/mirror.go:1622-1624 | in every run a device has at most one open stream exactly when no forgotten session of it holds one beside another session that does |
| `MirrorAccounting.Accounting.SessionEnded` | internal/media/mirror_accounting.go:52-60 | one more end, counted under its class |
| `MirrorAccounting.Accounting.EndsByClass` | internal/media/mirror_accounting.go:87-107 | the list of ends: the stated order, each class once with its count, names outside the vocabulary last, and every class but the leftover server's |
| `MirrorAccounting.EndsLeaveOutLeftovers` | internal/media/mirror_accounting.go:112-120 | the stated counts add up to the sessions ended less the ends on a leftover server, which the order omits |
| `MirrorAccounting.EndedWithoutAFailure` | internal/media/mirror_accounting.go:180-190 | true exactly when something ended and no stated class is a failure; a viewer leaving and no class at all are none |
| `MirrorAccounting.NoFailureMeans` | internal/media/mirror_accounting.go:180-190 | no stated class is a failure exactly when every end there was is a viewer leaving, one without a class, or on a leftover server |
| `MirrorAccounting.StatedInOrder` | internal/media/mirror_accounting.go:112-120 | of two classes in the list the earlier is the one the order states first, and names outside it come last, by name |
| `MirrorAccounting.LeftoverGoesUnreported` | internal/media/mirror_accounting.go:112-120 | one end on a leftover server, a failure, is reported as none |
| `MirrorFeed.MirrorFeed.Publish` | internal/media/mirror.go:2047-2097 | configuration is tracked and not forwarded; every open viewer is offered the picture, a key frame with the tracked sets if it lacks its own |
| `MirrorFeed.MirrorFeed.PublishStream` | internal/media/mirror.go:2010-2020 | a new stream drops the sets, the cached key frame and its time, and takes its size |
| `MirrorFeed.MirrorFeed.Redeclare` | internal/media/mirror.go:1975-1989 | a re-declaration at a real size does the same; one at none changes nothing |
| `MirrorFeed.MirrorFeed.TrackParameterSets` | internal/media/mirror.go:2101-2109 | sets are tracked only as a pair out of one unit |
| `MirrorFeed.MirrorFeed.Keyframe` | internal/media/mirror.go:2157-2164 | a late viewer is primed with the newest key frame of the present encoder as it was offered, if there was one, and with the newest sets; it carries both sets when every encoder supplies them in time |
| `MirrorFeed.RunDecodable` | internal/media/mirror.go:2047-2097 | over a whole run every offered key frame carries both sets exactly when each encoder has sent both in one unit by its key frames |
| `MirrorFeed.KeyFrameDecodable` | internal/media/mirror.go:2069-2072 | one key frame is offered decodable exactly when this encoder has supplied both sets by then |
| `MirrorFeed.CachedIsDecodable` | internal/media/mirror.go:2077-2087 | then the cached key frame carries both sets too |
| `MirrorFeed.TracksWhatIsSupplied` | internal/media/mirror.go:2101-2109 | what is tracked is exactly a pair of sets the present encoder has sent |
| `MirrorFeed.SetsAreTheNewest` | internal/media/mirror.go:2101-2109 | over any list of events the tracked sets are those of the newest packet of the present encoder that carries both, or nothing |
| `MirrorFeed.OfferedExactly` | internal/media/mirror.go:2064-2072 | over any list of events a frame is offered as it is, except that a key frame without both sets is offered with the newest in front |
| `MirrorFeed.KeyIsTheNewest` | internal/media/mirror.go:2077-2087 | over any list of events what is cached is the newest key frame of the present encoder, as it was offered, with its time, and nothing exactly when there was none |
| `MirrorFeed.SizeIsTheNewest` | internal/media/mirror.go:1975-2020 | over any list of events the size is the one the present encoder was declared at |
| `MirrorFeed.OfferKeepsPicture` | internal/media/mirror.go:2069-2072 | offering a key frame never changes its picture |
| `MirrorFeed.MirrorViewer.Offer` | internal/media/mirror.go:2167-2191 | with the reader taking frames at any moment: the frame is always queued, at most one frame is dropped and only if the queue was full, and what left the queue followed by the queue is everything offered, in order |
| `MirrorFeed.MirrorViewer.Close` | internal/media/mirror.go:2213-2219 | a closed viewer is offered nothing more; what it has queued stays to be read |
| `MirrorFeed.OfferAll` | internal/media/mirror.go:2167-2191 | a viewer nobody reads holds exactly the newest frames offered within its depth, and counts the rest as dropped |
| `MirrorFeed.MirrorFeed.OfferToAll` | internal/media/mirror.go:2090-2096 | every open viewer is offered the frame once, and a closed one nothing |
| `AnnexB.NalSpans` | internal/media/h264.go:42-78 | the scanner's loops compute the spans the scanning function defines, for every buffer |
| `AnnexB.FindNextCode` | internal/media/h264.go:64-71 | the inner loop finds the next start code, or the end |
| `AnnexB.SpanAt` | internal/media/h264.go:42-78 | every span is a start code, a header byte that gives its type, and no start code up to its end |
| `AnnexB.SpansTile` | internal/media/h264.go:42-78 | the spans tile the buffer from the first start code on |
| `AnnexB.NalPayload` | internal/media/mp4.go:458-470 | a span's payload is its bytes without the start code |
| `AnnexB.ParameterSets` | internal/media/h264.go:82-92 | the last SPS and the last PPS of a buffer |
| `AnnexB.KeyFrame` | internal/media/h264.go:102-109 | a buffer is a key frame exactly when one of its NAL units is of type 5 |
| `AnnexBLaws.ParseUndoesPrint` | internal/media/h264.go:42-78 | for every list of units and any mix of start codes, parsing returns exactly the units printed if and only if each survives the scanner: no code inside, no zero lost to the next code |
| `AnnexBLaws.StandardUnitsParseBack` | internal/media/h264.go:42-78 | units as section 7.4.1 of ITU-T H.264 makes them always parse back |
| `AnnexBLaws.ScanUnitThen` | internal/media/h264.go:42-78 | the scan of a unit followed by more: the unit, perhaps without the zero the next start code takes, then the scan of the rest |
| `AnnexBLaws.AttachedAreCarried` | internal/media/h264.go:117-128 | sets extracted from any buffer and put in front of any bytes are carried by the result, even when a set ends in zero bytes |
| `AnnexBLaws.PrefixGuardUnreachable` | internal/media/h264.go:121-123 | a unit that begins with the tracked sets carries them already: the prefix guard never decides |
| `AnnexBLaws.ReattachKeepsMeaning` | internal/media/h264.go:117-128 | re-attaching tracked sets yields both sets, the same key-frame answer and the same picture, and a second attach changes nothing |
| `AnnexBLaws.ExtractedSet` | internal/media/h264.go:82-92 | an extracted set is a unit of its own of that type, and one is extracted exactly when there is one |
| `Mp4Sample.ConvertUnit` | internal/media/mp4.go:434-455 | the sample is the unit's NAL units but its parameter sets, each with its 32-bit length, in order |
| `Mp4Sample.BuildAvcC` | internal/media/mp4.go:386-428 | the decoder configuration record, or which of its three refusals applies |
| `Mp4Sample.SplitUndoesPrefix` | internal/media/mp4.go:434-455 | splitting a sample by its lengths gives its units back, in order, exactly when every length fits |
| `Mp4Sample.RecordReadsBack` | internal/media/mp4.go:386-428 | a record, read from its layout, states version 1, the profile, compatibility and level of its first SPS and 4-byte lengths; and exactly the sets it was built from, exactly when each fits a 16-bit length |
| `Mp4Sample.DeclaredExactly` | internal/media/mp4.go:386-404 | sets are declared exactly when there are 1 to 31 SPS and 1 to 255 PPS and the first SPS has four bytes; otherwise the refusal is the first that applies |
| `Mp4Sample.SampleBound` | internal/media/mp4.go:434-455 | a sample is at most a quarter longer than its unit and a record at most seven bytes longer than its sets |
| `Mp4Reader.BoxReader.Next` | cmd/mirror-transport-measure/main.go:689-722 | the box reader consumes one box, short or long form, or says which of its failures it met |
| `Mp4Reader.BoxReadsBack` | cmd/mirror-transport-measure/main.go:689-722 | a printed box whose size fits 32 bits is read back with exactly its body, and what follows it is left |
| `Mp4Reader.ReadExactly` | cmd/mirror-transport-measure/main.go:689-722 | for every byte string: a box in short or long form is read with exactly its body when its size covers its header and its bytes are there, and otherwise refused for the first reason that holds |
| `Mp4Laws.FragmentReadsBack` | internal/media/mp4.go:477-504 | a printed fragment reads back as its sequence, decode time, duration, key flag and size, and its data offset addresses the first byte after it and the mdat header |
| `Mp4Laws.DeclarationReadsBack` | internal/media/mp4.go:510-593 | a printed initialisation segment reads back as the size and the record it was built from |
| `Mp4Laws.MovieReadsBack` | internal/media/mp4.go:510-593 | the rest of a printed movie box reads back too: microseconds, one enabled video track of the declared size and unturned, its media in the file, and samples described by fragments alone |
| `Mp4Laws.BrandsReadBack` | internal/media/mp4.go:510-520 | the printed file type states the brands of a fragmented H.264 file |
| `Mp4Writer.MP4Writer.SetSize` | internal/media/mp4.go:299-305 | a real size is taken for the next declaration; another is refused and changes nothing |
| `Mp4Writer.MP4Writer.Step` | internal/media/mp4.go:349-362 | the duration is the forward difference to the last timestamp, capped at 32 bits, or the duration before |
| `Mp4Writer.MP4Writer.DeclareSets` | internal/media/mp4.go:320-337 | a declaration is written and recorded, or a refusal changes nothing |
| `Mp4Writer.MP4Writer.WriteAccessUnit` | internal/media/mp4.go:219-287 | a refused unit changes neither output nor state; an accepted one appends what the specification says; only an unsound sink can fail in between |
| `Mp4Writer.MP4Writer.InitSegment` | internal/media/mp4.go:175-180 | nothing before the first declaration, and then a declaration of the writer's own sets at the size it last declared |
| `Mp4Session.DeclarationInForce` | internal/media/mp4.go:236-268 | a unit is accepted exactly when the reference accepts it, and then what was last declared is the current size and the latest sets |
| `Mp4Session.PlayedIsMeant` | internal/media/mp4.go:219-287 | what a player reads from the bytes of any run whose boxes can state their sizes, from any state the writer reaches, is what the run means to a reference without bytes |
| `Mp4Session.SessionReadsBack` | internal/media/mp4.go:219-287 | the whole output of a fresh writer parses back into one picture for each accepted unit, under the declaration in force, with its own NAL units, in order |
| `Mp4Session.LateReader` | internal/media/mp4.go:175-180 | a reader that attaches late and is sent the writer's header reads the rest of the run exactly |
| `Mp4Reader.SizeIsStated` | cmd/mirror-transport-measure/main.go:689-722 | a printed box states its own size exactly when it fits 32 bits |
| `Mp4Laws.MoovSize` | internal/media/mp4.go:510-593 | the movie box of a declaration fits 32 bits exactly when its record is at most 2^32 - 585 bytes |
| `Mp4Session.SmallUnitsFit` | internal/media/mp4.go:434-455 | every box of a unit of at most 2^30 bytes states its size |
| `Mp4Run.RunWriter` | internal/media/mp4.go:219-287 | the writer object over any list of calls and a sound sink: the sink holds the run's output, and a player reads from it what the run means |
| `Mp4Run.DeclaresItsOwnSets` | internal/media/mp4.go:386-428 | the record of a unit's sets is read as its own last SPS and last PPS, at bytes 1 to 3 of that SPS, exactly when each has a 16-bit length |
| `Mp4Run.SessionIsDeclared` | internal/media/mp4.go:236-268 | every picture of a session is declared with the last SPS and PPS of one of the session's own units and at that SPS's profile and level, read back under the same condition |
| `Mp4Run.LastSetIsLast` | internal/media/h264.go:82-92 | an extracted set is the last unit of its type |
| `Mp4Session.TimelineRuns` | internal/media/mp4.go:270-285 | each fragment begins where the one before it ends, lasts at least one tick, and follows it in sequence, whatever the timestamps |
| `Mp4Session.DecodeTimesIncrease` | internal/media/mp4.go:270-285 | a decode time is greater than the one before exactly while the 64-bit timeline has room |
| `Mp4Session.DurationsAreDeltas` | internal/media/mp4.go:349-362 | a picture after a smaller timestamp lasts exactly the difference |
| `Mp4Session.DecodeTimesTelescope` | internal/media/mp4.go:349-362 | for forward timestamps decode times telescope from the first picture |
| `Mp4Session.SessionTimeline` | internal/media/mp4.go:349-362 | for a whole session with a forward clock, picture k is decoded at 33333 + pts[k-1] - pts[0] |
| `Mp4Pictures.EveryPictureIs` | internal/media/mp4.go:219-287 | over a whole session a call becomes a picture exactly when it has one, it is a key frame if it would be the first, and the sets it or else the newest picture with sets carries can be declared; each picture is its own NAL units under exactly those sets at the newest size set |
| `Mp4Pictures.DurationIs` | internal/media/mp4.go:349-362 | a picture lasts the forward difference to the timestamp before, cut to 32 bits, or as long as the one before it when there is none |
| `Mp4Pictures.CountsArePictures` | internal/media/mp4.go:281-286 | the stream's own numbers are the pictures a player reads and the key frames among them, in 64 bits |
| `Mp4Pictures.RefusedFor` | internal/media/mp4.go:219-268 | why a unit is refused: the first of the reasons that holds, in their order |
| `ControlMessage.DecodeFollowers` | internal/media/control_channel.go:197-226 | the offset loop reads exactly the payload the format defines, and refuses every other |
| `ControlMessage.ValidateFollowers` | internal/media/control_channel.go:228-243 | a selection is valid exactly when it is short enough and every id is within its bounds, UTF-8 with no white space around it and no control character in it |
| `ControlMessage.Validate` | internal/media/control_channel.go:147-195 | the field checks, in their order, accept exactly the valid messages |
| `ControlMessage.ValidExactly` | internal/media/control_channel.go:147-195 | what every valid message has, and what each of the six kinds has besides, in numbers |
| `Text.RunesAreSpelled` | internal/media/control_channel.go:233 | bytes are valid text exactly when they are the UTF-8 spelling of characters, and then of the characters they read as |
| `Text.PlainExactly` | internal/media/control_channel.go:233-240 | an id is plain exactly when it spells characters, none a control, the first and the last no white space |
| `Text.TrimIsExact` | internal/product/transport_watcher.go:601-632 | trimming takes the white space at both ends, all of it and nothing else |
| `ControlMessage.PayloadIsCanonical` | internal/media/control_channel.go:197-226 | a payload reads as a list of ids exactly when the list is valid and the payload is its one printing |
| `ControlMessage.DecodeUndoesEncode` | internal/media/control_channel.go:90-145 | decoding returns every valid message the layout can carry |
| `ControlMessage.EncodeUndoesDecode` | internal/media/control_channel.go:90-145 | an accepted wire is the printing of what it decodes to, but for bits 1 to 7 of its third byte |
| `ControlMessage.SameMessageSameWire` | internal/media/control_channel.go:110-128 | two accepted wires mean the same message exactly when they agree outside those bits |
| `ControlMessage.IgnoredBitsAreIgnored` | internal/media/control_channel.go:114 | whatever those bits hold, the message is accepted and the same |
| `ControlMessage.EncodedFits` | internal/media/control_channel.go:16-19 | every valid message fits: at most 8394 bytes of 16384 |
| `ControlQueue.ControlQueue.Accept` | internal/media/control_channel.go:292-330 | the automaton moves as its transition function says, or refuses and stays |
| `ControlQueue.ControlQueue.Enqueue` | internal/media/webrtc.go:861-879 | the pending move a message overtakes is overwritten, else it is appended, else the full queue refuses it |
| `ControlQueue.ControlQueue.Receive` | internal/media/webrtc.go:841-855 | once the control's context is cancelled a message is refused unseen; before that it is taken exactly when the automaton accepts it and there is room or it overtakes the last pending move, and a refusal closes the channel; what goes out is a run of the protocol exactly when no touch in it was queued out of step: while what had been accepted and what had been queued left different gestures under way; pending never exceeds 64 and never sleeps |
| `ControlQueue.ControlQueue.NothingLost` | internal/media/webrtc.go:858-860 | until the channel is told to close, what goes out is a run of a fresh automaton to the present state and coalesces to what coalescing makes of what was accepted |
| `ControlQueue.ControlQueue.Admit` | internal/media/webrtc.go:846-854 | the part under the lock: automaton, queue, and the close of the channel when either refuses |
| `ControlQueue.ControlQueue.OnClose` | internal/media/webrtc.go:818-824 | the closed channel cancels the control's context, and nothing else changes |
| `ControlQueue.ControlQueue.TakeNext` | internal/media/webrtc.go:893-905 | the deliverer returns once the context is cancelled, takes the oldest message, or goes back to wait only when there is none |
| `ControlQueue.ControlQueue.HandOver` | internal/media/webrtc.go:909-915 | a message is handed over unless the context was cancelled meanwhile, a failed handler closes the channel and ends the deliverer, and what was handed over is a run exactly when no touch in it was queued out of step |
| `ControlQueue.ControlQueue.Woken` | internal/media/webrtc.go:883-889 | the deliverer leaves its wait: woken, or returning because the context is cancelled |
| `ControlProtocol.StreamAfterPush` | internal/media/webrtc.go:861-879 | pushing an accepted message keeps the outgoing stream a run of the protocol |
| `ControlProtocol.OverwriteIsAccepted` | internal/media/webrtc.go:863-869 | without the move it overtakes, a message brings the automaton to the same state |
| `ControlProtocol.OverwriteCoalesces` | internal/media/webrtc.go:863-869 | overwriting the last of a stream coalesces as appending does |
| `ControlProtocol.CoalescedIsAccepted` | internal/media/control_channel.go:292-330 | a stream the protocol accepts is accepted coalesced, to the same state |
| `ControlProtocol.MovesErasedAgree` | internal/media/webrtc.go:858-860 | moves erased, what goes out is what was accepted, and both end with the same message |
| `ControlProtocol.CoalescedHasNoneOvertaken` | internal/media/webrtc.go:858-860 | coalescing leaves no move that the next event overtakes |
| `ControlProtocol.CoalescedKeepsSurvivors` | internal/media/webrtc.go:858-860 | coalescing keeps exactly the messages their successor does not overtake, in order: the latest move before each next other event, and every other event |
| `ControlQueue.LostUpBreaksProtocol` | internal/media/webrtc.go:841-855 | a concrete run from a new peer: a touch-up is lost to the full queue and the next touch-down is accepted before the channel closes, and what goes out is no run |
| `ControlProtocol.LossIsHarmless` | internal/media/webrtc.go:870-872 | whatever is accepted after a lost message is accepted without it exactly when the message is no touch-down, touch-up or touch-cancel |
| `ControlProtocol.LossesAreHarmless` | internal/media/webrtc.go:870-872 | whatever is accepted after any stretch of lost messages is accepted without them exactly when the stretch leaves the gesture under way as it was |
| `ControlProtocol.TouchNeedsGesture` | internal/media/control_channel.go:311-328 | a touch one automaton accepts is accepted by another behind it exactly when the same gesture is under way |
| `ControlProtocol.AcceptsExactly` | internal/media/control_channel.go:292-330 | the automaton accepts exactly valid messages of its generation with a new number, a touch-down when no gesture is under way and another touch of the one that is; and which gesture is then under way |
| `ControlHistory.RunThen` | internal/media/webrtc.go:861-879 | one message more keeps what goes out a run exactly when it was one and a touch finds its gesture under way |
| `ControlHistory.RunOverwritten` | internal/media/webrtc.go:863-869 | a move in the place of the one it overtakes keeps a run a run, and makes none of what is none |
| `ControlHistory.BeginningIsExact` | internal/media/webrtc.go:841-879 | every beginning of what goes out is a run exactly when no touch with a place in it was queued out of step |
| `ControlProtocol.LossBreaksAtNextTouch` | internal/media/webrtc.go:870-872 | with another gesture under way than the automaton has, what it accepts is refused exactly from its first touch on |
| `ControlHistory.LossIsSound` | internal/media/webrtc.go:870-872 | a loss keeps the exact account: how much of what goes out is a run stays what the history says |
| `ControlHistory.PushIsSound` | internal/media/webrtc.go:861-879 | a queued message, appended or in the place of the move it overtakes, keeps the exact account, for every beginning of what goes out |
| `FrameScheduler.NextRequest` | internal/media/frames.go:909-917 | the waiting task of the earliest batch, and in it the lowest serial |
| `FrameScheduler.Scheduler.FinishBatchDevice` | internal/media/frames.go:745-759 | a batch counts down and is forgotten at zero |
| `FrameScheduler.NewlyDue` | internal/media/frames.go:867-876 | the due devices that neither wait nor run, in order |
| `FrameScheduler.Scheduler.EnqueueDue` | internal/media/frames.go:761-784 | the due devices that neither wait nor run become one new batch, and if there are none nothing changes |
| `FrameScheduler.Scheduler.StartPending` | internal/media/frames.go:786-804 | tasks start in order, as the step-by-step function of the board says, until nothing waits or exactly the bound runs |
| `FrameScheduler.AllStartedFills` | internal/media/frames.go:786-804 | unless cancelling, after starting either nothing waits or exactly the bound is in flight, never more; and no start is taken back |
| `FrameScheduler.AllStartedAnswers` | internal/media/frames.go:786-796 | each task gone from the queue was started, its device found subscribed when its turn came, or dropped, its device gone |
| `FrameStarts.StartsExactly` | internal/media/frames.go:786-804 | of each waiting device: its turn comes exactly when the captures in flight and the watched devices ahead of it leave a place; then it starts exactly when it is watched, and is dropped otherwise; else it waits on |
| `FrameStarts.StartsAreNew` | internal/media/frames.go:793-804 | every start is of a device that waited, in its batch, and there are as many as new captures in flight |
| `FrameStarts.AdmissionIsExact` | internal/media/frames.go:761-804 | a whole turn: the due devices that neither wait nor run join the line in one new batch, each device's turn comes or not as above, and then nothing waits or every place is taken |
| `FrameStarts.TotalsAreSums` | internal/media/frames.go:981-991 | each count of the totals is the sum of that count over the captures completed |
| `FrameStarts.LastFailureIsLatest` | internal/media/frames.go:987-990 | and the last failure is that of the latest capture that had one |
| `FrameScheduler.Scheduler.StartOne` | internal/media/frames.go:788-796 | the next task starts, or is dropped from its batch when its device is no longer subscribed |
| `FrameScheduler.Scheduler.Admit` | internal/media/frames.go:806-839 | the top of the loop, as a function of the board: an over context cancels and drops what waits, a cancellation seen already is not looked for again, what is newly due is enqueued once and started until nothing waits or exactly the bound runs, and the end is decided exactly when cancelling and nothing runs |
| `FrameScheduler.Scheduler.Drain` | internal/media/frames.go:807-814 | a cancellation seen at the top of the loop drops everything that waits |
| `FrameScheduler.Scheduler.Complete` | internal/media/frames.go:852-856 | a completed capture leaves the running ones and enters the totals once |
| `FrameScheduler.Scheduler.Hear` | internal/media/frames.go:842-856 | what wakes the loop changes only what it names; a result enters the totals exactly when its capture was running |
| `FrameScheduler.Scheduler.Run` | internal/media/frames.go:725-858 | over any environment every step keeps: no serial both waits and runs, running tasks within the bound, each batch's remainder its outstanding tasks, starts strictly by batch and serial, every task accounted for; it returns in the first turn that finds the cancellation seen and nothing running, with the totals the sum over all captures started, and something is left waiting exactly when the cancellation was first seen in a select while something waited |
| `FrameScheduler.WaitsSince` | internal/media/frames.go:806-849 | over any script, once a cancellation has been seen what waits stays as it was after the turn that saw it, and nothing waits when a top of the loop saw it first |
| `FrameScheduler.LeftWaiting` | internal/media/frames.go:847-849 | a concrete script on which the loop returns with a device waiting and its batch outstanding, because the select skips the drain |
| `FrameScheduler.StartKeeps` | internal/media/frames.go:786-804 | starting the next task keeps every invariant: no task starts while an earlier batch waits |
| `FrameScheduler.EnqueueKeeps` | internal/media/frames.go:761-784 | a new batch comes after everything started and counts exactly its devices |
| `FrameScheduler.CompletionKeeps` | internal/media/frames.go:852-856 | a completion leaves every batch counting its outstanding tasks |
| `FrameScheduler.DropKeeps` | internal/media/frames.go:808-814 | a dropped task leaves every batch counting its outstanding tasks |
| `TransportWatcher.Watcher.Observe` | internal/product/transport_watcher.go:363-496 | one poll: every counter of polls, errors and conditions moves exactly when it should; failures and empty answers keep the view and hand nothing over; otherwise the view, the counters, what is held and what is handed over are what the comparison of the two views says, and the conservation laws hold |
| `TransportWatcher.Watcher.See` | internal/product/transport_watcher.go:386-496 | an answer's view is the baseline, no observation when it is empty, or compared with the view before |
| `TransportWatcher.Watcher.TakeView` | internal/product/transport_watcher.go:431-493 | the changes between two views keep attached = baseline + arrivals - departures - reidentified |
| `TransportWatcher.Watcher.RecordArrivals` | internal/product/transport_watcher.go:503-532 | a refused batch is held for the next poll, an accepted one is counted and held no longer |
| `TransportWatcher.Watcher.RecordDepartures` | internal/product/transport_watcher.go:544-572 | a refused batch of departures is counted and not offered again |
| `TransportWatcher.ViewsBalance` | internal/product/transport_watcher.go:423-493 | the size of a view follows from what arrived, departed and was re-identified |
| `TransportWatcher.PendingBalance` | internal/product/transport_watcher.go:417-439 | what is owed to the registry is what just arrived and what is still attached of what it refused, each once |
| `TransportWatcher.WhatChanged` | internal/product/transport_watcher.go:417-493 | of each key: whether it arrived, departed, changed its name, is owed or is still held, said of the two views and what is held |
| `TransportKeys.RecordsTellApart` | internal/product/transport_watcher.go:601-603 | two devices have one record exactly when their ports agree and their trimmed serials and hosts, joined, do |
| `TransportKeys.RecordsAreEndpoints` | internal/product/transport_watcher.go:601-603 | as long as no serial holds the separator, exactly when serial, host and port all agree |
| `TransportKeys.SharedRecord` | internal/product/transport_watcher.go:601-603 | two endpoints that share a record because a serial holds the separator |
| `TransportKeys.TransportsTellApart` | internal/product/transport_watcher.go:613-632 | as long as no serial holds the separator, two transports share a key exactly when what identifies them agrees - serial and identifier, or what there is of serial and address - and one has none exactly when it has neither |
| `TransportKeys.SharedTransport` | internal/product/transport_watcher.go:613-632 | two transports that share a key because a serial holds the separator |
| `TransportKeys.ViewIsTheAnswer` | internal/product/transport_watcher.go:386-394 | a view holds exactly the identified transports of its answer, each as its last mention has it |
| `TransportWatcher.Owed` | internal/product/transport_watcher.go:417-439 | the loops collect exactly what is owed and count what arrived |
| `TransportWatcher.Leaving` | internal/product/transport_watcher.go:456-493 | the loop separates what left from what only changed its identifier |
| `TransportWatcher.Snapshot` | internal/product/transport_watcher.go:386-394 | the view of an answer: identified transports by key, the later of two with one key |
| `TransportWatcher.Watch` | internal/product/transport_watcher.go:332-357 | after any run of polls the laws hold, and there is a baseline exactly when a poll was answered |
| `TransportCondition.ConditionLog.Observe` | internal/product/transport_condition.go:162-188 | a line is written when a condition starts, changes, or its count is a power of two; so the lines of a condition are one and the logarithm of its occurrences |
| `TransportCondition.ConditionLog.Clear` | internal/product/transport_condition.go:192-199 | an answer ends the condition, and is reported exactly if there was one |
| `TransportCondition.BitTestIsPowerOfTwo` | internal/product/transport_condition.go:184-187 | the bit test on the count is the test for a power of two |
| `TransportCondition.LogSteps` | internal/product/transport_condition.go:148-155 | the logarithm grows exactly at powers of two |
| `EventGrouping.EventGrouper.Add` | internal/recordings/event_grouping.go:67-103 | refused inputs change nothing; otherwise what is given out and held back are the summaries of the greedy partition of everything taken in |
| `EventGrouping.EventGrouper.Flush` | internal/recordings/event_grouping.go:105-115 | what is held back is given out, completing the summaries |
| `EventGrouping.GroupAll` | internal/recordings/event_grouping.go:67-115 | for every list of acceptable inputs of one device, the outputs and the flush are the summaries of the greedy partition |
| `EventGrouping.GreedyMeans` | internal/recordings/event_grouping.go:121-138 | the groups said of the inputs alone: one joins on the same device and target, no earlier than the group began, as text of its kind within the window of the last finish or as a second tap within its own; and a group ends where the next may not join |
| `EventGrouping.ActionOfInput` | internal/recordings/event_grouping.go:165-192 | what one input becomes: its kind, a long press from the stated minimum on, when it finished and how long its text is |
| `EventGrouping.AcceptedExactly` | internal/recordings/model.go:579-597 | an input is taken exactly when its device has a name and its text, lengths, key and end are in their bounds |
| `EventGrouping.WindowsAreUsual` | internal/recordings/event_grouping.go:25-36 | a window that is not stated is 300, 750 or 600 milliseconds |
| `EventGrouping.GreedyIsUnique` | internal/recordings/event_grouping.go:121-138 | the greedy rule decides every boundary: there is one such partition |
| `EventGrouping.GrownIsGreedy` | internal/recordings/event_grouping.go:84-103 | placing one more action by the rule keeps the partition greedy |
| `EventGrouping.TextRun` | internal/recordings/event_grouping.go:140-153 | a text group says the concatenated text and the summed length, from its first start to its last finish |
| `EventGrouping.TextRunSensitivity` | internal/recordings/event_grouping.go:155-163 | it is as sensitive as its most sensitive input, and confirmed when any was |
| `EventGrouping.OtherRuns` | internal/recordings/event_grouping.go:140-145 | nothing else combines but two taps; a double tap holds exactly two and keeps the first's sensitivity and confirmation |
| `EventGrouping.GroupSeverity` | internal/recordings/event_grouping.go:140-163 | an action is as sensitive as its most sensitive input, and confirmed when any input was, exactly when it is text, a single input, or a double tap whose first tap is at least as sensitive, or whose second is confirmed only if the first is |
| `EventGrouping.SecondTapIsForgotten` | internal/recordings/event_grouping.go:140-145 | two taps on one target, the second of uncertain sensitivity: their double tap is not sensitive |
| `H264Wire.Encode` | internal/media/h264_wire.go:34-51 | the buffer is filled with the packet's wire, exactly for valid packets |
| `H264Wire.Decode` | internal/media/h264_wire.go:55-87 | a wire decodes exactly when it is framed and its packet is valid |
| `H264Wire.HasAnnexBStartCode` | internal/media/h264_wire.go:105-112 | the loop finds a start code exactly when there is one |
| `H264Wire.Validate` | internal/media/h264_wire.go:89-103 | the validity of a packet, both ways |
| `H264Wire.DecodeUndoesEncode` | internal/media/h264_wire.go:34-87 | every valid packet is read back from its wire |
| `H264Wire.EncodeUndoesDecode` | internal/media/h264_wire.go:34-87 | every accepted wire is the one wire of its packet |
| `H264Wire.ExactlyOneWire` | internal/media/h264_wire.go:53-75 | nothing may follow an accepted wire, and no prefix of one is accepted |
| `H264Wire.FieldsAreAt` | internal/media/h264_wire.go:34-51 | where each field of a wire is: magic, version, flags, then big-endian numbers, then the payload |
| `H264Wire.AcceptedExactly` | internal/media/h264_wire.go:55-103 | the wires that are accepted, byte by byte: framing, numbers in bounds, and 0, 0, 1 somewhere in the payload |
| `H264Timeline.Stream.Carry` | internal/media/mirror_endpoint.go:372-430 | a picture is carried exactly when its timestamp fits 64 bits and it is a valid packet; then the wire decodes to the next number and the next timestamp |
| `H264Timeline.StampsIncrease` | internal/media/mirror_endpoint.go:377-397 | timestamps strictly increase, whatever the device's clock does |
| `H264Timeline.StampsFollowTheClock` | internal/media/mirror_endpoint.go:377-397 | a timestamp is after the last by the device's own difference, or by one when its clock stands still or goes back |
| `H264Timeline.AdvancingClock` | internal/media/mirror_endpoint.go:377-397 | while the device's clock advances a timestamp is the device time since the first picture, and the bound is never met |
| `Downscale.TargetFits` | internal/media/still.go:153-165 | a target size is never empty and never larger than the screen |
| `Downscale.TargetKeepsShape` | internal/media/still.go:153-165 | a screen no wider than the profile keeps its size; a wider one is scaled to the width, its height in proportion, rounded down and at least one |
| `Downscale.DownscaleArea` | internal/media/still.go:320-361 | every destination pixel becomes the average of its tile of the source's bounds, wherever they begin, and nothing is written for an empty picture |
| `Downscale.AverageTile` | internal/media/still.go:328-358 | one pixel: the tile's bounds, its sums, and its means cut to eight bits |
| `Downscale.TileIsItsStretch` | internal/media/still.go:313-319 | for every size a profile gives, each source pixel lies in the tile of exactly one destination pixel |
| `Downscale.TileIsTheMean` | internal/media/still.go:328-358 | each of a pixel's four channels is the mean of that channel over its tile, cut to eight bits |
| `Downscale.TilesAreNonEmpty` | internal/media/still.go:328-341 | no tile is empty when there are no more tiles than pixels, and the tiles run from edge to edge |
| `Downscale.TilesCoverSource` | internal/media/still.go:313-319 | over all tiles any channel sums to its sum over the source: every pixel is used once |
| `Downscale.CountsAddUp` | internal/media/still.go:342-351 | the counts over all tiles add up to the source's pixels |
| `Downscale.MeanIsBetween` | internal/media/still.go:352-358 | a channel of an averaged pixel lies between the least and the greatest of its rectangle |

## Left out

- The negotiation, the network, JPEG and PNG, the device's own tools and every store: libraries and devices outside the model.
- The operator console, environment parsing, log and report text, error wording: an error is a tag here.
- Wall-clock durations: the idle bound, the sweep times, capture cadences and freshness enter only as what is due, fired or over.
- Liveness under a real scheduler: what is proved instead is that some step is always possible and that an ended worker's own steps are bounded.
- Input to a session (`sendInput`) and the key-frame request: one-branch checks in front of a device call.
- The refusal of an empty device or serial, and the names minted for viewings, in `StartViewer` and `attach`.
- `Serve`'s loop around the writer: it hands sizes and timestamps on, and its rebasing of timestamps wraps when the device's clock restarts below its base; the writer's timeline is proved for any timestamps and any sizes it is given.
- `SyncSubscriptions` and the recording of frames and failures in the capture engine: map bookkeeping around the scheduler.
- `stillQualityLadder`: a bounded list of encode qualities, which would only add an easy member.
- The loops over maps run in an arbitrary order here; where the program sorts first, the order of a hand-over is not modelled.
- MirrorPlane.MirrorEngine.StartViewer: decides and attaches in one piece, because the interleaving of its loads and its attach with others is the subject of the engine's steps.
- MirrorEngine.EngineStepKeeps: counts a stream as dialed in the step that opens it, because the counter behind its own lock is read only after every worker has returned.
- MirrorFeed.MirrorFeed.OfferToAll: lets no reader in between, because a reader's interleavings with one offer are the subject of the viewer's own method.
- Mp4Session.PlayedIsMeant: is stated for units whose boxes can state their sizes in the 32 bits they have for them, because no reader can find the end of a longer box (`SizeIsStated`).
- ControlQueue.ControlQueue.Receive: takes the decoded message; a frame that is text or does not decode closes the channel as a refusal does. The close of the peer itself, which ends the deliverer as a cancelled context does, is not part of this model.
- EventGrouping.EventGrouper.Add: compares targets as opaque values, because only their equality matters; a target with a confidence that is not a number equals nothing, itself included.
- Downscale.DownscaleArea: sums unbounded numbers, because 64-bit sums of 16-bit channels cannot overflow for any image that fits memory.
- FrameScheduler.Scheduler.Run: keeps no sweep duration, because it is a clock reading, and begins after the check that the context was not over before the first turn.
