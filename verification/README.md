# Verified model of the sixteen-slot virtual portal

The repository emulates a USB figure portal inside a console's I/O processor (the E12 build, with
`E09_STORAGE`, `E11_MENU` and `E12_MENU` defined), shows an in-game menu from the main processor, and
ships the tools that prepare figure libraries and executable patches. This project models that
behaviour and proves what it promises.

How the files fit together:

- `Words`, `Fnv`: big-endian words, 32-bit wrap-around, and the FNV-1a checksum.
- `Journal`: the 1056-byte journal record, the file names, and the storage worker that loads and saves
  figures, over the bytes of a card where every open, read, write and close may fail. `Durability`:
  what two alternating journals guarantee.
- `HidSession`, `SessionRuns`: one HIDv4 session (reply FIFO, held read, packed status transitions) and
  what it shows the host over any sequence of operations.
- `PortalSpec`: what each handler does to the whole state of the portal. `PortalMachine`: the handlers
  as the source writes them, statics and arrays updated in place, each proved equal to its function in
  `PortalSpec`. `PortalInvariants`: what every handler keeps.
- `Timing`, `Commands`, `Outcomes`: when the timer goes on with loads, removes, saves and retries, what
  each mailbox command does and when it is taken, and what each finished disk job leaves.
- `Protocol`, `Requests`, `Announcements`: the bytes of every reply, the answer to every request, and
  which requests announce the figures to a session and what the game then sees.
- `World`, `WorldSafety`, `Reachable`, `FailureRuns`, `CardRefinement`: the portal with its storage
  worker and card, every interleaving of requests, ticks, disk steps, completions and power losses;
  durability over whole runs; how loads and removes end; and the link from the classified files back
  to the bytes of the card along every run.
- `Completion`, `Memory`, `Fairness`, `PortalSessions`: exactly-once completion and deadlines, the
  portal's memory, save fairness and flushes, and what the host receives from whole portal runs.
- `SeqLock`, `Menu`, `MenuKeys`, `OverlayMachine`: the sequence lock between the two processors, the
  two-controller menu, and exactly which keys make it do what.
- `Catalogue`, `Library`, `Extension`, `DolPatch`: the catalogue reader and writers, exactly what they
  accept and add, and the sparse patch.

`generation`, `epoch` and the revision of the mailbox are unbounded numbers here, the revision with its
32-bit word beside it. The journal sequence, the tick counter, the heartbeat and the request number are
32-bit words that wrap. A file left by a stopped write is taken to be invalid or to hold the complete
new record. History that the program does not keep (`announced` in a session, `log` in a portal, the
ledgers and `retired` in a world, `published` in the mailbox) is only read by statements, never by the
modelled handlers. SHA-256 is a function parameter about which nothing is assumed.

## Findings

- The loader treats the read results -106 and -4 as an absent and a damaged journal. If a read of the
  newest journal returns one of them although the file is sound, an older record or the source dump is
  loaded without an error. `Durability.StaleLoadCondition` says exactly when, and
  `CardRefinement.StaleLoadsOfRuns` carries it to every state of a run; the runs in `World` use reads
  without such a result.
- `prepare` does not check its numbered labels against the others: `SSA A`, `SSA A` and `SSA A 000`
  give two equal labels (`Library.PreparedCanCollide`); `Library.PreparedDistinctUnlessClash` says exactly when.
- `extend` writes a catalogue without entries if nothing was there and nothing was added
  (`Library.EmptyExtensionIsRefused`); of all catalogues it writes the portal refuses exactly these
  (`Library.ExtendedReadsBack`).

## Model

| member | source | states |
|---|---|---|
| Fnv.ComputeHash | plugin/source/e12_storage.h:65 | the loop computes the checksum of the whole input |
| Fnv.MixIsXor | plugin/source/e12_storage.h:65 | the modelled byte step is the exclusive or of the 32-bit hash |
| Fnv.PrimeInvertible | plugin/source/e12_storage.h:65 | multiplying by the odd prime is injective modulo 2^32 |
| Fnv.StepSeparates | plugin/source/e12_storage.h:65 | one step maps two hash and byte pairs together only if both or neither component differ |
| Fnv.DetectsOneByte | plugin/source/e12_storage.h:65 | inputs of one length differing in exactly one byte have different checksums |
| Journal.RecordIsSound | plugin/source/e12_storage.h:113-117 | every record a save builds is valid for its figure |
| Journal.RecordIsItsOwn | plugin/source/e12_storage.h:135-140 | the words of a record lie where the source puts them, and it is valid for no other figure and no other source dump |
| Journal.OneByteChangeNoticed | plugin/source/e12_storage.h:113-117 | a one-byte change of a valid record leaves it valid exactly when the byte is padding, 24 to 31 |
| Journal.PathInjective | plugin/source/e12_storage.h:66-73 | no two figures below 1000 and no two kinds of file share a path |
| Journal.NewerIsSerialOrder | plugin/source/e12_storage.h:129 | the signed wrap-around comparison is the serial number order of section 3.2 of RFC 1982 |
| Journal.LaterOfAdjacentWins | plugin/source/e12_storage.h:122-131 | of records s and s+1 modulo 2^32 the later one is loaded, in either file order |
| Journal.ReadMeaning | plugin/source/e12_storage.h:74-78 | a file is read exactly if it opens, is long enough, is not cut short and closes; otherwise which error results |
| Journal.LoadNeedsItsDump | plugin/source/e12_storage.h:118-121 | a load succeeds only with a readable source dump whose checksum the job carries, whatever the journals hold |
| Journal.StorageWorker.Name | plugin/source/e12_storage.h:66-73 | the path built character by character is that of the dump or the journal |
| Journal.StorageWorker.Read | plugin/source/e12_storage.h:74-78 | the result code for every failure of open, read and close, and the bytes on success |
| Journal.StorageWorker.CheckIsSound | plugin/source/e12_storage.h:113-117 | the check is the validity predicate of the record |
| Journal.StorageWorker.Load | plugin/source/e12_storage.h:118-134 | the loaded sequence and data, or the error, that both journals and the dump determine under any read failures |
| Journal.StorageWorker.Save | plugin/source/e12_storage.h:135-147 | the record written, the one file touched, and the exact result for every failure of open, write, close and read-back |
| Journal.SaveTouchesOneView | plugin/source/e12_storage.h:135-147 | whatever a save leaves, its file is invalid or the new record, and no other journal or dump changes |
| Durability.SafeIsAlternating | plugin/source/e12_storage.h:137-140 | a safe pair of journals keeps parity in its file and adjacent sequences |
| Durability.LoadStartsLedger | plugin/source/e12_storage.h:118-134 | a load of alternating journals is safe against later stopped saves, and there is something to load again |
| Durability.ReloadIsRecent | plugin/source/e12_storage.h:118-134 | a reload returns the acknowledged version or a later one, and fails exactly when the very first save was cut short |
| Durability.StoppedSaveIsSafe | plugin/source/e12_storage.h:135-147 | stopping a save at any point keeps the figure safe |
| Durability.AcknowledgedSaveIsSafe | plugin/source/e12_storage.h:193 | the acknowledgement moves the guarantee to the version just written |
| Durability.SeenIsMasked | plugin/source/e12_storage.h:122-131 | every failure of a journal read acts through its result code alone |
| Durability.StaleLoadCondition | plugin/source/e12_storage.h:124-132 | for every safe pair of journals, exactly which read results make a load return something older than the acknowledged save |
| Durability.StaleLoadExample | plugin/source/e12_storage.h:124-132 | on a card with two sound journals one short read makes the loader return the older one without an error |
| HidSession.FieldIsShown | plugin/source/e12_storage.h:51-58 | the host decodes from the packed bytes the next transition or the settled status of each slot |
| HidSession.PushAppends | plugin/source/hidv4.h:107-112 | a push appends to the ring, or changes nothing when it is full |
| HidSession.SubmitTakesOldest | plugin/source/hidv4.h:246-249 | a read takes the oldest reply and keeps the order of the rest |
| SessionRuns.ArrivalAppends | plugin/source/e12_storage.h:42-45 | an arrival appends exactly added and present, and never more than four entries are queued |
| SessionRuns.ShiftDropsHead | plugin/source/e12_storage.h:59-64 | the shift consumes exactly the entry that was shown |
| SessionRuns.EventKeepsAgreement | plugin/source/e12_storage.h:39-47 | a removal replaces the queue by removed and absent, an arrival appends, and the queue still ends in the presence |
| SessionRuns.CommitKeepsAgreement | plugin/source/e12_storage.h:59-64 | consuming entries keeps the queue or the status equal to the presence |
| SessionRuns.AgreementIsFinalState | plugin/source/e12_storage.h:36-64 | the last queued entry, or the status when none is queued, is whether the figure is present |
| SessionRuns.EntriesAreShownInOrder | plugin/source/e12_storage.h:51-64 | without further events consecutive packets show the queued entries in order, then the last one |
| SessionRuns.FourReadsConverge | plugin/source/e12_storage.h:51-64 | the fourth status read after the last event, and every later one, carries the presence of all sixteen slots |
| SessionRuns.LeavingAndReturningIsSeen | plugin/source/e12_storage.h:39-64 | a figure that leaves and returns is seen as 2, 0, 3, 1 in order under every interleaving of the other operations |
| SessionRuns.CountersAreConsecutive | plugin/source/e12_storage.h:51-60 | delivered status packets are numbered consecutively modulo 256, whatever is cancelled |
| SessionRuns.RepliesLeaveInOrder | plugin/source/hidv4.h:107-122 | every accepted reply leaves exactly once and in order or is still waiting |
| SessionRuns.OnlyCancelsDrop | plugin/source/hidv4.h:113-122 | no reply is lost unless a cancel or a reset drops it |
| SessionRuns.RepliesReached | plugin/source/hidv4.h:107-122 | the command replies among the delivered packets are exactly the queued replies that were not dropped |
| SessionRuns.StatusesObserved | plugin/source/hidv4.h:246-249 | the status packets delivered are those of the reads counted, after at most one that was read before |
| PortalMachine.Machine.constructor | plugin/source/e12_storage.h:15-33 | the zeroed statics with every menu position empty are the initial state |
| PortalMachine.Machine.Event | plugin/source/e12_storage.h:39-47 | the loop updates the transition word of one slot in every session and advances every epoch |
| PortalMachine.Machine.Announce | plugin/source/e12_storage.h:48-50 | the session forgets its statuses and queues added and present for the present figures |
| PortalMachine.FourBytes | plugin/source/e12_storage.h:54-57 | the word of sixteen two-bit fields is the packet's four status bytes, lowest first |
| PortalMachine.Machine.BuildStatus | plugin/source/hidv4.h:93-101 | the response buffer holds the status packet and the counter is not consumed |
| PortalMachine.Machine.CommitStatus | plugin/source/e12_storage.h:59-64 | the loop consumes one entry of every slot unless an event came after the packet was built |
| PortalMachine.Machine.CountDirty | plugin/source/e12_storage.h:169-172 | the number of occupied slots with unsaved data |
| PortalMachine.Machine.Restore | plugin/source/e12_storage.h:173-176 | the outgoing figure is present again and every session is told |
| PortalMachine.Machine.Begin | plugin/source/e12_storage.h:177-188 | every refusal of a load or remove, and the state it starts otherwise |
| PortalMachine.Machine.FindSlot | plugin/source/e12_storage.h:195-203 | the search loops find a taken identity, else the former slot, else the first usable one |
| PortalMachine.Machine.Complete | plugin/source/e12_storage.h:189-211 | the whole state after a finished catalogue read, load or save |
| PortalMachine.Machine.Submit | plugin/source/e12_storage.h:155-158 | the portal is busy unless the queue refuses the job |
| PortalMachine.Machine.SaveSlot | plugin/source/e12_storage.h:212-215 | the job is a snapshot of the slot |
| PortalMachine.Machine.Mailbox | plugin/source/e12_storage.h:231-255 | which requests are taken, and what each command does |
| PortalMachine.Machine.Advance | plugin/source/e12_storage.h:260-265 | a pending action saves first, then waits, then removes or loads |
| PortalMachine.Machine.FindDirty | plugin/source/e12_storage.h:269-271 | the search returns the dirty slot closest behind the cursor |
| PortalMachine.Machine.Poll | plugin/source/e12_storage.h:256-273 | the whole timer step of the figure store |
| PortalMachine.Machine.Push | plugin/source/hidv4.h:107-112 | the reply is queued, or refused with -8 and nothing changed |
| PortalMachine.Machine.Cancel | plugin/source/hidv4.h:113-122 | both held requests are answered and the queue is emptied |
| PortalMachine.Machine.DoReport | plugin/source/hidv4.h:138-214 | the reply and the effect of every command, and every refusal |
| PortalMachine.Machine.Control | plugin/source/hidv4.h:124-215 | which setup packets succeed or fail, with which code, and the command each SET_REPORT carries out |
| PortalMachine.Machine.DoTransfer | plugin/source/hidv4.h:217-259 | control, output and interrupt transfers and their errors |
| PortalMachine.Machine.Process | plugin/source/hidv4.h:275-332 | the whole state and the answers after any message |
| PortalMachine.Machine.Tick | plugin/source/hidv4.h:334-356 | the timer step and the delivery of every due read |
| PortalInvariants.NextDirtyMeaning | plugin/source/e12_storage.h:269-271 | the slot picked is dirty and none before it in cyclic order is |
| PortalInvariants.ReturnsToFormerSlot | plugin/source/e12_storage.h:202 | a figure whose former slot is usable returns to it |
| PortalInvariants.LoadAlwaysFindsSlot | plugin/source/e12_storage.h:197-204 | by counting, a load always finds a slot, so the exit with -8 is never taken |
| PortalInvariants.BeginKeeps | plugin/source/e12_storage.h:177-188 | starting an action keeps the invariant: positions, presence, owners, identities, job and session agreement |
| PortalInvariants.CompleteKeeps | plugin/source/e12_storage.h:189-211 | a completion keeps the invariant |
| PortalInvariants.ProcessKeeps | plugin/source/hidv4.h:275-332 | a message keeps the invariant |
| PortalInvariants.TickKeeps | plugin/source/hidv4.h:334-356 | a timer step keeps the invariant |
| WorldSafety.BusyFreezesJob | plugin/source/e12_storage.h:256-258 | while a job runs no message and no tick touches the disk buffer or the job fields |
| WorldSafety.RequestWrites | plugin/source/hidv4.h:165-194 | a message changes at most one block of one present figure |
| WorldSafety.StepKeeps | plugin/source/e12_storage.h:118-273 | every step of portal, worker, card and power keeps the whole invariant |
| WorldSafety.FiguresAreDurable | plugin/source/e12_storage.h:118-147 | in every state of every run a reload yields the figure's data at its last acknowledged save or later; it fails only for a written figure of which no save was ever acknowledged |
| WorldSafety.DurabilityAfterPowerLoss | plugin/source/e12_storage.h:118-147 | the same for figures that lost power, until they are loaded again |
| WorldSafety.NothingLostByLeaving | plugin/source/e12_storage.h:260-265 | a figure is replaced or removed only with everything saved; its newest journal, or the untouched dump, holds exactly its data, and a reload succeeds with it |
| WorldSafety.RetiredFiguresAreComplete | plugin/source/e12_storage.h:205-209 | and so it stays until the figure is loaded again |
| Reachable.PositionsMatchFigures | plugin/source/e12_storage.h:184-209 | menu positions and occupied slots correspond one to one in every reachable state |
| Reachable.FiguresAreDistinct | plugin/source/e12_storage.h:180-183 | no two figures share a catalogue entry and no two slots remember one identity |
| Reachable.StatusAgrees | plugin/source/e12_storage.h:36-64 | every announced session has been or will be told whether each figure is there and not being swapped |
| Reachable.JobStaysSubmitted | plugin/source/e12_storage.h:149-158 | from submission to completion the portal is busy with the slot and snapshot submitted |
| Reachable.BufferIsOwned | plugin/source/e12_storage.h:212-215 | no message and no tick of that interval touches the job |
| Reachable.WorkerNeedsJob | plugin/source/e12_storage.h:149-154 | the storage worker takes no step without a submitted job |
| Reachable.RunKeepsSources | plugin/source/e12_storage.h:264 | every job carries the checksum the catalogue gives its figure |
| FailureRuns.ActionBegins | plugin/source/e12_storage.h:177-188 | the step that begins a load or remove hides the figure at its position and changes nothing else of any figure |
| FailureRuns.ActionMoves | plugin/source/e12_storage.h:189-267 | no step but a completion, the removing tick or a power loss ends an action; until then the figure swapped out keeps its data, identity and position |
| FailureRuns.ActionsEnd | plugin/source/e12_storage.h:177-265 | over every run a load or remove is all or nothing: the figure asked for took the position, the position is cleared with nothing unsaved, or the former figure is back as it was |
| FailureRuns.FailurePutsBack | plugin/source/e12_storage.h:173-211 | from the step that took the position to the failed save, failed load or identity conflict that ends the action, the figure keeps data, generation and identity and is present again at its position, with the error reported |
| Outcomes.JobsConclude | plugin/source/e12_storage.h:189-211 | the whole store after every finished job: a failure or a taken identity brings the hidden figure back, a save moves the saved mark, the catalogue asks for the first figure, a loaded one goes to its former slot or else the lowest free one |
| Outcomes.ReceiverIsOne | plugin/source/e12_storage.h:195-203 | there is only one such slot |
| Timing.ClockCounts | plugin/source/e12_storage.h:184-185 | in every run the clock of a pending action counts the timer ticks since the intake that began it |
| Timing.ActionsGoOn | plugin/source/e12_storage.h:260-265 | in every run: with unsaved data each idle tick submits the save of the slot being swapped out; without, ticks before the 250th wait, and the 250th and every later one clears the position or submits the load with the catalogue's checksum |
| Timing.IdleTicksResume | plugin/source/e12_storage.h:259-272 | exactly 500 ticks after the last disk result, or later, an idle tick reads the catalogue again, loads the first figure or saves the nearest unsaved slot behind the cursor; a flush without an error does not wait |
| Commands.CommandsAreCarriedOut | plugin/source/e12_storage.h:231-253 | every eighth tick, exactly which commands of which menus are taken, deferred or ignored, and the whole store after each of them |
| Commands.FlushBegins | plugin/source/e12_storage.h:246 | the flush command starts a flush and clears the error, whatever state it finds |
| Commands.CommandFlushes | plugin/source/e12_storage.h:246-272 | from that command on, over every run without accepted writes, load or remove commands and failures, the flush submits at most one save for each dirty slot and exactly one for each when it has ended |
| Commands.CommandFlushesOnTime | plugin/source/e12_storage.h:246-272 | and each idle tick submits one of them until one ends the flush |
| CardRefinement.SaveRefines | plugin/source/e12_storage.h:135-147 | a save on the bytes changes exactly one classified file |
| CardRefinement.StepRefines | plugin/source/e12_storage.h:135-147 | every step of the world leaves a card that its classification represents again: the truncated file, a stopped write and a complete record |
| CardRefinement.SaveIsSimulated | plugin/source/e12_storage.h:135-147 | every disk outcome of a save is a run of the world model with the same result, and the card passes through the bytes of each step |
| CardRefinement.LoadIsSimulated | plugin/source/e12_storage.h:118-134 | every load is a step of the world model with the same result, sequence and data |
| CardRefinement.SaveInWorld | plugin/source/e12_storage.h:135-147 | the worker's own save moves the card along such a run |
| CardRefinement.LoadInWorld | plugin/source/e12_storage.h:118-134 | the worker's own load agrees with such a step |
| CardRefinement.JobIsReady | plugin/source/e12_storage.h:149-154 | whatever run led here, the worker finds its job ready |
| CardRefinement.CardRunRepresents | plugin/source/e12_storage.h:118-147 | in every state of every run the card represents the classified files, if it did at the start |
| CardRefinement.CardIsDurable | plugin/source/e12_storage.h:118-147 | durability of the bytes, over every run of the card that starts with alternating journals |
| CardRefinement.StaleLoadsOfRuns | plugin/source/e12_storage.h:118-134 | in every state of every run of the card and under any read failures, exactly when a load returns something older than the acknowledged save |
| CardRefinement.CatalogueNamesDumps | plugin/source/e12_storage.h:107-109 | the checksums the portal reads from an extended catalogue are those of its dumps |
| Completion.ProcessAccount | plugin/source/hidv4.h:275-332 | a new message is afterwards answered once or held once |
| Completion.ResetLeavesNothingHeld | plugin/source/hidv4.h:283-318 | close, version request and shutdown leave nothing held and nothing queued |
| Completion.AnsweredOnceOrHeldOnce | plugin/source/hidv4.h:275-356 | in every run each message received is answered exactly once or held exactly once |
| Completion.TickReduces | plugin/source/hidv4.h:343 | the signed comparison finds a read due exactly when its last tick passes, also across the wrap |
| Completion.AnsweredByEleventhTick | plugin/source/hidv4.h:246-258 | a held read is answered, after it was held, by the eleventh tick, whatever else happens |
| Memory.RequestReachesStore | plugin/source/hidv4.h:124-215 | only a well-formed SET_REPORT reaches the figures |
| Memory.MemoryIsLastWritten | plugin/source/hidv4.h:165-194 | a block holds what was last written to it from any session, else the loaded bytes |
| Memory.FullQueueRefuses | plugin/source/hidv4.h:181-182 | a command refused for a full queue changes nothing and is answered with -8 |
| Memory.AcceptedCommandQueuesReply | plugin/source/hidv4.h:144-214 | an accepted command queues exactly its reply, touches no other session and is answered once |
| Memory.QueryReturnsLastWritten | plugin/source/hidv4.h:173-175 | a query of a present figure returns the last written bytes |
| Protocol.WriteIsConfirmed | plugin/source/hidv4.h:165-194 | the bytes of the reply to a write: the slot exactly if the figure is present, and its block then holds the bytes sent; else 1, and nothing changes |
| Protocol.QueryIsAnswered | plugin/source/hidv4.h:165-181 | the bytes of the reply to a query of a present and of an absent figure |
| Protocol.FixedReplies | plugin/source/hidv4.h:145-205 | the bytes of the replies to ready, activate, sound and music |
| Protocol.SilentIsAnswered | plugin/source/hidv4.h:206-210 | colour, light, status and version commands get their result and do nothing else |
| Protocol.FullQueueIsRefused | plugin/source/hidv4.h:107-112 | a command that needs a reply is refused with -8 while eight replies wait, and does nothing |
| Protocol.OthersAreRefused | plugin/source/hidv4.h:144-211 | every other letter, length or argument is refused with -4 and does nothing |
| Requests.ControlIsAnswered | plugin/source/hidv4.h:124-136 | the result of every control transfer that carries no command |
| Requests.OutputIsAnswered | plugin/source/hidv4.h:230-242 | which output transfers are consumed |
| Requests.ReadIsHeld | plugin/source/hidv4.h:243-258 | which reads are held, what they will carry, and that they are due exactly from the eleventh tick with a reply and from the first with a status packet |
| Requests.DiscoveryIsHeld | plugin/source/hidv4.h:304-310 | discovery is answered once, then held, then refused with -8 |
| Requests.ShutdownCancels | plugin/source/hidv4.h:316-318 | shutdown answers what the session holds, forgets its replies and deactivates it |
| Requests.CancelGivesUpRead | plugin/source/hidv4.h:319-328 | cancelling the interrupt endpoint answers its held read and nothing else |
| Requests.CloseForgets | plugin/source/hidv4.h:283-286 | closing answers what the session holds and zeroes it |
| Requests.OthersAreAnswered | plugin/source/hidv4.h:289-331 | suspend, the status query and unknown requests |
| Requests.StrangersAreRefused | plugin/source/hidv4.h:281-287 | a descriptor that is not open and a command that is no ioctl are refused |
| Fairness.PickComesCloser | plugin/source/e12_storage.h:268-271 | every save of another slot brings the cursor closer to a dirty one |
| Fairness.PickedWithinFifteen | plugin/source/e12_storage.h:268-271 | a dirty slot waits for at most fifteen other saves, with writes and failures going on |
| Fairness.CalmCompletion | plugin/source/e12_storage.h:267-272 | a successful save of a flush leaves exactly one dirty slot fewer, unless its slot was written since the snapshot |
| Fairness.FlushSavesEachSlot | plugin/source/e12_storage.h:267-272 | over every run without accepted writes, load or remove commands and failures, a flush submits at most one save for each dirty slot, and exactly one for each when it has ended; a save already running counts unless its slot was written since |
| Fairness.FlushEndsAfterDirtyCount | plugin/source/e12_storage.h:267-272 | every tick that finds the disk idle submits one save until each dirty slot had its own, and the next such tick ends the flush |
| PortalSessions.TickIsOps | plugin/source/hidv4.h:334-356 | a tick acts on a session as events followed by the delivery, exactly when it is due, and the host receives what that delivers |
| PortalSessions.RequestIsOps | plugin/source/hidv4.h:275-332 | a message acts on a session as session operations without events |
| PortalSessions.PortalRunIsSessionRun | plugin/source/hidv4.h:275-356 | between announcements a session moves by the operations of the run, and the packets the host receives are exactly those they deliver |
| PortalSessions.RepliesInOrder | plugin/source/hidv4.h:107-122 | the command replies the host receives, those dropped and those waiting are the replies to the accepted commands, in order |
| PortalSessions.NoReplyIsLost | plugin/source/hidv4.h:107-122 | without a shutdown or cancel the host has received every reply but those still waiting, in order |
| PortalSessions.StatusesAreNumbered | plugin/source/e12_storage.h:51-60 | the status packets the host receives are numbered consecutively modulo 256 |
| PortalSessions.PortalConverges | plugin/source/e12_storage.h:36-64 | the fourth status packet the host receives after the last event, and every later one, show exactly the present figures; one read before may come first |
| PortalSessions.ReturnIsSeen | plugin/source/e12_storage.h:39-64 | a figure that one intake takes out and a later one brings back is seen by the host as 2, 0, 3, 1, in order and with nothing skipped |
| Announcements.VersionAnnounces | plugin/source/hidv4.h:296-303 | a version request answers what the session holds, restarts it, and announces added and present for exactly the present figures |
| Announcements.ActivationAnnounces | plugin/source/hidv4.h:150-164 | the first activation announces them too, a second one leaves the statuses alone |
| Announcements.RescanAnnounces | plugin/source/e12_storage.h:247-250 | the rescan command announces to every session absent, added and present for exactly the present figures |
| Announcements.AnnouncementIsSeen | plugin/source/e12_storage.h:48-64 | as long as no figure comes or goes, the status packets the host receives after an announcement show exactly that; one read before may come first |
| SeqLock.WriterKeeps | plugin/source/e12_storage.h:226-229 | every store of the portal keeps the invariant of the sequence lock |
| SeqLock.ReaderKeeps | overlay/menu.c:78-86 | every read of the menu keeps it |
| SeqLock.SnapshotIsWhole | overlay/menu.c:77-86 | under every interleaving the shown 116 words are one publication or the initial zeros |
| SeqLock.AcceptedIsNewest | overlay/menu.c:77-86 | an accepted snapshot is the newest publication finished when the read began, so none is ever older than one shown before |
| SeqLock.AcceptedExactlyWhenQuiet | overlay/menu.c:85 | a snapshot is accepted exactly when no revision was stored during its read |
| SeqLock.SharedWords.Publish | plugin/source/e12_storage.h:226-229 | the copy loops are steps of the model and publish exactly the given words |
| SeqLock.SharedWords.Refresh | overlay/menu.c:78-86 | the read loop, undisturbed between publications, shows the newest one |
| Menu.OpensOnCompleteChord | overlay/menu.h:57-68 | a hidden menu opens exactly when one controller alone completes Plus and Minus, and that controller becomes the owner |
| Menu.ClosesByOwner | overlay/menu.h:27-33 | a shown menu is hidden only by its owner, with B or the chord |
| Menu.RemovalNeedsCleanHold | overlay/menu.h:36-40 | over every history a removal ends a Minus hold of the owner that never overlapped Plus |
| Menu.HiddenStaysMasked | overlay/menu.h:25-33 | after the menu is hidden the game's buttons stay masked while its owner holds any |
| Menu.UnmaskedWhenIdle | overlay/menu.h:26 | in the first hidden frame without keys they are unmasked |
| Menu.RequestsAreInRange | overlay/menu.c:51-67 | a load names an entry below the list length, slot and entry decode from the argument, and the number is new |
| Menu.PendingHoldsRequests | overlay/menu.h:34 | while a request is unanswered only opening the menu issues another |
| Menu.PortalNoticesRequest | overlay/menu.c:51-67 | the portal finds such a request alive, new and never out of range |
| MenuKeys.ChordIsHeld | overlay/menu.h:27-30 | over every history the menu ignores keys exactly while its owner has not let go of the chord |
| MenuKeys.ShownExactly | overlay/menu.h:27-33 | exactly when the menu appears, changes hands and disappears |
| MenuKeys.WaitsForAnswer | overlay/menu.c:92-94 | a request is waited for exactly until its number is answered or a new one is made |
| MenuKeys.ArmedExactly | overlay/menu.h:36-39 | over every history a removal is armed exactly by a press of Minus that still counts |
| MenuKeys.KeysAct | overlay/menu.h:31-53 | over every history exactly which keys lead to which request, slot and selected figure |
| MenuKeys.LoadsExactlyOnA | overlay/menu.h:43-50 | a load is requested exactly by a new press of A that reaches a list with figures and no other key outranks, and names the figure the direction keys lead to |
| MenuKeys.RemovesExactlyOnRelease | overlay/menu.h:36-39 | a removal is requested exactly when Minus goes up and its press still counts |
| OverlayMachine.OverlayMachine.MenuInput | overlay/menu.h:24-53 | the statements on the menu state compute the input function |
| OverlayMachine.OverlayMachine.PlayersInput | overlay/menu.h:57-68 | the two-controller loop likewise |
| OverlayMachine.OverlayMachine.MakeRequest | overlay/menu.c:51-67 | the mailbox words and the waiting state of a request |
| OverlayMachine.OverlayMachine.UpdateMenu | overlay/menu.c:77-94 | one frame of the menu after its snapshot |
| OverlayMachine.OverlayMachine.Mask | overlay/menu.h:70-74 | exactly the button bytes of the pad and its extension are cleared, and only while masked |
| OverlayMachine.DecimalValue | overlay/menu.h:86-87 | the digits are decimal and read back as the number |
| OverlayMachine.ErrorReadsBack | overlay/menu.h:82-89 | the text reads back as the signed error and fits in 18 characters |
| OverlayMachine.FillDigits | overlay/menu.h:86 | the loop produces all digits, lowest first, within its ten-byte buffer |
| OverlayMachine.WriteError | overlay/menu.h:82-89 | the buffer holds exactly that text |
| Catalogue.Reader.Load | plugin/source/e12_storage.h:96-106 | which catalogues of the three formats are accepted, and the format remembered |
| Catalogue.Reader.CheckRecords | plugin/source/e12_storage.h:102-103 | the loop accepts exactly the records with the right index and a zero last byte |
| Catalogue.Reader.GetHash | plugin/source/e12_storage.h:107-109 | the checksum word of an entry in each format |
| Catalogue.Reader.GetLabel | plugin/source/e12_storage.h:110-112 | the label bytes of an entry, and nothing else of the field |
| Catalogue.ReadPlaces | plugin/source/e12_storage.h:107-112 | where each format keeps the checksum word and the label of an entry |
| Catalogue.AcceptedImages | plugin/source/e12_storage.h:97-105 | a catalogue is accepted exactly with a known magic, one record up to the capacity of its format, the right checksum, zero last bytes and, in the wide format, the right indices |
| Catalogue.DamageIsRefused | plugin/source/e12_storage.h:101 | behind magic and count, a one-byte change of an accepted catalogue is refused exactly if it hits the checksum or a record |
| Catalogue.ImageReadsBack | plugin/source/e12_storage.h:102-112 | every written entry reads back its checksum and zero-padded label |
| Catalogue.ImageLoads | plugin/source/e12_storage.h:97-105 | a written catalogue is accepted exactly when it has an entry |
| Catalogue.WriteImage | pc-debug/extend_library.py:42-45 | the packing loop writes exactly that image |
| Library.DistinctUnlessClash | pc-debug/extend_library.py:38-41 | display names are distinct exactly when no entry is named like the numbered form of another |
| Library.AllDistinct | pc-debug/extend_library.py:41 | the size of the set of names tells whether they are distinct |
| Library.Extend | pc-debug/extend_library.py:6-52 | every refusal in order, and the catalogue and figures written otherwise |
| Library.IndicesAreStable | pc-debug/extend_library.py:14-36 | extending a library of any format keeps every entry, figure and checksum at its index |
| Library.ExtendedReadsBack | pc-debug/extend_library.py:42-50 | the portal accepts the result exactly when there was an entry or a dump to add, and every index reads back its own figure's checksum and display name |
| Library.EmptyExtensionIsRefused | pc-debug/extend_library.py:42-45 | extending a library without entries by no dumps passes every check and writes a catalogue that the portal refuses |
| Library.ImageIsAccepted | pc-debug/extend_library.py:10-12 | every catalogue a tool writes passes the checks of a later extension |
| Library.ExtendedLabelsDistinct | pc-debug/extend_library.py:38-45 | no two indices of an extended library read back one label; it is refused for a collision exactly when everything else is in order and two names clash |
| Extension.AcceptedIsIntact | pc-debug/extend_library.py:8-20 | the checks on an existing library accept exactly an intact catalogue and intact figures |
| Extension.DumpsAreAdded | pc-debug/extend_library.py:22-36 | what is added are the dumps that were not there, under their label, path and bytes, and every dump is there afterwards |
| Extension.MergedExactly | pc-debug/extend_library.py:22-29 | the dumps are accepted exactly if each has 1024 bytes and its path stands for the same bytes wherever it occurs |
| Extension.ExtendsExactly | pc-debug/extend_library.py:6-41 | a library is written exactly if the existing one is intact, the dumps are accepted, and there are at most 640 figures without clashing names |
| Extension.ExtendedIsIntact | pc-debug/extend_library.py:42-52 | what was written is intact, so it can be extended again |
| Extension.PreparedIsIntact | pc-debug/prepare_e11_library.py:27-37 | a prepared library is intact, so it can be extended |
| Library.Prepare | pc-debug/prepare_e11_library.py:10-40 | the refusals and the wide catalogue of a new library |
| Library.PreparedReadsBack | pc-debug/prepare_e11_library.py:31-37 | the portal accepts it, every index reads back the checksum and display name of its dump, and its entry records the same |
| Library.PreparedDistinctUnlessClash | pc-debug/prepare_e11_library.py:27-30 | 1 to 256 whole dumps make a library, and its labels are distinct exactly when no given label is the numbered form of another |
| Library.PreparedCanCollide | pc-debug/prepare_e11_library.py:27-30 | dumps labelled `SSA A`, `SSA A` and `SSA A 000` leave two indices with one label |
| DolPatch.Diff | pc-debug/build_e11_overlay.py:65-72 | the writes are non-empty, ordered, disjoint, in bounds, and cover exactly the changed and appended bytes |
| DolPatch.ApplyPatch | pc-debug/apply_dol_patch.py:7-25 | every refusal in order, and the overwritten bytes otherwise |
| DolPatch.PatchesExactly | pc-debug/apply_dol_patch.py:7-25 | a patch is accepted exactly for the file and size it was made for, with writes in order and the promised digest, and its result is the original with exactly these writes |
| DolPatch.PatchRestoresTarget | pc-debug/apply_dol_patch.py:15-25 | applying the diff to the original yields exactly the target, refused only for growth beyond 0x2000 |
| DolPatch.AcceptedPatchIsLocal | pc-debug/apply_dol_patch.py:12-25 | any accepted patch keeps every byte it does not cover |

## Left out

- System calls, cache maintenance, thread, timer and queue creation: a queue send may fail, disk
  operations may fail, and the stock close answers its message once; failures while starting a thread
  are not modelled.
- Rights registration and mounting before the catalogue is read: they only add early error returns.
- The dispatcher that routes descriptors and starts the worker: its decision whether a game session is
  open is an input of the timer step.
- Address translation of transfer buffers: a transfer carries its bytes, or none when they are not mapped.
- The contents of the reply that is published, the descriptor blob of device discovery and the status
  ioctl: fixed layouts of values that are modelled.
- `figure_added` and `pending_status`: never read in this build.
- Diagnostic counters and trace snapshots.
- The HIDv5 handlers, runtime code patching and the earlier single-figure stores.
- Drawing, glyphs and copy hooks of the overlay, and the wording of its status lines.
- How library labels are derived from file paths, and file discovery order: dumps arrive as a list of key,
  label and bytes; labels are ASCII without NUL.
- Building the overlay payload and its hooks: the diff takes any target at least as long as the original.
- WorldSafety.FiguresAreDurable: assumes that no journal read reports a sound file as absent or damaged, because otherwise the statement is false; `Durability.StaleLoadCondition` gives the exact condition.
- WorldSafety.DurabilityAfterPowerLoss: makes the same assumption about reads.
- CardRefinement.LoadIsSimulated: makes the same assumption about reads.
- CardRefinement.LoadInWorld: makes the same assumption about reads.
- SeqLock.SnapshotIsWhole: assumes fewer than 2^31 publications during one read of the menu, after which the 32-bit revision repeats.
- Library.PreparedReadsBack: does not claim distinct labels, because they need not be; see `Library.PreparedDistinctUnlessClash`.
