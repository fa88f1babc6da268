# Chronicle receiver: a verified model

Chronicle reads blocks from a node's state-history socket, keeps a small database of its own
position, and exports events to a consumer that acknowledges block numbers. This project models
the parts that make that reliable and proves what they promise:

- **The scan-mode receiver** as a fork-tolerant process that may die between any two steps, within
  the loops that undo revisions, or between keeping a block and committing it, and start again on
  the same database; a snapshot may be saved between two processes. `ReceiverSpec` says what each
  entry point does to the process's fields, the database and the published events; the class
  `Receiver.Receiver` is the same code with its fields and loops, each method proved to do exactly
  that. `Runs` puts processes, node, operator and consumer together into runs of steps; `Invariant`,
  `Safety` and `Consumer` prove what holds in every run, and `Steps` what each step comes to, told by
  the surviving chain and the options; `StaleConsumer` exhibits two runs that lose a consumer,
  `Incidents` two in which a process ends badly.
- **The four tables** (`Store`): what one block does to them, and `Replay`, the tables after a chain
  of blocks with no forks and no restarts. `TableProperties` and `AbiHistory` prove what every
  replayed chain guarantees. `Chainbase` is the undo-stack database by its contract: current
  contents, one saved copy per uncommitted revision, a revision number.
- **The ABI index of interactive mode** (`AbiIndex`), **portable snapshots** (`Snapshot`,
  and `SnapshotFormat` for the format by itself), **the
  exporter's outbound queue** (`Exporter`), alone and together with the receiver (`Backpressure`),
  **the interactive scheduler** (`Interactive`) and **the trace filter** (`TraceFilter`).

Whether bytes are a usable ABI is a parameter `valid`, over which every statement is quantified.

## What is expected of the environment

`Runs.Enabled` and `Runs.Initial` state what the receiver relies on and does not check:

- the node's last irreversible block never goes back, not even across receiver restarts;
- a message is numbered head + 1, or at most head and then above its own irreversible block; block
  numbers start at 1;
- a scan starts no later than the block after the last irreversible one, and while the state table
  is empty every process is given the same start block;
- acknowledgements are at most the head when they are handled, and the limit of unconfirmed blocks
  is positive.

`Interactive.Enabled` expects ranges with at least one block, which the exporter checks, a node that
answers each range in order, and again that its last irreversible block does not go back.

`Consumer.Careful` adds what agreement with a consumer needs: every process waits for
acknowledgements, an acknowledgement is sent by a consumer that has the block and has no unhandled
fork event at or below it (acknowledgements carry no epoch, so a stale one cannot be told apart),
and the restart guard below. The consumer's blocks are those above the scan's first head.

A registered ABI is not replaced by a later one in the decoding context.

## Findings

- **Two starts in a row can lose a consumer.** A start that undoes unconfirmed blocks announces a
  fork. If the process dies before the consumer handles it, the next one finds nothing to undo and
  announces nothing, and the consumer keeps the undone blocks. A restart brings the consumer into
  agreement if and only if something was undone, there was no state row, or the consumer was not
  ahead (`Consumer.RestartAgreesIff`, `Consumer.TwoStartsLoseConsumer`, `StaleConsumer.LeftBehind`).
- **So can a snapshot saved between two processes**, which undoes what is not committed without a
  word (receiver_plugin.cpp:1358), and a process that dies in the middle of undoing: the next start
  agrees with the consumer if and only if some revision was left to undo, there is no state row, or
  the consumer holds no more than the committed blocks (`Consumer.RevertedAgreesIff`, `StaleConsumer.SavedBehind`).
- **A fork at block 1 is refused.** Rolling back to revision 0 is taken for a missing undo stack;
  this is the only way to meet that error (`Safety.NothingUnexpected`), and it is met by a run of two
  blocks (`Incidents.ForkAtFirstBlock`).
- **A process at its last block can come to its end by itself if and only if that block is already
  irreversible** (`Safety.EndsIff`); otherwise it waits for ever, as in `Incidents.EndNotIrreversible`.
- **Interactive mode can stop with requests unanswered.** The test for the end block is made there
  too whenever a pause is due, against the end of the request sent last. What was accepted is lost if
  and only if a pause is due while the last block received is irreversible and just below that end,
  with a request outstanding (`Interactive.PauseLosesIff`); three requests for the same block and a
  slow-down are enough (`Interactive.StopsWithRequests`).
- **Back pressure can lock up for small or huge queue limits**: exactly when three quarters of the
  limit, in 32-bit arithmetic, is below 2 (`Exporter.DeadlockIff`),
  as with the limits 2 and 1431655766 (`Exporter.LockingLimits`).
- **Interactive mode decodes an account without an ABI with another account's**
  (`AbiIndex.InteractiveExact`, `AbiIndex.ForeignAbi`).
- **Several rows of one account in a block** can part the latest-ABI table from the history: exactly
  when a row changes the latest ABI, no later one sets or clears it otherwise, and an unusable one
  follows (`AbiHistory.BlockDetermined`, an instance is `AbiHistory.TwoRowsPart`).
- **Restored snapshots forget that an ABI was cleared**, as after two blocks that set and clear one
  (`Snapshot.ClearingForgotten`): a look-up answers as before if and only if that was not a cleared
  ABI (`Snapshot.RestoredLookUp`), and the history still says what the latest ABIs are if and only if
  every account with a usable revision on record has an ABI still (`Snapshot.RestoredDetermined`,
  `Snapshot.ScanRestored`). What a run proves of the latest ABIs from a new database
  (`Safety.LatestIsInForce`, `AbiHistory.PastAbi`) or a determined one (`AbiHistory.ChainDeterminedIff`) therefore holds
  again after a restore only under that condition; the other theorems about runs need only what
  `Snapshot.RestoredStart` gives.
- **The blacklist has no absolute precedence**, contrary to README.md:454-458: a trace whose filter
  matches before a blacklisted action is reached is published (`TraceFilter.DocumentedIff`,
  `TraceFilter.BlacklistOverruled`). The model follows the code.

## Model

| member | source | states |
|---|---|---|
| Safety.ReplayRefinement | chronicle-receiver/receiver_plugin.cpp:739-821 | After any run of blocks, forks, acknowledgements, failures and restarts the four tables are the replay of the surviving messages alone, and a restart would find the replay of those up to the committed height |
| Safety.NothingUnexpected | chronicle-receiver/receiver_plugin.cpp:741-767 | For every reachable state and message: the rollback loop ends, the revision can be set, the irreversible checks and the unique block number never fail, and the no-undo-stack error is met if and only if the message forks at block 1 |
| Safety.ForkLands | chronicle-receiver/receiver_plugin.cpp:756-767 | A fork at n lands on revision n - 1, restores the replay of the blocks below n and leaves the committed floor alone |
| Safety.NetworkForkDepth | chronicle-receiver/receiver_plugin.cpp:757-778 | A network fork event gives the fork block and one less than the number of blocks dropped |
| Safety.RestartForkDepth | chronicle-receiver/receiver_plugin.cpp:398-459 | A restart fork event gives the first dropped block and exactly the number of blocks dropped |
| Safety.Irrevocable | chronicle-receiver/receiver_plugin.cpp:871-878 | Over every run the committed height never falls and the blocks up to it never change |
| Safety.RestartResumes | chronicle-receiver/receiver_plugin.cpp:398-424 | A new process resumes at the running maximum of what was committed, which is at most the last irreversible block |
| Safety.CommittedIsAcked | chronicle-receiver/receiver_plugin.cpp:871-878 | With acknowledgements, nothing is committed beyond the highest acknowledgement taken in or the head a process started from |
| Safety.BoundedLag | chronicle-receiver/receiver_plugin.cpp:526-550 | In every run with acknowledgements the unsigned lag does not wrap and stays within the limit, and while a fork is waited for the acknowledged height is below it, the head is at it or just below, and nothing is read |
| Safety.ForkGate | chronicle-receiver/receiver_plugin.cpp:1904-1924 | Until the block before a fork is acknowledged, or a new process starts, no block is received whatever else happens, and short of the end of the process the chain stays as it is |
| Safety.HeadBelowEnd | chronicle-receiver/receiver_plugin.cpp:464-467 | In every run the head stays below the end block |
| Safety.CleanEnd | chronicle-receiver/receiver_plugin.cpp:544-557 | Stopping at the end block empties the undo stack, and a later process starts at the same head and announces no fork |
| Safety.EndsIff | chronicle-receiver/receiver_plugin.cpp:544-557 | In every reachable state at the last block, some continuation without a new process reaches the end if and only if the head is irreversible |
| Safety.EndsWhenIrreversible | chronicle-receiver/receiver_plugin.cpp:544-557 | With the last block irreversible, the acknowledgements still owed, first of the block before a fork and then of the head, and one more decision are a run that ends the process |
| Safety.EndNeedsIrreversible | chronicle-receiver/receiver_plugin.cpp:544-557 | At the last block, with an irreversible block below it, no run without a new process reads a block, commits or reaches the end |
| Incidents.ForkAtFirstBlock | chronicle-receiver/receiver_plugin.cpp:764-767 | From a new database and a node without irreversible blocks, a second block 1 is admissible and meets the no-undo-stack error |
| Incidents.EndNotIrreversible | chronicle-receiver/receiver_plugin.cpp:544-557 | From a new database with end block 2 and no irreversible block, a process stands at its last block and cannot reach its end |
| Safety.PositionsSent | chronicle-receiver/receiver_plugin.cpp:619-633 | In every run the positions sent are the surviving blocks from the irreversible one, or the next, to the head, without gaps and with their ids |
| Safety.CacheIsCoherent | chronicle-receiver/receiver_plugin.cpp:1148-1180 | In every run an ABI is ready if and only if the account has a latest-ABI row, the context then holds that row, and asking touches nothing but this account's place in the cache |
| Safety.HistoryRemembers | chronicle-receiver/receiver_plugin.cpp:1114-1129 | A history look-up at a block still on the chain answers later, in any process, as just after that block |
| Safety.LatestIsInForce | chronicle-receiver/receiver_plugin.cpp:1034-1129 | In every scan from a new database with one row per account and block, the latest-ABI table is what the history says is in force |
| Consumer.ConsumerAgreement | chronicle-receiver/receiver_plugin.cpp:414-462 | In every careful run with failures and restarts, a consumer that truncates on forks and appends completed blocks holds exactly the receiver's chain once it has handled its events, and always holds every committed block |
| Consumer.RestartAgreesIff | chronicle-receiver/receiver_plugin.cpp:450-459 | A restart leaves consumer and receiver in agreement if and only if there was something to undo, no state row, or the consumer was not ahead |
| Consumer.TwoStartsLoseConsumer | chronicle-receiver/receiver_plugin.cpp:450-459 | From any state with delivered but unconfirmed blocks, two starts in a row leave the consumer with blocks the receiver dropped and no event under way |
| Consumer.RevertedAgreesIff | chronicle-receiver/receiver_plugin.cpp:1357-1358 | After the newest n revisions are undone unannounced, all of them when a snapshot is saved, the next start agrees with the consumer if and only if some revision was left, there is no state row, or the consumer holds no more than the committed blocks |
| Consumer.AckTruthful | chronicle-receiver/receiver_plugin.cpp:1904-1933 | An acknowledgement is true of the consumer's blocks, and stays so, exactly when the consumer reaches it and no fork event at or below it is unhandled |
| Consumer.StartEvents | chronicle-receiver/receiver_plugin.cpp:433-459 | A start publishes only fork events at the block after the committed one, and none exactly when it finds a state row and nothing to undo |
| Consumer.ReceiveEvents | chronicle-receiver/receiver_plugin.cpp:772-840 | A stored message publishes its fork, if any, and then its completion; a failed one at most the fork; the commit stays below the message |
| Steps.ReceiveOutcome | chronicle-receiver/receiver_plugin.cpp:710-843 | How every message a running process may get ends: a second block 1 is refused, a reversible next block must name the last surviving block once the scan is past its first head, and otherwise only what cannot be decoded fails |
| Steps.ReceiveLands | chronicle-receiver/receiver_plugin.cpp:739-820 | A stored message replaces the blocks from its number up; the committed height becomes the highest that is irreversible, acknowledged if that is waited for, and not beyond the message; one that is not stored commits nothing |
| Steps.ReceivePublishes | chronicle-receiver/receiver_plugin.cpp:771-840 | A message publishes the fork it starts and, when it is handled to its end, its completion, with or without acknowledgements |
| Steps.ReceiveFields | chronicle-receiver/receiver_plugin.cpp:767-790 | A stored fork drops the acknowledged height below it and is waited for; nothing else about acknowledgements, pauses and the slow-down changes |
| Steps.RunningFields | chronicle-receiver/receiver_plugin.cpp:787-790 | The fields of a running process are those of the last surviving message, else those of the restored row |
| Steps.Unexpected | chronicle-receiver/receiver_plugin.cpp:723-763 | For messages a node should not send, to a process in any state: which are refused with which error, that the loop ends unless the fork is of committed blocks, and that one of the checks can never fail |
| Steps.DiesStoring | chronicle-receiver/receiver_plugin.cpp:797-820 | A process that ends before the commit has the chain of the message, has committed nothing more and has published at most the fork |
| Steps.AckBranches | chronicle-receiver/receiver_plugin.cpp:1904-1935 | Outside a fork an acknowledgement counts unless it goes back, which stops the process; during one only that of the block before the fork ends the wait and later ones are ignored |
| Steps.AckIsCommitted | chronicle-receiver/receiver_plugin.cpp:871-878 | What is acknowledged outside a fork is committed, as far as it is irreversible, with the next stored block of the process, whatever happens in between short of a fork |
| Steps.PollDecides | chronicle-receiver/receiver_plugin.cpp:526-584 | A process reads on exactly when nobody asks it to slow down, the queue has room, the last block is not reached, no fork is waited for and the lag is within the limit; it ends, with everything committed, exactly when the last block is irreversible and acknowledged; else it reports a pause |
| Steps.PausesGrow | chronicle-receiver/receiver_plugin.cpp:559-564 | Pauses in a row grow by 50 milliseconds each up to half a second |
| Steps.StartPublishes | chronicle-receiver/receiver_plugin.cpp:414-467 | How every start ends, and exactly which fork events it publishes with which block and depth |
| Steps.StartFields | chronicle-receiver/receiver_plugin.cpp:414-470 | A process starts from the last committed block's fields, with an empty cache and no pause, and waits for a fork exactly when it announced one |
| Steps.ScansOn | chronicle-receiver/receiver_plugin.cpp:526-843 | Any chain of linked, decodable blocks up to the end block can be scanned, and the irreversible part of it is committed as it goes |
| StaleConsumer.LeftBehind | chronicle-receiver/receiver_plugin.cpp:414-459 | From a new database, two blocks and two starts within all expectations leave the consumer with block 2 and the receiver without it |
| StaleConsumer.SavedBehind | chronicle-receiver/receiver_plugin.cpp:1357-1358 | From a new database, two blocks, a snapshot and a start within all expectations leave the consumer with block 2 and the receiver without it |
| Invariant.RunKeeps | chronicle-receiver/receiver_plugin.cpp:710-878 | The invariant tying tables, undo copies, revision, committed height, fields, flow control and cache to the surviving chain holds along every run |
| Invariant.AdmitFork | chronicle-receiver/receiver_plugin.cpp:756-779 | What a fork makes of database, cache, acknowledged height and events |
| Invariant.AdmitNext | chronicle-receiver/receiver_plugin.cpp:741-785 | The next block is admitted or fails only on its link to the previous one, with the revision just below it |
| Invariant.PersistFree | chronicle-receiver/receiver_plugin.cpp:800-806 | Creating the received-block row never meets a taken number |
| Invariant.PersistDb | chronicle-receiver/receiver_plugin.cpp:797-820 | A stored block adds one undo copy and the floor becomes the maximum of itself and what may be committed |
| Invariant.CommittedDb | chronicle-receiver/receiver_plugin.cpp:398-411 | Undoing everything uncommitted leaves the replay of the committed blocks |
| Invariant.RevertKeeps | chronicle-receiver/receiver_plugin.cpp:398-411 | A process that ends with the newest n revisions undone keeps the invariant with n blocks less, and undoing one by one is one rollback |
| Invariant.DieStoringKeeps | chronicle-receiver/receiver_plugin.cpp:797-820 | A process that ends after it kept a block's session and before it committed keeps the invariant with the block uncommitted |
| Invariant.RowsKeepCoherent | chronicle-receiver/receiver_plugin.cpp:1024-1087 | Account rows of every kind keep each cached ABI equal to the latest-ABI row |
| Invariant.RowCaches | chronicle-receiver/receiver_plugin.cpp:1034-1087 | After a row its account is cached exactly when it brought a usable ABI, and the other accounts stay cached unless it was cached before |
| Receiver.Receiver.constructor | chronicle-receiver/receiver_plugin.cpp:301-348 | A new process has blank fields and an empty cache |
| Receiver.Receiver.RevertUncommittedRevisions | chronicle-receiver/receiver_plugin.cpp:398-411 | The undo loop ends at the committed floor and returns the number of revisions undone |
| Receiver.Receiver.RestoreFields | chronicle-receiver/receiver_plugin.cpp:418-448 | The fields come from the state row, or a resync fork is announced at the first block of the scan |
| Receiver.Receiver.AnnounceRestart | chronicle-receiver/receiver_plugin.cpp:450-462 | A restart fork is announced when something was undone, and the head counts as acknowledged |
| Receiver.Receiver.LoadState | chronicle-receiver/receiver_plugin.cpp:414-470 | The new state, events and error are those of the start specification |
| Receiver.Receiver.SetAbiBin | chronicle-receiver/receiver_plugin.cpp:1067-1071 | Registering succeeds exactly on usable bytes and replaces nothing |
| Invariant.ResetNeeded | chronicle-receiver/receiver_plugin.cpp:1024-1062 | Saving a changed ABI of a cached account keeps the cache true to the latest-ABI table after the reset, and would not without it |
| Receiver.Receiver.ClearContractAbi | chronicle-receiver/receiver_plugin.cpp:1034-1054 | The latest ABI goes, an empty revision is recorded if there was one, and a cached one resets the cache |
| Receiver.Receiver.SaveContractAbi | chronicle-receiver/receiver_plugin.cpp:1058-1111 | A usable ABI becomes latest and cached; any is recorded |
| AbiHistory.RecordAnswers | chronicle-receiver/receiver_plugin.cpp:1114-1129 | Recording a revision at the newest block, new or overwriting one, makes the account's look-ups from that block on answer with it and changes no other |
| Receiver.Receiver.ReceiveDeltas | chronicle-receiver/receiver_plugin.cpp:912-944 | The loop applies the account rows in order to tables and cache |
| Receiver.Receiver.GetContractAbiReady | chronicle-receiver/receiver_plugin.cpp:1148-1180 | In scan mode the ABI comes from the cache, else from the latest-ABI table |
| Receiver.LowerBound | chronicle-receiver/receiver_plugin.cpp:624-624 | The first received-block row at or after a number, or none |
| Receiver.Receiver.AddReceivedBlock | chronicle-receiver/receiver_plugin.cpp:800-813 | The truncation loop stops on or before the row just added and leaves exactly the rows from the irreversible block up |
| Receiver.Receiver.SaveState | chronicle-receiver/receiver_plugin.cpp:474-493 | The state row is written from the fields, created if absent |
| Receiver.Receiver.CommitDb | chronicle-receiver/receiver_plugin.cpp:871-878 | The database is committed up to the irreversible block, or the acknowledged one if lower |
| Receiver.Receiver.RaiseRevision | chronicle-receiver/receiver_plugin.cpp:741-746 | A lagging revision is set just below the block, where the database allows it |
| Receiver.Receiver.RollBack | chronicle-receiver/receiver_plugin.cpp:760-762 | The undo loop ends just below the block, given a copy to reach |
| Receiver.Receiver.AnnounceFork | chronicle-receiver/receiver_plugin.cpp:769-778 | The acknowledged height drops below the fork and the fork event is published |
| Receiver.Receiver.TakeFork | chronicle-receiver/receiver_plugin.cpp:756-779 | Rollback, cache reset, acknowledged height and fork event, or the no-undo-stack error |
| Receiver.Receiver.CheckBlock | chronicle-receiver/receiver_plugin.cpp:723-785 | All checks on a message, with the error of the first that fails |
| Receiver.Receiver.WriteBlock | chronicle-receiver/receiver_plugin.cpp:797-819 | The session writes the block as a new revision, or leaves the database as it was |
| Receiver.Receiver.TakeBlock | chronicle-receiver/receiver_plugin.cpp:787-819 | The fields take the block before it is written, also when writing fails |
| Receiver.Receiver.StoreBlock | chronicle-receiver/receiver_plugin.cpp:787-840 | Write, commit, then the completion event, with the three decoding failures in between |
| Receiver.Receiver.ReceiveResult | chronicle-receiver/receiver_plugin.cpp:710-843 | The new state, events and error of one message are those of the receive specification |
| Receiver.Receiver.ContinueRead | chronicle-receiver/receiver_plugin.cpp:526-584 | Reading, pausing with a growing delay, or the final commit at the end block |
| Receiver.Receiver.AckBlock | chronicle-receiver/receiver_plugin.cpp:1904-1935 | Acknowledgements during and outside a fork, and the abort on one that goes back |
| Receiver.Receiver.RequestBlocks | chronicle-receiver/receiver_plugin.cpp:619-635 | The walk over the index yields the rows between the irreversible block and the head, in order, and the start block is head + 1 |
| TableProperties.WindowStep | chronicle-receiver/receiver_plugin.cpp:800-813 | The next block finds its number free and keeps the window of received blocks for any new irreversible block |
| TableProperties.ReplayOk | chronicle-receiver/receiver_plugin.cpp:800-819 | After every chain: the received-block window, usable latest ABIs, no revision ahead of the head |
| TableProperties.ReplayIds | chronicle-receiver/receiver_plugin.cpp:803-806 | Every received-block row above the start carries the id of the surviving block |
| TableProperties.ReplayRows | chronicle-receiver/receiver_plugin.cpp:800-813 | The received-block rows after every chain, exactly: those there before and the blocks that were reversible when they came, less those below the irreversible block of any reversible one |
| Store.ReplayState | chronicle-receiver/receiver_plugin.cpp:474-493 | After every chain the state table is the last block's row alone |
| AbiHistory.TimeTravel | chronicle-receiver/receiver_plugin.cpp:1114-1129 | Later blocks never change the look-up at a past height |
| AbiHistory.RowsByAccount | chronicle-receiver/receiver_plugin.cpp:1034-1129 | The rows of a block do to each account's ABI and recorded revision what its own rows do |
| AbiHistory.RecordedTells | chronicle-receiver/receiver_plugin.cpp:1034-1111 | A recorded revision that is empty or usable tells the latest ABI; none recorded means none changed |
| AbiHistory.OverlaidIffParts | chronicle-receiver/receiver_plugin.cpp:1058-1129 | A block's recorded revision of an account is unusable over a latest ABI the block changed if and only if two of its rows say so: one that sets or clears the latest ABI to something new, not set or cleared otherwise later, and an unusable one after it |
| AbiHistory.BlockDetermined | chronicle-receiver/receiver_plugin.cpp:1058-1129 | A block keeps the latest table determined by the history if and only if its rows contain no such pair for any account |
| AbiHistory.ChainDeterminedIff | chronicle-receiver/receiver_plugin.cpp:1034-1129 | Along any chain the latest table is what the history says after every block if and only if no block contains such a pair |
| AbiHistory.LatestFromHistory | chronicle-receiver/receiver_plugin.cpp:1034-1129 | With one row per account and block the history determines the latest table after every chain |
| AbiHistory.PastAbi | chronicle-receiver/receiver_plugin.cpp:1148-1165 | A look-up of the past that finds a usable ABI gives the latest ABI as of that block |
| AbiHistory.TwoRowsPart | chronicle-receiver/receiver_plugin.cpp:1118-1122 | A usable ABI followed by an unusable one in the same block parts table and history |
| AbiIndex.LowerBound | chronicle-receiver/receiver_plugin.cpp:1155-1156 | The search returns the first index position not before account and block, by ascending account and descending block |
| AbiIndex.SearchRefinesLookUp | chronicle-receiver/receiver_plugin.cpp:1155-1163 | The position holds the account's newest revision at or before the block if it has one, else a later account's revision or the end |
| AbiIndex.ForeignIsNewest | chronicle-receiver/receiver_plugin.cpp:202-224 | A foreign revision the search falls on is the newest of its account |
| AbiIndex.GetContractAbiReady | chronicle-receiver/receiver_plugin.cpp:1148-1165 | Interactive mode registers whatever the lower bound finds, testing only for the end |
| AbiIndex.ForeignAbi | chronicle-receiver/receiver_plugin.cpp:1155-1163 | With one revision of account 2 in the history, account 1 is called ready at block 10 and decoded with it |
| AbiIndex.InteractiveExact | chronicle-receiver/receiver_plugin.cpp:1148-1165 | An account asked for before is answered from the cache; otherwise it is decoded with its own ABI exactly when it has a usable newest revision, and without any with a later account's; no other account is touched |
| Snapshot.WriteSnapshot | chronicle-receiver/receiver_plugin.cpp:1357-1447 | Uncommitted revisions are undone, then the rows of the four tables are written in index order without empty ABIs; no state row is an error |
| Snapshot.WriteBlocks | chronicle-receiver/receiver_plugin.cpp:1392-1406 | All received blocks in order |
| Snapshot.WriteAbis | chronicle-receiver/receiver_plugin.cpp:1408-1424 | All latest ABIs that are not empty, by account |
| Snapshot.WriteHistory | chronicle-receiver/receiver_plugin.cpp:1426-1443 | All revisions that are not empty, by account and block |
| Snapshot.ReadSnapshot | chronicle-receiver/receiver_plugin.cpp:1451-1535 | Rows are inserted up to the end mark, with the errors for magic number, version, existing state, duplicate keys, wrong end and truncation |
| Snapshot.RoundTrip | chronicle-receiver/receiver_plugin.cpp:1373-1530 | For every database with a state row, reading what was written rebuilds the state row, all received blocks and every ABI and revision that is not empty, whatever follows the end mark |
| Snapshot.CutShortFails | chronicle-receiver/receiver_plugin.cpp:1481-1530 | Every strict prefix of a written row stream is rejected |
| SnapshotFormat.WrittenInOrder | chronicle-receiver/receiver_plugin.cpp:1373-1446 | Every written stream has the state row, the received blocks by number, the latest ABIs by account and the history by account and block, each key once, and the end mark last |
| SnapshotFormat.ReadExact | chronicle-receiver/receiver_plugin.cpp:1451-1530 | For every file and database: it is accepted exactly when magic number, version and end mark are right, the database has no state row and no key is taken or repeated; the database then holds exactly what it held and what the rows say; and which error each other file meets |
| SnapshotFormat.RowsRead | chronicle-receiver/receiver_plugin.cpp:1478-1530 | Among the rows a taken key is met before a missing or wrong end mark, and what follows the mark does not matter |
| Snapshot.WriteAgain | chronicle-receiver/receiver_plugin.cpp:1373-1446 | A restored database is written as the same file |
| Snapshot.RestoredStart | chronicle-receiver/receiver_plugin.cpp:1357-1447 | The snapshot of any run loses only empty revisions, and meets what a run expects of the database and the node it starts with at the committed height |
| Snapshot.RestoredLookUp | chronicle-receiver/receiver_plugin.cpp:1426-1443 | A restored history answers with the newest revision that is not empty, which is the original answer if and only if that was not a cleared ABI |
| Snapshot.RestoredDetermined | chronicle-receiver/receiver_plugin.cpp:1426-1443 | The history of a restored database still says what its latest ABIs are if and only if every account with a usable revision on record has an ABI still |
| Snapshot.ScanRestored | chronicle-receiver/receiver_plugin.cpp:1357-1443 | So it is with the snapshot of every scan from a new database with one row per account and block |
| Snapshot.ClearingForgotten | chronicle-receiver/receiver_plugin.cpp:1426-1443 | After a block that sets an ABI and one that clears it, the look-up at the second answers cleared, and in the restored database with the ABI, which its latest table does not hold |
| Exporter.DeliversInOrder | chronicle-receiver/exp_ws_plugin.cpp:309-358 | In every interleaving, delivered plus under way plus queued is what was pushed, in order, and short of a write error there is exactly one continuation |
| Exporter.NoDeadlock | chronicle-receiver/exp_ws_plugin.cpp:323-332 | In every run with a low mark of at least 2 a slowed-down receiver leaves the exporter something to send and, short of a write error, a write under way |
| Exporter.DeadlockIff | chronicle-receiver/exp_ws_plugin.cpp:461-464 | That holds in every run if and only if the low mark is at least 2 |
| Exporter.UsualMarks | chronicle-receiver/exp_ws_plugin.cpp:461-464 | Limits up to 1431655765 have three quarters, rounded down, for a low mark, which is at least 2 from 3 up |
| Exporter.SenderDecides | chronicle-receiver/exp_ws_plugin.cpp:309-346 | In every run the sender asks for a slow-down at the high mark and above, releases below the low mark, leaves it alone in between and when idle, and sends the oldest message or arms the timer |
| Exporter.BurstBrakes | chronicle-receiver/exp_ws_plugin.cpp:323-332 | A burst up to the high mark is always noticed, whatever the limit |
| Exporter.PushWakes | chronicle-receiver/exp_ws_plugin.cpp:349-352 | In every run a message queued while nothing is being written calls the sender at once |
| Exporter.ErrorEnds | chronicle-receiver/exp_ws_plugin.cpp:336-340 | After a failed write nothing more is delivered and nothing calls the sender |
| Exporter.ReportsCounted | chronicle-receiver/exp_ws_plugin.cpp:353-357 | The report comes after message 1000 and every 10000 from there |
| Exporter.IdleDoubles | chronicle-receiver/exp_ws_plugin.cpp:309-321 | With nothing to send the timer's pause doubles from 5 milliseconds to 320 |
| Exporter.NeverReleased | chronicle-receiver/exp_ws_plugin.cpp:325-330 | With a low mark of 0 or 1 a slowed-down receiver is never released |
| Exporter.BurstDeadlocks | chronicle-receiver/exp_ws_plugin.cpp:309-346 | With a low mark of 0 or 1 a burst up to the limit ends slowed down with an empty queue |
| Exporter.LockingLimits | chronicle-receiver/exp_ws_plugin.cpp:461-464 | The limits 2 and 1431655766 have the low marks 1 and 0 and lock up after a burst |
| Exporter.ReleasedAfter | chronicle-receiver/exp_ws_plugin.cpp:323-346 | From every reachable slowed-down state, also above the high mark, and without pushes, the receiver is released by write number size - low mark + 2 and not before |
| Backpressure.WritesRelease | chronicle-receiver/exp_ws_plugin.cpp:323-346 | In every run of receiver and exporter together, that many writes clear the slow-down and change nothing else of the receiver, which then reads unless it has another reason to pause |
| Backpressure.SlowedReceivesNothing | chronicle-receiver/receiver_plugin.cpp:544-557 | In every run of both, a receiver slowed down between two messages receives no block until as many writes as it takes to release it are completed or a new process starts |
| Exporter.ExpWs.constructor | chronicle-receiver/exp_ws_plugin.cpp:461-464 | The marks are set and the sender started |
| Exporter.ExpWs.AsyncSendEvents | chronicle-receiver/exp_ws_plugin.cpp:309-346 | An empty queue arms the timer with a longer pause; otherwise the brake is set by the marks and one message is written |
| Exporter.ExpWs.PushMsg | chronicle-receiver/exp_ws_plugin.cpp:349-358 | The message is queued, a pause is cancelled and the report counter moves on |
| Exporter.ExpWs.OnTimer | chronicle-receiver/exp_ws_plugin.cpp:319-321 | A posted timer handler, expired or cancelled, calls the sender |
| Exporter.ExpWs.OnWritten | chronicle-receiver/exp_ws_plugin.cpp:336-344 | A completed write delivers its message and calls the sender; a failed one ends the exporter |
| Interactive.OneAtATime | chronicle-receiver/receiver_plugin.cpp:656-737 | In every run, pauses and stops included, requests are sent in order of acceptance, one outstanding at a time, and all blocks of a request arrive before the next is sent |
| Interactive.EverythingSent | chronicle-receiver/receiver_plugin.cpp:681-737 | From any reachable state each block leaves one less to come whatever else happens, and once as many came as were left every accepted request has been sent and answered in order |
| Interactive.AnswerableIff | chronicle-receiver/receiver_plugin.cpp:526-584 | In every run, all accepted requests can still be answered if and only if the process has not stopped with one outstanding |
| Interactive.PauseLosesIff | chronicle-receiver/receiver_plugin.cpp:544-557 | A decision to pause loses an accepted request if and only if the last block received is irreversible and just below the end of the request sent last, with a request outstanding |
| Interactive.AskAccepted | chronicle-receiver/receiver_plugin.cpp:656-707 | In every run a request is accepted exactly when all its blocks lie below the scanned head, goes out at once exactly when the connection is ready and nothing is outstanding, and changes nothing when refused |
| Interactive.PollDecides | chronicle-receiver/receiver_plugin.cpp:526-557 | In every run the receiver reads on exactly when it is not asked to slow down and its queue has room, and otherwise stops exactly when the last block is irreversible and just below the end in force |
| Interactive.BlockTaken | chronicle-receiver/receiver_plugin.cpp:733-790 | In every run the block that comes is the next of the range, becomes the head, and lets the next request out exactly when it is the last one |
| Interactive.StopsWithRequests | chronicle-receiver/receiver_plugin.cpp:544-557 | Three requests for the same block and a slow-down stop the receiver with the second unanswered and the third unsent |
| Interactive.Requester.constructor | chronicle-receiver/receiver_plugin.cpp:281-301 | A new process has no request and the end block of its options |
| Interactive.Requester.OnBlockReq | chronicle-receiver/receiver_plugin.cpp:656-678 | A request within the scanned head is queued and processed, any other refused, as is every one before the first block |
| Interactive.Requester.ProcessInteractiveReqs | chronicle-receiver/receiver_plugin.cpp:681-707 | The oldest request is sent when none is outstanding |
| Interactive.Requester.FinishRange | chronicle-receiver/receiver_plugin.cpp:733-738 | The last block of the range leaves nothing outstanding and lets the next request out |
| Interactive.Requester.StartRead | chronicle-receiver/receiver_plugin.cpp:502-505 | Requests made before the connection was ready are then processed |
| Interactive.Requester.ContinueRead | chronicle-receiver/receiver_plugin.cpp:526-584 | Reading, pausing, or the stop at the end of the request sent last |
| Interactive.Requester.ReceiveResult | chronicle-receiver/receiver_plugin.cpp:733-790 | The last block of the range lets the next request out before the block becomes the head |
| TraceFilter.Judge | chronicle-receiver/receiver_plugin.cpp:1195-1264 | The scan with its early exits publishes exactly by the declarative rule, and fails exactly on an unknown action before anything decides |
| TraceFilter.MatchesActor | chronicle-receiver/receiver_plugin.cpp:1242-1248 | Some authorization names a watched actor |
| TraceFilter.ReceiveTraces | chronicle-receiver/receiver_plugin.cpp:1184-1267 | Published traces keep their order, up to one that cannot be handled |
| TraceFilter.SelectedInOrder | chronicle-receiver/receiver_plugin.cpp:1184-1267 | Published are, in order and each once, exactly the traces the filter lets through before the first one that cannot be handled |
| TraceFilter.ByFirstAction | chronicle-receiver/receiver_plugin.cpp:1195-1264 | The first action drops, passes or fails the trace by the lists of the options, or leaves it to the rest; without actions only filters drop it |
| TraceFilter.DocumentedIff | README.md:454-458 | The scan departs from the documented rule exactly when a filter matches cleanly and some action is blacklisted |
| TraceFilter.BlacklistOverruled | README.md:454-458 | A transfer to a watched account followed by a blacklisted action is published |

## Left out

- The undo-stack database, the ABI decoder, websockets, timers and JSON: libraries that are not part of this model, represented by contracts or parameters.
- `decoder_plugin.cpp`: it dispatches to libraries; its use of the ABI cache is covered by the cache property.
- Table rows, permissions, links and account metadata, and the events for ABI updates, removals and errors: straight publishing loops.
- Interactive mode's ABI cache within a block range: it is not refreshed there, and nothing is claimed about it.
- Exporter.ExpWs.PushMsg: the byte layout of exported messages is not modelled; a message is an opaque byte string.
- Interactive mode's decoding failures, and what the final commit does to a database opened read-only: the reader stops either way.
- The shared-memory mutex, the stale-connection timer, real pause durations, logging, option parsing and plugin start-up.
- Linkage of block ids across a fork: the code checks the previous block's id only on blocks beyond the head.
- Block numbers are unbounded naturals; only the subtractions of the source wrap in 32 bits, and the head stays below the end block (`Safety.HeadBelowEnd`).
- A message without a block is a step of its own in `Runs` and has no method.
- A process killed inside a block's undo session would leave one more undo copy, with unfinished contents above it, for the next start to undo and count; there is no such step.
- Events a failed start published are treated like any others under way: they may be handled or lost.
