# Verification of NCloud

NCloud is a small cloud: a replicated key-value store with a coordinator, and a web frontend that keeps
mail, chat and a file drive in it. This project models the parts that carry its guarantees and proves those
guarantees for all inputs, all runs and all reachable states. `dafny verify dfyconfig.toml` checks it.

## How it is built

The store comes in layers that share one idea: a node stands for a log of operations, and the length of
that log is its LSN.

- `Bytes`, `Table`, `Wal`, `RowCodec`, `Bloom`, `TabletImage`, `Snapshot`, `WalDelta`: the byte formats of
  kvstore/src/tablet.cc and the Bloom filter, and what a log does to a table. `Formats`: known bytes of each
  format.
- `TabletStore` (Tablet.dfy): the tablet as a class over the real bytes of its two files. `Tablet.Valid` is
  the durability invariant: decoding those bytes would rebuild what is in memory. Every operation keeps
  it, a checkpoint exactly if the table fits the format.
- `Replication`: the replication manager as a class over a tablet. `Term`: all interleavings of one
  primary's term as a step system; its `Put`, `Cput`, `Delete`, `Receive` and `Load` methods tie the
  steps to the class.
- `Nodes`, `Detector`, `Routing`, `Coordinator`: failure detection, row routing, elections and recoveries. A
  ghost log of every probe and RPC lets a contract say whom a decision asked and what came back.
  `Failover` joins elections to `Term` and begins the next term.
- `Sha256`, `Pbkdf2`, `Password`: the hash with its buffer, HMAC, key derivation and stored credentials,
  each against its standard (FIPS 180-4, RFC 2104, RFC 2898). `Sha256Answer`: the constants as roots of
  primes, and the digest of "abc".
- `Tokens`, `Csv`, `Listing`, `Cas`, `CasOrder`: lists kept as text in one column and edited by
  compare-and-put loops, and the order of such lists.
- `DriveTree`, `DrivePaths`, `DriveWalks`, `Drive`, `DriveDeep`, `DriveNames`: the drive's tree, its paths,
  its traversals, its handlers and its byte counter, drives too deep for the traversals, and where every path
  leads after a request.
- `Chunked`: chunked bodies of RFC 9112.

The environment is arbitrary. Whether a probe, an RPC or a reply gets through is a choice made anew each
time; clocks, sockets and randomness enter only as such choices or as parameters.

## What the proofs found

Where a promised property does not hold of the code, the model keeps the code, exhibits the failing case
and proves exactly when the property holds.

- A snapshot answer that is installed late can drop operations the replica has acknowledged
  (`Term.LateImageLosesCommit`). Acknowledgements stay true throughout a run if and only if no step installs
  an image older than one of them (`Term.AcksHeldExactly`); refusing an image older than the local log is
  enough for that (`Term.TimelyDropsNothing`). Commits survive every election throughout a run if and only if
  no step takes a committed operation from a node without which fewer than half hold it, or commits one that
  fewer than half hold (`Term.CommitsSurviveExactly`, `Term.SurvivesExactly`).
- Counts are written in 32 bits. A checkpoint loads back, and a snapshot decodes, as its table if and only if
  all lengths and counts fit (`TabletImage.CkptRoundTrip`, `Snapshot.SnapshotRoundTrip`); a table of 2^32 rows
  comes back empty (`TabletImage.WideLogLost`).
- A crash between the rename of a checkpoint and the truncation of the log keeps the rows but counts the log
  twice in the LSN unless it was empty (`TabletImage.CheckpointCrashWindow`). In the same window of a snapshot
  load the old log is replayed over the new state; the rows survive if and only if that log says nothing new
  (`TabletImage.SnapshotCrashWindow`, `TabletImage.SnapshotWindowDiverges`).
- A delta record is skipped by adding its three lengths in 32 bits. Late deltas are read right if and only if
  those sums fit for every skipped record (`WalDelta.LateDeltaExactly`, `WalDelta.WrappedDeltaMisread`).
- A refresh that reaches a node already declared down revives it in silence; two Down verdicts can then
  follow each other (`Detector.SilentRevival`). Verdicts alternate if and only if none follows such a refresh
  (`Detector.AlternatesExactly`).
- A primary looks at a requester's LSN and version only (`Replication.EqualLsnDiverges`). Its answer is right
  for every requester that gives them if and only if it is a snapshot that fits its format, or the requester
  has nothing yet (`Replication.SyncsRightExactly`).
- Creating a missing list column with a plain put can lose an acknowledged item (`Cas.CreationLosesUpdate`).
  Acknowledged additions survive in every run if and only if the column exists at the start
  (`Cas.AdditionsSurviveExactly`), and from the last creation on (`Cas.CreationThenFold`).
- Unlinking a drive object takes an unavailable store for an empty list. Its yes is to be trusted if and only
  if the store answered or the item was required (`Cas.RemoveYesExactly`). Its no is, if and only if no put
  went before it or the no cannot come (`Cas.RemoveNoExactly`): a put may remove the item without being heard.
- The timing-safe comparison keeps the size difference in 32 bits: it is equality if and only if the sizes
  are the same or differ in their low 32 bits (`Password.MatchesIsEqualityExactly`). So is the verdict on a
  plaintext record (`Password.PlaintextExactly`).
- Traversals stop below level 4096. A deletion leaves orphans if and only if its subtree goes deeper
  (`Drive.AfterShapeExactly`, `DriveDeep.DeepDeleteExactly`), and a recount loses bytes if and only if some
  lie deeper (`Drive.AfterBalancedExactly`, `DriveDeep.DeepRecountExactly`). A history keeps the drive in
  order if and only if it has neither (`Drive.SoundExactly`).

Where SYSTEM_DESIGN.md and the code disagree, the model follows the code: log entries carry a magic number
and no LSN (SYSTEM_DESIGN.md lines 104-107 against kvstore/src/tablet.cc:143-173); a write that misses its
quorum is rolled back and refused, not acknowledged (SYSTEM_DESIGN.md line 178 against
kvstore/src/replication.h:219-241); a resynchronisation sends a delta or a snapshot, never both
(SYSTEM_DESIGN.md lines 168-172 against kvstore/src/replication.h:337-404).

## Model

| member | source | states |
|---|---|---|
| Table.ReplayLookup | kvstore/src/tablet.cc:597-610 | A cell of a replayed table reads as the log's last word on it, or as before the log |
| Table.ReplayIdempotent | kvstore/src/tablet.cc:597-612 | Replaying a log over its own result changes no row and no cell, for every table and log |
| Table.ReplayChangesNothing | kvstore/src/tablet.cc:597-610 | Replaying a log over a table changes nothing if and only if every row it puts is there and every cell it touches already reads as the log's last word |
| Wal.ReadEntry | kvstore/src/tablet.cc:562-596 | The step-by-step reader accepts and returns what the format defines at any offset of any buffer |
| Wal.EntryRoundTrip | kvstore/src/tablet.cc:143-197 | An encoded entry is read back, inside any surroundings, if and only if its three lengths fit in 32 bits |
| Wal.WholeEntriesIsMaximal | kvstore/src/tablet.cc:562-631 | The number of entries that survive a cut is the largest that fits before it |
| Wal.TornTail | kvstore/src/tablet.cc:562-631 | Scanning any byte prefix of a log yields exactly its whole entries and stops at their boundary |
| Wal.TruncationIsStable | kvstore/src/tablet.cc:612-631 | Scanning any file again after it was truncated gives the same entries and the same boundary |
| RowCodec.RowsRoundTrip | kvstore/src/tablet.cc:663-684 | A run of encoded rows is read back whole from any place in a buffer |
| RowCodec.ListedRows | kvstore/src/tablet.cc:434-456 | Rows written in any order rebuild the same table, whether a later row replaces an earlier one or not |
| Bloom.Djb2 | kvstore/src/bloom.h:88-93 | The shifting loop computes the 64-bit hash that multiplies by 33 |
| Bloom.Sdbm | kvstore/src/bloom.h:106-111 | The shifting loop computes the 64-bit hash that multiplies by 65599 |
| Bloom.WithBitSets | kvstore/src/bloom.h:70-75 | Setting one packed bit turns on that bit and leaves every other as it was |
| Bloom.AddedPasses | kvstore/src/bloom.h:40-51 | An added key passes the filter, and no key that passed stops passing |
| Bloom.CellsRoundTrip | kvstore/src/bloom.h:54-63 | A serialised filter is restored cell by cell from wherever it stands in a file |
| Bloom.BloomFilter.Add | kvstore/src/bloom.h:40-43 | The array afterwards is the old filter with the key added |
| Bloom.BloomFilter.MayContain | kvstore/src/bloom.h:47-51 | The answer is yes exactly for keys whose three bits are set |
| TabletImage.StepsCovered | kvstore/src/tablet.cc:204-210 | After any log every stored row passes the filter, if it did at the start |
| TabletImage.CkptRoundTrip | kvstore/src/tablet.cc:423-457 | A checkpoint loads as exactly the rows, filter, LSN and version it was written from, in any row order, if and only if all lengths and counts fit 32 bits |
| TabletImage.LoadedFits | kvstore/src/tablet.cc:485-560 | Whatever checkpoint is accepted, old format included, its table fits |
| TabletImage.WideLogLost | kvstore/src/tablet.cc:442-457 | After 2^32 puts of different rows a checkpoint loads as an empty table at the same LSN |
| TabletImage.Rebuilds | kvstore/src/tablet.cc:485-631 | Checkpoint bytes plus log bytes recover the state that running the log in memory produced |
| TabletImage.TornRecovery | kvstore/src/tablet.cc:562-631 | A log cut at any byte recovers to the state after its whole entries, and so does a second recovery |
| TabletImage.CrashDuringAppend | kvstore/src/tablet.cc:143-197 | A crash inside an append leaves the state before the operation until the last byte is written, then the state after |
| TabletImage.CheckpointCrashWindow | kvstore/src/tablet.cc:459-477 | A crash between rename and truncation keeps rows and filter; the LSN is right if and only if the log was empty |
| TabletImage.SnapshotCrashWindow | kvstore/src/tablet.cc:714-728 | After the same crash inside a snapshot load the rows are the snapshot's if and only if the old log says nothing new about it; the LSN, and the whole state, if and only if the log was empty |
| TabletImage.SnapshotWindowDiverges | kvstore/src/tablet.cc:714-728 | Two files, a snapshot written as a checkpoint and the log left behind, from which recovery brings back an overwritten value under an LSN above the primary's |
| Snapshot.SnapshotRoundTrip | kvstore/src/tablet.cc:663-728 | A snapshot blob decodes to the table, LSN and version it was made from if and only if the table fits; the rebuilt filter passes every row |
| Snapshot.DecodedFits | kvstore/src/tablet.cc:686-728 | Whatever blob is accepted, its table can be checkpointed again without losing a length |
| Formats.EntryBytes | kvstore/src/tablet.cc:143-197 | The bytes of a put and of a delete of one small cell |
| Formats.CheckpointBytes | kvstore/src/tablet.cc:423-457 | The bytes of a checkpoint of that cell |
| Formats.SnapshotBytes | kvstore/src/tablet.cc:663-684 | The bytes of a snapshot of that cell |
| Formats.DeltaBytes | kvstore/src/tablet.cc:795-806 | The bytes of a delta of one entry |
| Formats.FilterOfA | kvstore/src/bloom.h:40-75 | The three bits that the key "a" sets |
| WalDelta.CountedLsns | kvstore/src/tablet.cc:730-806 | LSNs rebuilt by counting are those given at write time; what is sent starts right behind the requester |
| WalDelta.CountedGap | kvstore/src/tablet.cc:795-806 | When the log does not reach back to the requester the first LSN sent shows the gap |
| WalDelta.RunDeltaExact | kvstore/src/tablet.cc:808-888 | Gap-free records from LSN + 1 on are all applied, in order |
| WalDelta.RunDeltaOverlap | kvstore/src/tablet.cc:836-858 | Of records that start earlier, those already held are skipped and the rest applied; only the skipped ones need lengths that sum below 2^32 |
| WalDelta.DeltaLoaded | kvstore/src/tablet.cc:808-888 | The result of a late delta in all cases: overlap, entirely old, or refused because of a gap |
| WalDelta.LateDeltaExactly | kvstore/src/tablet.cc:836-858 | Late deltas of entries of given sizes are all read right if and only if the lengths of each skipped entry sum to less than 2^32 |
| WalDelta.WrappedDeltaMisread | kvstore/src/tablet.cc:836-858 | Two lengths of 2^31 in a skipped record: the delta is refused and the operation behind it is not applied |
| TabletStore.Tablet.Append | kvstore/src/tablet.cc:143-249 | One entry in the log file is one step of the whole memory, and recovery would rebuild the result |
| TabletStore.Tablet.Get | kvstore/src/tablet.cc:251-268 | A read through the filter agrees with the plain table on every cell |
| TabletStore.Tablet.Cput | kvstore/src/tablet.cc:278-303 | The value is replaced if and only if the cell holds the expected one; otherwise nothing changes |
| TabletStore.Tablet.Del | kvstore/src/tablet.cc:314-336 | A deletion is logged exactly when the cell exists |
| TabletStore.Tablet.ApplyReplicated | kvstore/src/tablet.cc:338-416 | A replicated operation is taken exactly at the LSN that comes next |
| TabletStore.Tablet.Checkpoint | kvstore/src/tablet.cc:418-483 | Only the version changes in memory and the log is empty; the file then stands for all of it if and only if the table fits |
| TabletStore.Tablet.LoadSnapshotBlob | kvstore/src/tablet.cc:686-728 | A complete blob replaces the whole state and is on disk at once; a cut one changes nothing |
| TabletStore.Tablet.WalDeltaAfter | kvstore/src/tablet.cc:730-806 | Reading the log file back yields the delta of the entries behind the given LSN |
| TabletStore.Tablet.ApplyWalDeltaBlob | kvstore/src/tablet.cc:808-888 | Whatever the blob, the tablet ends with its log extended by the records the format accepts, still recoverable |
| TabletStore.Tablet.Recover | kvstore/src/tablet.cc:485-631 | From any two files, memory is the recovered image and the log loses its torn tail |
| TabletStore.Restart | kvstore/src/tablet.cc:116-130 | A new process on the files of a tablet in good order has the same rows, filter, LSN and version |
| TabletStore.LogOfMeans | kvstore/src/tablet.cc:795-799 | A tablet with history h holds the replay of h, and its LSN is the length of h |
| Replication.ReplicationManager.AddReplica | kvstore/src/replication.h:181-206 | Registering an id keeps ids distinct and adds exactly that id |
| Replication.ReplicationManager.ForwardToAll | kvstore/src/replication.h:529-565 | Every replica is asked, and success means that the distinct ones that acknowledged, with the primary, are more than half of all |
| Replication.MajorityOutnumbers | kvstore/src/replication.h:529-565 | Success needs the primary and the acknowledgers to outnumber the others |
| Replication.ReplicationManager.ReplicatedPut | kvstore/src/replication.h:208-241 | Either a majority has the put, or it is undone by a second logged and broadcast operation: cells as before, LSN up by 2 |
| Replication.ReplicationManager.ReplicatedCput | kvstore/src/replication.h:244-268 | The same for compare-and-put, which is refused exactly on a mismatch |
| Replication.ReplicationManager.ReplicatedDelete | kvstore/src/replication.h:270-294 | The same for a delete; deleting a missing cell succeeds without a trace |
| Replication.ReplicationManager.ApplyReplicate | kvstore/src/replication.h:296-335 | An LSN is acknowledged exactly when the replica then holds that many operations; only the next one is applied |
| Replication.ReplicationManager.BuildSyncResponse | kvstore/src/replication.h:337-404 | A delta is sent if and only if the requester is level, or shares the version and misses only what the log still holds |
| Replication.ReplicationManager.SyncFromPrimary | kvstore/src/replication.h:585-634 | The state after an answer of either kind, complete or damaged |
| Replication.Resync | kvstore/src/replication.h:499-527 | A replica whose log is a prefix ends with the primary's rows, LSN and history, whichever answer is chosen; only for a snapshot must the table fit |
| Replication.UndoRestores | kvstore/src/replication.h:227-232 | An operation on any cell followed by its compensation leaves every cell of the table reading as before |
| Replication.ForeignDelta | kvstore/src/replication.h:342-378 | A replica with another history of the length it reports takes the delta and ends with its own beginning and the primary's end, at the primary's LSN |
| Replication.SyncsRightExactly | kvstore/src/replication.h:337-404 | For a given LSN n and version, every requester ends with the primary's rows if and only if a snapshot of a fitting table is chosen, or a delta for n = 0 |
| Replication.EqualLsnDiverges | kvstore/src/replication.h:342-355 | Two level histories of one put each after which a cell reads differently at the same LSN |
| Term.PrefixAlways | kvstore/src/replication.h:296-335 | In every run each replica's log is a prefix of the primary's |
| Term.AckMeansHeld | kvstore/src/server.cc:517-560 | Whenever LSN n is acknowledged the replica holds the primary's first n operations |
| Term.AcksKeptExactly | kvstore/src/replication.h:585-634 | A step keeps every acknowledgement true if and only if it does not install an image older than one of them |
| Term.AcksHeldExactly | kvstore/src/replication.h:585-634 | In a run from the start of a term all acknowledgements are true throughout if and only if no step installs an image older than one of them |
| Term.AcksHeld | kvstore/src/replication.h:585-634 | In every run without such a step all acknowledgements are true at the end |
| Term.TimelyDropsNothing | kvstore/src/replication.h:585-634 | Refusing every image older than the local log is enough for that |
| Term.SurvivesExactly | coordinator/src/coordinator.cc:840-903 | The freshest node of every majority holds the primary's first n operations if and only if at least half of the nodes hold n |
| Term.KeptExactly | kvstore/src/replication.h:529-634 | A step keeps every commit with half of the nodes if and only if it neither installs an image that takes one below that nor commits one already below it |
| Term.CommitsSurviveExactly | kvstore/src/replication.h:529-634 | In a run from the start of a term all commits survive every possible election at every moment if and only if no step is of that kind |
| Term.CommittedSurvive | kvstore/src/replication.h:529-565 | After every run without such a step, in any majority the node with the highest LSN holds every committed operation at its LSN |
| Term.DropsNothingLosesNothing | kvstore/src/replication.h:585-634 | A run that drops no acknowledgement has no such step |
| Term.LateImageLosesCommit | kvstore/src/tablet.cc:686-728 | A run in which a late image makes the highest-LSN node of a majority miss a committed operation |
| Term.CompensationReaches | kvstore/src/replication.h:219-241 | In every run, a replica that acknowledges the compensating operation agrees with the primary at that moment, and both read as before the write |
| Term.CompensationStays | kvstore/src/replication.h:219-241 | It agrees at every later moment at which it holds as many operations as the primary |
| Term.Receive | kvstore/src/server.cc:517-560 | The class answers and moves as the step system says, on any history |
| Term.Put | kvstore/src/replication.h:208-241 | A replicated put moves log and network as one write of the step system, or as the write and the write of its compensation; OK is given exactly for a majority, and can be committed once its acknowledgements are recorded |
| Term.Cput | kvstore/src/replication.h:244-268 | The same for compare-and-put; a mismatch changes nothing |
| Term.Delete | kvstore/src/replication.h:270-294 | The same for a delete; that of a missing cell changes nothing |
| Term.CommitFollows | kvstore/src/replication.h:529-565 | When the acknowledgements behind an OK are the yes of replicas that the write reached, in any order, the write is committed |
| Term.Load | kvstore/src/replication.h:585-634 | Loading an answer's bytes moves the history as the step system says |
| Term.CutLoad | kvstore/src/tablet.cc:808-888 | A load of records cut short at any byte comes back from its files as the step system's partial load |
| Detector.AlwaysConsistent | coordinator/src/coordinator.cc:467-538 | After any pings and refreshes: alive is not down, alive means fewer misses in a row than the threshold, and the counter is that number |
| Detector.VerdictsExactly | coordinator/src/coordinator.cc:467-520 | Down is declared exactly at the threshold-th miss in a row, recovery exactly at the first answer after that |
| Detector.DownAtThreshold | coordinator/src/coordinator.cc:467-483 | A threshold of t takes t misses in a row, and t - 1 take nobody down |
| Detector.RestartIsNotRecovery | coordinator/src/coordinator.cc:495-507 | A changed process id counts as a restart only for a node that was up |
| Detector.SettledKeptExactly | coordinator/src/coordinator.cc:522-551 | One step keeps "verdicts alternate and the last one tells whether the node is down" if and only if it is not a refresh that answers for a node that is down |
| Detector.AlternatesExactly | coordinator/src/coordinator.cc:424-551 | In every history the verdicts alternate, Down first, if and only if no verdict follows such a refresh |
| Detector.VerdictsAlternate | coordinator/src/coordinator.cc:424-465 | In every history without such a refresh the verdicts alternate, Down first |
| Detector.SilentRevival | coordinator/src/coordinator.cc:522-551 | For every threshold there is a history with two Down verdicts in a row |
| Detector.LastReported | coordinator/src/coordinator.cc:213-247 | After every history the LSN, the tablet LSNs and the process id are the last ones the node reported |
| Detector.TabletLsnReported | coordinator/src/coordinator.cc:197-200 | A tablet's LSN is that of the last list, or the node's last LSN if the list lacks it |
| Detector.RestartedExactly | coordinator/src/coordinator.cc:486-501 | A restart is reported exactly for an answer with a new process id from a node that missed fewer pings than the threshold |
| Routing.FindTablet | coordinator/src/coordinator.cc:1209-1217 | The loop returns the first tablet whose range has the row, or none |
| Routing.FindHosted | kvstore/src/server.cc:136-141 | The same on the server's side, with its own range test |
| Routing.ExactlyOneTablet | coordinator/src/coordinator.cc:1209-1217 | With chained ranges a row at or above the first start is in exactly one tablet, any other in none |
| Routing.SameTablet | kvstore/src/server.cc:22-28 | A server hosting any of the tablets in any order finds the coordinator's tablet if it hosts it, and otherwise none |
| Routing.LessIsByteOrder | coordinator/src/coordinator.cc:1212-1213 | Rows are compared byte by byte: the first difference decides, and a proper prefix comes first |
| Coordinator.Coordinator.Heartbeat | coordinator/src/coordinator.cc:424-465 | One round pings every node once and reports exactly the nodes that failed, recovered or restarted |
| Coordinator.Coordinator.TabletMaxKnownLsn | coordinator/src/coordinator.cc:202-210 | The result is the least LSN that no cached LSN of the tablet exceeds |
| Coordinator.SortCandidates | coordinator/src/coordinator.cc:870-873 | The candidates, each as often as before, with falling LSNs |
| Coordinator.Coordinator.Elect | coordinator/src/coordinator.cc:840-954 | Every candidate is probed, and each that answers has its followers probed; there is a winner exactly if one that answered at the highest LSN considered was granted its promotion, and without one each such candidate refused; the winner's LSN bounds every cached and heard one, and its followers are told |
| Coordinator.Coordinator.HandleNodeFailure | coordinator/src/coordinator.cc:701-959 | The calls made are those of the rebuilds and the elections; every tablet that keeps a live primary is rebuilt, every other one with a live node is put to an election; the order of tablets changes only by the winners |
| Coordinator.Coordinator.Rebuild | coordinator/src/coordinator.cc:787-838 | The primary is probed; if it answers so are the followers, it is made primary anew, and those that answered are told |
| Coordinator.Coordinator.Recover | coordinator/src/coordinator.cc:1046-1206 | The node, its peers and the primary are probed; nothing is done exactly if the node is silent or it and the primary are outdone, the node follows exactly if the primary is another one that answers and is not behind it, and otherwise it is asked to lead; who leads was heard at the highest LSN considered |
| Coordinator.Coordinator.HandleNodeRecovery | coordinator/src/coordinator.cc:961-1207 | Every tablet of the node that came back is recovered so, with the live nodes' cached LSNs; the calls made are those of the recoveries, and the order of tablets changes only by their outcomes |
| Coordinator.PromotedKeeps | coordinator/src/coordinator.cc:938-944 | Putting a leader first keeps every tablet's nodes a permutation and touches no tablet but the first of that name |
| Coordinator.SwapsTwo | coordinator/src/coordinator.cc:938-944 | The leader and the node that stood first change places, and no other node moves |
| Coordinator.CachedIsRefreshed | coordinator/src/coordinator.cc:541-552 | After a refresh is cached the stored record is the refreshed one |
| Coordinator.Coordinator.HandleLookup | coordinator/src/coordinator.cc:1219-1277 | A live primary is always asked, and "unavailable" is answered exactly if there is none or it was silent; a client is sent to it exactly when its fresh LSN is at least every cached one; "stale" is answered only otherwise, after a second probe |
| Failover.ElectionKeepsCommits | coordinator/src/coordinator.cc:840-903 | After every run without a harmful step, an election that hears a majority leaves a primary that holds every committed operation |
| Failover.NextTermBegins | coordinator/src/coordinator.cc:840-954 | The survivors of any run can start a new term: their logs are prefixes of the new primary's |
| Failover.TakeOver | kvstore/src/server.cc:576-590 | On BECOME_PRIMARY the elected node is ready to write with an empty replica list, in a new term that keeps what was committed |
| Sha256.Sha256.Transform | frontend/src/password.h:103-146 | The loop over the schedule and the rounds is the compression function of section 6.2.2 of FIPS 180-4 |
| Sha256.ScheduleOf | frontend/src/password.h:122-133 | The array filled in place is the message schedule |
| Sha256.Sha256.Update | frontend/src/password.h:53-67 | After any update the object stands for all bytes fed so far, in order |
| Sha256.Sha256.Final | frontend/src/password.h:75-98 | The padding loop ends, and the digest is that of the padded message of section 5.1.1 |
| Sha256.HashOfPieces | frontend/src/password.h:53-98 | However a message is cut into updates, the digest is the one-shot hash of the whole |
| Sha256.BigEndianReads | frontend/src/password.h:84-89 | The eight length bytes read as the message length in bits |
| Sha256.PadIsShortest | frontend/src/password.h:75-89 | The padded message is the shortest whole number of blocks that holds the message, the one bit, zeros and the length |
| Sha256Answer.ConstantsAreRoots | frontend/src/password.h:104-116 | Each round constant is the first 32 fractional bits of the cube root of its prime (section 4.2.2 of FIPS 180-4) |
| Sha256Answer.InitialHashIsRoots | frontend/src/password.h:42-51 | The initial words are those of the square roots of the first eight primes (section 5.3.3) |
| Sha256Answer.AbcDigest | frontend/src/password.h:383-388 | The digest of "abc" is the published one |
| Pbkdf2.HmacSha256 | frontend/src/password.h:164-192 | The code, also when it writes over its own message or key, is HMAC of section 2 of RFC 2104 |
| Pbkdf2.HmacTwenty | frontend/src/password.h:164-192 | For a key of twenty octets 0b the octets hashed in front are 3d and 36, outside 57 and 5c |
| Pbkdf2.HmacKeys | frontend/src/password.h:164-175 | A long key is as good as its digest, and zeros behind a key that fits change nothing |
| Pbkdf2.DeriveBlock | frontend/src/password.h:207-223 | The loop that reuses one buffer in place computes the function F of section 5.2 of RFC 2898 |
| Pbkdf2.Pbkdf2Sha256 | frontend/src/password.h:197-232 | The output of any length is the standard's derived key; an iteration count of zero acts as one |
| Pbkdf2.Int32Wraps | frontend/src/password.h:204-213 | The 32-bit block counter encodes the same four octets as the unbounded index |
| Pbkdf2.DerivedKnown | frontend/src/password.h:197-232 | The key for one and two iterations and for the second block, octet by octet in terms of HMAC |
| Pbkdf2.DerivedPrefix | frontend/src/password.h:224-231 | A shorter derived key is the beginning of a longer one |
| Password.HexRoundTrip | frontend/src/password.h:237-265 | Bytes printed as hex are read back |
| Password.UnhexPrints | frontend/src/password.h:248-265 | What is read as hex prints back as the same digits in lower case |
| Password.FromHex | frontend/src/password.h:248-265 | Odd lengths and strange characters are refused, everything else decoded |
| Password.ConstantTimeEquals | frontend/src/password.h:270-284 | Exactly when the loop without early exit answers yes |
| Password.MatchesIsEqualityExactly | frontend/src/password.h:270-284 | For two lengths the loop decides equality if and only if they are the same or differ in their low 32 bits |
| Password.LowXor | frontend/src/password.h:271 | The low 32 bits of the sizes' xor are zero exactly when the sizes agree in them |
| Password.HashPassword | frontend/src/password.h:306-318 | The stored text is the credential of that password, salt and cost |
| Password.StoulReads | frontend/src/password.h:345-351 | A printed iteration count is parsed back |
| Password.VerifyPassword | frontend/src/password.h:327-369 | The verdict on any stored record, plaintext records and damaged ones included |
| Password.VerifiesExactly | frontend/src/password.h:306-369 | A password verifies against a new credential if and only if the cost is in range and the keys agree; an upgrade is asked for exactly below the current cost |
| Password.PlaintextExactly | frontend/src/password.h:333-338 | A plaintext record lets in the password equal to it and nobody else, and asks to be replaced when it does, for all records and passwords of given lengths if and only if the lengths are the same or differ in their low 32 bits |
| Password.HashedExactly | frontend/src/password.h:340-369 | A hashed record verifies if and only if it has the four parts, a cost in range, a salt and a key of even length, and that key is the one derived |
| Password.EmptyNeverVerifies | frontend/src/password.h:331 | An empty record lets nobody in |
| Tokens.RoundTrip | frontend/src/fe_server.cc:5739-5757 | A list comes back from its text if and only if no item is empty or has the separator |
| Tokens.SplitText | frontend/src/fe_server.cc:5739-5748 | The token loop drops empty tokens and nothing else |
| Tokens.SplitAppend | frontend/src/fe_server.cc:5739-5748 | The tokens on both sides of a separator are those of the two sides, in order |
| Cas.EditSplit | frontend/src/fe_server.cc:5448-5490 | Editing the text is editing the list |
| Cas.EditDistinct | frontend/src/handlers_mail.cc:156-213 | No edit brings a duplicate into a list without one |
| Cas.EditAchieves | frontend/src/fe_server.cc:5448-5490 | After an edit the item is there, or gone, as asked, also when the list is trimmed |
| Cas.FoldKeeps | frontend/src/fe_server.cc:5448-5490 | An item once present stays through any later edits that do not drop it |
| CasOrder.EditPlaces | frontend/src/handlers_mail.cc:186-213 | The item comes first, last or away as asked; of the others those nearest to it that fit the limit stay, in their order |
| CasOrder.EditOrder | frontend/src/fe_server.cc:5448-5490 | Two others that stay keep their order, and what a limit cuts off is farther from the new item than all that stays |
| CasOrder.LaterStandsBefore | frontend/src/handlers_mail.cc:186-213 | Over any log, an item put in front later stands before any item not edited since |
| Cas.NoLostUpdates | frontend/src/fe_server.cc:5448-5490 | In every interleaving on an existing column the list is the fold of the successful edits in commit order, has no duplicates, and keeps what was acknowledged |
| Cas.CreationThenFold | frontend/src/fe_server.cc:5448-5490 | From its last creation on a column is the fold of the later edits over the created text, and keeps what was acknowledged since |
| Cas.AdditionsSurviveExactly | frontend/src/fe_server.cc:5448-5490 | Acknowledged additions survive in every run if and only if the column exists at the start |
| Cas.CreationLosesUpdate | frontend/src/fe_server.cc:5482-5486 | A run of two clients creating the column in which an acknowledged item is lost |
| Cas.AppendCsvItem | frontend/src/fe_server.cc:5448-5490 | The retry loop says yes only if the addition was in force at some moment of the call, and no only after 16 setbacks |
| Cas.PrependUid | frontend/src/handlers_mail.cc:186-213 | The same for prepending to a mail folder |
| Cas.RemoveUid | frontend/src/handlers_mail.cc:156-184 | The same for removing from a mail folder, with twelve attempts |
| Cas.RemoveChild | frontend/src/fe_server.cc:5916-5930 | Yes after a put means the removal was made; with the item required there is no other yes; without, yes is also given on what the last read showed; a put of the call removed the item exactly if its turns say so |
| Cas.RemoveNoExactly | frontend/src/fe_server.cc:5916-5930 | For given reads, a no always means that nothing was removed if and only if the first read takes the item for absent, or some read does while the item is not required |
| Cas.RemoveYesExactly | frontend/src/fe_server.cc:5916-5930 | A turn's yes is true for every list exactly if the store answered or the item was required, since an unavailable store reads as an empty list |
| DriveTree.MadeShape | frontend/src/fe_server.cc:6368-6406 | Linking a new object under an unused name keeps the tree |
| DriveTree.RenamedShape | frontend/src/fe_server.cc:6288-6311 | Renaming to a name no sibling has keeps the tree |
| DriveTree.MovedShape | frontend/src/fe_server.cc:6313-6366 | Moving to a folder not below the object keeps the tree acyclic, lists and parents agreeing, sibling names unique |
| DriveTree.DeletedShape | frontend/src/fe_server.cc:6408-6453 | Removing what a traversal saw keeps the tree if and only if it saw the whole subtree |
| DrivePaths.ResolvePath | frontend/src/fe_server.cc:5841-5872 | The component loop finds what the path names, with or without leading or doubled slashes |
| DrivePaths.BuildPath | frontend/src/fe_server.cc:5941-5958 | The loop upwards ends, and the text has the names from the root down |
| DrivePaths.EveryObjectHasAPath | frontend/src/fe_server.cc:5841-5958 | In every tree, resolving the path built for an object finds that object |
| DrivePaths.IsDescendantOf | frontend/src/fe_server.cc:5976-5989 | "No" is always right; in a tree "yes" means an ancestor or an object 4096 levels deep |
| DriveWalks.ReachMeans | frontend/src/fe_server.cc:5960-5974 | What lies within n levels of a folder is what has it as an ancestor at most n steps up |
| DriveWalks.SubtreeBytes | frontend/src/fe_server.cc:5596-5609 | The traversal with its visited set adds each file within the cap once |
| DriveWalks.Collect | frontend/src/fe_server.cc:5960-5974 | The list has each object within the cap exactly once |
| Drive.DriveStore.HandleUpload | frontend/src/fe_server.cc:6190-6273 | Accepted exactly when size, quota, folder and name allow it, with the whole account afterwards |
| Drive.DriveStore.HandleMkdir | frontend/src/fe_server.cc:6368-6406 | Accepted exactly for a valid, unused name in an existing folder |
| Drive.DriveStore.HandleRename | frontend/src/fe_server.cc:6288-6311 | Accepted exactly for an existing object and a valid name that no sibling has; the whole account afterwards, and still a tree |
| Drive.DriveStore.HandleMove | frontend/src/fe_server.cc:6313-6366 | Accepted exactly when the destination is a folder not below the object, for a folder also less than 4096 levels deep, and the name is free there; the whole account afterwards, and still a tree |
| Drive.DriveStore.HandleDelete | frontend/src/fe_server.cc:6408-6453 | The subtree within the cap is gone and its bytes are off the counter; a tree remains exactly if nothing lay deeper |
| Drive.DriveStore.HandleQuotaUpdate | frontend/src/fe_server.cc:6470-6488 | A new quota is taken exactly if it is in range and not below the bytes stored |
| Drive.ResolveMoveDestination | frontend/src/fe_server.cc:5874-5910 | The first of the candidate paths that is a folder |
| Drive.DeletedTotal | frontend/src/fe_server.cc:6408-6453 | The bytes stored before a deletion are those left and those freed |
| Drive.AfterShapeExactly | frontend/src/fe_server.cc:6190-6488 | A request keeps the tree if and only if it is not an accepted deletion of a subtree that goes deeper than the traversal |
| Drive.AfterBalancedExactly | frontend/src/fe_server.cc:5625-5669 | A request keeps the counter equal to the bytes stored and those within the quota if and only if it does not recount a drive with bytes too deep to be counted |
| Drive.CountedExactly | frontend/src/fe_server.cc:5596-5615 | A recount from the root finds all bytes stored if and only if no file with bytes lies deeper than 4096 levels |
| Drive.TreeExactly | frontend/src/fe_server.cc:6190-6488 | A history keeps the tree throughout if and only if it has no such deletion |
| Drive.SoundExactly | frontend/src/fe_server.cc:6190-6488 | A history keeps tree, counter and quota throughout if and only if it has neither such a deletion nor such a recount |
| Drive.DriveStaysSound | frontend/src/fe_server.cc:6190-6488 | From an empty drive any requests without those keep the tree, the counter, the quota and the path of every object |
| Drive.CapKeepsSound | frontend/src/fe_server.cc:6190-6488 | In particular any requests while nothing lies more than 4096 levels deep |
| Drive.ChildrenText | frontend/src/fe_server.cc:5912-5930 | Linking and unlinking in the tree are what the text edits make of the children column |
| DriveNames.RenameMovesPaths | frontend/src/fe_server.cc:6288-6311 | For every path after a rename: at and below the new name is what was under the old one, under the old one nothing, elsewhere all as before |
| DriveNames.RenamedIsFound | frontend/src/fe_server.cc:6288-6311 | The object is found under its new name, not under its old one, and what is not below it stays where it was |
| DriveNames.MoveMovesPaths | frontend/src/fe_server.cc:6313-6366 | For every path after a move: in the destination is what was under the old path, under the old path nothing, elsewhere all as before |
| DriveNames.MovedIsFound | frontend/src/fe_server.cc:6313-6366 | The object is found in the destination, not where it was, and what is not below it stays |
| DriveNames.DestinationIs | frontend/src/fe_server.cc:5874-5910 | The destination is the first folder among the path itself, the path from the object's folder, and the folders above with that name, nearest first |
| DriveNames.PathEnds | frontend/src/fe_server.cc:5759-5774 | The parent path has all names but the last, and the base name is the last |
| DriveNames.MkdirPaths | frontend/src/fe_server.cc:6368-6406 | A new folder is at its path, and every other path leads where it led |
| DriveNames.UploadPaths | frontend/src/fe_server.cc:6190-6273 | So is a new file, with its size |
| DriveNames.DeletedPaths | frontend/src/fe_server.cc:6408-6453 | After a deletion nothing is found at or below the path, and every other path leads where it led |
| DriveTree.ValidKnown | frontend/src/fe_server.cc:5781-5790 | Names that are taken and names that are refused |
| DriveDeep.MkdirsMakeChain | frontend/src/fe_server.cc:6368-6406 | From an empty drive any number of requests make a chain of folders of that depth |
| DriveDeep.DeepDeleteExactly | frontend/src/fe_server.cc:6408-6453 | Deleting the top of a chain of n folders made by requests leaves a tree if and only if n is at most 4097 |
| DriveDeep.DeepRecountExactly | frontend/src/fe_server.cc:5596-5669 | Setting a quota after an upload n folders down keeps the counter right if and only if n is below 4096 |
| Chunked.Stream.ReadLine | frontend/src/http_reader.h:46-58 | Byte by byte, the next line without its end, or failure past 8192 bytes or at the end of input |
| Chunked.Stream.ReadChunkedBody | frontend/src/http_reader.h:88-121 | The reader accepts exactly the chunked bodies of the definition, on any stream |
| Chunked.SendChunkedBody | frontend/src/http_reader.h:211-229 | The writer emits the chunked form of the body cut at 16 KiB |
| Chunked.PrefixParses | frontend/src/http_reader.h:31-43 | A chunk size printed in hex is parsed back, below 2^64 |
| Chunked.ReadEncoded | frontend/src/http_reader.h:88-121 | Any cut into chunks reads back as their concatenation within the cap, and fails beyond it |
| Chunked.ChunkedRoundTrip | frontend/src/http_reader.h:88-229 | What is written is read back, and nothing behind it is consumed, if and only if the body is at most 1 GiB |
| Chunked.ReadFully | frontend/src/http_reader.h:88-121 | With extensions on every chunk and any trailer lines the body is the same, and everything up to the empty line is consumed |
| Chunked.HexKnown | frontend/src/http_reader.h:31-43 | "1a2b" is 6699 |

## Left out

- Replication.Resync: the replica's log must be a prefix of the primary's; without epochs nothing more holds, see Replication.SyncsRightExactly.
- Term.CommittedSurvive: needs a run without a harmful step; Term.LateImageLosesCommit shows why, Term.CommitsSurviveExactly that nothing less will do.
- Failover.TakeOver: messages of the old term are taken to be gone; without epochs nothing in the code fences them.
- Coordinator.Coordinator.Recover: cached LSNs of dead nodes are not considered, as in the source.
- Cas.NoLostUpdates: items are non-empty and without commas, as uids are, and the column exists; Cas.CreationThenFold says what holds when it does not.
- Drive.DriveStaysSound: no accepted deletion and no recount meets anything deeper than 4096 levels; Drive.SoundExactly shows that this is what it takes.
- Cas.RemoveUid: the column exists, as for the other loops, and the mirror of the inbox in the legacy `index` column is not modelled.
- Races inside the tablet: a snapshot is taken without the log's lock and a put raises the LSN before it touches the rows; here every tablet operation is one step.
- Errors of files: opening, writing, renaming and syncing succeed; a crash is considered inside an append and in the window behind a rename.
- Epochs: there are none in the code, so agreement of logs is stated within one primary's term.
- Sockets, timeouts, retries, sleeps, thread pools and connection pools: a call succeeds or fails, a probe answers or not.
- `op_count_`, DUMP, STATS and value previews: counters and displays without influence on the rest.
- The role labels of nodes, which only the status page shows, the initial role configuration and the load balancer.
- Failed KV calls inside drive handlers and their clean-up; a delete lists the subtree before it unlinks it, which no list involved can notice.
- File and attachment chunks, legacy `bytes` and `index` columns, checkpoints written by older versions beyond their loading: they add only easy members.
- Mail messages, chat, sessions, SMTP, multipart parsing, pages and scripts: interface and plumbing around the parts modelled.
- Integer widths: LSNs, versions, hashes and lengths in the store wrap as in the source; byte counts in the drive are unbounded, since quotas keep them far below 2^63.
