# graph-r, modelled and proved

graph-r is an embedded document and lineage store in two files: an immutable base and an
append-only log of one record per transaction. Any number of handles, in any number of
processes, share a directory. This project models the parts of it whose correctness spans
several functions, and proves that they do what the store promises.

The modules, from the outside in:

- **The protocol** (`Protocol`, `ProtocolInvariant`, `ProtocolSteps`, `ProtocolCommit`,
  `ProtocolSafety`, `ProtocolLimits`, `ProtocolRuns`, over `History`): a state machine of a disk and any
  number of handles. An append lands byte by byte; a compaction is a base rename, a log
  rename and an install; a reader without the lock examines the files, reads the base and
  reads the log in three steps. `hist` and `cuts` are history variables no step reads.
- **A handle as code** (`StoreHandle`): a class with the fields of the store and its write
  state, whose methods are proved to be runs of that state machine.
- **Meaning** (`Merge`, `Touching`, `Intervals`, `Compaction`, `StoreRuns`): ops folded into patches and
  read over a base, beside a reference machine that applies ops one by one; compaction as a
  transformation that preserves every read; and the two joined to the protocol, so that what
  any handle reads is what the reference machine makes of a prefix of the committed ops.
- **Rendering** (`Csr`, `Tables`, `InEdges`, `StoredBase`, `Live`, `StoredRuns`): a store laid
  out as records over dense ids, read back through binary searches and index runs; and, joined
  to the protocol, the file of a compaction in any honest run read back as the reference machine.
- **Queries** (`Traverse`, `Lineage`, `Lexicon`, `LexiconBuild`, `TextOrder`, `Indexing`): walks against
  shortest distance, vocabulary lookup against a linear scan, and the
  vocabulary collected from the nodes' texts by an arbitrary tokenizer.
- **Bytes** (`ByteCodec`, `WalOps`, `WalSets`, `WalRecord`, `WalScan`, `WalReader`,
  `WalBuffer`, `WalLayout`, `Staging`, `Postings`, `Container`, `ContainerTrip`, `ContainerDamage`,
  `Spans`, `BaseFile`, `BaseWrite`, `BaseOpen`, `BaseLayout`, `BaseImage`): the log and base formats, encoders and validators.
  Accepted bytes and legal values correspond one to one in the log, and `WalScan` ties log
  bytes to the protocol's records; any base file that opens is read in bounds, no byte of it can
  change unnoticed, and the file compaction writes opens and reads back whole. `WalLayout` and
  `BaseLayout` say where every field stands.
- **Memory** (`Chunks`, `Arena`, `ArenaPublish`, `Ring`): the overlay arena's cells and the
  ring of generation slots, the latter interleaved step by step.

Texts are the bytes of their UTF-8 encoding. The checksum and "is valid UTF-8" are function
parameters: no theorem needs more of them than is stated in its `requires` (a token hash
without collisions for the exact tier, UTF-8 closed under joining for named attributes).
Integers are bounded where packing, wrap-around or a width matters.

## Findings

Where code and documentation disagree, the model follows the code.

1. *A log can be cut below a committed record.* A handle compares the log's identity and
   length to decide that nothing changed (src/store.rs:351-356 says equal stamps mean
   nothing could have). If it looked while a torn tail lay in the log, and another writer then
   cut the tail and committed a record of exactly its length, the stamp is equal although
   the log holds a record it never read. Its next locked catch-up reads nothing, and repair
   cuts the log back to the position it remembers. `ProtocolLimits.AliasIsReachable` is such
   a run, `SyncIsDurableExactly` the exact condition, and `CautiousRunsAreSafe` shows that
   the alias needs a look taken while an append waits for its fsync or over torn bytes.
2. *A transaction can be seen and then never have happened.* A record may be written whole
   and its sync fail; the writer cuts it back off (src/writer.rs:538-553), but a reader
   without the lock may have served it in between. `ProtocolLimits.WithdrawIsCleanExactly`:
   clean if and only if no handle still open completed a read of the log in between;
   `ProtocolRuns.PhantomIsReachable` is a run where one did.
3. *A tombstone can depend on compaction.* A document seen gone and then seen again reads as
   alive while both touches are in the overlay, but as gone once the first is compacted
   (`Merge.TombstoneDependsOnCompaction`); `Merge.TouchIsExactlyFolded` has the condition.
4. *Two touches in one batch do not accumulate*, as documented: never, short of a saturated
   check counter (`Touching.SecondTouchNeverAccumulates`). `Touching.TouchAccumulatesExactly`
   has the condition for any staged ops. That is no question of folding: the second touch can
   be well formed, and folded exactly, and still put back a hash the first one replaced.
5. *Lookup by hash trusts the hash.* With a colliding token the exact tier names the wrong
   one; `Lexicon.LexMatches` agrees with a scan if and only if there is none. Indexing has no
   entry for a second token with the same hash: its nodes join the first's postings
   (src/compact.rs:222-226). `Indexing.WordListsTokenExactly`: they name exactly the token's
   nodes if and only if each node so merged holds the first token as well;
   `Indexing.CollisionMerges` has two documents where one does not.
6. *The varint reader drops bits shifted out of a tenth byte* and accepts zero padding;
   `Postings.CanonicalExactly` says which spellings are the writer's own.
7. *A commit that fails can have committed.* The documentation says an error means nothing
   was appended (src/writer.rs:458-460). If every byte of the record lands, the sync fails and
   the cut-back fails too, the transaction is in the history and still staged: committing
   again commits it twice, as does running a transaction again that failed so, though nothing
   of it stays staged (`StoreHandle.Store.Transact`). `StoreHandle.Store.Commit` says exactly
   when, `ProtocolSafety.FailedAppendStaysCommitted` that the first stays, and
   `ProtocolRuns.TwiceIsReachable` is such a run.
8. *A posting run's end is computed in 32 bits* (src/query.rs:249-251), where the check made on
   opening adds in 64. `BaseOpen.RunReadableExactly`: readable if and only if the sum fits;
   every run is in a base with less than 4 GiB of postings.

9. *An upsert's interval depends on compaction.* An unchanged page ingested again keeps the
   interval its base record has (src/snapshot.rs:340-345), so a check made since is forgotten
   unless a compaction put it into the record. `Intervals.CompactionInBetween` has the exact
   condition, `Intervals.IntervalDependsOnCompaction` such a page.

A run is *safe* when it meets neither of the first two circumstances, and *honest* when it is
safe and every transaction was staged against what its own writer reads: documents exist
before segments, edges, attributes, pins or touches are set on them, and a touch carries a
hash, carries an etag if the document has one, and does not revive a document seen gone.

## Model

| member | source | states |
|---|---|---|
| `ProtocolSafety.RunsAreSafe` | src/store.rs:844-927 | After every safe run of any number of handles from a fresh store (commits, aborts, failed appends, compactions as two renames and an install, crashes between any two steps): a fresh load shows exactly the committed transactions in order, every handle serves whole transactions forming a prefix of them, the log's sequence numbers rise, and no log is newer than its base |
| `ProtocolSafety.InvIsSafe` | src/store.rs:1159-1193 | The same four facts from the state invariant alone, for a load of whatever base and log are on disk |
| `ProtocolSafety.FilesAreDurable` | src/store.rs:1159-1193 | Files that satisfy the invariant load to the whole history |
| `ProtocolSafety.ServedIsPrefix` | src/store.rs:958-963 | A served base with its overlay shows the history up to a transaction boundary |
| `ProtocolSafety.StepKeepsInv` | src/store.rs:844-927 | Every one of the seventeen steps keeps the invariant, short of the two circumstances named under "Findings" |
| `ProtocolSafety.SafeRunKeepsInv` | src/store.rs:844-927 | So does every run |
| `ProtocolSafety.AcknowledgedIsDurable` | src/writer.rs:554-577 | Once a commit is acknowledged, its transaction is on disk, whole and in place, after every safe continuation |
| `ProtocolSafety.StepKeepsSettled` | src/writer.rs:538-553 | No step removes a transaction that was settled (written and not being given up) |
| `ProtocolSafety.RunKeepsSettled` | src/writer.rs:538-553 | No run does |
| `ProtocolSafety.FailedAppendStaysCommitted` | src/writer.rs:538-553 | A failed append whose record landed whole and was not cut back has committed its transaction for good |
| `ProtocolSafety.CommitsAreSerial` | src/store.rs:706-716 | From catch-up to the landing of its record, a lock holder's view is the whole history, and its record takes the next sequence numbers |
| `ProtocolSafety.LogNumbersAboveBase` | src/writer.rs:147-152 | Every sequence number in a base's own log is above what the base folded; an older base's log holds nothing its successor did not fold |
| `ProtocolSafety.GenerationsAreFresh` | src/compact.rs:83-87 | A compaction numbers its base above every base ever written, installed in memory or not |
| `ProtocolSafety.LockFreeLoad` | src/store.rs:990-1055 | A load without the lock, its steps interleaved with anything, serves the whole history as of its log read, or re-reads because the log is newer than the base it read, or is refused because every slot is pinned and the new base holds ops this handle does not serve; nothing else can happen |
| `ProtocolInvariant.BuildIsComplete` | src/store.rs:1159-1193 | A base read at any earlier time with the log read now builds the whole history as of now, or reports the log newer; never a damaged log |
| `ProtocolInvariant.LoadIsComplete` | src/store.rs:1015-1055 | The same for a handle that already serves something, ring full or not |
| `ProtocolInvariant.LoadRingFull` | src/store.rs:1034-1053 | With every slot pinned the old base plus the new base's log is the whole history exactly when every folded op is already served, else it is refused |
| `ProtocolInvariant.TailIsComplete` | src/store.rs:929-953 | Reading the tail from a consumed boundary brings a handle to the whole history |
| `ProtocolInvariant.CompareIsSound` | src/store.rs:904-927 | Whatever a catch-up decides from its stamp, a tail it reads is never damaged and completes the history |
| `ProtocolInvariant.RegressionIsRefused` | src/store.rs:929-1055 | A log whose sequence numbers do not rise is refused, whole or by the tail not yet read, whatever else holds; and a look is refused for nothing else |
| `ProtocolInvariant.PublishCatchesUp` | src/store.rs:955-963 | Publishing records that start no later than what is served adds every missing op once |
| `ProtocolSteps.StatKeepsInv` | src/store.rs:904-927 | A lock-free look at the files (nothing, the tail, or the start of a full read) keeps the invariant |
| `ProtocolSteps.ReadLogKeepsInv` | src/store.rs:990-1055 | So does the end of a lock-free load |
| `ProtocolCommit.CatchUpIsSynced` | src/store.rs:844-927 | A locked catch-up, unless its stamp is an alias, leaves the handle serving the whole history with the log consumed to its last whole record |
| `ProtocolCommit.RepairIsReady` | src/store.rs:868-897 | Repair leaves a current log with no torn tail and loses no record |
| `ProtocolCommit.SyncKeepsInv` | src/store.rs:844-897 | Catch-up and repair under the lock keep the invariant unless the stamp is an alias |
| `ProtocolCommit.LandAllKeepsInv` | src/writer.rs:481-520 | A record whose last byte lands extends the history by its transaction |
| `ProtocolCommit.PublishKeepsInv` | src/writer.rs:554-565 | Publishing it brings the writer's view to the new history |
| `ProtocolCommit.FailTornKeepsInv` | src/writer.rs:538-553 | A failed append that left part of a record, or all of it, changes nothing that was committed |
| `ProtocolCommit.WithdrawKeepsInv` | src/writer.rs:538-553 | Cutting a whole failed record back off is clean while nobody has read it |
| `ProtocolCommit.SwapBaseKeepsInv` | src/compact.rs:414-416 | Renaming the new base into place keeps the invariant, log still old |
| `ProtocolCommit.SwapLogKeepsInv` | src/compact.rs:416-422 | Renaming the new log into place keeps it |
| `ProtocolCommit.InstallKeepsInv` | src/compact.rs:424-438 | Installing the new generation, or being refused a slot, keeps it |
| `ProtocolCommit.CompactionRenders` | src/compact.rs:83-87 | What a compaction folds is the whole history, under a fresh generation |
| `ProtocolCommit.ViewIsPrefix` | src/store.rs:955-963 | A served view is the history's ops up to its last sequence number |
| `ProtocolLimits.SyncIsDurableExactly` | src/store.rs:873-927 | A locked catch-up keeps every committed transaction on disk if and only if its stamp is not an alias |
| `ProtocolLimits.AliasIsReachable` | src/store.rs:351-356 | A concrete run, safe up to its last step, that reaches an alias: three handles open a clean log, one dies in mid-append, one looks without the lock, one repairs and commits a record of just the torn length; the looker's own next commit then cuts off a committed transaction |
| `ProtocolLimits.WithdrawIsCleanExactly` | src/writer.rs:538-553 | A record lands whole, the other handles go on in any way, and its writer cuts it back off: every handle still serves a prefix of what is committed if and only if no handle still open has read the log since the record landed |
| `ProtocolLimits.WithdrawIsCleanUnread` | src/writer.rs:538-553 | At the moment of the cut: just when nobody serves the record |
| `ProtocolLimits.ServesAllByReading` | src/store.rs:904-953 | While a record waits for its fsync another handle comes to serve it by completing a read of the log, and in no other way |
| `ProtocolLimits.PhantomIsNoPrefix` | src/writer.rs:538-553 | A handle that read a withdrawn record serves a transaction that was never committed |
| `ProtocolRuns.PhantomIsReachable` | src/writer.rs:538-553 | A concrete run from a fresh store, safe up to its last step, in which a record lands, another handle reads it, and cutting it back leaves that handle serving a transaction that was never committed |
| `ProtocolRuns.CanCommitTwice` | src/writer.rs:458-460 | Wherever an append is under way it can land whole, be given up without being cut back, and be committed again: the history then ends in the transaction twice |
| `ProtocolRuns.TwiceIsReachable` | src/writer.rs:538-553 | Such a run from a fresh store |
| `ProtocolRuns.ForgetfulSyncReadies` | src/store.rs:844-927 | A lock holder that forgot its stamp, as a failed append makes it, reads both files and is ready whatever they hold |
| `ProtocolLimits.CautiousRunsAreSafe` | src/store.rs:904-927 | If lock-free readers examine the files only while no torn bytes follow the log, and neither examine nor read them while an append waits for its fsync, every run is safe: no alias arises, and no record is cut back that anyone has read |
| `ProtocolLimits.StepKeepsNoTornMemory` | src/store.rs:904-927 | Under that discipline no handle ever remembers a torn tail |
| `ProtocolLimits.StepKeepsNothingReadEarly` | src/writer.rs:515-553 | And no record waiting for its fsync is served by any handle |
| `History.FromBoundary` | src/store.rs:934-953 | A record boundary is found again from its byte position alone |
| `History.EntriesOfRecs` | src/overlay.rs:324-331 | The ops of the log's records are the history's ops from the log's base on, numbered without gaps |
| `History.AboveRange` | src/store.rs:1090-1105 | Filtering numbered ops by sequence number keeps exactly the upper part |
| `StoreRuns.FreshLoadReadsHistory` | src/store.rs:1159-1193 | After every honest run (safe, each transaction staged against what its writer reads) a fresh load reads every key, through its base image and overlay, as the reference machine does over all committed ops |
| `StoreRuns.HandlesReadPrefixes` | src/store.rs:844-866 | Every handle reads every key as the reference machine does over a prefix of the committed transactions |
| `StoreRuns.RunIsFaithful` | src/compact.rs:83-213 | In every honest run each base ever written renders exactly the transactions it folded, and the history stays well formed |
| `StoreRuns.ServedReads` | src/snapshot.rs:276-366 | A served base and overlay read, key by key, as the reference machine over the ops they show |
| `StoreRuns.LandKeepsFaithful` | src/writer.rs:481-565 | A transaction staged against its writer's own view is well formed against the committed history |
| `StoreRuns.SwapKeepsFaithful` | src/compact.rs:89-213 | The image a compaction writes renders the whole history |
| `StoredRuns.CompactedFileReads` | src/compact.rs:83-446 | A handle compacts in an honest run and the file written from what it collected is opened: however the run goes on, reading the file's bytes through whatever overlay is served over that generation is the reference machine over the ops shown |
| `StoredRuns.HonestFilesRead` | src/snapshot.rs:276-366 | The same at any moment of an honest run, for the file of any served generation's image |
| `StoredRuns.FreshLoadReadsFile` | src/store.rs:1159-1193 | A fresh load of the base file on disk and the log reads every key as the reference machine does over all committed ops |
| `StoredRuns.CompactToFile` | src/compact.rs:83-416 | Collect, manage stubs, order, index, lay out and write, for any view: whenever the compacted documents and their words are within the file's fields, the file opens under the stamps given and holds exactly the compacted image, its search indices and postings |
| `StoredRuns.SwapWrites` | src/compact.rs:414-416 | The image a compaction puts on disk is the one it collected from what it served |
| `StoredRuns.ImagesStay` | src/compact.rs:83-87 | No step of an honest run changes the image of a generation already written |
| `StoredRuns.FileHoldsImage` | src/format/base.rs:640-655 | Looking any key up in an opened file finds what the image has for it |
| `StoredRuns.InOrder` | src/compact.rs:185-199 | A base's documents in key order, each once |
| `StoreHandle.Store.Commit` | src/writer.rs:463-578 | From any state of the invariant, an alias included, for any fate of the write, any pinned slots, any room in the arena and any compaction outcome, a commit is a run of the protocol that ends with the lock free. It succeeds if and only if nothing is staged, or there is a slot and room for what the files have that the handle does not serve, the record is within its cap and the arena, and the write goes through; then the history grew by exactly the staged transaction and the handle shows the whole history, the result being its last sequence number, or, when its stamp was an alias, what it showed before and the transaction; past its limits it then compacts or leaves a compaction due, exactly. An error keeps the ops staged and the history as it was, unless the write broke after the whole record landed and could not be cut back; with nothing staged nothing happens |
| `StoreHandle.Store.Transact` | src/writer.rs:644-688 | The same, with its own if and only if, for a transaction made under the lock: the ops staged before it and its own are committed together or, on any error and when the caller gives up, exactly its own are dropped; giving up leaves the history alone; the lock is taken and the files read first in every case |
| `StoreHandle.Store.CommitHeld` | src/writer.rs:481-578 | With the lock held and the files caught up: exactly when the commit succeeds and with which error it does not, and exactly which steps it takes, compaction past the limits included; the view grows by the staged ops |
| `StoreHandle.Store.CommitMore` | src/writer.rs:665-688 | Staging more, then committing everything or dropping exactly what was added |
| `StoreHandle.LockReadies` | src/store.rs:844-897 | A catch-up under the lock leaves the handle at the end of an untorn log that it remembers exactly; it then serves the whole history, or, if its stamp was an alias, what it served before |
| `StoreHandle.Store.AppendHeld` | src/writer.rs:481-565 | The append performs exactly the protocol's append, publish or failure steps, refusing before the first byte when the record is too large or the arena has no room, and says which |
| `StoreHandle.BrokenHistory` | src/writer.rs:538-553 | A broken append leaves its transaction in the history exactly when every byte landed and none could be cut back |
| `StoreHandle.Store.Account` | src/writer.rs:554-565 | After an append that landed, every write counter and the view move as the protocol's publish step says |
| `StoreHandle.Store.GiveUp` | src/writer.rs:538-553 | A failed append is cut back to the consumed position, if that can be done, and the stamp forgotten |
| `StoreHandle.Store.CompactLocked` | src/compact.rs:414-446 | However far the renames get and whatever slots are pinned, a compaction is the protocol's steps; it never changes what the handle shows |
| `StoreHandle.Store.CompactPastLimits` | src/writer.rs:566-577 | Past its limits, and only then, a commit runs the compaction's steps if it may; afterwards a compaction is due, or nothing but the new base is served over an empty log; what is committed or shown is not touched |
| `StoreHandle.Store.ReplaceLog` | src/compact.rs:417-421 | The second rename leaves an empty log of the new generation and nothing remembered of the old one |
| `StoreHandle.Store.SyncLocked` | src/store.rs:844-866 | Catch up, repair and adopt under the lock equal the protocol's; an error changes nothing on disk or in the handle |
| `StoreHandle.Store.SyncUnlocked` | src/store.rs:844-866 | Without the lock, a catch-up over files that change between its reads equals the protocol's examine and load steps; it goes through if and only if what it reads can be served, and reports exactly whether what is served changed |
| `StoreHandle.Store.ReloadIfStale` | src/store.rs:797-811 | In any state of the invariant, over files that stay as they are: a refresh without the lock comes to show the whole history; it is refused if and only if every slot is pinned and the base on disk holds ops not served, or the arena lacks room for what is not shown; an alias hides everything; it reports exactly whether the generation or the ops shown changed; while its own writer is busy it does nothing |
| `StoreHandle.QuietCatchUp` | src/store.rs:904-1007 | Examining and then reading quiet files serves every committed op, unless there is no slot for a base that holds ops not served |
| `StoreHandle.QuietOpen` | src/store.rs:1199-1216 | Opening on quiet files serves every committed op |
| `StoreHandle.CatchesUpExactly` | src/store.rs:844-927 | Under the lock a handle can serve what is there if and only if there is a slot for it, or it serves what the base folded |
| `StoreHandle.BlockedExactly` | src/store.rs:955-963 | A catch-up lacks room if and only if the arena is full and there are committed ops it does not show or a log it must build anew |
| `StoreHandle.Store.CatchUp` | src/store.rs:904-927 | Reads nothing, the tail or both files, as the stamp decides, and reports exactly whether what is served changed; errors change nothing |
| `StoreHandle.Store.ReloadFull` | src/store.rs:990-1007 | The retry loop serves the first read that is not torn between a compaction's renames |
| `StoreHandle.Store.InstallOrApply` | src/store.rs:1015-1055 | Same generation publishes, another is built and installed, a full ring publishes on top when nothing is lost; a full arena refuses exactly when there is an op to publish; each error leaves the handle as it was |
| `StoreHandle.Store.PublishNew` | src/store.rs:955-963 | Appends exactly the ops above what is served and reports whether there were any, or is refused, changing nothing, when there are some and the arena has no room |
| `StoreHandle.Store.Repair` | src/store.rs:873-897 | Writes a header or cuts a torn tail exactly as the protocol's repair |
| `StoreHandle.Store.Adopt` | src/writer.rs:147-152 | Counters only advance, to what the served generation holds; the compaction thresholds then measure the overlay and the consumed log |
| `StoreHandle.Store.Install` | src/store.rs:1069-1084 | Installs exactly when some slot is neither current nor pinned, touching no other slot |
| `StoreHandle.Store.constructor` | src/store.rs:595-634 | A store assembled from a load is the protocol's handle after that load |
| `StoreHandle.LoadGeneration` | src/store.rs:1199-1216 | Opening re-reads until the log is not newer than the base, as the protocol's load |
| `StoreHandle.LoadsWithRoom` | src/store.rs:1087-1105 | Room in the arena or not, what a full read applies is what the protocol applies |
| `StoreHandle.StepsAreLoads` | src/store.rs:990-1007 | The retry loop and the protocol's alternating base and log reads end in the same handle |
| `StoreHandle.OpsAbove` | src/overlay.rs:324-331 | The nested walk over records and ops keeps exactly the ops above a sequence number |
| `StoreHandle.ReadyServesAll` | src/store.rs:706-716 | A caught-up lock holder shows the whole history |
| `Merge.BuildOverlay` | src/overlay.rs:265-318 | The one-pass fold leaves, for every key, the patch of all its ops in order |
| `Merge.FoldRefines` | src/overlay.rs:265-318 | Folding well-formed ops into a patch and reading through it equals applying them one by one with the reference machine |
| `Merge.SnapshotRefines` | src/snapshot.rs:276-423 | The same for what a snapshot looks up, whether or not the key was touched; of a node's fields all but the interval, for which see `Intervals.IntervalIs` |
| `Merge.SegRefsAre` | src/snapshot.rs:631-649 | A segment of the overlay is shown entry by entry, with its range just when its missing-range bit is clear |
| `Merge.FlagBits` | src/format/base.rs:49-59 | Pinned, stub and tombstone are the three low bits |
| `Merge.RestKept` | src/snapshot.rs:289-323 | Setting a pin or a tombstone leaves every other bit |
| `Merge.StagedOpsAreWellFormed` | src/writer.rs:210-240 | What a writer stages for an ingested document is well formed, touches and unsorted edges apart |
| `Intervals.IntervalIs` | src/snapshot.rs:303-345 | For any ops and any base a node shows the interval of the last touch; after a later upsert, the base record's, at least 1, if that is not severed and has the upsert's hash, else the configured one; with neither, the base record's |
| `Intervals.CompactionInBetween` | src/snapshot.rs:340-345 | A compaction between any ops and any later ones leaves the interval as it would be without, unless an upsert is the last touch or upsert since; then if and only if the document was removed since or the compacted record teaches the upsert what the record before it did |
| `Intervals.IntervalDependsOnCompaction` | src/snapshot.rs:340-345 | A document checked and then ingested again unchanged, where the two differ |
| `Intervals.TouchSchedules` | src/writer.rs:392-413 | A touch computed from what its writer shows, committed after anything else staged: the node shows what the freshness policy answers for the interval shown before and the outcome, and the op tells the outcome |
| `Merge.FoldRefinesStep` | src/overlay.rs:265-318 | One more op folded reads as that op applied to what was read before |
| `Merge.TouchIsExactlyFolded` | src/snapshot.rs:313-324 | A later touch replacing an earlier one is exact if and only if the hash, etag and tombstone it leaves out read the same without the earlier one |
| `Merge.TombstoneDependsOnCompaction` | src/snapshot.rs:402-404 | A document seen gone and then seen again is alive while both touches are in the overlay, gone if the first was compacted |
| `Merge.WithPin` | src/snapshot.rs:289-306 | Setting a pin changes that flag and no other |
| `Merge.WithTombstone` | src/snapshot.rs:321-323 | Marking a tombstone changes that flag and no other |
| `Touching.TouchAccumulatesExactly` | src/writer.rs:367-416 | For every node, every run of staged ops and every observation: the staged touch leaves what was observed if and only if the staged ops left hash, etag, counters and change time as the touch reads them, wherever the observation does not replace them; and when exactly it is well formed |
| `Touching.TouchCarriesWholeState` | src/writer.rs:367-416 | With no touch or removal of it staged before, a touch leaves exactly what was observed over the effective state, and folds exactly unless its document is a stub or was seen gone before and is not now |
| `Touching.SecondTouchNeverAccumulates` | src/writer.rs:361-366 | Whatever two touches of one batch observed, the second does not accumulate on the first, unless the check counter is at its end |
| `Touching.TwoTouchesInABatch` | src/writer.rs:361-366 | Two batches, one where the second touch folds exactly and still restores the hash the first replaced, one where it leaves the first's etag behind |
| `Touching.FindStagedUpsert` | src/writer.rs:374-386 | One pass over the staged ops finds the newest upsert of a key |
| `Touching.StagedState` | src/writer.rs:395-403 | With no touch or removal staged, a document's hash and etag are those of that upsert, or the committed ones |
| `Compaction.CompactModels` | src/compact.rs:89-183 | The compactor's passes (collect through the merged read, drop unreferenced stubs, add missing ones) compute the compaction function |
| `Compaction.Collect` | src/compact.rs:89-159 | Collecting keys in order yields every node of the merged view and every referenced key |
| `Compaction.CompactPreservesReads` | src/compact.rs:89-213 | After compaction every key reads as before, every node field included; stubs nothing shown points at are gone, and exactly the keys that are pointed at and have no node are blank stubs |
| `Compaction.CompactPreservesLiveSet` | src/snapshot.rs:443-482 | The live keys are the same before and after |
| `Compaction.CompactResolvesEdges` | src/compact.rs:186-213 | Every edge of a compacted base points at one of its nodes, and edge sets ascend |
| `Compaction.CompactIsIdempotent` | src/compact.rs:151-183 | Compacting again with no overlay changes nothing if and only if, before the first compaction, whatever a stub it drops points at that is itself a stub or no node is pointed at by a node that stays |
| `Compaction.CompactAgainChangesNothing` | src/compact.rs:151-183 | In every store with a well-formed history, however often and wherever it was compacted: compacting twice in a row is compacting once |
| `Compaction.HistoryStubsAreBlank` | src/compact.rs:157-183 | Because every stub of such a store is blank |
| `Compaction.ReadsRefine` | src/snapshot.rs:276-423 | A base that renders the earlier ops, read through an overlay of the later ones, reads as the reference machine over all of them |
| `Compaction.CompactRenders` | src/compact.rs:89-213 | Compacting at any point renders the later ops into the base |
| `Compaction.RunRenders` | src/compact.rs:83-213 | Throughout any interleaving of ops and compactions the base renders exactly the ops compacted |
| `Compaction.CompactionIsInvisible` | src/compact.rs:83-213 | Compact whenever and as often as you like: every key reads as the reference machine over the ops alone |
| `Compaction.SortedAlready` | src/compact.rs:104-110 | Sorting and deduplicating a stored edge set changes nothing |
| `Compaction.CollectedEdges` | src/compact.rs:108-114 | Whatever a node's edges are, collecting leaves one to each destination they have, by ascending destination, every one as it was |
| `Csr.Render` | src/compact.rs:303-316 | One pass over the rows yields offsets and records from which every row is read back |
| `Csr.RowOf` | src/snapshot.rs:505-513 | A node's two offsets delimit exactly its row |
| `Csr.Invert` | src/compact.rs:295-302 | The nested loops fill each inbound row with the records that point at it, sources in order |
| `Csr.InboundIsTranspose` | src/compact.rs:295-316 | A record is in an inbound row if and only if its mirror is in its source's outbound row; sources strictly ascend |
| `Csr.InboundCount` | src/compact.rs:295-316 | The inbound rows hold as many records as the outbound ones |
| `Tables.RenderBase` | src/compact.rs:185-331 | Rendering any store yields tables whose nodes, segments, edges, inbound edges and attributes are all of it, over heaps exactly as long as its labels and values; the labels too are in their places whenever they take no more than 2^32 - 1 bytes |
| `Tables.RenderNode` | src/compact.rs:229-293 | One node's record and segments hold the node, its labels adding exactly their bytes to the heap, in their places as long as the heap stays below the sentinel |
| `Tables.LaidCounts` | src/compact.rs:196-331 | The tables have as many segment, edge and attribute records as the documents have segments, edges and attributes |
| `Tables.SegOwner` | src/compact.rs:229-247 | Segment runs lie end to end, so every segment record is in some node's run |
| `Tables.RenderAttrs` | src/compact.rs:317-331 | Attribute rows hold every value over the blob heap, earlier ones undisturbed |
| `Tables.PushLabel` | src/format/base.rs:632-638 | A pushed label reads back at its offset, the 32-bit truncation of the heap's length, while that length is below the sentinel, and does not at the sentinel; no other label moves |
| `Tables.RenderedInBounds` | src/format/base.rs:233-355 | Rendered tables satisfy everything the accessors rely on |
| `Tables.NodeReadsBack` | src/snapshot.rs:369-423 | A node's four strings read back from its record |
| `InEdges.DocReadsBack` | src/snapshot.rs:369-423 | Rendering then reading is the identity on every document |
| `InEdges.FindNode` | src/format/base.rs:640-655 | The binary search finds a key if and only if it is there |
| `InEdges.LookupReadsBack` | src/format/base.rs:640-655 | Looking up a key finds the document rendered for it, if any |
| `InEdges.ReadInEdges` | src/snapshot.rs:520-564 | The two passes return the base run without replaced sources, then the overlay's entries sorted by source |
| `InEdges.GroupInbound` | src/snapshot.rs:541-560 | Grouping the overlay's edges by target visits every source once, in any order |
| `InEdges.InboundEdges` | src/snapshot.rs:515-564 | Reading the inbound edges of a rendered store under any overlay returns each edge to the key exactly once, and exactly those of the outbound reads: first those of the base whose sources the overlay leaves alone, then the overlay's, either by ascending source |
| `InEdges.InEdgesAreTranspose` | src/snapshot.rs:515-564 | For every base compaction can write and every overlay: an inbound edge is reported exactly once if it is among its source's outbound edges, and never otherwise |
| `StoredBase.CompactedIsRenderable` | src/compact.rs:185-213 | Whatever the base and overlay, what compaction collects can be laid out |
| `StoredBase.StoredReads` | src/compact.rs:83-446 | Reading a compacted store through its tables returns what was read before the compaction |
| `StoredBase.StoredInEdges` | src/snapshot.rs:515-564 | Inbound edges of a stored base under any later overlay are the transpose of its outbound ones, by key |
| `Live.ForEachLive` | src/snapshot.rs:441-482 | The sweep visits exactly the live keys, each once |
| `Live.LiveExactly` | src/snapshot.rs:459-461 | Live means a node with neither its stub nor its tombstone bit set |
| `Live.SweepBase` | src/snapshot.rs:443-464 | Its first half visits exactly the live base nodes |
| `Live.SweepFresh` | src/snapshot.rs:465-482 | Its second half visits exactly the live overlay-only nodes, in key order |
| `Live.SweepSurvivesCompaction` | src/snapshot.rs:425-434 | A compaction changes neither the live keys nor their count |
| `Traverse.Walk.WalkAlong` | src/traverse.rs:193-242 | Whatever the graph, the followed types and the visitor: what is shown is sound (each node once, never the start, nearest first, each over the first link that leads there from a node the visitor continued past) and complete within the depth |
| `Traverse.Walk.WalkLevel` | src/traverse.rs:211-235 | One level walks every link of every frontier node, outbound before inbound |
| `Traverse.Walk.Offer` | src/traverse.rs:213-235 | Offering a node's links shows exactly the new ones behind followed links |
| `Traverse.HopsArePassableDistances` | src/traverse.rs:155-162 | Under any visitor a node is reported at a depth exactly when that is its shortest distance, within the limit, over paths whose interior nodes the visitor continued past |
| `Traverse.HopsAreDistances` | src/traverse.rs:175-180 | Under a visitor that never stops: exactly the nodes at shortest distance 1 to the limit, at that distance |
| `Traverse.DiscoveredPath` | src/traverse.rs:218-231 | Every hop has a discovered path of its depth ending in its origin and type, and its chain is exact exactly when every link of that path is |
| `Traverse.LinksAre` | src/traverse.rs:193-242 | A walk offers at a node its outbound links, if it goes out, and its inbound ones, if it goes in, outbound first |
| `Traverse.ImpactMirrorsLineage` | src/traverse.rs:114-125 | Walking inbound from one node finds another at a depth exactly when walking outbound from the other finds the first at that depth |
| `Lineage.SnapshotIsOpposite` | src/traverse.rs:114-125 | Over any rendered store and overlay, walking along a snapshot's outbound edges and walking along its inbound ones are walks over opposite graphs |
| `Lineage.ExactBit` | src/format/base.rs:61-66 | A link is exact just when bit 2 of its edge's flags is set |
| `Lineage.LineageMirrors` | src/traverse.rs:160-191 | So downstream from one node finds another at a depth exactly when upstream from the other finds the first at it, and walks both ways agree |
| `Lexicon.LexMatches` | src/query.rs:125-215 | Over any indices whose ids are in range, lookup reads in bounds, ends and names tokens only; over those compaction builds, hash, prefix and trigram lookup emit what a scan of the vocabulary would, each token once at its best tier, if and only if no other token has the term's hash |
| `Lexicon.FindHash` | src/query.rs:134-148 | The binary search by hash ends on a token with it or none; over hashes in order, it finds the token if it is there |
| `Lexicon.LowerBound` | src/query.rs:152-162 | The binary search by string ends inside any order of token ids; over string order it splits the order at the term |
| `Lexicon.PrefixRun` | src/query.rs:163-171 | The run from there names tokens only; over string order exactly those that start with the term |
| `Lexicon.Lookup` | src/query.rs:180-199 | A trigram's run is read in bounds and names tokens only; over the built runs exactly the tokens that have it, empty when none does |
| `Lexicon.GramsDiffer` | src/hash.rs:43-50 | A trigram's number tells its three bytes |
| `Lexicon.Candidates` | src/query.rs:200-209 | So is the rarest trigram's; over the built runs its tokens include every token that contains the term |
| `Lexicon.SubstrRun` | src/query.rs:172-214 | What is kept of them names tokens only; over the built runs exactly the tokens that contain the term and do not start with it |
| `LexiconBuild.BuildIndex` | src/compact.rs:341-369 | The indices compaction builds are the ones the lookup needs, with one posting for each token and each of its trigrams |
| `LexiconBuild.BuildOrder` | src/compact.rs:349-351 | Token ids sorted by string are all ids, once each, in strict order |
| `LexiconBuild.BuildTrigrams` | src/compact.rs:352-368 | Posting runs, in trigram order, hold exactly the tokens with each trigram, and as many postings as there are such pairs |
| `TextOrder.PrefixRunEnds` | src/query.rs:163-167 | In byte order the strings with a prefix lie together |
| `WalBuffer.RecordBuf.PushUpsert` | src/format/wal.rs:274-307 | Stages an upsert exactly when it is legal, else changes nothing |
| `WalBuffer.RecordBuf.PushSegments` | src/format/wal.rs:309-341 | Stages the segment set exactly when it is legal, depths and missing ranges normalised (`Staging.SegmentsReadBack` says what is read of it) |
| `WalBuffer.RecordBuf.PushEdges` | src/format/wal.rs:343-362 | The same for an edge set |
| `WalBuffer.RecordBuf.PushTouch` | src/format/wal.rs:364-386 | The same for a touch |
| `WalBuffer.RecordBuf.PushRemove` | src/format/wal.rs:388-392 | Stages a removal |
| `WalBuffer.RecordBuf.PushPin` | src/format/wal.rs:394-398 | Stages a pin |
| `WalBuffer.RecordBuf.PushAttrParts` | src/format/wal.rs:400-445 | Stages an attribute set exactly when it is legal, values written in parts |
| `WalBuffer.RecordBuf.Begin` | src/format/wal.rs:253-266 | Starts an op, making room for the record header on first use |
| `WalBuffer.RecordBuf.Finish` | src/format/wal.rs:268-272 | Patching the length makes the bytes the op's encoding |
| `WalBuffer.RecordBuf.Truncate` | src/format/wal.rs:224-233 | Back to a mark is exactly the ops staged before it |
| `WalBuffer.RecordBuf.Position` | src/format/wal.rs:218-222 | The mark of the ops staged so far, to which truncating goes back |
| `WalBuffer.RecordBuf.Seal` | src/format/wal.rs:447-478 | Seals exactly when the record is legal; the buffer is then the record's bytes, else as it was |
| `WalBuffer.CheckParts` | src/format/wal.rs:411-432 | The encoder's refusals are exactly the illegal attribute sets |
| `WalRecord.OpReadsBack` | src/format/wal.rs:823-985 | Every legal op is accepted by the validator and reads back field for field |
| `WalRecord.OpIsCanonical` | src/format/wal.rs:823-985 | What the validator accepts is the encoding of a legal op, byte for byte |
| `WalRecord.EncodedSize` | src/format/wal.rs:126-136 | An op's encoded width |
| `WalRecord.RecordReadsBack` | src/format/wal.rs:518-561 | A sealed record is read back whole, whatever follows it |
| `WalRecord.RecordIsCanonical` | src/format/wal.rs:518-561 | Whatever is accepted as a record is the sealed form of a legal one |
| `WalRecord.PrefixIsTorn` | src/format/wal.rs:518-530 | A record cut anywhere short of its end is torn, by its length field alone |
| `WalOps.UpsertReadsBack` | src/format/wal.rs:858-886 | An upsert body reads back |
| `WalOps.UpsertIsCanonical` | src/format/wal.rs:858-886 | An accepted upsert body is canonical |
| `WalOps.TouchReadsBack` | src/format/wal.rs:935-953 | A touch body reads back |
| `WalOps.TouchIsCanonical` | src/format/wal.rs:935-953 | An accepted touch body is canonical |
| `WalSets.SegsReadBack` | src/format/wal.rs:888-912 | A segment set reads back |
| `WalSets.SegsAreCanonical` | src/format/wal.rs:888-912 | An accepted segment set is canonical |
| `WalSets.EdgesReadBack` | src/format/wal.rs:914-933 | An edge set reads back |
| `WalSets.EdgesAreCanonical` | src/format/wal.rs:914-933 | An accepted edge set is canonical |
| `WalSets.AttrsReadBack` | src/format/wal.rs:955-985 | An attribute set reads back |
| `WalSets.AttrsAreCanonical` | src/format/wal.rs:955-985 | An accepted attribute set is canonical |
| `WalReader.NextRecord` | src/format/wal.rs:514-561 | The reader's checks, in its order, decide whole, torn or corrupt as specified |
| `WalReader.ReadOps` | src/format/wal.rs:541-559 | The op loop accepts exactly the stated number of legal ops with nothing after them |
| `WalReader.CheckTexts` | src/format/wal.rs:895-912 | One running position validates every text of a set |
| `WalReader.CheckEdges` | src/format/wal.rs:914-933 | One pass checks that destinations strictly ascend |
| `WalReader.ScanImage` | src/format/wal.rs:674-700 | The scan loop returns the longest run of whole records with rising numbers, the ops in it and whether corruption stopped it |
| `WalLayout.TornExactly` | src/format/wal.rs:518-561 | By position: bytes are torn exactly when they are short, mis-tagged or fail the checksum at 24; what passes it is whole just when it is a legal transaction's record, and otherwise damage that is never cut |
| `WalLayout.SealedAt` | src/format/wal.rs:88-95 | Where a sealed record's length, tag, flags, first number, count and checksum stand |
| `WalLayout.HeaderAccepted` | src/format/wal.rs:70-86 | A log header is accepted for its magic, version and checksum and for nothing else, and where its generation stands |
| `WalLayout.DamagedHeaderIsRefused` | src/format/wal.rs:70-86 | A log whose header fails its checksum replays to nothing |
| `WalLayout.OpAt` | src/format/wal.rs:92-95 | Where an op's width, kind, flags and key stand |
| `WalLayout.UpsertAt` | src/format/wal.rs:274-307 | Where an upsert's fields and strings stand |
| `WalLayout.TouchAt` | src/format/wal.rs:364-386 | Where a touch's fields stand |
| `WalLayout.EdgeAt` | src/format/wal.rs:343-362 | Where an edge entry's fields stand |
| `WalLayout.SegAt` | src/format/wal.rs:309-341 | Where a segment entry's fields stand |
| `WalLayout.AttrAt` | src/format/wal.rs:400-445 | Where an attribute entry's fields stand |
| `WalLayout.AcceptedOpsAreSound` | src/format/wal.rs:827-984 | Every text of every op a reader accepts is UTF-8 and within its limit, every set within its cap and in order |
| `WalScan.ScanIsRun` | src/format/wal.rs:674-707 | What a scan accepts is a run of sealed records at the start of the image, and unless corrupt nothing whole follows |
| `WalScan.ScanFindsRun` | src/format/wal.rs:674-707 | A run of sealed records before something torn is found exactly |
| `WalScan.CutKeepsWholeRecords` | src/format/wal.rs:518-534 | A log cut at any byte keeps exactly the whole records before the cut, and shows no corruption |
| `WalScan.ScanComposes` | src/format/wal.rs:674-707 | Scanning the consumed prefix and then the tail is scanning the whole |
| `WalScan.TailAlone` | src/store.rs:944-953 | A tail scanned with no memory of the numbers before it is the whole's tail exactly when its first record carries on above them |
| `WalScan.HeaderReadsBack` | src/format/wal.rs:51-88 | A log header reads back its generation |
| `WalScan.CommittedPrefix` | src/format/wal.rs:733-752 | The committed prefix of any image replays cleanly, is its own committed prefix, and is the replay's length when the image replays |
| `WalScan.LogReplays` | src/format/wal.rs:720-731 | Header, sealed records and a torn tail replay to exactly the records |
| `WalScan.TornAppendIsInvisible` | src/format/wal.rs:518-534 | So with any number of bytes of a next record, short of all of them |
| `WalScan.TailReadsRecordsFrom` | src/store.rs:929-953 | A tail read from a record boundary finds the records the protocol gives it and ends on a boundary |
| `WalScan.TruncationIsCut` | src/store.rs:887-895 | Truncating the file at any length is the protocol's cut |
| `WalScan.RunIsRising` | src/format/wal.rs:679-684 | The scanner's regression check is the protocol's rising condition |
| `Staging.StageEdges` | src/writer.rs:255-278 | Stages the first edge to each other node, capped and sorted, always accepted |
| `Staging.SegmentsReadBack` | src/format/wal.rs:309-341 | What a caller stages as segments is what a snapshot with the op returns: heading, range and importance as given, depth as given or 1 for 0, the key the heading derives |
| `Staging.MarkedExactly` | src/writer.rs:262-270 | Exactly the similarity edges gain the inferred bit, and no other bit or field of any edge changes |
| `Staging.SetEdgesWithFlags` | src/writer.rs:250-253 | Stages the edges with the one flag a caller may set |
| `Staging.StagedFrom` | src/writer.rs:241-279 | Every staged edge is the first given to its destination, with its type and weight; "exact" is as given, "inferred" marks a similarity edge, no other flag is set |
| `Staging.StagedEdgesAreLegal` | src/writer.rs:255-278 | The normalised set is legal whatever was given, holds no edge to the node itself, and is a permutation of the first edges kept |
| `Staging.FirstsAreFirst` | src/writer.rs:262-272 | An edge is kept exactly when it is the first given to its destination |
| `Staging.SetNamedAttrs` | src/writer.rs:317-349 | Accepts exactly the sets within its limits, and what it stages the encoder never refuses |
| `Staging.NamedReadBack` | src/snapshot.rs:611-623 | Named attributes come back once each, in name order, with the last value given |
| `Staging.KeepLasts` | src/writer.rs:321-336 | The reversed pass keeps the last attribute of each name, refusing any bad one |
| `ByteCodec.PackUnpack` | src/bytesio.rs:70-92 | Reading fields and writing them back gives the same bytes, every value within its width |
| `ByteCodec.UnpackPack` | src/bytesio.rs:23-34 | Writing fields and reading them gives the same values |
| `ByteCodec.FieldOffset` | src/bytesio.rs:70-92 | A field is read at the offset the widths before it add up to |
| `Chunks.LocateInBounds` | src/overlay.rs:38-43 | Every cell below the capacity lies in one chunk, within its bounds |
| `Chunks.LocateInverts` | src/overlay.rs:38-43 | And every place in a chunk is the place of exactly one cell |
| `Arena.PackRefIsLossless` | src/overlay.rs:33-36 | Segment and offset come back apart, within 64 bits |
| `Arena.LogArena.Reserve` | src/overlay.rs:106-126 | Succeeds exactly within capacity; then every cell the segment will need is there, and nothing visible changed |
| `Arena.LogArena.MakeCells` | src/overlay.rs:119-124 | The chunk-hopping loop ends with every needed chunk made |
| `Arena.LogArena.Publish` | src/overlay.rs:128-149 | After a reservation, appends exactly the given entries, allocates nothing and moves the frontier once, earlier entries unchanged |
| `Arena.FrontierMoves` | src/overlay.rs:172-180 | Every stored reference resolves to precisely its op |
| `Arena.EntryKept` | src/overlay.rs:168-179 | An entry reads the same in every later state |
| `ArenaPublish.PublishAbove` | src/store.rs:1087-1105 | Publishes exactly the ops above what is served, refusing exactly when the arena cannot hold them |
| `ArenaPublish.CountIsExact` | src/store.rs:1091-1097 | The count made from record headers is the number of ops to publish |
| `ArenaPublish.CountNew` | src/store.rs:1091-1097 | The header walk computes it |
| `ArenaPublish.SegmentRefs` | src/overlay.rs:324-331 | The op walk gives every such op its place in the segment |
| `ArenaPublish.PublishedRise` | src/overlay.rs:131-149 | Sequence numbers in the arena strictly rise |
| `Ring.SnapshotsAreStable` | src/store.rs:678-690 | In every reachable state the current slot is populated and a held snapshot's slot keeps its base and its captured ops |
| `Ring.CheckedIsCurrent` | src/store.rs:680-690 | A reader passes its re-check exactly when the slot it guards is current at that step |
| `Ring.PinnedStays` | src/snapshot.rs:138-149 | A pinned snapshot outlives any installs and publications until it is dropped |
| `Ring.SteadyReadersNeverRetry` | src/store.rs:678-690 | With no install under way a snapshot is taken at the first try |
| `Ring.InstallRefused` | src/store.rs:1069-1084 | A whole install, interleaved with any readers and writers, gives up if and only if every slot but the current one was held when it was tried; else the slot it serves was free then and holds the new base |
| `Ring.StepKeepsInv` | src/store.rs:1064-1084 | Every atomic step of readers, installer and writer keeps the ring's invariant |
| `Ring.RunsGoOn` | src/store.rs:680-690 | A run of the ring goes on with any step enabled where it stands |
| `Container.Parse` | src/container.rs:173-232 | Parsing accepts exactly the specified containers |
| `ContainerDamage.AcceptedIsIntact` | src/container.rs:172-213 | By position in the bytes of any accepted file: magic, version, length, the header's checksum at 120 over the first 120 bytes, the directory's at 24, and for every directory row an aligned section in bounds that hashes to the eight bytes at 24 in the row |
| `ContainerDamage.ChangedByteIsRefused` | src/container.rs:172-230 | Change any byte of an accepted file, in the header, the directory, a section or the padding: it is refused unless a checksum over the byte comes out the same |
| `ContainerTrip.FinishedParses` | src/container.rs:94-126 | A finished file with distinct kinds parses, and gives back its flags, owner bytes and every section with its flags, and nothing for other kinds |
| `ContainerTrip.Finish` | src/container.rs:94-126 | The two layout loops produce the finished file |
| `ContainerTrip.AcceptedIsTight` | src/container.rs:173-232 | In any accepted file sections found are aligned, inside the file, past the header and pairwise apart |
| `ContainerTrip.OneEntryCounts` | src/container.rs:209-212 | Two directory entries of one kind never both count |
| `ContainerTrip.ZeroElsewhere` | src/container.rs:219-230 | Every byte past the directory outside the sections found is zero |
| `ContainerTrip.LookupFinds` | src/container.rs:246-276 | A lookup finds an entry of its kind exactly when one counts; empty sections of small kinds do not |
| `Spans.CheckSpans` | src/container.rs:219-230 | Sorting and sweeping accepts exactly disjoint spans with zeros everywhere else |
| `BaseFile.CheckCounts` | src/format/base.rs:233-406 | The checks made when a base is opened accept exactly the sections specified |
| `BaseFile.CheckGraph` | src/format/base.rs:251-353 | Labels, runs, edges, inbound edges, attributes and key order |
| `BaseFile.CheckLexicon` | src/format/base.rs:354-393 | Search indices, posting ranges and hash order |
| `BaseFile.CheckMonotone` | src/format/base.rs:284-299 | One pass accepts exactly the monotone indices that end at the record count |
| `BaseFile.CheckedInBounds` | src/format/base.rs:233-405 | A base that passes them is read in bounds by every accessor of the record tables, its nodes sorted for the search |
| `BaseOpen.Open` | src/format/base.rs:212-224 | Opening accepts exactly the containers whose sections pass the checks |
| `BaseOpen.OpenedReadsInBounds` | src/format/base.rs:212-224 | From the bytes of an accepted file: record tables, search indices and token records are in bounds for every accessor, every merged read and every search |
| `BaseOpen.CheckedSearchable` | src/format/base.rs:354-393 | The checks make the search indices readable whatever they say: ids name tokens, runs lie in their heap, token texts in theirs, hashes ascend |
| `BaseOpen.RunReadableExactly` | src/query.rs:249-251 | A checked token's posting run is readable if and only if its end is below 4 GiB, as it is whenever the postings are |
| `BaseOpen.RunCanWrap` | src/query.rs:249-251 | In longer postings a checked record's run can end before it starts |
| `BaseOpen.TermNodes` | src/query.rs:245-262 | Lookup and decode over checked sections, whatever they say, end and read in bounds; the matches get the nodes their postings name if and only if every match has a readable run, and the matches are those of a scan when the indices are well built and no token collides with the term |
| `BaseLayout.OpenedTextsAreUtf8` | src/format/base.rs:233-405 | Whatever file opens, every text read of it is UTF-8 |
| `BaseLayout.NodeAt` | src/format/base.rs:488-524 | Where a node record's fields stand |
| `BaseLayout.SegAt` | src/format/base.rs:559-582 | Where a segment record's fields stand |
| `BaseLayout.EdgeAt` | src/compact.rs:251-257 | Where an edge record's fields stand |
| `BaseLayout.AttrAt` | src/compact.rs:322-329 | Where an attribute record's fields stand |
| `BaseLayout.AttrReserved` | src/format/base.rs:339-353 | The bytes between an attribute's key and its offset are zero in any base that opens |
| `BaseLayout.TokenAt` | src/format/base.rs:606-622 | Where a token record's fields stand |
| `BaseLayout.TrigramAt` | src/compact.rs:362-367 | Where a trigram record's fields stand |
| `BaseLayout.OwnerAt` | src/format/base.rs:158-210 | Where the counts, generation, last folded number and creation time stand |
| `BaseFile.NodeOffsets` | src/format/base.rs:420-486 | The accessors' offsets follow from the record layout |
| `BaseWrite.TablesRoundTrip` | src/format/base.rs:488-618 | Writing a store's tables, beside any vocabulary sections, and reading the bytes gives the tables back |
| `BaseWrite.NodeBack` | src/format/base.rs:488-524 | A node record reads back |
| `BaseImage.WriteBase` | src/compact.rs:185-416 | From the documents alone and any tokenizer: index their texts, render and write; whenever the documents and the words indexing found are within the file's fields (`InFields`: counts of nodes, segments, edges, attributes, words and postings, and the sizes of the heaps, each a sum over the documents or the words) the file opens, every document, key and stamp reads back, the search indices are the ones built, and every token's postings name the nodes indexing found |
| `BaseImage.WrittenBaseReadsBack` | src/compact.rs:370-416 | The same for any tables, token records and indices that hold the documents and the vocabulary |
| `BaseImage.ImageReadsBack` | src/compact.rs:334-410 | The sections written pass every check made on opening and read back whole |
| `BaseImage.GraphAccepted` | src/format/base.rs:233-353 | What rendering produces passes the graph checks |
| `BaseImage.VocabularyAccepted` | src/format/base.rs:354-393 | And the vocabulary checks |
| `BaseImage.VocabularyBack` | src/compact.rs:334-369 | The vocabulary's sections read back as the token records and the very indices |
| `BaseImage.RenderWords` | src/compact.rs:334-342 | Token texts and postings are laid out behind one another, the heaps growing by exactly their bytes, each record holding its own whenever nodes and tokens take no more than 2^32 - 1 bytes of labels |
| `BaseImage.WordsAreVocabulary` | src/compact.rs:217-228 | What indexing any documents leaves is a vocabulary the file can hold: hashes strictly ascending, each its token's, each token with ascending ids of existing nodes |
| `BaseImage.EmptyFileOpens` | src/compact.rs:370-416 | The file of a store without nodes opens, as an empty store |
| `Indexing.Index` | src/compact.rs:217-293 | Indexing any documents with any tokenizer yields one word a hash seen, in hash order, named after the first token with the hash and listing in ascending order exactly the nodes with any |
| `Indexing.Accumulate` | src/compact.rs:217-293 | One pass over the nodes' texts in id order collects that lexicon |
| `Indexing.WordListsHash` | src/compact.rs:217-228 | A word lists exactly the nodes with a token of its hash |
| `Indexing.WordListsTexts` | src/compact.rs:270-292 | A word lists a node if and only if a token of its URL behind the first "://" (the whole URL without one), its title, its snippet or one of its headings has the word's hash |
| `Indexing.TextsAreIndexed` | src/compact.rs:216-292 | Every token of such a text has a word with its hash, and the word lists the node |
| `Indexing.WordListsTokenExactly` | src/compact.rs:217-228 | It lists exactly the nodes that hold its token if and only if no node without the token holds another token with its hash |
| `Indexing.CollisionMerges` | src/compact.rs:222-226 | Two documents of one token each, their hashes alike: the one word is the first token and lists the second document too |
| `Indexing.TokensAreWords` | src/compact.rs:217-228 | A token of the store is a word of its own if and only if it was the first with its hash; without collisions every token is, with exactly its nodes |
| `Indexing.SchemeAt` | src/compact.rs:271-273 | The first place where a URL's scheme ends, if any |
| `BaseImage.SizesSuffice` | src/compact.rs:229-331 | Counts and heaps within 32 bits, and segment runs within 16, put every field in its width |
| `BaseImage.InFieldsIsSized` | src/compact.rs:185-410 | What is laid out of documents and words within the fields has every count and heap in its width |
| `BaseImage.SectionsSmall` | src/container.rs:94-126 | Then no section reaches 2^40 bytes, so the file's length is in its 64-bit field |
| `BaseImage.FileParses` | src/format/base.rs:158-179 | Whatever the sections, the file parses as a container of them under their kinds, the header in its owner bytes |
| `Postings.VarintRoundTrip` | src/bytesio.rs:54-64 | Every 64-bit number is read back from its varint, at most ten bytes |
| `Postings.CanonicalExactly` | src/bytesio.rs:161-172 | The reader also accepts longer spellings; exactly the writer's are those that neither end in a zero digit nor overflow the tenth |
| `Postings.Reader.Varint` | src/bytesio.rs:161-172 | The loop reads one varint or refuses, within bounds |
| `Postings.AppendVarint` | src/bytesio.rs:54-64 | The loop writes one |
| `Postings.PostingsRoundTrip` | src/format/base.rs:658-691 | Any strictly ascending 32-bit ids come back |
| `Postings.DecodedAscend` | src/format/base.rs:658-678 | Whatever decodes is strictly ascending and within 32 bits |
| `Postings.EncodePostings` | src/format/base.rs:680-691 | The encoding loop |
| `Postings.DecodePostings` | src/format/base.rs:658-678 | The decoding loop |

## Left out

- Merge.Doc: leaves out `interval_s`, whose value after an upsert depends on the base record
  rather than on the effective state (src/snapshot.rs:340-345), so it is no function of the
  ops alone; `Intervals.IntervalIs` says what it is, and `Compaction.CompactPreservesReads` covers
  it with every other node field.
- ProtocolSafety.Safe: excludes the two circumstances of findings 1 and 2; their exact conditions
  are proved instead.
- StoreHandle.Store.Commit: takes as given that the state it starts from satisfies the
  protocol's invariant; what a transaction stages, and whether its caller goes through with it,
  come in as parameters, as does the lock being free. How full the arena is comes in as a parameter, one
  answer a call, though `ArenaPublish` computes it. The refresh of the compaction-due flag on a full
  catch-up is not modelled.
- Traverse.Graph: offers edges as the snapshot gives them; which of two equally near
  frontier nodes is expanded first is not stated.
- Container.Accepted: follows the reader, which does not look at an entry's reserved word,
  so an accepted file is tight but not unique.
- BaseImage.WriteBase: takes the tokenizer and the rank bytes as given. Of a file whose counts or
  heaps exceed its 32-bit fields (`BaseImage.InFields` false), which the code does not check,
  nothing is promised.
- Tables.RenderBase: promises nothing of the labels once they take more than 2^32 - 1 bytes, where
  the code's 32-bit offsets stop naming places (`Tables.PushLabel`); strings are under 64 KiB,
  which the encoders enforce.
- StoredRuns.CompactToFile: takes as given that the view's texts are UTF-8 and short, which the
  log's encoders enforce, and the tokenizer's tokens likewise.
- BaseOpen.TermNodes: a run that is not readable ends the source's query in a slice panic, here
  in no lists.
- BaseOpen.OpenedReadsInBounds: the node ids a posting run decodes to are not in the file's
  checks; the query ignores those that name no node.
- Arena.LogArena: one producer, as the writer mutex ensures; that readers below the frontier
  see finished entries is stated over the states between its steps, not over a memory model.
- Sharing one served generation between a handle and its snapshots: `StoreHandle` keeps a
  slot's overlay as a value; `Ring` and `Arena` carry the sharing.
- Batched and skipped syncs: an append that lands stays; losing synced-later bytes to a power
  cut is outside the fault model, as are logs edited or cut by others.
- Files being unreadable, and inode numbers being reused while a handle remembers them.
- The commit lock's fair waiting, time-outs and lock files: the lock is a mutual-exclusion flag.
- A commit lock held across calls, and read-only and in-memory image stores: the same
  catch-up and install code on fewer inputs.
- Sequence numbers and generations reaching 2^64 in the protocol (`WalRecord` refuses them).
- Tokenising itself (a parameter), case folding, scoring, ranking, budgets and query assembly.
- The freshness policy's arithmetic, `due` lists and hub thresholds: the policy is a parameter of
  `Touching.TouchOp`.
- `set_attrs` by numeric key: the same last-wins staging as the named form, with less to say.
- Header peeking, version refusals and error texts.
- The Python binding, crawler, benches and scripts.
