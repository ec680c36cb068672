# A Dafny model of the Replx edge proxy

Replx sits between Plex clients and a Plex Media Server. This project models the parts of it whose correctness
depends on protocols rather than on plumbing, and proves what those protocols promise. `dafny verify dfyconfig.toml`
checks everything; no file depends on anything outside this directory.

| modules | what they model |
|---|---|
| `ArtworkTables`, `ArtworkRecovery`, `ArtworkStore`, `ArtworkRuns` | the shared artwork store: a content-addressed directory and a SQL index that change at different moments, with reservations, a byte budget, eviction and crash recovery |
| `Generations`, `Coherence`, `ReadYourWrites`, `CacheGuard` | the generation-stamped response cache: invalidation counters, the interleaved protocol of readers, fills, warm refreshes, writes and invalidations, and the fail-closed flag |
| `WarmQueue`, `WarmRuns`, `WarmGuards`, `WarmLedger`, `WarmFairness`, `Scheduler` | the background warmer: its queue as a state machine, what every run of it keeps and what never happens in one, what a trace of it amounts to, how long a scope waits, and the mutex-guarded class whose refresh pass makes such runs |
| `Pagination`, `CollectionTables`, `CollectionSync`, `SyncGate` | collection snapshots: validated paging, staging, atomic publication, the durable pending-invalidation mark, and what the gate between concurrent syncs is for |
| `PolicyEngine`, `MediaSources`, `Playback` | layered media policy, the candidates from the owner index or live metadata, selection of a variant, and the session boundary later requests are checked at |
| `EntryCodec`, `Resp` | the byte format of cached responses and the Redis serialization protocol (version 2) |
| `Basics`, `MapSums` | options, results, small queries, sums over maps |

## The artwork store

Files change at once, rows only when a transaction commits. Every method of `SharedStore` therefore has many ends: it
completes, it is refused, or it is `Aborted` anywhere, which stands for an error as well as for a crash; a commit may
take effect and still be reported as an error. `Valid` says that recorded sizes are those of the hashed content, that
every variant row records the last image committed for its key (`latest`), and that every file at a blob path has a
blob row or is the candidate of a reservation and is no longer than what was hashed, except at the paths in `alien`.
`Run` composes any sequence of locked sections, restarts and damage, and damage may do anything to the directory: lose,
change, enlarge or add files, at blob paths too. A hit is the latest committed image under all of it. `alien` holds the
blob paths at which damage added or enlarged a file; apart from those files (from none, if the damage neither adds nor
enlarges blob files), the files at blob paths weigh at most what the rows are charged (`OwnBytes`).
That stays within the budget with any number of restarts and recoveries; what recovery counts of files it does not own
comes on top. `refuses` is the set of files the file system may refuse to remove, an input like the free space: a blob
that eviction tried and left, and a file that recovery left, is one of them. Reservation ids are never drawn twice, and
a handle begins at most one Commit. SHA-256 is an ideal hash, `now` is an input, and the row lock makes the locked
sections sequential. Deleting a blob row deletes its variants (migrations/0008_shared_artwork.sql).

## The response cache

`Coherence` is a state machine over a log of counter bumps, failed bumps and lowerings of the `cacheBroken` flag, each
with the origin's version at that instant. Requests and refreshes take one step at a time: read the stamp, look up,
read the flag, read the stamp again; or fetch, check, store. The proxy lowers the flag in a separate step after a
global bump, and a restart lowers it too. A bump that fails in between is then forgotten (`FailuresAreForgotten`), and
a request can be served a body older than an acknowledged write. `Remembers` says that every failed bump of the
reader's scope was made good by a later bump that covers the reader's namespace; `AcknowledgedWritesAreSeen` proves
read-your-writes for every run under it, and `ReadYourWritesExactly` that nothing less will do: every order of events
that a run can have, that leaves the flag down and breaks this condition, is the order of a run in which a hit misses
an acknowledged write. `FlagSoundExactly` is the corresponding condition for trusting the flag as such, and
`TrustRemembers` the connection. Below saturation two equal stamps have no covering bump between them
(`StampsSeparate`); at saturation they can, with every counter in its range (`SaturationHidesABump`). A restart loses
the requests in flight and the writes not yet acknowledged.

## The warmer

Every section that holds the mutex is one step of `WarmQueue`. A refresh pass returns, as a ghost, the steps it made
together with those of the foreground requests it was interleaved with, so every theorem of `WarmRuns` about runs
holds of it. `Account` reads off such a trace the steps of other requests, the stamps and the refreshes; the tally of a
pass is that of its trace. The permit check and the store are two steps, as the original does not hold the mutex in
between: a superseded refresh can still store exactly if it had passed its check (`SupersededNeverStores`). `WarmGuards`
states what the guards of those sections are for: nothing is permitted while warming is stopped or with an expired
credential, and nothing is selected out of turn or before it is due. Sequence and version numbers are unbounded.

## Collections

The statements of the worker take effect one by one; only the two publishing transactions are atomic. A row is
identified by its library and rating key, an empty string stands for a NULL column, and the content digest is
injective. The keys of a page are checked before its rows are inserted. `unflushed` is a ghost set of the libraries
whose view changed since the last successful invalidation. `CollectionSync` runs one request after the other, as the
gate makes it, and each of its sections notes the step of `SyncGate` it is; `SyncGate` interleaves the steps of any
number of requests and shows that without the gate a change can be lost.

## Policy and playback

Tri-state values and dynamic ranges are enumerations; a range outside the vocabulary behaves like SDR, and codec names
carry no surrounding blanks. The engine looks a selected media index up again among the sources, which is sound
because no index occurs twice: the schema allows one enabled server, one item of it for a rating key, one variant of an
item for a media index and one first part of a variant (migrations/0001_init.sql), and live metadata is numbered by
position. `MediaSources` models those tables with their constraints and proves it (`IndexVariants`, `LiveVariants`). A
variant without its first part makes the index unreadable for its title.

## Model

| member | source | states |
|---|---|---|
| `ArtworkTables.EvictionOrder` | internal/artwork/shared.go:615-618 | the eviction order (tier, least recent use with unused first, larger first) is total and transitive |
| `ArtworkTables.TierIsHighest` | internal/artwork/shared.go:615-617 | the tier of a blob is the highest priority among its unexpired references, or Low if it has none |
| `ArtworkTables.UsedNoLaterMeans` | internal/artwork/shared.go:618 | one blob is used no later than another exactly if its latest access through an unexpired reference is no later, a blob without such a reference coming first |
| `ArtworkTables.EvictionOrderMeans` | internal/artwork/shared.go:618 | on accesses and sizes: one blob may go before another exactly if its tier is lower, or equal and it was last used earlier or never, or at the same time and it is no smaller |
| `ArtworkTables.ProtectedMeans` | internal/artwork/shared.go:538-552 | what counts against the protected quota, on the columns: blobs with an unexpired reference of priority 3, reservations of priority 3, unexpired references of priority 3 |
| `ArtworkTables.DigestKeyMeans` | internal/artwork/shared.go:131-141 | a usable key is 64 lower-case hexadecimal digits |
| `ArtworkTables.DiskWithinCharge` | internal/artwork/shared.go:526-554 | in every safe state the bytes of blob files that are not alien are at most payload plus reserved bytes, hence at most what the rows are charged |
| `ArtworkTables.FilesCharged` | internal/artwork/shared.go:339-356 | files owned by blob rows or by distinct reservations' candidates weigh at most what those rows and reservations are charged |
| `ArtworkTables.ReserveCharges` | internal/artwork/shared.go:294-295 | a new reservation raises the charge by exactly the reserved bytes |
| `ArtworkTables.ReserveChargesProtected` | internal/artwork/shared.go:538-552 | a new protected reservation raises the protected bytes by exactly the reserved bytes |
| `ArtworkTables.InsertSafe` | internal/artwork/shared.go:294-298 | inserting a reservation keeps every file owned and every record current |
| `ArtworkTables.StageKeepsCharge` | internal/artwork/shared.go:351 | recording a candidate does not change the charge |
| `ArtworkTables.StageSafe` | internal/artwork/shared.go:339-356 | recording the candidate of a reservation that has none, or the same one, keeps safety |
| `ArtworkTables.PublishCharges` | internal/artwork/shared.go:399-413 | blob row, variant row and released reservation together never raise the charge |
| `ArtworkTables.PublishSafe` | internal/artwork/shared.go:399-413 | publication is safe for the new image as the latest one of its key |
| `ArtworkTables.PublishEffect` | internal/artwork/shared.go:399-424 | publication followed by removal of superseded blobs is safe and does not raise the charge |
| `ArtworkTables.PublishStays` | internal/artwork/shared.go:414-424 | removing the superseded blob never removes the new reference or its file |
| `ArtworkTables.PublishMeans` | internal/artwork/shared.go:399-424 | row by row: the reference shows the image, was accessed now, expires seven days from now and has the higher of its old and the requested priority; every other reference stays; of the blobs only the one referred to before can go, exactly if nothing refers to it any more; of the reservations exactly this one goes |
| `ArtworkTables.EvictSafe` | internal/artwork/shared.go:651-660 | deleting blob rows with their variants and files keeps safety and never raises the charge |
| `ArtworkTables.ReleaseSafe` | internal/artwork/shared.go:485-513 | releasing reservations with their temporaries and uncommitted candidates keeps safety and never raises the charge |
| `ArtworkTables.DeleteVariantsSafe` | internal/artwork/shared.go:724-728 | deleting variant rows keeps safety and never raises the charge |
| `ArtworkTables.SafeShrink` | internal/artwork/shared.go:655-657 | removing files, in particular before a commit that never happens, keeps safety |
| `ArtworkTables.HitIsLatest` | internal/artwork/shared.go:204-216 | the hashed content of a variant row is the image last committed for its key, whatever happened to the files |
| `ArtworkTables.NotAlien` | internal/artwork/shared.go:375-398 | a blob path that is empty or holds its own candidate is not alien |
| `ArtworkTables.MoveSafe` | internal/artwork/shared.go:390-398 | moving a candidate's body to its blob path keeps safety |
| `ArtworkTables.TouchSafe` | internal/artwork/shared.go:217-222 | recording an access keeps safety and the charge |
| `ArtworkRecovery.SweptUnexpired` | internal/artwork/shared.go:759-767 | after the first stages no reservation or variant is expired and no blob row is unreferenced |
| `ArtworkRecovery.EvictMissing` | internal/artwork/shared.go:833-868 | retiring rows leaves no blob row unreferenced and no reservation's path inactive |
| `ArtworkRecovery.RecoveredSafe` | internal/artwork/shared.go:752-877 | recovery keeps safety whatever files it fails to remove, and apart from its recount never raises the charge |
| `ArtworkRecovery.RecoveredReservations` | internal/artwork/shared.go:752-767 | recovery drops reservations and changes none |
| `ArtworkRecovery.RecoveryReconciles` | internal/artwork/shared.go:752-877 | if every removal succeeds: nothing expired or unreferenced, every namespace file active or of its recorded size, every blob row with its file unless its path is an active candidate |
| `ArtworkRecovery.ReconciledMeans` | internal/artwork/shared.go:752-877 | reconciled, on rows and files: nothing expired, every blob referenced and with its file at its recorded size unless it is a candidate, and every file outside the names of the store, of a reservation, or a recorded blob |
| `ArtworkRecovery.ReconciledStays` | internal/artwork/shared.go:752-877 | a reconciled store is a fixed point of recovery |
| `ArtworkRecovery.RecoveryIdempotent` | internal/artwork/shared.go:752-877 | a second recovery at the same instant changes neither rows nor files |
| `ArtworkStore.SharedStore.constructor` | internal/artwork/shared.go:91-129 | a new store is valid, empty and not ready |
| `ArtworkStore.SharedStore.Unlink` | internal/artwork/shared.go:655-657 | removes at most the one file; a completed removal leaves no file, a failed one leaves all and only happens to a file the file system may refuse to remove |
| `ArtworkStore.SharedStore.WriteTemp` | internal/artwork/shared.go:432-445 | creates only the reservation's temporary and never overwrites one; completed, it holds the body |
| `ArtworkStore.SharedStore.Rename` | internal/artwork/shared.go:395-397 | moves the temporary to the blob path or changes nothing |
| `ArtworkStore.SharedStore.CommitTx` | internal/artwork/shared.go:425-427 | a commit takes effect entirely or not at all, and may take effect while reporting an error |
| `ArtworkStore.SharedStore.ReleaseReservation` | internal/artwork/shared.go:485-513 | completed: exactly the temporary and an uncommitted candidate are gone and the row is deleted |
| `ArtworkStore.SharedStore.CleanExpired` | internal/artwork/shared.go:694-722 | completed: exactly the expired reservations are released, with their files |
| `ArtworkStore.SharedStore.PruneExpiredBatch` | internal/artwork/shared.go:724-732 | deletes as many expired variants as there are up to 128, and reports whether any is left |
| `ArtworkStore.SharedStore.GatherStats` | internal/artwork/shared.go:526-563 | the loops compute the charge and the protected bytes of the rows |
| `ArtworkStore.SharedStore.RemoveBlob` | internal/artwork/shared.go:651-660 | completed: file, row and variants of the blob are gone; refused: nothing changed |
| `ArtworkStore.SharedStore.RemoveBatch` | internal/artwork/shared.go:683-687 | completed: exactly the blobs of the batch are gone |
| `ArtworkStore.SharedStore.RemoveUnreferenced` | internal/artwork/shared.go:662-692 | the batched loop terminates, and completed has removed exactly the unreferenced blobs |
| `ArtworkStore.SharedStore.EvictionCandidates` | internal/artwork/shared.go:615-635 | the first blobs of at most the given tier in eviction order, 128 of them or all there are |
| `ArtworkStore.SharedStore.EvictOne` | internal/artwork/shared.go:636-647 | one candidate is evicted entirely, or skipped entirely because the file system refused to remove its file; stops exactly when there is room |
| `ArtworkStore.SharedStore.EvictNext` | internal/artwork/shared.go:636-647 | trying one more candidate: it goes or was refused, and the room test is repeated after it went |
| `ArtworkStore.SharedStore.EvictUntilRoom` | internal/artwork/shared.go:636-648 | evicts candidates in order; completes exactly when the room test holds, which it did not before the last eviction; gives up only after trying every candidate, each evicted or refused by the file system, with the room test still failing on what is left |
| `ArtworkStore.SharedStore.EvictInOrder` | internal/artwork/shared.go:615-648 | what is tried comes first in eviction order, is of no higher tier than the incoming image, and went or was refused by the file system; gives up only after the whole batch was tried |
| `ArtworkStore.SharedStore.MakeRoom` | internal/artwork/shared.go:594-649 | completed exactly if the room test holds in the end: the need fits the budget, the low watermark is met under pressure, the file system has enough left and the protected quota is met if asked for; nothing is tried if there was room, and no blob more than needed is evicted; refused only when all of the first 128 candidates, or all there are, were evicted or refused by the file system and there still is no room |
| `ArtworkStore.EvictableMeans` | internal/artwork/shared.go:615-617 | the blobs an image may displace are those without an unexpired reference of higher priority |
| `ArtworkStore.SharedStore.WalkFile` | internal/artwork/shared.go:791-829 | a file that is active, outside or of its recorded size stays; any other is removed, or counted because the file system refused to remove it |
| `ArtworkStore.SharedStore.WalkFiles` | internal/artwork/shared.go:768-832 | completed: exactly the kept and the unremovable files are left, all of the latter refused by the file system, and the untracked bytes are their sizes |
| `ArtworkStore.SharedStore.RetireMissing` | internal/artwork/shared.go:833-868 | completed: exactly the blob rows without a file are retired, with their variants |
| `ArtworkStore.SharedStore.SweepExpired` | internal/artwork/shared.go:759-767 | completed: rows and files are those of the first recovery stages |
| `ArtworkStore.SharedStore.Reconcile` | internal/artwork/shared.go:759-877 | completed: the working copy and the directory are those of the recovery stages, up to files the file system refused to remove |
| `ArtworkStore.SharedStore.Recover` | internal/artwork/shared.go:752-877 | completed: rows and files are the recovered ones and the store is ready; if the file system refused nothing it is reconciled |
| `ArtworkStore.SharedStore.ExpireSome` | internal/artwork/shared.go:259-266 | releases exactly the expired reservations and deletes up to 128 expired variants; the result is safe to commit |
| `ArtworkStore.SharedStore.Evicting` | internal/artwork/shared.go:276-288 | keeps the reservations and safety; completed, the need fits the budget and the protected quota; gives up only after the whole batch of candidates was tried, each evicted or refused by the file system |
| `ArtworkStore.SharedStore.Admit` | internal/artwork/shared.go:259-288 | completed: the reservation fits the budget, the free space, the reservation count and, if protected, the quota; refused for capacity only as OutOfCapacity says: the allowed number of unexpired reservations is open, or the whole eviction batch was tried, each blob went or could not be removed, and what is left exceeds budget, low watermark, free space or quota; any other refusal is a file that could not be removed |
| `ArtworkStore.SharedStore.Ensure` | internal/artwork/shared.go:149-159 | a ready store is left alone, any other is recovered first |
| `ArtworkStore.SharedStore.ReserveLocked` | internal/artwork/shared.go:254-301 | granted: as for Reserve; refused for capacity: as for Admit, with what was evicted committed; in every case the charge ends within the budget or no higher than before |
| `ArtworkStore.SharedStore.Reserve` | internal/artwork/shared.go:240-309 | a granted reservation is recorded for 8393728 bytes and 120 seconds, no reservation is expired, and the charge, the free space, the count and the protected bytes are within their limits; refused as a bad reservation exactly for a bad key or priority, which changes nothing; refused for capacity only as Admit says |
| `ArtworkStore.SharedStore.StageCommit` | internal/artwork/shared.go:336-356 | refused exactly if the reservation is missing or expired; done: its candidate is this body and nothing else changed; the charge never changes |
| `ArtworkStore.SharedStore.PlaceBlob` | internal/artwork/shared.go:375-398 | completed: the blob path holds the body, whatever file was there; never leaves an unowned file |
| `ArtworkStore.SharedStore.ReferenceRows` | internal/artwork/shared.go:399-424 | the rows to commit are exactly blob, reference, released reservation and removal of a superseded unreferenced blob; they are safe and charge no more than before |
| `ArtworkStore.SharedStore.PublishCommit` | internal/artwork/shared.go:357-430 | done: the key shows the image and the rows are as PublishMeans says, so the reference is live for exactly seven days from now; refused as a bad reservation exactly if the reservation is missing, expired or holds another candidate; refused for capacity exactly if it holds and the file system has less than the reserve plus the body; a refusal changes no row; otherwise the image of the key is the old or the new one; the charge never rises |
| `ArtworkStore.SharedStore.Cancel` | internal/artwork/shared.go:463-483 | done: reservation and temporary are gone; no image changes and the charge never rises |
| `ArtworkStore.SharedStore.GetContext` | internal/artwork/shared.go:184-227 | under any damage to the directory: a hit is exactly the latest committed image of the key; on a ready store it is a hit exactly if the reference has not expired and its file holds the hashed content; the access time is the only thing it changes, at most once a minute |
| `ArtworkStore.SharedStore.Sweep` | internal/artwork/shared.go:879-918 | done: the index is the swept one (expired reservations and up to 128 expired variants gone, then every unreferenced blob) less what was evicted in order, and is within the budget or the whole batch of candidates was tried; what was tried and not evicted was refused by the file system; the charge never rises and no image changes |
| `ArtworkStore.SharedStore.SweepLocked` | internal/artwork/shared.go:886-918 | the same for the locked section |
| `ArtworkStore.SharedStore.Tidy` | internal/artwork/shared.go:886-899 | expired reservations, up to 128 expired variants and then every unreferenced blob are gone, and nothing else |
| `ArtworkStore.SharedStore.Relieve` | internal/artwork/shared.go:900-907 | evicts in eviction order under pressure; afterwards the charge is within the budget or the whole batch of candidates was tried, each evicted or refused by the file system |
| `ArtworkStore.SharedStore.DropUnreferenced` | internal/artwork/shared.go:897-899 | completed: no unreferenced blob is left and the reservations are untouched |
| `ArtworkStore.SharedStore.LowCandidates` | internal/artwork/operations.go:36 | the least recently used blobs without a live reference above low priority, 128 of them or all there are |
| `ArtworkStore.SharedStore.EvictLowPriority` | internal/artwork/operations.go:18-69 | done: only blobs without a live reference above low are gone, 128 of them or all there are, none used after one that stays, and the reported bytes are the drop of the charge |
| `ArtworkRuns.Maintain` | internal/artwork/shared.go:463-918 | cancelling, reading, sweeping, evicting and recovering change no image, never raise what the rows are charged, and without a recount never raise the charge |
| `ArtworkRuns.Execute` | internal/artwork/shared.go:240-918 | every locked section, cut short anywhere, and any damage keep the store valid, change only the images published, and keep what the rows are charged within the budget or no higher; without a recount the whole charge |
| `ArtworkRuns.Run` | internal/artwork/shared.go:240-918 | in every run of sections, restarts, recoveries and arbitrary damage the store stays valid, what the rows are charged stays within the budget, and blob files weigh at most that, except files that the damage put at blob paths or enlarged there; without a recount the whole charge stays within the budget |
| `ArtworkRuns.ReservationHandle.Commit` | internal/artwork/shared.go:313-430 | with any sections of other callers between its two transactions: a closed handle is refused, what is no image of at most 8 MiB is refused as such, a success shows the image for exactly seven days from the publication, and every end but a crash closes the handle |
| `ArtworkRuns.CommitThenGet` | internal/artwork/shared.go:184-430 | on a ready store: the next completed lookup after a successful Commit returns exactly that image if it comes within seven days of the publication, and nothing after that |
| `Generations.SaturatedAdd` | internal/cache/generations.go:81-90 | the loop returns the sum, or the largest uint64 if the sum exceeds it |
| `Generations.StampsSeparate` | internal/cache/generations.go:59-90 | two stamps of a namespace are equal exactly if no covering bump lies between them, or the sum was saturated and no global bump does |
| `Generations.StampsBetween` | internal/cache/generations.go:59-90 | equal stamps at two instants are equal at every instant between them |
| `Generations.SaturationHidesABump` | internal/cache/generations.go:81-90 | at saturation, which counters within their range reach together, a covering bump leaves the stamp as it was |
| `Generations.PostgresGenerations.Get` | internal/cache/generations.go:61-79 | the stamp of the bumps committed so far, with an empty class read as browse |
| `Generations.PostgresGenerations.Increment` | internal/cache/generations.go:126-138 | adds one to exactly one counter or fails and changes nothing; counters never leave their width |
| `Generations.ClassAllowedMeans` | migrations/0011_server_class_generations.sql:4-8 | the classes the table admits: empty, or a letter followed by at most 31 letters, digits, underscores or hyphens |
| `Generations.PostgresGenerations.Bump` | internal/cache/generations.go:93-101 | bumps one scope and class; an empty scope is a successful no-op |
| `Generations.PostgresGenerations.BumpScope` | internal/cache/generations.go:105-110 | bumps one scope; an empty scope is a successful no-op |
| `Generations.PostgresGenerations.BumpAll` | internal/cache/generations.go:113-115 | bumps the global counter |
| `Generations.PostgresGenerations.BumpServerClass` | internal/cache/generations.go:119-124 | bumps one class for every scope; an empty class is an error |
| `Generations.ClassKeyInjective` | internal/cache/generations_memory.go:35-50 | scopes without a NUL never share a class counter |
| `Generations.MemoryGenerationStore.Get` | internal/cache/generations_memory.go:25-35 | the stamp made of the wrapped counters, which is that of the bumps so far as long as no counter can have wrapped |
| `Generations.WrappingHidesBumps` | internal/cache/generations_memory.go:25-35 | once a counter has wrapped around, the stamps of its namespace repeat |
| `Generations.MemoryGenerationStore.Bump` | internal/cache/generations_memory.go:37-51 | bumps the joined counter of one scope and class, wrapping at 64 bits |
| `Generations.MemoryGenerationStore.BumpScope` | internal/cache/generations_memory.go:53-64 | bumps one scope |
| `Generations.MemoryGenerationStore.BumpAll` | internal/cache/generations_memory.go:66-74 | bumps the global counter |
| `Generations.MemoryGenerationStore.BumpServerClass` | internal/cache/generations_memory.go:76-87 | bumps one class for every scope; unlike the table, an empty class is a no-op |
| `CacheGuard.Handler.BumpStateGeneration` | internal/proxy/proxy.go:525-532 | below saturation exactly the responses of the writer's scope leave the stamp they had; or none do and the flag is up; an empty scope does nothing |
| `CacheGuard.Handler.BumpEverything` | internal/proxy/proxy.go:562-565 | a global bump followed at once by lowering the flag leaves the flag trustworthy |
| `CacheGuard.Handler.InvalidateCacheContext` | internal/proxy/proxy.go:551-582 | succeeded, below saturation: exactly the responses the request names leave the stamp they had: of the scope, or of every scope if it is empty or "all", and of the class, or of every class if it is empty; failed: none does and the flag is up; the flag is always the one the log determines |
| `CacheGuard.CounterCovers` | internal/proxy/proxy.go:551-582 | the counter bumped for a scope and class covers exactly the responses they name |
| `CacheGuard.BumpRetires` | internal/cache/generations.go:59-90 | below saturation one bump changes exactly the stamps of the namespaces its counter covers |
| `CacheGuard.InvalidationRetires` | internal/proxy/proxy.go:551-582 | an invalidation changes exactly the stamps of the responses it names if it succeeds, and none if it fails |
| `CacheGuard.Handler.CurrentCacheGeneration` | internal/proxy/proxy.go:311-314 | a stamp reported current is the one the log determines |
| `CacheGuard.TrustedClear` | internal/proxy/proxy.go:562-565 | lowering the flag directly after its global bump forgets no failure |
| `Coherence.EqualStamps` | internal/cache/generations.go:59-90 | equal stamps at two log positions have no covering bump between them, or a saturated sum and no global bump |
| `Coherence.FailureMadeGood` | internal/proxy/proxy.go:525-569 | while the flag is down and nothing was forgotten, every failed bump was followed by a global one |
| `Coherence.FlagSoundExactly` | internal/proxy/proxy.go:525-569 | the flag can be trusted at every instant exactly if no lowering of it forgot a failure |
| `Coherence.TrustRemembers` | internal/proxy/proxy.go:525-569 | while the flag is down and nothing was forgotten, every failed bump of a scope was made good |
| `Coherence.RealizableNext` | internal/proxy/proxy.go:562-565 | a lowering of the flag belongs to a pending global bump or to a restart, as every step keeps it |
| `Coherence.RealizableJustified` | internal/proxy/proxy.go:562-565 | so every lowering has its own earlier global bump |
| `Coherence.ReadStepKeeps` | internal/proxy/proxy.go:331-353 | lookup, flag check and turning a lookup into a miss keep the invariant |
| `Coherence.RecheckHitKeeps` | internal/proxy/proxy.go:347-353 | the second stamp read before a hit keeps the invariant |
| `Coherence.FillStepKeeps` | internal/proxy/proxy.go:1040-1060 | fetching and the flag check before a store keep the invariant |
| `Coherence.RecheckStoreKeeps` | internal/proxy/proxy.go:1058-1067 | storing only after a second stamp read keeps every entry fetched while its stamp was current |
| `Coherence.BumpScopeKeeps` | internal/proxy/proxy.go:1003-1007 | bumping after the origin's acknowledgement, or failing to, keeps the invariant |
| `Coherence.StepKeeps` | internal/proxy/proxy.go:287-353 | every step of every reader, refresh, write, invalidation and restart keeps the invariant |
| `Coherence.HitIsFresh` | internal/proxy/proxy.go:347-353 | no covering bump lies between the fetch of a served body and the second stamp read |
| `Coherence.HitsAreFresh` | internal/proxy/proxy.go:331-353 | in every run a served body was fetched after every covering bump that completed before the second stamp read, and shows the origin as of that bump |
| `Coherence.HitShowsOwnWrites` | internal/proxy/proxy.go:331-353 | a hit whose flag check came after a write of its scope was retired shows that write, if every failed bump of the scope before the check was made good |
| `Coherence.AcknowledgedWritesAreSeen` | internal/proxy/proxy.go:1003-1007 | in every run, a request that starts after a write of its scope was acknowledged and is answered from the cache shows the write, if every failed bump of the scope before its flag check was made good by a covering one |
| `ReadYourWrites.CanFill` | internal/proxy/proxy.go:1040-1067 | a warm refresh can fill the cache under the current stamp, whatever the flag says |
| `ReadYourWrites.CanHit` | internal/proxy/proxy.go:331-353 | while the flag is down an entry under the current key can be served |
| `ReadYourWrites.SameEffect` | internal/proxy/proxy.go:525-569 | stamps, flag and pending global bumps depend on the order of events only |
| `ReadYourWrites.StampKept` | internal/cache/generations.go:59-90 | events that do not cover a namespace leave its stamp |
| `ReadYourWrites.CanReplay` | internal/proxy/proxy.go:525-582 | from any state without readers or unacknowledged writes every realizable continuation of the log can follow, with cache, writes and origin untouched |
| `ReadYourWrites.CanCache` | internal/proxy/proxy.go:1040-1067 | every realizable order of events is that of a run that ends with a body cached |
| `ReadYourWrites.CanMissABump` | internal/proxy/proxy.go:525-532 | the cached body survives a write whose bump fails and which is then acknowledged |
| `ReadYourWrites.CanGoOn` | internal/proxy/proxy.go:525-582 | body and acknowledged write are still there after any further events, restarts included |
| `ReadYourWrites.RememberedWritesAreSeen` | internal/proxy/proxy.go:331-353 | whenever the failed bumps of the scope were made good, every later hit shows the acknowledged writes of the scope |
| `ReadYourWrites.ForgottenWritesAreMissed` | internal/proxy/proxy.go:331-353 | for every realizable order of events with the flag down and a failed bump of the scope that was not made good there is a run in which a hit misses an acknowledged write |
| `ReadYourWrites.ReadYourWritesExactly` | internal/proxy/proxy.go:525-569 | for every realizable order of events with the flag down: all runs with it show the acknowledged writes of a scope if and only if every failed bump of the scope was made good by a later covering bump |
| `ReadYourWrites.RunsAreRealizable` | internal/proxy/proxy.go:287-353 | the order of events of every run, up to every instant, is realizable |
| `ReadYourWrites.FailuresAreForgotten` | internal/proxy/proxy.go:525-569 | the condition does fail: a bump that fails between a global bump and the lowering that belongs to it, or before a restart, is forgotten |
| `WarmQueue.SelectStep` | internal/warmer/scheduling.go:272-312 | leaders of the scopes, unusable jobs and the first leader make one selection step |
| `WarmRuns.NextKeeps` | internal/warmer/scheduling.go:88-312 | every step keeps tracked jobs within the configured limit, credentials within 32, and numbers below their counters |
| `WarmRuns.RunKeeps` | internal/warmer/scheduling.go:88-436 | so does every run |
| `WarmRuns.TrackedKeeps` | internal/warmer/scheduling.go:165-205 | tracking keeps both limits, whatever it has to evict |
| `WarmRuns.TrimmedShrinks` | internal/warmer/scheduling.go:104-106 | trimming after a new configuration only drops jobs and ends within the limit |
| `WarmRuns.NextNumbers` | internal/warmer/scheduling.go:195-205 | a step keeps, drops or newly numbers each job and credential; no number comes back |
| `WarmRuns.RetiredForGood` | internal/warmer/scheduling.go:377-389 | once its job or credential is gone, a selected refresh is refused at its permit check in every later state |
| `WarmRuns.RetiredNeverStores` | internal/warmer/scheduling.go:377-389 | nor does a run from then on hold a step that stores for it, unless it had passed its check before |
| `WarmRuns.SupersededNeverStores` | internal/warmer/scheduling.go:138-205 | a refresh selected before its scope was forgotten, its job tracked again or its credential renewed can store afterwards if and only if it had passed its permit check by then, and never passes the check again |
| `WarmRuns.SelectedIsIssued` | internal/warmer/scheduling.go:272-289 | a selected refresh carries numbers that were handed out |
| `WarmRuns.WarmingNeverRenews` | internal/warmer/scheduling.go:158-197 | only an authorized foreground request stores or renews a credential |
| `WarmRuns.SelectsLeastServed` | internal/warmer/scheduling.go:303-312 | a selection serves a scope served no later than any scope that could be served |
| `WarmRuns.NeverTwiceInARow` | internal/warmer/scheduling.go:227-242 | while it keeps a job, a scope is never refreshed twice without a scope in between that could be selected at every selection |
| `WarmGuards.StoppedNeverStores` | internal/warmer/scheduling.go:377-389 | from a state with a foreground request, or paused, or disabled, no run passes a permit check and none stores that had not passed before, until that very stop is lifted |
| `WarmGuards.TrackStoresCredential` | internal/warmer/scheduling.go:184-197 | an authorized request stores its credential for 120 seconds under a new version |
| `WarmGuards.CheckedBeforeExpiry` | internal/warmer/scheduling.go:386-388 | in every run a refresh with a scope's own credential passes its check only before that credential expires |
| `WarmGuards.CredentialNotExpired` | internal/warmer/scheduling.go:272-289 | a refresh is selected with an unexpired credential of its scope, and passes its check in any later run only before that one expires |
| `WarmGuards.OwnerTokenStaysHome` | internal/warmer/scheduling.go:272-289 | the owner's token is used only for jobs of the owner's scope tracked without a credential, while the scope has none of its own |
| `WarmGuards.SelectedIsDue` | internal/warmer/scheduling.go:272-289 | a selected job is not backing off, was last refreshed half its lifetime ago and has refreshes left in its scope |
| `WarmGuards.SelectsInOrder` | internal/warmer/scheduling.go:291-312 | a selection goes to a scope served least recently, between equals to the more important job, then to the one tracked first, and within the scope to its most important job refreshed longest ago |
| `WarmGuards.NotSelectedEarly` | internal/warmer/scheduling.go:272-289 | in every run that neither tracks the job anew nor ends a refresh of it, it is selected only after its back-off and half its lifetime |
| `WarmGuards.BackoffDoubles` | internal/warmer/scheduling.go:410 | the delay after k failures in a row is 15 seconds times 2 to the min(k-1, 4) |
| `WarmGuards.RefreshedWaits` | internal/warmer/scheduling.go:421-427 | after a successful refresh no run selects the job for half its lifetime, and its failures are forgotten |
| `WarmGuards.FailedBacksOff` | internal/warmer/scheduling.go:408-414 | after a failed refresh the job counts one more failure and no run selects it before the delay for that many has passed |
| `WarmGuards.RejectedLeaves` | internal/warmer/scheduling.go:399-407 | a rejected credential goes together with exactly the jobs of its scope |
| `WarmGuards.TrackFits` | internal/warmer/scheduling.go:165-205 | what tracking adds to the queue has a key, a scope and a lifetime and is within the length limits |
| `WarmGuards.RunFits` | internal/warmer/scheduling.go:88-436 | in every run every tracked job is within the length limits, has a positive lifetime and a priority of the four |
| `WarmFairness.StampedOnce` | internal/warmer/scheduling.go:298-312 | while a scope waits, no other scope is stamped twice |
| `WarmFairness.WaitIsBounded` | internal/warmer/scheduling.go:227-312 | a scope that could be selected at every selection waits for at most one stamp of each other scope that has jobs, and so for fewer stamps than the configured number of jobs |
| `WarmLedger.AccountThen` | internal/warmer/scheduling.go:314-436 | the ledger of two traces is that of the one followed by the other |
| `WarmLedger.BookedCounts` | internal/warmer/scheduling.go:392-394 | a tally is the number of refreshes, the number by scope and the sum of their bytes |
| `WarmLedger.PassTally` | internal/warmer/scheduling.go:314-436 | the tally of a whole pass is that of its trace |
| `WarmLedger.AccountsThen` | internal/warmer/scheduling.go:314-436 | booking and the order of other requests carry over from part to part of a pass |
| `Scheduler.Warmer.ExpireContexts` | internal/warmer/scheduling.go:227-242 | drops exactly the expired credentials and the stamps of scopes without jobs |
| `Scheduler.Warmer.OldestContext` | internal/warmer/scheduling.go:186-192 | finds a credential that expires first |
| `Scheduler.Warmer.Renew` | internal/warmer/scheduling.go:184-197 | stores the credential under a new version, dropping the one that expires first if there are 32 |
| `Scheduler.Warmer.FindVictim` | internal/warmer/scheduling.go:244-251 | finds a job of lowest priority and, among those, least recently observed |
| `Scheduler.Warmer.Enqueue` | internal/warmer/scheduling.go:198-205 | adds the job under a new sequence number; a full queue drops a victim, or refuses the newcomer if the victim is more important |
| `Scheduler.Warmer.Track` | internal/warmer/scheduling.go:165-205 | one tracking step of the machine, with the limits kept |
| `Scheduler.Warmer.ForgetScope` | internal/warmer/scheduling.go:138-157 | drops exactly the scope's jobs, credential and stamp |
| `Scheduler.Warmer.Trim` | internal/warmer/scheduling.go:104-106 | drops victims one after the other until the jobs fit |
| `Scheduler.Warmer.Configure` | internal/warmer/scheduling.go:88-108 | accepts exactly the limits in range; disabling drops every credential |
| `Scheduler.Warmer.Survey` | internal/warmer/scheduling.go:272-294 | finds for every scope with a usable due job a leading one, and the jobs that can never be used |
| `Scheduler.Warmer.First` | internal/warmer/scheduling.go:298-312 | finds the first scope by stamp, priority and sequence |
| `Scheduler.Warmer.NextCandidate` | internal/warmer/scheduling.go:272-312 | one selection step of the machine |
| `Scheduler.Warmer.Permitted` | internal/warmer/scheduling.go:377-389 | decides the permit of the machine from the fields; what that permit means over runs is StoppedNeverStores, CredentialNotExpired and RetiredForGood |
| `Scheduler.Warmer.CheckPermit` | internal/warmer/scheduling.go:377-389 | decides the permit and makes exactly that step; it passes only with no foreground request, not paused and enabled, and without the owner's token only with the unexpired credential it was selected with |
| `Scheduler.Warmer.FetchAndCheck` | internal/warmer/warmer.go:242-292 | a permitted refresh was fetched, is within the size limit and passed its check |
| `Scheduler.Warmer.StoreSection` | internal/warmer/warmer.go:293-300 | stores at most what was permitted |
| `Scheduler.Warmer.RefreshChecked` | internal/warmer/warmer.go:242-301 | a stored body is within the size limit and was stored after its permit check passed, with whatever other requests do before the check and between the two; nothing else is stored; at most one byte more than the limit is read |
| `Scheduler.Warmer.FinishJob` | internal/warmer/scheduling.go:397-434 | books the result on the same job only, backs off on failure, and drops a rejected credential with its scope's jobs |
| `Scheduler.Warmer.SelectSection` | internal/warmer/scheduling.go:345-355 | a selected job has refreshes left in its scope and is still tracked |
| `Scheduler.Warmer.PickJob` | internal/warmer/scheduling.go:345-365 | an iteration that neither selects nor ends has dropped a stale job; its trace holds no stamp and no refresh |
| `Scheduler.Warmer.StampSection` | internal/warmer/scheduling.go:366-376 | stamps the selected scope with a new number and makes exactly that step, or, if warming was stopped, does nothing |
| `Scheduler.Warmer.Interleave` | internal/warmer/scheduling.go:314-436 | the trace is exactly what the other requests do at this point |
| `Scheduler.Warmer.StampAndRefresh` | internal/warmer/scheduling.go:366-396 | one stamp and then one refresh, booked with the bytes it read, or neither |
| `Scheduler.Warmer.RunJob` | internal/warmer/scheduling.go:366-396 | a refresh keeps requests, requests per scope and bytes within the limits; the tally grows by exactly the refresh in the trace, which was stamped |
| `Scheduler.Warmer.RefreshPass` | internal/warmer/scheduling.go:314-436 | a pass ends and is a run of the machine together with a prefix of what the other requests do; its refreshes, each stamped, number at most 64, 16 per scope and 256 MiB, and at most the configured limits if nobody changes them, because the tally counts exactly the refreshes of the trace, by scope and with their bytes; it does nothing while another pass, a foreground request, a pause or disabling is in effect |
| `Pagination.CheckIsExact` | internal/sync/collections.go:128-153 | the page check accepts exactly the pages that fit and continue or end the list, and tells which |
| `Pagination.TotalIsExact` | internal/sync/collections.go:128-153 | a total advertised by any page is the number of items of the complete list |
| `Pagination.ShortPageEnds` | internal/sync/collections.go:126-153 | without a total a complete list is full pages followed by one short page |
| `Pagination.PagesMakeProgress` | internal/sync/collections.go:128-153 | every unfinished page adds items and stays below an advertised total |
| `Pagination.CheckKeys` | internal/sync/collections.go:89-93 | accepts a page exactly if no key is missing or repeated so far |
| `Pagination.ReadPage` | internal/sync/collections.go:74-102 | rejects a response exactly if it cannot carry on or end the list |
| `Pagination.RejectedListsNothing` | internal/sync/collections.go:70-102 | after a rejection or at the page bound, no prefix of the responses is a complete list |
| `Pagination.DoneLists` | internal/sync/collections.go:98-102 | a page that ends the list completes it |
| `CollectionTables.PutSnapshotKeeps` | internal/sync/collections.go:189-241 | staging under an unused generation leaves every view as it was |
| `CollectionTables.StageKeeps` | internal/sync/collections.go:171-241 | whatever staging a collection leaves behind changes no view and uses up no other generation |
| `CollectionTables.PublishKeeps` | internal/sync/collections.go:243-269 | publication keeps snapshots, rows and published generations consistent |
| `CollectionTables.PublishShowsScan` | internal/sync/collections.go:243-269 | afterwards the library shows exactly the scan, with metadata, members in order and deletions, and other libraries are unchanged |
| `CollectionTables.PublishSweeps` | internal/sync/collections.go:253-263 | publication leaves the rows and snapshots of other libraries alone and keeps, of its own, the rows of this catalog and exactly their published snapshots |
| `CollectionTables.UnchangedShowsSame` | internal/sync/collections.go:249-254 | if nothing is reported changed, the library shows the same before and after |
| `CollectionTables.PublishMarks` | internal/sync/collections.go:249-263 | a library whose view changes is marked pending, and no mark is lost |
| `CollectionTables.PublishOneShows` | internal/sync/collections.go:328-354 | the one collection shows what was staged for it and every other one what it showed before |
| `CollectionTables.UnchangedOne` | internal/sync/collections.go:335-348 | if the one collection shows something else, the library is marked pending |
| `CollectionTables.MarksOne` | internal/sync/collections.go:328-350 | publishing one collection marks its library at most |
| `CollectionTables.PrunedKeeps` | internal/sync/collections.go:106-109 | pruning old snapshots changes no view |
| `CollectionSync.PageSize` | internal/sync/collections.go:112-120 | the configured size if it is between 1 and 1000, 100 if it is not positive, 1000 if it is larger |
| `CollectionSync.Worker.InsertMembers` | internal/sync/collections.go:222-233 | members are stored at consecutive positions after those already there, as far as statements succeed |
| `CollectionSync.Worker.StageMembers` | internal/sync/collections.go:192-240 | success: the responses list exactly the members staged, and the digest is of them; refusal: the responses list nothing |
| `CollectionSync.Worker.StageCollection` | internal/sync/collections.go:171-241 | success stages the collection complete; refusal means bad metadata or no complete list; nothing else is touched |
| `CollectionSync.Worker.ScanCatalog` | internal/sync/collections.go:63-102 | success: the catalog is a complete list and every entry in it is staged complete; no view changes |
| `CollectionSync.Worker.IsChanged` | internal/sync/collections.go:251-254 | decides whether a collection is missing or differs |
| `CollectionSync.Worker.FlushCollectionInvalidation` | internal/sync/collections.go:358-371 | the mark is cleared only after an invalidation succeeded; reading, invalidating and clearing are the steps of SyncGate |
| `CollectionTables.UnmarkKeeps` | internal/sync/collections.go:369 | clearing the mark of a library touches no other mark and no view |
| `CollectionSync.Worker.CommitLibrary` | internal/sync/collections.go:243-269 | committed: the library shows the scan and a changed view is marked pending; otherwise nothing changed |
| `CollectionSync.Worker.SyncLibraryCollections` | internal/sync/collections.go:54-110 | until the commit every view is unchanged; after it the library shows exactly the complete scan; success also means nothing is left to invalidate |
| `CollectionSync.Worker.CommitOne` | internal/sync/collections.go:328-355 | committed: only the one collection's view changes, to what was staged, and a change is marked pending |
| `CollectionSync.Worker.RefreshOne` | internal/sync/collections.go:318-326 | the collection keeps its display data and shows a complete member list, or every view is unchanged |
| `CollectionSync.Worker.StageOne` | internal/sync/collections.go:310-324 | no view changes; success stages a complete member list under the display data the collection has |
| `CollectionSync.Worker.SyncCollectionOnce` | internal/sync/collections.go:286-326 | refreshes at most one published collection with that rating key and no sibling |
| `CollectionSync.Worker.SyncCollectionsOnce` | internal/sync/sync.go:228-269 | refused without effect while another sync is in flight; otherwise every library shows the complete scan published for it last, or what it showed before, and success means the former for every section |
| `CollectionSync.Worker.Run` | internal/sync/collections.go:249-281 | in every run with failures and crashes, a library not marked pending has had every change of its view followed by a successful invalidation; every such run is a run of SyncGate behind the gate |
| `SyncGate.LostExactly` | internal/sync/collections.go:358-371 | a change is lost exactly by clearing the mark of a library that changed after the invalidation |
| `SyncGate.GateKeeps` | internal/sync/collections.go:289-297 | behind the gate nothing changes between an invalidation and the clearing of the mark |
| `SyncGate.GatedRunsLoseNothing` | internal/sync/collections.go:286-371 | in every interleaving behind the gate, with failures and crashes anywhere, a change that was not invalidated is marked |
| `SyncGate.UngatedRunsLose` | internal/sync/collections.go:358-371 | without the gate there is an interleaving of two successful syncs that loses a change |
| `PolicyEngine.MergedField` | internal/policy/policy.go:104-164 | a configured field takes the specific value and stamp, any other keeps the base's |
| `PolicyEngine.EffectiveField` | internal/policy/policy.go:177-180 | every field has the value of the most specific level that configures it and is stamped with that level |
| `PolicyEngine.EmptyLevel` | internal/policy/policy.go:104-164 | a level that configures nothing changes nothing |
| `PolicyEngine.LoadEffective` | internal/policy/load.go:22-49 | the loop computes the layered policy with absent levels empty, and fails exactly if an applicable level fails |
| `PolicyEngine.CheckIsExact` | internal/policy/policy.go:270-298 | there is no reason against a variant exactly if every field permits it |
| `PolicyEngine.CheckNamesViolation` | internal/policy/policy.go:270-298 | the reason against an available variant names a field that forbids it, and is the reason that belongs to that field |
| `PolicyEngine.PermittedMeans` | internal/policy/policy.go:270-298 | permitted, on the numbers: available, within the limits that are set, and no 4K, Dolby Vision, HDR or unknown range where that is denied |
| `PolicyEngine.PermittedExactly` | internal/policy/policy.go:270-298 | a variant is permitted exactly if it is available and no field forbids it |
| `PolicyEngine.BlamesTheRightLevel` | internal/policy/policy.go:255-298 | a rejection by a field names the level that set it, whose value is the one violated, and never the defaults |
| `PolicyEngine.EligibilityIsAntitone` | internal/policy/policy.go:270-298 | what a stricter policy permits, the laxer one permits |
| `PolicyEngine.LessKey` | internal/policy/policy.go:445-452 | decides the lexicographic order of keys |
| `PolicyEngine.LessTotal` | internal/policy/policy.go:445-452 | distinct keys are ordered |
| `PolicyEngine.LessTransitive` | internal/policy/policy.go:445-452 | the order is transitive and asymmetric |
| `PolicyEngine.KeyComponent` | internal/policy/policy.go:378-428 | each component of the key is smaller exactly for the variant that is better in that respect, on its own fields: playability, pixels, dynamic range, codec class, channels above the limit, whole Mbit/s, media index |
| `PolicyEngine.KeyPrefers` | internal/policy/policy.go:378-452 | the key orders two variants exactly by the first of those respects in which they differ |
| `PolicyEngine.RankingIgnoresCaps` | internal/policy/policy.go:378-428 | with the same audio limit two policies rank every two variants alike |
| `PolicyEngine.BestIsUnique` | internal/policy/policy.go:302-308 | with distinct media indexes there is one best variant |
| `PolicyEngine.OrderIsIrrelevant` | internal/policy/policy.go:302-308 | with distinct media indexes reordering the variants does not change the selection |
| `PolicyEngine.StricterKeepsSelection` | internal/policy/policy.go:378-428 | a stricter policy with the same audio limit keeps the selection while it is eligible |
| `PolicyEngine.Partition` | internal/policy/policy.go:261-298 | every variant is eligible or rejected, as often as it occurs |
| `PolicyEngine.Filter` | internal/policy/policy.go:261-298 | the loop finds the eligible variants and one attributed rejection for each other one, in order |
| `PolicyEngine.Best` | internal/policy/policy.go:302-308 | no variant is preferred to the running best |
| `PolicyEngine.Evaluate` | internal/policy/policy.go:251-320 | no variant exactly if none is permitted; otherwise a permitted one to which no permitted one is preferred (direct play before the rest before transcode, then more pixels, the richer range, the more widely playable codec, fewer channels above the limit, fewer whole Mbit/s, the lower index), refused exactly as a forbidden transcode, with the output capped exactly above the streaming limit |
| `MediaSources.OneVariantPerIndex` | migrations/0001_init.sql:32-218 | a title on the enabled server has one variant for each media index |
| `MediaSources.FirstPart` | internal/playback/flow.go:67 | the part numbered 0 of a variant, or none if it has no such part |
| `MediaSources.ListedRows` | internal/playback/flow.go:61-69 | the variants of the title on the enabled server, by strictly ascending media index |
| `MediaSources.IndexVariants` | internal/playback/flow.go:55-102 | one source for each variant of the title, by ascending media index, no index twice, available exactly if its first part has a key; no source at all if some variant has no first part |
| `MediaSources.FromIndexMeans` | internal/playback/flow.go:55-102 | what a source stands for, on the columns: a variant of the title on an enabled server with its part number 0, available exactly if that part has a key |
| `MediaSources.PickPart` | internal/playback/decision.go:170-186 | the key and id of the first part with a key |
| `MediaSources.LiveVariants` | internal/playback/decision.go:152-204 | one source for each medium, numbered by position, with its first part that has a key |
| `MediaSources.Variants` | internal/playback/flow.go:24-52 | the index exactly if it lists the title and every listed variant has its first part, else the live metadata; either way no media index occurs twice |
| `MediaSources.LookupPart` | internal/playback/boundary.go:180-204 | finds exactly the parts of the enabled server, with the source and title they belong to |
| `MediaSources.PartsAreDescribedAlike` | migrations/0001_init.sql:162-218 | all parts of a title under one media index belong to one variant |
| `MediaSources.PartMatchesSource` | internal/playback/boundary.go:275-298 | a part of the selected variant is described like the source negotiated from the same index |
| `MediaSources.EligibleMeans` | internal/policy/policy.go:270-298 | a source is eligible exactly if it is available and its description meets the limits of the policy |
| `Playback.IndexOf` | internal/playback/engine.go:245-252 | the first source with the index, or none |
| `Playback.FirstIsSelected` | internal/playback/engine.go:163-168 | the source looked up by the selected index is the selected one |
| `Playback.RejectedAreListed` | internal/playback/engine.go:194-202 | every rejected source's index is among the rejections |
| `Playback.RejectedIffListed` | internal/playback/engine.go:194-202 | an index is among the rejections exactly if some source with it is not eligible |
| `Playback.Settle` | internal/playback/engine.go:163-209 | refuses exactly a move to a rejected index; otherwise settles on an eligible source: the one moved to if the server moved to another known index, else the best one |
| `Playback.Engine.Create` | internal/playback/store.go:47-55 | stores the session under its identifier, for an eligible source |
| `Playback.Engine.Conclude` | internal/playback/engine.go:194-230 | refused exactly for a move to an index with a rejected source, or for an answer with neither direct play nor direct stream where transcoding is denied, unless the session cannot be stored; a session is created only in the mode of the answer's flags and for the settled, eligible source |
| `Playback.Engine.Negotiate` | internal/playback/engine.go:149-230 | every refusal has its exact cause: no eligible source, no readable answer, no usable outcome, a rejected index, neither flag where transcoding is denied |
| `Playback.Engine.HandleDecision` | internal/playback/engine.go:119-244 | refusals leave the sessions alone and each has its exact cause; an accepted session records the policy in force, the mode of the answer's flags (direct play if that is set, else direct stream if that is, else transcode) and an eligible source: the best one, or the one the server moved to |
| `Playback.Engine.EndSession` | internal/playback/store.go:64-69 | removes exactly that session |
| `Playback.BindingIsProved` | internal/playback/boundary.go:88-127 | a bound session is used only by a requester that proves every identity it names |
| `Playback.SameVariantIsEligible` | internal/playback/boundary.go:275-298 | for a session negotiated from the index, every available part that passes as one of the selected variant is eligible under the session's policy |
| `Playback.LiveSessionParts` | internal/playback/boundary.go:299-307 | for a session negotiated live, the available parts that pass by title and index are all eligible or none is, and they are if the index describes them as the live metadata did |
| `Playback.Engine.EnforceStateless` | internal/playback/boundary.go:138-176 | without a session a part passes exactly if the requester's own policy permits it |
| `Playback.Engine.EnforcePart` | internal/playback/boundary.go:40-76 | with a session exactly the selected part or variant passes, to a proven requester only, and any other part is replaced by the selected one; without one the requester's own policy decides; without a part the manifest rule does |
| `Playback.Engine.EnforceManifest` | internal/playback/boundary.go:220-273 | a manifest passes exactly on the negotiated title and index, to a proven requester, and never for a forbidden transcode |
| `Playback.Engine.Run` | internal/playback/engine.go:119-244 | in every run of negotiations and endings every session stands for a source within the limits of its recorded policy and with a part key, has the mode of the flags of its answer, and under a policy that denies transcoding came from an answer with one of the two flags |
| `EntryCodec.WordRoundTrip` | internal/cache/cache.go:308-314 | a written word reads back modulo 2^32 |
| `EntryCodec.HeadersDecode` | internal/cache/cache.go:371-377 | NUL-free headers written in any order read back restricted to the allowlist |
| `EntryCodec.LayoutDecodes` | internal/cache/cache.go:353-380 | every laid out entry decodes to its fields |
| `EntryCodec.LegacyDecodes` | internal/cache/cache.go:338-351 | a version 1 entry decodes to its fields without headers |
| `EntryCodec.DecodedWasLaidOut` | internal/cache/cache.go:323-380 | nothing but laid out entries of the two versions decodes |
| `EntryCodec.RoundTrip` | internal/cache/cache.go:286-380 | decoding an encoded entry with NUL-free headers gives the entry with allowlisted headers and its status modulo 2^32 |
| `EntryCodec.RoundTripExactly` | internal/cache/cache.go:286-380 | an entry with allowlisted headers and 32-bit status and lengths comes back unchanged exactly if no header value contains a NUL |
| `EntryCodec.MarshalHeaders` | internal/cache/cache.go:293-305 | the loop writes every key and value followed by a NUL |
| `EntryCodec.Marshal` | internal/cache/cache.go:289-319 | an oversized body is an error, any other entry is laid out |
| `EntryCodec.CollectHeaders` | internal/cache/cache.go:371-377 | the loop keeps the pairs with an allowlisted key, a later one winning |
| `EntryCodec.Unmarshal` | internal/cache/cache.go:323-380 | decodes every byte string or says why not |
| `Resp.ParseDecimal` | internal/valkey/client.go:195 | every 64-bit number, written in decimal, reads back and holds no line feed |
| `Resp.Parse` | internal/valkey/client.go:172-231 | a reply takes at least three bytes of the stream, so reading ends |
| `Resp.ReplyRoundTrip` | internal/valkey/client.go:174-231 | every reply (status, error, integer, bulk string of any bytes, nil, arrays nested to any depth), whatever follows it, reads back as itself and leaves exactly what follows |
| `Resp.LineParses` | internal/valkey/client.go:175-183 | a line ends at its line feed, and its kind and body are what was written |
| `Resp.NegativeLengthIsNil` | internal/valkey/client.go:199-218 | a bulk string or array of any negative length is nil |
| `Resp.MalformedLine` | internal/valkey/client.go:188-230 | a line of an unknown kind, or with a body that is no number where one is due, is refused |
| `Resp.CommandRoundTrip` | internal/valkey/client.go:80-84 | a command with any arguments reads back as exactly those, whatever follows it, and leaves exactly that |
| `Resp.CommandsAreUnambiguous` | internal/valkey/client.go:80-84 | different commands have different bytes |
| `Resp.EncodeCommand` | internal/valkey/client.go:80-84 | the loop writes the command |
| `Resp.Reader.ReadLine` | internal/valkey/client.go:175-178 | consumes exactly the first line, or there is none |
| `Resp.Reader.ReadFull` | internal/valkey/client.go:202-209 | however the reads are split, takes exactly n bytes or the stream is too short |
| `Resp.Reader.ReadReply` | internal/valkey/client.go:174-231 | reads exactly the reply the stream begins with and consumes exactly that, or the stream is malformed or too short |
| `Resp.Reader.ReadMany` | internal/valkey/client.go:219-227 | reads exactly n replies one after the other |

## Left out

- HTTP handlers, header copying, streaming, redirects, logging, metrics and the admin interface: plumbing without a deep invariant.
- Plex, identity and onboarding clients, and all cryptography: hashes are ideal, identities and tokens are inputs.
- Resource grants and route classification: grants only restrict who may look up, so they are left open.
- Stampede control (`waitForFlight`, `tryBeginFlight`, `endFlight`): it bounds load and does not affect what a hit may show.
- Identity of more than one proxy process: the flag is the one of a single process, and a restart lowers it.
- The flat artwork store and the in-process `Generations` type that the proxy no longer uses.
- The maintenance wake-up channel of the artwork store, and the filesystem's directory operations.
- A state invariant for protected artwork bytes: a replaced key keeps the greater priority, so the quota is only a postcondition of a protected reservation.
- Metrics counters of the warmer, the cancellation of its request in flight (the fetch just fails), secret stripping of queries and the priority given by a route.
- The order among jobs of one scope that tie on priority and last refresh: any of them may lead.
- JSON decoding, including the forms of the smart flag: a response that does not decode is a failed one.
- Parsing of playback queries and media metadata: requests, index rows, live media and answers arrive decoded.
- The session table in SQL: the store is the in-memory one.
- ArtworkStore.SharedStore.LowCandidates: leaves open which of several blobs used at the same moment come first; the original takes them by digest.
- ArtworkStore.SharedStore.MakeRoom: what the file system has left at each test, and which files it may refuse to remove, are inputs.
- ArtworkStore.SharedStore.RetireMissing: looks at the rows in batches of arbitrary order instead of by digest, which the result does not depend on.
- WarmRuns.RetiredForGood: numbers are unbounded, so the 64-bit width of the sequence and version counters is not modelled.
- Scheduler.Warmer.RefreshChecked: whether the cache key is still current is an input here; Coherence models that second read.
- Playback.SameVariantIsEligible: the index is the one of the negotiation; a later sync may describe the variant anew.
- MediaSources.LiveVariants: the dynamic range arrives normalized.
- EntryCodec.Marshal: takes the header keys in the order they are written instead of sorting them; decoding holds for every order.
- Resp.Parse: an advertised bulk or array length too large to allocate makes the original panic (internal/valkey/client.go:202, 219); here it reads as a stream that is too short.
- Resp.Reader.ReadFull: likewise.
- Pixel counts and byte sums are unbounded integers.
