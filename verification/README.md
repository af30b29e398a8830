# Verified models of the AegisGate gateway

AegisGate is an AI gateway written in C++. This project models five of its parts in Dafny
and proves what they promise, for all inputs and over every run:

- **The semantic cache** (`SemanticCache`, `LockedCache`, `CacheRun`, `CacheTheorems`,
  `CacheProgress`, `CacheUse`, `CacheHits`, `CacheSearch`, `CacheKeys`, `TenantIsolation`, over
  `PartitionedIndex`, `PartitionedStore`, `VectorIndex`, `VectorIndexFile`). `put`, `get`, `clear` and
  `evictExpired` are operations in flight; each critical section of the cache and each call
  into the vector index is one step, and any number of operations interleave. The locked
  sections are methods of a class, proved equal to functions of the cache value; the step
  machine uses those functions. `AssembledCache` runs the same machine over the partitions
  with their fixed capacity, so that the index itself decides which vectors it accepts;
  `CacheCapacity`, `CacheSize` and `HiddenEntry` are about that machine.
- **Cache snapshots** (`SnapshotPayload`, `Snapshot`, `SnapshotRestore`,
  `SnapshotRoundTrip`): the binary file, its JSON payloads, and restoring.
- **State shared by the cluster through Redis** (`TokenBucket`, `CircuitBreaker`): the
  atomic scripts, and the half-open admission that is made of separate commands, each of
  them one step of the node that issues it.
- **The configuration control plane** (`ControlPlane`, `ControlPlaneService`,
  `ControlPlaneAudit`): dual approval, rollback, the bootstrap bypass and the audit trail.
- **Codecs and scanners** (`BitStream`, `Codecs`, `Ulid`, `ToolCallScan`).

`Wrappers`, `Sequences`, `Maps`, `Text`, `Bytes` and `Records` (files made of one record after
another) are shared by these.

`dafny verify dfyconfig.toml` checks the whole project.

## How to read the model

A method follows the code it models statement by statement and is proved against a function
(`ensures Value() == F(old(Value()))`); what the code promises is proved about that function
or about the step machine built from such functions. Clocks, random draws, the embedder, the
similarity score, the hash of a model name, SHA-256, the HNSW graph and the checks on a
configuration text are parameters. SHA-256 is never assumed to be free of collisions: a claim
that depends on it names the two texts that would have to collide. Integers are unbounded
except where the code relies on their width, which is then written out: the 32-bit
accumulators of the codecs, the 64-bit register and the 48-bit time of ULIDs, and the 32- and
64-bit fields of the binary files.

Where the code and what its documentation promises differ, the model follows the code and the
difference is a theorem with the exact condition:

- An empty partition key is looked up elsewhere than it was inserted once all partitions are
  taken (`PartitionedIndex.LookupAfterInsert`, `EmptyKeyIsLost`).
- The partition key separates tenants only while the conversation id holds no field separator;
  the resolver's ids never do (`CacheKeys.ResolvedIdHasNoSeparator`,
  `SeparatorInConversationMixesTenants`).
- A conversation id that the client sends is taken as it is, so a client can name the id of
  another conversation of its tenant; ids that the resolver derives differ unless the messages
  agree or shortened digests collide (`CacheKeys.ResolvedIdTells`).
- The text that is hashed for a conversation is unique only for the empty conversation and for
  single messages without a separator (`CacheKeys.BodyIsUniqueIff`).
- The vector index takes no new id once it has held as many ids as it has slots, although a
  deleted slot could be reused (`VectorIndex.RefusesIffItWasFull`, `EmptyButFull`). In the assembled
  cache each put into such a partition is dropped for ever, and costs an entry when the cache
  is full (`CacheCapacity.FullPartitionDropsPuts`, `PutIntoFullCostsAnEntry`).
- A request is served only from the nearest vector of its physical partition. In the overflow
  partition a nearer vector of another key hides an entry that suits the request
  (`CacheSearch.ServedIffNearestSuits`, `HiddenEntry.NearerStrangerHides`).
- The cache can exceed `max_entries` by one less than the number of concurrent puts, if the
  partitions together have the slots (`CacheSize.SizeBoundIsReachedIff`).
- A snapshot loses the backslash of control bytes that have no short escape, and entries of
  another dimension than the first (`SnapshotRoundTrip.RoundTripIff`); a tenant allowlist drops
  every partition that is named by a digest (`DigestPartitionsAreSkipped`).
- The 600-second expiry of a rate-limit key is harmless exactly when the bucket refills within
  that time (`TokenBucket.ExpiryIsInvisibleIff`, `SlowBucketOverspends`).
- A recorded success resets the breaker exactly when no call that has already read its state
  is in flight (`CircuitBreaker.SuccessResetsIffNoneInFlight`). Failed probes never give their
  slot back (`ExhaustedBudgetStaysExhausted`), and the comparison of the failure count with the
  threshold at reading time is never needed (`StateFieldIsAuthoritative`).
- The audit trail misses the activation of a bootstrapped version until a later entry names it
  (`ControlPlaneAudit.AuditMissesOnlyTheBootstrap`).

## Model

| member | source | states |
|---|---|---|
| `PartitionedIndex.InsertKeepsLimit` | src/cache/partitioned_vector_index.cpp:20-37 | an insert under any key leaves at most the configured number of partitions plus the overflow partition |
| `PartitionedIndex.LookupAfterInsert` | src/cache/partitioned_vector_index.cpp:12-50 | a lookup right after an insert addresses the partition the insert used, if and only if it is not a new empty key with no partition left |
| `PartitionedIndex.ResolutionIsStable` | src/cache/partitioned_vector_index.cpp:12-37 | a key that resolves to an existing partition keeps doing so whatever is inserted |
| `PartitionedIndex.RoutingOverRuns` | src/cache/partitioned_vector_index.cpp:12-70 | over any run of inserts the partition bound holds, and a non-empty key resolves for ever to the partition its insert used |
| `PartitionedIndex.EmptyKeyIsLost` | src/cache/partitioned_vector_index.cpp:12-37 | a concrete index in which the empty key is inserted into the overflow partition and looked up in none |
| `PartitionedStore.PartitionedVectorIndex.GetOrCreate` | src/cache/partitioned_vector_index.cpp:20-37 | finds or creates exactly the partition the routing prescribes and changes no stored vector |
| `PartitionedStore.PartitionedVectorIndex.InsertVector` | src/cache/partitioned_vector_index.cpp:52-62 | over real partitions with id and label maps, does to the visible vectors what the partition map of the cache model says, and accepts exactly vectors of the right dimension whose id is there already or for which a slot is left |
| `PartitionedStore.PartitionedVectorIndex.RemoveVector` | src/cache/partitioned_vector_index.cpp:64-70 | removes the id from the partition the key resolves to and answers whether it was there |
| `PartitionedStore.PartitionedVectorIndex.Contains` | src/cache/partitioned_vector_index.cpp:113-119 | answers whether the partition the key resolves to holds the id |
| `VectorIndex.InsertKeeps` | src/cache/vector_index.cpp:28-47 | keeps the maps inverse, adds exactly one vector when accepted, and says exactly when an insert is accepted |
| `VectorIndex.RemoveKeeps` | src/cache/vector_index.cpp:49-58 | keeps the maps inverse and removes exactly the vector of the id |
| `VectorIndex.MapsStayInverse` | src/cache/vector_index.cpp:28-58 | after every run of inserts and removes the two maps are inverses and every label is below the next one |
| `VectorIndex.FullStaysFull` | src/cache/vector_index.cpp:35-58 | once the graph has used all its slots no new id is accepted in the rest of any run |
| `VectorIndex.RefusesIffItWasFull` | src/cache/vector_index.cpp:28-58 | after every run from an empty index a new id is refused if and only if the index held as many ids as it has slots at some time |
| `VectorIndex.EmptyButFull` | src/cache/vector_index.cpp:35-58 | an index that holds nothing and refuses everything, reached by one insert and its removal |
| `VectorIndexFile.Partition.InsertVector` | src/cache/vector_index.cpp:28-47 | the object's new state and answer are those of the specified insert |
| `VectorIndexFile.Partition.RemoveVector` | src/cache/vector_index.cpp:49-58 | the object's new state and answer are those of the specified removal |
| `VectorIndexFile.Partition.Save` | src/cache/vector_index.cpp:130-159 | writes the header and one record for each id in the order of the walk |
| `VectorIndexFile.Partition.Load` | src/cache/vector_index.cpp:161-228 | ends with the maps and next label the file specifies, or empty maps and the graph's element count |
| `VectorIndexFile.LoadRecords` | src/cache/vector_index.cpp:195-221 | the loop over offsets reads what taking the records apart one by one yields, and fails when they do not suffice |
| `VectorIndexFile.LoadOfPrefix` | src/cache/vector_index.cpp:161-228 | every strict prefix of a saved file loads as empty maps |
| `VectorIndexFile.LoadChecksHeader` | src/cache/vector_index.cpp:161-194 | every file that does not begin with the magic, the version and this dimension and capacity loads as empty maps |
| `VectorIndexFile.LoadOfAnother` | src/cache/vector_index.cpp:161-194 | the file of an index of another dimension or capacity loads as empty maps |
| `VectorIndexFile.RepeatedRecords` | src/cache/vector_index.cpp:195-220 | in a file that repeats itself the first label of an id and the last id of a label count |
| `VectorIndexFile.SaveThenLoad` | src/cache/vector_index.cpp:130-228 | loading a saved file restores both maps and the next label if and only if every id is shorter than 2^32 bytes |
| `SemanticCache.NextIdIsFresh` | src/cache/semantic_cache.cpp:19-35 | whatever the model name hashes to, the next entry id was never handed out before |
| `SemanticCache.EvictLruDropsOldest` | src/cache/semantic_cache.cpp:498-507 | evicting drops exactly one entry, one with the least last access, and knows its partition key |
| `SemanticCache.EvictExpiredKeeps` | src/cache/semantic_cache.cpp:303-319 | the sweep keeps the bookkeeping, rewrites no remaining entry and reports the partition key of each dropped one |
| `SemanticCache.MakeRoomKeeps` | src/cache/semantic_cache.cpp:142-153 | phase 1 of put keeps the bookkeeping and leaves a full cache smaller |
| `SemanticCache.CommitKeeps` | src/cache/semantic_cache.cpp:169-188 | phase 3 of put keeps the three LRU structures in step and ordered |
| `SemanticCache.TouchKeeps` | src/cache/semantic_cache.cpp:92-98 | a hit puts the id at the front, leaves the others in their order, stamps only this entry, and keeps the three LRU structures in step |
| `LockedCache.LockedCache.DropLocked` | src/cache/semantic_cache.cpp:71-77 | erases one id from the list, the map and the entries |
| `LockedCache.LockedCache.EvictExpiredLocked` | src/cache/semantic_cache.cpp:303-319 | the loop over the entries drops exactly the stale ones and collects their partition keys |
| `LockedCache.LockedCache.EvictLruLocked` | src/cache/semantic_cache.cpp:498-507 | pops the back of the list and erases that entry |
| `LockedCache.LockedCache.SweepLocked` | src/cache/semantic_cache.cpp:145-148 | counts the put and sweeps on every hundredth |
| `LockedCache.LockedCache.AllocateLocked` | src/cache/semantic_cache.cpp:142-153 | performs phase 1 of put and takes the next id |
| `LockedCache.LockedCache.CommitLocked` | src/cache/semantic_cache.cpp:169-188 | performs phase 3 of put |
| `LockedCache.LockedCache.AnswerLocked` | src/cache/semantic_cache.cpp:63-103 | judges the found id as hit, expired or miss and changes the cache accordingly |
| `LockedCache.LockedCache.TouchLocked` | src/cache/semantic_cache.cpp:92-98 | moves the id to the front and stamps it, and changes nothing else |
| `LockedCache.LockedCache.ClearLocked` | src/cache/semantic_cache.cpp:283-290 | empties the cache and reports every entry's partition key |
| `CacheRun.StepKeepsAgreement` | src/cache/semantic_cache.cpp:37-189 | every step of every interleaving keeps each entry's vector in its key's partition and each stored vector owned by one entry or operation |
| `CacheRun.StepKeepsBookkeeping` | src/cache/semantic_cache.cpp:92-98 | every step keeps the three LRU structures equal and ordered by last access |
| `CacheRun.ExpiredKeeps` | src/cache/semantic_cache.cpp:69-77 | dropping an expired entry found through another logical key of the same partition keeps agreement |
| `CacheRun.OneHome` | src/cache/partitioned_vector_index.cpp:12-70 | no vector is ever stored in two partitions |
| `CacheRun.QuiescentAgreement` | src/cache/semantic_cache.cpp:132-189 | with nothing in flight the stored ids are exactly the cached ids |
| `CacheTheorems.CacheAndIndexAgree` | src/cache/semantic_cache.cpp:37-319 | in every interleaved run every entry's vector is where a lookup of its key sees it, and at rest index and cache hold the same ids |
| `CacheProgress.EveryOperationCanFinish` | src/cache/semantic_cache.cpp:37-319 | no operation waits for another one: each can finish by its own steps, whatever the index answers to an insertion |
| `CacheProgress.EveryRunCanRest` | src/cache/semantic_cache.cpp:37-319 | from every reachable state the operations in flight can all finish, and then the index holds exactly the cached ids |
| `CacheProgress.CleaningIsExact` | src/cache/semantic_cache.cpp:281-319 | at rest a sweep leaves exactly the entries no older than the ttl, a clear none, and the index exactly their vectors |
| `CacheTheorems.LruIsExact` | src/cache/semantic_cache.cpp:498-507 | in every run the LRU structures hold the same ids once, ordered by their recorded last access, and the next eviction takes the end of the list |
| `CacheUse.LruIsByUse` | src/cache/semantic_cache.cpp:92-98 | in every run each entry bears the time of the last event that stored or served it, the list is ordered by these events, and the next eviction takes the entry whose last such event is the earliest |
| `CacheUse.DeparturesAreExact` | src/cache/semantic_cache.cpp:60-153 | in every run phase 1 of a put leaves the fresh entries on every hundredth put, else all, but for the least recently used one when they are not below the limit; the sweep leaves exactly what is no older than the time to live, `clear` nothing, and a lookup removes only an expired entry it found |
| `CacheTheorems.SizeIsBounded` | src/cache/semantic_cache.cpp:142-188 | with at most k puts in flight the cache never holds more than max_entries + k - 1 entries |
| `AssembledCache.WholeRunIsRun` | src/core/pipeline_assembler.cpp:505-506 | every run of the cache over partitions with a capacity is a run of the machine above, so all its theorems hold of the assembled cache |
| `AssembledCache.RunKeepsSound` | src/cache/partitioned_vector_index.cpp:12-70 | in every such run the partitions are valid, within the limit, and hold exactly the vectors the cache believes stored |
| `CacheCapacity.SlotsBoundEntries` | src/cache/vector_index.cpp:28-47 | in no run does the cache hold more entries than all partitions, the overflow included, have slots |
| `CacheCapacity.FullPartitionDropsPuts` | src/cache/vector_index.cpp:28-58 | once a partition has used its slots, every put under a key that resolves to it is dropped in the rest of every interleaved run, save those whose vector was stored before |
| `CacheCapacity.PutIntoFullCostsAnEntry` | src/cache/semantic_cache.cpp:132-189 | such a put is never stored, whatever else happens, and yet evicts an entry when the cache is full |
| `CacheSize.SizeBoundIsReachedIff` | src/cache/semantic_cache.cpp:142-188 | some run of the assembled cache with at most k puts in flight ends with max_entries + k - 1 entries if and only if the partitions together have that many slots |
| `CacheHits.HitIsEarned` | src/cache/semantic_cache.cpp:60-103 | a hit is earned by the put that stored the entry |
| `CacheHits.HitsAreEarned` | src/cache/semantic_cache.cpp:37-189 | in every interleaved run every hit returns the response of exactly one earlier put under the requested key, with a compatible model, not expired, not removed since, and similar enough |
| `CacheSearch.ServedIffNearestSuits` | src/cache/semantic_cache.cpp:37-103 | in every run a request is served with an entry if and only if that entry has the nearest vector of the physical partition and suits the request when it takes the lock, whatever others did meanwhile |
| `CacheSearch.NothingFoundNothingSuits` | src/cache/semantic_cache.cpp:41-60 | when the search finds nothing, no entry suits the request |
| `CacheSearch.SearchHasAResult` | src/cache/vector_index.cpp:60-96 | every partition and request have a nearest vector or none above the threshold |
| `HiddenEntry.NearerStrangerHides` | src/cache/semantic_cache.cpp:37-103 | with one shared partition, for any two keys and any request for one whose nearest vector is the other's, some run leaves the request unanswered although an entry suits it |
| `HiddenEntry.EntryIsHidden` | src/cache/semantic_cache.cpp:79-90 | a concrete configuration, two puts and a request for which this happens |
| `CacheKeys.SanitizeClientId` | src/cache/conversation_id_resolver.cpp:7-18 | keeps the printable and high bytes in order, at most 256 |
| `CacheKeys.SanitizedIsIdentityIff` | src/cache/conversation_id_resolver.cpp:7-18 | a client id is used unchanged if and only if it has at most 256 bytes and no control byte |
| `CacheKeys.HashHistory` | src/cache/conversation_id_resolver.cpp:20-33 | the id is the digest prefix of everything but a trailing user message |
| `CacheKeys.ResolvedIdHasNoSeparator` | src/cache/conversation_id_resolver.cpp:41-56 | no conversation id the resolver yields contains the field separator |
| `CacheKeys.ResolvedIdTells` | src/cache/conversation_id_resolver.cpp:35-56 | requests that share a derived conversation id agree in all messages before the current turn, or in their only message, or the shortened digests of the two texts collide; derived and sent ids aside, two sent ids are equal |
| `CacheKeys.AgreeingRequestsShareId` | src/cache/conversation_id_resolver.cpp:35-56 | requests with the same client id, or none, whose earlier messages agree share their id, and so do equal first turns |
| `CacheKeys.ResolvedIdIs` | src/cache/conversation_id_resolver.cpp:35-56 | which id a request gets: none without messages, the printable client id if there is one, as it is when short, else a first-turn or history id with 32 digits of a digest |
| `CacheKeys.RequestsHaveKeyFields` | src/cache/semantic_cache.cpp:435-476 | every request gives fields that the key derivation can tell apart, and its key is empty exactly when it has no messages |
| `CacheKeys.BlobInjective` | src/cache/semantic_cache.cpp:464-474 | the hashed text determines tenant, conversation and both hashes for arbitrary tenant bytes |
| `CacheKeys.KeyDeterminesFields` | src/cache/semantic_cache.cpp:461-476 | equal partition keys mean equal fields or a SHA-256 collision of exactly the two texts |
| `CacheKeys.SystemHashTells` | src/cache/semantic_cache.cpp:450-457 | equal system hashes mean that the first non-empty system contents agree, or collide |
| `CacheKeys.ConversationHashTells` | src/cache/semantic_cache.cpp:392-433 | equal conversation hashes mean that the messages before a trailing user turn agree, all of them or the last of a window, with or without a summary, or the two hashed texts collide |
| `CacheKeys.AgreeingConversationsShareHash` | src/cache/semantic_cache.cpp:392-433 | conversations that agree as far as the mode looks have one hash, whatever came before the window |
| `CacheKeys.KeyTellsMessages` | src/cache/semantic_cache.cpp:435-476 | equal keys mean the same tenant and conversation id, the same first system content and the same earlier messages, or a SHA-256 collision on two named texts |
| `CacheKeys.AgreeingRequestsShareKey` | src/cache/semantic_cache.cpp:435-476 | requests of one tenant and conversation that agree on the first system content and on the earlier messages the mode looks at share their key |
| `CacheKeys.SeparatorInConversationMixesTenants` | src/cache/semantic_cache.cpp:461-476 | a conversation id with a separator shares its key with another tenant |
| `CacheKeys.BodyInjective` | src/cache/semantic_cache.cpp:413-420 | among messages without separators the hashed text determines the messages |
| `CacheKeys.BodyIsUniqueIff` | src/cache/semantic_cache.cpp:413-420 | among all conversations only the empty one and single messages without a field separator have a hashed text of their own |
| `TenantIsolation.HitsStayWithinTenant` | src/cache/semantic_cache.cpp:478-638 | in every run whose lookups and puts come from requests, a hit for a request returns the response stored for a request of the same tenant and conversation id, with the same first system content and the same earlier messages, unless SHA-256 collides on two named texts |
| `TenantIsolation.LookedUpIff` | src/cache/semantic_cache.cpp:611-626 | a request is looked up, with its last user message, if and only if that is not empty, no tools are used and the policy admits model, temperature and streaming |
| `TenantIsolation.StoredIff` | src/server/response_finalizer.h:24-34 | a response is stored if and only if the request has a user message and no tools and the policy does not skip the target model |
| `TenantIsolation.RepeatedRequestSuits` | src/cache/semantic_cache.cpp:478-638 | what is stored for a request suits the same request when it comes again, while the entry lives |
| `TenantIsolation.AlikeRequestsSuit` | src/cache/semantic_cache.cpp:435-476 | what is stored for a request suits every request of the tenant with the same prompt, system prompt and earlier messages as far as mode and resolver look |
| `SnapshotPayload.EscapeJson` | src/cache/cache_migrator.cpp:29-53 | the loop yields the escaped form of the whole string |
| `SnapshotPayload.ExtractField` | src/cache/cache_migrator.cpp:197-226 | finds the first occurrence of the field and reads its value up to the first unescaped quote |
| `SnapshotPayload.FindIsFirst` | src/cache/cache_migrator.cpp:199-202 | the search returns the least occurrence and fails only when there is none |
| `SnapshotPayload.ReadEscape` | src/cache/cache_migrator.cpp:204-225 | reading an escaped string returns it with unusual control bytes spelled out |
| `SnapshotPayload.MangleIsIdentityIff` | src/cache/cache_migrator.cpp:41-47 | a string reads back unchanged if and only if it holds no control byte without a short escape |
| `SnapshotPayload.QuotesAreEscaped` | src/cache/cache_migrator.cpp:29-53 | every quote in escaped text follows a backslash |
| `SnapshotPayload.NoEarlierId` | src/cache/cache_migrator.cpp:55-62 | nothing inside the partition value looks like the start of the id field |
| `SnapshotPayload.PartitionReadsBack` | src/cache/cache_migrator.cpp:55-62 | the partition field of every payload reads back |
| `SnapshotPayload.IdReadsBack` | src/cache/cache_migrator.cpp:55-62 | the id field of every payload reads back |
| `SnapshotPayload.TenantIff` | src/cache/cache_migrator.cpp:228-236 | the tenant taken from a partition is t if and only if the partition is "tenant:" + t, alone or followed by a bar and anything, with no bar in t, or has no such prefix and t is empty |
| `Snapshot.EncodeHex` | src/cache/cache_migrator.cpp:65-74 | the loop yields two lower-case digits for each byte |
| `Snapshot.DecodeHex` | src/cache/cache_migrator.cpp:149-160 | the loop yields one byte for each two digits |
| `Snapshot.HexOfUnhex` | src/cache/cache_migrator.cpp:149-160 | encoding the decoded digest gives the digest back |
| `Snapshot.WriteEntries` | src/cache/cache_migrator.cpp:99-123 | writes the enumerated entries of the first known dimension, in order, and counts them |
| `Snapshot.Dump` | src/cache/cache_migrator.cpp:79-179 | the file is the patched header, the entries and the decoded digest; a digest of another length is an error |
| `SnapshotRestore.ReadEntry` | src/cache/cache_migrator.cpp:296-326 | reads one entry inside the body or names the truncation |
| `SnapshotRestore.CutIsNamed` | src/cache/cache_migrator.cpp:296-326 | a file cut anywhere within an entry is reported by the part of the entry it ends in |
| `SnapshotRestore.JudgeEntry` | src/cache/cache_migrator.cpp:327-361 | counts one entry as restored, skipped or corrupted and makes at most one insert call |
| `SnapshotRestore.JudgedExactly` | src/cache/cache_migrator.cpp:327-361 | an entry is corrupted without its fields, skipped when its partition belongs to no listed tenant, corrupted in another dimension, and otherwise inserted |
| `SnapshotRestore.CountersAreExact` | src/cache/cache_migrator.cpp:327-361 | every counter counts exactly the verdicts it is named after |
| `SnapshotRestore.RestoreEntries` | src/cache/cache_migrator.cpp:293-363 | the single pass over offsets does what parsing first and judging afterwards does |
| `SnapshotRestore.Restore` | src/cache/cache_migrator.cpp:241-364 | checks size, digest, magic and version in order before any entry |
| `SnapshotRestore.ParseAll` | src/cache/cache_migrator.cpp:293-327 | parsing inverts writing for all entries whose sizes fit |
| `SnapshotRestore.ParseIsExact` | src/cache/cache_migrator.cpp:293-327 | for every body the entries read are the longest run of well-formed entries up to the count, and a failure means that there are fewer |
| `SnapshotRestore.RestoreIsSafe` | src/cache/cache_migrator.cpp:245-364 | for every file: no call before digest, magic and version are accepted, at most one entry for eight body bytes, counters that add up, and only entries of the dimension whose partition belongs to a listed tenant |
| `SnapshotRoundTrip.WrittenEnough` | src/cache/cache_migrator.cpp:105-110 | skipping entries of another dimension loses nothing that a restore would insert |
| `SnapshotRoundTrip.RestoreOfDump` | src/cache/cache_migrator.cpp:79-364 | restoring a dump passes all checks and makes, in order, exactly the insert calls of the admissible entries |
| `SnapshotRoundTrip.RoundTripIff` | src/cache/cache_migrator.cpp:79-364 | the insert calls are exactly the enumeration if and only if all vectors have one dimension and no string holds an unusual control byte |
| `SnapshotRoundTrip.RestoresListedTenants` | src/cache/cache_migrator.cpp:228-347 | restoring a dump with an allowlist makes exactly the insert calls of the entries whose partition belongs to a listed tenant |
| `SnapshotRoundTrip.DigestPartitionsAreSkipped` | src/cache/cache_migrator.cpp:229-236 | restoring a dump of partitions named by a digest with a tenant allowlist inserts nothing |
| `TokenBucket.AdmittedIsBounded` | src/cluster/redis_state_store.cpp:22-51 | calls stamped within a window, by clocks that may disagree, are admitted for at most a full bucket plus what the window earns |
| `TokenBucket.BoundIsReached` | src/cluster/redis_state_store.cpp:22-51 | in every window some calls are admitted for exactly that much, unless a millisecond earns more than the bucket holds |
| `TokenBucket.RefusalsAreFree` | src/cluster/redis_state_store.cpp:43-50 | leaving out any of the refused calls of any run, expiry included, changes no other answer and not the admitted cost |
| `TokenBucket.ExpiryIsInvisibleIff` | src/cluster/redis_state_store.cpp:22-51 | key expiry changes no answer of any run if and only if the bucket refills within 600 seconds |
| `TokenBucket.SpentIsBounded` | src/cluster/redis_state_store.cpp:171-199 | over any stretch of any run with expiry, such a bucket admits at most a full bucket plus what the elapsed time earns |
| `TokenBucket.SlowBucketOverspends` | src/cluster/redis_state_store.cpp:22-51 | every slower bucket has a run that exceeds the bound |
| `CircuitBreaker.StateFieldIsAuthoritative` | src/cluster/redis_state_store.cpp:286-333 | in every reachable state the breaker is closed exactly when the state field is absent, and open exactly while it is 1 and the reset timeout has not passed since the last failure |
| `CircuitBreaker.VerdictIff` | src/cluster/redis_state_store.cpp:286-304 | the verdict for every value of the fields and the clock, with the wait in milliseconds: a counter at the threshold without a state counts as open, and a clock behind the last failure is rounded toward zero |
| `CircuitBreaker.CallsAreAnsweredOnce` | src/cluster/redis_state_store.cpp:313-364 | over every run the calls begun are those admitted, those denied and those still in flight |
| `CircuitBreaker.OpenRefusesUntilTimeout` | src/cluster/redis_state_store.cpp:286-343 | an open breaker admits no call and stays open until the reset timeout has passed since its last failure, whatever calls and failures interleave |
| `CircuitBreaker.FailureStartsTheWait` | src/cluster/redis_state_store.cpp:99-117 | the failure that reaches the threshold, one while open and one of a half-open probe each start a new wait in which nothing is admitted |
| `CircuitBreaker.OpensAtThreshold` | src/cluster/redis_state_store.cpp:99-117 | in every interleaved run without a reset the state field is present if and only if at least the threshold of failures was recorded |
| `CircuitBreaker.HalfOpenBudget` | src/cluster/redis_state_store.cpp:335-364 | n nodes admit at most half_open_max + n - 1 calls that begin after the breaker tripped, until a success or expiry |
| `CircuitBreaker.BudgetIsReached` | src/cluster/redis_state_store.cpp:335-364 | from the initial state, for every n and all positive limits, enough failures and the timeout are followed by some interleaving that admits exactly that many |
| `CircuitBreaker.ExhaustedBudgetStaysExhausted` | src/cluster/redis_state_store.cpp:335-364 | once the probes are used up nothing is admitted before a reset, whatever fails or passes meanwhile |
| `CircuitBreaker.SuccessResetsIffNoneInFlight` | src/cluster/redis_state_store.cpp:247-364 | a recorded success, or an expiry of the key, keeps the breaker closed until the next failure if and only if no call that has read the state is in flight |
| `ControlPlane.PromoteShape` | src/storage/memory_persistent_store.cpp:935-970 | activation makes the target active, supersedes the previous version and touches no other |
| `ControlPlane.BootstrapShape` | src/control_plane/bootstrap_helper.cpp:45-135 | a bootstrap changes something only in an empty store, and then installs one active version with one submit entry |
| `ControlPlane.StepKeepsWellFormed` | src/control_plane/config_service_core.cpp:41-349 | every call keeps the store's active id naming the only active version |
| `ControlPlane.StepMovesLegally` | src/control_plane/state_machine.cpp:15-43 | every call leaves every version with exactly the status that the table of moves and the demotion of the active version give, and rewrites no submission |
| `ControlPlane.DuplicateIff` | src/control_plane/config_service_core.cpp:105-121 | while at most 500 versions are live, a content is a duplicate if and only if a pending, approved or active version has it |
| `ControlPlane.SecondSubmissionIsRefused` | src/control_plane/config_service_core.cpp:105-121 | what was just submitted is refused when submitted again, and nothing changes |
| `ControlPlaneAudit.StepKeepsInvariant` | src/control_plane/config_service_core.cpp:41-349 | every call keeps the life cycle, dual approval and the agreement of store and audit trail |
| `ControlPlaneAudit.LifeCycleHolds` | src/control_plane/config_service_core.cpp:171-349 | after every run at most one version is active, and every reviewed version has a reviewer other than its submitter, save at most the bootstrap one |
| `ControlPlaneAudit.RejectedIsFinal` | src/control_plane/config_version_record.h:23-29 | in every run a rejected version stays rejected and no version is dropped or rewritten |
| `ControlPlaneAudit.AuditTellsAll` | src/control_plane/audit_bridge.cpp:24-116 | without a bootstrap the trail alone rebuilds every status, and each recorded previous version is the one that the trail so far shows active |
| `ControlPlaneAudit.AuditNamesPeople` | src/control_plane/audit_bridge.cpp:24-116 | without a bootstrap the trail alone rebuilds the hash and size of every content, who submitted, reviewed and last activated it, and their comments |
| `ControlPlaneAudit.RecordedPreviousWasActive` | src/control_plane/audit_bridge.cpp:24-116 | in every run, bootstraps included, each switching entry was recorded by one call and names the only version that the store had active just before that call |
| `ControlPlaneAudit.AuditMissesOnlyTheBootstrap` | src/control_plane/bootstrap_helper.cpp:95-128 | in every run the trail is wrong about a version if and only if a bootstrap installed it and no later entry names it |
| `ControlPlaneAudit.RollbackUndoesActivation` | src/control_plane/config_service_core.cpp:285-349 | rolling back to the replaced version makes it active again and changes no other status but that of the version that had replaced it |
| `ControlPlaneService.ConfigStore.InsertConfigVersion` | src/storage/memory_persistent_store.cpp:847-853 | inserts under a new non-empty id and refuses others |
| `ControlPlaneService.ConfigStore.UpdateConfigStatus` | src/storage/memory_persistent_store.cpp:855-875 | sets the status and, for verdicts, the reviewer fields |
| `ControlPlaneService.ConfigStore.ActivateConfig` | src/storage/memory_persistent_store.cpp:935-970 | promotes the target and demotes the previous active version, or refuses |
| `ControlPlaneService.ConfigServiceCore.SubmitBundle` | src/control_plane/config_service_core.cpp:41-153 | applies the gates in order; success stores one pending version and appends one entry, refusal changes nothing |
| `ControlPlaneService.ConfigServiceCore.TransitionReview` | src/control_plane/config_service_core.cpp:171-235 | refuses unknown ids, self-review and illegal transitions; success stores the verdict and appends one entry |
| `ControlPlaneService.ConfigServiceCore.ActivateBundle` | src/control_plane/config_service_core.cpp:237-283 | activates approved versions only and records the version active before |
| `ControlPlaneService.ConfigServiceCore.RollbackBundle` | src/control_plane/config_service_core.cpp:285-349 | reactivates superseded versions, leaves the store alone for the active one, and records the version active before |
| `ControlPlaneService.ConfigServiceCore.BootstrapIfEmpty` | src/control_plane/bootstrap_helper.cpp:45-135 | submits through the service and elevates through the store, only when the store is empty |
| `BitStream.RegroupingUndone` | src/auth/jwt_utils.cpp:9-70 | regrouping bytes into shorter digits with zero padding and back returns the bytes |
| `BitStream.RegroupedNumber` | src/auth/jwt_utils.cpp:9-35 | the digits spell the big-endian number of the bytes followed by the zero bits that fill the last digit, and are no more than that takes |
| `BitStream.ShiftIn` | src/auth/totp_service.cpp:29-31 | an accumulator that wraps at 32 bits still holds the bits that have not been emitted |
| `Codecs.Base64UrlEncode` | src/auth/jwt_utils.cpp:9-35 | yields the base64url text of section 5 of RFC 4648 without padding |
| `Codecs.Base64UrlDecode` | src/auth/jwt_utils.cpp:37-70 | yields the bytes of the digits up to the first padding, or nothing on an invalid character |
| `Codecs.Base64UrlSpells` | src/auth/jwt_utils.cpp:9-35 | each character is the URL alphabet's character of its six bits, and there is no padding |
| `Codecs.RefusedIffForeign` | src/auth/jwt_utils.cpp:45-62 | a text is refused if and only if a character before the first padding is outside the alphabet |
| `Codecs.Base64UrlRoundTrip` | src/auth/jwt_utils.cpp:9-70 | decoding undoes encoding for every byte string |
| `Codecs.Base32Encode` | src/auth/totp_service.cpp:24-43 | yields the base32 text of section 6 of RFC 4648 without padding |
| `Codecs.Base32Decode` | src/auth/totp_service.cpp:45-71 | yields the bytes of the digits, in either case, skipping other characters |
| `Codecs.Base32RoundTrip` | src/auth/totp_service.cpp:24-71 | decoding undoes encoding for every byte string |
| `Codecs.Base32IgnoresCase` | src/auth/totp_service.cpp:45-71 | a text and its lower-case form decode to the same bytes |
| `Codecs.DecodeBase64Capped` | include/aegisgate/types.h:91-120 | returns the whole decoding, or its first cap + 1 bytes, and flags oversized exactly when the whole exceeds the cap |
| `Ulid.EncodeFixed` | src/control_plane/ulid.cpp:14-19 | writes the base-32 digits in place and leaves the rest of the buffer alone |
| `Ulid.DecodeChar` | src/control_plane/ulid.cpp:22-27 | returns the position of the character or -1 when there is none |
| `Ulid.DigitIsCrockford` | src/control_plane/ulid.cpp:10-11 | the digits are Crockford's alphabet in its order |
| `Ulid.SpellRandomness` | src/control_plane/ulid.cpp:68-75 | the shifting 128-bit register spells the 80 random bits as 16 base-32 digits |
| `Ulid.GenerateAt` | src/control_plane/ulid.cpp:50-78 | the identifier is the digits of the time modulo 2^48 and of the random bits |
| `Ulid.DecodeTimestamp` | src/control_plane/ulid.cpp:80-89 | returns the number the first ten characters spell, or nothing for a wrong length or character |
| `Ulid.UlidOrder` | src/control_plane/ulid.cpp:50-78 | identifiers are ordered and equal exactly as their times and then their random bits are |
| `Ulid.TimeOrder` | src/control_plane/ulid.cpp:50-78 | below 2^48 milliseconds string order is time order whatever the random part |
| `Ulid.RandomnessIsInjective` | src/control_plane/ulid.cpp:68-69 | two draws give the same random bits exactly when the first number and the low 16 bits of the second agree |
| `Ulid.TimeReadsBack` | src/control_plane/ulid.cpp:80-89 | the timestamp reads back, and is the given one exactly when it fits 48 bits |
| `ToolCallScan.CutToolCall` | src/agent/orchestrator.cpp:173-204 | the loop cuts from the first brace to the brace that closes it |
| `ToolCallScan.JsonIsSkipped` | src/agent/orchestrator.cpp:180-200 | no JSON value inside an object, however nested, spaced and escaped, ends the scan |
| `ToolCallScan.CutsTheObject` | src/agent/orchestrator.cpp:173-204 | text without a brace, then any JSON object of RFC 8259, then anything: exactly the object is cut out |

## Left out

- Cache: warm-up, import, feedback, query patterns, the adaptive threshold, persistence of entries and cross-tenant sharing are not modelled; hit counters and logging neither.
- Cache: partition keys are non-empty, as both request paths derive them; the id counter is unbounded; operations share one monotone clock.
- Cache: the vectors an operation still has to remove are a map, so the order of its removals is left open, and the LRU map is its domain, not its list iterators.
- Vector search: the HNSW graph may return any id of the partition above the threshold in `CacheHits`, and returns the nearest one in `CacheSearch`; how often its approximate search misses the nearest is not modelled. `searchAll`, `size` and `enumerate` are not modelled.
- Assembled cache: the in-process index only; the Milvus and Qdrant stores, and the knowledge base that can share the store, are not modelled. An embedding of another dimension than the store's is refused.
- CacheSize.SizeBoundIsReachedIff: entries live for a time that is not negative, and some prompt has an embedding of the store's dimension.
- CacheKeys.ConversationHashTells: speaks of messages without separators; for others `BodyIsUniqueIff` says which conversations share a text.
- ControlPlane.DuplicateIff: with more than 500 live versions the check looks at the 500 newest only, as the code does.
- TenantIsolation.HitsStayWithinTenant: the redaction of a response before it is stored is not modelled; the stored text is an input.
- PartitionedStore.PartitionedVectorIndex.InsertVector: partitions are values in a map instead of objects that the index owns, so their separate locks are not modelled.
- Snapshot.Dump: opening, reading and writing files is left out, and so are their errors.
- VectorIndexFile.Partition.Load: stream errors other than the end of the file are left out.
- Redis: the branches taken when Redis is unreachable or a field does not parse are left out, and tokens are reals, so rounding and the printing of numbers are not modelled.
- Circuit breaker: expiry may strike at any moment instead of after 3600 seconds, which only allows more runs.
- Control plane: calls are sequential; interleaved calls of the service, listing and paging of versions, the diff engine, the scanners and the gRPC layer are not modelled.
- ControlPlaneService.ConfigServiceCore.SubmitBundle: the checks on the text of a bundle are inputs, and a version that disappears between two store calls is not modelled.
- Codecs.Base64UrlEncode: the loop that trims trailing padding never finds any and is not written out.
- ToolCallScan.CutToolCall: the JSON parser that receives the cut is not modelled, and the nesting depth is unbounded.
- Everything else in the repository (routing, guardrails, identity, rollout, SDKs, command line) is outside this model.
