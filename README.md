# ipfs-build-resources, modelled in Dafny

`ipfs-build-resources` is a build tool that stores files and JSON documents in IPFS
under their content hashes. It builds "resources" out of them: files, filtered
directories and outputs of named build tasks. It memoizes every task by its name and
parameters. Seven parts of it are modelled here.

- **The LRU content cache** (`lru-buffer-cache.ts`), module `LruBufferCache`. The
  module has the pool of recycled nodes (`NodeArena`), the doubly linked recency list
  (`Lru`) and the hash index (`LruContentCache`). They are classes over an arena of
  nodes, where a node's slot stands for its identity. Each method is proved against
  the abstract cache of module `LruSpec`. There, `CacheView` holds the entries from
  most to least recently used, the index and the capacity. `Touch`, `Lookup`, `Put`
  and `Purge` give each operation's effect, and the LRU policy is stated as lemmas
  over them.
- **The caching content server** (`caching-content-server.ts`), module
  `ContentServer`. `store` and `retrieve` run in front of the IPFS backend, with one
  gate per hash so that only one request goes to the backend per hash. The multihash
  framing of `ipfsHash` is modelled too.
- **The build memo** (`build-cache.ts`), module `BuildCaching`. It has the memo of
  task results, keyed by token, and the per-token gates.
- **The build system** (`build-system.ts`), module `BuildSystems`. It covers
  `retrieveContent`/`retrieveJSON`, `storeContent`/`storeJSON` and `build`, which
  looks a task up in the registry and runs it through the memo.
- **The build tasks** (`build-utils.ts`), module `BuildUtils`. It has `concat`,
  `mergeJSON` and the three directory-tree transforms `removeExtensions`,
  `swapExtensions` and `copyExtensions`. The transforms share one function,
  `Transform`, with a `Mode`. The `rec` in `resource.ts` is the `swapExtensions`
  transform.
- **The resource resolver** (`build-resource.ts`), module `BuildResource`. It
  classifies a resource spec, walks a path through the uploaded directory tree,
  filters a directory by a regular expression, resolves the arguments of a task call
  in order, and stores the result.
- **Resource type names** (`resource.ts`), module `ResourceTypes`. It has
  `inferType` and the name of the generated constant:
  `path.basename(name).replace('.json', '').toUpperCase() + '_RES'`.

Some library functions are not opened up: SHA-256, SHA-1, base58, `JSON.parse`,
`JSON.stringify`, mudb's `stringify`, UTF-8 and `RegExp`. Every operation that uses
them receives them as fields of the `Foreign` record of total functions.

JavaScript values are modelled by `Json.Value`. Objects are sequences of own
properties in key order, and assignment follows `Object.assign`: the last write wins
and a new key goes last. A thrown error is an `Err` result carrying its message.

Replies from outside arrive as parameters:

- the IPFS backend's reply (`reply`);
- what other requests store while one is suspended at a gate (`others`);
- the outcome of a task run, and what a concurrent run left in the memo (`released`).

## Model

| member | source | states |
|---|---|---|
| `LruBufferCache.CopyContent` | src/content-solver/lru-buffer-cache.ts:8-20 | The result is a new buffer of the same length holding the same bytes, so it never aliases its argument. |
| `LruBufferCache.NodeArena.constructor` | src/content-solver/lru-buffer-cache.ts:6 | The node pool starts out empty. |
| `LruBufferCache.NodeArena.Alloc` | src/content-solver/lru-buffer-cache.ts:28-37 | With a non-empty pool, the last freed node is popped and given the key and value. Otherwise a new unlinked node is appended. The slot returned is the one `NextSlot` named, and the pool stays sound. |
| `LruBufferCache.NodeArena.Free` | src/content-solver/lru-buffer-cache.ts:39-46 | The node is cleared (null links, empty key, null value) and pushed on the pool. No other node changes. |
| `LruBufferCache.Lru.constructor` | src/content-solver/lru-buffer-cache.ts:54-59 | A new list is empty and has the given capacity. |
| `LruBufferCache.NewLru` | src/content-solver/lru-buffer-cache.ts:55-57 | It throws "capacity must bigger than 1" exactly when the capacity is below 1. Otherwise the list is new and empty. |
| `LruBufferCache.Lru.Put` | src/content-solver/lru-buffer-cache.ts:61-85 | Below capacity, the node becomes the head of the list and nothing is returned. At capacity, the old tail is cut off and returned, and the list is the new node followed by all old nodes but the last. Only the links of those nodes change, and the list stays doubly linked. |
| `LruBufferCache.Lru.Refresh` | src/content-solver/lru-buffer-cache.ts:87-109 | The refreshed node moves to the front and the others keep their order. The size is unchanged, only links of listed nodes change, and the list stays doubly linked. |
| `LruBufferCache.Lru.Purge` | src/content-solver/lru-buffer-cache.ts:111-114 | The list becomes empty. |
| `LruBufferCache.RefreshSound` | src/content-solver/lru-buffer-cache.ts:94-108 | Unlinking a node that is not the head, moving the tail to its predecessor when it was the tail, and pushing it in front keeps the list linked. The list order becomes the node moved to the front. |
| `LruBufferCache.HitSound` | src/content-solver/lru-buffer-cache.ts:127-130 | On a cache hit, refreshing the node keeps the whole cache sound. The observable cache becomes `Touch` of the old one, and coherence is kept. |
| `LruBufferCache.AllocSound` | src/content-solver/lru-buffer-cache.ts:135 | `alloc` hands out a slot that is neither listed nor pooled, and the observable cache does not change. |
| `LruBufferCache.LinkSound` | src/content-solver/lru-buffer-cache.ts:136-142 | Linking and indexing a new node when the list is not full gives exactly `Put` of the old cache, keeps it sound, and keeps it coherent. |
| `LruBufferCache.LinkEvictSound` | src/content-solver/lru-buffer-cache.ts:136-142 | When the list is full, the evicted node held the least recently used hash. Unindexing that hash, freeing the node and indexing the new one gives exactly `Put` of the old cache and keeps it sound and coherent. |
| `LruBufferCache.EvictPool` | src/content-solver/lru-buffer-cache.ts:138-141 | The evicted tail was not pooled. Freeing it keeps the pool distinct and cleared, and apart from the list. |
| `LruBufferCache.LruContentCache.constructor` | src/content-solver/lru-buffer-cache.ts:122-124 | A new cache is sound and empty, with the list's capacity. |
| `LruBufferCache.NewLruContentCache` | src/content-solver/lru-buffer-cache.ts:122-124 | A capacity below 1 throws "capacity must bigger than 1". Otherwise the cache is sound and empty. |
| `LruBufferCache.LruContentCache.PutCache` | src/content-solver/lru-buffer-cache.ts:126-144 | A cached hash is only touched and keeps its old buffer. A new hash is put in front, evicting the least recently used entry when full. It stores a fresh copy of the data when `needCopy`, else the caller's own buffer. Soundness and coherence are kept. |
| `LruBufferCache.LruContentCache.Hit` | src/content-solver/lru-buffer-cache.ts:127-130 | Refreshing an indexed hash makes the cache `Touch` of the old one and keeps it sound and coherent. |
| `LruBufferCache.LruContentCache.Insert` | src/content-solver/lru-buffer-cache.ts:135-142 | Allocating and linking a new hash makes the cache `Put` of the old one, in the slot `alloc` hands out. |
| `LruBufferCache.LruContentCache.Link` | src/content-solver/lru-buffer-cache.ts:136-142 | Linking the allocated node, freeing the evicted one and updating the index gives `Put` of the old cache. |
| `LruBufferCache.LruContentCache.GetCache` | src/content-solver/lru-buffer-cache.ts:146-153 | The result is the buffer stored under the hash, if any, and that entry becomes the most recently used. A miss changes nothing, and coherence is kept. |
| `LruBufferCache.LruContentCache.Purge` | src/content-solver/lru-buffer-cache.ts:155-157 | As written, only the index is cleared. The cache stays well formed, but the list keeps its entries. |
| `LruBufferCache.LruContentCache.PurgeAll` | src/content-solver/lru-buffer-cache.ts:155-157 | A purge that also purges the list leaves an empty cache, which is coherent. |
| `LruSpec.LinkFront` | src/content-solver/lru-buffer-cache.ts:62-67 | Linking a node that is not listed in front of the head makes it the new head of the same list. |
| `LruSpec.DropTail` | src/content-solver/lru-buffer-cache.ts:77-83 | Cutting off the tail of a list of two or more nodes leaves the rest linked, with the old tail's predecessor as the tail. |
| `LruSpec.Unlink` | src/content-solver/lru-buffer-cache.ts:94-104 | Unlinking a node joins its neighbours and leaves the rest of the list in order. When the node was the tail, its predecessor becomes the tail. |
| `LruSpec.PushFrontLinked` | src/content-solver/lru-buffer-cache.ts:62-70 | The link writes of `put` give a linked list with the node in front. Only the links of listed nodes and the new node change. |
| `LruSpec.CutTailLinked` | src/content-solver/lru-buffer-cache.ts:77-83 | The link writes of the eviction give a linked list without the old tail. Only links change. |
| `LruSpec.DetachLinked` | src/content-solver/lru-buffer-cache.ts:94-101 | The link writes of the unlink give the list without the node, still linked. |
| `LruSpec.RefreshLinked` | src/content-solver/lru-buffer-cache.ts:87-109 | A refresh of a node that is not the head gives a linked list ordered with that node moved to the front. |
| `LruSpec.RefreshFrame` | src/content-solver/lru-buffer-cache.ts:94-108 | A refresh changes only links, and only those of listed nodes. No hash or buffer changes. |
| `LruSpec.EntriesMove` | src/content-solver/lru-buffer-cache.ts:87-109 | Moving a node to the front of the list moves its entry to the front of the observable entries. |
| `LruSpec.LocatedIndexed` | src/content-solver/lru-buffer-cache.ts:147 | In a well-formed cache, an indexed hash is found at a listed entry that holds that hash. |
| `LruSpec.KeysIndexed` | src/content-solver/lru-buffer-cache.ts:119 | In a coherent cache, the listed hashes are exactly the indexed ones. |
| `LruSpec.TouchPreserves` | src/content-solver/lru-buffer-cache.ts:129 | A touch keeps a cache well formed, and coherent if it was. |
| `LruSpec.PutPreserves` | src/content-solver/lru-buffer-cache.ts:126-144 | A put into a free slot keeps a cache well formed, and coherent if it was. |
| `LruSpec.GetCacheEffect` | src/content-solver/lru-buffer-cache.ts:146-153 | In a coherent cache, a missing hash reads `undefined` and changes nothing. A present hash reads its entry's buffer, and that entry moves to the front with the others in order. |
| `LruSpec.PutPresent` | src/content-solver/lru-buffer-cache.ts:127-131 | Putting a present hash keeps the index, the size and the set of hashes. That hash comes first, and its buffer is the old one. |
| `LruSpec.PutNewNotFull` | src/content-solver/lru-buffer-cache.ts:132-143 | Below capacity, a new hash is added in front and indexed, and no entry is lost. |
| `LruSpec.PutNewFull` | src/content-solver/lru-buffer-cache.ts:132-143 | At capacity, a new hash is added in front and the least recently used entry goes. Its hash leaves the index, and the size stays at capacity. |
| `LruSpec.LookupAfterTouch` | src/content-solver/lru-buffer-cache.ts:146-153 | A touch changes no lookup. |
| `LruSpec.LookupAfterPutNew` | src/content-solver/lru-buffer-cache.ts:132-143 | After a new hash is put, it reads its buffer and the evicted hash reads `undefined`. Every other hash reads as before. |
| `LruSpec.LookupAfterPut` | src/content-solver/lru-buffer-cache.ts:126-144 | After any put, the put hash reads its old buffer if it was present, else the new one. Only the evicted hash is lost, and every other hash reads as before. |
| `LruSpec.LookupTouchSelf` | src/content-solver/lru-buffer-cache.ts:146-153 | A touched hash reads the same buffer as before. |
| `LruSpec.LookupPutSelf` | src/content-solver/lru-buffer-cache.ts:126-144 | After a put, a new hash reads the new buffer and a present hash reads what it read before. |
| `LruSpec.TouchMissed` | src/content-solver/lru-buffer-cache.ts:152 | A miss leaves the cache unchanged. |
| `LruSpec.IndexedFound` | src/content-solver/lru-buffer-cache.ts:147-148 | Every indexed hash has a buffer. |
| `LruSpec.EmptyCoherent` | src/content-solver/lru-buffer-cache.ts:122-124 | A new cache is coherent and holds no hash. |
| `LruSpec.PurgeBreaksCoherence` | src/content-solver/lru-buffer-cache.ts:155-157 | After the as-written purge of a non-empty cache, the cache is still well formed but no longer coherent. Its most recent hash is still listed but reads `undefined`. |
| `LruSpec.PurgeStrandsEntry` | src/content-solver/lru-buffer-cache.ts:155-157 | Put `a`, `b`, `c` into a cache of capacity 3, purge, then put `b` and `x`. The stale `b` node is evicted, which unindexes the live `b`: `b` stays listed but reads `undefined`. |
| `LruSpec.PutThree` | src/content-solver/lru-buffer-cache.ts:126-144 | Three puts into an empty cache of capacity 3 list the hashes newest first and index each at its slot. |
| `LruSpec.PutAfterPurge` | src/content-solver/lru-buffer-cache.ts:155-157 | This gives the exact caches after a purge and two puts, in the slots the node pool hands out: `x` reuses slot 0, which was freed when `a` was evicted. The same hash is listed twice, and then only the newest hash stays indexed. |
| `LruSpec.ClearedCoherent` | src/content-solver/lru-buffer-cache.ts:111-114 | A purge that also empties the list leaves a coherent, empty cache. |
| `ContentServer.IpfsHash` | src/content-solver/caching-content-server.ts:7-14 | `ipfsHash` computes the base58 text of the multihash framing `[0x12, 0x20]` followed by the SHA-256 digest of the data. |
| `ContentServer.MultihashRoundTrip` | src/content-solver/caching-content-server.ts:7-14 | The multihash is 34 bytes: code 0x12, length 0x20, then the digest. The digest can be read back from it, and only that framing gives it back. |
| `ContentServer.CachingContentServer.constructor` | src/content-solver/caching-content-server.ts:36-40 | A new server has no gates and keeps the given cache and size ceiling. |
| `ContentServer.CachingContentServer.WaitHash` | src/content-solver/caching-content-server.ts:20-26 | A free hash gets a gate. A gated hash is waited for, and its holder releases it. Without other requests, the cache does not change. |
| `ContentServer.CachingContentServer.SignalHash` | src/content-solver/caching-content-server.ts:28-34 | The hash's gate is released. |
| `ContentServer.CachingContentServer.Store` | src/content-solver/caching-content-server.ts:46-69 | Content at or above the size ceiling goes straight to the backend uncopied, and the backend's answer is returned. Cached content returns its hash without a backend call, touching the entry. Otherwise the gate is released in the end, and either the hash is returned because a concurrent store cached it, or a fresh copy of the content goes to the backend and its answer is returned. Without interleaving, a miss always sends the copy. A successful answer `k` leaves the cache as `Put` of the old one under `k` with that copy, so `k` reads the copy when it was missing, and the content's own hash stays unreadable when `k` differs from it. A failed answer leaves the cache unchanged. |
| `ContentServer.CachingContentServer.StoreMissed` | src/content-solver/caching-content-server.ts:53-65 | A store that missed the cache copies the content, waits at the gate, and releases it in the end. It answers the hash, or the backend's answer for the copy. Without interleaving the copy is sent. A successful answer makes the cache `Put` of the old one under the answered key with the copy, and leaves the local hash unreadable when the key differs. A failure changes nothing. |
| `ContentServer.CachingContentServer.StoreGated` | src/content-solver/caching-content-server.ts:56-65 | Under the gate, the store rechecks the cache. A hit answers the hash, and the cache becomes `Touch` of the old one. A miss sends the data and answers the backend's reply. |
| `ContentServer.CachingContentServer.StoreSent` | src/content-solver/caching-content-server.ts:60-64 | The backend's reply is the answer. A successful reply `k` makes the cache `Put` of the old one under `k` with the very buffer sent, with no second copy, so a missing `k` then reads that buffer. A failed reply leaves the cache unchanged. The gate is released either way. |
| `ContentServer.CachingContentServer.Retrieve` | src/content-solver/caching-content-server.ts:71-90 | A cached hash returns the cached buffer, touching the entry. Otherwise the gate is released in the end. Either a concurrently cached buffer is returned, or the backend is asked and its data is returned as a fresh buffer. Without interleaving, data below the ceiling is cached as a fresh copy holding the backend's bytes, distinct from the buffer returned, and the cache becomes `Put` of the old one with it. Missing or oversized data leaves the cache unchanged. |
| `ContentServer.CachingContentServer.RetrieveGated` | src/content-solver/caching-content-server.ts:78-89 | Under the gate, a cache hit answers without asking the backend and touches the entry. Otherwise the backend's data is returned. Data below the ceiling is cached as a fresh copy of the backend's bytes (`Put` of the old cache), and otherwise the cache does not change. |
| `ContentServer.CachingContentServer.RetrieveFetched` | src/content-solver/caching-content-server.ts:82-89 | The backend's data is returned exactly when there is some. Below the ceiling, a fresh copy holding the same bytes, not the returned buffer, is cached under the hash, and the cache becomes `Put` of the old one with it. Otherwise the cache does not change. |
| `ContentServer.CachingContentServer.Keep` | src/content-solver/caching-content-server.ts:83-85 | After `putCache`, the cache is `Put` of the old one, and the hash can be read. A hash that was missing now reads the stored buffer, which is a fresh copy of the data exactly when one was asked for. |
| `BuildCaching.Token` | src/bin/build-cache.ts:12-14 | A build task's memo key is the SHA-1 of `JSON.stringify([name, params])`. |
| `BuildCaching.StoreKeepsResults` | src/bin/build-cache.ts:24-43 | `store` never removes or changes the result of another token. A memoized non-empty result changes nothing. |
| `BuildCaching.StoreFailureWritesNothing` | src/bin/build-cache.ts:33-38 | When the build task throws, nothing is memoized and the error propagates. |
| `BuildCaching.StoreReleasesGate` | src/bin/build-cache.ts:39-42 | Every store that does not return a memoized result leaves the token's gate released. |
| `BuildCaching.StoreRunsOnce` | src/bin/build-cache.ts:24-36 | After a run memoizes a non-empty result, every later store of the token answers that result without running. `retrieve` reads it too. |
| `BuildCaching.WaiterReadsMemo` | src/bin/build-cache.ts:29-32 | A store that finds the gate held waits, then answers whatever the memo holds for the token, possibly `undefined`. |
| `BuildCaching.BuildCache.constructor` | src/bin/build-cache.ts:6-10 | A new memo has no results and no gates. |
| `BuildCaching.BuildCache.Retrieve` | src/bin/build-cache.ts:16-22 | The result is the memoized result for the token, or the empty string. |
| `BuildCaching.BuildCache.Store` | src/bin/build-cache.ts:24-43 | The memo and answer follow the store transition. The build task runs exactly when no non-empty result is memoized and no gate is held for the token. |
| `BuildSystems.PureHash` | src/bin/build-system.ts:25 | A hash with a line terminator fails the match with `NO_MATCH`, and exactly such a hash fails. Otherwise the pure hash is a dot-free prefix of the hash that ends at the end or at the first `.`. |
| `BuildSystems.PureHashSplits` | src/bin/build-system.ts:25 | The regular expression's first group is exactly the longest prefix without a `.` that ends the string or is followed by a `.`. |
| `BuildSystems.PureHashIdempotent` | src/bin/build-system.ts:25 | Stripping the extension twice is the same as stripping it once. |
| `BuildSystems.PureHashIgnoresExtension` | src/bin/build-system.ts:25 | A hash with an extension appended resolves to the same pure hash. |
| `BuildSystems.ParsedJson` | src/bin/build-system.ts:15-22 | Text that parses gives the parsed value. Otherwise the error is "could not parse json for hash: …" followed by the parser's message. |
| `BuildSystems.Checked` | src/bin/build-system.ts:42-48 | A non-empty hash passes and an error propagates. The empty hash becomes "error saving data". |
| `BuildSystems.InheritedNamePassesCheck` | src/bin/build-system.ts:55-58 | As written, the registry lookup finds `toString`, which is not a build task. |
| `BuildSystems.BuildSystem.constructor` | src/bin/build-system.ts:8-13 | The system keeps its memo, content server and library functions. |
| `BuildSystems.BuildSystem.RetrieveContent` | src/bin/build-system.ts:24-31 | A hash the pattern cannot match throws and touches nothing. Otherwise a cached pure hash returns the cached buffer. A missing one without interleaving returns the backend's bytes, or "error retrieving hash …" when the backend has none. |
| `BuildSystems.BuildSystem.RetrieveJSON` | src/bin/build-system.ts:15-22 | A retrieval error propagates. Otherwise the result is the parsed UTF-8 text of the content. The content is the cached bytes when the hash is cached. Without interleaving, a miss has content exactly when the backend answers, and then it is the backend's bytes. |
| `BuildSystems.BuildSystem.StoreContent` | src/bin/build-system.ts:42-48 | The answer is the content server's hash, and an empty one throws "error saving data". Whatever is sent to the backend holds the data's bytes, and the backend's reply is then the answer. Oversized content is sent as is. Cached content gets its own hash and nothing is sent. Without interleaving, a cacheable miss is sent, and a key the reply names that was missing then reads the buffer sent. |
| `BuildSystems.BuildSystem.StoreJSON` | src/bin/build-system.ts:33-40 | A value that stringifies to nothing throws "invalid json" and touches nothing. Otherwise the bytes sent to the backend are the UTF-8 encoding of the stringified value, and the answer is checked as in `storeContent`. Cached text gets its own hash without a send, and without interleaving a miss is sent and the reply is the answer. |
| `BuildSystems.BuildSystem.Build` | src/bin/build-system.ts:50-60 | A memoized result is returned without running anything. This is the corrected registry check from the Findings table: a name that is not a registered task throws "no such build task: …" and runs nothing, whereas the source lets inherited names such as `toString` through. A registered task goes through the memo's store and runs at most once per token. |
| `BuildUtils.StemExtension` | src/bin/task/build-utils.ts:16 | `/\.[^.]*$/` splits a key into a stem and an extension, which together give the key back. A key has no extension exactly when it has no `.`. The extension is the unique split whose suffix starts with `.` and contains no other `.`. |
| `BuildUtils.EntriesFail` | src/bin/task/build-utils.ts:9-20 | The walk over the keys succeeds exactly when every subtree transforms. On failure, the error is that of the first failing subtree in key order. |
| `BuildUtils.EntriesImage` | src/bin/task/build-utils.ts:11-18 | A key is written exactly when some property maps to it. The value is that of the last property mapping to it. |
| `BuildUtils.Transform` | src/bin/task/build-utils.ts:9-57 | The `rec` of the three extension transforms, chosen by a `Mode`: `removeExtensions` (lines 9-20), `swapExtensions` (lines 25-39, also `rec` at src/bin/resource.ts:28-42) and `copyExtensions` (lines 45-57). Subtrees are transformed recursively, and each leaf is written under its mode's key and value with `Object.assign` semantics. |
| `BuildUtils.TransformImage` | src/bin/task/build-utils.ts:25-39 | Every transform's result is an object with distinct keys. A key is present exactly when some source property maps to it, and it holds the value of the last such property. |
| `BuildUtils.TransformFails` | src/bin/resource.ts:28-42 | A transform throws exactly when `Object.keys` meets `null` or `undefined`, at the root or in a subtree. The error is then that TypeError. |
| `BuildUtils.RemoveKeepsValues` | src/bin/task/build-utils.ts:16 | `removeExtensions` writes a leaf's value unchanged under its stem when no later key has that stem. |
| `BuildUtils.SwapKeys` | src/bin/task/build-utils.ts:29-36 | `swapExtensions` keeps subtrees under their own keys and writes leaves under their stems. Leaves without an extension are dropped. |
| `BuildUtils.CopyKeepsKeys` | src/bin/task/build-utils.ts:45-57 | `copyExtensions` keeps every key in order. Each leaf's value becomes its text followed by the key's extension, and each subtree is transformed. |
| `BuildUtils.SwapIsCopyThenRemove` | src/bin/task/build-utils.ts:24-57 | On a tree whose leaves all have extensions, `swapExtensions` is `copyExtensions` followed by `removeExtensions`. |
| `BuildUtils.MergeTask` | src/bin/task/build-utils.ts:61-64 | `mergeJSON` hands `storeJSON` the `Object.assign` of the retrieved blocks, or the first retrieval error. |
| `BuildUtils.MergeLaterWins` | src/bin/task/build-utils.ts:61-64 | In `mergeJSON`, a key takes its value from the last block that has it, and every key of any block is present. |
| `BuildUtils.FlatKeys` | src/bin/task/build-utils.ts:63 | The merged keys are the union of the blocks' keys. |
| `BuildUtils.LastWriteAppend` | src/bin/task/build-utils.ts:63 | The later block's writes win over the earlier one's. |
| `BuildUtils.Gathered` | src/bin/task/build-utils.ts:62 | `Promise.all` gives all values in order exactly when every retrieval succeeds. Otherwise it gives the first error. |
| `BuildUtils.ConcatTask` | src/bin/task/build-utils.ts:3-6 | `concat` hands `storeContent` the concatenation of the retrieved blocks, or the first retrieval error. |
| `BuildUtils.ConcatInOrder` | src/bin/task/build-utils.ts:3-6 | `concat` places each block right after the blocks before it, in order and unchanged. |
| `BuildResource.SplitJoin` | src/bin/task/build-resource.ts:65 | Joining the pieces of `split('/')` with `/` gives the path back. |
| `BuildResource.JoinSplit` | src/bin/task/build-resource.ts:85 | Splitting a join of slash-free pieces gives the pieces back. |
| `BuildResource.SplitAppend` | src/bin/task/build-resource.ts:65 | Splitting `a/b` gives the pieces of `a` followed by those of `b`. |
| `BuildResource.SplitPieces` | src/bin/task/build-resource.ts:85 | No piece of a split contains a `/`. |
| `BuildResource.Walk` | src/bin/task/build-resource.ts:66-74 | The loop reaches the node the path names, skipping empty pieces. A missing piece fails with the given message, and a `k in dir` on a primitive throws. |
| `BuildResource.WalkedSegments` | src/bin/task/build-resource.ts:87-94 | The walk depends only on the non-empty pieces of the path. |
| `BuildResource.PathSlashes` | src/bin/task/build-resource.ts:65-74 | A leading slash, a trailing slash or a doubled slash in a path does not change the node reached. |
| `BuildResource.WalkArrayLength` | src/bin/task/build-resource.ts:66-74 | A path can end on an array's own `length`, and the walk then reaches the array's length as a number. |
| `BuildResource.WalkToArrayLength` | src/bin/task/build-resource.ts:85-94 | In the tree `{"a": ["x", "y"]}`, the path `a/length` reaches the number 2. |
| `BuildResource.Classify` | src/bin/task/build-resource.ts:125-139 | A spec is a file resource exactly when it has `file`, else a directory exactly when it has `dir`, then `func`, `table` and `json` in that order. A spec with none of them is "unrecognized resource: …". `in` on a primitive throws. |
| `BuildResource.Filter` | src/bin/task/build-resource.ts:98-108 | The filtered directory is the object built by assigning, in key order, the properties whose key matches the pattern. |
| `BuildResource.FilterKeeps` | src/bin/task/build-resource.ts:102-106 | A key is kept exactly when it is in the directory and matches the pattern. A kept key keeps its value. |
| `BuildResource.KeptSub` | src/bin/task/build-resource.ts:103-104 | Every kept property is a property of the directory whose key matches. |
| `BuildResource.KeptDistinct` | src/bin/task/build-resource.ts:99-107 | Keys of a directory stay distinct after filtering. |
| `BuildResource.FileResult` | src/bin/task/build-resource.ts:64-82 | A hash result is the non-empty string the walk reached. A reached node that is not a non-empty string fails with "invalid file name: …". |
| `BuildResource.DirResult` | src/bin/task/build-resource.ts:84-113 | Success needs a truthy, non-string node. A falsy or string node fails with "invalid directory name: …". |
| `BuildResource.TableAndJsonUndefined` | src/bin/task/build-resource.ts:132-135 | Table and inline JSON resources resolve to `undefined`. |
| `BuildResource.ArgsPositional` | src/bin/task/build-resource.ts:116 | Resolving the arguments gives each argument's own resolution in order, or the first failure. |
| `BuildResource.ProcessedAllFails` | src/bin/task/build-resource.ts:116 | Once a prefix of the arguments fails, the whole list fails with that error. |
| `BuildResource.Each` | src/bin/task/build-resource.ts:116 | `args.map(processResource)` resolves each argument on its own, position by position. |
| `BuildResource.ProcessFile` | src/bin/task/build-resource.ts:64-82 | The method computes `processFile` as specified by `FileResult`. |
| `BuildResource.FinishFile` | src/bin/task/build-resource.ts:75-81 | A non-empty string node is the answer, or the JSON it names. Any other node is an invalid file name. |
| `BuildResource.ProcessDirectory` | src/bin/task/build-resource.ts:84-113 | The method computes `processDirectory` as specified by `DirResult`. |
| `BuildResource.FinishDirectory` | src/bin/task/build-resource.ts:95-112 | An invalid node fails. Otherwise the node, filtered when a filter is given, is answered as JSON or stored and answered by its hash. |
| `BuildResource.FilterNode` | src/bin/task/build-resource.ts:98-108 | Without a filter the node is kept. A malformed pattern throws its SyntaxError. Otherwise the node is filtered. |
| `BuildResource.ProcessFunc` | src/bin/task/build-resource.ts:115-123 | The arguments are resolved, `build` is called with the build task name first, and its hash is answered, or the JSON it names. |
| `BuildResource.ProcessArgs` | src/bin/task/build-resource.ts:116 | The loop resolves the arguments in order and stops at the first error. |
| `BuildResource.ProcessResource` | src/bin/task/build-resource.ts:125-139 | The spec is dispatched on its kind, as `Classify` decides. |
| `BuildResource.BuildResource` | src/bin/task/build-resource.ts:55-141 | The directory tree and the spec are retrieved, the spec is resolved, and the result is stored. The first error propagates. |
| `Json.OwnProps` | src/bin/task/build-utils.ts:11 | `Object.keys` of an object lists its own properties. It throws exactly for `null` and `undefined`. |
| `Json.Member` | src/bin/task/build-resource.ts:69-72 | `k in dir` then `dir[k]` reads an object's property. On an array, `length` is found and reads the array's length. It throws exactly when `dir` is not an object or an array. |
| `Json.AssignAllGet` | src/bin/task/build-utils.ts:63 | After `Object.assign`, the keys are the union. A key takes the last assigned value, and keys stay distinct. |
| `ResourceTypes.InferType` | src/bin/resource.ts:8-26 | Strings, numbers and booleans give their `typeof` name, and `undefined` gives `never`. An array recurses without end. `null` throws in `Object.keys`. An object gives a `{…}` type. |
| `ResourceTypes.PropTypesAt` | src/bin/resource.ts:18-22 | The i-th member of an object type is `'key':type` for the i-th own property. |
| `ResourceTypes.PropTypesFail` | src/bin/resource.ts:19-21 | An object's type exists exactly when every property's type does. |
| `ResourceTypes.ShapeDecidesType` | src/bin/resource.ts:8-26 | The inferred type depends only on the value's shape: its kinds and keys, not its strings, numbers or booleans. |
| `ResourceTypes.BasenameOf` | src/bin/resource.ts:68 | `path.basename` of `dir/name/` with trailing slashes is `name`. |
| `ResourceTypes.IndexOfText` | src/bin/resource.ts:68 | The result is the first position where the pattern occurs, or -1 when it does not occur. |
| `ResourceTypes.RemoveFirstJson` | src/bin/resource.ts:68 | `replace('.json', '')` removes only the first occurrence of `.json`. |
| `ResourceTypes.UpperIdempotent` | src/bin/resource.ts:69 | Upper-casing twice is upper-casing once. |
| `ResourceTypes.UpperAppend` | src/bin/resource.ts:69 | Upper-casing works character by character. |
| `ResourceTypes.TypeName` | src/bin/resource.ts:68-69 | The name of a resource's generated constant always ends in `_RES`. It is `path.basename(name).replace('.json', '').toUpperCase()` followed by `_RES`. |
| `ResourceTypes.TypeNameShape` | src/bin/resource.ts:68-69 | The constant's name is the base name without `.json`, upper-cased, followed by `_RES`. It has no `/` and no lower-case ASCII letter, and upper-casing leaves it unchanged. |

## Left out

- Concurrency is modelled only by the `others` and `released` parameters. The interleaving of `Promise.all` and the semaphores' wake-up order are not modelled.
- `ContentServer.CachingContentServer.Store`: when other requests interleave, the contract states only the gate and the two possible answers, not which request won.
- `ContentServer.CachingContentServer.Retrieve`: when other requests interleave with a miss, a buffer answered without asking the backend is not tied to what those requests cached.
- `BuildSystems.BuildSystem.RetrieveContent`: when other requests interleave with a cache miss, only the error text is stated.
- `BuildSystems.BuildSystem.StoreContent`: when other requests interleave with a cache miss, the answer is either the content's hash or the backend's reply, and which one is not stated.
- The node pool is module-wide in the source. Here each cache owns its pool, because the model has no global state. `DEFAULT_CONTENT_CACHE` (capacity 500) is not modelled beyond the constant.
- `ipfsStore.ts` (HTTP calls, retries, pinning) is not part of this model. Its answers arrive as the `reply` parameter.
- SHA-256, SHA-1, base58, `JSON.parse`/`JSON.stringify`, mudb's `stringify`, UTF-8 and `RegExp` are opaque functions of the `Foreign` record. Their own behaviour is not modelled.
- Properties inherited through the prototype chain, other than the registry lookup, are not modelled. Neither are `__proto__` keys, or the rule that `Object.keys` lists integer-like keys first: keys are taken in insertion order.
- Numbers are integers. Floating point, `NaN` and numeric key formatting are not modelled.
- The texts of V8's own errors are the constants `NOT_AN_OBJECT`, `NO_MATCH` and the call errors, not V8's full messages.
- `toUpperCase` is modelled for ASCII only. Other letters are left unchanged.
- `path.basename` follows POSIX rules only.
- `ResourceTypes.InferType`: on an array the source recurses without end, and the model returns the stack-overflow error instead of diverging.
- `concat`, `mergeJSON`, `removeExtensions`, `swapExtensions` and `copyExtensions` are modelled up to the value they hand to `storeContent`/`storeJSON`. What they retrieved arrives as a parameter, and the hash they return is not composed with `BuildSystems.BuildSystem.StoreContent`/`StoreJSON`, because those take the backend's reply as a parameter too.
- The resolver's service calls (`retrieveJSON`, `storeJSON`, `build`) are functions of the `Services` record. Their effect on the caches is not modelled.
- A task name that is not a string is not modelled.
- `build.ts`, `upload.ts`, `test.js`, `config.ts`, `task-index.ts`, `type.ts` and the file I/O of `rebuildResources`/`buildResources` are not part of this model.
- The `console.log`/`console.error` output is not modelled.
- Two defensive branches that a sound cache never takes are not modelled: the null-value check in `getCache`, and the "Empty cache cannot be refresh" throw, since `refresh` only ever gets a listed node.

## Findings

| source | as written | input that shows it | evidently intended | confidence | as-written member | corrected member |
|---|---|---|---|---|---|---|
| src/content-solver/lru-buffer-cache.ts:155-157 | `purge` clears the index but not the recency list, which keeps its nodes and size | In a cache of capacity 3, put `a`, `b`, `c`, purge, then put `b` and `x`. The second put evicts the stale `b` node and deletes `b` from the index, though the new `b` node is still listed, so `getCache('b')` misses. | `purge` also purges the list, leaving an empty cache in which index and list agree | not executed | `LruSpec.PurgeStrandsEntry` | `LruBufferCache.LruContentCache.PurgeAll` |
| src/bin/build-system.ts:55-58 | `this.tasks[name]` looks the name up through the prototype chain, so inherited members pass the "no such build task" check | `build('toString')` with nothing memoized finds `Object.prototype.toString` and runs it as a task | only the registry's own tasks pass the check | not executed | `BuildSystems.InheritedNamePassesCheck` | `BuildSystems.BuildSystem.Build` |
