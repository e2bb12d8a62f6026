# store: a verified model of a file-backed element store

`store` (Go package, file `store.go`) persists opaque elements, each named by
a 64-bit `ElementID`, as one file per element below a root directory. The
file name is the identifier in base 36 and the directory is its first two
characters, or its only character for identifiers below 36. Writes are asynchronous: `Put` registers the element in an
in-memory buffer (`inMem`) and starts a background write. A successful write
adds the identifier to the `inventory`. A failed one sets a sticky `writeErr`
that every later `Put` returns. An optional LRU cache (`LRUCache`) can be
installed with `SetCache`. It is filled on `Get` (`CacheOnGet`) and/or on a
successful write (`CacheOnPut`).

This project models three parts in Dafny:

- `elements.dfy`, module `Elements`: identifiers and their text form.
  - `ElementID.String` is `strconv.FormatUint(id, 36)`, written as a
    recursive function over digits.
  - `ElementID.FromString` is `strconv.ParseUint(s, 36, 64)`, including both
    overflow guards and the rule that the first bad character or overflow
    wins.
  - The directory fan-out `eldir`.
- `lru.dfy`, module `Lru`: the LRU cache.
  - An `LruCache` class. The `container/list` is a sequence of identifiers,
    front first, and the map holds what each node stores.
  - A pure `LruState` specification with the representation invariant.
  - The insert, promote and evict rules, and the nil-cache behaviour.
  - A theorem that the cache always holds the `size` most recently cached
    distinct identifiers, most recent first.
- `store.dfy`, module `ElementStore`: the store's bookkeeping.
  - A sequential state machine (`StoreState`) and a `Store` class whose
    methods are proved equal to it step by step.
  - The background write becomes the explicit step `CompleteWrite(el,
    failure)`. The file written is an input, and so is what the disk read in
    `Get` returns (`loaded`).
  - `New` rebuilds the inventory from a directory walk, given as a list of
    walk entries.

The three scenario methods at the end of `lru.dfy` replay the package's
cache tests on the class. `CapacityOneScenario` in `store.dfy` is not a
replay of a package test. It takes the store configuration of the test
`testPut` (store_test.go:230-271), both cache modes, with a one-element
cache, and reads C, A, C, whereas `testPut` reads 1, 2, 3. `Put(A)`,
`Put(B)` and `Put(C)` start three background writes, which may finish in
any order; the scenario completes them in the order A, B, C. Then only C
is cached, so `Get(C)` is a cache hit and `Get(A)` comes from disk. Because
`CacheOnGet` then caches A, C is evicted, and the second `Get(C)` reads the
disk. Had A's write completed last, A would be the cached element and
`Get(A)` a cache hit.

`LRUCache.Cache` of an identifier that is already cached keeps the element
the node already held. So `Get` after `Cache(el)` returns `el` only when the
identifier was new; `Lru.Cached` states exactly that.

## Model

| member | source | states |
|---|---|---|
| Elements.DigitValue | store.go:36-43 | a character is a base-36 digit exactly when it is a decimal digit or a letter of either case, and its value is below 36 |
| Elements.FormatBase36 | store.go:32-34 | the text form is never empty, consists of lower-case base-36 digits, starts with '0' only for 0, and is one character long exactly for values below 36 |
| Elements.FormatValue | store.go:32-34 | the digits FormatUint writes denote the formatted number |
| Elements.ParseDigits | store.go:36-43 | the digit loop yields only values that fit in 64 bits and fails only with a syntax or range error |
| Elements.ParseDigitsValue | store.go:36-43 | reading digits yields the value they denote when it fits in 64 bits and a range error otherwise |
| Elements.ParseDigitsRejects | store.go:36-43 | any character that is not a base-36 digit makes parsing fail |
| Elements.ParseUint36Meaning | store.go:36-43 | parsing succeeds exactly on non-empty digit strings whose value fits in 64 bits, and yields that value; empty input is a syntax error; too large a value is a range error |
| Elements.FromString | store.go:36-43 | on error the receiver keeps its old value and the error is a syntax or range error |
| Elements.StringRoundTrip | store.go:32-43 | FromString of id.String() succeeds and yields id, whatever the receiver held |
| Elements.FromStringRejects | store.go:36-43 | empty, non-base-36 or out-of-range text is rejected and leaves the receiver unchanged |
| Elements.String | store.go:32-34 | the text form of an identifier is non-empty, made only of lower-case base-36 digits, and denotes the identifier |
| Elements.ParseUint36 | store.go:37 | a parse result fits in 64 bits; errors are only syntax or range errors; empty text is a syntax error |
| Elements.ElementFile | store.go:245-250 | an element's file is named by its text form and sits in the directory made of that form's first min(2, len) characters |
| Elements.ElDir | store.go:234-246 | the element directory is the first min(2, len) characters of the text form, one character exactly for identifiers below 36; the panic branch is unreachable |
| Elements.DistinctFiles | store.go:234-246 | distinct identifiers get distinct (directory, file name) pairs |
| Lru.Cached | store.go:118-138 | after Cache(el) the identifier is at the front and Get returns the element already held for it, or el when it was absent; capacity unchanged |
| Lru.CachedInv | store.go:123-137 | Cache preserves the invariant: positive capacity never exceeded, no identifier twice in the list, map keys exactly the list's identifiers, each node holding its key's element |
| Lru.CachedPromotes | store.go:123-125 | caching a present identifier moves it to the front, keeps the stored element, keeps the count and the relative order of the others |
| Lru.CachedInserts | store.go:127-129 | caching an absent identifier with room pushes it on the front and adds one map entry |
| Lru.CachedEvicts | store.go:130-137 | caching an absent identifier into a full cache removes exactly the back identifier, keeps every other entry with its element, puts the new one in front and keeps the count at capacity |
| Lru.CachedFollowsRecency | store.go:118-138 | one Cache call keeps the list equal to the first `size` entries of the recency order, with the cached identifier moved to the front |
| Lru.ReplayKeepsMostRecent | store.go:89-138 | after any sequence of Cache calls on a new cache, the list is the `size` most recently cached distinct identifiers, most recent first |
| Lru.Lookup | store.go:152-157 | on a valid cache, a lookup finds an element exactly for identifiers in the list, and the element found carries that identifier |
| Lru.LruCache.constructor | store.go:82-86 | a new cache is empty, has the given positive capacity and satisfies the invariant |
| Lru.LruCache.Cache | store.go:118-138 | the in-place update (MoveToFront, PushFront, or reuse of the back node) produces exactly the specified state and keeps the invariant |
| Lru.LruCache.Get | store.go:143-158 | Get finds an element exactly for identifiers in the list, returns the one held under that identifier, and cannot change the cache |
| Lru.NewLruCache | store.go:77-87 | a size of zero or less gives a nil cache; a positive size gives a fresh empty valid cache |
| Lru.NilSafeCache | store.go:114-116 | Cache on a nil cache does nothing; on a cache it performs the specified update |
| Lru.NilSafeGet | store.go:145-147 | Get on a nil cache returns nothing |
| Lru.PromoteBack | store_test.go:78-84 | caching again the back identifier of a full two-element cache moves it to the front and keeps its element |
| ElementStore.HasFlagOfRepresentation | store.go:299 | the cache-mode flag test (`HasFlag`, also used at store.go:359) reads a bit of the 64-bit representation: a negative mode and its unsigned image agree on both flags |
| ElementStore.GetStep | store.go:267-305 | Get keeps the store consistent and changes neither inventory, inMem, write error nor mode; it succeeds only for a cached or present identifier and returns DoesNotExist when the identifier is neither |
| ElementStore.PutStep | store.go:326-341 | Put is accepted exactly when there is no write error and the identifier is absent; a rejected Put changes nothing; an accepted one files the element in inMem under its identifier; inventory, error and cache are never touched; consistency is kept |
| ElementStore.PutCheck | store.go:328-335 | Put's checks pass exactly when there is no write error and the identifier is absent, and a failure is the write error or AlreadyExists |
| ElementStore.PutRegister | store.go:337-339 | registration makes the identifier present with the element in inMem, leaving inventory, error and cache alone |
| ElementStore.CompleteStep | store.go:343-362 | the completion keeps the store consistent and always drops the identifier from inMem; a failure records the error and leaves inventory and cache alone; a success adds the identifier to the inventory and keeps the previous error |
| ElementStore.SetCacheStep | store.go:213-216 | SetCache leaves inventory, inMem and the write error alone, and keeps the store consistent when the new cache is valid |
| ElementStore.Run | store.go:169-183 | every sequence of Put, completion, Get and SetCache steps keeps the store consistent: cache invariant, in-flight elements filed under their own identifiers, nothing both in flight and in the inventory |
| ElementStore.StepConsistent | store.go:169-183 | each single step keeps the store consistent |
| ElementStore.PutChecksInOrder | store.go:326-341 | Put returns the sticky write error first; otherwise AlreadyExists exactly when the identifier is present; otherwise registers it in inMem, returns nil and leaves the inventory unchanged |
| ElementStore.DuplicatePutRejected | store.go:326-339 | of two successive Puts of a new identifier the first is accepted and the second gets AlreadyExists; of an identifier already present, both get AlreadyExists |
| ElementStore.StepKeepsBlocked | store.go:326-366 | once an identifier is present or a write has failed, no step unblocks it for Put |
| ElementStore.RunKeepsBlocked | store.go:326-366 | the same holds across any sequence of steps |
| ElementStore.AtMostOneAccepted | store.go:326-366 | after Put(el) is accepted, every later Put of that identifier fails, whatever happens in between |
| ElementStore.PutHalvesCompose | store.go:326-339 | the presence check followed by the registration, run back to back, is the atomic Put step |
| ElementStore.RacingPutsBothAccepted | store.go:333-339 | with the check and the registration interleaved, two Puts of one new identifier both pass the check, and the second element replaces the first in flight |
| ElementStore.RacingPutsExample | store.go:333-339 | the interleaving above, for identifier 7 in an empty store, accepts both Puts while the atomic step rejects the second |
| ElementStore.StepKeepsWriteError | store.go:352-353 | no step clears the sticky write error |
| ElementStore.WriteErrorIsSticky | store.go:328-330 | once a write has failed, after any further steps Put returns the write error and changes nothing |
| ElementStore.GetChangesOnlyCache | store.go:267-305 | Get never changes the inventory, inMem, the write error or the mode; it changes the cache only by caching a successful disk load under CacheOnGet |
| ElementStore.GetAbsent | store.go:287-292 | Get of an identifier that is neither cached nor present returns DoesNotExist |
| ElementStore.GetResolution | store.go:267-303 | Get answers from the cache first, then from inMem, then from the disk read when the inventory has the identifier; a successful Get implies the identifier was cached or present |
| ElementStore.PutThenGet | store.go:275-280 | Get right after an accepted Put returns the registered element whatever the disk holds, unless the cache already held the identifier |
| ElementStore.GetCachesLoaded | store.go:299-301 | with CacheOnGet, an element loaded from disk is cached, so the next Get of it is answered without the disk |
| ElementStore.GetWithoutCacheOnGet | store.go:299-301 | without a cache or without CacheOnGet, Get leaves the state unchanged |
| ElementStore.CompleteSuccess | store.go:343-362 | a successful write moves the identifier from inMem to the inventory, so it stays present; with CacheOnPut the cache then holds an element for it |
| ElementStore.CompleteFailure | store.go:346-353 | a failed write sets the sticky error, drops the identifier from inMem, leaves the inventory and cache alone; the identifier is then absent |
| ElementStore.ScanWalk | store.go:193-208 | New's walk fails exactly when some visited entry carries an error; on success an identifier is registered exactly when some regular file's name parses to it |
| ElementStore.ScanFindsWrittenFile | store.go:193-208 | a successful walk that meets the regular file named id.String() registers id again |
| ElementStore.New | store.go:185-211 | New returns the walk's first error, or a fresh consistent store whose inventory is what the walk found, with nothing in flight, no error and no cache |
| ElementStore.Store.constructor | store.go:186-190 | a new store has the given inventory, empty inMem, no write error and no cache |
| ElementStore.Store.SetCache | store.go:213-216 | SetCache replaces the cache and mode and nothing else |
| ElementStore.Store.Has | store.go:218-232 | Has holds exactly when the identifier is in inMem or in the inventory |
| ElementStore.Store.Get | store.go:267-305 | the object's Get returns and leaves behind exactly what the Get step specifies, and keeps the store consistent |
| ElementStore.Store.Put | store.go:326-341 | the object's Put returns and leaves behind exactly what the Put step specifies, and keeps the store consistent |
| ElementStore.Store.CompleteWrite | store.go:343-362 | the object's write completion leaves exactly the state the completion step specifies and keeps the store consistent |
| ElementStore.PutThree | store.go:326-341 | three Puts of distinct new identifiers into an empty store are all accepted and all sit in inMem |
| ElementStore.CompleteIntoUnitCache | store.go:355-361 | with CacheOnPut and a one-element cache, a completed write leaves only that element cached |
| ElementStore.CompleteThree | store.go:343-362 | completing the three writes leaves them all in the inventory, inMem empty, and only the last one cached |

## Findings

| source | as written | input that shows it | evidently intended | confidence | as-written member | corrected member |
|---|---|---|---|---|---|---|
| store.go:333-339 | Put calls Has and then registers the element in inMem under separate locks, so the check and the insertion are not one atomic step | two concurrent Puts of identifier 7 into an empty store, both checks before either registration: both return nil and both write the same file | exactly one of two concurrent Puts of one identifier succeeds and the other gets AlreadyExists (store_test.go:197-227) | medium, not executed | ElementStore.RacingPutsBothAccepted | ElementStore.DuplicatePutRejected |

The rest of the model uses the atomic Put (`PutStep`, `Store.Put`).
`AtMostOneAccepted` extends the corrected property to any sequence of later
steps.

## Left out

- Concurrency is not modelled. This covers the mutexes, the goroutine per Put, the `WaitGroup`, `Sync` and `Remove`. The model is sequential: the background write is one explicit `CompleteWrite` step. The unlocked write of `writeErr` (store.go:353) and the race of two failing writes over it are not modelled.
- Filesystem I/O is not modelled.
  - The file read by `get` becomes the `loaded` parameter of `Get`. The write by `put` becomes the `failure` parameter of `CompleteWrite`.
  - `New`'s `filepath.Walk` becomes a list of `WalkEntry` values.
  - The ignored `MkdirAll` result in `New` (store.go:192) has no effect in the model.
  - `put` opens files without `O_EXCL`, so the model has no rule against overwriting.
- Path handling is left out. `filepath.Clean` and `filepath.Join` are not modelled. `ElDir` returns the directory name below the root, not the joined path.
- Element serialization (`Load`, `Store`) and the JSON test element are left out. An element is an identifier plus uninterpreted bytes. Go's `Get` loads into the element passed in and returns it; the model returns the loaded element.
- A nil `Element` passed to `LRUCache.Cache` is not modelled. Elements here are values and are never nil.
- `Store.Has` checks `inMem` before the inventory. That order only matters while a write completes concurrently, so it is not observable in the sequential model.
- The Go distinction between a nil `Cache` interface and a typed nil `*LRUCache` inside it is collapsed to a null cache. Both make `Get` miss and `Cache` do nothing.
- Elements are immutable values. In Go the store shares element pointers: `inMem` holds the caller's element (store.go:338), the cache keeps it (store.go:128, 134), `Get` returns the held element (store.go:157, 279), and a disk read loads into the caller's element and caches that very object (store.go:294, 300). The model assumes callers never change an element, or its identifier, after `Put`, `Cache` or `Get`. A changed identifier would make `delete(l.m, listVal.ID())` (store.go:133) remove the wrong map entry and break the rule that each cache node holds an element filed under its own identifier.
- The store's cache is always the package's `LRUCache` (or none). Go's `Cache` interface (store.go:60-66) lets `SetCache` install any implementation (store.go:172, 213); other implementations are not modelled. `GetCachesLoaded` and the cache clause of `CompleteSuccess` rely on the LRU behaviour.
