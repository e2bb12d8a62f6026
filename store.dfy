/**
 * The bookkeeping of store.go's Store, as a sequential state machine.
 *
 * The state is the durable inventory, the in-flight write buffer (inMem),
 * the sticky background-write error, and the optional cache with its mode
 * bitmask. Put registers an element in inMem; the background write that Put
 * starts is the separate step CompleteWrite, which records the identifier in
 * the inventory (and, with CacheOnPut, caches the element) or records the
 * error, and then drops the identifier from inMem. Disk reads in Get are a
 * parameter: the element loaded from disk, or the error loading it gave.
 */
module ElementStore {
  import opened Elements
  import opened Lru

  /** CacheMode flags: cache elements loaded from disk by Get / written by Put. */
  const CacheOnGet: int := 1
  const CacheOnPut: int := 2

  /**
   * mode & flag != 0 for a one-bit flag. On int, Dafny's division and modulus
   * by a power of two read two's-complement bits, negative modes included.
   */
  predicate HasFlag(mode: int, flag: int)
    requires flag == CacheOnGet || flag == CacheOnPut
  {
    (mode / flag) % 2 == 1
  }

  /**
   * HasFlag reads the bit of the 64-bit two's-complement representation of
   * a Go int: a negative mode and its unsigned image agree on every flag.
   */
  lemma HasFlagOfRepresentation(mode: int, flag: int)
    requires flag == CacheOnGet || flag == CacheOnPut
    requires -0x8000_0000_0000_0000 <= mode < 0
    ensures HasFlag(mode, flag) <==> HasFlag(mode + U64Limit, flag)
  {
    assert (mode + U64Limit) / flag == mode / flag + U64Limit / flag;
  }

  /** The abstract state of a Store: the cache is its LRU state, None when nil. */
  datatype StoreState = StoreState(
    inventory: set<ElementID>,
    inMem: map<ElementID, Element>,
    writeErr: Option<Error>,
    cache: Option<LruState>,
    mode: int)

  /**
   * What every reachable state satisfies: the cache keeps its own invariant,
   * each in-flight element is filed under its own identifier, and an
   * identifier is never both in flight and in the inventory.
   */
  ghost predicate Consistent(s: StoreState)
  {
    && (s.cache.Some? ==> Lru.Inv(s.cache.value))
    && (forall id :: id in s.inMem ==> s.inMem[id].id == id)
    && (forall id :: id in s.inMem ==> id !in s.inventory)
  }

  /** Store.Has: in flight, or else durably written. */
  predicate Present(s: StoreState, id: ElementID)
  {
    id in s.inMem || id in s.inventory
  }

  /** What the installed cache (if any) holds for id. */
  function CacheLookup(s: StoreState, id: ElementID): Option<Element>
  {
    if s.cache.Some? then Lookup(s.cache.value, id) else None
  }

  /**
   * Store.Get for the identifier id, with `loaded` standing for what reading
   * the element's file gives. Cache first, then the in-flight buffer, then the
   * inventory; only a successful disk read may change the state, by caching
   * the loaded element when CacheOnGet is set. A cache hit does not promote.
   */
  function GetStep(s: StoreState, id: ElementID, loaded: Result<Element>): (r: (Result<Element>, StoreState))
    requires Consistent(s)
    ensures Consistent(r.1)
    ensures r.1.inventory == s.inventory && r.1.inMem == s.inMem && r.1.writeErr == s.writeErr && r.1.mode == s.mode
    ensures r.0.Ok? ==> Present(s, id) || CacheLookup(s, id).Some?
    ensures !Present(s, id) && CacheLookup(s, id).None? ==> r.0 == Err(DoesNotExist)
  {
    if CacheLookup(s, id).Some? then (Ok(CacheLookup(s, id).value), s)
    else if id in s.inMem then (Ok(s.inMem[id]), s)
    else if id !in s.inventory then (Err(DoesNotExist), s)
    else if loaded.Err? then (Err(loaded.error), s)
    else if s.cache.Some? && HasFlag(s.mode, CacheOnGet) then
      CachedInv(s.cache.value, loaded.value);
      (Ok(loaded.value), s.(cache := Some(Cached(s.cache.value, loaded.value))))
    else (Ok(loaded.value), s)
  }

  /**
   * Store.Put: the sticky write error first, then the presence check, and
   * only then registration of the element in the in-flight buffer.
   */
  function PutStep(s: StoreState, el: Element): (r: (Option<Error>, StoreState))
    ensures r.0.None? <==> s.writeErr.None? && !Present(s, el.id)
    ensures r.0.Some? ==> r.1 == s
    ensures r.0.None? ==> r.1.inMem == s.inMem[el.id := el] && Present(r.1, el.id)
    ensures r.1.inventory == s.inventory && r.1.writeErr == s.writeErr && r.1.cache == s.cache
    ensures Consistent(s) ==> Consistent(r.1)
  {
    if s.writeErr.Some? then (s.writeErr, s)
    else if Present(s, el.id) then (Some(AlreadyExists), s)
    else (None, s.(inMem := s.inMem[el.id := el]))
  }

  /**
   * The end of the background write that Put starts for el, `failure` being
   * what writing the file gave. On success the identifier joins the inventory
   * and, with CacheOnPut, the element is cached; on failure the error becomes
   * the sticky write error. Either way the identifier leaves inMem last.
   */
  function CompleteStep(s: StoreState, el: Element, failure: Option<Error>): (r: StoreState)
    requires Consistent(s)
    ensures Consistent(r)
    ensures el.id !in r.inMem && r.mode == s.mode
    ensures failure.Some? ==> r.writeErr == failure && r.inventory == s.inventory && r.cache == s.cache
    ensures failure.None? ==> r.writeErr == s.writeErr && r.inventory == s.inventory + {el.id}
  {
    if failure.Some? then
      s.(writeErr := failure, inMem := s.inMem - {el.id})
    else
      var cache := if s.cache.Some? && HasFlag(s.mode, CacheOnPut) then CachedInv(s.cache.value, el); Some(Cached(s.cache.value, el)) else s.cache;
      s.(inventory := s.inventory + {el.id}, cache := cache, inMem := s.inMem - {el.id})
  }

  /** Store.SetCache: a plain assignment of the cache and its mode. */
  function SetCacheStep(s: StoreState, cache: Option<LruState>, mode: int): (r: StoreState)
    ensures r.inventory == s.inventory && r.inMem == s.inMem && r.writeErr == s.writeErr
    ensures Consistent(s) && (cache.Some? ==> Lru.Inv(cache.value)) ==> Consistent(r)
  {
    s.(cache := cache, mode := mode)
  }

  // ---------------------------------------------------------------------
  // Any interleaving of the store's operations.

  datatype Op =
    | PutOp(el: Element)
    | CompleteOp(done: Element, failure: Option<Error>)
    | GetOp(id: ElementID, loaded: Result<Element>)
    | SetCacheOp(cache: Option<LruState>, mode: int)

  ghost predicate OpOk(op: Op)
  {
    op.SetCacheOp? && op.cache.Some? ==> Lru.Inv(op.cache.value)
  }

  function Step(s: StoreState, op: Op): (r: StoreState)
    requires Consistent(s) && OpOk(op)
  {
    match op
    case PutOp(el) => PutStep(s, el).1
    case CompleteOp(el, failure) => CompleteStep(s, el, failure)
    case GetOp(id, loaded) => GetStep(s, id, loaded).1
    case SetCacheOp(cache, mode) => SetCacheStep(s, cache, mode)
  }

  /** Every operation keeps the state consistent. */
  lemma StepConsistent(s: StoreState, op: Op)
    requires Consistent(s) && OpOk(op)
    ensures Consistent(Step(s, op))
  {
    match op
    case PutOp(el) =>
    case CompleteOp(el, failure) =>
      if failure.None? && s.cache.Some? && HasFlag(s.mode, CacheOnPut) {
        CachedInv(s.cache.value, el);
      }
    case GetOp(id, loaded) =>
      if s.cache.Some? && loaded.Ok? {
        CachedInv(s.cache.value, loaded.value);
      }
    case SetCacheOp(cache, mode) =>
  }

  /** The state after the operations ops, in order. */
  function Run(s: StoreState, ops: seq<Op>): (r: StoreState)
    requires Consistent(s) && forall i :: 0 <= i < |ops| ==> OpOk(ops[i])
    ensures Consistent(r)
    decreases |ops|
  {
    if ops == [] then s
    else
      StepConsistent(s, ops[0]);
      Run(Step(s, ops[0]), ops[1..])
  }

  // ---------------------------------------------------------------------
  // Put.

  /**
   * Put reports the sticky write error before anything else; otherwise it
   * refuses a present identifier with AlreadyExists; otherwise it registers
   * id -> el in flight, returns no error and leaves the inventory alone.
   */
  lemma PutChecksInOrder(s: StoreState, el: Element)
    ensures s.writeErr.Some? ==> PutStep(s, el) == (s.writeErr, s)
    ensures s.writeErr.None? ==> (PutStep(s, el).0 == Some(AlreadyExists) <==> Present(s, el.id))
    ensures s.writeErr.None? && !Present(s, el.id) ==>
              PutStep(s, el).0 == None &&
              PutStep(s, el).1 == s.(inMem := s.inMem[el.id := el])
    ensures PutStep(s, el).1.inventory == s.inventory
  {
  }

  /** An identifier stays blocked for Put once it is present or a write has failed. */
  ghost predicate Blocked(s: StoreState, id: ElementID)
  {
    Present(s, id) || s.writeErr.Some?
  }

  lemma StepKeepsBlocked(s: StoreState, op: Op, id: ElementID)
    requires Consistent(s) && OpOk(op) && Blocked(s, id)
    ensures Blocked(Step(s, op), id)
  {
    match op
    case PutOp(el) =>
    case CompleteOp(el, failure) =>
      if failure.None? {
        assert id in Step(s, op).inventory || id in Step(s, op).inMem || s.writeErr.Some?;
      }
    case GetOp(i, loaded) =>
    case SetCacheOp(cache, mode) =>
  }

  lemma {:induction false} RunKeepsBlocked(s: StoreState, ops: seq<Op>, id: ElementID)
    requires Consistent(s) && (forall i :: 0 <= i < |ops| ==> OpOk(ops[i])) && Blocked(s, id)
    ensures Blocked(Run(s, ops), id)
    decreases |ops|
  {
    if ops != [] {
      StepKeepsBlocked(s, ops[0], id);
      StepConsistent(s, ops[0]);
      RunKeepsBlocked(Step(s, ops[0]), ops[1..], id);
    }
  }

  /**
   * At most one Put per identifier is accepted: once Put(el) returns no
   * error, every later Put of the same identifier fails, whatever operations
   * (completions that succeed or fail, Gets, cache changes) run in between.
   */
  lemma AtMostOneAccepted(s: StoreState, el: Element, ops: seq<Op>, again: Element)
    requires Consistent(s) && forall i :: 0 <= i < |ops| ==> OpOk(ops[i])
    requires PutStep(s, el).0 == None && again.id == el.id
    ensures Consistent(PutStep(s, el).1)
    ensures PutStep(Run(PutStep(s, el).1, ops), again).0.Some?
  {
    StepConsistent(s, PutOp(el));
    assert Step(s, PutOp(el)) == PutStep(s, el).1;
    RunKeepsBlocked(PutStep(s, el).1, ops, el.id);
  }

  /**
   * Two Puts of one identifier, one after the other: exactly one of them is
   * accepted and the other reports AlreadyExists (when no write has failed).
   */
  lemma DuplicatePutRejected(s: StoreState, first: Element, second: Element)
    requires s.writeErr.None? && first.id == second.id
    ensures !Present(s, first.id) ==>
              PutStep(s, first).0 == None && PutStep(PutStep(s, first).1, second).0 == Some(AlreadyExists)
    ensures Present(s, first.id) ==>
              PutStep(s, first).0 == Some(AlreadyExists) && PutStep(PutStep(s, first).1, second).0 == Some(AlreadyExists)
  {
  }

  /**
   * Put as the source writes it: the write-error check and Has run first,
   * each under its own lock, and the registration in inMem takes the lock
   * again afterwards, so two Puts can both pass the check before either
   * registers.
   */
  function PutCheck(s: StoreState, el: Element): (r: Option<Error>)
    ensures r.None? <==> s.writeErr.None? && !Present(s, el.id)
    ensures r.Some? ==> r == s.writeErr || r == Some(AlreadyExists)
  {
    if s.writeErr.Some? then s.writeErr
    else if Present(s, el.id) then Some(AlreadyExists)
    else None
  }

  function PutRegister(s: StoreState, el: Element): (r: StoreState)
    ensures Present(r, el.id) && el.id in r.inMem && r.inMem[el.id] == el
    ensures r.inventory == s.inventory && r.writeErr == s.writeErr && r.cache == s.cache
  {
    s.(inMem := s.inMem[el.id := el])
  }

  /**
   * The interleaving check(first), check(second), register(first),
   * register(second) accepts both Puts of one identifier, and the second
   * element silently replaces the first in flight (both writes then go to
   * the same file).
   */
  lemma RacingPutsBothAccepted(s: StoreState, first: Element, second: Element)
    requires s.writeErr.None? && first.id == second.id && !Present(s, first.id)
    ensures PutCheck(s, first) == None && PutCheck(s, second) == None
    ensures PutRegister(PutRegister(s, first), second).inMem[first.id] == second
  {
  }

  /** A concrete instance: two Puts of identifier 7 into an empty store. */
  lemma RacingPutsExample()
    ensures var s := StoreState({}, map[], None, None, 0);
      var a := Element(7, [1]);
      var b := Element(7, [2]);
      && PutCheck(s, a) == None && PutCheck(s, b) == None
      && PutStep(PutStep(s, a).1, b).0 == Some(AlreadyExists)
  {
  }

  /** Splitting Put at its lock boundary and running the halves back to back is the atomic PutStep. */
  lemma PutHalvesCompose(s: StoreState, el: Element)
    ensures PutStep(s, el) == (PutCheck(s, el), if PutCheck(s, el).None? then PutRegister(s, el) else s)
  {
  }

  lemma StepKeepsWriteError(s: StoreState, op: Op)
    requires Consistent(s) && OpOk(op) && s.writeErr.Some?
    ensures Step(s, op).writeErr.Some?
  {
  }

  /**
   * Once a background write has failed the store is write-locked: after any
   * further operations, Put returns the (latest) write error and changes
   * nothing.
   */
  lemma {:induction false} WriteErrorIsSticky(s: StoreState, ops: seq<Op>, el: Element)
    requires Consistent(s) && (forall i :: 0 <= i < |ops| ==> OpOk(ops[i])) && s.writeErr.Some?
    ensures Run(s, ops).writeErr.Some?
    ensures PutStep(Run(s, ops), el) == (Run(s, ops).writeErr, Run(s, ops))
    decreases |ops|
  {
    if ops != [] {
      StepKeepsWriteError(s, ops[0]);
      StepConsistent(s, ops[0]);
      WriteErrorIsSticky(Step(s, ops[0]), ops[1..], el);
    }
  }

  // ---------------------------------------------------------------------
  // Get.

  /** Get only ever changes the cache, and only by caching what it loaded from disk. */
  lemma GetChangesOnlyCache(s: StoreState, id: ElementID, loaded: Result<Element>)
    requires Consistent(s)
    ensures var (r, s') := GetStep(s, id, loaded);
      && s'.inventory == s.inventory && s'.inMem == s.inMem
      && s'.writeErr == s.writeErr && s'.mode == s.mode
      && (s' != s ==> s.cache.Some? && HasFlag(s.mode, CacheOnGet) && loaded.Ok? && r == loaded &&
                      s'.cache == Some(Cached(s.cache.value, loaded.value)))
  {
  }

  /** Get of an identifier that is neither cached nor present fails with DoesNotExist. */
  lemma GetAbsent(s: StoreState, id: ElementID, loaded: Result<Element>)
    requires Consistent(s) && CacheLookup(s, id).None? && !Present(s, id)
    ensures GetStep(s, id, loaded) == (Err(DoesNotExist), s)
  {
  }

  /**
   * Get answers from the cache, else from the in-flight buffer (without
   * reading disk), else reads disk exactly when the inventory has the id.
   */
  lemma GetResolution(s: StoreState, id: ElementID, loaded: Result<Element>)
    requires Consistent(s)
    ensures CacheLookup(s, id).Some? ==> GetStep(s, id, loaded).0 == Ok(CacheLookup(s, id).value)
    ensures CacheLookup(s, id).None? && id in s.inMem ==> GetStep(s, id, loaded).0 == Ok(s.inMem[id])
    ensures CacheLookup(s, id).None? && id !in s.inMem && id in s.inventory ==>
              GetStep(s, id, loaded).0 == loaded
    ensures GetStep(s, id, loaded).0.Ok? ==> Present(s, id) || CacheLookup(s, id).Some?
  {
  }

  /**
   * Put then Get before the write completes: unless the cache already holds
   * the identifier, Get returns the very element Put registered, whatever
   * the disk would give.
   */
  lemma PutThenGet(s: StoreState, el: Element, loaded: Result<Element>)
    requires Consistent(s) && PutStep(s, el).0 == None
    requires CacheLookup(s, el.id).None?
    ensures Consistent(PutStep(s, el).1)
    ensures GetStep(PutStep(s, el).1, el.id, loaded) == (Ok(el), PutStep(s, el).1)
  {
    StepConsistent(s, PutOp(el));
    assert Step(s, PutOp(el)) == PutStep(s, el).1;
  }

  /**
   * With CacheOnGet, an element Get loaded from disk is cached: the next Get
   * of that identifier is answered from the cache, without reading disk.
   */
  lemma GetCachesLoaded(s: StoreState, id: ElementID, loaded: Result<Element>, later: Result<Element>)
    requires Consistent(s) && s.cache.Some? && HasFlag(s.mode, CacheOnGet)
    requires CacheLookup(s, id).None? && id !in s.inMem && id in s.inventory
    requires loaded.Ok? && loaded.value.id == id
    ensures Consistent(GetStep(s, id, loaded).1)
    ensures GetStep(GetStep(s, id, loaded).1, id, later).0 == loaded
  {
    StepConsistent(s, GetOp(id, loaded));
  }

  /** Without CacheOnGet (or without a cache), Get leaves the state untouched. */
  lemma GetWithoutCacheOnGet(s: StoreState, id: ElementID, loaded: Result<Element>)
    requires Consistent(s) && (s.cache.None? || !HasFlag(s.mode, CacheOnGet))
    ensures GetStep(s, id, loaded).1 == s
  {
  }

  // ---------------------------------------------------------------------
  // Completion of a background write.

  /**
   * A successful write moves the identifier from the in-flight buffer into
   * the inventory, so it stays present throughout; with CacheOnPut the cache
   * then holds an element for it (el, unless it already held one).
   */
  lemma CompleteSuccess(s: StoreState, el: Element)
    requires Consistent(s) && el.id in s.inMem
    ensures var s' := CompleteStep(s, el, None);
      && s'.inventory == s.inventory + {el.id}
      && s'.inMem == s.inMem - {el.id}
      && s'.writeErr == s.writeErr
      && Present(s', el.id)
      && (s.cache.Some? && HasFlag(s.mode, CacheOnPut) ==>
            CacheLookup(s', el.id) == Some(if el.id in s.cache.value.entries then s.cache.value.entries[el.id] else el))
      && (s.cache.None? || !HasFlag(s.mode, CacheOnPut) ==> s'.cache == s.cache)
  {
  }

  /**
   * A failed write sets the sticky error and drops the identifier from the
   * in-flight buffer without adding it to the inventory: it is then absent.
   */
  lemma CompleteFailure(s: StoreState, el: Element, e: Error)
    requires Consistent(s) && el.id in s.inMem
    ensures var s' := CompleteStep(s, el, Some(e));
      && s'.writeErr == Some(e)
      && s'.inventory == s.inventory
      && s'.inMem == s.inMem - {el.id}
      && s'.cache == s.cache
      && !Present(s', el.id)
  {
  }

  // ---------------------------------------------------------------------
  // New: rebuilding the inventory from the files under the root.

  /**
   * One call of New's walk function: the entry's name, whether it is a
   * regular file, and the error the walk passed for it, if any.
   */
  datatype WalkEntry = WalkEntry(name: string, regular: bool, err: Option<Error>)

  /**
   * The inventory New builds from the walk: every regular file whose name
   * parses as an identifier is registered; the first entry that carries an
   * error stops the walk and New fails with that error.
   */
  function ScanWalk(walk: seq<WalkEntry>): (r: Result<set<ElementID>>)
    ensures r.Err? <==> exists i :: 0 <= i < |walk| && walk[i].err.Some?
    ensures r.Ok? ==> forall id :: id in r.value ==>
              exists i :: 0 <= i < |walk| && walk[i].regular && ParseUint36(walk[i].name) == Ok(id as nat)
    ensures r.Ok? ==> forall i :: 0 <= i < |walk| && walk[i].regular && ParseUint36(walk[i].name).Ok? ==>
              ParseUint36(walk[i].name).value in r.value
    decreases |walk|
  {
    if walk == [] then Ok({})
    else if walk[0].err.Some? then Err(walk[0].err.value)
    else
      match ScanWalk(walk[1..])
      case Err(e) => Err(e)
      case Ok(rest) =>
        var (id, err) := FromString(0, walk[0].name);
        Ok(if walk[0].regular && err.None? then {id} + rest else rest)
  }

  /**
   * Durability of the file layout: a walk that succeeds and meets the
   * regular file written for id registers id again.
   */
  lemma {:induction false} ScanFindsWrittenFile(walk: seq<WalkEntry>, id: ElementID, i: nat)
    requires i < |walk| && walk[i] == WalkEntry(String(id), true, None)
    requires ScanWalk(walk).Ok?
    ensures id in ScanWalk(walk).value
    decreases i
  {
    if i == 0 {
      StringRoundTrip(id, 0);
    } else {
      ScanFindsWrittenFile(walk[1..], id, i - 1);
    }
  }

  // ---------------------------------------------------------------------
  // The store object.

  class Store {
    var inventory: set<ElementID>
    var inMem: map<ElementID, Element>
    var writeErr: Option<Error>
    var cache: LruCache?
    var cacheMode: int

    ghost function State(): StoreState
      reads this, cache
    {
      StoreState(inventory, inMem, writeErr, if cache == null then None else Some(cache.State()), cacheMode)
    }

    ghost predicate Valid()
      reads this, cache
    {
      Consistent(State())
    }

    /** A store over a root whose walk found the identifiers in `inventory`. */
    constructor (inventory: set<ElementID>)
      ensures Valid() && State() == StoreState(inventory, map[], None, None, 0)
    {
      this.inventory := inventory;
      inMem := map[];
      writeErr := None;
      cache := null;
      cacheMode := 0;
    }

    method SetCache(c: LruCache?, mode: int)
      requires Valid() && (c != null ==> c.Valid())
      modifies this
      ensures Valid() && cache == c
      ensures State() == SetCacheStep(old(State()), if c == null then None else Some(c.State()), mode)
    {
      cache := c;
      cacheMode := mode;
    }

    /** In flight (checked first) or durably written. */
    function Has(id: ElementID): (r: bool)
      reads this
      ensures r <==> id in inMem || id in inventory
    {
      if id in inMem then true else id in inventory
    }

    method Get(element: Element, loaded: Result<Element>) returns (r: Result<Element>)
      requires Valid()
      modifies cache
      ensures Valid()
      ensures (r, State()) == GetStep(old(State()), element.id, loaded)
    {
      var id := element.id;
      if cache != null {
        var el := cache.Get(id);
        if el.Some? {
          return Ok(el.value);
        }
      }
      if id in inMem {
        return Ok(inMem[id]);
      }
      if id !in inventory {
        return Err(DoesNotExist);
      }
      if loaded.Err? {
        return Err(loaded.error);
      }
      if cache != null && HasFlag(cacheMode, CacheOnGet) {
        CachedInv(cache.State(), loaded.value);
        cache.Cache(loaded.value);
      }
      return Ok(loaded.value);
    }

    method Put(el: Element) returns (err: Option<Error>)
      requires Valid()
      modifies this
      ensures Valid() && cache == old(cache)
      ensures (err, State()) == PutStep(old(State()), el)
    {
      if writeErr.Some? {
        return writeErr;
      }
      var id := el.id;
      if Has(id) {
        return Some(AlreadyExists);
      }
      inMem := inMem[id := el];
      return None;
    }

    /** The body of the goroutine Put starts for el, once its file write returned `failure`. */
    method CompleteWrite(el: Element, failure: Option<Error>)
      requires Valid() && el.id in inMem && inMem[el.id] == el
      modifies this, cache
      ensures Valid() && cache == old(cache)
      ensures State() == CompleteStep(old(State()), el, failure)
    {
      var id := el.id;
      if failure.Some? {
        writeErr := failure;
      } else {
        inventory := inventory + {id};
        if cache != null && HasFlag(cacheMode, CacheOnPut) {
          CachedInv(cache.State(), el);
          cache.Cache(el);
        }
      }
      inMem := inMem - {id};
    }
  }

  /** New over a root whose walk visits `walk`: the directory scan rebuilds the inventory. */
  method New(walk: seq<WalkEntry>) returns (s: Store?, err: Option<Error>)
    ensures ScanWalk(walk).Err? ==> s == null && err == Some(ScanWalk(walk).error)
    ensures ScanWalk(walk).Ok? ==>
              (err == None && s != null && fresh(s) && s.Valid() &&
               s.State() == StoreState(ScanWalk(walk).value, map[], None, None, 0))
  {
    var scanned := ScanWalk(walk);
    if scanned.Err? {
      return null, Some(scanned.error);
    }
    s := new Store(scanned.value);
    err := None;
  }

  /**
   * A store with a cache of capacity 1 and both cache modes: after Put of A,
   * B and C and the completion of their writes in the order A, B, C, only C
   * is cached, so Get(A) is answered by the disk read and Get(C) by the
   * cache. The background writes may finish in any order; this is one of
   * those orders.
   */
  method CapacityOneScenario()
  {
    var a := Element(1, [1]);
    var b := Element(2, [2]);
    var c := Element(3, [3]);
    var s := new Store({});
    var lru := new LruCache(1);
    s.SetCache(lru, CacheOnGet + CacheOnPut);
    PutThree(s, a, b, c);
    CompleteThree(s, lru, a, b, c);
    ReadBack(s, lru, a, c);
  }

  /**
   * Get(C) is answered by the cache, even though a disk read would fail;
   * Get(A) misses the cache and returns what the disk read gives, and with
   * CacheOnGet it caches A, evicting C, so a second Get(C) reads the disk.
   */
  method ReadBack(s: Store, lru: LruCache, a: Element, c: Element)
    requires s.Valid() && s.cache == lru && lru.size == 1 && lru.l == [3] && lru.m == map[3 := c]
    requires HasFlag(s.cacheMode, CacheOnGet)
    requires a.id == 1 && c.id == 3 && s.inventory == {1, 2, 3} && s.inMem == map[]
    modifies lru
  {
    var r := s.Get(Element(3, []), Err(Io(2)));
    assert r == Ok(c);
    r := s.Get(Element(1, []), Ok(a));
    assert r == Ok(a) && lru.l == [1];
    r := s.Get(Element(3, []), Err(Io(2)));
    assert r == Err(Io(2));
  }

  /** The three Puts of the scenario into an empty store are all accepted. */
  method PutThree(s: Store, a: Element, b: Element, c: Element)
    requires s.Valid() && s.inventory == {} && s.inMem == map[] && s.writeErr == None
    requires a.id == 1 && b.id == 2 && c.id == 3
    modifies s
    ensures s.Valid() && s.cache == old(s.cache) && s.cacheMode == old(s.cacheMode) && s.writeErr == None
    ensures s.inventory == {} && s.inMem == map[1 := a, 2 := b, 3 := c]
  {
    var e := s.Put(a);
    assert e == None;
    e := s.Put(b);
    assert e == None;
    e := s.Put(c);
    assert e == None;
  }

  /** Sync of the scenario: the three background writes succeed in the order A, B, C. */
  method CompleteThree(s: Store, lru: LruCache, a: Element, b: Element, c: Element)
    requires s.Valid() && s.cache == lru && lru.size == 1 && lru.l == [] && s.cacheMode == CacheOnGet + CacheOnPut
    requires a.id == 1 && b.id == 2 && c.id == 3
    requires s.inventory == {} && s.inMem == map[1 := a, 2 := b, 3 := c] && s.writeErr == None
    modifies s, lru
    ensures s.Valid() && s.cache == lru && s.cacheMode == old(s.cacheMode) && s.writeErr == None
    ensures s.inventory == {1, 2, 3} && s.inMem == map[] && lru.l == [3] && lru.m == map[3 := c]
  {
    CompleteIntoUnitCache(s, lru, a);
    CompleteIntoUnitCache(s, lru, b);
    CompleteIntoUnitCache(s, lru, c);
  }

  /** A successful write of el into a store whose CacheOnPut cache has room for one element. */
  method CompleteIntoUnitCache(s: Store, lru: LruCache, el: Element)
    requires s.Valid() && s.cache == lru && lru.size == 1 && HasFlag(s.cacheMode, CacheOnPut)
    requires el.id in s.inMem && s.inMem[el.id] == el && el.id !in lru.l
    modifies s, lru
    ensures s.Valid() && s.cache == lru && s.cacheMode == old(s.cacheMode) && s.writeErr == old(s.writeErr)
    ensures s.inventory == old(s.inventory) + {el.id} && s.inMem == old(s.inMem) - {el.id}
    ensures lru.l == [el.id] && lru.m == map[el.id := el]
  {
    s.CompleteWrite(el, None);
  }
}
