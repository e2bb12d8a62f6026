/**
 * LRUCache of store.go: a fixed-capacity cache made of a recency list
 * (container/list, front = most recently cached) and a map from identifier
 * to list node. Here the list is the sequence of identifiers it holds, front
 * first, and the map takes each identifier to the element its node holds.
 *
 * Only Cache changes recency: Get never promotes.
 */
module Lru {
  import opened Elements

  /** The abstract value of an LRUCache: list order, node values, capacity. */
  datatype LruState = LruState(order: seq<ElementID>, entries: map<ElementID, Element>, size: int)

  ghost predicate Distinct(s: seq<ElementID>)
  {
    forall i, j :: 0 <= i < j < |s| ==> s[i] != s[j]
  }

  /**
   * The representation invariant: a positive capacity that the list never
   * exceeds, no identifier twice in the list, the map's keys exactly the
   * list's identifiers, and every node holding an element of its own key.
   */
  ghost predicate Inv(c: LruState)
  {
    && c.size > 0
    && |c.order| <= c.size
    && Distinct(c.order)
    && (forall id :: id in c.entries <==> id in c.order)
    && (forall id :: id in c.entries ==> c.entries[id].id == id)
  }

  /** The list with the node for x unlinked. */
  function Without(s: seq<ElementID>, x: ElementID): (r: seq<ElementID>)
    ensures forall y :: y in r <==> y in s && y != x
    ensures x !in s ==> r == s
    ensures |r| <= |s|
  {
    if s == [] then []
    else if s[0] == x then Without(s[1..], x)
    else [s[0]] + Without(s[1..], x)
  }

  /** The first n entries of s (all of s when it is shorter). */
  function Take(s: seq<ElementID>, n: nat): (r: seq<ElementID>)
    ensures |r| == Min(n, |s|)
    ensures r <= s
  {
    if n == 0 || s == [] then [] else [s[0]] + Take(s[1..], n - 1)
  }

  /** LRUCache.Get on a non-nil cache: the element held for id, if any. */
  function Lookup(c: LruState, id: ElementID): (r: Option<Element>)
    ensures Inv(c) ==> (r.Some? <==> id in c.order)
    ensures Inv(c) && r.Some? ==> r.value.id == id
  {
    if id in c.entries then Some(c.entries[id]) else None
  }

  /**
   * LRUCache.Cache on a non-nil cache. A present identifier is moved to the
   * front and its node keeps the element it held. An absent one is pushed on
   * the front while the map holds fewer than `size` entries; otherwise the
   * back node's element is deleted from the map and the node is reused for
   * the new element and moved to the front.
   */
  function Cached(c: LruState, el: Element): (r: LruState)
    requires Inv(c)
    ensures r.size == c.size && r.order != [] && r.order[0] == el.id
    ensures Lookup(r, el.id) == Some(if el.id in c.entries then c.entries[el.id] else el)
  {
    var id := el.id;
    if id in c.entries then
      c.(order := [id] + Without(c.order, id))
    else if |c.entries| < c.size then
      c.(order := [id] + c.order, entries := c.entries[id := el])
    else
      EntriesCount(c);
      var back := c.order[|c.order| - 1];
      var evicted := c.entries[back].id;
      c.(order := [id] + c.order[..|c.order| - 1], entries := (c.entries - {evicted})[id := el])
  }

  // ---------------------------------------------------------------------
  // Sequence facts.

  lemma {:induction false} DistinctCard(s: seq<ElementID>)
    requires Distinct(s)
    ensures |set x: ElementID | x in s| == |s|
  {
    if s != [] {
      assert Distinct(s[1..]) by {
        forall i, j | 0 <= i < j < |s[1..]| ensures s[1..][i] != s[1..][j] {
          assert s[1..][i] == s[i + 1] && s[1..][j] == s[j + 1];
        }
      }
      DistinctCard(s[1..]);
      var rest := set x: ElementID | x in s[1..];
      assert s[0] !in rest by {
        forall i | 0 <= i < |s[1..]| ensures s[1..][i] != s[0] { assert s[1..][i] == s[i + 1]; }
      }
      assert (set x: ElementID | x in s) == {s[0]} + rest;
      assert |{s[0]} + rest| == |rest| + 1;
    } else {
      assert (set x: ElementID | x in s) == {};
    }
  }

  /** The map holds exactly as many entries as the list has nodes. */
  lemma EntriesCount(c: LruState)
    requires Inv(c)
    ensures |c.entries| == |c.order|
  {
    DistinctCard(c.order);
    assert c.entries.Keys == set x: ElementID | x in c.order;
  }

  lemma {:induction false} WithoutDistinct(s: seq<ElementID>, x: ElementID)
    requires Distinct(s)
    ensures Distinct(Without(s, x))
    ensures x in s ==> |Without(s, x)| == |s| - 1
  {
    if s != [] {
      assert Distinct(s[1..]) by {
        forall i, j | 0 <= i < j < |s[1..]| ensures s[1..][i] != s[1..][j] {
          assert s[1..][i] == s[i + 1] && s[1..][j] == s[j + 1];
        }
      }
      WithoutDistinct(s[1..], x);
      if s[0] != x {
        var w := Without(s[1..], x);
        assert s[0] !in w;
        assert Distinct([s[0]] + w) by {
          forall i, j | 0 <= i < j < |[s[0]] + w| ensures ([s[0]] + w)[i] != ([s[0]] + w)[j] {
            if i > 0 {
              assert ([s[0]] + w)[i] == w[i - 1] && ([s[0]] + w)[j] == w[j - 1];
            } else {
              assert ([s[0]] + w)[j] in w;
            }
          }
        }
      } else {
        assert x !in s[1..];
      }
    }
  }

  lemma DistinctCons(x: ElementID, s: seq<ElementID>)
    requires Distinct(s) && x !in s
    ensures Distinct([x] + s)
  {
    forall i, j | 0 <= i < j < |[x] + s| ensures ([x] + s)[i] != ([x] + s)[j] {
      if i > 0 {
        assert ([x] + s)[i] == s[i - 1] && ([x] + s)[j] == s[j - 1];
      } else {
        assert ([x] + s)[j] in s;
      }
    }
  }

  // ---------------------------------------------------------------------
  // What one call of Cache does.

  /** Cache keeps the representation invariant. */
  lemma CachedInv(c: LruState, el: Element)
    requires Inv(c)
    ensures Inv(Cached(c, el))
  {
    var id := el.id;
    var r := Cached(c, el);
    EntriesCount(c);
    if id in c.entries {
      WithoutDistinct(c.order, id);
      assert id !in Without(c.order, id);
      DistinctCons(id, Without(c.order, id));
    } else if |c.entries| < c.size {
      DistinctCons(id, c.order);
    } else {
      var n := |c.order|;
      var back := c.order[n - 1];
      var prefix := c.order[..n - 1];
      assert back !in prefix by {
        forall i | 0 <= i < n - 1 ensures prefix[i] != back {
          assert prefix[i] == c.order[i];
        }
      }
      assert Distinct(prefix) by {
        forall i, j | 0 <= i < j < |prefix| ensures prefix[i] != prefix[j] {
          assert prefix[i] == c.order[i] && prefix[j] == c.order[j];
        }
      }
      assert forall y :: y in c.order <==> y in prefix || y == back by {
        assert c.order == prefix + [back];
      }
      DistinctCons(id, prefix);
    }
  }

  /**
   * Caching an identifier that is present moves it to the front: nothing is
   * added or evicted, the stored element is kept (not replaced by el), and
   * the other identifiers keep their relative order.
   */
  lemma CachedPromotes(c: LruState, el: Element)
    requires Inv(c) && el.id in c.entries
    ensures Cached(c, el).entries == c.entries
    ensures Cached(c, el).order[0] == el.id && |Cached(c, el).order| == |c.order|
    ensures Without(Cached(c, el).order, el.id) == Without(c.order, el.id)
    ensures Lookup(Cached(c, el), el.id) == Some(c.entries[el.id])
  {
    WithoutDistinct(c.order, el.id);
    var w := Without(c.order, el.id);
    assert ([el.id] + w)[1..] == w;
  }

  /** Caching a new identifier while there is room pushes it on the front. */
  lemma CachedInserts(c: LruState, el: Element)
    requires Inv(c) && el.id !in c.entries && |c.entries| < c.size
    ensures Cached(c, el).order == [el.id] + c.order
    ensures Cached(c, el).entries == c.entries[el.id := el]
    ensures |Cached(c, el).entries| == |c.entries| + 1
  {
  }

  /**
   * Caching a new identifier into a full cache removes exactly the back
   * (least recently cached) identifier; every other entry stays with its
   * element, the new one is at the front and the count stays at capacity.
   */
  lemma CachedEvicts(c: LruState, el: Element)
    requires Inv(c) && el.id !in c.entries && |c.entries| == c.size
    ensures |c.order| == c.size
    ensures Lookup(Cached(c, el), c.order[|c.order| - 1]) == None
    ensures Cached(c, el).order == [el.id] + c.order[..|c.order| - 1]
    ensures forall k :: k in c.entries && k != c.order[|c.order| - 1] ==>
              Lookup(Cached(c, el), k) == Lookup(c, k)
    ensures |Cached(c, el).entries| == c.size
  {
    EntriesCount(c);
    CachedInv(c, el);
    EntriesCount(Cached(c, el));
  }

  // ---------------------------------------------------------------------
  // What a history of Cache calls leaves behind: the `size` most recently
  // cached distinct identifiers, most recent first.

  function Ids(h: seq<Element>): (r: seq<ElementID>)
    ensures |r| == |h| && forall i :: 0 <= i < |h| ==> r[i] == h[i].id
  {
    seq(|h|, i requires 0 <= i < |h| => h[i].id)
  }

  /** The distinct identifiers of h, ordered by their last occurrence, latest first. */
  function Recency(h: seq<ElementID>): seq<ElementID>
  {
    if h == [] then [] else [h[|h| - 1]] + Without(Recency(h[..|h| - 1]), h[|h| - 1])
  }

  /** The cache after caching the elements of h in order, starting from c. */
  function Replay(c: LruState, h: seq<Element>): (r: LruState)
    requires Inv(c)
    ensures Inv(r) && r.size == c.size
    decreases |h|
  {
    if h == [] then c
    else
      var before := Replay(c, h[..|h| - 1]);
      CachedInv(before, h[|h| - 1]);
      Cached(before, h[|h| - 1])
  }

  lemma {:induction false} RecencyDistinct(h: seq<ElementID>)
    ensures Distinct(Recency(h))
    decreases |h|
  {
    if h != [] {
      var x := h[|h| - 1];
      RecencyDistinct(h[..|h| - 1]);
      WithoutDistinct(Recency(h[..|h| - 1]), x);
      DistinctCons(x, Without(Recency(h[..|h| - 1]), x));
    }
  }

  lemma {:induction false} TakeAll(s: seq<ElementID>, n: nat)
    requires |s| <= n
    ensures Take(s, n) == s
    decreases |s|
  {
    if s != [] {
      TakeAll(s[1..], n - 1);
    }
  }

  /** Dropping the last of the first k entries leaves the first k - 1. */
  lemma {:induction false} TakeShorter(s: seq<ElementID>, k: nat)
    requires 1 <= k <= |s|
    ensures Take(s, k)[..k - 1] == Take(s, k - 1)
    decreases k
  {
    if k > 1 {
      TakeShorter(s[1..], k - 1);
      assert Take(s, k)[..k - 1] == [s[0]] + Take(s[1..], k - 1)[..k - 2];
    }
  }

  /** Unlinking an identifier beyond the first k entries does not change them. */
  lemma {:induction false} TakeWithoutAbsent(s: seq<ElementID>, x: ElementID, k: nat)
    requires x !in Take(s, k)
    ensures Take(Without(s, x), k) == Take(s, k)
    decreases k
  {
    if k > 0 && s != [] {
      assert s[0] != x by { assert Take(s, k)[0] == s[0]; }
      assert Take(s, k) == [s[0]] + Take(s[1..], k - 1);
      TakeWithoutAbsent(s[1..], x, k - 1);
    }
  }

  /** Unlinking an identifier among the first k entries pulls the next one in. */
  lemma DistinctTail(s: seq<ElementID>)
    requires Distinct(s) && s != []
    ensures Distinct(s[1..]) && s[0] !in s[1..]
  {
    forall i, j | 0 <= i < j < |s[1..]| ensures s[1..][i] != s[1..][j] {
      assert s[1..][i] == s[i + 1] && s[1..][j] == s[j + 1];
    }
    forall i | 0 <= i < |s[1..]| ensures s[1..][i] != s[0] {
      assert s[1..][i] == s[i + 1];
    }
  }

  lemma {:induction false} TakeWithoutPresent(s: seq<ElementID>, x: ElementID, k: nat)
    requires Distinct(s) && k >= 1 && x in Take(s, k)
    ensures Take(Without(s, x), k - 1) == Without(Take(s, k), x)
    decreases k, 1
  {
    assert s != [];
    DistinctTail(s);
    if s[0] == x {
      TakeWithoutHead(s, k);
    } else {
      TakeWithoutLater(s, x, k);
    }
  }

  lemma {:induction false} TakeWithoutLater(s: seq<ElementID>, x: ElementID, k: nat)
    requires s != [] && Distinct(s[1..]) && s[0] != x
    requires k >= 1 && x in Take(s, k)
    ensures Take(Without(s, x), k - 1) == Without(Take(s, k), x)
    decreases k, 0
  {
    var s1 := s[1..];
    var m: nat := k - 1;
    var t1 := Take(s1, m);
    assert Take(s, k) == [s[0]] + t1;
    assert x in t1;
    assert m >= 1 by { assert |t1| == Min(m, |s1|) > 0; }
    TakeWithoutPresent(s1, x, m);
    assert [s[0]] + s1 == s;
    TakeWithoutCons(s[0], s1, x, k, m);
  }

  lemma TakeWithoutHead(s: seq<ElementID>, k: nat)
    requires s != [] && k >= 1 && s[0] !in s[1..]
    ensures Take(Without(s, s[0]), k - 1) == Without(Take(s, k), s[0])
  {
    var x, t1 := s[0], Take(s[1..], k - 1);
    assert Without(s, x) == s[1..];
    assert Take(s, k) == [x] + t1;
    assert ([x] + t1)[1..] == t1;
    assert x !in t1;
    calc {
      Without(Take(s, k), x);
      Without([x] + t1, x);
      Without(t1, x);
      t1;
    }
  }

  lemma TakeWithoutCons(s0: ElementID, s1: seq<ElementID>, x: ElementID, k: nat, m: nat)
    requires k == m + 1 && m >= 1 && s0 != x
    requires Take(Without(s1, x), m - 1) == Without(Take(s1, m), x)
    ensures Take(Without([s0] + s1, x), m) == Without(Take([s0] + s1, k), x)
  {
    var w1, t1 := Without(s1, x), Take(s1, m);
    assert ([s0] + s1)[1..] == s1;
    assert Without([s0] + s1, x) == [s0] + w1;
    assert ([s0] + w1)[1..] == w1;
    assert Take([s0] + s1, k) == [s0] + t1;
    assert ([s0] + t1)[1..] == t1;
    calc {
      Take(Without([s0] + s1, x), m);
      Take([s0] + w1, m);
      [s0] + Take(w1, m - 1);
      [s0] + Without(t1, x);
      Without([s0] + t1, x);
    }
  }

  /**
   * One Cache call keeps the list equal to the first `size` entries of the
   * recency order: if it was so for recency order r, it is so afterwards for
   * r with el.id moved to the front.
   */
  lemma CachedFollowsRecency(c: LruState, el: Element, r: seq<ElementID>)
    requires Inv(c) && Distinct(r) && c.order == Take(r, c.size)
    ensures Cached(c, el).order == Take([el.id] + Without(r, el.id), c.size)
  {
    EntriesCount(c);
    var x, k := el.id, c.size;
    if x in c.entries {
      PromoteFollowsRecency(c.order, x, r, k);
    } else if |c.entries| < k {
      InsertFollowsRecency(c.order, x, r, k);
    } else {
      EvictFollowsRecency(c.order, x, r, k);
      assert c.order[..|c.order| - 1] == c.order[..k - 1];
    }
  }

  /** Moving an identifier of the list to the front follows the recency order. */
  lemma PromoteFollowsRecency(order: seq<ElementID>, x: ElementID, r: seq<ElementID>, k: nat)
    requires Distinct(r) && k >= 1 && order == Take(r, k) && x in order
    ensures [x] + Without(order, x) == Take([x] + Without(r, x), k)
  {
    var j: nat := k - 1;
    TakeWithoutPresent(r, x, k);
    TakeCons(x, Without(r, x), j);
  }

  /** Pushing a new identifier on a list with room follows the recency order. */
  lemma InsertFollowsRecency(order: seq<ElementID>, x: ElementID, r: seq<ElementID>, k: nat)
    requires order == Take(r, k) && |order| < k && x !in order
    ensures [x] + order == Take([x] + Without(r, x), k)
  {
    assert |r| < k;
    TakeAll(r, k);
    TakeAll([x] + r, k);
  }

  /** Replacing the back of a full list by a new identifier in front follows the recency order. */
  lemma EvictFollowsRecency(order: seq<ElementID>, x: ElementID, r: seq<ElementID>, k: nat)
    requires k >= 1 && order == Take(r, k) && |order| == k && x !in order
    ensures [x] + order[..k - 1] == Take([x] + Without(r, x), k)
  {
    var j: nat := k - 1;
    TakeShorter(r, k);
    assert order[..j] == Take(r, j);
    assert x !in Take(r, j);
    TakeWithoutAbsent(r, x, j);
    TakeCons(x, Without(r, x), j);
  }

  /** Taking j + 1 entries of a sequence with x in front is x followed by j entries of the rest. */
  lemma TakeCons(x: ElementID, s: seq<ElementID>, j: nat)
    ensures Take([x] + s, j + 1) == [x] + Take(s, j)
  {
    assert ([x] + s)[1..] == s;
  }

  /**
   * The cache holds, in its list, exactly the `size` most recently cached
   * distinct identifiers, the most recent at the front.
   */
  lemma {:induction false} ReplayKeepsMostRecent(size: int, h: seq<Element>)
    requires size > 0
    ensures Replay(LruState([], map[], size), h).order == Take(Recency(Ids(h)), size)
    decreases |h|
  {
    var empty := LruState([], map[], size);
    if h == [] {
      assert Ids(h) == [];
    } else {
      var h' := h[..|h| - 1];
      var el := h[|h| - 1];
      assert Ids(h)[..|h| - 1] == Ids(h');
      assert Recency(Ids(h)) == [el.id] + Without(Recency(Ids(h')), el.id);
      ReplayKeepsMostRecent(size, h');
      RecencyDistinct(Ids(h'));
      CachedFollowsRecency(Replay(empty, h'), el, Recency(Ids(h')));
    }
  }

  // ---------------------------------------------------------------------
  // The cache object.

  class LruCache {
    var l: seq<ElementID>
    var m: map<ElementID, Element>
    const size: int

    function State(): LruState
      reads this
    {
      LruState(l, m, size)
    }

    ghost predicate Valid()
      reads this
    {
      Inv(State())
    }

    constructor (size: int)
      requires size > 0
      ensures Valid() && State() == LruState([], map[], size)
    {
      l := [];
      m := map[];
      this.size := size;
    }

    /** Insert or promote el. */
    method Cache(el: Element)
      requires Valid()
      modifies this
      ensures Valid() && State() == Cached(old(State()), el)
    {
      ghost var before := State();
      CachedInv(before, el);
      var id := el.id;
      if id in m {
        l := [id] + Without(l, id);         // MoveToFront
      } else if |m| < size {
        l := [id] + l;                      // PushFront
        m := m[id := el];
      } else {
        EntriesCount(before);
        var back := l[|l| - 1];             // Back
        var backVal := m[back];
        m := m - {backVal.id};
        l := [id] + l[..|l| - 1];           // reuse the node for el and MoveToFront
        m := m[id := el];
      }
      assert State() == Cached(before, el);
    }

    /** The element cached for id, if any; neither contents nor order change. */
    function Get(id: ElementID): (r: Option<Element>)
      reads this
      requires Valid()
      ensures r.Some? <==> id in l
      ensures r.Some? ==> r.value.id == id && r == Lookup(State(), id)
    {
      if id in m then Some(m[id]) else None
    }
  }

  /** NewLRUCache: a size of zero or less gives a nil cache. */
  method NewLruCache(size: int) returns (c: LruCache?)
    ensures size <= 0 ==> c == null
    ensures size > 0 ==> c != null && fresh(c) && c.Valid() && c.State() == LruState([], map[], size)
  {
    if size <= 0 {
      return null;
    }
    c := new LruCache(size);
  }

  /** LRUCache.Cache with its nil-receiver guard: on a nil cache it does nothing. */
  method NilSafeCache(c: LruCache?, el: Element)
    requires c != null ==> c.Valid()
    modifies c
    ensures c != null ==> c.Valid() && c.State() == Cached(old(c.State()), el)
  {
    if c == null {
      return;
    }
    c.Cache(el);
  }

  /** LRUCache.Get with its nil-receiver guard: a nil cache holds nothing. */
  function NilSafeGet(c: LruCache?, id: ElementID): (r: Option<Element>)
    reads c
    requires c != null ==> c.Valid()
    ensures c == null ==> r == None
    ensures c != null ==> r == Lookup(c.State(), id)
  {
    if c == null then None else c.Get(id)
  }

  // ---------------------------------------------------------------------
  // The scenarios of the package's own cache tests, replayed on the object.

  /** Capacity 1: caching ids 1, 2, 3 leaves only 3. */
  method EvictionScenario()
  {
    var e1, e2, e3 := Element(1, [1]), Element(2, [2]), Element(3, [3]);
    var lru := new LruCache(1);
    lru.Cache(e1);
    lru.Cache(e2);
    lru.Cache(e3);
    assert lru.Get(1) == None && lru.Get(2) == None;
    assert lru.Get(3) == Some(e3);
  }

  /** Capacity 2: caching 1, 2, 1, 3 promotes 1, so 2 is the one evicted. */
  method PromotionScenario()
  {
    var e1, e2, e3 := Element(1, [1]), Element(2, [2]), Element(3, [3]);
    var lru := new LruCache(2);
    lru.Cache(e1);
    lru.Cache(e2);
    assert lru.l == [2, 1] && lru.m == map[1 := e1, 2 := e2];
    PromoteBack(lru, e1);
    EvictAfterPromotion(lru, e1, e3);
  }

  /** Caching again the back identifier of a full two-element cache moves it to the front. */
  method PromoteBack(lru: LruCache, e1: Element)
    requires lru.Valid() && lru.size == 2 && e1.id == 1 && lru.l == [2, 1] && lru.m[1] == e1
    modifies lru
    ensures lru.Valid() && lru.size == 2 && lru.l == [1, 2] && lru.m[1] == e1
  {
    lru.Cache(e1);
    assert Without([2, 1], 1) == [2];
  }

  /** The second half of PromotionScenario: 1 was promoted, so caching 3 evicts 2. */
  method EvictAfterPromotion(lru: LruCache, e1: Element, e3: Element)
    requires lru.Valid() && lru.l == [1, 2] && lru.size == 2
    requires e1.id == 1 && lru.m[1] == e1 && e3.id == 3
    modifies lru
  {
    lru.Cache(e3);
    assert lru.l == [3, 1];
    assert lru.Get(1) == Some(e1) && lru.Get(2) == None && lru.Get(3) == Some(e3);
  }

  /** A cache built with size 0 is nil: what is cached into it cannot be got back. */
  method NilCacheScenario()
  {
    var e1 := Element(1, [1]);
    var lru := NewLruCache(0);
    NilSafeCache(lru, e1);
    assert NilSafeGet(lru, 1) == None;
  }
}
