/** A cache with its hit and miss counters, followed over the history of its lookups. */
module CacheHistory {
  import opened Recency
  import opened TimestampCache
  import opened LruRefinement

  datatype Cache = Cache(g: Geometry, table: seq<Entry>, hit: nat, miss: nat)

  predicate ValidCache(c: Cache) {
    ValidGeometry(c.g) && |c.table| == c.g.size
  }

  /** INIT_TLB. */
  function Fresh(g: Geometry): (c: Cache)
    requires ValidGeometry(g)
    ensures ValidCache(c) && c.g == g
  {
    Cache(g, seq(g.size, _ => EMPTY), 0, 0)
  }

  datatype Referred = Referred(cache: Cache, hit: bool)

  function Refer(c: Cache, systs: nat, key: Key): (r: Referred)
    requires ValidCache(c)
    ensures ValidCache(r.cache) && r.cache.g == c.g
    ensures r.cache.hit + r.cache.miss == c.hit + c.miss + 1
    ensures r.cache.miss == c.miss + if r.hit then 0 else 1
  {
    var l := Reference(c.g, c.table, systs, key);
    Referred(Cache(c.g, l.table, c.hit + (if l.hit then 1 else 0), c.miss + (if l.hit then 0 else 1)), l.hit)
  }

  /** The cache is what an LRU cache of its size is after the lookups h, of which it has counted
      every miss. */
  ghost predicate Tracks(c: Cache, systs: nat, h: seq<Key>) {
    && OneSet(c.g) && ValidCache(c)
    && Holds(c.table, systs, LruContents(h, c.g.size))
    && c.miss == Misses(h, c.g.size)
    && c.hit + c.miss == |h|
  }

  lemma FreshTracks(g: Geometry)
    requires OneSet(g)
    ensures Tracks(Fresh(g), 0, [])
  {
    assert Ordered(Fresh(g).table, 0, []);
  }

  /** Time may pass between the lookups of one cache. */
  lemma TracksLater(c: Cache, systs: nat, later: nat, h: seq<Key>)
    requires Tracks(c, systs, h) && systs <= later
    ensures Tracks(c, later, h)
  {
    var l := LruContents(h, c.g.size);
    var p :| Ordered(c.table, systs, p) && KeysAt(c.table, p) == l;
    assert Ordered(c.table, later, p);
  }

  /** Each lookup hits exactly when an LRU cache would, and the cache goes on tracking. */
  lemma ReferTracks(c: Cache, systs: nat, h: seq<Key>, key: Key)
    requires Tracks(c, systs, h) && key != NO_KEY && systs + 1 < STAMPS
    ensures var r := Refer(c, systs, key);
      && (r.hit <==> LruHit(h, key, c.g.size))
      && Tracks(r.cache, systs + 1, h + [key])
  {
    hide Holds, MostRecent, Reference, Touch, Take;
    var n := c.g.size;
    LookupRefines(c.g, c.table, systs, key, LruContents(h, n));
    MostRecentDistinct(h);
    TakeTouch(MostRecent(h), key, n);
    MissesLast(h, key, n);
    MostRecentLast(h, key);
  }

  lemma MostRecentLast(h: seq<Key>, k: Key)
    ensures MostRecent(h + [k]) == Touch(MostRecent(h), k)
  {
    assert (h + [k])[..|h|] == h;
  }
}
