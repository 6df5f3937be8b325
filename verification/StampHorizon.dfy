/** How long a one-set table stays exact: stamps are 32 bits wide. */
module StampHorizon {
  import opened Recency
  import opened TimestampCache
  import opened LruRefinement
  import opened CacheHistory

  /** A fresh cache after the lookups h, the clock running from 0. */
  function After(g: Geometry, h: seq<Key>): (c: Cache)
    requires ValidGeometry(g)
    ensures ValidCache(c) && c.g == g
  {
    if h == [] then Fresh(g) else Refer(After(g, h[..|h| - 1]), |h| - 1, h[|h| - 1]).cache
  }

  lemma {:induction false} AfterTracks(g: Geometry, h: seq<Key>)
    requires OneSet(g) && NO_KEY !in h && |h| < STAMPS
    ensures Tracks(After(g, h), |h|, h)
  {
    hide Tracks;
    if h == [] {
      FreshTracks(g);
    } else {
      var n := |h| - 1;
      AfterTracks(g, h[..n]);
      ReferTracks(After(g, h[..n]), n, h[..n], h[n]);
      assert h[..n] + [h[n]] == h;
    }
  }

  /** The table holds exactly the most recently used keys. */
  ghost predicate LruExact(g: Geometry, h: seq<Key>)
    requires ValidGeometry(g)
  {
    forall key | key != NO_KEY :: Contains(After(g, h).table, key) <==> key in LruContents(h, g.size)
  }

  lemma SameKeysContain(t: seq<Entry>, t': seq<Entry>, key: Key)
    requires |t| == |t'| && forall i | 0 <= i < |t| :: KeyOf(t[i]) == KeyOf(t'[i])
    ensures Contains(t, key) <==> Contains(t', key)
  {
  }

  lemma ExactWithin(g: Geometry, h: seq<Key>)
    requires OneSet(g) && NO_KEY !in h && |h| <= STAMPS
    ensures LruExact(g, h)
  {
    hide Contains, LruContents, Tracks, Holds;
    forall key | key != NO_KEY
      ensures Contains(After(g, h).table, key) <==> key in LruContents(h, g.size)
    {
      if |h| < STAMPS {
        AfterTracks(g, h);
        TracksHolds(After(g, h), |h|, h);
        HoldsContents(After(g, h).table, |h|, LruContents(h, g.size), key);
      } else {
        ExactAtWrap(g, h, key);
      }
    }
  }

  lemma TracksHolds(c: Cache, systs: nat, h: seq<Key>)
    requires Tracks(c, systs, h)
    ensures Holds(c.table, systs, LruContents(h, c.g.size))
  {
  }

  /** The lookup that wraps the stamp still leaves the right keys. */
  lemma ExactAtWrap(g: Geometry, h: seq<Key>, key: Key)
    requires OneSet(g) && NO_KEY !in h && |h| == STAMPS && key != NO_KEY
    ensures Contains(After(g, h).table, key) <==> key in LruContents(h, g.size)
  {
    hide Contains, Tracks, Holds, MostRecent, Touch, Take, Reference;
    var n := |h| - 1;
    var t := After(g, h[..n]).table;
    AfterTracks(g, h[..n]);
    TracksHolds(After(g, h[..n]), n, h[..n]);
    LookupRefinesWide(g, t, n, h[n], LruContents(h[..n], g.size));
    OneSetOutcome(g, t, n, h[n]);
    var r := Reference(g, t, n, h[n]);
    var t' := t[r.slot := Entry(h[n].va, h[n].asid, n + 1)];
    MostRecentDistinct(h[..n]);
    TakeTouch(MostRecent(h[..n]), h[n], g.size);
    assert h[..n] + [h[n]] == h;
    MostRecentLast(h[..n], h[n]);
    HoldsContents(t', n + 1, LruContents(h, g.size), key);
    SameKeysContain(r.table, t', key);
  }

  // ----- beyond 2^32 lookups -----

  /** n copies of a key. */
  function Repeat(k: Key, n: nat): (h: seq<Key>)
    ensures |h| == n && forall i | 0 <= i < n :: h[i] == k
  {
    seq(n, _ => k)
  }

  /** The address of page i, as the nested TLB is asked for it. */
  function Page(i: nat): Key {
    Key(i * 0x1000, 0)
  }

  /** The pages 0 .. n-1, in order. */
  function Pages(n: nat): (h: seq<Key>)
    ensures |h| == n && forall i | 0 <= i < n :: h[i] == Page(i)
  {
    seq(n, i requires 0 <= i => Page(i))
  }

  lemma {:induction false} PagesMostRecent(n: nat)
    ensures |MostRecent(Pages(n))| == n
  {
    if n > 0 {
      hide MostRecent;
      PagesMostRecent(n - 1);
      assert Page(n - 1) !in Pages(n - 1);
      assert Pages(n) == Pages(n - 1) + [Page(n - 1)];
      MostRecentLast(Pages(n - 1), Page(n - 1));
    }
  }

  lemma {:induction false} RepeatMostRecent(h: seq<Key>, k: Key, n: nat)
    requires n > 0 && k !in h
    ensures MostRecent(h + Repeat(k, n)) == [k] + MostRecent(h)
  {
    if n == 1 {
      assert h + Repeat(k, 1) == h + [k];
      MostRecentLast(h, k);
    } else {
      RepeatMostRecent(h, k, n - 1);
      assert h + Repeat(k, n) == h + Repeat(k, n - 1) + [k];
      MostRecentLast(h + Repeat(k, n - 1), k);
      WithoutCons(k, MostRecent(h), k);
    }
  }

  /** Pages enough to fill the table, the last of them repeated up to lookup 2^32, and then one
      more page, repeated. */
  function Overrun(size: nat, n: nat): (h: seq<Key>)
    requires 2 <= size < STAMPS - 1 && n > STAMPS
    ensures |h| == n && NO_KEY !in h
  {
    Filled(size) + Repeat(Page(size), n - STAMPS)
  }

  function Filled(size: nat): (h: seq<Key>)
    requires 2 <= size < STAMPS - 1
    ensures |h| == STAMPS && NO_KEY !in h && Page(size) !in h
    ensures h[STAMPS - 1] == Page(size - 1)
  {
    Pages(size - 1) + Repeat(Page(size - 1), STAMPS - (size - 1))
  }

  /** Just before the stamps wrap: the table is full, all stamps nonzero. */
  lemma BeforeWrap(g: Geometry)
    requires OneSet(g) && 2 <= g.size < STAMPS - 1
    ensures var t := After(g, Filled(g.size)[..STAMPS - 1]).table;
      && (forall i | 0 <= i < |t| :: t[i].ts > 0)
      && (forall i, j | 0 <= i < j < |t| :: KeyOf(t[i]) != KeyOf(t[j]))
      && Contains(t, Page(g.size - 1)) && !Contains(t, Page(g.size))
  {
    hide MostRecent, Tracks;
    var h := Filled(g.size)[..STAMPS - 1];
    var a := Page(g.size - 1);
    assert h == Pages(g.size - 1) + Repeat(a, STAMPS - g.size);
    PagesMostRecent(g.size - 1);
    RepeatMostRecent(Pages(g.size - 1), a, STAMPS - g.size);
    var t := After(g, h).table;
    AfterTracks(g, h);
    TracksHolds(After(g, h), |h|, h);
    FullTable(t, |h|, LruContents(h, g.size));
    HoldsContents(t, |h|, LruContents(h, g.size), a);
    HoldsContents(t, |h|, LruContents(h, g.size), Page(g.size));
    assert Page(g.size) !in h;
  }

  lemma FullTable(t: seq<Entry>, systs: nat, l: seq<Key>)
    requires Holds(t, systs, l) && |l| == |t|
    ensures forall i | 0 <= i < |t| :: t[i].ts > 0
    ensures forall i, j | 0 <= i < j < |t| :: KeyOf(t[i]) != KeyOf(t[j])
  {
    hide Descending, Covers, Distinct;
    var p :| Ordered(t, systs, p) && KeysAt(t, p) == l;
    UsedSlots(t, systs, p);
    AllListed(t, systs, p);
    forall i: nat, j: nat | i < j < |t|
      ensures KeyOf(t[i]) != KeyOf(t[j])
    {
      DistinctKeys(t, p, i, j);
    }
  }

  lemma AllListed(t: seq<Entry>, systs: nat, p: seq<nat>)
    requires Descending(t, systs, p) && Covers(t, p, -1) && forall i | 0 <= i < |t| :: t[i].ts > 0
    ensures forall i: nat | i < |t| :: i in p
  {
  }

  lemma DistinctKeys(t: seq<Entry>, p: seq<nat>, i: nat, j: nat)
    requires Slots(t, p) && Distinct(KeysAt(t, p))
    requires i in p && j in p && i != j
    ensures KeyOf(t[i]) != KeyOf(t[j])
  {
    var x :| 0 <= x < |p| && p[x] == i;
    var y :| 0 <= y < |p| && p[y] == j;
    assert KeysAt(t, p)[x] == KeyOf(t[i]) && KeysAt(t, p)[y] == KeyOf(t[j]);
  }

  /** Lookup 2^32 stamps its slot 0, so the next miss evicts the key used last. */
  lemma WrapEvicts(g: Geometry, t: seq<Entry>, a: Key, c: Key)
    requires OneSet(g) && |t| == g.size && a != c
    requires (forall i | 0 <= i < |t| :: t[i].ts > 0)
    requires (forall i, j | 0 <= i < j < |t| :: KeyOf(t[i]) != KeyOf(t[j]))
    requires Contains(t, a) && !Contains(t, c)
    ensures var t1 := Reference(g, t, STAMPS - 1, a).table;
      var t2 := Reference(g, t1, STAMPS, c).table;
      Contains(t2, c) && !Contains(t2, a)
  {
    hide Reference;
    var r1 := Reference(g, t, STAMPS - 1, a);
    OneSetOutcome(g, t, STAMPS - 1, a);
    var r2 := Reference(g, r1.table, STAMPS, c);
    OneSetOutcome(g, r1.table, STAMPS, c);
    assert r1.hit && r1.table[r1.slot].ts == 0;
    assert !r2.hit && r2.slot == r1.slot;
    assert KeyOf(r2.table[r2.slot]) == c;
  }

  lemma HitKeepsKeys(g: Geometry, t: seq<Entry>, systs: nat, c: Key, a: Key)
    requires OneSet(g) && |t| == g.size && a != c && Contains(t, c) && !Contains(t, a)
    ensures var t' := Reference(g, t, systs, c).table; Contains(t', c) && !Contains(t', a)
  {
    hide Reference;
    OneSetOutcome(g, t, systs, c);
    var r := Reference(g, t, systs, c);
    SameKeysContain(r.table, t, c);
    SameKeysContain(r.table, t, a);
  }

  lemma {:induction false} AfterOverrun(g: Geometry, n: nat)
    requires OneSet(g) && 2 <= g.size < STAMPS - 1 && n > STAMPS
    ensures var t := After(g, Overrun(g.size, n)).table;
      Contains(t, Page(g.size)) && !Contains(t, Page(g.size - 1))
  {
    hide Contains, Reference, Filled, Repeat;
    var h := Overrun(g.size, n);
    if n == STAMPS + 1 {
      assert h[..STAMPS] == Filled(g.size);
      assert h[STAMPS] == Page(g.size);
      BeforeWrap(g);
      WrapEvicts(g, After(g, Filled(g.size)[..STAMPS - 1]).table, Page(g.size - 1), Page(g.size));
    } else {
      assert h[..n - 1] == Overrun(g.size, n - 1);
      assert h[n - 1] == Page(g.size);
      AfterOverrun(g, n - 1);
      HitKeepsKeys(g, After(g, h[..n - 1]).table, n - 1, Page(g.size), Page(g.size - 1));
    }
  }

  /** Beyond 2^32 lookups there is a history after which the key used most recently but one has
      been lost. */
  lemma OverrunNotExact(g: Geometry, n: nat)
    requires OneSet(g) && 2 <= g.size < STAMPS - 1 && n > STAMPS
    ensures !LruExact(g, Overrun(g.size, n))
  {
    hide Contains, MostRecent;
    var h := Overrun(g.size, n);
    var a, c := Page(g.size - 1), Page(g.size);
    RepeatMostRecent(Filled(g.size), c, n - STAMPS);
    RepeatMostRecent(Pages(g.size - 1), a, STAMPS - (g.size - 1));
    var l := MostRecent(h);
    assert l == [c] + ([a] + MostRecent(Pages(g.size - 1)));
    assert l[1] == a;
    assert LruContents(h, g.size)[1] == a;
    AfterOverrun(g, n);
  }

  /** The exact horizon of a table with two or more slots: it is an LRU cache after every history
      of n lookups if and only if n is at most 2^32. */
  lemma LruHorizon(g: Geometry, n: nat)
    requires OneSet(g) && 2 <= g.size < STAMPS - 1
    ensures (forall h | |h| == n && NO_KEY !in h :: LruExact(g, h)) <==> n <= STAMPS
  {
    hide LruExact;
    if n <= STAMPS {
      forall h | |h| == n && NO_KEY !in h
        ensures LruExact(g, h)
      {
        ExactWithin(g, h);
      }
    } else {
      OverrunNotExact(g, n);
    }
  }

  /** A lookup of the tag of empty slots, never referenced before, hits exactly while some slot
      is empty. */
  lemma EmptyTagHits(g: Geometry, h: seq<Key>)
    requires OneSet(g) && NO_KEY !in h && |h| < STAMPS
    ensures Refer(After(g, h), |h|, NO_KEY).hit <==> |MostRecent(h)| < g.size
  {
    hide MostRecent, Tracks, Reference;
    var t := After(g, h).table;
    AfterTracks(g, h);
    TracksHolds(After(g, h), |h|, h);
    var l := LruContents(h, g.size);
    var p :| Ordered(t, |h|, p) && KeysAt(t, p) == l;
    UsedSlots(t, |h|, p);
    OneSetOutcome(g, t, |h|, NO_KEY);
    assert NO_KEY !in l;
    EmptySlots(t, |h|, p);
  }

  lemma EmptySlots(t: seq<Entry>, systs: nat, p: seq<nat>)
    requires Descending(t, systs, p) && Covers(t, p, -1) && NO_KEY !in KeysAt(t, p)
    ensures forall i | 0 <= i < |t| :: KeyOf(t[i]) == NO_KEY <==> t[i].ts == 0
  {
    forall i | 0 <= i < |t| && t[i].ts > 0
      ensures KeyOf(t[i]) != NO_KEY
    {
      var x :| 0 <= x < |p| && p[x] == i;
      assert KeysAt(t, p)[x] == KeyOf(t[i]);
    }
  }
}
