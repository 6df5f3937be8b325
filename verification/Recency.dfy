/** Least-recently-used order over a history of references: the abstract cache that the
    timestamp tables of tlb_sim.c are compared with. */
module Recency {
  import opened Numbers

  /** What a slot is tagged with.  The nested TLB leaves the address space at 0. */
  datatype Key = Key(va: nat, asid: nat)

  ghost predicate Distinct(l: seq<Key>) {
    forall i, j | 0 <= i < j < |l| :: l[i] != l[j]
  }

  function Take(l: seq<Key>, n: nat): (r: seq<Key>) {
    if |l| <= n then l else l[..n]
  }

  /** l without the element k, order kept. */
  function Without(l: seq<Key>, k: Key): (r: seq<Key>)
    ensures forall x :: x in r <==> x in l && x != k
    ensures k !in l ==> r == l
    ensures |r| <= |l|
  {
    if l == [] then [] else if l[0] == k then Without(l[1..], k) else [l[0]] + Without(l[1..], k)
  }

  function Touch(l: seq<Key>, k: Key): seq<Key> {
    [k] + Without(l, k)
  }

  /** The distinct keys of a history, most recently used first. */
  function MostRecent(h: seq<Key>): (r: seq<Key>)
    ensures forall x :: x in r <==> x in h
  {
    if h == [] then [] else
      var n := |h| - 1;
      assert h == h[..n] + [h[n]];
      Touch(MostRecent(h[..n]), h[n])
  }

  lemma {:induction false} WithoutDistinct(l: seq<Key>, k: Key)
    requires Distinct(l)
    ensures Distinct(Without(l, k))
  {
    if l != [] {
      WithoutDistinct(l[1..], k);
      assert l[0] !in l[1..];
    }
  }

  lemma {:induction false} MostRecentDistinct(h: seq<Key>)
    ensures Distinct(MostRecent(h))
  {
    if h != [] {
      MostRecentDistinct(h[..|h| - 1]);
      WithoutDistinct(MostRecent(h[..|h| - 1]), h[|h| - 1]);
      assert h[|h| - 1] !in Without(MostRecent(h[..|h| - 1]), h[|h| - 1]);
    }
  }

  lemma {:induction false} TakeWithout(l: seq<Key>, k: Key, n: nat)
    requires Distinct(l)
    ensures Take(Without(Take(l, n + 1), k), n) == Take(Without(l, k), n)
  {
    if l != [] {
      var t := l[1..];
      assert l == [l[0]] + t;
      TakeCons(l[0], t, n + 1);
      WithoutCons(l[0], t, k);
      WithoutCons(l[0], Take(t, n), k);
      if l[0] == k {
        assert k !in t;
      } else if n > 0 {
        TakeWithout(t, k, n - 1);
        TakeCons(l[0], Without(t, k), n);
        TakeCons(l[0], Without(Take(t, n), k), n);
      }
    }
  }

  lemma WithoutCons(x: Key, l: seq<Key>, k: Key)
    ensures Without([x] + l, k) == (if x == k then [] else [x]) + Without(l, k)
  {
    assert ([x] + l)[1..] == l;
  }

  /** An LRU list of capacity n is the first n elements of the unbounded one. */
  lemma TakeTouch(l: seq<Key>, k: Key, n: nat)
    requires Distinct(l) && n > 0
    ensures Take(Touch(Take(l, n), k), n) == Take(Touch(l, k), n)
  {
    TakeWithout(l, k, n - 1);
    TakeCons(k, Without(l, k), n);
    TakeCons(k, Without(Take(l, n), k), n);
  }

  lemma TakeCons(k: Key, l: seq<Key>, n: nat)
    requires n > 0
    ensures Take([k] + l, n) == [k] + Take(l, n - 1)
  {
  }

  /** The state of an LRU cache with n places after the history h. */
  function LruContents(h: seq<Key>, n: nat): seq<Key> {
    Take(MostRecent(h), n)
  }

  predicate LruHit(h: seq<Key>, k: Key, n: nat) {
    k in LruContents(h, n)
  }

  /** The keys used after the last use of k. */
  function UsedSince(h: seq<Key>, k: Key): set<Key> {
    if h == [] || h[|h| - 1] == k then {} else UsedSince(h[..|h| - 1], k) + {h[|h| - 1]}
  }

  /** The elements that come before k in a list. */
  function Ahead(l: seq<Key>, k: Key): set<Key> {
    if l == [] || l[0] == k then {} else {l[0]} + Ahead(l[1..], k)
  }

  lemma {:induction false} AheadWithout(l: seq<Key>, x: Key, k: Key)
    requires x != k
    ensures Ahead(Without(l, x), k) == Ahead(l, k) - {x}
  {
    if l != [] && l[0] != k {
      AheadWithout(l[1..], x, k);
      if l[0] != x {
        assert Without(l, x)[1..] == Without(l[1..], x);
      }
    }
  }

  lemma {:induction false} UsedSinceIsAhead(h: seq<Key>, k: Key)
    ensures UsedSince(h, k) == Ahead(MostRecent(h), k)
  {
    if h != [] && h[|h| - 1] != k {
      var n := |h| - 1;
      UsedSinceIsAhead(h[..n], k);
      AheadWithout(MostRecent(h[..n]), h[n], k);
      assert MostRecent(h)[1..] == Without(MostRecent(h[..n]), h[n]);
    }
  }

  lemma {:induction false} AheadElements(l: seq<Key>, k: Key)
    ensures forall x | x in Ahead(l, k) :: x in l
  {
    if l != [] {
      AheadElements(l[1..], k);
    }
  }

  lemma {:induction false} TakeByAhead(l: seq<Key>, k: Key, n: nat)
    requires Distinct(l)
    ensures k in Take(l, n) <==> k in l && |Ahead(l, k)| < n
  {
    if l != [] && n > 0 {
      assert Take(l, n) == [l[0]] + Take(l[1..], n - 1);
      if l[0] != k {
        TakeByAhead(l[1..], k, n - 1);
        AheadElements(l[1..], k);
        assert l[0] !in l[1..];
      }
    }
  }

  /** Stack distance: an LRU cache of n places hits exactly when the key was used before and
      fewer than n other keys have been used since. */
  lemma HitByStackDistance(h: seq<Key>, k: Key, n: nat)
    ensures LruHit(h, k, n) <==> k in h && |UsedSince(h, k)| < n
  {
    MostRecentDistinct(h);
    TakeByAhead(MostRecent(h), k, n);
    UsedSinceIsAhead(h, k);
  }

  // ----- misses over whole histories -----

  /** How many references of the history miss in an LRU cache of n places. */
  function Misses(h: seq<Key>, n: nat): nat {
    if h == [] then 0
    else Misses(h[..|h| - 1], n) + if LruHit(h[..|h| - 1], h[|h| - 1], n) then 0 else 1
  }

  /** Inclusion: a larger cache holds everything a smaller one does. */
  lemma Inclusion(h: seq<Key>, n: nat, m: nat)
    requires n <= m
    ensures LruContents(h, n) <= LruContents(h, m)
  {
  }

  /** Enlarging the cache never adds a miss. */
  lemma {:induction false} MissesMonotone(h: seq<Key>, n: nat, m: nat)
    requires n <= m
    ensures Misses(h, m) <= Misses(h, n)
  {
    if h != [] {
      MissesMonotone(h[..|h| - 1], n, m);
      Inclusion(h[..|h| - 1], n, m);
    }
  }

  // ----- the references of one address space within a longer history -----

  function OfSpace(h: seq<Key>, asid: nat): (r: seq<Key>)
    ensures forall x :: x in r <==> x in h && x.asid == asid
  {
    if h == [] then [] else
      assert h == h[..|h| - 1] + [h[|h| - 1]];
      OfSpace(h[..|h| - 1], asid) + if h[|h| - 1].asid == asid then [h[|h| - 1]] else []
  }

  /** Misses among the references of one address space, the others interleaved. */
  function MissesOfSpace(h: seq<Key>, asid: nat, n: nat): nat {
    if h == [] then 0
    else MissesOfSpace(h[..|h| - 1], asid, n)
         + if h[|h| - 1].asid != asid || LruHit(h[..|h| - 1], h[|h| - 1], n) then 0 else 1
  }

  lemma OfSpaceLast(h: seq<Key>, asid: nat)
    requires h != []
    ensures var n := |h| - 1;
      OfSpace(h, asid) == OfSpace(h[..n], asid) + if h[n].asid == asid then [h[n]] else []
  {
  }

  lemma UsedSinceLast(h: seq<Key>, x: Key, k: Key)
    ensures UsedSince(h + [x], k) == if x == k then {} else UsedSince(h, k) + {x}
  {
    assert (h + [x])[..|h|] == h;
  }

  lemma MissesLast(h: seq<Key>, x: Key, n: nat)
    ensures Misses(h + [x], n) == Misses(h, n) + if LruHit(h, x, n) then 0 else 1
  {
    assert (h + [x])[..|h|] == h;
  }

  lemma {:induction false} UsedSinceOfSpace(h: seq<Key>, k: Key)
    ensures UsedSince(OfSpace(h, k.asid), k) <= UsedSince(h, k)
  {
    if h != [] {
      var n := |h| - 1;
      UsedSinceOfSpace(h[..n], k);
      OfSpaceLast(h, k.asid);
      UsedSinceLast(OfSpace(h[..n], k.asid), h[n], k);
      hide OfSpace;
      if h[n].asid != k.asid {
        assert OfSpace(h, k.asid) == OfSpace(h[..n], k.asid);
      }
    }
  }

  /** Without the references of other spaces in between, a hit stays a hit. */
  lemma HitOfSpace(h: seq<Key>, k: Key, n: nat)
    requires LruHit(h, k, n)
    ensures LruHit(OfSpace(h, k.asid), k, n)
  {
    HitByStackDistance(h, k, n);
    HitByStackDistance(OfSpace(h, k.asid), k, n);
    UsedSinceOfSpace(h, k);
    SubsetSize(UsedSince(OfSpace(h, k.asid), k), UsedSince(h, k));
  }

  lemma {:induction false} MissesOfSpaceAlone(h: seq<Key>, asid: nat, n: nat)
    ensures Misses(OfSpace(h, asid), n) <= MissesOfSpace(h, asid, n)
  {
    if h != [] {
      var i := |h| - 1;
      MissesOfSpaceAlone(h[..i], asid, n);
      OfSpaceLast(h, asid);
      MissesLast(OfSpace(h[..i], asid), h[i], n);
      hide OfSpace, LruHit;
      if h[i].asid != asid {
        assert OfSpace(h, asid) == OfSpace(h[..i], asid);
      } else if LruHit(h[..i], h[i], n) {
        HitOfSpace(h[..i], h[i], n);
      }
    }
  }
}
