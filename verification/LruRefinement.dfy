/** With one set, a timestamp table is an LRU cache. */
module LruRefinement {
  import opened Numbers
  import opened Recency
  import opened TimestampCache

  predicate Slots(t: seq<Entry>, p: seq<nat>) {
    forall j | 0 <= j < |p| :: p[j] < |t|
  }

  function KeysAt(t: seq<Entry>, p: seq<nat>): (l: seq<Key>)
    requires Slots(t, p)
    ensures |l| == |p| && forall j | 0 <= j < |p| :: l[j] == KeyOf(t[p[j]])
  {
    seq(|p|, j requires 0 <= j < |p| => KeyOf(t[p[j]]))
  }

  /** The slots of p are in use, newest first. */
  ghost predicate Descending(t: seq<Entry>, systs: nat, p: seq<nat>) {
    && Slots(t, p)
    && (forall j | 0 <= j < |p| :: 0 < t[p[j]].ts <= systs)
    && (forall i, j | 0 <= i < j < |p| :: t[p[i]].ts > t[p[j]].ts)
  }

  /** Every slot in use is in p, except possibly one; the rest are empty. */
  ghost predicate Covers(t: seq<Entry>, p: seq<nat>, except: int) {
    forall s | 0 <= s < |t| && s != except :: if t[s].ts > 0 then s in p else t[s] == EMPTY
  }

  ghost predicate Ordered(t: seq<Entry>, systs: nat, p: seq<nat>) {
    Slots(t, p) && Descending(t, systs, p) && Covers(t, p, -1) && Distinct(KeysAt(t, p))
  }

  /** The table holds exactly the keys of l, stamped in the order of l. */
  ghost predicate Holds(t: seq<Entry>, systs: nat, l: seq<Key>) {
    exists p :: Ordered(t, systs, p) && KeysAt(t, p) == l
  }

  predicate OneSet(g: Geometry) {
    g.step == 1 && g.size > 0 && g.granule > 0
  }

  lemma {:induction false} OneSetHasAll(i: nat, j: nat)
    requires i <= j
    ensures Visits(i, 1, j)
    decreases j - i
  {
    if i < j {
      OneSetHasAll(i + 1, j);
    }
  }

  /** In a one-set table a lookup hits exactly when some slot has the key, and otherwise
      overwrites a slot with the least stamp of all. */
  lemma OneSetOutcome(g: Geometry, t: seq<Entry>, systs: nat, key: Key)
    requires OneSet(g) && |t| == g.size
    ensures var r := Reference(g, t, systs, key);
      && r.slot < |t|
      && r.table == t[r.slot := Entry(key.va, key.asid, Stamp(systs + 1))]
      && (r.hit ==> KeyOf(t[r.slot]) == key)
      && (!r.hit ==> forall i | 0 <= i < |t| :: KeyOf(t[i]) != key && t[r.slot].ts <= t[i].ts)
  {
    LookupOutcome(g, t, systs, key);
    forall i: nat | i < |t|
      ensures InSet(g, key.va, i)
    {
      OneSetHasAll(0, i);
    }
  }

  // ----- counting slots -----

  function Below(n: nat): (s: set<nat>)
    ensures |s| == n
    ensures forall i: nat :: i in s <==> i < n
  {
    if n == 0 then {} else Below(n - 1) + {n - 1}
  }

  ghost predicate NoRepeat(p: seq<nat>) {
    forall i, j | 0 <= i < j < |p| :: p[i] != p[j]
  }

  function SlotSet(p: seq<nat>): (s: set<nat>)
    ensures forall x :: x in s <==> x in p
  {
    if p == [] then {} else
      assert p == p[..|p| - 1] + [p[|p| - 1]];
      SlotSet(p[..|p| - 1]) + {p[|p| - 1]}
  }

  lemma {:induction false} SlotSetSize(p: seq<nat>)
    requires NoRepeat(p)
    ensures |SlotSet(p)| == |p|
  {
    if p != [] {
      SlotSetSize(p[..|p| - 1]);
    }
  }

  lemma SlotCount(p: seq<nat>, n: nat)
    requires NoRepeat(p) && forall j | 0 <= j < |p| :: p[j] < n
    ensures |p| <= n
    ensures |p| == n <==> forall i: nat | i < n :: i in p
  {
    SlotSetSize(p);
    SubsetSize(SlotSet(p), Below(n));
    if forall i: nat | i < n :: i in p {
      SubsetSize(Below(n), SlotSet(p));
    }
  }

  // ----- one lookup -----

  lemma {:induction false} WithoutAt(l: seq<Key>, i: nat)
    requires i < |l| && Distinct(l)
    ensures Without(l, l[i]) == l[..i] + l[i + 1..]
  {
    var t := l[1..];
    assert l == [l[0]] + t;
    WithoutCons(l[0], t, l[i]);
    if i > 0 {
      WithoutAt(t, i - 1);
      assert l[..i] == [l[0]] + t[..i - 1] && l[i + 1..] == t[i..];
    } else {
      assert l[0] !in t;
    }
  }

  lemma DistinctCons(k: Key, l: seq<Key>)
    requires Distinct(l) && k !in l
    ensures Distinct([k] + l)
  {
  }

  lemma PushDescending(t: seq<Entry>, systs: nat, q: seq<nat>, key: Key, slot: nat, t': seq<Entry>)
    requires slot < |t| && Descending(t, systs, q) && slot !in q
    requires t' == t[slot := Entry(key.va, key.asid, systs + 1)]
    ensures Descending(t', systs + 1, [slot] + q)
  {
    var p := [slot] + q;
    forall j | 0 <= j < |p|
      ensures p[j] < |t'| && 0 < t'[p[j]].ts <= systs + 1 && (j > 0 ==> t'[p[j]] == t[q[j - 1]])
    {
      assert j > 0 ==> p[j] == q[j - 1] && q[j - 1] in q;
    }
  }

  lemma PushKeys(t: seq<Entry>, q: seq<nat>, key: Key, slot: nat, t': seq<Entry>)
    requires slot < |t| && Slots(t, q) && slot !in q
    requires |t'| == |t| && t' == t[slot := Entry(key.va, key.asid, t'[slot].ts)]
    ensures Slots(t', [slot] + q) && KeysAt(t', [slot] + q) == [key] + KeysAt(t, q)
  {
    hide KeysAt;
    var p := [slot] + q;
    forall j | 0 <= j < |p|
      ensures p[j] < |t'| && KeyOf(t'[p[j]]) == ([key] + KeysAt(t, q))[j]
    {
      assert j > 0 ==> p[j] == q[j - 1] && q[j - 1] in q;
    }
  }

  /** Writing a slot that q leaves out puts it in front. */
  lemma PushFront(t: seq<Entry>, systs: nat, q: seq<nat>, key: Key, slot: nat, t': seq<Entry>)
    requires slot < |t| && Descending(t, systs, q) && slot !in q && Covers(t, q, slot)
    requires Distinct(KeysAt(t, q)) && key !in KeysAt(t, q)
    requires t' == t[slot := Entry(key.va, key.asid, systs + 1)]
    ensures Ordered(t', systs + 1, [slot] + q)
    ensures KeysAt(t', [slot] + q) == [key] + KeysAt(t, q)
  {
    PushDescending(t, systs, q, key, slot, t');
    PushKeys(t, q, key, slot, t');
    DistinctCons(key, KeysAt(t, q));
    hide Descending, Distinct;
    assert Covers(t', [slot] + q, -1);
  }

  lemma DropDescending(t: seq<Entry>, systs: nat, p: seq<nat>, k: nat)
    requires Descending(t, systs, p) && k < |p|
    ensures Descending(t, systs, p[..k] + p[k + 1..])
    ensures p[k] !in p[..k] + p[k + 1..]
    ensures KeysAt(t, p[..k] + p[k + 1..]) == KeysAt(t, p)[..k] + KeysAt(t, p)[k + 1..]
  {
    var q := p[..k] + p[k + 1..];
    assert forall j | 0 <= j < |q| :: q[j] == p[if j < k then j else j + 1];
  }

  lemma DropCovers(t: seq<Entry>, p: seq<nat>, k: nat)
    requires Covers(t, p, -1) && k < |p|
    ensures Covers(t, p[..k] + p[k + 1..], p[k])
  {
    assert p == p[..k] + [p[k]] + p[k + 1..];
  }

  lemma HitRefines(t: seq<Entry>, systs: nat, p: seq<nat>, key: Key, slot: nat, t': seq<Entry>)
    returns (p': seq<nat>)
    requires Ordered(t, systs, p) && key != NO_KEY
    requires slot < |t| && KeyOf(t[slot]) == key
    requires t' == t[slot := Entry(key.va, key.asid, systs + 1)]
    ensures Ordered(t', systs + 1, p')
    ensures KeysAt(t', p') == Touch(KeysAt(t, p), key)
    ensures key in KeysAt(t, p)
  {
    var j :| 0 <= j < |p| && p[j] == slot;
    assert KeysAt(t, p)[j] == key;
    WithoutAt(KeysAt(t, p), j);
    DropDescending(t, systs, p, j);
    DropCovers(t, p, j);
    WithoutDistinct(KeysAt(t, p), key);
    hide Descending, Covers, Distinct;
    PushFront(t, systs, p[..j] + p[j + 1..], key, slot, t');
    p' := [slot] + (p[..j] + p[j + 1..]);
  }

  lemma UnusedSlot(t: seq<Entry>, systs: nat, p: seq<nat>, slot: nat)
    requires Descending(t, systs, p) && Covers(t, p, -1) && slot < |t| && t[slot].ts == 0
    ensures slot !in p && Covers(t, p, slot)
  {
  }

  lemma AbsentKey(t: seq<Entry>, p: seq<nat>, key: Key)
    requires Slots(t, p) && forall i | 0 <= i < |t| :: KeyOf(t[i]) != key
    ensures key !in KeysAt(t, p)
    ensures Touch(KeysAt(t, p), key) == [key] + KeysAt(t, p)
  {
  }

  lemma MissRefines(t: seq<Entry>, systs: nat, p: seq<nat>, key: Key, slot: nat, t': seq<Entry>)
    returns (p': seq<nat>)
    requires Ordered(t, systs, p) && slot < |t|
    requires forall i | 0 <= i < |t| :: KeyOf(t[i]) != key && t[slot].ts <= t[i].ts
    requires t' == t[slot := Entry(key.va, key.asid, systs + 1)]
    ensures Ordered(t', systs + 1, p')
    ensures KeysAt(t', p') == Take(Touch(KeysAt(t, p), key), |t|)
    ensures key !in KeysAt(t, p)
  {
    hide Descending, Distinct, Covers, Touch;
    AbsentKey(t, p, key);
    UsedSlots(t, systs, p);
    if t[slot].ts == 0 {
      UnusedSlot(t, systs, p, slot);
      PushFront(t, systs, p, key, slot, t');
      p' := [slot] + p;
    } else {
      p' := FullMiss(t, systs, p, key, slot, t');
    }
  }

  lemma FullMiss(t: seq<Entry>, systs: nat, p: seq<nat>, key: Key, slot: nat, t': seq<Entry>)
    returns (p': seq<nat>)
    requires Ordered(t, systs, p) && slot < |t| && t[slot].ts > 0 && |p| == |t|
    requires forall i | 0 <= i < |t| :: KeyOf(t[i]) != key && t[slot].ts <= t[i].ts
    requires t' == t[slot := Entry(key.va, key.asid, systs + 1)]
    ensures Ordered(t', systs + 1, p')
    ensures KeysAt(t', p') == Take([key] + KeysAt(t, p), |t|)
  {
    hide Descending, Distinct, Covers;
    var l, n := KeysAt(t, p), |p| - 1;
    OldestIsLast(t, systs, p, slot);
    DropDescending(t, systs, p, n);
    DropCovers(t, p, n);
    WithoutAt(l, n);
    WithoutDistinct(l, l[n]);
    assert p[..n] + p[n + 1..] == p[..n];
    assert l[..n] + l[n + 1..] == l[..n];
    AbsentKey(t, p[..n], key);
    PushFront(t, systs, p[..n], key, slot, t');
    p' := [slot] + p[..n];
    assert Take([key] + l, |t|) == [key] + l[..n];
  }

  /** All slots are in use exactly when p is as long as the table. */
  lemma UsedSlots(t: seq<Entry>, systs: nat, p: seq<nat>)
    requires Descending(t, systs, p) && Covers(t, p, -1)
    ensures |p| <= |t|
    ensures |p| == |t| <==> forall i | 0 <= i < |t| :: t[i].ts > 0
  {
    SlotCount(p, |t|);
    assert forall i: nat | i < |t| :: t[i].ts > 0 <==> i in p;
  }

  lemma OldestIsLast(t: seq<Entry>, systs: nat, p: seq<nat>, slot: nat)
    requires Descending(t, systs, p) && Covers(t, p, -1)
    requires slot < |t| && t[slot].ts > 0 && forall i | 0 <= i < |t| :: t[slot].ts <= t[i].ts
    ensures p != [] && p[|p| - 1] == slot
  {
    var j :| 0 <= j < |p| && p[j] == slot;
    if j < |p| - 1 {
      assert t[p[j]].ts > t[p[|p| - 1]].ts;
    }
  }

  /** One lookup in a one-set table is one step of an LRU list of that capacity, the stamp it
      writes taken before truncation to 32 bits. */
  lemma LookupRefinesWide(g: Geometry, t: seq<Entry>, systs: nat, key: Key, l: seq<Key>)
    requires OneSet(g) && |t| == g.size && key != NO_KEY && Holds(t, systs, l)
    ensures var r := Reference(g, t, systs, key);
      && r.slot < |t|
      && (r.hit <==> key in l)
      && Holds(t[r.slot := Entry(key.va, key.asid, systs + 1)], systs + 1, Take(Touch(l, key), g.size))
  {
    hide Reference, Touch, Descending, Covers, Distinct;
    var p :| Ordered(t, systs, p) && KeysAt(t, p) == l;
    OneSetOutcome(g, t, systs, key);
    var r := Reference(g, t, systs, key);
    var t' := t[r.slot := Entry(key.va, key.asid, systs + 1)];
    if r.hit {
      var p' := HitRefines(t, systs, p, key, r.slot, t');
      UsedSlots(t', systs + 1, p');
      assert KeysAt(t', p') == Take(Touch(l, key), g.size);
    } else {
      var p' := MissRefines(t, systs, p, key, r.slot, t');
      assert KeysAt(t', p') == Take(Touch(l, key), g.size);
    }
  }

  lemma LookupRefines(g: Geometry, t: seq<Entry>, systs: nat, key: Key, l: seq<Key>)
    requires OneSet(g) && |t| == g.size && key != NO_KEY
    requires systs + 1 < STAMPS && Holds(t, systs, l)
    ensures var r := Reference(g, t, systs, key);
      && (r.hit <==> key in l)
      && Holds(r.table, systs + 1, Take(Touch(l, key), g.size))
  {
    hide Reference, Holds;
    LookupRefinesWide(g, t, systs, key, l);
    OneSetOutcome(g, t, systs, key);
  }

  ghost predicate Contains(t: seq<Entry>, key: Key) {
    exists i | 0 <= i < |t| :: KeyOf(t[i]) == key
  }

  lemma OrderedContents(t: seq<Entry>, systs: nat, p: seq<nat>, key: Key)
    requires Descending(t, systs, p) && Covers(t, p, -1) && key != NO_KEY
    ensures Contains(t, key) ==> key in KeysAt(t, p)
  {
    if Contains(t, key) {
      var i :| 0 <= i < |t| && KeyOf(t[i]) == key;
      assert i in p;
      var j :| 0 <= j < |p| && p[j] == i;
      assert KeysAt(t, p)[j] == key;
    }
  }

  lemma KeysAreContained(t: seq<Entry>, p: seq<nat>, key: Key)
    requires Slots(t, p)
    requires key in KeysAt(t, p)
    ensures Contains(t, key)
  {
    var j :| 0 <= j < |p| && KeysAt(t, p)[j] == key;
    assert KeyOf(t[p[j]]) == key;
  }

  /** Read back: the keys found in the table are exactly those of the list. */
  lemma HoldsContents(t: seq<Entry>, systs: nat, l: seq<Key>, key: Key)
    requires Holds(t, systs, l) && key != NO_KEY
    ensures Contains(t, key) <==> key in l
  {
    hide Distinct, Covers, Descending, Contains;
    var p :| Ordered(t, systs, p) && KeysAt(t, p) == l;
    OrderedContents(t, systs, p, key);
    if key in l {
      KeysAreContained(t, p, key);
    }
  }
}
