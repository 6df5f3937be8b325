/** The set-associative, timestamp-replaced tables of tlb_sim.c and tlb_trace.c. */
module TimestampCache {
  import opened Numbers
  import opened Recency

  datatype Entry = Entry(va: nat, asid: nat, ts: nat)

  const NO_VA := 0xFFFF_FFFF
  const EMPTY := Entry(NO_VA, 0, 0)
  const NO_KEY := Key(NO_VA, 0)
  const STAMPS := 0x1_0000_0000 // a stamp is an unsigned int, systs an unsigned long long

  function KeyOf(e: Entry): Key {
    Key(e.va, e.asid)
  }

  // ----- geometry -----

  function BitAnd(x: nat, m: nat): (r: nat)
    ensures r <= m
  {
    if m == 0 then 0 else 2 * BitAnd(x / 2, m / 2) + (if x % 2 == 1 && m % 2 == 1 then 1 else 0)
  }

  /** step is size / ways, the distance between the slots of one set; granule is 1 << 12 for
      page numbers and 1 << 2 for descriptor addresses. */
  datatype Geometry = Geometry(size: nat, step: nat, granule: nat)

  predicate ValidGeometry(g: Geometry) {
    1 <= g.step <= g.size && g.granule > 0
  }

  /** The slot where the scan for an address begins. */
  function SetOf(g: Geometry, va: nat): (i: nat)
    requires ValidGeometry(g)
    ensures i < g.step
  {
    BitAnd(va / g.granule, g.step - 1)
  }

  function Pow2(k: nat): (p: nat)
    ensures p >= 1
  {
    if k == 0 then 1 else 2 * Pow2(k - 1)
  }

  lemma {:induction false} MaskIsRemainder(x: nat, k: nat)
    ensures BitAnd(x, Pow2(k) - 1) == Remainder(x, Pow2(k))
  {
    hide BitAnd, Remainder;
    if k == 0 {
      MaskNone(x);
    } else {
      MaskIsRemainder(x / 2, k - 1);
      MaskStep(x, Pow2(k - 1));
      RemainderByHalf(x, Pow2(k - 1));
    }
  }

  function Remainder(x: nat, m: nat): nat
    requires m > 0
  {
    x % m
  }

  lemma MaskNone(x: nat)
    ensures BitAnd(x, 0) == 0 == Remainder(x, 1)
  {
  }

  lemma MaskStep(x: nat, p: nat)
    requires p > 0
    ensures BitAnd(x, 2 * p - 1) == 2 * BitAnd(x / 2, p - 1) + x % 2
  {
    assert (2 * p - 1) / 2 == p - 1 && (2 * p - 1) % 2 == 1;
  }

  lemma RemainderByHalf(x: nat, p: nat)
    requires p > 0
    ensures Remainder(x, 2 * p) == 2 * Remainder(x / 2, p) + x % 2
  {
    Nested(x, 2, p, x / 2, x % 2, x / 2 / p, x / 2 % p);
    DivUnique(x, 2 * p, x / 2 / p, 2 * (x / 2 % p) + x % 2);
  }

  /** A scan from slot i in steps of step comes to slot j. */
  predicate Visits(i: nat, step: nat, j: nat)
    requires step > 0
    decreases j - i
  {
    i <= j && (i == j || Visits(i + step, step, j))
  }

  predicate InSet(g: Geometry, va: nat, j: nat)
    requires ValidGeometry(g)
  {
    j < g.size && Visits(SetOf(g, va), g.step, j)
  }

  lemma SetByNumber(g: Geometry, va: nat, k: nat)
    requires ValidGeometry(g) && g.step == Pow2(k)
    ensures SetOf(g, va) == va / g.granule % g.step
  {
    MaskIsRemainder(va / g.granule, k);
  }

  lemma {:induction false} VisitsBySteps(i: nat, step: nat, j: nat)
    requires step > 0 && i <= j
    ensures Visits(i, step, j) <==> Remainder(j - i, step) == 0
    decreases j - i
  {
    if i + step <= j {
      VisitsBySteps(i + step, step, j);
      RemainderLess(j - i, step);
    }
  }

  lemma RemainderLess(x: nat, m: nat)
    requires 0 < m <= x
    ensures Remainder(x - m, m) == Remainder(x, m)
  {
    Distribute(m, x / m - 1, 1);
    DivUnique(x - m, m, x / m - 1, x % m);
  }

  lemma SameRemainder(i: nat, step: nat, j: nat)
    requires i < step && i <= j
    ensures Remainder(j - i, step) == 0 <==> j % step == i
  {
    if (j - i) % step == 0 {
      DivUnique(j, step, (j - i) / step, i);
    }
    if j % step == i {
      DivUnique(j - i, step, j / step, 0);
    }
  }

  /** Where the number of sets is a power of two, the slots an address may occupy are those whose
      number agrees with the number of its granule modulo that. */
  lemma SlotsOfAddress(g: Geometry, va: nat, k: nat, j: nat)
    requires ValidGeometry(g) && g.step == Pow2(k)
    ensures InSet(g, va, j) <==> j < g.size && j % g.step == va / g.granule % g.step
  {
    hide SetOf, Remainder, Visits;
    SetByNumber(g, va, k);
    var i := SetOf(g, va);
    if i <= j {
      VisitsBySteps(i, g.step, j);
      SameRemainder(i, g.step, j);
    } else {
      NotVisited(i, g.step, j);
      RemainderBelow(j, g.step);
    }
  }

  lemma NotVisited(i: nat, step: nat, j: nat)
    requires step > 0 && j < i
    ensures !Visits(i, step, j)
  {
  }

  lemma RemainderBelow(j: nat, m: nat)
    requires j < m
    ensures j % m == j
  {
    DivUnique(j, m, 0, j);
  }

  // ----- the scan shared by the lookup functions -----

  datatype Found = Hit(slot: nat) | Victim(slot: nat)

  /** The loop from slot i; mi is the replacement candidate so far. */
  function Scan(t: seq<Entry>, key: Key, i: nat, step: nat, mi: nat): (r: Found)
    requires step > 0 && mi < |t|
    ensures r.slot < |t|
    ensures r.Hit? ==> Visits(i, step, r.slot) && KeyOf(t[r.slot]) == key
    ensures r.Hit? ==> forall j: nat | Visits(i, step, j) && j < r.slot :: KeyOf(t[j]) != key
    ensures r.Victim? ==> forall j: nat | Visits(i, step, j) && j < |t| :: KeyOf(t[j]) != key && t[r.slot].ts <= t[j].ts
    ensures r.Victim? ==> r.slot == mi || (Visits(i, step, r.slot) && t[r.slot].ts < t[mi].ts)
    ensures r.Victim? && r.slot != mi ==>
              forall j: nat | Visits(i, step, j) && j < r.slot :: t[r.slot].ts < t[j].ts
    decreases |t| - i
  {
    if i >= |t| then Victim(mi)
    else if KeyOf(t[i]) == key then Hit(i)
    else Scan(t, key, i + step, step, if t[i].ts < t[mi].ts then i else mi)
  }

  datatype Lookup = Lookup(table: seq<Entry>, hit: bool, slot: nat)

  function Stamp(systs: nat): nat {
    systs % STAMPS
  }

  /** One lookup: the table after it, whether it hit, and the slot it wrote.  systs counts the
      lookups before this one. */
  function Reference(g: Geometry, t: seq<Entry>, systs: nat, key: Key): (r: Lookup)
    requires ValidGeometry(g) && |t| == g.size
    ensures |r.table| == g.size && r.slot < g.size
    ensures r.table[r.slot] == Entry(key.va, key.asid, Stamp(systs + 1))
    ensures forall i | 0 <= i < g.size && i != r.slot :: r.table[i] == t[i]
  {
    match Scan(t, key, SetOf(g, key.va), g.step, 0)
    case Hit(i) => Lookup(t[i := t[i].(ts := Stamp(systs + 1))], true, i)
    case Victim(i) => Lookup(t[i := Entry(key.va, key.asid, Stamp(systs + 1))], false, i)
  }

  // ----- any number of sets: what every lookup keeps -----

  /** No key occupies two slots of its own set. */
  ghost predicate Unique(g: Geometry, t: seq<Entry>)
    requires ValidGeometry(g) && |t| == g.size
  {
    forall i, j | 0 <= i < j < |t| && InSet(g, t[i].va, i) && InSet(g, t[i].va, j) ::
      KeyOf(t[i]) == NO_KEY || KeyOf(t[i]) != KeyOf(t[j])
  }

  /** Nonzero stamps differ and none is ahead of the clock. */
  ghost predicate Stamped(t: seq<Entry>, systs: nat) {
    && (forall i | 0 <= i < |t| :: t[i].ts <= systs)
    && (forall i, j | 0 <= i < j < |t| && t[i].ts > 0 :: t[i].ts != t[j].ts)
  }

  lemma KeepsUnique(g: Geometry, t: seq<Entry>, systs: nat, key: Key)
    requires ValidGeometry(g) && |t| == g.size && Unique(g, t)
    ensures Unique(g, Reference(g, t, systs, key).table)
  {
    hide SetOf, Visits, Scan;
    var r := Reference(g, t, systs, key);
    var found := Scan(t, key, SetOf(g, key.va), g.step, 0);
    forall i, j | 0 <= i < j < |t| && InSet(g, r.table[i].va, i) && InSet(g, r.table[i].va, j)
      ensures KeyOf(r.table[i]) == NO_KEY || KeyOf(r.table[i]) != KeyOf(r.table[j])
    {
    }
  }

  lemma KeepsStamped(g: Geometry, t: seq<Entry>, systs: nat, key: Key)
    requires ValidGeometry(g) && |t| == g.size
    requires Stamped(t, systs) && systs + 1 < STAMPS
    ensures Stamped(Reference(g, t, systs, key).table, systs + 1)
  {
    hide Scan, SetOf;
  }

  /** A lookup hits exactly when the key is in its own set.  Otherwise it overwrites the least
      stamp among the key's set and slot 0, slot 0 being preferred on a tie. */
  lemma LookupOutcome(g: Geometry, t: seq<Entry>, systs: nat, key: Key)
    requires ValidGeometry(g) && |t| == g.size
    ensures var r := Reference(g, t, systs, key);
      && (r.hit <==> exists i: nat | InSet(g, key.va, i) :: KeyOf(t[i]) == key)
      && (r.hit ==> InSet(g, key.va, r.slot) && KeyOf(t[r.slot]) == key)
      && (!r.hit ==>
            && (r.slot == 0 || InSet(g, key.va, r.slot))
            && t[r.slot].ts <= t[0].ts
            && (forall i: nat | InSet(g, key.va, i) :: t[r.slot].ts <= t[i].ts)
            && (r.slot != 0 ==> t[r.slot].ts < t[0].ts))
  {
    hide Scan;
    hide Visits, SetOf;
    var found := Scan(t, key, SetOf(g, key.va), g.step, 0);
    if found.Hit? {
      assert InSet(g, key.va, found.slot);
    }
  }

  /** Replacement stays within the key's own set exactly when slot 0 belongs to that set or some
      slot of the set is older than slot 0. */
  lemma VictimInOwnSet(g: Geometry, t: seq<Entry>, systs: nat, key: Key)
    requires ValidGeometry(g) && |t| == g.size
    ensures var r := Reference(g, t, systs, key);
      !r.hit ==>
        (InSet(g, key.va, r.slot) <==>
           InSet(g, key.va, 0) || exists i: nat | InSet(g, key.va, i) :: t[i].ts < t[0].ts)
  {
    hide Visits, SetOf, Reference;
    LookupOutcome(g, t, systs, key);
  }

  /** Two sets of one way, from the start: after pages 0 and 0x1000, page 0x3000 of set 1 replaces the page
      of set 0. */
  lemma CrossSetEviction()
    ensures var g := Geometry(2, 2, 4096);
      var one := Reference(g, [EMPTY, EMPTY], 0, Key(0, 0)).table;
      var two := Reference(g, one, 1, Key(0x1000, 0)).table;
      && two == [Entry(0, 0, 1), Entry(0x1000, 0, 2)]
      && Reference(g, two, 2, Key(0x3000, 0)) == Lookup([Entry(0x3000, 0, 3), Entry(0x1000, 0, 2)], false, 0)
  {
    var g := Geometry(2, 2, 4096);
    var zero, one := [EMPTY, EMPTY], [Entry(0, 0, 1), EMPTY];
    var two := [Entry(0, 0, 1), Entry(0x1000, 0, 2)];
    assert BitAnd(0, 1) == 0 && BitAnd(1, 1) == 1 && BitAnd(3, 1) == 1;
    assert Scan(zero, Key(0, 0), 2, 2, 0) == Victim(0);
    assert Reference(g, zero, 0, Key(0, 0)) == Lookup(one, false, 0);
    assert Scan(one, Key(0x1000, 0), 3, 2, 1) == Victim(1);
    assert Reference(g, one, 1, Key(0x1000, 0)) == Lookup(two, false, 1);
    assert Scan(two, Key(0x3000, 0), 3, 2, 0) == Victim(0);
  }
}
