/** What the tracer records, in terms of the references and flushes alone. */
module TracerTheorems {
  import opened Numbers
  import opened Recency
  import opened TimestampCache
  import opened LruRefinement
  import opened Simulators
  import opened Tracer

  // ----- residence of a page -----

  /** The page and space that a reference uses. */
  function RefKey(e: Event): Key
    requires e.Ref?
  {
    Key(e.addr / 0x1000 * 0x1000, e.asid)
  }

  /** The pages a flush is for; one page is named by an address whose low byte is the space. */
  predicate Covered(e: Event, k: Key)
    requires !e.Ref?
  {
    match e
    case FlushAll => true
    case FlushEntry(va) => k == Key(va / 0x1000 % 0x10_0000 * 0x1000, va % 0x100)
    case FlushAsid(asid) => k.asid == asid
  }

  function Live(s: set<Key>, e: Event): (r: set<Key>)
    requires !e.Ref?
    ensures forall x :: x in r <==> x in s && !Covered(e, x)
  {
    set x | x in s && !Covered(e, x)
  }

  /** The other pages used since the last use of k and not flushed since. */
  function Since(events: seq<Event>, k: Key): set<Key> {
    if events == [] then {}
    else
      var e := events[|events| - 1];
      var s := Since(events[..|events| - 1], k);
      if !e.Ref? then Live(s, e)
      else if RefKey(e) == k then {}
      else s + {RefKey(e)}
  }

  /** k has been used, no flush since was for it, and at no time since have n other pages been used
      after it and not flushed. */
  predicate Resident(n: nat, events: seq<Event>, k: Key) {
    events != [] &&
    var e := events[|events| - 1];
    var before := events[..|events| - 1];
    if !e.Ref? then Resident(n, before, k) && !Covered(e, k)
    else RefKey(e) == k || (Resident(n, before, k) && |Since(events, k)| < n)
  }

  /** The references whose page is not resident, in order. */
  function Missed(n: nat, events: seq<Event>): seq<Miss> {
    if events == [] then []
    else
      var e := events[|events| - 1];
      var before := events[..|events| - 1];
      Missed(n, before)
      + if e.Ref? && !Resident(n, before, RefKey(e)) then [Miss(RefKey(e).va, e.walk)] else []
  }

  function References(events: seq<Event>): nat {
    if events == [] then 0
    else References(events[..|events| - 1]) + if events[|events| - 1].Ref? then 1 else 0
  }

  // ----- what flushes do to residence -----

  lemma SinceLast(events: seq<Event>, e: Event, k: Key)
    ensures Since(events + [e], k) ==
      if !e.Ref? then Live(Since(events, k), e)
      else if RefKey(e) == k then {} else Since(events, k) + {RefKey(e)}
  {
    assert (events + [e])[..|events|] == events;
  }

  lemma ResidentLast(n: nat, events: seq<Event>, e: Event, k: Key)
    ensures Resident(n, events + [e], k) <==>
      if !e.Ref? then Resident(n, events, k) && !Covered(e, k)
      else RefKey(e) == k || (Resident(n, events, k) && |Since(events + [e], k)| < n)
  {
    assert (events + [e])[..|events|] == events;
  }

  /** Until it is used again, a page that a flush was for is not resident, whatever comes between. */
  lemma {:induction false} FlushedMisses(n: nat, before: seq<Event>, e: Event, after: seq<Event>, k: Key)
    requires !e.Ref? && Covered(e, k)
    requires forall i | 0 <= i < |after| && after[i].Ref? :: RefKey(after[i]) != k
    ensures !Resident(n, before + [e] + after, k)
    decreases |after|
  {
    hide Resident, Covered, RefKey;
    if after == [] {
      assert before + [e] + after == before + [e];
      ResidentLast(n, before, e, k);
    } else {
      var i := |after| - 1;
      FlushedMisses(n, before, e, after[..i], k);
      assert before + [e] + after == before + [e] + after[..i] + [after[i]];
      ResidentLast(n, before + [e] + after[..i], after[i], k);
    }
  }

  /** A flush does no harm to the pages it is not for: right after it they are resident as before, and
      at any time after it they are where they would be without it. */
  lemma {:induction false} OthersKept(n: nat, before: seq<Event>, e: Event, after: seq<Event>, k: Key)
    requires !e.Ref? && !Covered(e, k)
    ensures Since(before + [e] + after, k) <= Since(before + after, k)
    ensures Resident(n, before + after, k) ==> Resident(n, before + [e] + after, k)
    ensures after == [] ==> (Resident(n, before + [e], k) <==> Resident(n, before, k))
    decreases |after|
  {
    hide Resident, Since, Covered, RefKey;
    if after == [] {
      assert before + [e] + after == before + [e] && before + after == before;
      ResidentLast(n, before, e, k);
      SinceLast(before, e, k);
    } else {
      var i := |after| - 1;
      var a, b, f := before + after[..i], before + [e] + after[..i], after[i];
      OthersKept(n, before, e, after[..i], k);
      assert before + after == a + [f] && before + [e] + after == b + [f];
      ResidentLast(n, a, f, k);
      ResidentLast(n, b, f, k);
      SinceLast(a, f, k);
      SinceLast(b, f, k);
      SubsetSize(Since(b + [f], k), Since(a + [f], k));
    }
  }

  // ----- a list of pages, most recently used first -----

  function Kept(l: seq<Key>, e: Event): (r: seq<Key>)
    requires !e.Ref?
    ensures forall x :: x in r <==> x in l && !Covered(e, x)
    ensures |r| <= |l|
  {
    if l == [] then [] else (if Covered(e, l[0]) then [] else [l[0]]) + Kept(l[1..], e)
  }

  function Listed(n: nat, events: seq<Event>): seq<Key> {
    if events == [] then []
    else
      var e := events[|events| - 1];
      var l := Listed(n, events[..|events| - 1]);
      if e.Ref? then Take(Touch(l, RefKey(e)), n) else Kept(l, e)
  }

  lemma {:induction false} KeptDistinct(l: seq<Key>, e: Event)
    requires !e.Ref? && Distinct(l)
    ensures Distinct(Kept(l, e))
  {
    if l != [] {
      KeptDistinct(l[1..], e);
      assert l[0] !in l[1..];
    }
  }

  lemma AheadCons(x: Key, l: seq<Key>, k: Key)
    ensures Ahead([x] + l, k) == if x == k then {} else {x} + Ahead(l, k)
  {
    assert ([x] + l)[1..] == l;
  }

  lemma KeptCons(x: Key, l: seq<Key>, e: Event)
    requires !e.Ref?
    ensures Kept([x] + l, e) == if Covered(e, x) then Kept(l, e) else [x] + Kept(l, e)
  {
    assert ([x] + l)[1..] == l;
  }

  lemma LiveCons(x: Key, s: set<Key>, e: Event)
    requires !e.Ref?
    ensures Live({x} + s, e) == if Covered(e, x) then Live(s, e) else {x} + Live(s, e)
  {
    hide Covered;
  }

  lemma {:induction false} AheadKept(l: seq<Key>, e: Event, k: Key)
    requires !e.Ref? && !Covered(e, k)
    ensures Ahead(Kept(l, e), k) == Live(Ahead(l, k), e)
  {
    hide Covered, Live;
    if l != [] {
      hide Ahead, Kept;
      AheadKept(l[1..], e, k);
      assert l == [l[0]] + l[1..];
      AheadCons(l[0], l[1..], k);
      KeptCons(l[0], l[1..], e);
      AheadCons(l[0], Kept(l[1..], e), k);
      LiveCons(l[0], Ahead(l[1..], k), e);
      if l[0] == k {
        assert Live({}, e) == {};
      }
    }
  }

  lemma {:induction false} AheadTake(l: seq<Key>, n: nat, k: Key)
    requires k in Take(l, n)
    ensures Ahead(Take(l, n), k) == Ahead(l, k)
  {
    if l != [] && n > 0 && l[0] != k {
      assert Take(l, n) == [l[0]] + Take(l[1..], n - 1);
      AheadTake(l[1..], n - 1, k);
    }
  }

  /** A page is in the list exactly when it is resident. */
  lemma {:induction false} ListedIsResident(n: nat, events: seq<Event>, k: Key)
    requires n > 0
    ensures Distinct(Listed(n, events))
    ensures k in Listed(n, events) <==> Resident(n, events, k)
    ensures k in Listed(n, events) ==> Ahead(Listed(n, events), k) == Since(events, k)
  {
    if events != [] {
      hide Covered, Distinct, Ahead, Take, RefKey;
      var i := |events| - 1;
      var l, e := Listed(n, events[..i]), events[i];
      ListedIsResident(n, events[..i], k);
      if !e.Ref? {
        KeptDistinct(l, e);
        if !Covered(e, k) {
          AheadKept(l, e, k);
        }
      } else {
        ListedUse(n, l, RefKey(e), k);
      }
    }
  }

  lemma ListedUse(n: nat, l: seq<Key>, x: Key, k: Key)
    requires n > 0 && Distinct(l)
    ensures var r := Take(Touch(l, x), n);
      && Distinct(r)
      && (x == k ==> k in r && Ahead(r, k) == {})
      && (x != k ==> (k in r <==> k in l && |Ahead(l, k) + {x}| < n))
      && (x != k && k in r ==> Ahead(r, k) == Ahead(l, k) + {x})
  {
    var t := Touch(l, x);
    WithoutDistinct(l, x);
    assert Distinct(t);
    if x == k {
      assert Take(t, n)[0] == k;
    } else {
      AheadTouch(l, x, k);
      TakeByAhead(t, k, n);
      if k in Take(t, n) {
        AheadTake(t, n, k);
      }
    }
  }

  lemma AheadTouch(l: seq<Key>, x: Key, k: Key)
    requires x != k
    ensures Ahead(Touch(l, x), k) == Ahead(l, k) + {x}
  {
    AheadWithout(l, x, k);
    assert Touch(l, x)[1..] == Without(l, x);
  }

  // ----- the table holds the list -----

  lemma CoveredIsFlushed(e: Event, x: Entry)
    requires !e.Ref?
    ensures Flushed(e, x) <==> Covered(e, KeyOf(x))
  {
    if e.FlushEntry? {
      SplitPage(e.va);
    }
  }

  lemma SplitPage(va: nat)
    ensures PageOf(va % STAMPS) == va / 0x1000 % 0x10_0000 * 0x1000
    ensures PageOf(va) == va / 0x1000 * 0x1000 != NO_VA
  {
    var q, r := va / STAMPS, va % STAMPS;
    assert va == 0x1_0000_0000 * q + r;
    assert va / 0x1000 == 0x10_0000 * q + r / 0x1000;
    assert va / 0x1000 % 0x10_0000 == r / 0x1000;
  }

  function KeptSlots(t: seq<Entry>, p: seq<nat>, e: Event): (q: seq<nat>)
    requires !e.Ref? && Slots(t, p)
    ensures forall s :: s in q <==> s in p && !Flushed(e, t[s])
  {
    if p == [] then [] else (if Flushed(e, t[p[0]]) then [] else [p[0]]) + KeptSlots(t, p[1..], e)
  }

  lemma KeysOfSlots(t: seq<Entry>, p: seq<nat>)
    requires Slots(t, p) && p != []
    ensures KeysAt(t, p) == [KeyOf(t[p[0]])] + KeysAt(t, p[1..])
  {
  }

  lemma KeptSlotsCons(t: seq<Entry>, p: seq<nat>, e: Event)
    requires !e.Ref? && Slots(t, p) && p != []
    ensures KeptSlots(t, p, e)
         == if Flushed(e, t[p[0]]) then KeptSlots(t, p[1..], e) else [p[0]] + KeptSlots(t, p[1..], e)
  {
    hide Flushed;
  }

  lemma {:induction false} KeptSlotsOk(t: seq<Entry>, systs: nat, p: seq<nat>, e: Event)
    requires !e.Ref? && Slots(t, p) && Descending(t, systs, p)
    ensures var q := KeptSlots(t, p, e);
      && Slots(Flush(t, e), q) && Descending(Flush(t, e), systs, q)
      && KeysAt(Flush(t, e), q) == Kept(KeysAt(t, p), e)
  {
    hide Flushed, Covered, KeysAt, Descending, Flush;
    if p == [] {
      NoSlots(t, Flush(t, e), systs);
    } else {
      hide Kept, KeptSlots;
      DescendingRest(t, systs, p);
      KeptSlotsOk(t, systs, p[1..], e);
      CoveredIsFlushed(e, t[p[0]]);
      KeysOfSlots(t, p);
      KeptSlotsCons(t, p, e);
      KeptCons(KeyOf(t[p[0]]), KeysAt(t, p[1..]), e);
      if !Flushed(e, t[p[0]]) {
        KeptOne(t, systs, p, KeptSlots(t, p[1..], e), e);
      }
    }
  }

  lemma NoSlots(t: seq<Entry>, t': seq<Entry>, systs: nat)
    ensures Descending(t', systs, []) && KeysAt(t, []) == [] == KeysAt(t', [])
  {
  }

  lemma DescendingRest(t: seq<Entry>, systs: nat, p: seq<nat>)
    requires Descending(t, systs, p) && p != []
    ensures Descending(t, systs, p[1..])
  {
  }

  lemma KeptOne(t: seq<Entry>, systs: nat, p: seq<nat>, q: seq<nat>, e: Event)
    requires !e.Ref? && Slots(t, p) && Descending(t, systs, p) && p != [] && !Flushed(e, t[p[0]])
    requires Slots(Flush(t, e), q) && Descending(Flush(t, e), systs, q)
    requires forall s | s in q :: s in p[1..] && !Flushed(e, t[s])
    ensures Slots(Flush(t, e), [p[0]] + q) && Descending(Flush(t, e), systs, [p[0]] + q)
    ensures KeysAt(Flush(t, e), [p[0]] + q) == [KeyOf(t[p[0]])] + KeysAt(Flush(t, e), q)
  {
    hide Flushed;
    var t' := Flush(t, e);
    forall j | 0 <= j < |q|
      ensures q[j] < |t'| && t'[p[0]].ts > t'[q[j]].ts
    {
      assert q[j] in p[1..];
    }
  }

  /** After a flush the table holds the list without the pages that the flush is for. */
  lemma FlushHolds(t: seq<Entry>, systs: nat, l: seq<Key>, e: Event)
    requires !e.Ref? && Holds(t, systs, l)
    ensures Holds(Flush(t, e), systs, Kept(l, e))
  {
    hide Flushed, Covered, Descending, Distinct;
    var p :| Ordered(t, systs, p) && KeysAt(t, p) == l;
    var q := KeptSlots(t, p, e);
    KeptSlotsOk(t, systs, p, e);
    KeptDistinct(l, e);
    assert Ordered(Flush(t, e), systs, q);
  }

  // ----- runs -----

  /** The tracer is as the references and flushes so far imply. */
  ghost predicate Follows(g: Geometry, s: Trace, events: seq<Event>) {
    && Valid(g, s) && !s.exited
    && Holds(s.table, s.systs, Listed(g.size, events))
    && s.log == Missed(g.size, events)
    && s.miss == |s.log| && s.hit + s.miss == s.systs == References(events)
  }

  /** A reference that does not end the program. */
  lemma RefEffect(g: Geometry, s: Trace, e: Event)
    requires Valid(g, s) && !s.exited && e.Ref? && s.systs + 1 < LIMIT
    ensures var r, s' := Reference(g, s.table, s.systs, RefKey(e)), Step(false, g, s, e);
      && s'.table == r.table && s'.systs == s.systs + 1 && !s'.exited
      && s'.hit == s.hit + (if r.hit then 1 else 0)
      && s'.miss == s.miss + (if r.hit then 0 else 1)
      && s'.log == s.log + if r.hit then [] else [Miss(RefKey(e).va, e.walk)]
  {
    hide Reference, BUFFER_WORDS;
    SplitPage(e.addr);
  }

  lemma FollowsRef(g: Geometry, s: Trace, events: seq<Event>, e: Event)
    requires OneSet(g) && Follows(g, s, events) && e.Ref? && s.systs + 1 < STAMPS
    ensures Follows(g, Step(false, g, s, e), events + [e])
  {
    hide Reference, Holds, Touch, Take, Resident, Step;
    assert (events + [e])[..|events|] == events;
    SplitPage(e.addr);
    RefEffect(g, s, e);
    LookupRefines(g, s.table, s.systs, RefKey(e), Listed(g.size, events));
    ListedIsResident(g.size, events, RefKey(e));
  }

  lemma FollowsFlush(g: Geometry, s: Trace, events: seq<Event>, e: Event)
    requires OneSet(g) && Follows(g, s, events) && !e.Ref?
    ensures Follows(g, Step(false, g, s, e), events + [e])
  {
    hide Holds, Flush, Kept;
    assert (events + [e])[..|events|] == events;
    FlushHolds(s.table, s.systs, Listed(g.size, events), e);
  }

  lemma {:induction false} ScanFollows(g: Geometry, last: nat, events: seq<Event>)
    requires OneSet(g) && last < g.size && References(events) < STAMPS
    ensures Follows(g, RunTrace(false, g, Started(g, last), events), events)
  {
    if events == [] {
      assert Ordered(Started(g, last).table, 0, []);
    } else {
      hide Step, Follows;
      var n := |events| - 1;
      assert events == events[..n] + [events[n]];
      ScanFollows(g, last, events[..n]);
      var s := RunTrace(false, g, Started(g, last), events[..n]);
      FollowsSysts(g, s, events[..n]);
      if events[n].Ref? {
        FollowsRef(g, s, events[..n], events[n]);
      } else {
        FollowsFlush(g, s, events[..n], events[n]);
      }
    }
  }

  lemma FollowsSysts(g: Geometry, s: Trace, events: seq<Event>)
    requires Follows(g, s, events)
    ensures s.systs == References(events)
  {
  }

  /** With one set and fewer than 2^32 references, with the shortcut or without, and across all
      flushes: the pages in the table are those resident, and the misses recorded are the references
      to pages not resident, in order. */
  lemma TracerIsLru(fast: bool, g: Geometry, last: nat, events: seq<Event>, k: Key)
    requires OneSet(g) && last < g.size && References(events) < STAMPS
    ensures var s := RunTrace(fast, g, Started(g, last), events);
      && !s.exited
      && (k != NO_KEY ==> (Contains(s.table, k) <==> Resident(g.size, events, k)))
      && s.log == Missed(g.size, events) && s.miss == |s.log|
      && s.hit + s.miss == s.systs == References(events)
  {
    hide RunTrace, Holds, Contains, Resident, Missed;
    ScanFollows(g, last, events);
    StartedUnique(g, last);
    FastIsScan(g, Started(g, last), events);
    var s := RunTrace(false, g, Started(g, last), events);
    ListedIsResident(g.size, events, k);
    if k != NO_KEY {
      HoldsContents(s.table, s.systs, Listed(g.size, events), k);
    }
  }

  lemma StartedUnique(g: Geometry, last: nat)
    requires ValidGeometry(g) && last < g.size
    ensures Unique(g, Started(g, last).table)
  {
  }

  /** The file of a stopped trace has one record per reference to a page not resident. */
  lemma TraceContents(fast: bool, g: Geometry, last: nat, events: seq<Event>)
    requires OneSet(g) && last < g.size && References(events) < STAMPS
    requires forall i | 0 <= i < |events| :: ValidEvent(events[i])
    ensures var records := Parse(Stop(RunTrace(fast, g, Started(g, last), events)).file);
      var missed := Missed(g.size, events);
      |records| == |missed| && forall i | 0 <= i < |missed| :: Tells(records[i], missed[i])
  {
    hide RunTrace, Missed, Tells, Parse;
    TracerIsLru(fast, g, last, events, NO_KEY);
    TraceFile(fast, g, last, events);
  }

  /** Slot by slot, with any number of sets. */
  lemma FlushSlots(t: seq<Entry>, va: nat, asid: nat, i: nat)
    requires i < |t|
    ensures Flush(t, FlushAll)[i] == EMPTY
    ensures Flush(t, FlushAsid(asid))[i] == if t[i].asid == asid then EMPTY else t[i]
    ensures Flush(t, FlushEntry(va))[i] ==
      if KeyOf(t[i]) == Key(va / 0x1000 % 0x10_0000 * 0x1000, va % 0x100) then EMPTY else t[i]
  {
    SplitPage(va);
  }
}
