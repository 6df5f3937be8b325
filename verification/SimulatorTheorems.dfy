/** What the simulations report, proved over every trace. */
module SimulatorTheorems {
  import opened Recency
  import opened TimestampCache
  import opened LruRefinement
  import opened CacheHistory
  import opened Simulators

  // ----- lookups of one cache -----

  function KeysOf(log: seq<Access>, pwc: bool): seq<Key> {
    if log == [] then []
    else KeysOf(log[..|log| - 1], pwc) + if log[|log| - 1].pwc == pwc then [log[|log| - 1].key] else []
  }

  lemma KeysOfLast(log: seq<Access>, a: Access, pwc: bool)
    ensures KeysOf(log + [a], pwc) == KeysOf(log, pwc) + if a.pwc == pwc then [a.key] else []
  {
    assert (log + [a])[..|log|] == log;
  }

  /** Both caches behave as LRU caches of their sizes under the lookups made so far. */
  ghost predicate LruSim(s: Sim) {
    && ValidSim(s)
    && Tracks(s.ntlb, s.systs, KeysOf(s.log, false))
    && Tracks(s.pwc, s.systs, KeysOf(s.log, true))
  }

  lemma UseNtlbLru(s: Sim, va: nat)
    requires LruSim(s) && va != NO_VA && |s.log| + 1 < STAMPS
    ensures LruSim(UseNtlb(s, va).sim)
    ensures UseNtlb(s, va).hit <==> LruHit(KeysOf(s.log, false), Key(va, 0), s.ntlb.g.size)
  {
    hide Tracks, Refer, KeysOf, LruHit;
    var key := Key(va, 0);
    ReferTracks(s.ntlb, s.systs, KeysOf(s.log, false), key);
    TracksLater(s.pwc, s.systs, s.systs + 1, KeysOf(s.log, true));
    var a := Access(false, key, Refer(s.ntlb, s.systs, key).hit);
    KeysOfLast(s.log, a, false);
    KeysOfLast(s.log, a, true);
    assert KeysOf(s.log, true) + [] == KeysOf(s.log, true);
  }

  lemma UsePwcLru(s: Sim, va: nat, asid: nat)
    requires LruSim(s) && Key(va, asid) != NO_KEY && |s.log| + 1 < STAMPS
    ensures LruSim(UsePwc(s, va, asid).sim)
    ensures UsePwc(s, va, asid).hit <==> LruHit(KeysOf(s.log, true), Key(va, asid), s.pwc.g.size)
  {
    hide Tracks, Refer, KeysOf, LruHit;
    var key := Key(va, asid);
    ReferTracks(s.pwc, s.systs, KeysOf(s.log, true), key);
    TracksLater(s.ntlb, s.systs, s.systs + 1, KeysOf(s.log, false));
    var a := Access(true, key, Refer(s.pwc, s.systs, key).hit);
    KeysOfLast(s.log, a, true);
    KeysOfLast(s.log, a, false);
    assert KeysOf(s.log, false) + [] == KeysOf(s.log, false);
  }

  /** The words of a record are 32 bits wide. */
  predicate ValidRecord(r: Record) {
    r.mva < STAMPS && r.l1 < STAMPS && r.l2 < STAMPS && r.gpa < STAMPS
  }

  /** A complete walk that leads to the address tagging empty slots would hit one of them.  The
      tracer emits page addresses, never this one. */
  predicate NoEmptyTag(r: Record) {
    Level(r) > 2 ==> r.gpa != NO_VA
  }

  lemma WalkEptLru(s: Sim, gpa: nat)
    requires LruSim(s) && gpa < STAMPS && |WalkEpt(s, gpa).log| < STAMPS
    ensures LruSim(WalkEpt(s, gpa))
  {
    hide Tracks, KeysOf;
    assert LruSim(ChargePwc(s, EptL1(gpa), 0)) by { ChargePwcLru(s, EptL1(gpa), 0); }
    ChargePwcLru(ChargePwc(s, EptL1(gpa), 0), EptL2(gpa), 0);
  }

  lemma ChargePwcLru(s: Sim, va: nat, asid: nat)
    requires LruSim(s) && Key(va, asid) != NO_KEY && |s.log| + 1 < STAMPS
    ensures LruSim(ChargePwc(s, va, asid))
  {
    hide Tracks, UsePwc;
    UsePwcLru(s, va, asid);
  }

  lemma FindNtlbLru(s: Sim, va: nat, final: bool)
    requires LruSim(s) && va != NO_VA && |s.log| + 1 < STAMPS
    ensures LruSim(FindNtlb(s, va, final))
  {
    hide Tracks, UseNtlb;
    UseNtlbLru(s, va);
  }

  lemma EmulateNtlbLru(s: Sim, r: Record)
    requires LruSim(s) && NoEmptyTag(r) && |EmulateNtlb(s, r).log| < STAMPS
    ensures LruSim(EmulateNtlb(s, r))
  {
    hide Tracks, KeysOf, FindNtlb;
    FindNtlbLru(s, PageOf(r.l1), false);
    var s1 := FindNtlb(s, PageOf(r.l1), false);
    if Level(r) > 1 {
      FindNtlbLru(s1, PageOf(r.l2), false);
      if Level(r) > 2 {
        FindNtlbLru(FindNtlb(s1, PageOf(r.l2), false), r.gpa, true);
      }
    }
  }

  lemma DescEptLru(s: Sim, va: nat)
    requires LruSim(s) && va < STAMPS && |DescEpt(s, va).log| < STAMPS
    ensures LruSim(DescEpt(s, va))
  {
    hide Tracks, KeysOf, UsePwc, WalkEpt;
    UsePwcLru(s, va, 1);
    var u := UsePwc(s, va, 1);
    if !u.hit {
      WalkEptLru(u.sim, va);
    }
  }

  lemma EmulatePwcEptLru(s: Sim, r: Record)
    requires LruSim(s) && ValidRecord(r) && |EmulatePwcEpt(s, r).log| < STAMPS
    ensures LruSim(EmulatePwcEpt(s, r))
  {
    hide Tracks, KeysOf, DescEpt, WalkEpt;
    DescEptLru(s, r.l1);
    var s1 := DescEpt(s, r.l1);
    if Level(r) > 1 {
      DescEptLru(s1, r.l2);
      if Level(r) > 2 {
        WalkEptLru(DescEpt(s1, r.l2), r.gpa);
      }
    }
  }

  lemma EmulatePwcNoEptLru(s: Sim, r: Record)
    requires LruSim(s) && |EmulatePwcNoEpt(s, r).log| < STAMPS
    ensures LruSim(EmulatePwcNoEpt(s, r))
  {
    hide Tracks, KeysOf, ChargePwc;
    ChargePwcLru(s, r.l1, 1);
    if Level(r) > 1 {
      ChargePwcLru(ChargePwc(s, r.l1, 1), r.l2, 1);
    }
  }

  lemma TranslateLru(s: Sim, va: nat, gpa: nat)
    requires LruSim(s) && va != NO_VA && gpa < STAMPS && |Translate(s, va, gpa).log| < STAMPS
    ensures LruSim(Translate(s, va, gpa))
  {
    hide Tracks, KeysOf, UseNtlb, WalkEpt;
    UseNtlbLru(s, va);
    var u := UseNtlb(s, va);
    if !u.hit {
      WalkEptLru(u.sim, gpa);
    }
  }

  lemma DescFullLru(s: Sim, va: nat)
    requires LruSim(s) && va < STAMPS && |DescFull(s, va).log| < STAMPS
    ensures LruSim(DescFull(s, va))
  {
    hide Tracks, KeysOf, UsePwc, Translate;
    UsePwcLru(s, va, 1);
    var u := UsePwc(s, va, 1);
    if !u.hit {
      TranslateLru(u.sim, PageOf(va), va);
    }
  }

  lemma EmulateFullLru(s: Sim, r: Record)
    requires LruSim(s) && ValidRecord(r) && NoEmptyTag(r) && |EmulateFull(s, r).log| < STAMPS
    ensures LruSim(EmulateFull(s, r))
  {
    hide Tracks, KeysOf, DescFull, Translate;
    DescFullLru(s, r.l1);
    var s1 := DescFull(s, r.l1);
    if Level(r) > 1 {
      DescFullLru(s1, r.l2);
      if Level(r) > 2 {
        TranslateLru(DescFull(s1, r.l2), r.gpa, r.gpa);
      }
    }
  }

  predicate ValidTrace(trace: seq<Record>) {
    forall i | 0 <= i < |trace| :: ValidRecord(trace[i]) && NoEmptyTag(trace[i])
  }

  /** Every simulation is exact LRU with one set: after any trace each cache holds its size's
      worth of most recently used keys and has counted exactly the LRU misses, as long as fewer
      than 2^32 lookups were made. */
  lemma {:induction false} RunIsLru(kind: Kind, s: Sim, trace: seq<Record>)
    requires LruSim(s) && ValidTrace(trace) && |Run(kind, s, trace).log| < STAMPS
    ensures LruSim(Run(kind, s, trace))
  {
    hide Tracks, KeysOf, EmulateNtlb, EmulatePwcEpt, EmulatePwcNoEpt, EmulateFull;
    if trace != [] {
      var n := |trace| - 1;
      var before := Run(kind, s, trace[..n]);
      RunIsLru(kind, s, trace[..n]);
      match kind {
        case NtlbOnly => EmulateNtlbLru(before, trace[n]);
        case PwcEpt => EmulatePwcEptLru(before, trace[n]);
        case PwcNoEpt => EmulatePwcNoEptLru(before, trace[n]);
        case NtlbPwc => EmulateFullLru(before, trace[n]);
      }
    }
  }

  lemma StartIsLru(ntlb: Geometry, pwc: Geometry)
    requires OneSet(ntlb) && OneSet(pwc)
    ensures LruSim(Start(ntlb, pwc))
  {
    FreshTracks(ntlb);
    FreshTracks(pwc);
  }

  // ----- any number of sets -----

  ghost predicate SaneCache(c: Cache, systs: nat)
    requires ValidCache(c)
  {
    Unique(c.g, c.table) && (systs < STAMPS ==> Stamped(c.table, systs))
  }

  /** Keys are unique within their sets and, within 2^32 lookups, nonzero stamps are distinct. */
  ghost predicate Sane(s: Sim) {
    ValidSim(s) && SaneCache(s.ntlb, s.systs) && SaneCache(s.pwc, s.systs)
  }

  lemma ReferSane(c: Cache, systs: nat, key: Key)
    requires ValidCache(c) && SaneCache(c, systs)
    ensures SaneCache(Refer(c, systs, key).cache, systs + 1)
    ensures SaneCache(c, systs + 1)
  {
    hide Unique, Reference;
    KeepsUnique(c.g, c.table, systs, key);
    if systs + 1 < STAMPS {
      KeepsStamped(c.g, c.table, systs, key);
    }
  }

  lemma UseNtlbSane(s: Sim, va: nat)
    requires Sane(s)
    ensures Sane(UseNtlb(s, va).sim)
  {
    hide SaneCache, Refer;
    ReferSane(s.ntlb, s.systs, Key(va, 0));
    ReferSane(s.pwc, s.systs, Key(va, 0));
  }

  lemma UsePwcSane(s: Sim, va: nat, asid: nat)
    requires Sane(s)
    ensures Sane(UsePwc(s, va, asid).sim) && Sane(ChargePwc(s, va, asid))
  {
    hide SaneCache, Refer;
    ReferSane(s.ntlb, s.systs, Key(va, asid));
    ReferSane(s.pwc, s.systs, Key(va, asid));
  }

  lemma WalkEptSane(s: Sim, gpa: nat)
    requires Sane(s)
    ensures Sane(WalkEpt(s, gpa))
  {
    hide SaneCache, ChargePwc;
    UsePwcSane(s, EptL1(gpa), 0);
    UsePwcSane(ChargePwc(s, EptL1(gpa), 0), EptL2(gpa), 0);
  }

  lemma DescEptSane(s: Sim, va: nat)
    requires Sane(s)
    ensures Sane(DescEpt(s, va))
  {
    hide SaneCache, UsePwc, WalkEpt;
    UsePwcSane(s, va, 1);
    WalkEptSane(UsePwc(s, va, 1).sim, va);
  }

  lemma TranslateSane(s: Sim, va: nat, gpa: nat)
    requires Sane(s)
    ensures Sane(Translate(s, va, gpa))
  {
    hide SaneCache, UseNtlb, WalkEpt;
    UseNtlbSane(s, va);
    WalkEptSane(UseNtlb(s, va).sim, gpa);
  }

  lemma DescFullSane(s: Sim, va: nat)
    requires Sane(s)
    ensures Sane(DescFull(s, va))
  {
    hide SaneCache, UsePwc, Translate;
    UsePwcSane(s, va, 1);
    TranslateSane(UsePwc(s, va, 1).sim, PageOf(va), va);
  }

  lemma FindNtlbSane(s: Sim, va: nat, final: bool)
    requires Sane(s)
    ensures Sane(FindNtlb(s, va, final))
  {
    hide SaneCache, UseNtlb;
    UseNtlbSane(s, va);
  }

  lemma EmulateSane(kind: Kind, s: Sim, r: Record)
    requires Sane(s)
    ensures Sane(Emulate(kind, s, r))
  {
    hide SaneCache, FindNtlb, DescEpt, WalkEpt, ChargePwc, DescFull, Translate;
    match kind {
      case NtlbOnly =>
        FindNtlbSane(s, PageOf(r.l1), false);
        var s1 := FindNtlb(s, PageOf(r.l1), false);
        FindNtlbSane(s1, PageOf(r.l2), false);
        FindNtlbSane(s1, r.gpa, true);
        FindNtlbSane(FindNtlb(s1, PageOf(r.l2), false), r.gpa, true);
      case PwcEpt =>
        DescEptSane(s, r.l1);
        var s1 := DescEpt(s, r.l1);
        DescEptSane(s1, r.l2);
        WalkEptSane(s1, r.gpa);
        WalkEptSane(DescEpt(s1, r.l2), r.gpa);
      case PwcNoEpt =>
        UsePwcSane(s, r.l1, 1);
        UsePwcSane(ChargePwc(s, r.l1, 1), r.l2, 1);
      case NtlbPwc =>
        DescFullSane(s, r.l1);
        var s1 := DescFull(s, r.l1);
        DescFullSane(s1, r.l2);
        TranslateSane(s1, r.gpa, r.gpa);
        TranslateSane(DescFull(s1, r.l2), r.gpa, r.gpa);
    }
  }

  /** In every state a simulation reaches, with any number of sets in either cache. */
  lemma {:induction false} RunSane(kind: Kind, ntlb: Geometry, pwc: Geometry, trace: seq<Record>)
    requires ValidGeometry(ntlb) && ValidGeometry(pwc)
    ensures Sane(Run(kind, Start(ntlb, pwc), trace))
  {
    if trace == [] {
      FreshSane(ntlb);
      FreshSane(pwc);
    } else {
      hide Sane, Emulate;
      RunSane(kind, ntlb, pwc, trace[..|trace| - 1]);
      EmulateSane(kind, Run(kind, Start(ntlb, pwc), trace[..|trace| - 1]), trace[|trace| - 1]);
    }
  }

  lemma FreshSane(g: Geometry)
    requires ValidGeometry(g)
    ensures SaneCache(Fresh(g), 0)
  {
  }

  // ----- the reference streams that a trace fixes -----

  function NtlbRefs(trace: seq<Record>): seq<Key> {
    if trace == [] then []
    else
      var r := trace[|trace| - 1];
      NtlbRefs(trace[..|trace| - 1])
      + [Key(PageOf(r.l1), 0)]
      + (if Level(r) > 1 then [Key(PageOf(r.l2), 0)] else [])
      + (if Level(r) > 2 then [Key(r.gpa, 0)] else [])
  }

  /** References to the guest's own page descriptors. */
  function DescRefs(trace: seq<Record>): seq<Key> {
    if trace == [] then []
    else
      var r := trace[|trace| - 1];
      DescRefs(trace[..|trace| - 1])
      + [Key(r.l1, 1)]
      + (if Level(r) > 1 then [Key(r.l2, 1)] else [])
  }

  lemma FindNtlbKeys(s: Sim, va: nat, final: bool)
    requires ValidSim(s)
    ensures KeysOf(FindNtlb(s, va, final).log, false) == KeysOf(s.log, false) + [Key(va, 0)]
  {
    hide KeysOf, Refer;
    KeysOfLast(s.log, Access(false, Key(va, 0), UseNtlb(s, va).hit), false);
  }

  lemma ChargePwcKeys(s: Sim, va: nat, asid: nat)
    requires ValidSim(s)
    ensures KeysOf(ChargePwc(s, va, asid).log, true) == KeysOf(s.log, true) + [Key(va, asid)]
  {
    hide KeysOf, Refer;
    KeysOfLast(s.log, Access(true, Key(va, asid), UsePwc(s, va, asid).hit), true);
  }

  lemma {:induction false} NtlbStream(s: Sim, trace: seq<Record>)
    requires ValidSim(s)
    ensures KeysOf(Run(NtlbOnly, s, trace).log, false) == KeysOf(s.log, false) + NtlbRefs(trace)
  {
    hide KeysOf, FindNtlb;
    if trace != [] {
      var n := |trace| - 1;
      var b, r := Run(NtlbOnly, s, trace[..n]), trace[n];
      NtlbStream(s, trace[..n]);
      FindNtlbKeys(b, PageOf(r.l1), false);
      var b1 := FindNtlb(b, PageOf(r.l1), false);
      if Level(r) > 1 {
        FindNtlbKeys(b1, PageOf(r.l2), false);
        var b2 := FindNtlb(b1, PageOf(r.l2), false);
        if Level(r) > 2 {
          FindNtlbKeys(b2, r.gpa, true);
        }
      }
    }
  }

  lemma {:induction false} NoEptStream(s: Sim, trace: seq<Record>)
    requires ValidSim(s)
    ensures KeysOf(Run(PwcNoEpt, s, trace).log, true) == KeysOf(s.log, true) + DescRefs(trace)
  {
    hide KeysOf, ChargePwc;
    if trace != [] {
      var n := |trace| - 1;
      var b, r := Run(PwcNoEpt, s, trace[..n]), trace[n];
      NoEptStream(s, trace[..n]);
      ChargePwcKeys(b, r.l1, 1);
      if Level(r) > 1 {
        ChargePwcKeys(ChargePwc(b, r.l1, 1), r.l2, 1);
      }
    }
  }

  // ----- the PWC with EPT references interleaved -----

  function GuestRefs(s: Sim): seq<Key> {
    OfSpace(KeysOf(s.log, true), 1)
  }

  lemma UsePwcGuest(s: Sim, va: nat, asid: nat)
    requires ValidSim(s)
    ensures GuestRefs(UsePwc(s, va, asid).sim) == GuestRefs(s) + if asid == 1 then [Key(va, 1)] else []
  {
    hide KeysOf, Refer, OfSpace;
    var h := KeysOf(s.log, true);
    KeysOfLast(s.log, Access(true, Key(va, asid), UsePwc(s, va, asid).hit), true);
    assert (h + [Key(va, asid)])[..|h|] == h;
    OfSpaceLast(h + [Key(va, asid)], 1);
  }

  lemma WalkEptGuest(s: Sim, gpa: nat)
    requires ValidSim(s)
    ensures GuestRefs(WalkEpt(s, gpa)) == GuestRefs(s)
  {
    hide KeysOf, OfSpace, UsePwc;
    UsePwcGuest(s, EptL1(gpa), 0);
    UsePwcGuest(ChargePwc(s, EptL1(gpa), 0), EptL2(gpa), 0);
  }

  lemma DescEptGuest(s: Sim, va: nat)
    requires ValidSim(s)
    ensures GuestRefs(DescEpt(s, va)) == GuestRefs(s) + [Key(va, 1)]
  {
    hide KeysOf, OfSpace, UsePwc, WalkEpt;
    UsePwcGuest(s, va, 1);
    WalkEptGuest(UsePwc(s, va, 1).sim, va);
  }

  lemma {:induction false} EptStream(s: Sim, trace: seq<Record>)
    requires ValidSim(s)
    ensures GuestRefs(Run(PwcEpt, s, trace)) == GuestRefs(s) + DescRefs(trace)
  {
    hide GuestRefs, DescEpt, WalkEpt;
    if trace != [] {
      var n := |trace| - 1;
      var b, r := Run(PwcEpt, s, trace[..n]), trace[n];
      EptStream(s, trace[..n]);
      DescEptGuest(b, r.l1);
      var b1 := DescEpt(b, r.l1);
      if Level(r) > 1 {
        DescEptGuest(b1, r.l2);
        var b2 := DescEpt(b1, r.l2);
        if Level(r) > 2 {
          WalkEptGuest(b2, r.gpa);
        }
      }
    }
  }

  // ----- exact cost accounting, for any geometry -----

  function Count(log: seq<Access>, pwc: bool): nat {
    if log == [] then 0 else Count(log[..|log| - 1], pwc) + if log[|log| - 1].pwc == pwc then 1 else 0
  }

  /** Misses among the references to guest descriptors. */
  function DescMisses(log: seq<Access>): nat {
    if log == [] then 0
    else
      var a := log[|log| - 1];
      DescMisses(log[..|log| - 1]) + if a.pwc && a.key.asid == 1 && !a.hit then 1 else 0
  }

  /** Records of at least the given level. */
  function AtLevel(trace: seq<Record>, level: nat): nat {
    if trace == [] then 0
    else AtLevel(trace[..|trace| - 1], level) + if Level(trace[|trace| - 1]) >= level then 1 else 0
  }

  lemma CountLast(log: seq<Access>, a: Access)
    ensures forall pwc :: Count(log + [a], pwc) == Count(log, pwc) + if a.pwc == pwc then 1 else 0
    ensures DescMisses(log + [a]) == DescMisses(log) + if a.pwc && a.key.asid == 1 && !a.hit then 1 else 0
  {
    assert (log + [a])[..|log|] == log;
  }

  /** The six quantities of the books, and how each operation moves them. */
  datatype Books = Books(accs: nat, ntlbMiss: nat, pwcMiss: nat, ntlb: nat, pwc: nat, descMiss: nat)

  function BooksOf(s: Sim): Books {
    Books(s.accs, s.ntlb.miss, s.pwc.miss, Count(s.log, false), Count(s.log, true), DescMisses(s.log))
  }

  /** Each lookup is counted once, as a hit or as a miss. */
  ghost predicate Counted(s: Sim) {
    && ValidSim(s)
    && s.ntlb.hit + s.ntlb.miss == Count(s.log, false)
    && s.pwc.hit + s.pwc.miss == Count(s.log, true)
  }

  /** What a lookup of the NTLB changes: its own counters, and the log by one entry. */
  lemma UseNtlbEffect(s: Sim, va: nat)
    requires ValidSim(s)
    ensures var u := UseNtlb(s, va);
      && ValidSim(u.sim) && u.sim.log == s.log + [Access(false, Key(va, 0), u.hit)]
      && u.sim.accs == s.accs && u.sim.pwc == s.pwc
      && u.sim.ntlb.miss == s.ntlb.miss + (if u.hit then 0 else 1)
      && u.sim.ntlb.hit + u.sim.ntlb.miss == s.ntlb.hit + s.ntlb.miss + 1
  {
    hide Refer;
  }

  lemma UseNtlbBooks(s: Sim, va: nat)
    requires Counted(s)
    ensures var u := UseNtlb(s, va);
      var b := BooksOf(s);
      Counted(u.sim) && BooksOf(u.sim) == b.(ntlb := b.ntlb + 1, ntlbMiss := b.ntlbMiss + if u.hit then 0 else 1)
  {
    hide Count, DescMisses, UseNtlb;
    UseNtlbEffect(s, va);
    CountLast(s.log, Access(false, Key(va, 0), UseNtlb(s, va).hit));
  }

  lemma UsePwcEffect(s: Sim, va: nat, asid: nat)
    requires ValidSim(s)
    ensures var u := UsePwc(s, va, asid);
      && ValidSim(u.sim) && u.sim.log == s.log + [Access(true, Key(va, asid), u.hit)]
      && u.sim.accs == s.accs && u.sim.ntlb == s.ntlb
      && u.sim.pwc.miss == s.pwc.miss + (if u.hit then 0 else 1)
      && u.sim.pwc.hit + u.sim.pwc.miss == s.pwc.hit + s.pwc.miss + 1
  {
    hide Refer;
  }

  lemma UsePwcBooks(s: Sim, va: nat, asid: nat)
    requires Counted(s)
    ensures var u := UsePwc(s, va, asid);
      var b, m := BooksOf(s), if u.hit then 0 else 1;
      && Counted(u.sim)
      && BooksOf(u.sim) == b.(pwc := b.pwc + 1, pwcMiss := b.pwcMiss + m,
                              descMiss := b.descMiss + if asid == 1 then m else 0)
  {
    hide Count, DescMisses, UsePwc;
    UsePwcEffect(s, va, asid);
    CountLast(s.log, Access(true, Key(va, asid), UsePwc(s, va, asid).hit));
  }

  lemma PaidBooks(s: Sim, n: nat)
    requires Counted(s)
    ensures Counted(Paid(s, n)) && BooksOf(Paid(s, n)) == BooksOf(s).(accs := s.accs + n)
  {
    hide Count, DescMisses;
  }

  /** One walk of the extended page table: two lookups, each miss one access. */
  lemma WalkEptBooks(s: Sim, gpa: nat) returns (m: nat)
    requires Counted(s)
    ensures var b := BooksOf(s);
      && Counted(WalkEpt(s, gpa))
      && BooksOf(WalkEpt(s, gpa)) == b.(accs := b.accs + m, pwcMiss := b.pwcMiss + m, pwc := b.pwc + 2)
  {
    hide Count, DescMisses, UsePwc;
    var u := UsePwc(s, EptL1(gpa), 0);
    UsePwcBooks(s, EptL1(gpa), 0);
    PaidBooks(u.sim, if u.hit then 0 else 1);
    var s1 := ChargePwc(s, EptL1(gpa), 0);
    var v := UsePwc(s1, EptL2(gpa), 0);
    UsePwcBooks(s1, EptL2(gpa), 0);
    PaidBooks(v.sim, if v.hit then 0 else 1);
    m := (if u.hit then 0 else 1) + (if v.hit then 0 else 1);
  }

  /** The books balance for the lookups that a trace of n records, n2 of them of level 2 or more
      and n3 of level 3 or more, leads to. */
  predicate Balanced(kind: Kind, b: Books, n: nat, n2: nat, n3: nat) {
    match kind
    case NtlbOnly => b.accs == n + n2 + 2 * b.ntlbMiss && b.ntlb == n + n2 + n3 && b.pwc == 0
    case PwcEpt => b.accs == b.pwcMiss && b.pwc == n + n2 + 2 * (b.descMiss + n3) && b.ntlb == 0
    case PwcNoEpt => b.accs == b.pwcMiss && b.pwc == n + n2 && b.ntlb == 0
    case NtlbPwc => b.accs == b.pwcMiss && b.ntlb == b.descMiss + n3 && b.pwc == n + n2 + 2 * b.ntlbMiss
  }

  lemma FindNtlbBooks(s: Sim, va: nat, final: bool)
    requires Counted(s)
    ensures var b, b' := BooksOf(s), BooksOf(FindNtlb(s, va, final));
      && Counted(FindNtlb(s, va, final)) && b'.pwc == b.pwc && b'.ntlb == b.ntlb + 1 && b'.ntlbMiss >= b.ntlbMiss
      && b'.accs == b.accs + (if final then 0 else 1) + 2 * (b'.ntlbMiss - b.ntlbMiss)
  {
    hide Count, DescMisses, UseNtlb;
    var u := UseNtlb(s, va);
    UseNtlbBooks(s, va);
    PaidBooks(u.sim, (if final then 0 else 1) + (if u.hit then 0 else 2));
  }

  lemma EmulateNtlbBooks(s: Sim, r: Record, n: nat, n2: nat, n3: nat)
    requires Counted(s) && Balanced(NtlbOnly, BooksOf(s), n, n2, n3)
    ensures var s' := EmulateNtlb(s, r);
      Counted(s') && Balanced(NtlbOnly, BooksOf(s'), n + 1, n2 + (if Level(r) > 1 then 1 else 0),
                                n3 + (if Level(r) > 2 then 1 else 0))
  {
    hide Count, DescMisses, FindNtlb;
    FindNtlbBooks(s, PageOf(r.l1), false);
    var s1 := FindNtlb(s, PageOf(r.l1), false);
    if Level(r) > 1 {
      FindNtlbBooks(s1, PageOf(r.l2), false);
      var s2 := FindNtlb(s1, PageOf(r.l2), false);
      if Level(r) > 2 {
        FindNtlbBooks(s2, r.gpa, true);
      }
    }
  }

  lemma DescEptBooks(s: Sim, va: nat)
    requires Counted(s) && s.accs == s.pwc.miss
    ensures var b, b' := BooksOf(s), BooksOf(DescEpt(s, va));
      && Counted(DescEpt(s, va)) && b'.accs == b'.pwcMiss && b'.descMiss >= b.descMiss
      && b'.pwc == b.pwc + 1 + 2 * (b'.descMiss - b.descMiss) && b'.ntlb == b.ntlb
  {
    hide Count, DescMisses, UsePwc, WalkEpt;
    var u := UsePwc(s, va, 1);
    UsePwcBooks(s, va, 1);
    if !u.hit {
      var _ := WalkEptBooks(u.sim, va);
      PaidBooks(WalkEpt(u.sim, va), 1);
    }
  }

  lemma EmulatePwcEptBooks(s: Sim, r: Record, n: nat, n2: nat, n3: nat)
    requires Counted(s) && Balanced(PwcEpt, BooksOf(s), n, n2, n3)
    ensures var s' := EmulatePwcEpt(s, r);
      Counted(s') && Balanced(PwcEpt, BooksOf(s'), n + 1, n2 + (if Level(r) > 1 then 1 else 0),
                                n3 + (if Level(r) > 2 then 1 else 0))
  {
    hide Count, DescMisses, DescEpt, WalkEpt;
    DescEptBooks(s, r.l1);
    var s1 := DescEpt(s, r.l1);
    if Level(r) > 1 {
      DescEptBooks(s1, r.l2);
      var s2 := DescEpt(s1, r.l2);
      if Level(r) > 2 {
        var _ := WalkEptBooks(s2, r.gpa);
      }
    }
  }

  lemma ChargePwcBooks(s: Sim, va: nat, asid: nat)
    requires Counted(s) && s.accs == s.pwc.miss
    ensures var s' := ChargePwc(s, va, asid);
      && Counted(s') && s'.accs == s'.pwc.miss
      && BooksOf(s').pwc == BooksOf(s).pwc + 1 && BooksOf(s').ntlb == BooksOf(s).ntlb
  {
    hide Count, DescMisses, UsePwc;
    var u := UsePwc(s, va, asid);
    UsePwcBooks(s, va, asid);
    PaidBooks(u.sim, if u.hit then 0 else 1);
  }

  lemma EmulatePwcNoEptBooks(s: Sim, r: Record, n: nat, n2: nat, n3: nat)
    requires Counted(s) && Balanced(PwcNoEpt, BooksOf(s), n, n2, n3)
    ensures var s' := EmulatePwcNoEpt(s, r);
      Counted(s') && Balanced(PwcNoEpt, BooksOf(s'), n + 1, n2 + (if Level(r) > 1 then 1 else 0),
                                n3 + (if Level(r) > 2 then 1 else 0))
  {
    hide Count, DescMisses, ChargePwc;
    ChargePwcBooks(s, r.l1, 1);
    if Level(r) > 1 {
      ChargePwcBooks(ChargePwc(s, r.l1, 1), r.l2, 1);
    }
  }

  lemma TranslateBooks(s: Sim, va: nat, gpa: nat)
    requires Counted(s)
    ensures var b, b' := BooksOf(s), BooksOf(Translate(s, va, gpa));
      && Counted(Translate(s, va, gpa))
      && b'.accs - b.accs == b'.pwcMiss - b.pwcMiss
      && b'.ntlb == b.ntlb + 1 && b'.ntlbMiss >= b.ntlbMiss
      && b'.pwc == b.pwc + 2 * (b'.ntlbMiss - b.ntlbMiss)
      && b'.descMiss == b.descMiss
  {
    hide Count, DescMisses, UseNtlb, WalkEpt;
    var u := UseNtlb(s, va);
    UseNtlbBooks(s, va);
    if !u.hit {
      var _ := WalkEptBooks(u.sim, gpa);
    }
  }

  lemma DescFullBooks(s: Sim, va: nat)
    requires Counted(s)
    ensures var b, b' := BooksOf(s), BooksOf(DescFull(s, va));
      && Counted(DescFull(s, va))
      && b'.accs - b.accs == b'.pwcMiss - b.pwcMiss
      && b'.ntlb - b.ntlb == b'.descMiss - b.descMiss
      && b'.ntlbMiss >= b.ntlbMiss
      && b'.pwc == b.pwc + 1 + 2 * (b'.ntlbMiss - b.ntlbMiss)
  {
    hide Count, DescMisses, UsePwc, Translate;
    var u := UsePwc(s, va, 1);
    UsePwcBooks(s, va, 1);
    if !u.hit {
      TranslateBooks(u.sim, PageOf(va), va);
      PaidBooks(Translate(u.sim, PageOf(va), va), 1);
    }
  }

  lemma EmulateFullBooks(s: Sim, r: Record, n: nat, n2: nat, n3: nat)
    requires Counted(s) && Balanced(NtlbPwc, BooksOf(s), n, n2, n3)
    ensures var s' := EmulateFull(s, r);
      Counted(s') && Balanced(NtlbPwc, BooksOf(s'), n + 1, n2 + (if Level(r) > 1 then 1 else 0),
                                n3 + (if Level(r) > 2 then 1 else 0))
  {
    hide Count, DescMisses, DescFull, Translate;
    DescFullBooks(s, r.l1);
    var s1 := DescFull(s, r.l1);
    if Level(r) > 1 {
      DescFullBooks(s1, r.l2);
      var s2 := DescFull(s1, r.l2);
      if Level(r) > 2 {
        TranslateBooks(s2, r.gpa, r.gpa);
      }
    }
  }

  /** Exact cost accounting: for every simulation, geometry and trace, lookups are hits plus
      misses and the reported accesses are what the misses cost. */
  lemma {:induction false} Accounting(kind: Kind, ntlb: Geometry, pwc: Geometry, trace: seq<Record>)
    requires ValidGeometry(ntlb) && ValidGeometry(pwc)
    ensures var s := Run(kind, Start(ntlb, pwc), trace);
      && s.ntlb.hit + s.ntlb.miss == Count(s.log, false)
      && s.pwc.hit + s.pwc.miss == Count(s.log, true)
      && Balanced(kind, BooksOf(s), |trace|, AtLevel(trace, 2), AtLevel(trace, 3))
  {
    hide EmulateNtlb, EmulatePwcEpt, EmulatePwcNoEpt, EmulateFull;
    if trace != [] {
      var i := |trace| - 1;
      Accounting(kind, ntlb, pwc, trace[..i]);
      var s, r := Run(kind, Start(ntlb, pwc), trace[..i]), trace[i];
      var n, n2, n3 := i, AtLevel(trace[..i], 2), AtLevel(trace[..i], 3);
      match kind {
        case NtlbOnly => EmulateNtlbBooks(s, r, n, n2, n3);
        case PwcEpt => EmulatePwcEptBooks(s, r, n, n2, n3);
        case PwcNoEpt => EmulatePwcNoEptBooks(s, r, n, n2, n3);
        case NtlbPwc => EmulateFullBooks(s, r, n, n2, n3);
      }
    }
  }

  // ----- comparing simulations -----

  lemma {:induction false} LogLength(log: seq<Access>)
    ensures |log| == Count(log, false) + Count(log, true)
    ensures forall pwc :: |KeysOf(log, pwc)| == Count(log, pwc)
  {
    if log != [] {
      LogLength(log[..|log| - 1]);
    }
  }

  /** What the NTLB simulation reports, in terms of the reference stream of the trace. */
  lemma NtlbReport(ntlb: Geometry, pwc: Geometry, trace: seq<Record>)
    requires OneSet(ntlb) && OneSet(pwc) && ValidTrace(trace) && |NtlbRefs(trace)| < STAMPS
    ensures var s := Run(NtlbOnly, Start(ntlb, pwc), trace);
      && Holds(s.ntlb.table, s.systs, LruContents(NtlbRefs(trace), ntlb.size))
      && s.ntlb.miss == Misses(NtlbRefs(trace), ntlb.size)
      && s.accs == |trace| + AtLevel(trace, 2) + 2 * Misses(NtlbRefs(trace), ntlb.size)
  {
    hide Tracks, Fresh, LruContents, Misses, NtlbRefs, Holds, Emulate;
    var s := Run(NtlbOnly, Start(ntlb, pwc), trace);
    NtlbStream(Start(ntlb, pwc), trace);
    assert KeysOf(s.log, false) == NtlbRefs(trace);
    Accounting(NtlbOnly, ntlb, pwc, trace);
    LogLength(s.log);
    StartIsLru(ntlb, pwc);
    RunIsLru(NtlbOnly, Start(ntlb, pwc), trace);
    TracksMeans(s.ntlb, s.systs, NtlbRefs(trace));
  }

  lemma TracksMeans(c: Cache, systs: nat, h: seq<Key>)
    requires Tracks(c, systs, h)
    ensures Holds(c.table, systs, LruContents(h, c.g.size)) && c.miss == Misses(h, c.g.size)
  {
  }

  lemma NoEptReport(ntlb: Geometry, pwc: Geometry, trace: seq<Record>)
    requires OneSet(ntlb) && OneSet(pwc) && ValidTrace(trace) && |DescRefs(trace)| < STAMPS
    ensures var s := Run(PwcNoEpt, Start(ntlb, pwc), trace);
      && Holds(s.pwc.table, s.systs, LruContents(DescRefs(trace), pwc.size))
      && s.pwc.miss == Misses(DescRefs(trace), pwc.size) == s.accs
  {
    hide Tracks, Fresh, LruContents, Misses, DescRefs, Holds, Emulate;
    var s := Run(PwcNoEpt, Start(ntlb, pwc), trace);
    NoEptStream(Start(ntlb, pwc), trace);
    assert KeysOf(s.log, true) == DescRefs(trace);
    Accounting(PwcNoEpt, ntlb, pwc, trace);
    LogLength(s.log);
    StartIsLru(ntlb, pwc);
    RunIsLru(PwcNoEpt, Start(ntlb, pwc), trace);
    TracksMeans(s.pwc, s.systs, DescRefs(trace));
  }

  /** LRU inclusion over whole traces, for the NTLB: everything a smaller table holds a larger
      one holds too, and enlarging it never raises the misses or accesses reported. */
  lemma NtlbInclusion(small: Geometry, large: Geometry, pwc: Geometry, trace: seq<Record>, key: Key)
    requires OneSet(small) && OneSet(large) && OneSet(pwc) && small.size <= large.size
    requires ValidTrace(trace) && |NtlbRefs(trace)| < STAMPS
    ensures var a := Run(NtlbOnly, Start(small, pwc), trace);
      var b := Run(NtlbOnly, Start(large, pwc), trace);
      && b.ntlb.miss <= a.ntlb.miss
      && b.accs <= a.accs
      && (key != NO_KEY && Contains(a.ntlb.table, key) ==> Contains(b.ntlb.table, key))
  {
    hide Run, LruContents, Misses, NtlbRefs, Holds, Contains;
    var h := NtlbRefs(trace);
    NtlbReport(small, pwc, trace);
    NtlbReport(large, pwc, trace);
    MissesMonotone(h, small.size, large.size);
    Inclusion(h, small.size, large.size);
    if key != NO_KEY {
      var a := Run(NtlbOnly, Start(small, pwc), trace);
      var b := Run(NtlbOnly, Start(large, pwc), trace);
      HoldsContents(a.ntlb.table, a.systs, LruContents(h, small.size), key);
      HoldsContents(b.ntlb.table, b.systs, LruContents(h, large.size), key);
    }
  }

  /** The same for the PWC without an extended page table. */
  lemma NoEptInclusion(ntlb: Geometry, small: Geometry, large: Geometry, trace: seq<Record>, key: Key)
    requires OneSet(small) && OneSet(large) && OneSet(ntlb) && small.size <= large.size
    requires ValidTrace(trace) && |DescRefs(trace)| < STAMPS
    ensures var a := Run(PwcNoEpt, Start(ntlb, small), trace);
      var b := Run(PwcNoEpt, Start(ntlb, large), trace);
      && b.pwc.miss <= a.pwc.miss
      && b.accs <= a.accs
      && (key != NO_KEY && Contains(a.pwc.table, key) ==> Contains(b.pwc.table, key))
  {
    hide Run, LruContents, Misses, DescRefs, Holds, Contains;
    var h := DescRefs(trace);
    NoEptReport(ntlb, small, trace);
    NoEptReport(ntlb, large, trace);
    MissesMonotone(h, small.size, large.size);
    Inclusion(h, small.size, large.size);
    if key != NO_KEY {
      var a := Run(PwcNoEpt, Start(ntlb, small), trace);
      var b := Run(PwcNoEpt, Start(ntlb, large), trace);
      HoldsContents(a.pwc.table, a.systs, LruContents(h, small.size), key);
      HoldsContents(b.pwc.table, b.systs, LruContents(h, large.size), key);
    }
  }
}
