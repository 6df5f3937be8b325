/** The whole reference streams of the simulations that walk the extended page table, in terms of
    the trace and of LRU hits alone (tlb_sim.c:176-204, 342-376). */
module SimulatorStreams {
  import opened Recency
  import opened TimestampCache
  import opened LruRefinement
  import opened CacheHistory
  import opened Simulators
  import opened SimulatorTheorems

  // ----- the default extended page table -----

  /** The table maps every page by a word of its own, in order, behind the 4096 words of its first
      level, each of which stands for a megabyte. */
  lemma EptLayout(gpa: nat)
    ensures EptL1(gpa) == 4 * (gpa / 0x10_0000)
    ensures EptL2(gpa) == 0x4000 + 4 * (gpa / 0x1000)
    ensures PageOf(gpa) % 0x1000 == 0 && PageOf(gpa) <= gpa < PageOf(gpa) + 0x1000
  {
    assert gpa / 0x1000 / 0x100 == gpa / 0x10_0000;
  }

  /** Two addresses share a second-level descriptor exactly when they are in the same page, and a
      first-level one exactly when they are in the same megabyte; the levels do not overlap. */
  lemma EptInjective(a: nat, b: nat)
    ensures EptL2(a) == EptL2(b) <==> PageOf(a) == PageOf(b)
    ensures EptL1(a) == EptL1(b) <==> a / 0x10_0000 == b / 0x10_0000
    ensures a < STAMPS ==> EptL1(a) < EptL2(b)
  {
    EptLayout(a);
    EptLayout(b);
  }

  // ----- histories -----

  /** The keys looked up in each cache, in order. */
  datatype Lookups = Lookups(ntlb: seq<Key>, pwc: seq<Key>)

  /** The descriptors that map va: one word per megabyte, then one word per page. */
  function Walked(l: Lookups, va: nat): Lookups {
    l.(pwc := l.pwc + [Key(4 * (va / 0x10_0000), 0), Key(0x4000 + 4 * (va / 0x1000), 0)])
  }

  /** One guest descriptor; where it misses, its own address is translated. */
  function EptDesc(l: Lookups, va: nat, m: nat): Lookups {
    var l1 := l.(pwc := l.pwc + [Key(va, 1)]);
    if LruHit(l.pwc, Key(va, 1), m) then l1 else Walked(l1, va)
  }

  /** The lookups of PWC_EPT with a PWC of m places. */
  function EptHistory(trace: seq<Record>, m: nat): Lookups {
    if trace == [] then Lookups([], [])
    else
      var r := trace[|trace| - 1];
      var l1 := EptDesc(EptHistory(trace[..|trace| - 1], m), r.l1, m);
      var l2 := if Level(r) > 1 then EptDesc(l1, r.l2, m) else l1;
      if Level(r) > 2 then Walked(l2, r.gpa) else l2
  }

  /** A translation through an NTLB of n places. */
  function Translated(l: Lookups, page: nat, va: nat, n: nat): Lookups {
    var l1 := l.(ntlb := l.ntlb + [Key(page, 0)]);
    if LruHit(l.ntlb, Key(page, 0), n) then l1 else Walked(l1, va)
  }

  function FullDesc(l: Lookups, va: nat, n: nat, m: nat): Lookups {
    var l1 := l.(pwc := l.pwc + [Key(va, 1)]);
    if LruHit(l.pwc, Key(va, 1), m) then l1 else Translated(l1, va - va % 0x1000, va, n)
  }

  /** The lookups of NTLB_PWC with an NTLB of n places and a PWC of m. */
  function FullHistory(trace: seq<Record>, n: nat, m: nat): Lookups {
    if trace == [] then Lookups([], [])
    else
      var r := trace[|trace| - 1];
      var l1 := FullDesc(FullHistory(trace[..|trace| - 1], n, m), r.l1, n, m);
      var l2 := if Level(r) > 1 then FullDesc(l1, r.l2, n, m) else l1;
      if Level(r) > 2 then Translated(l2, r.gpa, r.gpa, n) else l2
  }

  // ----- the simulations make just those lookups -----

  function LookupsOf(s: Sim): Lookups {
    Lookups(KeysOf(s.log, false), KeysOf(s.log, true))
  }

  lemma UseNtlbKeys(s: Sim, va: nat)
    requires ValidSim(s)
    ensures var l := LookupsOf(s);
      LookupsOf(UseNtlb(s, va).sim) == l.(ntlb := l.ntlb + [Key(va, 0)])
  {
    hide KeysOf, UseNtlb;
    UseNtlbEffect(s, va);
    var a := Access(false, Key(va, 0), UseNtlb(s, va).hit);
    KeysOfLast(s.log, a, false);
    KeysOfLast(s.log, a, true);
  }

  lemma UsePwcKeys(s: Sim, va: nat, asid: nat)
    requires ValidSim(s)
    ensures var l := LookupsOf(s);
      && LookupsOf(UsePwc(s, va, asid).sim) == l.(pwc := l.pwc + [Key(va, asid)])
      && LookupsOf(ChargePwc(s, va, asid)) == l.(pwc := l.pwc + [Key(va, asid)])
  {
    hide KeysOf, UsePwc;
    UsePwcEffect(s, va, asid);
    var a := Access(true, Key(va, asid), UsePwc(s, va, asid).hit);
    KeysOfLast(s.log, a, false);
    KeysOfLast(s.log, a, true);
  }

  lemma WalkEptKeys(s: Sim, gpa: nat)
    requires ValidSim(s)
    ensures LookupsOf(WalkEpt(s, gpa)) == Walked(LookupsOf(s), gpa)
  {
    hide LookupsOf, ChargePwc, EptL1, EptL2;
    EptLayout(gpa);
    UsePwcKeys(s, EptL1(gpa), 0);
    UsePwcKeys(ChargePwc(s, EptL1(gpa), 0), EptL2(gpa), 0);
  }

  lemma PaidKeys(s: Sim, n: nat)
    ensures LookupsOf(Paid(s, n)) == LookupsOf(s)
  {
  }

  lemma DescEptKeys(s: Sim, va: nat)
    requires LruSim(s) && va < STAMPS && |DescEpt(s, va).log| < STAMPS
    ensures LookupsOf(DescEpt(s, va)) == EptDesc(LookupsOf(s), va, s.pwc.g.size)
  {
    hide Tracks, KeysOf, UsePwc, WalkEpt, LruHit, Walked;
    UsePwcLru(s, va, 1);
    UsePwcKeys(s, va, 1);
    var u := UsePwc(s, va, 1);
    WalkEptKeys(u.sim, va);
    PaidKeys(WalkEpt(u.sim, va), 1);
  }

  lemma TranslateKeys(s: Sim, va: nat, gpa: nat)
    requires LruSim(s) && va != NO_VA && |Translate(s, va, gpa).log| < STAMPS
    ensures LookupsOf(Translate(s, va, gpa)) == Translated(LookupsOf(s), va, gpa, s.ntlb.g.size)
  {
    hide Tracks, KeysOf, UseNtlb, WalkEpt, LruHit, Walked;
    UseNtlbLru(s, va);
    UseNtlbKeys(s, va);
    WalkEptKeys(UseNtlb(s, va).sim, gpa);
  }

  lemma DescFullKeys(s: Sim, va: nat)
    requires LruSim(s) && va < STAMPS && |DescFull(s, va).log| < STAMPS
    ensures LookupsOf(DescFull(s, va)) == FullDesc(LookupsOf(s), va, s.ntlb.g.size, s.pwc.g.size)
  {
    hide Tracks, KeysOf, UsePwc, Translate, LruHit, Translated;
    UsePwcLru(s, va, 1);
    UsePwcKeys(s, va, 1);
    var u := UsePwc(s, va, 1);
    if !u.hit {
      TranslateKeys(u.sim, PageOf(va), va);
      PaidKeys(Translate(u.sim, PageOf(va), va), 1);
    }
  }

  /** With one set, the lookups of PWC_EPT are those of the history, in both caches. */
  lemma {:induction false} EptLookups(ntlb: Geometry, pwc: Geometry, trace: seq<Record>)
    requires OneSet(ntlb) && OneSet(pwc) && ValidTrace(trace)
    requires Run(PwcEpt, Start(ntlb, pwc), trace).systs < STAMPS
    ensures LookupsOf(Run(PwcEpt, Start(ntlb, pwc), trace)) == EptHistory(trace, pwc.size)
  {
    hide LruSim, DescEpt, WalkEpt, EptDesc, Walked, LookupsOf;
    var s0 := Start(ntlb, pwc);
    if trace == [] {
      assert LookupsOf(s0) == Lookups([], []) by { NoLookups(ntlb, pwc); }
    } else {
      var n := |trace| - 1;
      var b, r := Run(PwcEpt, s0, trace[..n]), trace[n];
      EptLookups(ntlb, pwc, trace[..n]);
      StartIsLru(ntlb, pwc);
      RunIsLru(PwcEpt, s0, trace[..n]);
      DescEptKeys(b, r.l1);
      DescEptLru(b, r.l1);
      var b1 := DescEpt(b, r.l1);
      if Level(r) > 1 {
        DescEptKeys(b1, r.l2);
        if Level(r) > 2 {
          WalkEptKeys(DescEpt(b1, r.l2), r.gpa);
        }
      }
    }
  }

  lemma NoLookups(ntlb: Geometry, pwc: Geometry)
    requires ValidGeometry(ntlb) && ValidGeometry(pwc)
    ensures LookupsOf(Start(ntlb, pwc)) == Lookups([], [])
  {
  }

  /** The same for NTLB_PWC. */
  lemma {:induction false} FullLookups(ntlb: Geometry, pwc: Geometry, trace: seq<Record>)
    requires OneSet(ntlb) && OneSet(pwc) && ValidTrace(trace)
    requires Run(NtlbPwc, Start(ntlb, pwc), trace).systs < STAMPS
    ensures LookupsOf(Run(NtlbPwc, Start(ntlb, pwc), trace)) == FullHistory(trace, ntlb.size, pwc.size)
  {
    hide LruSim, DescFull, Translate, FullDesc, Translated, LookupsOf;
    var s0 := Start(ntlb, pwc);
    if trace == [] {
      assert LookupsOf(s0) == Lookups([], []) by { NoLookups(ntlb, pwc); }
    } else {
      var n := |trace| - 1;
      var b, r := Run(NtlbPwc, s0, trace[..n]), trace[n];
      FullLookups(ntlb, pwc, trace[..n]);
      StartIsLru(ntlb, pwc);
      RunIsLru(NtlbPwc, s0, trace[..n]);
      DescFullKeys(b, r.l1);
      DescFullLru(b, r.l1);
      var b1 := DescFull(b, r.l1);
      if Level(r) > 1 {
        DescFullKeys(b1, r.l2);
        DescFullLru(b1, r.l2);
        if Level(r) > 2 {
          TranslateKeys(DescFull(b1, r.l2), r.gpa, r.gpa);
        }
      }
    }
  }

  // ----- the guest's own references within the histories -----

  lemma OfSpaceMore(h: seq<Key>, k: Key, asid: nat)
    ensures OfSpace(h + [k], asid) == OfSpace(h, asid) + if k.asid == asid then [k] else []
  {
    hide OfSpace;
    assert (h + [k])[..|h|] == h;
    OfSpaceLast(h + [k], asid);
  }

  lemma WalkedGuest(l: Lookups, va: nat)
    ensures OfSpace(Walked(l, va).pwc, 1) == OfSpace(l.pwc, 1)
  {
    hide OfSpace;
    var k1, k2 := Key(4 * (va / 0x10_0000), 0), Key(0x4000 + 4 * (va / 0x1000), 0);
    assert l.pwc + [k1, k2] == l.pwc + [k1] + [k2];
    OfSpaceMore(l.pwc, k1, 1);
    OfSpaceMore(l.pwc + [k1], k2, 1);
  }

  lemma EptDescGuest(l: Lookups, va: nat, m: nat)
    ensures OfSpace(EptDesc(l, va, m).pwc, 1) == OfSpace(l.pwc, 1) + [Key(va, 1)]
  {
    hide OfSpace, Walked, LruHit;
    OfSpaceMore(l.pwc, Key(va, 1), 1);
    WalkedGuest(l.(pwc := l.pwc + [Key(va, 1)]), va);
  }

  lemma FullDescGuest(l: Lookups, va: nat, n: nat, m: nat)
    ensures OfSpace(FullDesc(l, va, n, m).pwc, 1) == OfSpace(l.pwc, 1) + [Key(va, 1)]
  {
    hide OfSpace, Translated, LruHit;
    OfSpaceMore(l.pwc, Key(va, 1), 1);
    TranslatedGuest(l.(pwc := l.pwc + [Key(va, 1)]), va - va % 0x1000, va, n);
  }

  lemma TranslatedGuest(l: Lookups, page: nat, va: nat, n: nat)
    ensures OfSpace(Translated(l, page, va, n).pwc, 1) == OfSpace(l.pwc, 1)
  {
    hide OfSpace, Walked, LruHit;
    WalkedGuest(l.(ntlb := l.ntlb + [Key(page, 0)]), va);
  }

  lemma {:induction false} EptHistoryGuest(trace: seq<Record>, m: nat)
    ensures OfSpace(EptHistory(trace, m).pwc, 1) == DescRefs(trace)
  {
    if trace != [] {
      hide OfSpace, EptDesc, Walked;
      var i := |trace| - 1;
      var r := trace[i];
      EptHistoryGuest(trace[..i], m);
      var l := EptHistory(trace[..i], m);
      EptDescGuest(l, r.l1, m);
      var l1 := EptDesc(l, r.l1, m);
      EptDescGuest(l1, r.l2, m);
      WalkedGuest(EptDesc(l1, r.l2, m), r.gpa);
    }
  }

  lemma {:induction false} FullHistoryGuest(trace: seq<Record>, n: nat, m: nat)
    ensures OfSpace(FullHistory(trace, n, m).pwc, 1) == DescRefs(trace)
  {
    if trace != [] {
      hide OfSpace, FullDesc, Translated;
      var i := |trace| - 1;
      var r := trace[i];
      FullHistoryGuest(trace[..i], n, m);
      var l := FullHistory(trace[..i], n, m);
      FullDescGuest(l, r.l1, n, m);
      var l1 := FullDesc(l, r.l1, n, m);
      FullDescGuest(l1, r.l2, n, m);
      TranslatedGuest(FullDesc(l1, r.l2, n, m), r.gpa, r.gpa, n);
    }
  }

  // ----- reports -----

  /** What PWC_EPT reports: the table is that of an LRU cache after the lookups of the history, every
      LRU miss is one access, and the guest's own references are those of the trace. */
  lemma EptReport(ntlb: Geometry, pwc: Geometry, trace: seq<Record>)
    requires OneSet(ntlb) && OneSet(pwc) && ValidTrace(trace)
    requires Run(PwcEpt, Start(ntlb, pwc), trace).systs < STAMPS
    ensures var s := Run(PwcEpt, Start(ntlb, pwc), trace);
      var h := EptHistory(trace, pwc.size).pwc;
      && s.systs == |h|
      && Holds(s.pwc.table, s.systs, LruContents(h, pwc.size))
      && s.accs == s.pwc.miss == Misses(h, pwc.size)
      && OfSpace(h, 1) == DescRefs(trace)
  {
    hide Tracks, Fresh, Misses, DescRefs, OfSpace, Emulate, Holds, LruContents, EptHistory;
    var s := Run(PwcEpt, Start(ntlb, pwc), trace);
    StartIsLru(ntlb, pwc);
    RunIsLru(PwcEpt, Start(ntlb, pwc), trace);
    Accounting(PwcEpt, ntlb, pwc, trace);
    EptLookups(ntlb, pwc, trace);
    TracksMeans(s.pwc, s.systs, KeysOf(s.log, true));
    EptHistoryGuest(trace, pwc.size);
    LogLength(s.log);
  }

  /** What NTLB_PWC reports. */
  lemma FullReport(ntlb: Geometry, pwc: Geometry, trace: seq<Record>)
    requires OneSet(ntlb) && OneSet(pwc) && ValidTrace(trace)
    requires Run(NtlbPwc, Start(ntlb, pwc), trace).systs < STAMPS
    ensures var s := Run(NtlbPwc, Start(ntlb, pwc), trace);
      var h := FullHistory(trace, ntlb.size, pwc.size);
      && s.systs == |h.ntlb| + |h.pwc|
      && Holds(s.ntlb.table, s.systs, LruContents(h.ntlb, ntlb.size))
      && Holds(s.pwc.table, s.systs, LruContents(h.pwc, pwc.size))
      && s.ntlb.miss == Misses(h.ntlb, ntlb.size)
      && s.accs == s.pwc.miss == Misses(h.pwc, pwc.size)
      && OfSpace(h.pwc, 1) == DescRefs(trace)
  {
    hide Tracks, Fresh, Misses, DescRefs, OfSpace, Emulate, Holds, LruContents, FullHistory;
    var s := Run(NtlbPwc, Start(ntlb, pwc), trace);
    StartIsLru(ntlb, pwc);
    RunIsLru(NtlbPwc, Start(ntlb, pwc), trace);
    Accounting(NtlbPwc, ntlb, pwc, trace);
    FullLookups(ntlb, pwc, trace);
    TracksMeans(s.ntlb, s.systs, KeysOf(s.log, false));
    TracksMeans(s.pwc, s.systs, KeysOf(s.log, true));
    FullHistoryGuest(trace, ntlb.size, pwc.size);
    LogLength(s.log);
  }

  // ----- comparing simulations -----

  lemma {:induction false} MissesOfSpaceBound(h: seq<Key>, asid: nat, n: nat)
    ensures MissesOfSpace(h, asid, n) <= Misses(h, n)
  {
    hide LruHit;
    if h != [] {
      MissesOfSpaceBound(h[..|h| - 1], asid, n);
    }
  }

  lemma {:induction false} OfSpaceLength(h: seq<Key>, asid: nat)
    ensures |OfSpace(h, asid)| <= |h|
  {
    if h != [] {
      OfSpaceLength(h[..|h| - 1], asid);
    }
  }

  /** For one trace and one PWC, doing without the extended page table never costs more, with or
      without an NTLB: every guest descriptor lookup that hits among EPT references also hits
      without them. */
  lemma NoEptNeverCostsMore(kind: Kind, ntlb: Geometry, pwc: Geometry, trace: seq<Record>)
    requires kind == PwcEpt || kind == NtlbPwc
    requires OneSet(ntlb) && OneSet(pwc) && ValidTrace(trace)
    requires Run(kind, Start(ntlb, pwc), trace).systs < STAMPS
    ensures Run(PwcNoEpt, Start(ntlb, pwc), trace).accs <= Run(kind, Start(ntlb, pwc), trace).accs
  {
    hide Misses, MissesOfSpace, DescRefs, OfSpace, Run, Holds, LruContents, EptHistory, FullHistory;
    var h: seq<Key>;
    if kind == PwcEpt {
      EptReport(ntlb, pwc, trace);
      h := EptHistory(trace, pwc.size).pwc;
    } else {
      FullReport(ntlb, pwc, trace);
      h := FullHistory(trace, ntlb.size, pwc.size).pwc;
    }
    MissesOfSpaceAlone(h, 1, pwc.size);
    MissesOfSpaceBound(h, 1, pwc.size);
    OfSpaceLength(h, 1);
    NoEptReport(ntlb, pwc, trace);
  }
}
