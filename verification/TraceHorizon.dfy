/** How long the NTLB simulation of a trace stays exact. */
module TraceHorizon {
  import opened Recency
  import opened TimestampCache
  import opened LruRefinement
  import opened CacheHistory
  import opened Simulators
  import opened SimulatorTheorems
  import opened StampHorizon

  /** The simulation's NTLB is a fresh table after the references of the trace, the clock being its own. */
  ghost predicate IsAfter(s: Sim, g: Geometry, h: seq<Key>)
    requires ValidGeometry(g)
  {
    s.ntlb == After(g, h) && s.systs == |h|
  }

  lemma FindIsAfter(s: Sim, g: Geometry, h: seq<Key>, va: nat, final: bool)
    requires ValidGeometry(g) && ValidSim(s) && IsAfter(s, g, h)
    ensures IsAfter(FindNtlb(s, va, final), g, h + [Key(va, 0)])
  {
    hide Refer;
    assert (h + [Key(va, 0)])[..|h|] == h;
  }

  lemma {:induction false} RunIsAfter(ntlb: Geometry, pwc: Geometry, trace: seq<Record>)
    requires ValidGeometry(ntlb) && ValidGeometry(pwc)
    ensures IsAfter(Run(NtlbOnly, Start(ntlb, pwc), trace), ntlb, NtlbRefs(trace))
  {
    hide IsAfter, FindNtlb;
    if trace == [] {
      StartIsAfter(ntlb, pwc);
    } else {
      var n := |trace| - 1;
      var s, r, h := Run(NtlbOnly, Start(ntlb, pwc), trace[..n]), trace[n], NtlbRefs(trace[..n]);
      RunIsAfter(ntlb, pwc, trace[..n]);
      FindIsAfter(s, ntlb, h, PageOf(r.l1), false);
      var s1, h1 := FindNtlb(s, PageOf(r.l1), false), h + [Key(PageOf(r.l1), 0)];
      if Level(r) > 1 {
        FindIsAfter(s1, ntlb, h1, PageOf(r.l2), false);
        var s2, h2 := FindNtlb(s1, PageOf(r.l2), false), h1 + [Key(PageOf(r.l2), 0)];
        if Level(r) > 2 {
          FindIsAfter(s2, ntlb, h2, r.gpa, true);
        } else {
          assert h2 + [] == h2;
        }
      } else {
        assert h1 + [] + [] == h1;
      }
    }
  }

  lemma StartIsAfter(ntlb: Geometry, pwc: Geometry)
    requires ValidGeometry(ntlb) && ValidGeometry(pwc)
    ensures IsAfter(Start(ntlb, pwc), ntlb, [])
  {
  }

  /** After the trace the NTLB holds exactly the pages most recently referenced. */
  ghost predicate TraceExact(ntlb: Geometry, pwc: Geometry, trace: seq<Record>)
    requires ValidGeometry(ntlb) && ValidGeometry(pwc)
  {
    var s := Run(NtlbOnly, Start(ntlb, pwc), trace);
    forall key | key != NO_KEY :: Contains(s.ntlb.table, key) <==> key in LruContents(NtlbRefs(trace), ntlb.size)
  }

  lemma TraceExactMeans(ntlb: Geometry, pwc: Geometry, trace: seq<Record>)
    requires ValidGeometry(ntlb) && ValidGeometry(pwc)
    ensures TraceExact(ntlb, pwc, trace) <==> LruExact(ntlb, NtlbRefs(trace))
  {
    hide Run, NtlbRefs, LruContents, Contains, After;
    RunIsAfter(ntlb, pwc, trace);
  }

  lemma {:induction false} NoEmptyTags(trace: seq<Record>)
    requires ValidTrace(trace)
    ensures NO_KEY !in NtlbRefs(trace)
  {
    if trace != [] {
      NoEmptyTags(trace[..|trace| - 1]);
      assert NoEmptyTag(trace[|trace| - 1]);
    }
  }

  /** Records that stop at level 1, one for each page. */
  function Sections(h: seq<Key>): (trace: seq<Record>)
    ensures |trace| == |h|
  {
    seq(|h|, i requires 0 <= i < |h| => Record(1, h[i].va, 0, 0))
  }

  predicate PageKey(k: Key) {
    k.asid == 0 && k.va % 0x1000 == 0 && k.va < STAMPS
  }

  predicate PageKeys(h: seq<Key>) {
    forall i | 0 <= i < |h| :: PageKey(h[i])
  }

  lemma SectionsValid(h: seq<Key>)
    requires PageKeys(h)
    ensures ValidTrace(Sections(h))
  {
  }

  lemma SectionRefers(trace: seq<Record>, k: Key)
    requires PageKey(k)
    ensures NtlbRefs(trace + [Record(1, k.va, 0, 0)]) == NtlbRefs(trace) + [k]
  {
    assert (trace + [Record(1, k.va, 0, 0)])[..|trace|] == trace;
  }

  lemma NoRefs()
    ensures NtlbRefs([]) == []
  {
  }

  lemma {:induction false} SectionsRefer(h: seq<Key>)
    requires PageKeys(h)
    ensures NtlbRefs(Sections(h)) == h
    decreases |h|
  {
    hide NtlbRefs, PageKey;
    if h == [] {
      NoRefs();
      assert Sections(h) == [];
    } else {
      var n := |h| - 1;
      SectionsRefer(h[..n]);
      assert Sections(h) == Sections(h[..n]) + [Record(1, h[n].va, 0, 0)];
      SectionRefers(Sections(h[..n]), h[n]);
      assert h == h[..n] + [h[n]];
    }
  }

  lemma OverrunPages(size: nat, n: nat)
    requires 2 <= size < 0x10_0000 && n > STAMPS
    ensures PageKeys(Overrun(size, n))
  {
    hide Pages, Repeat;
  }

  /** The exact horizon of the NTLB simulation: with one set of two or more slots, it holds what an LRU cache
      holds after every trace of n lookups if and only if n is at most 2^32. */
  lemma NtlbHorizon(ntlb: Geometry, pwc: Geometry, n: nat)
    requires OneSet(ntlb) && ValidGeometry(pwc) && 2 <= ntlb.size < 0x10_0000
    ensures (forall trace | ValidTrace(trace) && |NtlbRefs(trace)| == n :: TraceExact(ntlb, pwc, trace)) <==> n <= STAMPS
  {
    hide TraceExact, LruExact, NtlbRefs, ValidTrace, Overrun, Sections;
    if n <= STAMPS {
      forall trace | ValidTrace(trace) && |NtlbRefs(trace)| == n
        ensures TraceExact(ntlb, pwc, trace)
      {
        NoEmptyTags(trace);
        ExactWithin(ntlb, NtlbRefs(trace));
        TraceExactMeans(ntlb, pwc, trace);
      }
    } else {
      var h := Overrun(ntlb.size, n);
      OverrunPages(ntlb.size, n);
      SectionsRefer(h);
      SectionsValid(h);
      OverrunNotExact(ntlb, n);
      TraceExactMeans(ntlb, pwc, Sections(h));
    }
  }
}
