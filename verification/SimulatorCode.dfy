/** The lookup functions, emulators and drivers of tlb_sim.c as they run. */
module SimulatorCode {
  import opened Recency
  import opened TimestampCache
  import opened TableSearch
  import opened CacheHistory
  import opened Simulators

  /** The global systs. */
  class Clock {
    var systs: nat

    constructor ()
      ensures systs == 0
    {
      systs := 0;
    }
  }

  /** One of the tables, with its counters.  The nested TLBs pass asid 0: their entries keep the
      0 that flushing stored. */
  class CacheUnit {
    const g: Geometry
    const table: array<Entry>
    var hit: nat
    var miss: nat

    ghost predicate Ok() {
      ValidGeometry(g) && table.Length == g.size
    }

    ghost function View(): Cache
      reads this, table
    {
      Cache(g, table[..], hit, miss)
    }

    constructor (g: Geometry)
      requires ValidGeometry(g)
      ensures Ok() && this.g == g && fresh(table)
      ensures View() == Fresh(g)
    {
      this.g := g;
      table := new Entry[g.size](_ => EMPTY);
      hit, miss := 0, 0;
    }

    /** INIT_TLB. */
    method Init()
      requires Ok()
      modifies this, table
      ensures View() == Fresh(g)
    {
      Clear(table);
      miss, hit := 0, 0;
    }

    /** tlbtrace_ntlb_find, tlbtrace_ntlb_find2 and tlbtrace_refppa_pwc, _pwc2, _pwc3. */
    method Lookup(clock: Clock, key: Key) returns (r: bool)
      requires Ok()
      modifies this, table, clock
      ensures clock.systs == old(clock.systs) + 1
      ensures Referred(View(), r) == Refer(old(View()), old(clock.systs), key)
    {
      hide Scan, SetOf;
      var found, slot := Search(g, table, key);
      clock.systs := clock.systs + 1;
      if found {
        table[slot] := table[slot].(ts := clock.systs % STAMPS);
        hit := hit + 1;
        return true;
      }
      table[slot] := Entry(key.va, key.asid, clock.systs % STAMPS);
      miss := miss + 1;
      return false;
    }
  }

  class Simulator {
    const clock: Clock
    const ntlb: CacheUnit
    const pwc: CacheUnit
    var accs: nat
    ghost var log: seq<Access>

    ghost predicate Ok()
      reads this, clock
    {
      && ntlb.Ok() && pwc.Ok()
      && ntlb != pwc && ntlb.table != pwc.table
      && clock.systs == |log|
    }

    ghost function Frame(): set<object> {
      {this, clock, ntlb, pwc, ntlb.table, pwc.table}
    }

    ghost function View(): Sim
      reads Frame()
    {
      Sim(clock.systs, ntlb.View(), pwc.View(), accs, log)
    }

    constructor (ntlb: Geometry, pwc: Geometry)
      requires ValidGeometry(ntlb) && ValidGeometry(pwc)
      ensures Ok() && View() == Start(ntlb, pwc)
    {
      clock := new Clock();
      this.ntlb := new CacheUnit(ntlb);
      this.pwc := new CacheUnit(pwc);
      accs, log := 0, [];
    }

    /** flush_all. */
    method FlushAll()
      requires ntlb.Ok() && pwc.Ok() && ntlb != pwc && ntlb.table != pwc.table
      modifies Frame()
      ensures Ok() && View() == Start(ntlb.g, pwc.g)
    {
      clock.systs, accs, log := 0, 0, [];
      ntlb.Init();
      pwc.Init();
    }

    method FromNtlb(va: nat) returns (r: bool)
      requires Ok()
      modifies Frame()
      ensures Ok() && Used(View(), r) == UseNtlb(old(View()), va)
    {
      hide Refer;
      r := ntlb.Lookup(clock, Key(va, 0));
      log := log + [Access(false, Key(va, 0), r)];
    }

    method FromPwc(va: nat, asid: nat) returns (r: bool)
      requires Ok()
      modifies Frame()
      ensures Ok() && Used(View(), r) == UsePwc(old(View()), va, asid)
    {
      hide Refer;
      r := pwc.Lookup(clock, Key(va, asid));
      log := log + [Access(true, Key(va, asid), r)];
    }

    method Pay(n: nat)
      requires Ok()
      modifies `accs
      ensures Ok() && View() == Paid(old(View()), n)
    {
      accs := accs + n;
    }

    /** tlbtrace_ntlb_find2 with its charges. */
    method ChargedNtlb(va: nat, final: bool)
      requires Ok()
      modifies Frame()
      ensures Ok() && View() == FindNtlb(old(View()), va, final)
    {
      hide UseNtlb;
      var r := FromNtlb(va);
      Pay((if final then 0 else 1) + (if r then 0 else 2));
    }

    method RunNtlb(r: Record)
      requires Ok()
      modifies Frame()
      ensures Ok() && View() == EmulateNtlb(old(View()), r)
    {
      hide FindNtlb;
      ChargedNtlb(r.l1 - r.l1 % 0x1000, false);
      if r.mva % 16 > 1 {
        ChargedNtlb(r.l2 - r.l2 % 0x1000, false);
      }
      if r.mva % 16 > 2 {
        ChargedNtlb(r.gpa, true);
      }
    }

    method ChargedPwc(va: nat, asid: nat)
      requires Ok()
      modifies Frame()
      ensures Ok() && View() == ChargePwc(old(View()), va, asid)
    {
      hide UsePwc;
      var r := FromPwc(va, asid);
      if !r {
        Pay(1);
      } else {
        Pay(0);
      }
    }

    /** The two EPT descriptor references for a guest physical address. */
    method Walk(gpa: nat)
      requires Ok()
      modifies Frame()
      ensures Ok() && View() == WalkEpt(old(View()), gpa)
    {
      hide ChargePwc;
      var l1 := gpa / 0x10_0000 * 4;
      var l2 := 16 * 1024 + gpa / 0x10_0000 * 1024 + gpa / 0x1000 % 0x100 * 4;
      ChargedPwc(l1, 0);
      ChargedPwc(l2, 0);
    }

    method DescriptorEpt(va: nat)
      requires Ok()
      modifies Frame()
      ensures Ok() && View() == DescEpt(old(View()), va)
    {
      hide UsePwc, WalkEpt;
      var r := FromPwc(va, 1);
      if !r {
        Walk(va);
        Pay(1);
      }
    }

    method RunPwcEpt(r: Record)
      requires Ok()
      modifies Frame()
      ensures Ok() && View() == EmulatePwcEpt(old(View()), r)
    {
      hide DescEpt, WalkEpt;
      DescriptorEpt(r.l1);
      if r.mva % 16 > 1 {
        DescriptorEpt(r.l2);
      }
      if r.mva % 16 > 2 {
        Walk(r.gpa);
      }
    }

    method RunPwcNoEpt(r: Record)
      requires Ok()
      modifies Frame()
      ensures Ok() && View() == EmulatePwcNoEpt(old(View()), r)
    {
      hide ChargePwc;
      ChargedPwc(r.l1, 1);
      if r.mva % 16 > 1 {
        ChargedPwc(r.l2, 1);
      }
    }

    method Translated(va: nat, gpa: nat)
      requires Ok()
      modifies Frame()
      ensures Ok() && View() == Translate(old(View()), va, gpa)
    {
      hide UseNtlb, WalkEpt;
      var r := FromNtlb(va);
      if !r {
        Walk(gpa);
      }
    }

    method DescriptorFull(va: nat)
      requires Ok()
      modifies Frame()
      ensures Ok() && View() == DescFull(old(View()), va)
    {
      hide UsePwc, Translate;
      var r := FromPwc(va, 1);
      if !r {
        Translated(va - va % 0x1000, va);
        Pay(1);
      }
    }

    method RunFull(r: Record)
      requires Ok()
      modifies Frame()
      ensures Ok() && View() == EmulateFull(old(View()), r)
    {
      hide DescFull, Translate;
      DescriptorFull(r.l1);
      if r.mva % 16 > 1 {
        DescriptorFull(r.l2);
      }
      if r.mva % 16 > 2 {
        Translated(r.gpa, r.gpa);
      }
    }

    /** tlbsim_sim_ntlb, _pwc_ept, _pwc_noept and _ntlb_pwc on the records of a trace file. */
    method Simulate(kind: Kind, trace: seq<Record>)
      requires Ok()
      modifies Frame()
      ensures Ok() && View() == Run(kind, Start(ntlb.g, pwc.g), trace)
    {
      hide EmulateNtlb, EmulatePwcEpt, EmulatePwcNoEpt, EmulateFull;
      FlushAll();
      var i := 0;
      while i < |trace|
        invariant 0 <= i <= |trace|
        invariant Ok() && View() == Run(kind, Start(ntlb.g, pwc.g), trace[..i])
      {
        assert trace[..i + 1][..i] == trace[..i];
        match kind {
          case NtlbOnly => RunNtlb(trace[i]);
          case PwcEpt => RunPwcEpt(trace[i]);
          case PwcNoEpt => RunPwcNoEpt(trace[i]);
          case NtlbPwc => RunFull(trace[i]);
        }
        i := i + 1;
      }
      assert trace[..i] == trace;
    }
  }
}
