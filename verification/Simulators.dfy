/** The four simulations of tlb_sim.c over a trace. */
module Simulators {
  import opened Recency
  import opened TimestampCache
  import opened CacheHistory

  /** One 4-tuple of the trace file. */
  datatype Record = Record(mva: nat, l1: nat, l2: nat, gpa: nat)

  function Level(r: Record): nat {
    r.mva % 16
  }

  /** A lookup as it happened, in the PWC or in the NTLB. */
  datatype Access = Access(pwc: bool, key: Key, hit: bool)

  /** systs, the two caches of a simulation, its access counter, and the lookups made. */
  datatype Sim = Sim(systs: nat, ntlb: Cache, pwc: Cache, accs: nat, log: seq<Access>)

  predicate ValidSim(s: Sim) {
    ValidCache(s.ntlb) && ValidCache(s.pwc) && s.systs == |s.log|
  }

  predicate SameShape(a: Sim, b: Sim) {
    a.ntlb.g == b.ntlb.g && a.pwc.g == b.pwc.g
  }

  /** flush_all. */
  function Start(ntlb: Geometry, pwc: Geometry): (s: Sim)
    requires ValidGeometry(ntlb) && ValidGeometry(pwc)
    ensures ValidSim(s)
  {
    Sim(0, Fresh(ntlb), Fresh(pwc), 0, [])
  }

  datatype Used = Used(sim: Sim, hit: bool)

  function UseNtlb(s: Sim, va: nat): (r: Used)
    requires ValidSim(s)
    ensures ValidSim(r.sim) && SameShape(s, r.sim)
    ensures |r.sim.log| == |s.log| + 1
  {
    var key := Key(va, 0);
    var c := Refer(s.ntlb, s.systs, key);
    Used(s.(systs := s.systs + 1, ntlb := c.cache, log := s.log + [Access(false, key, c.hit)]), c.hit)
  }

  function UsePwc(s: Sim, va: nat, asid: nat): (r: Used)
    requires ValidSim(s)
    ensures ValidSim(r.sim) && SameShape(s, r.sim)
    ensures |r.sim.log| == |s.log| + 1
  {
    var key := Key(va, asid);
    var c := Refer(s.pwc, s.systs, key);
    Used(s.(systs := s.systs + 1, pwc := c.cache, log := s.log + [Access(true, key, c.hit)]), c.hit)
  }

  function Paid(s: Sim, n: nat): Sim {
    s.(accs := s.accs + n)
  }

  // addresses of the descriptors of the default extended page table

  function PageOf(gpa: nat): nat { gpa - gpa % 0x1000 }

  function EptL1(gpa: nat): nat { gpa / 0x10_0000 * 4 }

  function EptL2(gpa: nat): nat { 16 * 1024 + gpa / 0x10_0000 * 1024 + gpa / 0x1000 % 0x100 * 4 }

  // ----- NTLB only -----

  /** tlbtrace_ntlb_find2 with its charges. */
  function FindNtlb(s: Sim, va: nat, final: bool): (r: Sim)
    requires ValidSim(s)
    ensures ValidSim(r) && SameShape(s, r)
    ensures |r.log| == |s.log| + 1
  {
    var u := UseNtlb(s, va);
    Paid(u.sim, (if final then 0 else 1) + (if u.hit then 0 else 2))
  }

  function EmulateNtlb(s: Sim, r: Record): (s': Sim)
    requires ValidSim(s)
    ensures ValidSim(s') && SameShape(s, s')
    ensures |s'.log| > |s.log|
  {
    var s1 := FindNtlb(s, PageOf(r.l1), false);
    var s2 := if Level(r) > 1 then FindNtlb(s1, PageOf(r.l2), false) else s1;
    if Level(r) > 2 then FindNtlb(s2, r.gpa, true) else s2
  }

  // ----- PWC -----

  /** A PWC lookup that costs one access when it misses. */
  function ChargePwc(s: Sim, va: nat, asid: nat): (r: Sim)
    requires ValidSim(s)
    ensures ValidSim(r) && SameShape(s, r)
    ensures |r.log| == |s.log| + 1
  {
    var u := UsePwc(s, va, asid);
    Paid(u.sim, if u.hit then 0 else 1)
  }

  /** The walk of the extended page table for a guest physical address. */
  function WalkEpt(s: Sim, gpa: nat): (r: Sim)
    requires ValidSim(s)
    ensures ValidSim(r) && SameShape(s, r)
    ensures |r.log| == |s.log| + 2
  {
    ChargePwc(ChargePwc(s, EptL1(gpa), 0), EptL2(gpa), 0)
  }

  function DescEpt(s: Sim, va: nat): (r: Sim)
    requires ValidSim(s)
    ensures ValidSim(r) && SameShape(s, r)
    ensures |r.log| > |s.log|
  {
    var u := UsePwc(s, va, 1);
    if u.hit then u.sim else Paid(WalkEpt(u.sim, va), 1)
  }

  function EmulatePwcEpt(s: Sim, r: Record): (s': Sim)
    requires ValidSim(s)
    ensures ValidSim(s') && SameShape(s, s')
    ensures |s'.log| > |s.log|
  {
    var s1 := DescEpt(s, r.l1);
    var s2 := if Level(r) > 1 then DescEpt(s1, r.l2) else s1;
    if Level(r) > 2 then WalkEpt(s2, r.gpa) else s2
  }

  function EmulatePwcNoEpt(s: Sim, r: Record): (s': Sim)
    requires ValidSim(s)
    ensures ValidSim(s') && SameShape(s, s')
    ensures |s'.log| > |s.log|
  {
    var s1 := ChargePwc(s, r.l1, 1);
    if Level(r) > 1 then ChargePwc(s1, r.l2, 1) else s1
  }

  // ----- NTLB and PWC -----

  function Translate(s: Sim, va: nat, gpa: nat): (r: Sim)
    requires ValidSim(s)
    ensures ValidSim(r) && SameShape(s, r)
    ensures |r.log| > |s.log|
  {
    var u := UseNtlb(s, va);
    if u.hit then u.sim else WalkEpt(u.sim, gpa)
  }

  function DescFull(s: Sim, va: nat): (r: Sim)
    requires ValidSim(s)
    ensures ValidSim(r) && SameShape(s, r)
    ensures |r.log| > |s.log|
  {
    var u := UsePwc(s, va, 1);
    if u.hit then u.sim else Paid(Translate(u.sim, PageOf(va), va), 1)
  }

  function EmulateFull(s: Sim, r: Record): (s': Sim)
    requires ValidSim(s)
    ensures ValidSim(s') && SameShape(s, s')
    ensures |s'.log| > |s.log|
  {
    var s1 := DescFull(s, r.l1);
    var s2 := if Level(r) > 1 then DescFull(s1, r.l2) else s1;
    if Level(r) > 2 then Translate(s2, r.gpa, r.gpa) else s2
  }

  // ----- whole traces -----

  /** enum SIM_CMD. */
  datatype Kind = NtlbOnly | PwcEpt | PwcNoEpt | NtlbPwc

  function Emulate(kind: Kind, s: Sim, r: Record): (s': Sim)
    requires ValidSim(s)
    ensures ValidSim(s') && SameShape(s, s')
    ensures |s'.log| > |s.log|
  {
    match kind
    case NtlbOnly => EmulateNtlb(s, r)
    case PwcEpt => EmulatePwcEpt(s, r)
    case PwcNoEpt => EmulatePwcNoEpt(s, r)
    case NtlbPwc => EmulateFull(s, r)
  }

  /** The tlbsim_sim_* drivers. */
  function Run(kind: Kind, s: Sim, trace: seq<Record>): (s': Sim)
    requires ValidSim(s)
    ensures ValidSim(s') && SameShape(s, s')
    ensures |s'.log| >= |s.log|
  {
    if trace == [] then s
    else Emulate(kind, Run(kind, s, trace[..|trace| - 1]), trace[|trace| - 1])
  }
}
