/** The tracer of tlb_trace.c: its first-level TLB with the last-instruction shortcut, the
    flushes, and the trace file. */
module Tracer {
  import opened Recency
  import opened TimestampCache
  import opened LruRefinement
  import opened Simulators

  const BUFFER_WORDS := 1024 * 1024 * 8
  const LIMIT := 150_000_000_000

  /** The answer of the page-table helper: 1 for a section or fault, 2 for a missing page, 3 for
      a complete walk, with the addresses it found. */
  datatype Walk = Walk(level: nat, l1: nat, l2: nat, gpa: nat)

  datatype Event =
    | Ref(addr: nat, asid: nat, ins: bool, walk: Walk)
    | FlushAll
    | FlushEntry(va: nat)
    | FlushAsid(asid: nat)

  /** A miss that was written to the trace: the page and its walk. */
  datatype Miss = Miss(page: nat, walk: Walk)

  /** sl_tlb, last_ins_idx, systs, sl_cnt, the words written to the file, fbuf up to fbc, and
      whether the lookup limit has ended the program.  log is the misses recorded. */
  datatype Trace = Trace(table: seq<Entry>, last: nat, systs: nat, hit: nat, miss: nat,
                         file: seq<nat>, buf: seq<nat>, exited: bool, log: seq<Miss>)

  predicate Valid(g: Geometry, s: Trace) {
    ValidGeometry(g) && |s.table| == g.size && s.last < g.size
  }

  // ----- lookup, with and without the shortcut -----

  function LookupFast(g: Geometry, s: Trace, key: Key, ins: bool): (r: Lookup)
    requires Valid(g, s)
    ensures |r.table| == g.size && r.slot < g.size
  {
    if ins && KeyOf(s.table[s.last]) == key
    then Lookup(s.table[s.last := s.table[s.last].(ts := Stamp(s.systs + 1))], true, s.last)
    else Reference(g, s.table, s.systs, key)
  }

  /** The shortcut is taken for a slot that a scan of the key's set does not reach. */
  predicate Astray(g: Geometry, s: Trace, key: Key, ins: bool)
    requires Valid(g, s)
  {
    ins && KeyOf(s.table[s.last]) == key && !InSet(g, key.va, s.last)
  }

  /** The shortcut gives what the scan gives exactly when it is not astray. */
  lemma ShortcutIsScan(g: Geometry, s: Trace, key: Key, ins: bool)
    requires Valid(g, s) && Unique(g, s.table) && key != NO_KEY
    ensures LookupFast(g, s, key, ins) == Reference(g, s.table, s.systs, key) <==> !Astray(g, s, key, ins)
  {
    hide Reference, SetOf, Visits;
    var r := Reference(g, s.table, s.systs, key);
    LookupOutcome(g, s.table, s.systs, key);
    if ins && KeyOf(s.table[s.last]) == key && InSet(g, key.va, s.last) {
      assert r.hit && r.slot == s.last;
      assert r.table == s.table[s.last := s.table[s.last].(ts := Stamp(s.systs + 1))];
    }
  }

  // ----- one event -----

  function Emit(s: Trace, m: Miss): Trace {
    var buf := s.buf + [m.page + m.walk.level, m.walk.l1, m.walk.l2, m.walk.gpa];
    if |buf| == BUFFER_WORDS then s.(file := s.file + buf, buf := [], log := s.log + [m])
    else s.(buf := buf, log := s.log + [m])
  }

  /** tlbtrace_stop: what is buffered goes to the file. */
  function Stop(s: Trace): Trace {
    s.(file := s.file + s.buf, buf := [])
  }

  function Refmem(fast: bool, g: Geometry, s: Trace, e: Event): (s': Trace)
    requires Valid(g, s) && e.Ref?
    ensures Valid(g, s')
  {
    var page := PageOf(e.addr);
    var key := Key(page, e.asid);
    var r := if fast then LookupFast(g, s, key, e.ins) else Reference(g, s.table, s.systs, key);
    var s1 := s.(table := r.table, systs := s.systs + 1, last := if e.ins then r.slot else s.last);
    if r.hit then s1.(hit := s.hit + 1)
    else
      var s2 := s1.(miss := s.miss + 1);
      if s2.systs >= LIMIT then Stop(s2).(exited := true)
      else Emit(s2, Miss(page, e.walk))
  }

  predicate Flushed(e: Event, x: Entry)
    requires !e.Ref?
  {
    match e
    case FlushAll => true
    case FlushEntry(va) => x.va == PageOf(va % STAMPS) && x.asid == va % 0x100
    case FlushAsid(asid) => x.asid == asid
  }

  function Flush(t: seq<Entry>, e: Event): (r: seq<Entry>)
    requires !e.Ref?
    ensures |r| == |t|
    ensures forall i | 0 <= i < |t| :: r[i] == if Flushed(e, t[i]) then EMPTY else t[i]
  {
    seq(|t|, i requires 0 <= i < |t| => if Flushed(e, t[i]) then EMPTY else t[i])
  }

  function Step(fast: bool, g: Geometry, s: Trace, e: Event): (s': Trace)
    requires Valid(g, s)
    ensures Valid(g, s')
  {
    if s.exited then s
    else if e.Ref? then Refmem(fast, g, s, e)
    else s.(table := Flush(s.table, e))
  }

  function RunTrace(fast: bool, g: Geometry, s: Trace, events: seq<Event>): (s': Trace)
    requires Valid(g, s)
    ensures Valid(g, s')
  {
    if events == [] then s
    else Step(fast, g, RunTrace(fast, g, s, events[..|events| - 1]), events[|events| - 1])
  }

  // ----- the shortcut over whole runs -----

  lemma FlushKeepsUnique(g: Geometry, t: seq<Entry>, e: Event)
    requires ValidGeometry(g) && |t| == g.size && Unique(g, t) && !e.Ref?
    ensures Unique(g, Flush(t, e))
  {
    hide InSet, Flushed;
  }

  lemma FastKeepsUnique(g: Geometry, s: Trace, key: Key, ins: bool)
    requires Valid(g, s) && Unique(g, s.table)
    ensures Unique(g, LookupFast(g, s, key, ins).table)
  {
    hide InSet, Reference;
    KeepsUnique(g, s.table, s.systs, key);
  }

  lemma StepKeepsUnique(fast: bool, g: Geometry, s: Trace, e: Event)
    requires Valid(g, s) && Unique(g, s.table)
    ensures Unique(g, Step(fast, g, s, e).table)
  {
    hide Unique, Reference, LookupFast;
    if e.Ref? {
      var key := Key(PageOf(e.addr), e.asid);
      FastKeepsUnique(g, s, key, e.ins);
      KeepsUnique(g, s.table, s.systs, key);
    } else {
      FlushKeepsUnique(g, s.table, e);
    }
  }

  lemma OneSetNeverAstray(g: Geometry, s: Trace, key: Key, ins: bool)
    requires Valid(g, s) && g.step == 1
    ensures !Astray(g, s, key, ins)
  {
    OneSetHasAll(0, s.last);
  }

  /** With one set, a run with the shortcut has the same table, counters, records and file as a
      run that always scans, across all flushes and at any length. */
  lemma {:induction false} FastIsScan(g: Geometry, s: Trace, events: seq<Event>)
    requires Valid(g, s) && Unique(g, s.table) && g.step == 1
    ensures RunTrace(true, g, s, events) == RunTrace(false, g, s, events)
    ensures Unique(g, RunTrace(true, g, s, events).table)
  {
    if events != [] {
      var n := |events| - 1;
      FastIsScan(g, s, events[..n]);
      var b, e := RunTrace(true, g, s, events[..n]), events[n];
      StepKeepsUnique(true, g, b, e);
      hide Unique, Reference, LookupFast, Astray;
      if e.Ref? {
        var key := Key(PageOf(e.addr), e.asid);
        OneSetNeverAstray(g, b, key, e.ins);
        ShortcutIsScan(g, b, key, e.ins);
      }
    }
  }

  /** tlbtrace_start; last_ins_idx is what the trace before it left. */
  function Started(g: Geometry, last: nat): (s: Trace)
    requires ValidGeometry(g) && last < g.size
    ensures Valid(g, s)
  {
    Trace(seq(g.size, _ => EMPTY), last, 0, 0, 0, [], [], false, [])
  }

  /** With two sets the runs differ from the second fetch on: the first one refills slot 0, which
      the scan for its page does not visit. */
  lemma ShortcutAstray(w: Walk)
    ensures var g := Geometry(2, 2, 4096);
      var fetch := Ref(0x1000, 5, true, w);
      && RunTrace(true, g, Started(g, 0), [fetch, fetch]).hit == 1
      && RunTrace(false, g, Started(g, 0), [fetch, fetch]).hit == 0
  {
    hide Reference, LookupFast, Emit;
    var g := Geometry(2, 2, 4096);
    var fetch := Ref(0x1000, 5, true, w);
    assert [fetch, fetch][..1] == [fetch];
    AstrayFirst(true, w);
    AstrayFirst(false, w);
    AstraySecond(w);
  }

  /** After the first fetch. */
  function AstrayOnce(w: Walk): Trace {
    Emit(Trace([Entry(0x1000, 5, 1), EMPTY], 0, 1, 0, 1, [], [], false, []), Miss(0x1000, w))
  }

  lemma AstrayScans()
    ensures var g, key, t := Geometry(2, 2, 4096), Key(0x1000, 5), [Entry(0x1000, 5, 1), EMPTY];
      && Reference(g, [EMPTY, EMPTY], 0, key) == Lookup(t, false, 0)
      && !Reference(g, t, 1, key).hit
  {
    var g, key, t := Geometry(2, 2, 4096), Key(0x1000, 5), [Entry(0x1000, 5, 1), EMPTY];
    assert BitAnd(1, 1) == 1;
    assert SetOf(g, 0x1000) == 1;
    assert Scan([EMPTY, EMPTY], key, 3, 2, 0) == Victim(0);
    assert Scan(t, key, 3, 2, 1) == Victim(1);
  }

  lemma AstrayFirst(fast: bool, w: Walk)
    ensures var g := Geometry(2, 2, 4096);
      RunTrace(fast, g, Started(g, 0), [Ref(0x1000, 5, true, w)]) == AstrayOnce(w)
  {
    hide Reference, Emit;
    var g := Geometry(2, 2, 4096);
    var fetch, s := Ref(0x1000, 5, true, w), Started(g, 0);
    AstrayScans();
    assert s.table == [EMPTY, EMPTY];
    assert [fetch][..0] == [] && RunTrace(fast, g, s, []) == s;
  }

  lemma AstraySecond(w: Walk)
    ensures var g, fetch, s := Geometry(2, 2, 4096), Ref(0x1000, 5, true, w), AstrayOnce(w);
      Valid(g, s) && Step(true, g, s, fetch).hit == 1 && Step(false, g, s, fetch).hit == 0
  {
    hide Reference;
    AstrayScans();
  }

  // ----- the trace file -----

  function Words(m: Miss): seq<nat> {
    [m.page + m.walk.level, m.walk.l1, m.walk.l2, m.walk.gpa]
  }

  function Flatten(log: seq<Miss>): (w: seq<nat>)
    ensures |w| == 4 * |log|
  {
    if log == [] then [] else Flatten(log[..|log| - 1]) + Words(log[|log| - 1])
  }

  /** The fread loop of the simulators: whole 4-tuples, an incomplete last one dropped. */
  function Parse(w: seq<nat>): seq<Record>
    decreases |w|
  {
    if |w| < 4 then [] else [Record(w[0], w[1], w[2], w[3])] + Parse(w[4..])
  }

  lemma {:induction false} ParseAppend(w: seq<nat>, x: seq<nat>)
    requires |w| % 4 == 0
    ensures Parse(w + x) == Parse(w) + Parse(x)
    decreases |w|
  {
    if w == [] {
      assert w + x == x;
      ParseNone();
    } else {
      hide Parse;
      ParseAppend(w[4..], x);
      assert (w + x)[4..] == w[4..] + x;
      ParseOne(w);
      ParseOne(w + x);
    }
  }

  lemma ParseNone()
    ensures Parse([]) == []
  {
  }

  lemma ParseOne(w: seq<nat>)
    requires |w| >= 4
    ensures Parse(w) == [Record(w[0], w[1], w[2], w[3])] + Parse(w[4..])
  {
  }

  lemma {:induction false} ParseAt(w: seq<nat>, i: nat)
    requires 4 * i + 3 < |w|
    ensures i < |Parse(w)| && Parse(w)[i] == Record(w[4 * i], w[4 * i + 1], w[4 * i + 2], w[4 * i + 3])
    decreases |w|
  {
    if i > 0 {
      ParseAt(w[4..], i - 1);
    }
  }

  /** Record i takes words 4 * i to 4 * i + 3: page and level, then the three addresses of the walk. */
  lemma {:induction false} FlattenAt(log: seq<Miss>, i: nat)
    requires i < |log|
    ensures Flatten(log)[4 * i] == log[i].page + log[i].walk.level
    ensures Flatten(log)[4 * i + 1] == log[i].walk.l1
    ensures Flatten(log)[4 * i + 2] == log[i].walk.l2
    ensures Flatten(log)[4 * i + 3] == log[i].walk.gpa
  {
    if i < |log| - 1 {
      FlattenAt(log[..|log| - 1], i);
    }
  }

  /** The miss that brings the number of lookups to the limit ends the program, and nothing else does. */
  lemma LimitEnds(fast: bool, g: Geometry, s: Trace, e: Event)
    requires Valid(g, s) && !s.exited
    ensures var s' := Step(fast, g, s, e);
      s'.exited <==> s'.miss > s.miss && s'.systs >= 150_000_000_000
  {
    hide Reference, LookupFast;
  }

  function Recorded(m: Miss): Record {
    Record(m.page + m.walk.level, m.walk.l1, m.walk.l2, m.walk.gpa)
  }

  /** Reading the words back gives one record per miss, in order. */
  lemma {:induction false} ParseFlatten(log: seq<Miss>)
    ensures Parse(Flatten(log)) == seq(|log|, i requires 0 <= i < |log| => Recorded(log[i]))
  {
    if log != [] {
      var n := |log| - 1;
      ParseFlatten(log[..n]);
      ParseAppend(Flatten(log[..n]), Words(log[n]));
      assert Words(log[n])[4..] == [];
      assert Parse(Words(log[n])) == [Recorded(log[n])];
    }
  }

  /** The helper answers 1, 2 or 3. */
  predicate ValidEvent(e: Event) {
    e.Ref? ==> 1 <= e.walk.level <= 3
  }

  /** Written words and buffer are exactly one 4-word record per recorded miss; all misses are
      recorded but the one that ends the program. */
  ghost predicate FileOk(s: Trace) {
    && s.file + s.buf == Flatten(s.log)
    && |s.buf| % 4 == 0 && |s.buf| < BUFFER_WORDS
    && s.miss == |s.log| + (if s.exited then 1 else 0)
    && s.hit + s.miss == s.systs
    && (s.exited ==> s.buf == [])
    && Readable(s.log)
  }

  /** Pages are aligned and levels fit in the bits below. */
  predicate Readable(log: seq<Miss>) {
    forall i | 0 <= i < |log| :: log[i].page % 0x1000 == 0 && 1 <= log[i].walk.level <= 3
  }

  lemma ReadableLast(log: seq<Miss>, addr: nat, walk: Walk)
    requires Readable(log) && 1 <= walk.level <= 3
    ensures Readable(log + [Miss(PageOf(addr), walk)])
  {
  }

  lemma FlattenLast(log: seq<Miss>, m: Miss)
    ensures Flatten(log + [m]) == Flatten(log) + Words(m)
  {
    assert (log + [m])[..|log|] == log;
  }

  lemma StepFile(fast: bool, g: Geometry, s: Trace, e: Event)
    requires Valid(g, s) && FileOk(s) && ValidEvent(e)
    ensures FileOk(Step(fast, g, s, e))
  {
    hide LookupFast, Reference, Flatten, Readable, PageOf;
    if !s.exited && e.Ref? {
      ReadableLast(s.log, e.addr, e.walk);
      var m := Miss(PageOf(e.addr), e.walk);
      FlattenLast(s.log, m);
      assert s.file + s.buf + Words(m) == s.file + (s.buf + Words(m));
    }
  }

  lemma {:induction false} RunFile(fast: bool, g: Geometry, last: nat, events: seq<Event>)
    requires ValidGeometry(g) && last < g.size && forall i | 0 <= i < |events| :: ValidEvent(events[i])
    ensures FileOk(RunTrace(fast, g, Started(g, last), events))
  {
    hide Step;
    if events != [] {
      RunFile(fast, g, last, events[..|events| - 1]);
      StepFile(fast, g, RunTrace(fast, g, Started(g, last), events[..|events| - 1]), events[|events| - 1]);
    }
  }

  /** The record tells the miss: level in the low four bits, page in the rest of the word. */
  predicate Tells(r: Record, m: Miss) {
    && Level(r) == m.walk.level && PageOf(r.mva) == m.page
    && r.l1 == m.walk.l1 && r.l2 == m.walk.l2 && r.gpa == m.walk.gpa
  }

  lemma RecordedTells(m: Miss)
    requires m.page % 0x1000 == 0 && m.walk.level < 0x10
    ensures Tells(Recorded(m), m)
  {
    LevelAndPage(m.page / 0x1000, m.walk.level);
  }

  lemma LevelAndPage(n: nat, level: nat)
    requires level < 0x10
    ensures (n * 0x1000 + level) % 16 == level
    ensures (n * 0x1000 + level) - (n * 0x1000 + level) % 0x1000 == n * 0x1000
  {
    assert n * 0x1000 == 16 * (n * 0x100);
  }

  /** After any run, stopping the tracer leaves a file from which a simulator reads one record
      per miss, except for the miss at which the lookup limit ends the program. */
  lemma TraceFile(fast: bool, g: Geometry, last: nat, events: seq<Event>)
    requires ValidGeometry(g) && last < g.size && forall i | 0 <= i < |events| :: ValidEvent(events[i])
    ensures var s := RunTrace(fast, g, Started(g, last), events);
      var records := Parse(Stop(s).file);
      && |records| == |s.log| == s.miss - (if s.exited then 1 else 0)
      && forall i | 0 <= i < |records| :: Tells(records[i], s.log[i])
  {
    hide RunTrace, Flatten, Parse, Tells, Recorded;
    RunFile(fast, g, last, events);
    var s := RunTrace(fast, g, Started(g, last), events);
    ParseFlatten(s.log);
    assert Stop(s).file == Flatten(s.log);
    forall i | 0 <= i < |s.log|
      ensures Tells(Recorded(s.log[i]), s.log[i])
    {
      RecordedTells(s.log[i]);
    }
  }
}
