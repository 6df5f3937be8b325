/** tlbtrace_refmem, the flushes and tlbtrace_stop as they run. */
module TracerCode {
  import opened Recency
  import opened TimestampCache
  import opened LruRefinement
  import opened TableSearch
  import opened Tracer
  import opened TracerTheorems

  class TlbTracer {
    const g: Geometry
    const slTlb: array<Entry>
    const fbuf: array<nat>
    var fbc: nat
    var lastInsIdx: nat
    var systs: nat
    var hit: nat
    var miss: nat
    var file: seq<nat>
    var exited: bool
    ghost var log: seq<Miss>

    ghost predicate Ok()
      reads this
    {
      && ValidGeometry(g) && slTlb.Length == g.size && lastInsIdx < g.size
      && fbuf.Length == BUFFER_WORDS && fbc % 4 == 0 && fbc < BUFFER_WORDS
    }

    ghost function View(): Trace
      requires Ok()
      reads this, slTlb, fbuf
    {
      Trace(slTlb[..], lastInsIdx, systs, hit, miss, file, fbuf[..fbc], exited, log)
    }

    constructor (g: Geometry)
      requires ValidGeometry(g)
      ensures Ok() && View() == Started(g, 0) && this.g == g
      ensures fresh(slTlb) && fresh(fbuf) && slTlb != fbuf as object
    {
      this.g := g;
      slTlb := new Entry[g.size](_ => EMPTY);
      fbuf := new nat[BUFFER_WORDS](_ => 0);
      fbc, lastInsIdx, systs, hit, miss := 0, 0, 0, 0, 0;
      file, exited, log := [], false, [];
    }

    /** tlbtrace_start, which leaves last_ins_idx as the last trace did. */
    method Start()
      requires Ok()
      modifies this, slTlb
      ensures Ok() && View() == Started(g, old(lastInsIdx)) && lastInsIdx == old(lastInsIdx)
    {
      fbc, file, log, exited := 0, [], [], false;
      systs := 0;
      Clear(slTlb);
      miss, hit := 0, 0;
    }

    /** tlbtrace_refmem_sl up to the counters: the shortcut, the scan and the refill. */
    method RefmemSl(key: Key, ins: bool) returns (r: bool)
      requires Ok()
      modifies slTlb, `lastInsIdx, `systs, `hit, `miss
      ensures Ok() && systs == old(systs) + 1
      ensures var l := LookupFast(g, old(View()), key, ins);
        && slTlb[..] == l.table && r == l.hit
        && lastInsIdx == (if ins then l.slot else old(lastInsIdx))
        && hit == old(hit) + (if r then 1 else 0) && miss == old(miss) + (if r then 0 else 1)
    {
      hide Scan, SetOf;
      if ins {
        if slTlb[lastInsIdx].va == key.va && slTlb[lastInsIdx].asid == key.asid {
          systs := systs + 1;
          slTlb[lastInsIdx] := slTlb[lastInsIdx].(ts := systs % STAMPS);
          hit := hit + 1;
          return true;
        }
      }
      var found, slot := Search(g, slTlb, key);
      systs := systs + 1;
      if found {
        slTlb[slot] := slTlb[slot].(ts := systs % STAMPS);
        hit := hit + 1;
      } else {
        slTlb[slot] := Entry(key.va, key.asid, systs % STAMPS);
        miss := miss + 1;
      }
      if ins {
        lastInsIdx := slot;
      }
      return found;
    }

    method PutWord(w: nat)
      requires fbc < fbuf.Length
      modifies fbuf, `fbc
      ensures fbc == old(fbc) + 1 && fbuf[..fbc] == old(fbuf[..fbc]) + [w]
    {
      fbuf[fbc] := w;
      fbc := fbc + 1;
    }

    /** tlbtrace_refmem_pwc: one record into the buffer, the buffer to the file when full. */
    method RefmemPwc(page: nat, walk: Walk)
      requires Ok()
      modifies fbuf, `fbc, `file, `log
      ensures Ok() && View() == Emit(old(View()), Miss(page, walk))
    {
      PutRecord(page + walk.level, walk);
      log := log + [Miss(page, walk)];
      if fbc == BUFFER_WORDS {
        assert fbuf[..] == fbuf[..fbc];
        file := file + fbuf[..];
        fbc := 0;
      }
    }

    method PutRecord(word: nat, walk: Walk)
      requires fbc + 4 <= fbuf.Length
      modifies fbuf, `fbc
      ensures fbc == old(fbc) + 4 && fbuf[..fbc] == old(fbuf[..fbc]) + [word, walk.l1, walk.l2, walk.gpa]
    {
      PutWord(word);
      PutWord(walk.l1);
      PutWord(walk.l2);
      PutWord(walk.gpa);
    }

    /** tlbtrace_stop. */
    method Finish()
      requires Ok()
      modifies `fbc, `file
      ensures Ok() && View() == Stop(old(View()))
    {
      if fbc > 0 {
        file := file + fbuf[..fbc];
      }
      fbc := 0;
    }

    /** tlbtrace_refmem.  Nothing runs after the limit has ended the program. */
    method Refmem(addr: nat, asid: nat, ins: bool, walk: Walk)
      requires Ok() && slTlb != fbuf as object && !exited
      modifies this, slTlb, fbuf
      ensures Ok() && View() == Step(true, g, old(View()), Ref(addr, asid, ins, walk))
    {
      hide LookupFast;
      var page := addr - addr % 0x1000;
      var r := RefmemSl(Key(page, asid), ins);
      if r {
        return;
      }
      if systs >= LIMIT {
        Finish();
        exited := true;
        return;
      }
      RefmemPwc(page, walk);
    }

    /** tlbtrace_flush_all, _entry and _asid. */
    method Flush(e: Event)
      requires Ok() && slTlb != fbuf as object && !e.Ref? && !exited
      modifies slTlb
      ensures Ok() && View() == Step(true, g, old(View()), e)
      ensures forall i | 0 <= i < g.size :: slTlb[i] == if Covered(e, KeyOf(old(slTlb[i]))) then EMPTY else old(slTlb[i])
    {
      hide Flushed, Covered;
      var i := 0;
      while i < g.size
        invariant 0 <= i <= g.size
        invariant forall j | 0 <= j < i :: slTlb[j] == if Flushed(e, old(slTlb[j])) then EMPTY else old(slTlb[j])
        invariant forall j | i <= j < g.size :: slTlb[j] == old(slTlb[j])
      {
        if Flushed(e, slTlb[i]) {
          slTlb[i] := EMPTY;
        }
        i := i + 1;
      }
      assert slTlb[..] == Tracer.Flush(old(slTlb[..]), e);
      forall j | 0 <= j < g.size
        ensures Flushed(e, old(slTlb[j])) <==> Covered(e, KeyOf(old(slTlb[j])))
      {
        CoveredIsFlushed(e, old(slTlb[j]));
      }
    }
  }

  /** A whole trace: what a simulator reads from the file left by any references and flushes is the
      misses of an LRU cache, whatever the shortcut does. */
  method Traced(g: Geometry, events: seq<Event>) returns (file: seq<nat>)
    requires OneSet(g) && References(events) < STAMPS
    requires forall i | 0 <= i < |events| :: ValidEvent(events[i])
    ensures |Parse(file)| == |Missed(g.size, events)|
    ensures forall i | 0 <= i < |Parse(file)| :: Tells(Parse(file)[i], Missed(g.size, events)[i])
  {
    hide Step, Parse, Missed, Tells, ValidEvent, References;
    var t := new TlbTracer(g);
    var i := 0;
    assert events[..0] == [];
    while i < |events|
      invariant 0 <= i <= |events|
      invariant t.Ok() && t.g == g && fresh(t) && fresh(t.slTlb) && fresh(t.fbuf) && t.slTlb != t.fbuf as object
      invariant t.View() == RunTrace(true, g, Started(g, 0), events[..i]) && !t.exited
    {
      ReferencesUpTo(events, i + 1);
      TracerIsLru(true, g, 0, events[..i + 1], NO_KEY);
      RunTraceNext(g, events, i);
      if events[i].Ref? {
        t.Refmem(events[i].addr, events[i].asid, events[i].ins, events[i].walk);
      } else {
        t.Flush(events[i]);
      }
      i := i + 1;
    }
    assert events[..i] == events;
    t.Finish();
    file := t.file;
    TraceContents(true, g, 0, events);
  }

  lemma RunTraceNext(g: Geometry, events: seq<Event>, i: nat)
    requires ValidGeometry(g) && i < |events|
    ensures var s := Started(g, 0);
      RunTrace(true, g, s, events[..i + 1]) == Step(true, g, RunTrace(true, g, s, events[..i]), events[i])
  {
    hide Step;
    assert events[..i + 1][..i] == events[..i];
  }

  lemma {:induction false} ReferencesUpTo(events: seq<Event>, n: nat)
    requires n <= |events|
    ensures References(events[..n]) <= References(events)
    decreases |events| - n
  {
    if n < |events| {
      ReferencesUpTo(events, n + 1);
      assert events[..n + 1][..n] == events[..n];
    } else {
      assert events[..n] == events;
    }
  }
}
