/** The rate-limited output buffer of a migration stream (qemu/buffered_file.c:22-251). */
module BufferedFile {
  import opened Octets
  import opened Constants

  /** A QEMUFileBuffered; script holds what the backend will return, call by call, and an exhausted script
      stands for a dead backend.  sent is what the backend has taken. */
  datatype File = File(buffer: seq<Byte>, frozen: bool, failed: bool, xfer: nat, limit: nat, script: seq<int>,
                       sent: seq<Byte>)

  /** put_buffer of the backend offered n > 0 bytes: its return value. */
  function Answer(script: seq<int>, n: nat): int {
    if script == [] then -EINVAL else if script[0] > n then n else script[0]
  }

  function Rest(script: seq<int>): seq<int> {
    if script == [] then [] else script[1..]
  }

  /** The loop of buffered_flush. */
  function FlushLoop(f: File): File
    decreases |f.buffer|
  {
    if f.buffer == [] then f
    else
      var r, g := Answer(f.script, |f.buffer|), f.(script := Rest(f.script));
      if r == -EAGAIN then g.(frozen := true)
      else if r <= 0 then g.(failed := true)
      else FlushLoop(g.(buffer := f.buffer[r..], sent := f.sent + f.buffer[..r]))
  }

  lemma FlushStep(f: File)
    requires f.buffer != []
    ensures var r, g := Answer(f.script, |f.buffer|), f.(script := Rest(f.script));
      FlushLoop(f) == (
        if r == -EAGAIN then g.(frozen := true)
        else if r <= 0 then g.(failed := true)
        else FlushLoop(g.(buffer := f.buffer[r..], sent := f.sent + f.buffer[..r])))
  {
  }

  lemma FlushEnd(f: File)
    requires f.buffer == []
    ensures FlushLoop(f) == f
  {
  }

  function Flush(f: File): File {
    if f.failed then f else FlushLoop(f)
  }

  /** The loop of buffered_put_buffer: what is left of the data, and whether putting it went wrong. */
  function SendLoop(f: File, data: seq<Byte>): (File, seq<Byte>, bool)
    decreases |data|
  {
    if f.frozen || data == [] || f.xfer > f.limit then (f, data, true)
    else
      var r, g := Answer(f.script, |data|), f.(script := Rest(f.script));
      if r == -EAGAIN then (g.(frozen := true), data, true)
      else if r <= 0 then (g.(failed := true), data, false)
      else SendLoop(g.(sent := f.sent + data[..r], xfer := f.xfer + r), data[r..])
  }

  /** buffered_put_buffer. */
  function Put(f: File, data: seq<Byte>): (File, int) {
    if f.failed then (f, -EINVAL)
    else
      var (g, left, ok) := SendLoop(Flush(f.(frozen := false)), data);
      if ok then (g.(buffer := g.buffer + left), |data|) else (g, -EINVAL)
  }

  /** The loop of buffered_close: it ends when everything is sent or the backend has failed. */
  function Close(f: File): File
    decreases |f.script|, if f.failed then 0 else 1
  {
    if f.failed || f.buffer == [] then f
    else
      FlushSpends(f);
      Close(Flush(f))
  }

  lemma {:induction false} FlushSpends(f: File)
    requires !f.failed && f.buffer != []
    ensures |Flush(f).script| < |f.script| || (Flush(f).failed && f.script == Flush(f).script)
    decreases |f.buffer|
  {
    var r := Answer(f.script, |f.buffer|);
    if r > 0 {
      var g := f.(script := Rest(f.script), buffer := f.buffer[r..], sent := f.sent + f.buffer[..r]);
      assert Flush(f) == FlushLoop(g) == Flush(g);
      if g.buffer != [] {
        FlushSpends(g);
      }
    }
  }

  /** buffered_rate_tick; on a failed file it only closes. */
  function Tick(f: File): File {
    if f.failed || f.frozen then f else Flush(f.(xfer := 0))
  }

  const SIZE_MAX := 0xffff_ffff_ffff_ffff

  /** new_rate / 10, rounded towards zero and stored in a size_t. */
  function LimitOf(rate: int): (limit: nat)
    ensures limit <= SIZE_MAX
    ensures 0 <= rate <= SIZE_MAX ==> limit == rate / 10
    ensures -10 < rate < 0 ==> limit == 0
  {
    var capped := if rate > SIZE_MAX then SIZE_MAX else rate;
    (if capped >= 0 then capped / 10 else -(-capped / 10)) % (SIZE_MAX + 1)
  }

  /** buffered_set_rate_limit; a negative rate makes a limit close to SIZE_MAX. */
  function SetLimit(f: File, rate: int): File {
    if f.failed then f else f.(limit := LimitOf(rate))
  }

  /** A size_t returned as an int64_t. */
  function Signed(limit: nat): int {
    if limit > SIZE_MAX / 2 then limit - SIZE_MAX - 1 else limit
  }

  // ----- conservation -----

  /** Everything given to a file and not lost, in order. */
  function Stream(f: File): seq<Byte> {
    f.sent + f.buffer
  }

  /** A flush moves bytes from the buffer to the backend and loses none, even when it fails. */
  lemma {:induction false} FlushConserves(f: File)
    requires !f.failed
    ensures var g := Flush(f);
      && Stream(g) == Stream(f) && g.xfer == f.xfer && g.limit == f.limit
      && f.sent <= g.sent
      && (f.frozen ==> g.frozen)
      && (g.buffer == [] || g.failed || g.frozen)
      && (g.failed ==> g.buffer != [] && g.frozen == f.frozen)
    decreases |f.buffer|
  {
    var r := Answer(f.script, |f.buffer|);
    if f.buffer != [] && r > 0 {
      FlushConserves(f.(script := Rest(f.script), buffer := f.buffer[r..], sent := f.sent + f.buffer[..r]));
    }
  }

  lemma {:induction false} SendConserves(f: File, data: seq<Byte>)
    ensures var (g, left, ok) := SendLoop(f, data);
      && g.sent + left == f.sent + data
      && f.sent <= g.sent
      && g.buffer == f.buffer && g.limit == f.limit
      && g.xfer - f.xfer == |g.sent| - |f.sent|
      && g.failed == (f.failed || !ok)
      && (f.frozen ==> left == data && ok)
      && (ok ==> left == [] || g.frozen || g.xfer > g.limit)
    decreases |data|
  {
    var r := Answer(f.script, |data|);
    if !(f.frozen || data == [] || f.xfer > f.limit) && r > 0 {
      var g := f.(script := Rest(f.script), sent := f.sent + data[..r], xfer := f.xfer + r);
      SendConserves(g, data[r..]);
      assert f.sent + data[..r] + data[r..] == f.sent + data;
    }
  }

  /** While nothing fails, putting data appends it to the stream, whatever part the backend takes at once. */
  lemma PutConserves(f: File, data: seq<Byte>)
    ensures var (g, ret) := Put(f, data);
      && (f.failed ==> g == f)
      && (!g.failed ==> ret == |data| && Stream(g) == Stream(f) + data && f.sent <= g.sent)
  {
    hide Flush, SendLoop;
    if !f.failed {
      var h := Flush(f.(frozen := false));
      FlushConserves(f.(frozen := false));
      SendConserves(h, data);
      var (g, left, ok) := SendLoop(h, data);
      if !g.failed {
        if h.frozen {
          assert g.sent == h.sent;
          assert g.sent + (h.buffer + left) == (h.sent + h.buffer) + data;
        } else {
          assert h.sent + h.buffer == h.sent;
          assert g.buffer + left == left;
        }
      }
    }
  }

  datatype Event = PutData(data: seq<Byte>) | RateTick | NewLimit(rate: int)

  function Step(f: File, e: Event): File {
    match e
    case PutData(data) => Put(f, data).0
    case RateTick => Tick(f)
    case NewLimit(rate) => SetLimit(f, rate)
  }

  function Run(f: File, es: seq<Event>): File {
    if es == [] then f else Step(Run(f, es[..|es| - 1]), es[|es| - 1])
  }

  function DataOf(e: Event): seq<Byte> {
    if e.PutData? then e.data else []
  }

  function AllPut(es: seq<Event>): seq<Byte> {
    if es == [] then [] else AllPut(es[..|es| - 1]) + DataOf(es[|es| - 1])
  }

  lemma StepConserves(f: File, e: Event)
    ensures f.failed ==> Step(f, e) == f
    ensures !Step(f, e).failed ==> Stream(Step(f, e)) == Stream(f) + DataOf(e) && f.sent <= Step(f, e).sent
  {
    hide Put, Flush;
    match e
    case PutData(data) => PutConserves(f, data);
    case RateTick =>
      if !f.failed {
        FlushConserves(f.(xfer := 0));
      }
    case NewLimit(_) =>
  }

  /** Over every run: while has_error is 0, what the backend took followed by what is buffered is all that
      was put, in order. */
  lemma {:induction false} Conservation(f: File, es: seq<Event>)
    requires !Run(f, es).failed
    ensures !f.failed
    ensures Stream(Run(f, es)) == Stream(f) + AllPut(es)
    decreases |es|
  {
    hide Step, Stream, DataOf;
    if es == [] {
      assert Stream(f) + [] == Stream(f);
    } else {
      var n := |es| - 1;
      StepConserves(Run(f, es[..n]), es[n]);
      Conservation(f, es[..n]);
      assert Stream(f) + AllPut(es[..n]) + DataOf(es[n]) == Stream(f) + (AllPut(es[..n]) + DataOf(es[n]));
    }
  }

  lemma {:induction false} CloseConserves(f: File)
    ensures Stream(Close(f)) == Stream(f)
    ensures Close(f).failed || Close(f).buffer == []
    decreases |f.script|, if f.failed then 0 else 1
  {
    hide Flush;
    if !(f.failed || f.buffer == []) {
      FlushSpends(f);
      FlushConserves(f);
      CloseConserves(Flush(f));
    }
  }

  /** A close without error leaves nothing unsent. */
  lemma CloseComplete(f: File, es: seq<Event>)
    requires f.sent == f.buffer == [] && !Close(Run(f, es)).failed
    ensures Close(Run(f, es)).sent == AllPut(es) && Close(Run(f, es)).buffer == []
  {
    hide Close, Run;
    var g := Run(f, es);
    CloseConserves(g);
    FailedStays(g);
    Conservation(f, es);
    assert Stream(f) == [];
    assert [] + AllPut(es) == AllPut(es);
    var h := Close(g);
    assert h.sent + h.buffer == h.sent;
  }

  lemma FailedStays(f: File)
    ensures f.failed ==> Close(f).failed
  {
  }

  // ----- order after a failure -----

  /** The flush at the start of a put of n bytes fails, and the backend then takes some of the n bytes. */
  predicate Overtakes(f: File, n: nat) {
    !f.failed && n > 0 &&
    var g := Flush(f.(frozen := false));
    g.failed && g.xfer <= g.limit && Answer(g.script, n) > 0
  }

  /** What the backend has taken is a beginning of the stream. */
  lemma PutInOrder(f: File, data: seq<Byte>)
    requires !Overtakes(f, |data|)
    ensures Put(f, data).0.sent <= Stream(f) + data
  {
    hide Flush;
    if f.failed {
      assert f.sent <= f.sent + f.buffer + data;
    } else {
      var h := Flush(f.(frozen := false));
      FlushConserves(f.(frozen := false));
      SendConserves(h, data);
      var (g, left, ok) := SendLoop(h, data);
      if h.failed || h.frozen {
        assert g.sent == h.sent;
        assert h.sent <= h.sent + h.buffer + data;
      } else {
        assert h.sent + h.buffer == h.sent;
        assert g.sent <= h.sent + data;
      }
    }
  }

  lemma OvertakenByte(f: File, data: seq<Byte>)
    requires Overtakes(f, |data|)
    ensures var g := Flush(f.(frozen := false));
      && g.buffer != [] && Stream(f) == Stream(g)
      && |g.sent| < |Put(f, data).0.sent| && Put(f, data).0.sent[|g.sent|] == data[0]
  {
    hide Flush;
    var h := Flush(f.(frozen := false));
    FlushConserves(f.(frozen := false));
    var r := Answer(h.script, |data|);
    var k := h.(script := Rest(h.script), sent := h.sent + data[..r], xfer := h.xfer + r);
    SendConserves(k, data[r..]);
    hide SendLoop;
  }

  /** Bytes keep their order through a put, whatever they are, exactly when it does not overtake. */
  lemma OrderExactly(f: File, n: nat)
    ensures (forall data: seq<Byte> | |data| == n :: Put(f, data).0.sent <= Stream(f) + data) <==> !Overtakes(f, n)
  {
    if Overtakes(f, n) {
      var g := Flush(f.(frozen := false));
      var first := if g.buffer != [] then g.buffer[0] else 0;
      var other: Byte := if first == 0 then 1 else 0;
      var data := seq(n, _ => other);
      OvertakenByte(f, data);
      assert (Stream(f) + data)[|g.sent|] == first;
      hide Put;
      assert !(Put(f, data).0.sent <= Stream(f) + data);
    } else {
      forall data: seq<Byte> | |data| == n
        ensures Put(f, data).0.sent <= Stream(f) + data
      {
        PutInOrder(f, data);
      }
    }
  }

  /** What a caller can see before a put of n bytes: no backend can make it overtake. */
  predicate Safe(f: File, n: nat) {
    f.failed || n == 0 || f.buffer == [] || f.xfer > f.limit
  }

  lemma SafeNeverOvertakes(f: File, n: nat)
    requires Safe(f, n)
    ensures !Overtakes(f, n)
  {
    if !f.failed {
      FlushConserves(f.(frozen := false));
      FlushEnd(f.(frozen := false, buffer := []));
    }
  }

  /** A backend that fails once and then recovers. */
  lemma UnsafeOvertakes(f: File, n: nat)
    requires !Safe(f, n)
    ensures Overtakes(f.(script := [0, 1]), n)
  {
    var g := f.(script := [0, 1], frozen := false);
    FlushStep(g);
    assert [0, 1][1..] == [1];
  }

  /** Bytes keep their order through a put of n bytes, whatever they are and whatever the backend answers, if
      and only if the file has failed, or nothing is put, or nothing is buffered, or the limit is exceeded. */
  lemma OrderForEveryBackend(f: File, n: nat)
    ensures (forall script, data: seq<Byte> | |data| == n :: Put(f.(script := script), data).0.sent <= Stream(f) + data)
       <==> Safe(f, n)
  {
    hide Put, Overtakes, Safe;
    if Safe(f, n) {
      forall script, data: seq<Byte> | |data| == n
        ensures Put(f.(script := script), data).0.sent <= Stream(f) + data
      {
        var g := f.(script := script);
        SafeOfScript(f, script, n);
        SafeNeverOvertakes(g, n);
        PutInOrder(g, data);
      }
    } else {
      var g := f.(script := [0, 1]);
      UnsafeOvertakes(f, n);
      OrderExactly(g, n);
      var data: seq<Byte> :| |data| == n && !(Put(g, data).0.sent <= Stream(g) + data);
      assert !(Put(f.(script := [0, 1]), data).0.sent <= Stream(f) + data);
    }
  }

  lemma SafeOfScript(f: File, script: seq<int>, n: nat)
    ensures Safe(f.(script := script), n) <==> Safe(f, n)
  {
  }

  /** Over every run in which no put overtakes, failed or not, the backend has a beginning of what was put. */
  lemma {:induction false} RunInOrder(f: File, es: seq<Event>)
    requires forall n | 0 <= n < |es| && es[n].PutData? :: !Overtakes(Run(f, es[..n]), |es[n].data|)
    ensures Run(f, es).sent <= Stream(f) + AllPut(es)
    decreases |es|
  {
    hide Step, Overtakes;
    if es != [] {
      var n := |es| - 1;
      var g, e := Run(f, es[..n]), es[n];
      forall m | 0 <= m < n && es[..n][m].PutData?
        ensures !Overtakes(Run(f, es[..n][..m]), |es[..n][m].data|)
      {
        assert es[..n][..m] == es[..m];
      }
      RunInOrder(f, es[..n]);
      StepInOrder(g, e);
      assert Stream(f) + AllPut(es) == Stream(f) + AllPut(es[..n]) + DataOf(e);
      if !g.failed {
        Conservation(f, es[..n]);
      } else {
        StepConserves(g, e);
      }
    }
  }

  lemma StepInOrder(f: File, e: Event)
    requires e.PutData? ==> !Overtakes(f, |e.data|)
    ensures Step(f, e).sent <= Stream(f) + DataOf(e)
  {
    match e
    case PutData(data) => PutInOrder(f, data);
    case RateTick =>
      if !f.failed {
        FlushConserves(f.(xfer := 0));
      }
    case NewLimit(_) =>
  }

  /** A failed flush, a backend that recovers, and later bytes sent before earlier ones: the put is reported
      as a success. */
  lemma Overtaken()
    ensures var f := File([1], false, false, 0, 100, [0, 1], []);
      Put(f, [2]) == (File([1], false, true, 1, 100, [], [2]), 1)
  {
    var f := File([1], false, false, 0, 100, [0, 1], []);
    assert Flush(f) == File([1], false, true, 0, 100, [1], []);
    assert [2][1..] == [] && [] + [2][..1] == [2] && [1][1..] == [];
    var g := File([1], false, true, 1, 100, [], [2]);
    assert SendLoop(g, []) == (g, [], true);
    assert g.buffer + [] == g.buffer && f.(frozen := false) == f;
    assert SendLoop(Flush(f), [2]) == (File([1], false, true, 1, 100, [], [2]), [], true);
  }

  // ----- the file as it works on its buffer -----

  class BufferedOutput {
    var buffer: array<Byte>
    var bufferSize: nat
    var frozen: bool
    var failed: bool
    var xfer: nat
    var limit: nat
    var script: seq<int>
    var sent: seq<Byte>

    ghost predicate Valid()
      reads this
    {
      bufferSize <= buffer.Length
    }

    ghost function Pending(): seq<Byte>
      requires Valid()
      reads this, buffer
    {
      buffer[..bufferSize]
    }

    ghost function State(): File
      requires Valid()
      reads this, buffer
    {
      File(Pending(), frozen, failed, xfer, limit, script, sent)
    }

    /** qemu_fopen_ops_buffered (buffered_file.c:253-281), over a backend that will answer as scripted. */
    constructor (bytesPerSec: nat, script: seq<int>)
      ensures Valid() && fresh(buffer)
      ensures State() == File([], false, false, 0, bytesPerSec / 10, script, [])
    {
      buffer, bufferSize := new Byte[0], 0;
      frozen, failed, xfer, limit := false, false, 0, bytesPerSec / 10;
      this.script, sent := script, [];
    }

    /** The call of put_buffer. */
    method Offer(chunk: seq<Byte>) returns (r: int)
      modifies this`script, this`sent
      ensures r == Answer(old(script), |chunk|) && script == Rest(old(script))
      ensures r <= |chunk|
      ensures sent == if r > 0 then old(sent) + chunk[..r] else old(sent)
    {
      r := Answer(script, |chunk|);
      script := Rest(script);
      if r > 0 {
        sent := sent + chunk[..r];
      }
    }

    /** buffered_append (buffered_file.c:48-70). */
    method Append(data: seq<Byte>)
      requires Valid()
      modifies this`buffer, this`bufferSize, buffer
      ensures Valid() && (buffer == old(buffer) || fresh(buffer))
      ensures Pending() == old(Pending()) + data
    {
      if |data| > buffer.Length - bufferSize {
        var bigger := new Byte[buffer.Length + |data| + 1024];
        forall i | 0 <= i < bufferSize {
          bigger[i] := buffer[i];
        }
        buffer := bigger;
      }
      forall i | 0 <= i < |data| {
        buffer[bufferSize + i] := data[i];
      }
      bufferSize := bufferSize + |data|;
    }

    /** buffered_flush (buffered_file.c:72-107). */
    method FlushBuffer()
      requires Valid()
      modifies this`bufferSize, this`frozen, this`failed, this`script, this`sent, buffer
      ensures Valid()
      ensures State() == old(Flush(State()))
    {
      hide FlushLoop;
      if failed {
        return;
      }
      ghost var data := Pending();
      var offset := SendPending();
      assert Pending() == data;
      Drop(offset);
    }

    /** The loop of buffered_flush: how many bytes of the buffer were taken. */
    method SendPending() returns (offset: nat)
      requires Valid() && !failed
      modifies this`frozen, this`failed, this`script, this`sent
      ensures offset <= bufferSize
      ensures File(Pending()[offset..], frozen, failed, xfer, limit, script, sent) == old(FlushLoop(State()))
    {
      hide FlushLoop, Answer, Rest;
      ghost var start, data := State(), Pending();
      offset := 0;
      assert data[0..] == data;
      while offset < bufferSize
        invariant offset <= bufferSize == |data| && !failed && data == Pending()
        invariant FlushLoop(File(data[offset..], frozen, failed, xfer, limit, script, sent)) == FlushLoop(start)
        decreases bufferSize - offset
      {
        ghost var here := File(data[offset..], frozen, failed, xfer, limit, script, sent);
        var chunk := buffer[offset..bufferSize];
        assert chunk == here.buffer;
        FlushStep(here);
        var r := Offer(chunk);
        if r == -EAGAIN {
          frozen := true;
          return;
        }
        if r <= 0 {
          failed := true;
          return;
        }
        assert data[offset..][r..] == data[offset + r..];
        offset := offset + r;
      }
      FlushEnd(File([], frozen, failed, xfer, limit, script, sent));
      assert data[offset..] == [];
    }

    /** The memmove at the end of buffered_flush. */
    method Drop(offset: nat)
      requires Valid() && offset <= bufferSize
      modifies this`bufferSize, buffer
      ensures Valid()
      ensures Pending() == old(Pending())[offset..]
    {
      forall i | 0 <= i < bufferSize - offset {
        buffer[i] := buffer[offset + i];
      }
      bufferSize := bufferSize - offset;
    }

    /** The loop of buffered_put_buffer: how many bytes of the data were taken, or -EINVAL. */
    method SendData(data: seq<Byte>) returns (offset: int)
      requires Valid()
      modifies this`frozen, this`failed, this`script, this`sent, this`xfer
      ensures offset <= |data|
      ensures var (g, left, ok) := old(SendLoop(State(), data));
        && State() == g && ok == (offset >= 0) && (if ok then left == data[offset..] else offset == -EINVAL)
    {
      ghost var start, pending := State(), Pending();
      offset := 0;
      assert data[0..] == data;
      while !frozen && offset < |data|
        invariant 0 <= offset <= |data| && Pending() == pending
        invariant SendLoop(State(), data[offset..]) == SendLoop(start, data)
        decreases |data| - offset
      {
        if xfer > limit {
          return;
        }
        var chunk := data[offset..];
        var r := Offer(chunk);
        if r == -EAGAIN {
          frozen := true;
          return;
        }
        if r <= 0 {
          failed := true;
          offset := -EINVAL;
          return;
        }
        assert chunk[r..] == data[offset + r..];
        offset := offset + r;
        xfer := xfer + r;
      }
    }

    /** buffered_put_buffer (buffered_file.c:109-167); ready says whether it ends by calling put_ready. */
    method PutBuffer(data: seq<Byte>, pos: int) returns (ret: int, ready: bool)
      requires Valid()
      modifies this, buffer
      ensures Valid() && (buffer == old(buffer) || fresh(buffer))
      ensures (State(), ret) == old(Put(State(), data))
      ensures ready <==> !old(failed) && pos == 0 && data == [] && xfer <= limit
    {
      hide Flush, SendLoop;
      if failed {
        return -EINVAL, false;
      }
      ghost var start := State();
      frozen := false;
      assert State() == start.(frozen := false);
      FlushBuffer();
      assert State() == Flush(start.(frozen := false));
      var offset := SendData(data);
      if offset >= 0 {
        Append(data[offset..]);
        offset := |data|;
      }
      ready := pos == 0 && |data| == 0 && xfer <= limit;
      return offset, ready;
    }

    /** buffered_close (buffered_file.c:169-190), with what closing the backend returns; wait_for_unfreeze
        only waits. */
    method CloseFile(closed: int) returns (ret: int)
      requires Valid()
      modifies this, buffer
      ensures Valid() && buffer == old(buffer)
      ensures State() == old(Close(State())) && ret == closed
    {
      hide Flush;
      ghost var start := State();
      while !failed && bufferSize > 0
        invariant Valid() && buffer == old(buffer)
        invariant Close(State()) == Close(start)
        decreases |script|, if failed then 0 else 1
      {
        FlushSpends(State());
        FlushBuffer();
      }
      return closed;
    }

    /** buffered_rate_tick (buffered_file.c:231-251); ready says whether it ends by calling put_ready. */
    method Tock(closed: int) returns (ready: bool)
      requires Valid()
      modifies this, buffer
      ensures Valid() && buffer == old(buffer)
      ensures State() == old(Tick(State()))
      ensures ready <==> !old(failed) && !old(frozen)
    {
      hide Flush;
      if failed {
        var _ := CloseFile(closed);
        return false;
      }
      if frozen {
        return false;
      }
      xfer := 0;
      FlushBuffer();
      return true;
    }

    /** buffered_rate_limit (buffered_file.c:192-206). */
    method RateLimit() returns (r: bool)
      requires Valid()
      ensures r <==> !failed && (frozen || xfer > limit)
    {
      if failed {
        return false;
      }
      if frozen {
        return true;
      }
      return xfer > limit;
    }

    /** buffered_set_rate_limit (buffered_file.c:208-222). */
    method SetRateLimit(rate: int) returns (r: int)
      requires Valid()
      modifies this`limit
      ensures State() == old(SetLimit(State(), rate)) && r == Signed(limit)
    {
      if !failed {
        limit := LimitOf(rate);
      }
      return Signed(limit);
    }
  }

  /** A file driven by any events and then closed: without an error, the backend has all that was put. */
  method Transfer(bytesPerSec: nat, script: seq<int>, es: seq<Event>) returns (sent: seq<Byte>, failed: bool)
    ensures !failed ==> sent == AllPut(es)
  {
    var file := new BufferedOutput(bytesPerSec, script);
    ghost var start := file.State();
    for n := 0 to |es|
      invariant file.Valid() && fresh(file) && fresh(file.buffer)
      invariant file.State() == Run(start, es[..n])
    {
      hide Put, Tick, SetLimit;
      assert es[..n + 1][..n] == es[..n];
      match es[n]
      case PutData(data) => var _, _ := file.PutBuffer(data, n);
      case RateTick => var _ := file.Tock(0);
      case NewLimit(rate) => var _ := file.SetRateLimit(rate);
    }
    assert es[..|es|] == es;
    var _ := file.CloseFile(0);
    if !file.failed {
      CloseComplete(start, es);
    }
    return file.sent, file.failed;
  }
}
