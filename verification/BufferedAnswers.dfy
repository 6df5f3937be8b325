/** How the answers of the backend steer a buffered file (qemu/buffered_file.c:72-180, 226-251). */
module BufferedAnswers {
  import opened Octets
  import opened Constants
  import opened Numbers
  import opened BufferedFile

  predicate Positive(answers: seq<int>) {
    forall i | 0 <= i < |answers| :: answers[i] > 0
  }

  /** What a backend takes in all by answers, each of which it limits to what it is offered. */
  function Sum(answers: seq<int>): int {
    if answers == [] then 0 else answers[0] + Sum(answers[1..])
  }

  /** The first k answers of a script have been used: all were good, or all but the last, which was
      -EAGAIN if the loop froze the file, and another error or missing if it failed it. */
  ghost predicate Used(script: seq<int>, left: seq<int>, k: nat, froze: bool, failed: bool) {
    && k <= |script| && left == script[k..]
    && if froze then !failed && k > 0 && script[k - 1] == -EAGAIN && Positive(script[..k - 1])
       else if !failed then Positive(script[..k])
       else if k > 0 && script[k - 1] <= 0 then script[k - 1] != -EAGAIN && Positive(script[..k - 1])
       else k == |script| && Positive(script)
  }

  function Good(script: seq<int>, k: nat): (n: nat)
    requires k <= |script|
    ensures n <= k
  {
    if k > 0 && script[k - 1] <= 0 then k - 1 else k
  }

  lemma UsedOne(script: seq<int>, left: seq<int>, k: nat, froze: bool, failed: bool)
    requires script != [] && script[0] > 0 && Used(script[1..], left, k, froze, failed)
    ensures Used(script, left, k + 1, froze, failed)
    ensures Good(script, k + 1) == Good(script[1..], k) + 1
    ensures Sum(script[..Good(script, k + 1)]) == script[0] + Sum(script[1..][..Good(script[1..], k)])
  {
    var rest := script[1..];
    var n := Good(rest, k);
    assert script[..n + 1][1..] == rest[..n];
    assert script[k + 1..] == rest[k..];
    forall m: nat | m <= |rest| && Positive(rest[..m])
      ensures Positive(script[..m + 1])
    {
      assert script[..m + 1] == [script[0]] + rest[..m];
    }
    assert rest[..|rest|] == rest && script[..|script|] == script;
  }

  /** A flush asks until the buffer is empty or an answer is not good, takes what is answered, and
      freezes or fails the file by the last answer. */
  lemma {:induction false} FlushAnswers(f: File) returns (k: nat)
    requires !f.failed && !f.frozen
    ensures var g := Flush(f);
      && Used(f.script, g.script, k, g.frozen, g.failed)
      && |g.sent| - |f.sent| == Min(|f.buffer|, Sum(f.script[..Good(f.script, k)]))
      && (g.buffer != [] ==> g.frozen || g.failed)
    decreases |f.buffer|
  {
    hide Used;
    k := 0;
    if f.buffer == [] {
      NoneUsed(f.script);
    } else if f.script == [] {
      Missing();
    } else if f.script[0] <= 0 {
      k := 1;
      LastUsed(f.script);
    } else {
      var r := Answer(f.script, |f.buffer|);
      var g := f.(script := f.script[1..], buffer := f.buffer[r..], sent := f.sent + f.buffer[..r]);
      k := FlushAnswers(g);
      UsedOne(f.script, Flush(g).script, k, Flush(g).frozen, Flush(g).failed);
      SumGood(f.script[1..], Flush(g).script, k, Flush(g).frozen, Flush(g).failed);
      k := k + 1;
    }
  }

  lemma NoneUsed(script: seq<int>)
    ensures Used(script, script, 0, false, false) && Sum(script[..Good(script, 0)]) == 0
  {
  }

  lemma Missing()
    ensures Used([], [], 0, false, true) && Sum([][..Good([], 0)]) == 0
  {
  }

  lemma LastUsed(script: seq<int>)
    requires script != [] && script[0] <= 0
    ensures Used(script, script[1..], 1, script[0] == -EAGAIN, script[0] != -EAGAIN)
    ensures Sum(script[..Good(script, 1)]) == 0
  {
  }

  lemma {:induction false} SumPositive(answers: seq<int>)
    requires Positive(answers)
    ensures Sum(answers) >= |answers|
    decreases |answers|
  {
    if answers != [] {
      SumPositive(answers[1..]);
    }
  }

  lemma SumGood(script: seq<int>, left: seq<int>, k: nat, froze: bool, failed: bool)
    requires Used(script, left, k, froze, failed)
    ensures Sum(script[..Good(script, k)]) >= 0
  {
    assert script[..|script|] == script;
    SumPositive(script[..Good(script, k)]);
  }

  /** Direct sending: the same, and no more is asked once the rate limit is exceeded. */
  lemma {:induction false} SendAnswers(f: File, data: seq<Byte>) returns (k: nat)
    requires !f.frozen
    ensures var (g, left, ok) := SendLoop(f, data);
      && Used(f.script, g.script, k, g.frozen, !ok)
      && |g.sent| - |f.sent| == Min(|data|, Sum(f.script[..Good(f.script, k)]))
      && (f.xfer > f.limit ==> g == f && left == data)
    decreases |data|
  {
    hide Used;
    k := 0;
    if data == [] || f.xfer > f.limit {
      NoneUsed(f.script);
    } else if f.script == [] {
      Missing();
    } else if f.script[0] <= 0 {
      k := 1;
      LastUsed(f.script);
    } else {
      var r := Answer(f.script, |data|);
      var g := f.(script := f.script[1..], sent := f.sent + data[..r], xfer := f.xfer + r);
      k := SendAnswers(g, data[r..]);
      var (h, left, ok) := SendLoop(g, data[r..]);
      UsedOne(f.script, h.script, k, h.frozen, !ok);
      SumGood(f.script[1..], h.script, k, h.frozen, !ok);
      k := k + 1;
    }
  }

  /** A backend that never takes more than m bytes at once gets at most m bytes beyond the limit
      between two ticks of the clock. */
  lemma {:induction false} WithinLimit(f: File, data: seq<Byte>, m: nat)
    requires f.xfer <= f.limit + m && forall i | 0 <= i < |f.script| :: f.script[i] <= m
    ensures SendLoop(f, data).0.xfer <= f.limit + m
    decreases |data|
  {
    if !(f.frozen || data == [] || f.xfer > f.limit) {
      var r := Answer(f.script, |data|);
      if r > 0 {
        WithinLimit(f.(script := Rest(f.script), sent := f.sent + data[..r], xfer := f.xfer + r), data[r..], m);
      }
    }
  }

  /** Putting data tries again where the backend had asked to wait: afterwards the file is frozen only if the
      backend has asked again, and otherwise, without error, all is sent or the limit is exceeded. */
  lemma PutThaws(f: File, data: seq<Byte>)
    requires !f.failed
    ensures var g := Put(f, data).0;
      && |g.script| <= |f.script| && g.script == f.script[|f.script| - |g.script|..]
      && (g.frozen ==> -EAGAIN in f.script[..|f.script| - |g.script|])
      && (!g.frozen && !g.failed ==> g.buffer == [] || g.xfer > g.limit)
  {
    hide Used, Sum, Good, Flush, SendLoop;
    var f1 := f.(frozen := false);
    var h := Flush(f1);
    var k := FlushAnswers(f1);
    FlushConserves(f1);
    SendConserves(h, data);
    FrozenByAnswer(f.script, h.script, k, h.frozen, h.failed);
    if !h.frozen {
      SendMore(f, h, k, data);
    } else {
      SendFrozen(h, data);
    }
  }

  lemma SendFrozen(h: File, data: seq<Byte>)
    requires h.frozen
    ensures SendLoop(h, data) == (h, data, true)
  {
  }

  lemma SendMore(f: File, h: File, k: nat, data: seq<Byte>)
    requires !h.frozen && Used(f.script, h.script, k, false, h.failed)
    ensures var g := SendLoop(h, data).0;
      && |g.script| <= |f.script| && g.script == f.script[|f.script| - |g.script|..]
      && (g.frozen ==> -EAGAIN in f.script[..|f.script| - |g.script|])
  {
    hide Used, Sum, Good, SendLoop;
    FrozenByAnswer(f.script, h.script, k, false, h.failed);
    var m := SendAnswers(h, data);
    var (g, left, ok) := SendLoop(h, data);
    FrozenByAnswer(h.script, g.script, m, g.frozen, !ok);
    Consecutive(f.script, k, m);
  }

  lemma Consecutive(script: seq<int>, k: nat, m: nat)
    requires k + m <= |script|
    ensures script[k..][m..] == script[k + m..]
    ensures forall x | x in script[k..][..m] :: x in script[..k + m]
  {
  }

  lemma FrozenByAnswer(script: seq<int>, left: seq<int>, k: nat, froze: bool, failed: bool)
    requires Used(script, left, k, froze, failed)
    ensures k <= |script| && k == |script| - |left| && left == script[k..]
    ensures froze ==> -EAGAIN in script[..k]
  {
    if froze {
      assert script[..k][k - 1] == -EAGAIN;
    }
  }

  /** A tick of the clock: nothing on a failed or frozen file; otherwise the count starts again, and
      nothing stays in the buffer unless the backend stops it. */
  lemma TickOutcome(f: File)
    ensures var g := Tick(f);
      && Stream(g) == Stream(f) && g.limit == f.limit
      && if f.failed || f.frozen then g == f
         else g.xfer == 0 && (g.buffer == [] || g.frozen || g.failed)
  {
    hide Flush;
    if !f.failed && !f.frozen {
      FlushConserves(f.(xfer := 0));
    }
  }
}
