/** What the users of a multiwrite are told, in terms of what the driver did (qemu/block.c:2224-2255). */
module MultiwriteErrors {
  import opened Constants
  import opened Multiwrite

  // ----- what a driver's completions amount to -----

  /** The results of those completions that are for requests in flight, in order. */
  function Handled(done: seq<Completion>, inflight: set<nat>): seq<int>
    decreases |done|
  {
    if done == [] then []
    else if done[0].id in inflight then [done[0].ret] + Handled(done[1..], inflight - {done[0].id})
    else Handled(done[1..], inflight)
  }

  /** The requests in flight after them. */
  function Left(done: seq<Completion>, inflight: set<nat>): set<nat>
    decreases |done|
  {
    if done == [] then inflight else Left(done[1..], inflight - {done[0].id})
  }

  /** Results handled during submission, requests still in flight at its end, and whether one was refused. */
  datatype Outcome = Outcome(results: seq<int>, left: set<nat>, refused: bool)

  function Submitted(script: seq<Turn>, i: nat, inflight: set<nat>): Outcome
    requires i <= |script|
    decreases |script| - i
  {
    if i == |script| then Outcome([], inflight, false)
    else
      var t := script[i];
      var r1, l1 := Handled(t.before, inflight), Left(t.before, inflight);
      if !t.accept then Outcome(r1, l1, true)
      else
        var r2, l2 := Handled(t.after, l1 + {i}), Left(t.after, l1 + {i});
        var o := Submitted(script, i + 1, l2);
        o.(results := r1 + r2 + o.results)
  }

  /** The first negative number of a list, or 0. */
  function First(results: seq<int>): int {
    if results == [] then 0 else if results[0] < 0 then results[0] else First(results[1..])
  }

  /** What the callbacks are given once everything is complete; late are the completions after the call. */
  function ErrorOf(script: seq<Turn>, late: seq<Completion>): int {
    var o := Submitted(script, 0, {});
    if !o.refused then First(o.results + Handled(late, o.left))
    else if First(o.results) < 0 then First(o.results)
    else -EIO
  }

  // ----- the protocol does just that -----

  lemma {:induction false} FirstAppend(a: seq<int>, b: seq<int>)
    ensures First(a) <= 0
    ensures First(a + b) == if First(a) < 0 then First(a) else First(b)
    decreases |a|
  {
    if a == [] {
      assert a + b == b;
    } else {
      FirstAppend(a[1..], b);
      assert (a + b)[1..] == a[1..] + b;
    }
  }

  lemma {:induction false} FirstIsFirst(results: seq<int>)
    ensures FirstNegative(results) == First(results)
    decreases |results|
  {
    if results != [] {
      var n := |results| - 1;
      FirstIsFirst(results[..n]);
      FirstAppend(results[..n], [results[n]]);
      assert results == results[..n] + [results[n]];
      assert First([results[n]]) == if results[n] < 0 then results[n] else 0;
    }
  }

  lemma {:induction false} RunAppend(s: State, a: seq<Event>, b: seq<Event>)
    ensures Run(s, a + b) == Run(Run(s, a), b)
    decreases |b|
  {
    hide Step;
    if b == [] {
      assert a + b == a;
    } else {
      var n := |b| - 1;
      RunAppend(s, a, b[..n]);
      assert (a + b)[..|a| + n] == a + b[..n];
    }
  }

  lemma RunOne(s: State, e: Event)
    ensures Run(s, [e]) == Step(s, e)
  {
    hide Step;
    assert [e][..0] == [];
    assert Run(s, []) == s;
  }

  lemma CompleteEffect(s: State, c: Completion)
    requires Inv(s)
    ensures var t := Step(s, Complete(c.id, c.ret));
      && Inv(t) && t.phase == s.phase && t.inflight == s.inflight - {c.id}
      && t.results == s.results + if c.id in s.inflight then [c.ret] else []
  {
    StepKeeps(s, Complete(c.id, c.ret));
  }

  /** From s to t the given results have been handled and the given requests are left. */
  ghost predicate Moved(s: State, t: State, phase: Phase, results: seq<int>, left: set<nat>) {
    Inv(t) && t.phase == phase && t.inflight == left && t.results == s.results + results
  }

  lemma {:induction false} CompletionsEffect(s: State, done: seq<Completion>)
    requires Inv(s)
    ensures Moved(s, Run(s, Completions(done)), s.phase, Handled(done, s.inflight), Left(done, s.inflight))
    decreases |done|
  {
    hide Inv, Step;
    if done == [] {
      assert Completions(done) == [];
      assert Run(s, []) == s;
    } else {
      var c := done[0];
      CompleteEffect(s, c);
      var t := Step(s, Complete(c.id, c.ret));
      CompletionsEffect(t, done[1..]);
      assert Completions(done) == [Complete(c.id, c.ret)] + Completions(done[1..]);
      RunAppend(s, [Complete(c.id, c.ret)], Completions(done[1..]));
      RunOne(s, Complete(c.id, c.ret));
      HandledStep(c, done, s.inflight);
      assert Handled(done, s.inflight)
          == (if c.id in s.inflight then [c.ret] else []) + Handled(done[1..], t.inflight);
    }
  }

  lemma HandledStep(c: Completion, done: seq<Completion>, inflight: set<nat>)
    requires done != [] && done[0] == c
    ensures Handled(done, inflight)
        == (if c.id in inflight then [c.ret] else []) + Handled(done[1..], inflight - {c.id})
  {
    if c.id !in inflight {
      assert inflight - {c.id} == inflight;
    }
  }

  lemma PhaseStep(s: State, e: Event)
    requires Inv(s) && (e.Begin? || e.Take? || e.ReturnOk?)
    ensures var t := Step(s, e);
      && (e.Begin? && s.phase.Idle? && s.phase.i < s.requests ==>
            Moved(s, t, Calling(s.phase.i, false), [], s.inflight))
      && (e.Take? && s.phase.Calling? && !s.phase.taken ==>
            Moved(s, t, Calling(s.phase.i, true), [], s.inflight + {s.phase.i}))
      && (e.ReturnOk? && s.phase.Calling? && s.phase.taken ==>
            Moved(s, t, Idle(s.phase.i + 1), [], s.inflight))
  {
    hide Inv;
    StepKeeps(s, e);
  }

  lemma MovedTrans(s: State, t: State, u: State, p: Phase, q: Phase,
                   a: seq<int>, b: seq<int>, k: set<nat>, l: set<nat>)
    requires Moved(s, t, p, a, k) && Moved(t, u, q, b, l)
    ensures Moved(s, u, q, a + b, l)
  {
    hide Inv;
    assert s.results + (a + b) == s.results + a + b;
  }

  /** The loop counts a request and the driver completes others before it takes it or not. */
  lemma CalledEffect(s: State, i: nat, before: seq<Completion>)
    requires Inv(s) && s.phase == Idle(i) && i < s.requests
    ensures Moved(s, Run(s, [Begin] + Completions(before)), Calling(i, false),
                  Handled(before, s.inflight), Left(before, s.inflight))
  {
    hide Inv, Step, Run;
    var t := Step(s, Begin);
    PhaseStep(s, Begin);
    CompletionsEffect(t, before);
    RunAppend(s, [Begin], Completions(before));
    RunOne(s, Begin);
  }

  lemma TakenEffect(s: State, i: nat, after: seq<Completion>)
    requires Inv(s) && s.phase == Calling(i, false)
    ensures Moved(s, Run(s, [Take] + Completions(after) + [ReturnOk]), Idle(i + 1),
                  Handled(after, s.inflight + {i}), Left(after, s.inflight + {i}))
  {
    hide Inv, Step, Run, Handled, Left;
    var t := Step(s, Take);
    PhaseStep(s, Take);
    CompletionsEffect(t, after);
    RunAppend(s, [Take], Completions(after));
    RunOne(s, Take);
    var u := Run(t, Completions(after));
    PhaseStep(u, ReturnOk);
    RunAppend(s, [Take] + Completions(after), [ReturnOk]);
    RunOne(u, ReturnOk);
  }

  lemma AcceptedEffect(s: State, i: nat, turn: Turn)
    requires Inv(s) && s.phase == Idle(i) && i < s.requests && turn.accept
    ensures var l := Left(turn.before, s.inflight);
      Moved(s, Run(s, TurnEvents(turn)), Idle(i + 1),
            Handled(turn.before, s.inflight) + Handled(turn.after, l + {i}), Left(turn.after, l + {i}))
  {
    hide Inv, Run, Handled, Left, Completions;
    var a := [Begin] + Completions(turn.before);
    var b := [Take] + Completions(turn.after) + [ReturnOk];
    assert TurnEvents(turn) == a + b;
    RunAppend(s, a, b);
    CalledEffect(s, i, turn.before);
    var t := Run(s, a);
    TakenEffect(t, i, turn.after);
    MovedTrans(s, t, Run(t, b), t.phase, Idle(i + 1), Handled(turn.before, s.inflight),
               Handled(turn.after, t.inflight + {i}), t.inflight, Left(turn.after, t.inflight + {i}));
  }

  lemma FinishEffect(s: State)
    requires Inv(s) && (s.phase == Ending || s.phase == Idle(s.requests))
    ensures Moved(s, Step(s, Finish), Returned(0), [0], s.inflight)
  {
    hide FirstNegative, UserCallbacks;
    StepKeeps(s, Finish);
  }

  lemma RefusedEffect(s: State)
    requires Inv(s) && s.phase.Calling? && s.phase.i > 0 && !s.phase.taken
    ensures Moved(s, Run(s, [ReturnNull] + [Finish]), Returned(0), [-EIO, 0], s.inflight)
  {
    hide FirstNegative, UserCallbacks, Run;
    StepKeeps(s, ReturnNull);
    var t := Step(s, ReturnNull);
    assert Moved(s, t, Ending, [-EIO], s.inflight);
    FinishEffect(t);
    RunAppend(s, [ReturnNull], [Finish]);
    RunOne(s, ReturnNull);
    RunOne(t, Finish);
    MovedTrans(s, t, Step(t, Finish), Ending, Returned(0), [-EIO], [0], s.inflight, s.inflight);
    assert [-EIO] + [0] == [-EIO, 0];
  }

  /** What the submission loop adds to the results. */
  function Ends(o: Outcome): seq<int> {
    o.results + if o.refused then [-EIO, 0] else [0]
  }

  lemma {:induction false} ScriptEffect(s: State, script: seq<Turn>, i: nat)
    requires Inv(s) && s.phase == Idle(i) && i <= |script| == s.requests
    requires i > 0 || script[0].accept
    ensures var o := Submitted(script, i, s.inflight);
      Moved(s, Run(s, ScriptEvents(script, i)), Returned(0), Ends(o), o.left)
    decreases |script| - i
  {
    hide Inv, Run, Step, Handled, Left, Completions, TurnEvents;
    var events := ScriptEvents(script, i);
    var o := Submitted(script, i, s.inflight);
    if i == |script| {
      FinishEffect(s);
      RunOne(s, Finish);
      assert [] + [0] == [0];
    } else if script[i].accept {
      AcceptedEffect(s, i, script[i]);
      var t := Run(s, TurnEvents(script[i]));
      ScriptEffect(t, script, i + 1);
      RunAppend(s, TurnEvents(script[i]), ScriptEvents(script, i + 1));
      var o' := Submitted(script, i + 1, t.inflight);
      var a := t.results[|s.results|..];
      MovedTrans(s, t, Run(s, events), Idle(i + 1), Returned(0), a, Ends(o'), t.inflight, o'.left);
      assert o.results == a + o'.results;
      assert a + Ends(o') == Ends(o);
    } else {
      RefusedTurn(s, script[i], i);
      assert events == TurnEvents(script[i]) + ([ReturnNull] + [Finish]);
    }
  }

  lemma RefusedTurn(s: State, turn: Turn, i: nat)
    requires Inv(s) && s.phase == Idle(i) && 0 < i < s.requests && !turn.accept
    ensures Moved(s, Run(s, TurnEvents(turn) + ([ReturnNull] + [Finish])), Returned(0),
                  Handled(turn.before, s.inflight) + [-EIO, 0], Left(turn.before, s.inflight))
  {
    hide Inv, Run, Step, Handled, Left, Completions;
    var a := [Begin] + Completions(turn.before);
    assert TurnEvents(turn) == a;
    CalledEffect(s, i, turn.before);
    var t := Run(s, a);
    RefusedEffect(t);
    RunAppend(s, a, [ReturnNull] + [Finish]);
    MovedTrans(s, t, Run(t, [ReturnNull] + [Finish]), t.phase, Returned(0),
               Handled(turn.before, s.inflight), [-EIO, 0], t.inflight, t.inflight);
  }

  lemma ErrorIs(o: Outcome, late: seq<int>)
    ensures First(Ends(o) + late) ==
      if !o.refused then First(o.results + late)
      else if First(o.results) < 0 then First(o.results) else -EIO
  {
    if o.refused {
      FirstAppend(Ends(o), late);
      FirstAppend(o.results, [-EIO, 0]);
    } else {
      assert Ends(o) + late == o.results + ([0] + late);
      FirstAppend(o.results, [0] + late);
      FirstAppend(o.results, late);
      assert ([0] + late)[1..] == late;
    }
  }

  /** Whatever the driver does, once every accepted request is complete the callbacks have run, once
      each, with the first negative result of the completions in the order in which they were handled,
      where a refused request counts as -EIO at the moment of its refusal; until then none has run.
      In particular a refusal is never reported as success.  A refusal of the very first request is
      reported by the return of -1 and no callback runs. */
  lemma ScriptError(users: nat, script: seq<Turn>, late: seq<Completion>)
    requires |script| > 0
    ensures var s := Run(Initial(users, |script|), ScriptEvents(script, 0) + Completions(late));
      var o := Submitted(script, 0, {});
      if script[0].accept then
        && s.phase == Returned(0)
        && s.inflight == Left(late, o.left)
        && |s.ran| == (if s.inflight == {} then users else 0)
        && (forall k | 0 <= k < |s.ran| :: s.ran[k] == Callback(k, ErrorOf(script, late)))
        && (o.refused ==> ErrorOf(script, late) < 0)
      else s.phase == Returned(-1) && s.failed && s.ran == []
  {
    hide Inv, Run, Step, Handled, Left, Completions, TurnEvents, First, FirstNegative;
    var s0 := Initial(users, |script|);
    var events := ScriptEvents(script, 0) + Completions(late);
    MultiwriteProtocol(users, |script|, events);
    NothingYet(users, |script|);
    var t := Run(s0, ScriptEvents(script, 0));
    RunAppend(s0, ScriptEvents(script, 0), Completions(late));
    if script[0].accept {
      var o := Submitted(script, 0, {});
      ScriptEffect(s0, script, 0);
      CompletionsEffect(t, late);
      ErrorIs(o, Handled(late, o.left));
      FirstIsFirst(Run(s0, events).results);
      FirstAppend(o.results, []);
      assert Run(s0, events).results == [] + Ends(o) + Handled(late, o.left);
      assert [] + Ends(o) == Ends(o);
    } else {
      RefusedFirst(s0, script, late);
    }
  }

  lemma RefusedFirst(s: State, script: seq<Turn>, late: seq<Completion>)
    requires Inv(s) && s.phase == Idle(0) && s.requests == |script| > 0 && !script[0].accept
    ensures Run(s, ScriptEvents(script, 0) + Completions(late)).phase == Returned(-1)
  {
    hide Inv, Run, Handled, Left, Completions;
    var a := [Begin] + Completions(script[0].before);
    assert TurnEvents(script[0]) == a;
    assert ScriptEvents(script, 0) == a + [ReturnNull];
    CalledEffect(s, 0, script[0].before);
    var t := Run(s, a);
    RunAppend(s, a, [ReturnNull]);
    RunOne(t, ReturnNull);
    StepKeeps(t, ReturnNull);
    var u := Step(t, ReturnNull);
    CompletionsEffect(u, late);
    RunAppend(s, ScriptEvents(script, 0), Completions(late));
  }

  /** The call and the completions that follow it, on the control block itself. */
  method Multiwritten(users: nat, script: seq<Turn>, late: seq<Completion>) returns (code: int, ran: seq<Callback>)
    ensures script == [] || script[0].accept ==> code == 0
    ensures script != [] && !script[0].accept ==> code == -1 && ran == []
    ensures script != [] && script[0].accept ==>
      |ran| == if Left(late, Submitted(script, 0, {}).left) == {} then users else 0
    ensures forall k | 0 <= k < |ran| :: ran[k] == Callback(k, ErrorOf(script, late))
  {
    hide Inv, Run, Left, ScriptEvents, ErrorOf, Submitted, Completions;
    var m := new MultiwriteCB(users, |script|);
    code := m.AioMultiwrite(script);
    if script != [] {
      ghost var events := m.CompleteAll(late, ScriptEvents(script, 0));
      ScriptError(users, script, late);
    }
    ran := m.ran;
  }
}
