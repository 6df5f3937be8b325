/** The completion protocol of bdrv_aio_multiwrite (qemu/block.c:2035-2074, 2182-2255). */
module Multiwrite {
  import opened Constants

  datatype Callback = Callback(request: nat, error: int)

  /** Where bdrv_aio_multiwrite is: between submissions, inside bdrv_aio_writev for request i (taken
      once the driver has accepted it), past the loop, or returned. */
  datatype Phase = Idle(i: nat) | Calling(i: nat, taken: bool) | Ending | Returned(code: int)

  /** The MultiwriteCB and its surroundings: the requests the driver still has to complete, the user
      callbacks run so far, whether every request's error field was set, and whether freed memory
      has been touched.  results lists the arguments of multiwrite_cb, in order. */
  datatype State = State(users: nat, requests: nat, phase: Phase, inflight: set<nat>,
                         error: int, numRequests: int, ran: seq<Callback>, freed: bool,
                         failed: bool, fault: bool, results: seq<int>)

  /** What can happen next.  A driver completes each accepted request once, possibly before
      bdrv_aio_writev has returned, and returns NULL only for a request it has not accepted. */
  datatype Event =
    | Begin                        // the loop counts the next request and calls bdrv_aio_writev
    | Take                         // the driver accepts it
    | ReturnOk                     // bdrv_aio_writev returns a control block
    | ReturnNull                   // bdrv_aio_writev returns NULL
    | Complete(id: nat, ret: int)  // the driver completes a request
    | Finish                       // the dummy request is completed

  function UserCallbacks(users: nat, error: int): seq<Callback> {
    seq(users, i requires 0 <= i => Callback(i, error))
  }

  /** multiwrite_cb. */
  function Cb(s: State, ret: int): (r: State)
    ensures r.users == s.users && r.requests == s.requests && r.phase == s.phase && r.inflight == s.inflight
  {
    if s.freed then s.(fault := true)
    else
      var error := if ret < 0 && s.error == 0 then ret else s.error;
      var s1 := s.(error := error, numRequests := s.numRequests - 1, results := s.results + [ret]);
      if s1.numRequests == 0 then s1.(ran := s.ran + UserCallbacks(s.users, error), freed := true) else s1
  }

  /** An event that cannot happen in the state leaves it as it is. */
  function Step(s: State, e: Event): (r: State)
    ensures r.users == s.users && r.requests == s.requests
  {
    match e
    case Begin =>
      if s.phase.Idle? && s.phase.i < s.requests
      then s.(phase := Calling(s.phase.i, false), numRequests := s.numRequests + 1) else s
    case Take =>
      if s.phase.Calling? && !s.phase.taken
      then s.(phase := Calling(s.phase.i, true), inflight := s.inflight + {s.phase.i}) else s
    case ReturnOk =>
      if s.phase.Calling? && s.phase.taken then s.(phase := Idle(s.phase.i + 1)) else s
    case ReturnNull =>
      if s.phase.Calling? && !s.phase.taken then
        if s.phase.i == 0 then s.(phase := Returned(-1), failed := true, freed := true)
        else Cb(s, -EIO).(phase := Ending)
      else s
    case Complete(id, ret) =>
      if id in s.inflight then Cb(s.(inflight := s.inflight - {id}), ret) else s
    case Finish =>
      if s.phase == Ending || s.phase == Idle(s.requests) then Cb(s, 0).(phase := Returned(0)) else s
  }

  function Run(s: State, events: seq<Event>): (r: State)
    ensures r.users == s.users && r.requests == s.requests
  {
    if events == [] then s else Step(Run(s, events[..|events| - 1]), events[|events| - 1])
  }

  /** The state in which the submission loop starts: a dummy request is already counted. */
  function Initial(users: nat, requests: nat): State {
    State(users, requests, Idle(0), {}, 0, 1, [], false, false, false, [])
  }

  function FirstNegative(results: seq<int>): int {
    if results == [] then 0
    else
      var e := FirstNegative(results[..|results| - 1]);
      if e == 0 && results[|results| - 1] < 0 then results[|results| - 1] else e
  }

  /** Requests counted beyond the ones in flight: the dummy, and one that is being submitted. */
  function Extra(p: Phase): nat {
    match p
    case Idle(_) => 1
    case Calling(_, taken) => if taken then 1 else 2
    case Ending => 1
    case Returned(_) => 0
  }

  /** The protocol invariant. */
  ghost predicate Inv(s: State) {
    && !s.fault
    && s.requests > 0
    && (s.phase.Idle? ==> s.phase.i <= s.requests)
    && s.error == FirstNegative(s.results)
    && (forall id | id in s.inflight :: id < Bound(s))
    && (s.phase.Calling? ==> s.phase.i < s.requests)
    && if s.phase == Returned(-1) then
         s.freed && s.failed && s.ran == [] && s.inflight == {} && s.results == []
       else
         && !s.failed
         && s.numRequests == |s.inflight| + Extra(s.phase)
         && (s.phase.Returned? ==> s.phase.code == 0)
         && (s.freed <==> s.numRequests == 0)
         && s.ran == (if s.freed then UserCallbacks(s.users, s.error) else [])
         && (s.phase == Idle(0) || s.phase == Calling(0, false) ==> s.results == [])
  }

  /** Identifiers of requests handed to the driver so far are below this. */
  function Bound(s: State): nat {
    match s.phase
    case Idle(i) => i
    case Calling(i, taken) => if taken then i + 1 else i
    case _ => s.requests
  }

  lemma CbKeeps(s: State, ret: int)
    requires !s.freed && s.ran == [] && s.error == FirstNegative(s.results)
    ensures var r := Cb(s, ret);
      && r.error == FirstNegative(r.results)
      && r.numRequests == s.numRequests - 1 && r.failed == s.failed && r.fault == s.fault
      && (r.freed <==> r.numRequests == 0)
      && r.ran == (if r.freed then UserCallbacks(s.users, r.error) else [])
  {
    assert (s.results + [ret])[..|s.results|] == s.results;
  }

  lemma CompleteKeeps(s: State, id: nat, ret: int)
    requires Inv(s) && id in s.inflight
    ensures Inv(Step(s, Complete(id, ret)))
  {
    hide FirstNegative, UserCallbacks, Cb;
    CbKeeps(s.(inflight := s.inflight - {id}), ret);
    assert |s.inflight - {id}| == |s.inflight| - 1;
  }

  lemma NullKeeps(s: State)
    requires Inv(s)
    ensures Inv(Step(s, ReturnNull))
  {
    hide FirstNegative, UserCallbacks, Cb;
    if s.phase.Calling? {
      CbKeeps(s, -EIO);
    }
  }

  lemma FinishKeeps(s: State)
    requires Inv(s)
    ensures Inv(Step(s, Finish))
  {
    hide FirstNegative, UserCallbacks, Cb;
    if s.phase == Ending || s.phase == Idle(s.requests) {
      CbKeeps(s, 0);
    }
  }

  /** Every step keeps the invariant. */
  lemma StepKeeps(s: State, e: Event)
    requires Inv(s)
    ensures Inv(Step(s, e))
  {
    hide FirstNegative, UserCallbacks, Cb;
    match e {
      case Complete(id, ret) =>
        if id in s.inflight {
          CompleteKeeps(s, id, ret);
        }
      case ReturnNull => NullKeeps(s);
      case Finish => FinishKeeps(s);
      case _ =>
    }
  }

  lemma {:induction false} RunKeeps(users: nat, requests: nat, events: seq<Event>)
    requires requests > 0
    ensures Inv(Run(Initial(users, requests), events))
  {
    if events != [] {
      RunKeeps(users, requests, events[..|events| - 1]);
      StepKeeps(Run(Initial(users, requests), events[..|events| - 1]), events[|events| - 1]);
    }
  }

  /** For every order of early and late completions and every submission failure: freed memory is
      never touched; the user callbacks run exactly once each, in order and together, only when
      submission has ended and the driver has completed every accepted request, with the first
      negative result as the error; and if the very first submission fails, -1 is returned, every
      request's error is set and no callback ever runs. */
  lemma MultiwriteProtocol(users: nat, requests: nat, events: seq<Event>)
    requires requests > 0
    ensures var s := Run(Initial(users, requests), events);
      && !s.fault
      && (s.ran != [] ==> s.phase == Returned(0) && s.inflight == {})
      && (s.phase == Returned(0) && s.inflight == {} ==>
            s.ran == UserCallbacks(users, FirstNegative(s.results)))
      && (s.phase.Returned? ==> s.phase.code == 0 || s.phase.code == -1)
      && (s.phase == Returned(-1) <==> s.failed)
      && (s.failed ==> s.ran == [] && s.results == [] && s.inflight == {})
  {
    hide FirstNegative, Run;
    RunKeeps(users, requests, events);
  }

  /** Once the callbacks have run nothing changes any more. */
  lemma RanIsFinal(s: State, e: Event)
    requires Inv(s) && s.ran != []
    ensures Step(s, e) == s
  {
    hide FirstNegative;
  }

  // ----- the functions as they run -----

  datatype Completion = Completion(id: nat, ret: int)

  /** What the driver does during one call of bdrv_aio_writev: it completes earlier requests, then
      accepts the new one or not, and then may complete more, the new one included. */
  datatype Turn = Turn(before: seq<Completion>, accept: bool, after: seq<Completion>)

  function Completions(done: seq<Completion>): (events: seq<Event>)
    ensures |events| == |done|
  {
    seq(|done|, i requires 0 <= i < |done| => Complete(done[i].id, done[i].ret))
  }

  /** The events of one turn, up to the return of NULL. */
  function TurnEvents(turn: Turn): seq<Event> {
    [Begin] + Completions(turn.before) + if turn.accept then [Take] + Completions(turn.after) + [ReturnOk] else []
  }

  /** The run that a driver makes, from the submission of request i on. */
  function ScriptEvents(script: seq<Turn>, i: nat): seq<Event>
    requires i <= |script|
    decreases |script| - i
  {
    if i == |script| then [Finish]
    else if script[i].accept then TurnEvents(script[i]) + ScriptEvents(script, i + 1)
    else TurnEvents(script[i]) + [ReturnNull] + if i == 0 then [] else [Finish]
  }

  class MultiwriteCB {
    const users: nat
    const requests: nat
    var error: int
    var numRequests: int
    var ran: seq<Callback>
    var freed: bool
    var failed: bool
    var inflight: set<nat> // kept by the driver
    var errors: seq<int> // the error fields of the requests given
    ghost var phase: Phase
    ghost var results: seq<int>

    ghost function View(): State
      reads this
    {
      State(users, requests, phase, inflight, error, numRequests, ran, freed, failed, false, results)
    }

    /** The set-up in bdrv_aio_multiwrite. */
    constructor (users: nat, requests: nat)
      ensures View() == Initial(users, requests) && errors == seq(users, _ => 0)
    {
      this.users, this.requests := users, requests;
      errors := seq(users, _ => 0);
      error, numRequests, ran, freed, failed := 0, 1, [], false, false;
      phase, inflight, results := Idle(0), {}, [];
    }

    /** multiwrite_user_cb. */
    method UserCb()
      modifies `ran
      ensures ran == old(ran) + UserCallbacks(users, error)
    {
      var i := 0;
      while i < users
        invariant 0 <= i <= users
        invariant ran == old(ran) + UserCallbacks(users, error)[..i]
      {
        ran := ran + [Callback(i, error)];
        i := i + 1;
      }
    }

    /** multiwrite_cb. */
    method MultiwriteCb(ret: int)
      requires !freed
      modifies `error, `numRequests, `ran, `freed, `results
      ensures View() == Cb(old(View()), ret)
    {
      results := results + [ret];
      if ret < 0 && error == 0 {
        error := ret;
      }
      numRequests := numRequests - 1;
      if numRequests == 0 {
        UserCb();
        freed := true;
      }
    }

    /** A completion from the driver. */
    method Completed(id: nat, ret: int)
      requires Inv(View())
      modifies `error, `numRequests, `ran, `freed, `results, `inflight
      ensures View() == Step(old(View()), Complete(id, ret))
      ensures Inv(View())
    {
      hide FirstNegative, UserCallbacks;
      StepKeeps(View(), Complete(id, ret));
      if id in inflight {
        inflight := inflight - {id};
        MultiwriteCb(ret);
      }
    }

    method CompleteAll(done: seq<Completion>, ghost events: seq<Event>) returns (ghost events': seq<Event>)
      requires Inv(View()) && View() == Run(Initial(users, requests), events)
      modifies `error, `numRequests, `ran, `freed, `results, `inflight
      ensures Inv(View()) && View() == Run(Initial(users, requests), events')
      ensures events' == events + Completions(done)
    {
      hide Inv, Run, Step;
      events' := events;
      var i := 0;
      while i < |done|
        invariant 0 <= i <= |done|
        invariant events' == events + Completions(done)[..i]
        invariant Inv(View()) && View() == Run(Initial(users, requests), events')
      {
        RunLast(Initial(users, requests), events', Complete(done[i].id, done[i].ret));
        Completed(done[i].id, done[i].ret);
        events' := events' + [Complete(done[i].id, done[i].ret)];
        i := i + 1;
      }
    }

    /** One turn of the submission loop, up to the return of bdrv_aio_writev. */
    method Submit(i: nat, turn: Turn, ghost events: seq<Event>) returns (ghost events': seq<Event>)
      requires Inv(View()) && View() == Run(Initial(users, requests), events)
      requires phase == Idle(i) && i < requests
      modifies `error, `numRequests, `ran, `freed, `results, `inflight, `phase
      ensures Inv(View()) && View() == Run(Initial(users, requests), events')
      ensures phase == if turn.accept then Idle(i + 1) else Calling(i, false)
      ensures events' == events + TurnEvents(turn)
    {
      hide Inv, Run, FirstNegative, Completions;
      numRequests := numRequests + 1;
      phase := Calling(i, false);
      events' := Follow(events, Begin);
      events' := CompleteAll(turn.before, events');
      if turn.accept {
        events' := Accept(i, turn.after, events');
        Regroup(events, [Begin] + Completions(turn.before), [Take] + Completions(turn.after) + [ReturnOk]);
      }
    }

    /** The driver takes request i and bdrv_aio_writev returns. */
    method Accept(i: nat, after: seq<Completion>, ghost events: seq<Event>) returns (ghost events': seq<Event>)
      requires Inv(View()) && View() == Run(Initial(users, requests), events)
      requires phase == Calling(i, false)
      modifies `error, `numRequests, `ran, `freed, `results, `inflight, `phase
      ensures Inv(View()) && View() == Run(Initial(users, requests), events') && phase == Idle(i + 1)
      ensures events' == events + ([Take] + Completions(after) + [ReturnOk])
    {
      hide Inv, Run, FirstNegative, Completions;
      inflight := inflight + {i};
      phase := Calling(i, true);
      events' := Follow(events, Take);
      events' := CompleteAll(after, events');
      phase := Idle(i + 1);
      events' := Follow(events', ReturnOk);
    }

    /** Records that the state has just made the step e. */
    ghost method Follow(events: seq<Event>, e: Event) returns (events': seq<Event>)
      requires Inv(Run(Initial(users, requests), events))
      requires View() == Step(Run(Initial(users, requests), events), e)
      ensures Inv(View()) && View() == Run(Initial(users, requests), events') && events' == events + [e]
    {
      hide Inv, Run, Step;
      StepKeeps(Run(Initial(users, requests), events), e);
      RunLast(Initial(users, requests), events, e);
      events' := events + [e];
    }

    /** What happens at the label fail. */
    method Fail(ghost events: seq<Event>) returns (ghost events': seq<Event>)
      requires |errors| == users && phase == Calling(0, false)
      requires Inv(View()) && View() == Run(Initial(users, requests), events)
      modifies `errors, `failed, `freed, `phase
      ensures |errors| == users && forall k | 0 <= k < users :: errors[k] == -EIO
      ensures Inv(View()) && View() == Run(Initial(users, requests), events') && phase == Returned(-1)
      ensures events' == events + [ReturnNull]
    {
      hide Run, FirstNegative, UserCallbacks, Inv;
      for k := 0 to users
        invariant |errors| == users && forall j | 0 <= j < k :: errors[j] == -EIO
      {
        errors := errors[k := -EIO];
      }
      failed := true;
      freed := true;
      phase := Returned(-1);
      events' := Follow(events, ReturnNull);
    }

    /** bdrv_aio_multiwrite after merging: one turn of the driver per request. */
    method AioMultiwrite(script: seq<Turn>) returns (code: int)
      requires |script| == requests && View() == Initial(users, requests) && |errors| == users
      modifies this
      ensures |errors| == users
      ensures if code < 0 then forall k | 0 <= k < users :: errors[k] == -EIO else errors == old(errors)
      ensures requests == 0 ==> code == 0 && View() == old(View())
      ensures requests > 0 ==> Inv(View()) && View() == Run(Initial(users, requests), ScriptEvents(script, 0))
      ensures requests > 0 ==> phase == Returned(code) && code == if script[0].accept then 0 else -1
    {
      hide Run, Inv, Initial, FirstNegative, UserCallbacks, TurnEvents, ScriptEvents;
      if requests == 0 {
        return 0;
      }
      NothingYet(users, requests);
      InitialIdle(users, requests);
      ScriptEnd(script);
      ghost var events: seq<Event> := [];
      ghost var all := ScriptEvents(script, 0);
      var i := 0;
      while i < requests
        invariant 0 <= i <= requests
        invariant Inv(View()) && View() == Run(Initial(users, requests), events)
        invariant phase == Idle(i) && (i > 0 ==> script[0].accept) && errors == old(errors)
        invariant events + ScriptEvents(script, i) == all
      {
        ScriptSplit(script, i, events);
        events := Submit(i, script[i], events);
        if !script[i].accept {
          if i == 0 {
            events := Fail(events);
            return -1;
          }
          events := GiveUp(events);
          return 0;
        }
        i := i + 1;
      }
      events := End(events);
      return 0;
    }

    /** The dummy request is completed (block.c:2244-2247). */
    method End(ghost events: seq<Event>) returns (ghost events': seq<Event>)
      requires Inv(View()) && View() == Run(Initial(users, requests), events)
      requires phase == Idle(requests) || phase == Ending
      modifies `error, `numRequests, `ran, `freed, `results, `phase
      ensures Inv(View()) && View() == Run(Initial(users, requests), events') && phase == Returned(0)
      ensures events' == events + [Finish]
    {
      hide Run, FirstNegative, UserCallbacks;
      MultiwriteCb(0);
      phase := Returned(0);
      events' := Follow(events, Finish);
    }

    /** A later submission has failed (block.c:2237-2240). */
    method GiveUp(ghost events: seq<Event>) returns (ghost events': seq<Event>)
      requires Inv(View()) && View() == Run(Initial(users, requests), events)
      requires phase.Calling? && !phase.taken && phase.i > 0
      modifies `error, `numRequests, `ran, `freed, `results, `phase
      ensures Inv(View()) && View() == Run(Initial(users, requests), events') && phase == Returned(0)
      ensures events' == events + [ReturnNull] + [Finish]
    {
      hide Run, FirstNegative, UserCallbacks;
      MultiwriteCb(-EIO);
      phase := Ending;
      events' := Follow(events, ReturnNull);
      events' := End(events');
    }
  }

  lemma Regroup(a: seq<Event>, b: seq<Event>, c: seq<Event>)
    ensures a + (b + c) == a + b + c
  {
  }

  lemma InitialIdle(users: nat, requests: nat)
    ensures Initial(users, requests).phase == Idle(0)
  {
  }

  lemma ScriptEnd(script: seq<Turn>)
    ensures ScriptEvents(script, |script|) == [Finish]
  {
  }

  lemma ScriptSplit(script: seq<Turn>, i: nat, before: seq<Event>)
    requires i < |script|
    ensures before + ScriptEvents(script, i) == before + TurnEvents(script[i]) + (
      if script[i].accept then ScriptEvents(script, i + 1) else if i == 0 then [ReturnNull] else [ReturnNull, Finish])
    ensures !script[i].accept && i > 0 ==>
      before + ScriptEvents(script, i) == before + TurnEvents(script[i]) + [ReturnNull] + [Finish]
  {
    hide TurnEvents;
  }

  lemma RunLast(s: State, events: seq<Event>, e: Event)
    ensures Run(s, events + [e]) == Step(Run(s, events), e)
  {
    assert (events + [e])[..|events|] == events;
  }

  lemma NothingYet(users: nat, requests: nat)
    requires requests > 0
    ensures Inv(Initial(users, requests)) && Run(Initial(users, requests), []) == Initial(users, requests)
  {
  }
}
