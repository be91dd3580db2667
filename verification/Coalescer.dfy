/**
 The request coalescer: callers of one key share a call; the last one to leave an unfinished
 call cancels it, and a value nobody took is disposed. Every locked section is one step.
 */
module Coalescer {

  type Key = int

  type Payload = int

  /** What a shared call published. */
  datatype Published = Success(value: Payload) | Failure | Closed

  /**
   One shared call. `late` records that it finished after Close with callers still waiting;
   `disposals` counts how often its value was handed to the dispose function.
   */
  datatype Call = Call(
    key: Key,
    waiters: int,
    completed: bool,
    claimed: bool,
    succeeded: bool,
    published: Published,
    disposable: bool,
    late: bool,
    disposals: nat)

  /** Where a caller of Do is: waiting on a call, back with what was published, or gone. */
  datatype Caller = Waiting(call: nat) | Answered(call: nat, result: Published) | Left(call: nat) | Rejected

  /** Calls are named by the order of their creation; `current` is the registry of joinable ones. */
  datatype State = State(calls: seq<Call>, current: map<Key, nat>, callers: seq<Caller>, closed: bool)

  const START := State([], map[], [], false)

  datatype Step =
    | Do(key: Key, disposable: bool)
    | Finish(call: nat, ok: bool, value: Payload)
    | Claim(caller: nat)
    | Cancel(caller: nat)
    | Close

  // --------------------------------------------------------------------- locked sections

  function WithCall(s: State, id: nat, call: Call): State
    requires id < |s.calls|
  {
    s.(calls := s.calls[id := call])
  }

  /** The start of Do: join the key's call or register a new one. */
  function Join(s: State, key: Key, disposable: bool): State
    requires key in s.current ==> s.current[key] < |s.calls|
  {
    if s.closed then s.(callers := s.callers + [Rejected])
    else if key in s.current then
      var id := s.current[key];
      WithCall(s, id, s.calls[id].(waiters := s.calls[id].waiters + 1)).(callers := s.callers + [Waiting(id)])
    else
      var id := |s.calls|;
      s.(calls := s.calls + [Call(key, 1, false, false, false, Failure, disposable, false, 0)],
         current := s.current[key := id], callers := s.callers + [Waiting(id)])
  }

  predicate Registered(s: State, id: nat)
    requires id < |s.calls|
  {
    s.calls[id].key in s.current && s.current[s.calls[id].key] == id
  }

  function Unregister(s: State, id: nat): map<Key, nat>
    requires id < |s.calls|
  {
    if Registered(s, id) then s.current - {s.calls[id].key} else s.current
  }

  /** The end of `run`: publish, deregister, and dispose what nobody will take. */
  function FinishCall(s: State, id: nat, ok: bool, value: Payload): State
    requires id < |s.calls|
  {
    var call := s.calls[id];
    var published := if s.closed then Closed else if ok then Success(value) else Failure;
    var dispose := !call.claimed && ok && call.disposable && (call.waiters == 0 || s.closed);
    WithCall(s, id, call.(completed := true, succeeded := ok, published := published,
                          late := s.closed && call.waiters > 0,
                          disposals := call.disposals + if dispose then 1 else 0))
      .(current := Unregister(s, id))
  }

  /** A caller that saw the call done takes what was published. */
  function ClaimCall(s: State, caller: nat): State
    requires caller < |s.callers| && s.callers[caller].Waiting? && s.callers[caller].call < |s.calls|
  {
    var id := s.callers[caller].call;
    var call := s.calls[id];
    WithCall(s, id, call.(claimed := true, waiters := call.waiters - 1))
      .(callers := s.callers[caller := Answered(id, call.published)])
  }

  /** A caller whose context ended leaves; the last one cancels the call or disposes its value. */
  function Leave(s: State, caller: nat): State
    requires caller < |s.callers| && s.callers[caller].Waiting? && s.callers[caller].call < |s.calls|
  {
    var id := s.callers[caller].call;
    var call := s.calls[id];
    var last := call.waiters - 1 == 0;
    var dispose := last && call.completed && !call.claimed && call.succeeded && call.disposable;
    WithCall(s, id, call.(waiters := call.waiters - 1, disposals := call.disposals + if dispose then 1 else 0))
      .(current := if last && !call.completed then Unregister(s, id) else s.current,
        callers := s.callers[caller := Left(id)])
  }

  // -------------------------------------------------------------------------------- runs

  predicate Enabled(s: State, step: Step)
  {
    match step
    case Do(key, _) => key in s.current ==> s.current[key] < |s.calls|
    case Finish(id, _, _) => id < |s.calls| && !s.calls[id].completed
    case Claim(w) =>
      w < |s.callers| && s.callers[w].Waiting? && s.callers[w].call < |s.calls| && s.calls[s.callers[w].call].completed
    case Cancel(w) => w < |s.callers| && s.callers[w].Waiting? && s.callers[w].call < |s.calls|
    case Close => true
  }

  function Apply(s: State, step: Step): State
    requires Enabled(s, step)
  {
    match step
    case Do(key, disposable) => Join(s, key, disposable)
    case Finish(id, ok, value) => FinishCall(s, id, ok, value)
    case Claim(w) => ClaimCall(s, w)
    case Cancel(w) => Leave(s, w)
    case Close => s.(closed := true)
  }

  predicate CanRun(s: State, steps: seq<Step>)
    decreases |steps|
  {
    steps == [] || (Enabled(s, steps[0]) && CanRun(Apply(s, steps[0]), steps[1..]))
  }

  function Run(s: State, steps: seq<Step>): State
    requires CanRun(s, steps)
    decreases |steps|
  {
    if steps == [] then s else Run(Apply(s, steps[0]), steps[1..])
  }

  // --------------------------------------------------------------------------- invariant

  /** How many callers wait on a call. */
  function Joined(callers: seq<Caller>, id: nat): nat
  {
    if callers == [] then 0
    else Joined(callers[..|callers| - 1], id) + (if callers[|callers| - 1] == Waiting(id) then 1 else 0)
  }

  /** What should have happened to the value by now. */
  function Due(call: Call): nat
  {
    if !(call.completed && call.succeeded && call.disposable) then 0
    else (if call.late then 1 else 0) + (if call.waiters == 0 && !call.claimed then 1 else 0)
  }

  predicate CallOk(s: State, id: nat)
    requires id < |s.calls|
  {
    var call := s.calls[id];
    call.waiters == Joined(s.callers, id)
    && call.disposals == Due(call)
    && (call.claimed ==> call.completed)
    && (call.late ==> call.completed && s.closed)
    && (call.completed && !call.late && call.published.Closed? ==> s.closed)
    && (Registered(s, id) <==> !call.completed && call.waiters >= 1)
  }

  predicate CallerOk(s: State, caller: Caller)
  {
    match caller
    case Waiting(id) => id < |s.calls|
    case Answered(id, result) => id < |s.calls| && s.calls[id].completed && s.calls[id].claimed && result == s.calls[id].published
    case Left(id) => id < |s.calls|
    case Rejected => s.closed
  }

  ghost predicate Inv(s: State)
  {
    (forall key :: key in s.current ==> s.current[key] < |s.calls| && s.calls[s.current[key]].key == key)
    && (forall id :: 0 <= id < |s.calls| ==> CallOk(s, id))
    && (forall w :: 0 <= w < |s.callers| ==> CallerOk(s, s.callers[w]))
  }

  lemma {:induction false} JoinedSet(callers: seq<Caller>, w: nat, next: Caller, id: nat)
    requires w < |callers| && callers[w].Waiting? && !next.Waiting?
    ensures Joined(callers[w := next], id) == Joined(callers, id) - (if callers[w].call == id then 1 else 0)
    decreases |callers|
  {
    var last := |callers| - 1;
    if w == last {
      assert callers[w := next][..last] == callers[..last];
    } else {
      JoinedSet(callers[..last], w, next, id);
      assert callers[w := next][..last] == callers[..last][w := next];
    }
  }

  lemma JoinedMore(callers: seq<Caller>, next: Caller, id: nat)
    ensures Joined(callers + [next], id) == Joined(callers, id) + (if next == Waiting(id) then 1 else 0)
  {
    assert (callers + [next])[..|callers|] == callers;
  }

  lemma {:induction false} JoinedNone(callers: seq<Caller>, id: nat)
    requires forall w :: 0 <= w < |callers| ==> callers[w] != Waiting(id)
    ensures Joined(callers, id) == 0
  {
    if callers != [] {
      JoinedNone(callers[..|callers| - 1], id);
    }
  }

  lemma JoinKeeps(s: State, key: Key, disposable: bool)
    requires Inv(s)
    ensures Inv(Join(s, key, disposable))
  {
    var r := Join(s, key, disposable);
    forall x | 0 <= x < |r.calls| ensures CallOk(r, x) {
      JoinKeepsCall(s, key, disposable, x);
    }
    forall w | 0 <= w < |r.callers| ensures CallerOk(r, r.callers[w]) {
      assert w < |s.callers| ==> CallerOk(s, s.callers[w]);
    }
  }

  lemma JoinKeepsCall(s: State, key: Key, disposable: bool, x: nat)
    requires Inv(s) && x < |Join(s, key, disposable).calls|
    ensures CallOk(Join(s, key, disposable), x)
  {
    var r := Join(s, key, disposable);
    JoinedMore(s.callers, r.callers[|s.callers|], x);
    if x < |s.calls| {
      assert CallOk(s, x);
    } else {
      JoinedNone(s.callers, x);
    }
  }

  lemma FinishKeeps(s: State, id: nat, ok: bool, value: Payload)
    requires Inv(s) && id < |s.calls| && !s.calls[id].completed
    ensures Inv(FinishCall(s, id, ok, value))
  {
    var r := FinishCall(s, id, ok, value);
    forall x | 0 <= x < |r.calls| ensures CallOk(r, x) {
      assert CallOk(s, x);
    }
    forall w | 0 <= w < |r.callers| ensures CallerOk(r, r.callers[w]) {
      assert CallerOk(s, s.callers[w]);
    }
  }

  lemma ClaimKeeps(s: State, caller: nat)
    requires Inv(s) && caller < |s.callers| && s.callers[caller].Waiting? && s.calls[s.callers[caller].call].completed
    ensures Inv(ClaimCall(s, caller))
  {
    assert CallerOk(s, s.callers[caller]);
    var id := s.callers[caller].call;
    var r := ClaimCall(s, caller);
    forall x | 0 <= x < |r.calls| ensures CallOk(r, x) {
      JoinedSet(s.callers, caller, Answered(id, s.calls[id].published), x);
      assert CallOk(s, x);
      if x == id {
        JoinedSome(s.callers, caller);
      }
    }
    forall w | 0 <= w < |r.callers| ensures CallerOk(r, r.callers[w]) {
      assert CallerOk(s, s.callers[w]);
    }
  }

  lemma {:induction false} JoinedSome(callers: seq<Caller>, w: nat)
    requires w < |callers| && callers[w].Waiting?
    ensures Joined(callers, callers[w].call) >= 1
    decreases |callers|
  {
    if w < |callers| - 1 {
      JoinedSome(callers[..|callers| - 1], w);
    }
  }

  lemma LeaveKeeps(s: State, caller: nat)
    requires Inv(s) && caller < |s.callers| && s.callers[caller].Waiting?
    ensures s.callers[caller].call < |s.calls|
    ensures Inv(Leave(s, caller))
  {
    assert CallerOk(s, s.callers[caller]);
    var id := s.callers[caller].call;
    var r := Leave(s, caller);
    forall x | 0 <= x < |r.calls| ensures CallOk(r, x) {
      JoinedSet(s.callers, caller, Left(id), x);
      assert CallOk(s, x);
      if x == id {
        JoinedSome(s.callers, caller);
      }
    }
    forall w | 0 <= w < |r.callers| ensures CallerOk(r, r.callers[w]) {
      assert CallerOk(s, s.callers[w]);
    }
  }

  lemma StepKeeps(s: State, step: Step)
    requires Inv(s) && Enabled(s, step)
    ensures Inv(Apply(s, step))
  {
    match step {
      case Do(key, disposable) => JoinKeeps(s, key, disposable);
      case Finish(id, ok, value) => FinishKeeps(s, id, ok, value);
      case Claim(w) => ClaimKeeps(s, w);
      case Cancel(w) => LeaveKeeps(s, w);
      case Close =>
        var r := s.(closed := true);
        forall x | 0 <= x < |r.calls| ensures CallOk(r, x) {
          assert CallOk(s, x);
        }
        forall w | 0 <= w < |r.callers| ensures CallerOk(r, r.callers[w]) {
          assert CallerOk(s, s.callers[w]);
        }
    }
  }

  lemma {:induction false} RunKeeps(s: State, steps: seq<Step>)
    requires Inv(s) && CanRun(s, steps)
    ensures Inv(Run(s, steps))
    decreases |steps|
  {
    hide Inv, Apply, Enabled;
    if steps != [] {
      StepKeeps(s, steps[0]);
      RunKeeps(Apply(s, steps[0]), steps[1..]);
    }
  }

  lemma {:induction false} NeverClosed(s: State, steps: seq<Step>)
    requires CanRun(s, steps) && !s.closed && Close !in steps
    ensures !Run(s, steps).closed
    decreases |steps|
  {
    if steps != [] {
      NeverClosed(Apply(s, steps[0]), steps[1..]);
    }
  }

  // -------------------------------------------------------------------------- guarantees

  /** A registered call is unfinished, and its count is its callers that have not returned, at least one. */
  lemma RegisteredIsLive(steps: seq<Step>, key: Key)
    requires CanRun(START, steps) && key in Run(START, steps).current
    ensures var s := Run(START, steps); var id := s.current[key];
      id < |s.calls| && s.calls[id].key == key && !s.calls[id].completed
      && s.calls[id].waiters == Joined(s.callers, id) >= 1
  {
    hide Run, CanRun;
    RunKeeps(START, steps);
    var s := Run(START, steps);
    assert CallOk(s, s.current[key]);
  }

  /** Every returned Do got what its own call published, or left by its own context. */
  lemma AnswersArePublished(steps: seq<Step>, w: nat)
    requires CanRun(START, steps) && w < |Run(START, steps).callers|
    ensures var s := Run(START, steps);
      s.callers[w].Answered? ==>
        s.callers[w].call < |s.calls| && s.calls[s.callers[w].call].completed
        && s.callers[w].result == s.calls[s.callers[w].call].published
  {
    hide Run, CanRun;
    RunKeeps(START, steps);
    var s := Run(START, steps);
    assert CallerOk(s, s.callers[w]);
  }

  /**
   In a run without Close, a successful value with a dispose function is, once nobody waits for
   it, either claimed and never disposed or disposed exactly once; until then it is kept.
   */
  lemma DisposedOrClaimed(steps: seq<Step>, id: nat)
    requires CanRun(START, steps) && Close !in steps && id < |Run(START, steps).calls|
    ensures var call := Run(START, steps).calls[id];
      if call.completed && call.succeeded && call.disposable
      then call.disposals == if call.claimed || call.waiters > 0 then 0 else 1
      else call.disposals == 0
  {
    hide Run, CanRun;
    RunKeeps(START, steps);
    NeverClosed(START, steps);
    var s := Run(START, steps);
    assert CallOk(s, id);
  }

  /**
   With Close, in any run: a value is disposed twice exactly when its call succeeded after Close
   with callers waiting, and all of those then left without taking the result.
   */
  lemma DisposedTwiceExactlyWhen(steps: seq<Step>, id: nat)
    requires CanRun(START, steps) && id < |Run(START, steps).calls|
    ensures var call := Run(START, steps).calls[id];
      call.disposals <= 2
      && (call.disposals == 2 <==>
            call.completed && call.succeeded && call.disposable && call.late && call.waiters == 0 && !call.claimed)
  {
    hide Run, CanRun;
    RunKeeps(START, steps);
    var s := Run(START, steps);
    assert CallOk(s, id);
  }

  /** Such a run exists: join, close, finish, leave. */
  lemma DoubleDisposalHappens()
    ensures var steps := [Do(7, true), Close, Finish(0, true, 42), Cancel(0)];
      CanRun(START, steps) && Run(START, steps).calls[0].disposals == 2
  {
    var d, c, f, l := Do(7, true), Close, Finish(0, true, 42), Cancel(0);
    var s1, s2 := Apply(START, d), Apply(Apply(START, d), c);
    assert |s2.calls| == 1 && |s2.callers| == 1 && s2.callers[0] == Waiting(0);
    var s3 := Apply(s2, f);
    var s4 := Apply(s3, l);
    assert [l][1..] == [] && CanRun(s4, []) && Run(s4, []) == s4;
    assert CanRun(s3, [l]) && Run(s3, [l]) == s4;
    assert [f, l][1..] == [l] && CanRun(s2, [f, l]) && Run(s2, [f, l]) == s4;
    assert [c, f, l][1..] == [f, l] && CanRun(s1, [c, f, l]) && Run(s1, [c, f, l]) == s4;
    assert [d, c, f, l][1..] == [c, f, l] && CanRun(START, [d, c, f, l]) && Run(START, [d, c, f, l]) == s4;
  }

  // ------------------------------------------------------------------------------- class

  /** The coalescer's fields; each method is one section under its mutex. */
  class SharedCalls {
    var calls: seq<Call>
    var current: map<Key, nat>
    var closed: bool
    ghost var callers: seq<Caller>

    ghost function View(): State
      reads this
    {
      State(calls, current, callers, closed)
    }

    constructor ()
      ensures View() == START && Inv(View())
    {
      calls, current, closed, callers := [], map[], false, [];
    }

    method Enter(key: Key, disposable: bool) returns (id: nat, ok: bool)
      requires Inv(View())
      modifies this
      ensures View() == Join(old(View()), key, disposable) && Inv(View())
      ensures ok == !old(closed) && (ok ==> View().callers[|old(callers)|] == Waiting(id))
    {
      JoinKeeps(View(), key, disposable);
      ok, id := !closed, 0;
      if closed {
        callers := callers + [Rejected];
        return;
      }
      if key !in current {
        id := |calls|;
        calls := calls + [Call(key, 0, false, false, false, Failure, disposable, false, 0)];
        current := current[key := id];
      } else {
        id := current[key];
      }
      calls := calls[id := calls[id].(waiters := calls[id].waiters + 1)];
      callers := callers + [Waiting(id)];
    }

    method Publish(id: nat, ok: bool, value: Payload) returns (dispose: bool)
      requires Inv(View()) && id < |calls| && !calls[id].completed
      modifies this
      ensures View() == FinishCall(old(View()), id, ok, value) && Inv(View())
      ensures calls[id].disposals == old(calls[id].disposals) + if dispose then 1 else 0
    {
      FinishKeeps(View(), id, ok, value);
      hide Inv;
      var call := calls[id];
      dispose := !call.claimed && ok && call.disposable && (call.waiters == 0 || closed);
      if call.key in current && current[call.key] == id {
        current := current - {call.key};
      }
      calls := calls[id := call.(completed := true, succeeded := ok,
        published := if closed then Closed else if ok then Success(value) else Failure,
        late := closed && call.waiters > 0, disposals := call.disposals + if dispose then 1 else 0)];
    }

    method Release(ghost caller: nat, id: nat) returns (dispose: bool)
      requires Inv(View()) && caller < |callers| && callers[caller] == Waiting(id)
      modifies this
      ensures old(id < |calls|) && View() == Leave(old(View()), caller) && Inv(View())
      ensures calls[id].disposals == old(calls[id].disposals) + if dispose then 1 else 0
    {
      LeaveKeeps(View(), caller);
      hide Inv;
      var call := calls[id].(waiters := calls[id].waiters - 1);
      dispose := false;
      var left := current;
      if call.waiters == 0 {
        if !call.completed {
          if call.key in current && current[call.key] == id {
            left := current - {call.key};
          }
        } else if !call.claimed && call.succeeded {
          dispose := call.disposable;
        }
      }
      var done := call.(disposals := call.disposals + if dispose then 1 else 0);
      assert State(calls[id := done], left, callers[caller := Left(id)], closed) == Leave(View(), caller);
      hide Leave;
      calls, current, callers := calls[id := done], left, callers[caller := Left(id)];
    }
  }
}
