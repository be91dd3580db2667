/**
 The coalescer over whole runs, in terms of the steps taken: whom a caller shares a call with,
 and what it is told.
 */
module CoalescerRuns {
  import opened Coalescer

  // ------------------------------------------------------------------- runs in two parts

  lemma {:induction false} RunSplit(s: State, steps: seq<Step>, k: nat)
    requires CanRun(s, steps) && k <= |steps|
    ensures CanRun(s, steps[..k]) && CanRun(Run(s, steps[..k]), steps[k..])
    ensures Run(Run(s, steps[..k]), steps[k..]) == Run(s, steps)
    decreases k
  {
    hide Apply, Enabled;
    if k == 0 {
      assert steps[..0] == [] && steps[0..] == steps;
    } else {
      RunSplit(Apply(s, steps[0]), steps[1..], k - 1);
      assert steps[..k][0] == steps[0] && steps[..k][1..] == steps[1..][..k - 1] && steps[1..][k - 1..] == steps[k..];
    }
  }

  /** The state before step `k`. */
  function Before(steps: seq<Step>, k: nat): State
    requires CanRun(START, steps) && k <= |steps|
  {
    RunSplit(START, steps, k);
    Run(START, steps[..k])
  }

  /** Step `k` happens in the state before it, and the rest follows. */
  lemma StepAt(steps: seq<Step>, k: nat)
    requires CanRun(START, steps) && k < |steps|
    ensures Inv(Before(steps, k)) && Enabled(Before(steps, k), steps[k])
    ensures CanRun(Apply(Before(steps, k), steps[k]), steps[k + 1..])
    ensures Run(Apply(Before(steps, k), steps[k]), steps[k + 1..]) == Run(START, steps)
  {
    hide Apply, Enabled, Inv;
    RunSplit(START, steps, k);
    assert Inv(START) by { StartInv(); }
    RunKeeps(START, steps[..k]);
    assert steps[k..][0] == steps[k] && steps[k..][1..] == steps[k + 1..];
  }

  lemma StartInv()
    ensures Inv(START)
  {
  }

  lemma {:induction false} ClosedByStep(s: State, steps: seq<Step>)
    requires CanRun(s, steps)
    ensures Run(s, steps).closed <==> s.closed || Close in steps
    decreases |steps|
  {
    if steps != [] {
      ClosedByStep(Apply(s, steps[0]), steps[1..]);
      assert steps == [steps[0]] + steps[1..];
    }
  }

  // -------------------------------------------------------------------- what never changes

  /** Calls keep their key; a finished one keeps what it published. */
  ghost predicate CallsStay(s: State, r: State)
  {
    |s.calls| <= |r.calls|
    && forall id :: 0 <= id < |s.calls| ==>
         r.calls[id].key == s.calls[id].key
         && (s.calls[id].completed ==> r.calls[id].completed && r.calls[id].published == s.calls[id].published)
  }

  /** A caller stays with its call, and one that has returned stays as it is. */
  ghost predicate CallersStay(s: State, r: State)
  {
    |s.callers| <= |r.callers|
    && forall w :: 0 <= w < |s.callers| ==>
         if s.callers[w].Waiting? then !r.callers[w].Rejected? && r.callers[w].call == s.callers[w].call
         else r.callers[w] == s.callers[w]
  }

  lemma StepStays(s: State, step: Step)
    requires Enabled(s, step)
    ensures CallsStay(s, Apply(s, step)) && CallersStay(s, Apply(s, step))
  {
  }

  lemma {:induction false} RunStays(s: State, steps: seq<Step>)
    requires CanRun(s, steps)
    ensures CallsStay(s, Run(s, steps)) && CallersStay(s, Run(s, steps))
    decreases |steps|
  {
    hide Apply, Enabled;
    if steps != [] {
      StepStays(s, steps[0]);
      RunStays(Apply(s, steps[0]), steps[1..]);
    }
  }

  // -------------------------------------------------------------------------- what is said

  /** What callers of a call are to be told when its work ends: nothing but an error after Close. */
  function Told(closed: bool, ok: bool, value: Payload): Published
  {
    if closed then Closed else if ok then Success(value) else Failure
  }

  /**
   When step `k` ends the work of a call, with its value or an error, every caller of that call
   that has an answer has that value or error, or the closing error if Close came before.
   */
  lemma WorkDecides(steps: seq<Step>, k: nat)
    requires CanRun(START, steps) && k < |steps| && steps[k].Finish?
    ensures var s, f := Run(START, steps), steps[k]; var told := Told(Close in steps[..k], f.ok, f.value);
      f.call < |s.calls| && s.calls[f.call].completed && s.calls[f.call].published == told
      && forall w :: 0 <= w < |s.callers| && s.callers[w].Answered? && s.callers[w].call == f.call ==>
           s.callers[w].result == told
  {
    hide Inv, CanRun, Run;
    var f, s := steps[k], Run(START, steps);
    StepAt(steps, k);
    RunSplit(START, steps, k);
    ClosedByStep(START, steps[..k]);
    FinishPublishes(Before(steps, k), f.call, f.ok, f.value);
    RunStays(Apply(Before(steps, k), f), steps[k + 1..]);
    forall w | 0 <= w < |s.callers| && s.callers[w].Answered? && s.callers[w].call == f.call
      ensures s.callers[w].result == s.calls[f.call].published
    {
      AnswersArePublished(steps, w);
    }
  }

  lemma FinishPublishes(s: State, id: nat, ok: bool, value: Payload)
    requires Enabled(s, Finish(id, ok, value))
    ensures var r := Apply(s, Finish(id, ok, value));
      id < |r.calls| && r.calls[id].completed && r.calls[id].published == Told(s.closed, ok, value)
  {
  }

  /** Only the end of its work completes a call. */
  lemma {:induction false} CompletedByWork(s: State, steps: seq<Step>, id: nat) returns (k: nat)
    requires CanRun(s, steps) && id < |Run(s, steps).calls| && Run(s, steps).calls[id].completed
    requires id < |s.calls| ==> !s.calls[id].completed
    ensures k < |steps| && steps[k].Finish? && steps[k].call == id
    decreases |steps|
  {
    if steps == [] {
      assert false;
    } else if steps[0].Finish? && steps[0].call == id {
      k := 0;
    } else {
      NotCompletedYet(s, steps[0], id);
      k := CompletedByWork(Apply(s, steps[0]), steps[1..], id);
      k := k + 1;
    }
  }

  lemma NotCompletedYet(s: State, step: Step, id: nat)
    requires Enabled(s, step) && (id < |s.calls| ==> !s.calls[id].completed) && !(step.Finish? && step.call == id)
    ensures var r := Apply(s, step); id < |r.calls| ==> !r.calls[id].completed
  {
  }

  /** Every answer is the outcome of some work on that call, as `WorkDecides` says. */
  lemma AnswerHasWork(steps: seq<Step>, w: nat) returns (k: nat)
    requires CanRun(START, steps) && w < |Run(START, steps).callers| && Run(START, steps).callers[w].Answered?
    ensures k < |steps| && steps[k].Finish? && steps[k].call == Run(START, steps).callers[w].call
    ensures Run(START, steps).callers[w].result == Told(Close in steps[..k], steps[k].ok, steps[k].value)
  {
    hide Run, CanRun;
    AnswersArePublished(steps, w);
    k := CompletedByWork(START, steps, Run(START, steps).callers[w].call);
    WorkDecides(steps, k);
  }

  /** A caller that takes the result is answered with it, one whose context ended is gone without it. */
  lemma ReturnsAsItLeft(steps: seq<Step>, k: nat)
    requires CanRun(START, steps) && k < |steps|
    ensures var s, t := Run(START, steps), Before(steps, k);
      (steps[k].Claim? ==>
         var w := steps[k].caller;
         w < |s.callers| && w < |t.callers| && t.callers[w].Waiting? && s.callers[w].Answered?
         && s.callers[w].call == t.callers[w].call)
      && (steps[k].Cancel? ==>
         var w := steps[k].caller;
         w < |s.callers| && w < |t.callers| && t.callers[w].Waiting? && s.callers[w] == Left(t.callers[w].call))
  {
    hide Run, CanRun, Inv;
    StepAt(steps, k);
    RunStays(Apply(Before(steps, k), steps[k]), steps[k + 1..]);
  }

  // ------------------------------------------------------------------------- who shares

  /** The call of a caller's own key is the one it joins, and only an open coalescer takes it. */
  lemma JoinsOwnKey(steps: seq<Step>, k: nat)
    requires CanRun(START, steps) && k < |steps| && steps[k].Do?
    ensures var s, w := Run(START, steps), |Before(steps, k).callers|;
      w < |s.callers|
      && (s.callers[w].Rejected? <==> Close in steps[..k])
      && (!s.callers[w].Rejected? ==> s.callers[w].call < |s.calls| && s.calls[s.callers[w].call].key == steps[k].key)
  {
    hide Run, CanRun;
    StepAt(steps, k);
    RunSplit(START, steps, k);
    ClosedByStep(START, steps[..k]);
    RunStays(Apply(Before(steps, k), steps[k]), steps[k + 1..]);
  }

  /**
   A caller shares the call of every caller of its key that still waits for unfinished work
   when it comes, and starts a new call if there is none.
   */
  lemma SharesTheCall(steps: seq<Step>, k: nat)
    requires CanRun(START, steps) && k < |steps| && steps[k].Do? && Close !in steps[..k]
    ensures var s, t := Run(START, steps), Before(steps, k); var w := |t.callers|;
      w < |s.callers| && !s.callers[w].Rejected?
      && (forall v :: 0 <= v < |t.callers| && Lives(t, steps[k].key, v) ==> s.callers[w].call == t.callers[v].call)
      && ((forall v :: 0 <= v < |t.callers| ==> !Lives(t, steps[k].key, v)) ==> s.callers[w].call == |t.calls|)
  {
    hide Run, CanRun;
    var t := Before(steps, k);
    StepAt(steps, k);
    RunSplit(START, steps, k);
    ClosedByStep(START, steps[..k]);
    var r := Apply(t, steps[k]);
    RunStays(r, steps[k + 1..]);
    var key, w := steps[k].key, |t.callers|;
    forall v | 0 <= v < |t.callers| && Lives(t, key, v) ensures key in t.current && t.current[key] == t.callers[v].call {
      assert CallerOk(t, t.callers[v]) && CallOk(t, t.callers[v].call);
      JoinedSome(t.callers, v);
    }
    if key in t.current {
      assert CallOk(t, t.current[key]);
      var v := SomeoneJoined(t.callers, t.current[key]);
      assert Lives(t, key, v);
    }
  }

  /** Caller `v` waits for unfinished work of `key`. */
  predicate Lives(s: State, key: Key, v: nat)
    requires v < |s.callers|
  {
    s.callers[v].Waiting? && s.callers[v].call < |s.calls|
    && s.calls[s.callers[v].call].key == key && !s.calls[s.callers[v].call].completed
  }

  lemma {:induction false} SomeoneJoined(callers: seq<Caller>, id: nat) returns (v: nat)
    requires Joined(callers, id) >= 1
    ensures v < |callers| && callers[v] == Waiting(id)
  {
    var last := |callers| - 1;
    if callers[last] == Waiting(id) {
      v := last;
    } else {
      v := SomeoneJoined(callers[..last], id);
    }
  }

  /** Callers of one key that wait for unfinished work wait for the same work. */
  lemma OneCallPerKey(steps: seq<Step>, v: nat, w: nat, key: Key)
    requires CanRun(START, steps) && v < |Run(START, steps).callers| && w < |Run(START, steps).callers|
    requires Lives(Run(START, steps), key, v) && Lives(Run(START, steps), key, w)
    ensures Run(START, steps).callers[v].call == Run(START, steps).callers[w].call
  {
    hide Run, CanRun;
    StartInv();
    RunKeeps(START, steps);
    var s := Run(START, steps);
    assert CallOk(s, s.callers[v].call) && CallOk(s, s.callers[w].call);
    JoinedSome(s.callers, v);
    JoinedSome(s.callers, w);
  }
}
