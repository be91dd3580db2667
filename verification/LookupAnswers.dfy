/**
 Why every lookup task ends as it does: over any run, the first step that decides a task says
 whether it gets an answer, which one, or for what reason it fails.
 */
module LookupAnswers {
  import opened LookupRuns

  // --------------------------------------------------------------------- no task twice

  /** Tasks of a list are in the order they were accepted, so none is there twice. */
  predicate Ascending(ids: seq<Id>)
  {
    forall i, j :: 0 <= i < j < |ids| ==> ids[i] < ids[j]
  }

  ghost predicate AllAscending(s: System)
  {
    (forall g :: g in s.groups ==> Ascending(s.groups[g]))
    && (s.phase.Sending? ==> Ascending(s.phase.tasks))
    && (forall k :: 0 <= k < |s.jobs| ==> Ascending(s.jobs[k].tasks))
    && (forall k :: 0 <= k < |s.running| ==> Ascending(s.running[k].tasks))
  }

  lemma {:induction false} ActiveAscends(ids: seq<Id>, gone: set<Id>)
    requires Ascending(ids)
    ensures Ascending(Active(ids, gone))
  {
    if ids != [] {
      ActiveAscends(ids[1..], gone);
      ActiveOrGone(ids[1..], gone);
      var rest := Active(ids[1..], gone);
      forall k | 0 <= k < |rest| ensures ids[0] < rest[k] {
        assert rest[k] in ids[1..];
      }
    }
  }

  lemma AddedAscends(s: System)
    requires Sorted(s) && s.taken < |s.accepted| && AllAscending(s)
    ensures Ascending(InGroup(s, s.accepted[s.taken].group) + [s.taken])
  {
    var g := s.accepted[s.taken].group;
    var ids := InGroup(s, g);
    if g in s.groups {
      assert Belongs(s, g, s.groups[g]);
    }
    assert forall k :: 0 <= k < |ids| ==> ids[k] in ids;
  }

  lemma StepAscends(c: Config, s: System, step: Step)
    requires Enabled(c, s, step) && Sorted(s) && AllAscending(s)
    ensures AllAscending(Apply(c, s, step))
  {
    hide FailAll, AnswerEach, Replies, Complete, Sorted, TakeOne, SendBatch, StartBatch, FinishBatch, Ascending;
    match step {
      case Take(cancelled) => TakeAscends(c, s, cancelled);
      case Send => SendAscends(c, s);
      case Tick(g) => assert Ascending(s.groups[g]);
      case NextGroup(g) => NextAscends(s, g);
      case Abort => OnlyResults(s, s.phase.tasks[..Min(c.maxBatchKeys, |s.phase.tasks|)]);
      case ShutGroup(g) => OnlyResults(s, s.groups[g]);
      case DrainOne => CompleteOne(s.(taken := s.taken + 1), s.taken, Error);
      case StartWork(gone) => StartAscends(s, gone);
      case FinishWork(w, ok, answers) => FinishAscends(s, w, ok, answers);
      case _ =>
    }
  }

  lemma SendAscends(c: Config, s: System)
    requires s.phase.Sending? && AllAscending(s)
    ensures AllAscending(SendBatch(c, s))
  {
    var count := Min(c.maxBatchKeys, |s.phase.tasks|);
    assert Ascending(s.phase.tasks[..count]) && Ascending(s.phase.tasks[count..]);
    hide Ascending;
  }

  lemma NextAscends(s: System, g: Group)
    requires s.phase.Sending? && AllAscending(s)
    ensures var t := s.(groups := s.groups - {s.phase.group});
      AllAscending(t.(phase := Sending(g, InGroup(t, g), s.phase.todo - {g})))
  {
  }

  lemma TakeAscends(c: Config, s: System, cancelled: bool)
    requires s.taken < |s.accepted| && Sorted(s) && AllAscending(s)
    ensures AllAscending(TakeOne(c, s, cancelled))
  {
    hide Sorted;
    AddedAscends(s);
  }

  lemma StartAscends(s: System, gone: set<Id>)
    requires s.jobs != [] && AllAscending(s)
    ensures AllAscending(StartBatch(s, gone))
  {
    hide FailAll, Active, Gone, KeysOf, Ascending;
    OnlyResults(s, Gone(s.jobs[0].tasks, gone));
    ActiveAscends(s.jobs[0].tasks, gone);
  }

  lemma FinishAscends(s: System, w: nat, ok: bool, answers: seq<Answer>)
    requires w < |s.running| && AllAscending(s)
    ensures AllAscending(FinishBatch(s, w, ok, answers))
  {
    hide FailAll, AnswerEach, Replies, Ascending;
    var work := s.running[w];
    var m := if ok then s.(said := s.said + Replies(work.group, work.keys, answers)) else s;
    if ok && |answers| == |work.tasks| {
      AnswerEachCompletes(m, work.tasks, answers);
    } else {
      FailAllCompletes(m, work.tasks);
    }
  }

  // ------------------------------------------------------------------------- one request

  /**
   A reply with one answer for every key sent gives the k-th waiting task the k-th answer,
   unless that task was completed before; an error or any other number of answers fails them.
   */
  lemma ReplyReachesTasks(s: System, w: nat, ok: bool, answers: seq<Answer>, k: nat)
    requires w < |s.running| && AllAscending(s) && Matched(s.accepted, s.running[w])
    requires k < |s.running[w].tasks| && s.running[w].tasks[k] !in s.completed
    ensures var id := s.running[w].tasks[k]; var r := FinishBatch(s, w, ok, answers);
      id in r.completed
      && r.completed[id] == if ok && |answers| == |s.running[w].keys| then Value(answers[k]) else Error
  {
    hide FailAll, AnswerEach, Replies;
    var work := s.running[w];
    var m := if ok then s.(said := s.said + Replies(work.group, work.keys, answers)) else s;
    assert work.tasks[k] in work.tasks && Ascending(work.tasks);
    if ok && |answers| == |work.tasks| {
      AnswerEachCompletes(m, work.tasks, answers);
    } else {
      FailAllCompletes(m, work.tasks);
    }
  }

  // ------------------------------------------------------------------------------ causes

  /** What decides a task: its caller was gone, the scheduler closed, its request failed, or an answer. */
  datatype Cause = CallerGone | Closing | RequestFailed | GotAnswer(answer: Answer)

  datatype Option = None | Some(cause: Cause)

  function ResultOf(cause: Cause): Result
  {
    if cause.GotAnswer? then Value(cause.answer) else Error
  }

  function IndexOf(ids: seq<Id>, id: Id): (k: nat)
    requires id in ids
    ensures k < |ids| && ids[k] == id
  {
    if ids[0] == id then 0 else 1 + IndexOf(ids[1..], id)
  }

  /** The tasks of the batch a closing scheduler could not send. */
  function Unsent(c: Config, s: System): seq<Id>
  {
    if s.phase.Sending? then s.phase.tasks[..Min(c.maxBatchKeys, |s.phase.tasks|)] else []
  }

  /** Whether a step decides a task, and how. */
  function Decides(c: Config, s: System, step: Step, id: Id): Option
  {
    match step
    case Take(cancelled) => if cancelled && id == s.taken then Some(CallerGone) else None
    case StartWork(gone) => if s.jobs != [] && id in s.jobs[0].tasks && id in gone then Some(CallerGone) else None
    case FinishWork(w, ok, answers) =>
      if w < |s.running| && id in s.running[w].tasks then
        if ok && |answers| == |s.running[w].keys| && |answers| == |s.running[w].tasks|
        then Some(GotAnswer(answers[IndexOf(s.running[w].tasks, id)]))
        else Some(RequestFailed)
      else None
    case Abort => if id in Unsent(c, s) then Some(Closing) else None
    case ShutGroup(g) => if g in s.groups && id in s.groups[g] then Some(Closing) else None
    case DrainOne => if id == s.taken then Some(Closing) else None
    case _ => None
  }

  /** `r` has the results of `s`, and of the others exactly those the step decides. */
  ghost predicate Decided(c: Config, s: System, step: Step, r: System)
  {
    forall id :: id in r.completed <==> id in s.completed || Decides(c, s, step, id).Some?
  }

  ghost predicate AsDecided(c: Config, s: System, step: Step, r: System)
  {
    forall id :: id in r.completed ==>
      if id in s.completed then r.completed[id] == s.completed[id]
      else Decides(c, s, step, id).Some? && r.completed[id] == ResultOf(Decides(c, s, step, id).cause)
  }

  lemma {:induction false} GoneIs(ids: seq<Id>, gone: set<Id>)
    ensures forall id :: id in Gone(ids, gone) <==> id in ids && id in gone
  {
    if ids != [] {
      GoneIs(ids[1..], gone);
      assert ids == [ids[0]] + ids[1..];
    }
  }

  lemma FinishDecides(c: Config, s: System, w: nat, ok: bool, answers: seq<Answer>, r: System)
    requires w < |s.running| && AllAscending(s) && Matched(s.accepted, s.running[w])
    requires r == FinishBatch(s, w, ok, answers)
    ensures Decided(c, s, FinishWork(w, ok, answers), r) && AsDecided(c, s, FinishWork(w, ok, answers), r)
  {
    hide FailAll, AnswerEach, Replies, Ascending, Matched;
    var work := s.running[w];
    assert |work.keys| == |work.tasks| by { MatchedSizes(s.accepted, work); }
    var m := if ok then s.(said := s.said + Replies(work.group, work.keys, answers)) else s;
    if ok && |answers| == |work.tasks| {
      AnswerEachCompletes(m, work.tasks, answers);
    } else {
      FailAllCompletes(m, work.tasks);
    }
    forall id | id in r.completed && id !in s.completed
      ensures id in work.tasks && r.completed[id] == ResultOf(Decides(c, s, FinishWork(w, ok, answers), id).cause)
    {
      ReplyReachesTasks(s, w, ok, answers, IndexOf(work.tasks, id));
    }
  }

  lemma MatchedSizes(accepted: seq<Task>, work: Work)
    requires Matched(accepted, work)
    ensures |work.keys| == |work.tasks|
  {
  }

  lemma FailedDecides(c: Config, s: System, step: Step, ids: seq<Id>, r: System)
    requires r.completed == FailAll(s, ids).completed
    requires forall id :: Decides(c, s, step, id).Some? <==> id in ids
    requires forall id :: Decides(c, s, step, id).Some? ==> !Decides(c, s, step, id).cause.GotAnswer?
    ensures Decided(c, s, step, r) && AsDecided(c, s, step, r)
  {
    hide Decides;
    FailAllCompletes(s, ids);
  }

  lemma OneDecides(c: Config, s: System, step: Step, m: System, id: Id, r: System)
    requires m.completed == s.completed && r.completed == Complete(m, id, Error).completed
    requires forall x :: Decides(c, s, step, x).Some? <==> x == id
    requires forall x :: Decides(c, s, step, x).Some? ==> !Decides(c, s, step, x).cause.GotAnswer?
    ensures Decided(c, s, step, r) && AsDecided(c, s, step, r)
  {
    hide Decides;
  }

  lemma NothingDecided(c: Config, s: System, step: Step, r: System)
    requires r.completed == s.completed && forall x :: Decides(c, s, step, x).None?
    ensures Decided(c, s, step, r) && AsDecided(c, s, step, r)
  {
    hide Decides;
  }

  /** Every step completes the tasks it decides, those only, and as it decides. */
  lemma StepDecides(c: Config, s: System, step: Step)
    requires Enabled(c, s, step) && AllAscending(s)
    requires forall k :: 0 <= k < |s.running| ==> Matched(s.accepted, s.running[k])
    ensures Decided(c, s, step, Apply(c, s, step)) && AsDecided(c, s, step, Apply(c, s, step))
  {
    hide FailAll, AnswerEach, Active, Gone, Replies, KeysOf, Complete, FinishBatch, AllAscending, Matched, Decided, AsDecided;
    var r := Apply(c, s, step);
    match step {
      case Take(cancelled) =>
        if cancelled {
          OneDecides(c, s, step, s.(taken := s.taken + 1), s.taken, r);
        } else {
          NothingDecided(c, s, step, r);
        }
      case Abort => FailedDecides(c, s, step, Unsent(c, s), r);
      case ShutGroup(g) => FailedDecides(c, s, step, s.groups[g], r);
      case DrainOne => OneDecides(c, s, step, s.(taken := s.taken + 1), s.taken, r);
      case StartWork(gone) =>
        GoneIs(s.jobs[0].tasks, gone);
        FailedDecides(c, s, step, Gone(s.jobs[0].tasks, gone), r);
      case FinishWork(w, ok, answers) => FinishDecides(c, s, w, ok, answers, r);
      case _ => NothingDecided(c, s, step, r);
    }
  }

  // ------------------------------------------------------------------------- whole runs

  /** What first decides a task in a run from `s`. */
  function FirstCause(c: Config, s: System, steps: seq<Step>, id: Id): Option
    requires CanRun(c, s, steps)
    decreases |steps|
  {
    if steps == [] then None
    else if Decides(c, s, steps[0], id).Some? then Decides(c, s, steps[0], id)
    else FirstCause(c, Apply(c, s, steps[0]), steps[1..], id)
  }

  lemma ReachedFormed(c: Config, s: System)
    requires Inv(c, s)
    ensures Sorted(s) && forall k :: 0 <= k < |s.running| ==> Matched(s.accepted, s.running[k])
  {
    hide Sorted, Covered, Slotted, Truthful, Phased, Matched;
  }

  lemma {:induction false} RunDecides(c: Config, s: System, steps: seq<Step>, id: Id)
    requires CanRun(c, s, steps) && Inv(c, s) && AllAscending(s)
    ensures var r := Run(c, s, steps);
      if id in s.completed then id in r.completed && r.completed[id] == s.completed[id]
      else
        var cause := FirstCause(c, s, steps, id);
        (id in r.completed <==> cause.Some?) && (cause.Some? ==> r.completed[id] == ResultOf(cause.cause))
    decreases |steps|
  {
    hide Inv, Apply, Enabled, AllAscending, Decides, Sorted, Matched, ResultOf;
    if steps != [] {
      var step := steps[0];
      ReachedFormed(c, s);
      StepKeeps(c, s, step);
      StepAscends(c, s, step);
      StepDecides(c, s, step);
      RunDecides(c, Apply(c, s, step), steps[1..], id);
    }
  }

  /**
   In every run, a task is completed if and only if some step decides it, with the answer or
   the error of the first one that does: an answer of its own request, or an error because its
   caller was gone, its request failed or was answered with another number of answers, or the
   scheduler was closing.
   */
  lemma EveryResultHasItsCause(c: Config, steps: seq<Step>, id: Id)
    requires ValidConfig(c) && CanRun(c, START, steps)
    ensures var r, cause := Run(c, START, steps), FirstCause(c, START, steps, id);
      (id in r.completed <==> cause.Some?) && (cause.Some? ==> r.completed[id] == ResultOf(cause.cause))
    ensures FirstCause(c, START, steps, id) == Some(Closing) ==> Close in steps
  {
    hide Run, CanRun, Inv, FirstCause, ResultOf;
    StartInv(c);
    RunDecides(c, START, steps, id);
    if FirstCause(c, START, steps, id) == Some(Closing) {
      ClosingNeedsClose(c, START, steps, id);
    }
  }

  /** Only a closing scheduler fails tasks for closing. */
  lemma {:induction false} ClosingNeedsClose(c: Config, s: System, steps: seq<Step>, id: Id)
    requires CanRun(c, s, steps) && Inv(c, s) && FirstCause(c, s, steps, id) == Some(Closing)
    ensures s.closed || Close in steps
    decreases |steps|
  {
    hide Inv, Apply, Sorted, Covered, Slotted, Truthful, Formed;
    var step := steps[0];
    assert step in steps;
    if Decides(c, s, step, id).Some? {
      ClosingIsClosed(c, s, step, id);
    } else {
      StepKeeps(c, s, step);
      ClosingNeedsClose(c, Apply(c, s, step), steps[1..], id);
      if Close !in steps[1..] {
        ClosedByClose(c, s, step);
      }
    }
  }

  lemma ClosingIsClosed(c: Config, s: System, step: Step, id: Id)
    requires Enabled(c, s, step) && Inv(c, s) && Decides(c, s, step, id) == Some(Closing)
    ensures s.closed
  {
    hide Sorted, Covered, Slotted, Truthful, Formed;
  }

  lemma ClosedByClose(c: Config, s: System, step: Step)
    requires Enabled(c, s, step) && Apply(c, s, step).closed
    ensures s.closed || step == Close
  {
    hide FailAll, AnswerEach, Active, Gone, Replies, KeysOf;
    match step {
      case Abort => OnlyResults(s, Unsent(c, s));
      case ShutGroup(g) => OnlyResults(s, s.groups[g]);
      case StartWork(_) | FinishWork(_, _, _) => WorkersLeaveTable(c, s, step);
      case _ =>
    }
  }

  // ----------------------------------------------------------------------- full batches

  /** A group that is full, or any group without a batch timeout, is being sent. */
  ghost predicate Prompt(c: Config, s: System)
  {
    s.phase.Idle? || s.phase.Sending? ==>
      forall g :: g in s.groups && !(s.phase.Sending? && g == s.phase.group) ==>
        |s.groups[g]| < c.maxBatchKeys && !c.immediate
  }

  lemma StepPrompt(c: Config, s: System, step: Step)
    requires Enabled(c, s, step) && Prompt(c, s)
    ensures Prompt(c, Apply(c, s, step))
  {
    hide FailAll, AnswerEach, Active, Gone, Replies, KeysOf, Complete;
    match step {
      case Take(cancelled) =>
        if cancelled {
          CompleteOne(s.(taken := s.taken + 1), s.taken, Error);
        }
      case Abort => OnlyResults(s, Unsent(c, s));
      case ShutGroup(g) => OnlyResults(s, s.groups[g]);
      case DrainOne => CompleteOne(s.(taken := s.taken + 1), s.taken, Error);
      case StartWork(_) | FinishWork(_, _, _) => WorkersLeaveTable(c, s, step);
      case _ =>
    }
  }

  /** Workers touch neither the scheduler's groups nor its phase. */
  lemma WorkersLeaveTable(c: Config, s: System, step: Step)
    requires Enabled(c, s, step) && (step.StartWork? || step.FinishWork?)
    ensures var r := Apply(c, s, step); r.groups == s.groups && r.phase == s.phase && r.closed == s.closed
  {
    hide FailAll, AnswerEach, Active, Gone, Replies, KeysOf;
    if step.StartWork? {
      OnlyResults(s, Gone(s.jobs[0].tasks, step.gone));
    } else {
      var work, answers := s.running[step.worker], step.answers;
      var m := if step.ok then s.(said := s.said + Replies(work.group, work.keys, answers)) else s;
      if step.ok && |answers| == |work.tasks| {
        AnswerEachCompletes(m, work.tasks, answers);
      } else {
        OnlyResults(m, work.tasks);
      }
    }
  }

  lemma {:induction false} RunPrompt(c: Config, s: System, steps: seq<Step>)
    requires CanRun(c, s, steps) && Prompt(c, s)
    ensures Prompt(c, Run(c, s, steps))
    decreases |steps|
  {
    hide Apply, Enabled, Prompt;
    if steps != [] {
      StepPrompt(c, s, steps[0]);
      RunPrompt(c, Apply(c, s, steps[0]), steps[1..]);
    }
  }

  /** An idle scheduler holds back no full group, and nothing at all without a batch timeout. */
  lemma IdleHoldsNoFullGroup(c: Config, steps: seq<Step>, g: Group)
    requires CanRun(c, START, steps) && Run(c, START, steps).phase.Idle? && g in Run(c, START, steps).groups
    ensures |Run(c, START, steps).groups[g]| < c.maxBatchKeys && !c.immediate
  {
    hide Run, CanRun;
    RunPrompt(c, START, steps);
  }

  // -------------------------------------------------------------------------- the timer

  /** What a timer tick has begun: all groups in the table are being sent or still to be sent. */
  ghost predicate Sweeping(s: System)
  {
    (s.phase.Sending? ==> s.groups.Keys == s.phase.todo + {s.phase.group} && s.phase.group !in s.phase.todo)
    && (s.phase.Idle? ==> s.groups == map[])
  }

  lemma StepSweeps(c: Config, s: System, step: Step)
    requires Enabled(c, s, step) && !step.Take? && Sweeping(s)
    ensures Sweeping(Apply(c, s, step))
  {
    hide FailAll, AnswerEach, Complete, StartBatch, FinishBatch, SendBatch;
    match step {
      case Send => SendLeavesTable(c, s);
      case Abort => OnlyResults(s, Unsent(c, s));
      case ShutGroup(g) => OnlyResults(s, s.groups[g]);
      case DrainOne => CompleteOne(s.(taken := s.taken + 1), s.taken, Error);
      case StartWork(_) | FinishWork(_, _, _) => WorkersLeaveTable(c, s, step);
      case NextGroup(_) | EndSending => assert (s.groups - {s.phase.group}).Keys == s.phase.todo;
      case _ =>
    }
  }

  lemma SendLeavesTable(c: Config, s: System)
    requires s.phase.Sending?
    ensures var r := SendBatch(c, s);
      r.groups == s.groups && r.phase.Sending? && r.phase.group == s.phase.group && r.phase.todo == s.phase.todo
  {
  }

  lemma {:induction false} RunSweeps(c: Config, s: System, steps: seq<Step>)
    requires CanRun(c, s, steps) && Sweeping(s) && forall i :: 0 <= i < |steps| ==> !steps[i].Take?
    ensures Sweeping(Run(c, s, steps))
    decreases |steps|
  {
    hide Apply, Enabled, Sweeping;
    if steps != [] {
      StepSweeps(c, s, steps[0]);
      RunSweeps(c, Apply(c, s, steps[0]), steps[1..]);
    }
  }

  /**
   From a timer tick to the next task taken, whatever callers and workers do meanwhile: when the
   scheduler is idle again, every group that was in the table has been sent.
   */
  lemma TickSendsAll(c: Config, s: System, g: Group, steps: seq<Step>)
    requires Enabled(c, s, Tick(g)) && CanRun(c, Apply(c, s, Tick(g)), steps)
    requires forall i :: 0 <= i < |steps| ==> !steps[i].Take?
    ensures var r := Run(c, Apply(c, s, Tick(g)), steps); r.phase.Idle? ==> r.groups == map[]
    ensures Apply(c, s, Tick(g)).phase == Sending(g, s.groups[g], s.groups.Keys - {g})
  {
    hide Run, CanRun;
    RunSweeps(c, Apply(c, s, Tick(g)), steps);
  }
}
