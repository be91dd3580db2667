/**
 Closing the lookup scheduler: whatever order the scheduler and its workers take their steps
 in, a closed scheduler never gets stuck and stops after finitely many of them.
 */
module LookupShutdown {
  import opened LookupRuns

  /** Steps of callers; all others are the scheduler's and its workers'. */
  predicate ByCaller(step: Step)
  {
    step.Reserve? || step.Accept? || step.Bounce? || step.Close?
  }

  function PhaseRank(phase: Phase): nat
  {
    match phase
    case Idle => 5
    case Sending(_, _, _) => 4
    case Shutting => 3
    case Draining => 2
    case Joining => 1
    case Stopped => 0
  }

  function LeftToSend(phase: Phase): nat
  {
    if phase.Sending? then |phase.tasks| else 0
  }

  /** What is left to do, the parts that may refill later ones first. */
  datatype Rank = Rank(queued: nat, groups: nat, phase: nat, sending: nat, jobs: nat, running: nat)

  function RankOf(s: System): Rank
    requires s.taken <= |s.accepted|
  {
    Rank(|s.accepted| - s.taken, |s.groups.Keys|, PhaseRank(s.phase), LeftToSend(s.phase), |s.jobs|, |s.running|)
  }

  predicate Below(a: Rank, b: Rank)
  {
    a.queued < b.queued || (a.queued == b.queued
    && (a.groups < b.groups || (a.groups == b.groups
    && (a.phase < b.phase || (a.phase == b.phase
    && (a.sending < b.sending || (a.sending == b.sending
    && (a.jobs < b.jobs || (a.jobs == b.jobs && a.running < b.running)))))))))
  }

  lemma FewerGroups(groups: map<Group, seq<Id>>, g: Group)
    requires g in groups
    ensures |(groups - {g}).Keys| < |groups.Keys|
  {
    assert (groups - {g}).Keys == groups.Keys - {g};
  }

  /** On a closed scheduler every step of its own makes the rank smaller. */
  lemma OwnStepSinks(c: Config, s: System, step: Step)
    requires Enabled(c, s, step) && !ByCaller(step) && s.closed && Inv(c, s)
    ensures var r := Apply(c, s, step); r.closed && r.taken <= |r.accepted| && Below(RankOf(r), RankOf(s))
  {
    assert s.taken <= |s.accepted| && Phased(s) && c.maxBatchKeys >= 1;
    hide Inv;
    var r := Apply(c, s, step);
    if step.StartWork? || step.FinishWork? {
      WorkerStepSinks(c, s, step, r);
    } else if s.phase.Sending? {
      SendingStepSinks(c, s, step, r);
    } else {
      SchedulerStepSinks(c, s, step, r);
    }
  }

  lemma WorkerStepSinks(c: Config, s: System, step: Step, r: System)
    requires Enabled(c, s, step) && (step.StartWork? || step.FinishWork?) && r == Apply(c, s, step)
    requires s.closed && s.taken <= |s.accepted|
    ensures r.closed && r.taken <= |r.accepted| && Below(RankOf(r), RankOf(s))
  {
    hide FailAll, AnswerEach, Active, Gone, Replies, KeysOf;
    if step.StartWork? {
      OnlyResults(s, Gone(s.jobs[0].tasks, step.gone));
    } else {
      var work, answers := s.running[step.worker], step.answers;
      var m := if step.ok then s.(said := s.said + Replies(work.group, work.keys, answers)) else s;
      if step.ok && |answers| == |work.tasks| {
        AnswerEachCompletes(m, work.tasks, answers);
      } else {
        OnlyResults(m, work.tasks);
      }
    }
  }

  lemma SendingStepSinks(c: Config, s: System, step: Step, r: System)
    requires Enabled(c, s, step) && s.phase.Sending? && r == Apply(c, s, step)
    requires !ByCaller(step) && !step.StartWork? && !step.FinishWork?
    requires s.closed && s.taken <= |s.accepted| && Phased(s) && c.maxBatchKeys >= 1
    ensures r.closed && r.taken <= |r.accepted| && Below(RankOf(r), RankOf(s))
  {
    hide FailAll;
    if step.Abort? {
      OnlyResults(s, s.phase.tasks[..Min(c.maxBatchKeys, |s.phase.tasks|)]);
    } else if !step.Send? {
      FewerGroups(s.groups, s.phase.group);
    }
  }

  lemma TakeSinks(c: Config, s: System, cancelled: bool)
    requires s.taken < |s.accepted|
    ensures var r := TakeOne(c, s, cancelled);
      r.closed == s.closed && r.accepted == s.accepted && r.taken == s.taken + 1
  {
  }

  lemma DrainSinks(s: System)
    ensures var r := Complete(s.(taken := s.taken + 1), s.taken, Error);
      r.closed == s.closed && r.accepted == s.accepted && r.taken == s.taken + 1
  {
  }

  lemma ShutSinks(c: Config, s: System, g: Group)
    requires s.phase.Shutting? && g in s.groups && s.closed && s.taken <= |s.accepted|
    ensures var r := FailAll(s, s.groups[g]).(groups := s.groups - {g});
      r.closed && r.taken <= |r.accepted| && Below(RankOf(r), RankOf(s))
  {
    hide FailAll;
    OnlyResults(s, s.groups[g]);
    FewerGroups(s.groups, g);
  }

  lemma SchedulerStepSinks(c: Config, s: System, step: Step, r: System)
    requires Enabled(c, s, step) && !s.phase.Sending? && r == Apply(c, s, step)
    requires !ByCaller(step) && !step.StartWork? && !step.FinishWork?
    requires s.closed && s.taken <= |s.accepted|
    ensures r.closed && r.taken <= |r.accepted| && Below(RankOf(r), RankOf(s))
  {
    hide FailAll, TakeOne, Complete;
    if step.Take? {
      TakeSinks(c, s, step.cancelled);
    } else if step.DrainOne? {
      DrainSinks(s);
    } else if step.ShutGroup? {
      ShutSinks(c, s, step.group);
    } else {
      PhaseSinks(c, s, step, r);
    }
  }

  lemma PhaseSinks(c: Config, s: System, step: Step, r: System)
    requires Enabled(c, s, step) && r == Apply(c, s, step)
    requires step.Tick? || step.Notice? || step.EndShutting? || step.CloseJobs? || step.Join?
    requires s.closed && s.taken <= |s.accepted|
    ensures r.closed && r.taken <= |r.accepted| && Below(RankOf(r), RankOf(s))
  {
    assert r == s.(phase := r.phase);
  }

  /** Callers of a closed scheduler cannot make its work grow. */
  lemma CallersAddNothing(c: Config, s: System, step: Step)
    requires Enabled(c, s, step) && ByCaller(step) && s.closed && s.taken <= |s.accepted|
    ensures var r := Apply(c, s, step); r.closed && r.taken <= |r.accepted| && RankOf(r) == RankOf(s)
  {
  }

  /** Until it has stopped, a closed scheduler has a step to take. */
  lemma ShutdownNeverStuck(c: Config, s: System) returns (step: Step)
    requires Inv(c, s) && s.closed && !s.phase.Stopped?
    ensures Enabled(c, s, step) && !ByCaller(step)
  {
    assert s.taken <= |s.accepted|;
    hide Covered, Slotted, Truthful, Formed, Sorted;
    match s.phase {
      case Idle => step := Notice;
      case Sending(_, tasks, todo) =>
        if tasks != [] {
          step := Abort;
        } else if todo == {} {
          step := EndSending;
        } else {
          var g :| g in todo;
          step := NextGroup(g);
        }
      case Shutting =>
        if s.groups == map[] {
          step := EndShutting;
        } else {
          var g :| g in s.groups;
          step := ShutGroup(g);
        }
      case Draining => step := if s.taken < |s.accepted| then DrainOne else CloseJobs;
      case Joining =>
        if s.running != [] {
          step := FinishWork(0, false, []);
        } else if s.jobs != [] {
          step := StartWork({});
        } else {
          step := Join;
        }
    }
  }

  /** A way of choosing the n-th step: any enabled step of the scheduler or its workers. */
  ghost predicate Chooses(c: Config, choose: (nat, System) -> Step)
  {
    forall n: nat, s :: Inv(c, s) && s.closed && !s.phase.Stopped? ==>
      Enabled(c, s, choose(n, s)) && !ByCaller(choose(n, s))
  }

  /**
   Whatever the choices, the chosen run from a closed scheduler reaches Stopped, with every
   accepted task completed.
   */
  lemma {:induction false} CloseFinishes(c: Config, s: System, choose: (nat, System) -> Step, n: nat)
    returns (steps: seq<Step>)
    requires Inv(c, s) && s.closed && Chooses(c, choose)
    ensures CanRun(c, s, steps) && Run(c, s, steps).phase.Stopped? && AllDone(Run(c, s, steps))
    ensures Follows(c, s, choose, n, steps)
    decreases RankOf(s).queued, RankOf(s).groups, RankOf(s).phase, RankOf(s).sending, RankOf(s).jobs, RankOf(s).running
  {
    hide Inv, Enabled, Apply, AllDone;
    if s.phase.Stopped? {
      steps := [];
      StoppedIsDone(c, s);
    } else {
      var step := choose(n, s);
      StepKeeps(c, s, step);
      OwnStepSinks(c, s, step);
      var rest := CloseFinishes(c, Apply(c, s, step), choose, n + 1);
      steps := [step] + rest;
      assert steps[1..] == rest;
    }
  }

  /** The steps are the chosen ones. */
  ghost predicate Follows(c: Config, s: System, choose: (nat, System) -> Step, n: nat, steps: seq<Step>)
    requires CanRun(c, s, steps)
    decreases |steps|
  {
    steps == [] || (steps[0] == choose(n, s) && Follows(c, Apply(c, s, steps[0]), choose, n + 1, steps[1..]))
  }
}
