/**
 The lookup scheduler: callers queue tasks under a slot limit, one goroutine groups them by
 mode and bucket, workers send batches, and Close completes whatever is left. A run is any
 sequence of enabled steps.
 */
module LookupRuns {

  type Key = seq<int>

  datatype Mode = Point | Prefix

  /** Tasks are batched only with tasks of the same mode and bucket. */
  datatype Group = Group(mode: Mode, bucket: nat)

  datatype Task = Task(group: Group, key: Key)

  /** What the backend answers for a key: a value or a list of rows, opaque here. */
  type Answer = int

  datatype Result = Value(answer: Answer) | Error

  /** Tasks are named by the order in which they were accepted. */
  type Id = nat

  datatype Batch = Batch(group: Group, tasks: seq<Id>)

  /** A request in flight: the keys sent to the group's bucket, and the tasks waiting for them. */
  datatype Work = Work(group: Group, tasks: seq<Id>, keys: seq<Key>)

  /** `todo` are the groups a timer tick has still to dispatch after the current one. */
  datatype Phase =
    | Idle
    | Sending(group: Group, tasks: seq<Id>, todo: set<Group>)
    | Shutting
    | Draining
    | Joining
    | Stopped

  datatype Config = Config(maxBatchKeys: nat, maxInFlight: nat, maxQueued: nat, immediate: bool)

  predicate ValidConfig(c: Config)
  {
    c.maxBatchKeys >= 1 && c.maxInFlight >= 1 && c.maxQueued >= 1
  }

  /** The queue holds the accepted tasks from `taken` on; `said` is what the backend ever answered, to which group and key. */
  datatype System = System(
    accepted: seq<Task>,
    taken: nat,
    groups: map<Group, seq<Id>>,
    jobs: seq<Batch>,
    running: seq<Work>,
    completed: map<Id, Result>,
    said: set<(Group, Key, Answer)>,
    reserved: nat,
    held: int,
    closed: bool,
    phase: Phase)

  const START := System([], 0, map[], [], [], map[], {}, 0, 0, false, Idle)

  datatype Step =
    | Reserve
    | Accept(task: Task)
    | Bounce
    | Close
    | Take(cancelled: bool)
    | Tick(first: Group)
    | Notice
    | Send
    | Abort
    | NextGroup(next: Group)
    | EndSending
    | ShutGroup(group: Group)
    | EndShutting
    | DrainOne
    | CloseJobs
    | StartWork(gone: set<Id>)
    | FinishWork(worker: nat, ok: bool, answers: seq<Answer>)
    | Join

  // ------------------------------------------------------------------------ completion

  /** A task completes once and then frees its slot; later completions do nothing. */
  function Complete(s: System, id: Id, r: Result): System
  {
    if id in s.completed then s else s.(completed := s.completed[id := r], held := s.held - 1)
  }

  /** Fail every task of a list. */
  function FailAll(s: System, ids: seq<Id>): System
    decreases |ids|
  {
    if ids == [] then s else FailAll(Complete(s, ids[0], Error), ids[1..])
  }

  /** The k-th active task gets the k-th answer. */
  function AnswerEach(s: System, ids: seq<Id>, answers: seq<Answer>): System
    requires |ids| == |answers|
    decreases |ids|
  {
    if ids == [] then s else AnswerEach(Complete(s, ids[0], Value(answers[0])), ids[1..], answers[1..])
  }

  function InGroup(s: System, g: Group): seq<Id>
  {
    if g in s.groups then s.groups[g] else []
  }

  function Min(a: nat, b: nat): nat
  {
    if a < b then a else b
  }

  /** The worker's in-place filter: tasks whose caller has gone are completed and left out. */
  function Active(ids: seq<Id>, cancelled: set<Id>): seq<Id>
  {
    if ids == [] then [] else (if ids[0] in cancelled then [] else [ids[0]]) + Active(ids[1..], cancelled)
  }

  function Gone(ids: seq<Id>, cancelled: set<Id>): seq<Id>
  {
    if ids == [] then [] else (if ids[0] in cancelled then [ids[0]] else []) + Gone(ids[1..], cancelled)
  }

  /** The keys of a request, in the order of its tasks. */
  function KeysOf(accepted: seq<Task>, ids: seq<Id>): seq<Key>
  {
    seq(|ids|, k requires 0 <= k < |ids| => if ids[k] < |accepted| then accepted[ids[k]].key else [])
  }

  /** What the backend says in reply to a request: its k-th answer is about the k-th key sent. */
  function Replies(group: Group, keys: seq<Key>, answers: seq<Answer>): set<(Group, Key, Answer)>
  {
    set k | 0 <= k < |keys| && k < |answers| :: (group, keys[k], answers[k])
  }

  // ----------------------------------------------------------------------------- steps

  predicate Enabled(c: Config, s: System, step: Step)
  {
    match step
    case Reserve => s.held < c.maxQueued
    case Accept(_) => s.reserved > 0 && !s.closed
    case Bounce => s.reserved > 0
    case Close => true
    case Take(_) => s.phase.Idle? && s.taken < |s.accepted|
    case Tick(g) => s.phase.Idle? && g in s.groups
    case Notice => s.phase.Idle? && s.closed
    case Send => s.phase.Sending? && s.phase.tasks != [] && |s.jobs| < c.maxInFlight
    case Abort => s.phase.Sending? && s.phase.tasks != [] && s.closed
    case NextGroup(g) => s.phase.Sending? && s.phase.tasks == [] && g in s.phase.todo
    case EndSending => s.phase.Sending? && s.phase.tasks == [] && s.phase.todo == {}
    case ShutGroup(g) => s.phase.Shutting? && g in s.groups
    case EndShutting => s.phase.Shutting? && s.groups == map[]
    case DrainOne => s.phase.Draining? && s.taken < |s.accepted|
    case CloseJobs => s.phase.Draining? && s.taken == |s.accepted|
    case StartWork(_) => s.jobs != [] && |s.running| < c.maxInFlight
    case FinishWork(w, _, _) => w < |s.running|
    case Join => s.phase.Joining? && s.jobs == [] && s.running == []
  }

  function TakeOne(c: Config, s: System, cancelled: bool): System
    requires s.taken < |s.accepted|
  {
    var id := s.taken;
    var t := s.(taken := id + 1);
    if cancelled then Complete(t, id, Error)
    else
      var g := s.accepted[id].group;
      var tasks := InGroup(s, g) + [id];
      var grouped := t.(groups := s.groups[g := tasks]);
      if |tasks| >= c.maxBatchKeys || c.immediate then grouped.(phase := Sending(g, tasks, {})) else grouped
  }

  function SendBatch(c: Config, s: System): System
    requires s.phase.Sending?
  {
    var count := Min(c.maxBatchKeys, |s.phase.tasks|);
    s.(jobs := s.jobs + [Batch(s.phase.group, s.phase.tasks[..count])], phase := s.phase.(tasks := s.phase.tasks[count..]))
  }

  function StartBatch(s: System, cancelled: set<Id>): System
    requires s.jobs != []
  {
    var batch := s.jobs[0];
    var active := Active(batch.tasks, cancelled);
    var rest := FailAll(s, Gone(batch.tasks, cancelled)).(jobs := s.jobs[1..]);
    if active == [] then rest
    else rest.(running := s.running + [Work(batch.group, active, KeysOf(s.accepted, active))])
  }

  function FinishBatch(s: System, w: nat, ok: bool, answers: seq<Answer>): System
    requires w < |s.running|
  {
    var work := s.running[w];
    var heard := if ok then s.(said := s.said + Replies(work.group, work.keys, answers)) else s;
    var done := if ok && |answers| == |work.tasks| then AnswerEach(heard, work.tasks, answers)
                else FailAll(heard, work.tasks);
    done.(running := s.running[..w] + s.running[w + 1..])
  }

  function Apply(c: Config, s: System, step: Step): System
    requires Enabled(c, s, step)
  {
    match step
    case Reserve => s.(reserved := s.reserved + 1, held := s.held + 1)
    case Accept(task) => s.(reserved := s.reserved - 1, accepted := s.accepted + [task])
    case Bounce => s.(reserved := s.reserved - 1, held := s.held - 1)
    case Close => s.(closed := true)
    case Take(cancelled) => TakeOne(c, s, cancelled)
    case Tick(g) => s.(phase := Sending(g, s.groups[g], s.groups.Keys - {g}))
    case Notice => s.(phase := Shutting)
    case Send => SendBatch(c, s)
    case Abort => FailAll(s, s.phase.tasks[..Min(c.maxBatchKeys, |s.phase.tasks|)]).(phase := Shutting)
    case NextGroup(g) =>
      var t := s.(groups := s.groups - {s.phase.group});
      t.(phase := Sending(g, InGroup(t, g), s.phase.todo - {g}))
    case EndSending => s.(groups := s.groups - {s.phase.group}, phase := Idle)
    case ShutGroup(g) => FailAll(s, s.groups[g]).(groups := s.groups - {g})
    case EndShutting => s.(phase := Draining)
    case DrainOne => Complete(s.(taken := s.taken + 1), s.taken, Error)
    case CloseJobs => s.(phase := Joining)
    case StartWork(gone) => StartBatch(s, gone)
    case FinishWork(w, ok, answers) => FinishBatch(s, w, ok, answers)
    case Join => s.(phase := Stopped)
  }

  // ------------------------------------------------------------------------- invariant

  ghost predicate InGroups(s: System, id: Id)
  {
    exists g :: g in s.groups && id in s.groups[g]
  }

  ghost predicate InBatches(batches: seq<Batch>, id: Id)
  {
    exists k :: 0 <= k < |batches| && id in batches[k].tasks
  }

  ghost predicate InWork(running: seq<Work>, id: Id)
  {
    exists k :: 0 <= k < |running| && id in running[k].tasks
  }

  /** Dispatched: in a job, with a worker, or done. */
  ghost predicate Handed(s: System, id: Id)
  {
    InBatches(s.jobs, id) || InWork(s.running, id) || id in s.completed
  }

  predicate Belongs(s: System, g: Group, ids: seq<Id>)
  {
    forall id :: id in ids ==> id < s.taken && id < |s.accepted| && s.accepted[id].group == g
  }

  /** Every list of tasks is of one group, and of tasks already taken from the queue. */
  ghost predicate Sorted(s: System)
  {
    s.taken <= |s.accepted|
    && (forall g :: g in s.groups ==> Belongs(s, g, s.groups[g]))
    && (forall k :: 0 <= k < |s.jobs| ==> Belongs(s, s.jobs[k].group, s.jobs[k].tasks))
    && (forall k :: 0 <= k < |s.running| ==> Belongs(s, s.running[k].group, s.running[k].tasks))
    && (s.phase.Sending? ==> Belongs(s, s.phase.group, s.phase.tasks))
    && (forall id :: id in s.completed ==> id < s.taken)
  }

  /** No task taken from the queue is lost. */
  ghost predicate Covered(s: System)
  {
    (forall id: Id :: id < s.taken ==> InGroups(s, id) || Handed(s, id))
    && (s.phase.Sending? ==> forall id :: id in InGroup(s, s.phase.group) ==> id in s.phase.tasks || Handed(s, id))
  }

  ghost predicate Slotted(c: Config, s: System)
  {
    s.held == s.reserved + |s.accepted| - |s.completed.Keys| && s.held <= c.maxQueued
  }

  /** A successful task has an answer the backend gave about its key, asked in its mode of its bucket. */
  ghost predicate Truthful(s: System)
  {
    forall id :: id in s.completed && id < |s.accepted| && s.completed[id].Value? ==>
      (s.accepted[id].group, s.accepted[id].key, s.completed[id].answer) in s.said
  }

  /** The k-th key of a request in flight is the k-th waiting task's. */
  predicate Matched(accepted: seq<Task>, work: Work)
  {
    |work.keys| == |work.tasks|
    && forall k :: 0 <= k < |work.tasks| ==> work.tasks[k] < |accepted| && work.keys[k] == accepted[work.tasks[k]].key
  }

  /** Batches are neither empty nor over the limit, and requests ask what their tasks want. */
  ghost predicate Formed(c: Config, s: System)
  {
    (forall k :: 0 <= k < |s.jobs| ==> 1 <= |s.jobs[k].tasks| <= c.maxBatchKeys)
    && (forall k :: 0 <= k < |s.running| ==>
          Matched(s.accepted, s.running[k]) && 1 <= |s.running[k].tasks| <= c.maxBatchKeys)
    && |s.jobs| <= c.maxInFlight && |s.running| <= c.maxInFlight
  }

  ghost predicate Phased(s: System)
  {
    (s.phase.Draining? || s.phase.Joining? || s.phase.Stopped? ==> s.groups == map[])
    && (s.phase.Shutting? || s.phase.Draining? || s.phase.Joining? || s.phase.Stopped? ==> s.closed)
    && (s.phase.Joining? || s.phase.Stopped? ==> s.taken == |s.accepted|)
    && (s.phase.Stopped? ==> s.jobs == [] && s.running == [])
    && (s.phase.Sending? ==> s.phase.group in s.groups && s.phase.todo <= s.groups.Keys - {s.phase.group})
  }

  ghost predicate Inv(c: Config, s: System)
  {
    ValidConfig(c) && Sorted(s) && Covered(s) && Slotted(c, s) && Truthful(s) && Formed(c, s) && Phased(s)
  }

  // --------------------------------------------------------------- completing many tasks

  /** `r` is `s` with tasks of `ids`, and only those, newly completed. */
  ghost predicate Completes(s: System, r: System, ids: seq<Id>)
  {
    r == s.(completed := r.completed, held := r.held)
    && r.held == s.held - (|r.completed.Keys| - |s.completed.Keys|)
    && |s.completed.Keys| <= |r.completed.Keys|
    && (forall id :: id in s.completed ==> id in r.completed && r.completed[id] == s.completed[id])
    && (forall id :: id in ids ==> id in r.completed)
    && (forall id :: id in r.completed && id !in s.completed ==> id in ids)
  }

  lemma CompleteOne(s: System, id: Id, r: Result)
    ensures Completes(s, Complete(s, id, r), [id])
    ensures id in Complete(s, id, r).completed
  {
    if id !in s.completed {
      assert Complete(s, id, r).completed.Keys == s.completed.Keys + {id};
    }
  }

  lemma CompletesThen(s: System, m: System, r: System, a: seq<Id>, b: seq<Id>)
    requires Completes(s, m, a) && Completes(m, r, b)
    ensures Completes(s, r, a + b)
  {
  }

  lemma {:induction false} FailAllCompletes(s: System, ids: seq<Id>)
    ensures var r := FailAll(s, ids);
      Completes(s, r, ids) && forall id :: id in r.completed && id !in s.completed ==> r.completed[id] == Error
    decreases |ids|
  {
    if ids != [] {
      var m := Complete(s, ids[0], Error);
      CompleteOne(s, ids[0], Error);
      FailAllCompletes(m, ids[1..]);
      CompletesThen(s, m, FailAll(m, ids[1..]), [ids[0]], ids[1..]);
      assert [ids[0]] + ids[1..] == ids;
    }
  }

  lemma {:induction false} AnswerEachCompletes(s: System, ids: seq<Id>, answers: seq<Answer>)
    requires |ids| == |answers|
    ensures var r := AnswerEach(s, ids, answers);
      Completes(s, r, ids)
      && forall id :: id in r.completed && id !in s.completed ==>
           exists k :: 0 <= k < |ids| && ids[k] == id && r.completed[id] == Value(answers[k])
    decreases |ids|
  {
    if ids != [] {
      var m := Complete(s, ids[0], Value(answers[0]));
      CompleteOne(s, ids[0], Value(answers[0]));
      AnswerEachCompletes(m, ids[1..], answers[1..]);
      var r := AnswerEach(m, ids[1..], answers[1..]);
      CompletesThen(s, m, r, [ids[0]], ids[1..]);
      assert [ids[0]] + ids[1..] == ids;
      forall id | id in r.completed && id !in s.completed
        ensures exists k :: 0 <= k < |ids| && ids[k] == id && r.completed[id] == Value(answers[k])
      {
        if id in m.completed {
          assert ids[0] == id && r.completed[id] == Value(answers[0]);
        } else {
          var k :| 0 <= k < |ids[1..]| && ids[1..][k] == id && r.completed[id] == Value(answers[1..][k]);
          assert ids[k + 1] == id;
        }
      }
    }
  }

  // -------------------------------------------------------------------- the steps keep it

  /** Tasks stay where they are or move on: into a group, a job, a worker, or done. */
  ghost predicate MovesOn(s: System, r: System)
  {
    s.taken <= r.taken
    && (forall id: Id :: id < s.taken && InGroups(s, id) ==> InGroups(r, id) || Handed(r, id))
    && (forall id :: Handed(s, id) ==> Handed(r, id))
    && (forall id: Id :: s.taken <= id < r.taken ==> InGroups(r, id) || Handed(r, id))
  }

  lemma MovesKeepCovered(s: System, r: System)
    requires Covered(s) && MovesOn(s, r)
    requires r.phase.Sending? ==>
      (r.phase == s.phase && r.groups == s.groups)
      || (forall id :: id in InGroup(r, r.phase.group) ==> id in r.phase.tasks || Handed(r, id))
    ensures Covered(r)
  {
    hide InGroups, Handed;
  }

  lemma SameLists(s: System, r: System)
    requires r.groups == s.groups && r.jobs == s.jobs && r.running == s.running && r.completed == s.completed
    requires r.taken == s.taken
    ensures MovesOn(s, r) && forall id :: Handed(s, id) <==> Handed(r, id)
  {
    forall id | InGroups(s, id) ensures InGroups(r, id) {
      var g :| g in s.groups && id in s.groups[g];
      assert g in r.groups && id in r.groups[g];
    }
  }

  lemma BelongsGrows(s: System, r: System)
    requires s.taken <= r.taken && s.accepted <= r.accepted
    ensures forall g, ids :: Belongs(s, g, ids) ==> Belongs(r, g, ids)
  {
  }

  lemma BelongsPart(s: System, g: Group, ids: seq<Id>, part: seq<Id>)
    requires Belongs(s, g, ids) && forall id :: id in part ==> id in ids
    ensures Belongs(s, g, part)
  {
  }

  lemma SameFormed(c: Config, s: System, r: System)
    requires Formed(c, s) && r.jobs == s.jobs && r.running == s.running && s.accepted <= r.accepted
    ensures Formed(c, r)
  {
    forall k | 0 <= k < |s.running| ensures Matched(r.accepted, r.running[k]) {
      assert Matched(s.accepted, s.running[k]);
    }
  }

  lemma KeepsFormed(c: Config, s: System, r: System)
    requires Formed(c, s) && r.accepted == s.accepted && |r.jobs| <= c.maxInFlight && |r.running| <= c.maxInFlight
    requires forall k :: 0 <= k < |r.jobs| ==> r.jobs[k] in s.jobs || 1 <= |r.jobs[k].tasks| <= c.maxBatchKeys
    requires forall k :: 0 <= k < |r.running| ==>
      r.running[k] in s.running || (Matched(r.accepted, r.running[k]) && 1 <= |r.running[k].tasks| <= c.maxBatchKeys)
    ensures Formed(c, r)
  {
    hide Matched;
  }

  lemma SameSlots(c: Config, s: System, r: System)
    requires Slotted(c, s) && Truthful(s) && r.completed == s.completed && r.accepted == s.accepted
    requires r.reserved == s.reserved && r.held == s.held && r.said == s.said
    ensures Slotted(c, r) && Truthful(r)
  {
  }

  /** Completing tasks frees their slots, and failures claim no answer. */
  lemma CompletedSlots(c: Config, s: System, m: System, ids: seq<Id>, r: System)
    requires Slotted(c, s) && Truthful(s) && Completes(s, m, ids)
    requires forall id :: id in m.completed && id !in s.completed ==> m.completed[id] == Error
    requires r.completed == m.completed && r.accepted == s.accepted && r.reserved == s.reserved
    requires r.held == m.held && s.said <= r.said
    ensures Slotted(c, r) && Truthful(r)
  {
  }

  /** What must hold of the lists of `r` when some tasks of `s` were moved or completed. */
  lemma KeepsSorted(s: System, r: System)
    requires Sorted(s) && r.accepted == s.accepted && (r.taken == s.taken || s.taken < r.taken <= |r.accepted|)
    requires forall g :: g in r.groups ==> (g in s.groups && r.groups[g] == s.groups[g]) || Belongs(r, g, r.groups[g])
    requires forall k :: 0 <= k < |r.jobs| ==> r.jobs[k] in s.jobs || Belongs(r, r.jobs[k].group, r.jobs[k].tasks)
    requires forall k :: 0 <= k < |r.running| ==> r.running[k] in s.running || Belongs(r, r.running[k].group, r.running[k].tasks)
    requires r.phase.Sending? ==> r.phase == s.phase || Belongs(r, r.phase.group, r.phase.tasks)
    requires forall id :: id in r.completed ==> id in s.completed || id < r.taken
    ensures Sorted(r)
  {
    hide Belongs;
    BelongsGrows(s, r);
  }

  lemma CallerStep(c: Config, s: System, step: Step, r: System)
    requires Enabled(c, s, step) && r == Apply(c, s, step)
    requires step.Reserve? || step.Accept? || step.Bounce? || step.Close?
    requires Inv(c, s)
    ensures Inv(c, r)
  {
    hide MovesOn, InGroups, Handed, Belongs, Formed;
    BelongsGrows(s, r);
    SameLists(s, r);
    MovesKeepCovered(s, r);
    SameFormed(c, s, r);
  }

  lemma PhaseStep(c: Config, s: System, step: Step, r: System)
    requires Enabled(c, s, step) && r == Apply(c, s, step)
    requires step.Notice? || step.EndShutting? || step.CloseJobs? || step.Join?
    requires Inv(c, s)
    ensures Inv(c, r)
  {
    hide MovesOn, InGroups, Handed, Belongs, Covered, Slotted, Truthful, Sorted, Formed;
    KeepsSorted(s, r);
    SameSlots(c, s, r);
    SameLists(s, r);
    MovesKeepCovered(s, r);
    SameFormed(c, s, r);
  }

  lemma TakeStep(c: Config, s: System, cancelled: bool, r: System)
    requires s.taken < |s.accepted| && s.phase.Idle? && r == TakeOne(c, s, cancelled)
    requires Inv(c, s)
    ensures Inv(c, r)
  {
    hide MovesOn, Covered, Belongs, Slotted, Truthful, Sorted, Completes, InGroups, Handed, Formed;
    TakenBelongs(s, r);
    TakenMoves(c, s, cancelled);
    if cancelled {
      var t := s.(taken := s.taken + 1);
      CompleteOne(t, s.taken, Error);
      CompletedTaken(t, s.taken, Error);
      SameSlots(c, s, t);
      CompletedSlots(c, t, r, [s.taken], r);
    } else {
      SameSlots(c, s, r);
    }
    KeepsSorted(s, r);
    MovesKeepCovered(s, r);
    SameFormed(c, s, r);
  }

  lemma CompletedTaken(s: System, id: Id, result: Result)
    ensures forall x :: x in Complete(s, id, result).completed ==> x in s.completed || x == id
  {
  }

  lemma TakenBelongs(s: System, r: System)
    requires Sorted(s) && s.taken < |s.accepted| && r.taken == s.taken + 1 && r.accepted == s.accepted
    ensures var g := s.accepted[s.taken].group; Belongs(r, g, InGroup(s, g) + [s.taken])
  {
    var g := s.accepted[s.taken].group;
    if g in s.groups {
      assert Belongs(s, g, s.groups[g]);
    }
  }

  lemma TakenMoves(c: Config, s: System, cancelled: bool)
    requires s.taken < |s.accepted|
    ensures MovesOn(s, TakeOne(c, s, cancelled))
  {
    var id, r := s.taken, TakeOne(c, s, cancelled);
    forall x | InGroups(s, x) ensures InGroups(r, x) {
      var g :| g in s.groups && x in s.groups[g];
      assert g in r.groups && x in r.groups[g];
    }
    if !cancelled {
      var g := s.accepted[id].group;
      assert g in r.groups && id in r.groups[g];
      assert InGroups(r, id);
    }
  }

  lemma SendStep(c: Config, s: System, r: System)
    requires Enabled(c, s, Send) && r == SendBatch(c, s)
    requires Inv(c, s)
    ensures Inv(c, r)
  {
    hide MovesOn, InGroups, Belongs, Handed, Slotted, Truthful, InBatches, Formed;
    var tasks, count := s.phase.tasks, Min(c.maxBatchKeys, |s.phase.tasks|);
    BelongsGrows(s, r);
    BelongsPart(r, s.phase.group, tasks, tasks[..count]);
    BelongsPart(r, s.phase.group, tasks, tasks[count..]);
    hide Sorted;
    KeepsSorted(s, r);
    SameSlots(c, s, r);
    JobAdded(s, Batch(s.phase.group, tasks[..count]), r);
    assert forall id :: id in tasks ==> id in tasks[..count] || id in tasks[count..] by {
      assert tasks == tasks[..count] + tasks[count..];
    }
    assert InGroup(r, r.phase.group) == InGroup(s, s.phase.group);
    MovesKeepCovered(s, r);
    SendFormed(c, s, r);
  }

  lemma SendFormed(c: Config, s: System, r: System)
    requires Enabled(c, s, Send) && r == SendBatch(c, s) && ValidConfig(c) && Formed(c, s)
    ensures Formed(c, r)
  {
    KeepsFormed(c, s, r);
  }

  lemma JobAdded(s: System, batch: Batch, r: System)
    requires r.jobs == s.jobs + [batch] && r.groups == s.groups && r.running == s.running
    requires r.completed == s.completed && r.taken == s.taken
    ensures MovesOn(s, r)
    ensures forall id :: Handed(s, id) || id in batch.tasks ==> Handed(r, id)
  {
    assert forall id :: id in batch.tasks ==> id in r.jobs[|s.jobs|].tasks;
    forall id | InBatches(s.jobs, id) ensures InBatches(r.jobs, id) {
      var k :| 0 <= k < |s.jobs| && id in s.jobs[k].tasks;
      assert id in r.jobs[k].tasks;
    }
    forall id | InGroups(s, id) ensures InGroups(r, id) {
      var g :| g in s.groups && id in s.groups[g];
      assert g in r.groups && id in r.groups[g];
    }
  }

  /** A dispatched group leaves the table. */
  lemma GroupDone(s: System, g: Group, r: System)
    requires r.groups == s.groups - {g} && r.jobs == s.jobs && r.running == s.running && r.taken == s.taken
    requires s.completed.Keys <= r.completed.Keys
    requires forall id :: id in InGroup(s, g) ==> Handed(r, id)
    ensures MovesOn(s, r)
  {
    forall id | InGroups(s, id) ensures InGroups(r, id) || Handed(r, id) {
      var x :| x in s.groups && id in s.groups[x];
      if x != g {
        assert x in r.groups && id in r.groups[x];
      }
    }
  }

  /** The end of `dispatchGroup`: all its tasks are in jobs, the group leaves the table. */
  function EndGroup(s: System): System
    requires s.phase.Sending?
  {
    s.(groups := s.groups - {s.phase.group}, phase := Idle)
  }

  lemma EndGroupKeeps(c: Config, s: System)
    requires s.phase.Sending? && s.phase.tasks == []
    requires Inv(c, s)
    ensures Inv(c, EndGroup(s))
  {
    hide MovesOn, Belongs, Slotted, Truthful, Sorted, Handed, InGroups, Formed;
    var r := EndGroup(s);
    assert forall id :: id in InGroup(s, s.phase.group) ==> Handed(r, id) by { SameHanded(s, r); }
    hide Covered;
    KeepsSorted(s, r);
    SameSlots(c, s, r);
    GroupDone(s, s.phase.group, r);
    MovesKeepCovered(s, r);
    SameFormed(c, s, r);
  }

  lemma BeginSending(c: Config, s: System, g: Group, todo: set<Group>)
    requires Inv(c, s) && s.phase.Idle? && g in s.groups && todo <= s.groups.Keys - {g}
    ensures Inv(c, s.(phase := Sending(g, InGroup(s, g), todo)))
  {
    hide MovesOn, Belongs, Slotted, Truthful, Sorted, Handed, InGroups, Covered, Formed;
    var r := s.(phase := Sending(g, InGroup(s, g), todo));
    GroupBelongs(s, r, r.phase);
    KeepsSorted(s, r);
    SameSlots(c, s, r);
    SameLists(s, r);
    MovesKeepCovered(s, r);
    SameFormed(c, s, r);
  }

  lemma TickStep(c: Config, s: System, g: Group, r: System)
    requires Enabled(c, s, Tick(g)) && r == Apply(c, s, Tick(g))
    requires Inv(c, s)
    ensures Inv(c, r)
  {
    hide Inv;
    BeginSending(c, s, g, s.groups.Keys - {g});
  }

  lemma GroupStep(c: Config, s: System, step: Step, r: System)
    requires Enabled(c, s, step) && r == Apply(c, s, step) && (step.NextGroup? || step.EndSending?)
    requires Inv(c, s)
    ensures Inv(c, r)
  {
    assert Phased(s);
    hide Inv;
    EndGroupKeeps(c, s);
    if step.NextGroup? {
      BeginSending(c, EndGroup(s), step.next, s.phase.todo - {step.next});
    }
  }

  lemma SameHanded(s: System, r: System)
    requires r.jobs == s.jobs && r.running == s.running && r.completed == s.completed
    ensures forall id :: Handed(s, id) <==> Handed(r, id)
  {
  }

  lemma GroupBelongs(s: System, r: System, phase: Phase)
    requires Sorted(s) && r.taken == s.taken && r.accepted == s.accepted && r.phase == phase
    requires phase.Sending? ==> phase.tasks == [] || (phase.group in s.groups && phase.tasks == s.groups[phase.group])
    ensures phase.Sending? ==> Belongs(r, phase.group, phase.tasks)
  {
    if phase.Sending? && phase.tasks != [] {
      assert Belongs(s, phase.group, s.groups[phase.group]);
    }
  }

  lemma CompletedMoves(s: System, r: System)
    requires r.groups == s.groups && r.jobs == s.jobs && r.running == s.running && r.taken == s.taken
    requires s.completed.Keys <= r.completed.Keys
    ensures MovesOn(s, r)
  {
    forall id | InGroups(s, id) ensures InGroups(r, id) {
      var g :| g in s.groups && id in s.groups[g];
      assert g in r.groups && id in r.groups[g];
    }
  }

  lemma AbortStep(c: Config, s: System, r: System)
    requires Enabled(c, s, Abort) && r == Apply(c, s, Abort)
    requires Inv(c, s)
    ensures Inv(c, r)
  {
    hide MovesOn, Covered, Slotted, Truthful, Sorted, FailAll, Belongs, Formed;
    var ids := s.phase.tasks[..Min(c.maxBatchKeys, |s.phase.tasks|)];
    var m := FailAll(s, ids);
    FailAllCompletes(s, ids);
    assert forall id :: id in ids ==> id < s.taken by { SendingBelow(s); assert forall id :: id in ids ==> id in s.phase.tasks; }
    CompletedSlots(c, s, m, ids, r);
    KeepsSorted(s, r);
    CompletedMoves(s, r);
    MovesKeepCovered(s, r);
    SameFormed(c, s, r);
  }

  lemma SendingBelow(s: System)
    requires Sorted(s) && s.phase.Sending?
    ensures forall id :: id in s.phase.tasks ==> id < s.taken
  {
  }

  lemma GroupBelow(s: System, g: Group)
    requires Sorted(s) && g in s.groups
    ensures forall id :: id in s.groups[g] ==> id < s.taken
  {
    assert Belongs(s, g, s.groups[g]);
  }

  lemma ShutStep(c: Config, s: System, g: Group, r: System)
    requires Enabled(c, s, ShutGroup(g)) && r == Apply(c, s, ShutGroup(g))
    requires Inv(c, s)
    ensures Inv(c, r)
  {
    hide MovesOn, Covered, Slotted, Truthful, Sorted, FailAll, Belongs, InBatches, Formed;
    var m := FailAll(s, s.groups[g]);
    FailAllCompletes(s, s.groups[g]);
    GroupBelow(s, g);
    CompletedSlots(c, s, m, s.groups[g], r);
    KeepsSorted(s, r);
    assert forall id :: id in InGroup(s, g) ==> Handed(r, id);
    GroupDone(s, g, r);
    MovesKeepCovered(s, r);
    SameFormed(c, s, r);
  }

  lemma DrainStep(c: Config, s: System, r: System)
    requires Enabled(c, s, DrainOne) && r == Apply(c, s, DrainOne)
    requires Inv(c, s)
    ensures Inv(c, r)
  {
    hide InGroups, MovesOn, Handed, Belongs, Formed;
    CompleteOne(s.(taken := s.taken + 1), s.taken, Error);
    BelongsGrows(s, r);
    CompletedMoves(s, r.(taken := s.taken));
    DrainMoves(s, r);
    MovesKeepCovered(s, r);
    SameFormed(c, s, r);
  }

  lemma DrainMoves(s: System, r: System)
    requires MovesOn(s, r.(taken := s.taken)) && r.taken == s.taken + 1 && s.taken in r.completed
    ensures MovesOn(s, r)
  {
    forall id | InGroups(r.(taken := s.taken), id) ensures InGroups(r, id) {
      var g :| g in r.groups && id in r.groups[g];
    }
  }

  lemma {:induction false} ActiveOrGone(ids: seq<Id>, gone: set<Id>)
    ensures forall id :: id in ids <==> id in Active(ids, gone) || id in Gone(ids, gone)
    ensures forall id :: id in Active(ids, gone) ==> id !in gone
  {
    if ids != [] {
      ActiveOrGone(ids[1..], gone);
      assert ids == [ids[0]] + ids[1..];
    }
  }

  lemma StartStep(c: Config, s: System, gone: set<Id>, r: System)
    requires Enabled(c, s, StartWork(gone)) && r == StartBatch(s, gone)
    requires Inv(c, s)
    ensures Inv(c, r)
  {
    hide MovesOn, Covered, Slotted, Truthful, FailAll, Belongs, Active, Gone, Handed, InGroups, Formed, KeysOf;
    var batch := s.jobs[0];
    var left := Gone(batch.tasks, gone);
    ActiveOrGone(batch.tasks, gone);
    FailAllCompletes(s, left);
    BelongsBelow(s, batch.group, batch.tasks);
    BelongsGrows(s, r);
    BelongsPart(r, batch.group, batch.tasks, Active(batch.tasks, gone));
    hide Sorted;
    CompletedSlots(c, s, FailAll(s, left), left, r);
    KeepsSorted(s, r);
    StartMoves(s, gone, r);
    MovesKeepCovered(s, r);
    StartFormed(c, s, gone, r);
  }

  lemma StartFormed(c: Config, s: System, gone: set<Id>, r: System)
    requires Enabled(c, s, StartWork(gone)) && r == StartBatch(s, gone) && Formed(c, s)
    requires forall id :: id in s.jobs[0].tasks ==> id < |s.accepted|
    ensures Formed(c, r)
  {
    hide FailAll, Active, Gone, KeysOf, Matched;
    OnlyResults(s, Gone(s.jobs[0].tasks, gone));
    ActiveKeys(s, s.jobs[0].tasks, gone);
    KeepsFormed(c, s, r);
  }

  /** Failing tasks changes results and slots only. */
  lemma OnlyResults(s: System, ids: seq<Id>)
    ensures FailAll(s, ids) == s.(completed := FailAll(s, ids).completed, held := FailAll(s, ids).held)
  {
    FailAllCompletes(s, ids);
  }

  /** The request of the tasks still waited for is no longer than the batch and asks for their keys. */
  lemma ActiveKeys(s: System, ids: seq<Id>, gone: set<Id>)
    requires forall id :: id in ids ==> id < |s.accepted|
    ensures |Active(ids, gone)| <= |ids|
    ensures forall g :: Matched(s.accepted, Work(g, Active(ids, gone), KeysOf(s.accepted, Active(ids, gone))))
  {
    ActiveOrGone(ids, gone);
    ActiveShorter(ids, gone);
    var active := Active(ids, gone);
    assert forall k :: 0 <= k < |active| ==> active[k] in active;
  }

  lemma {:induction false} ActiveShorter(ids: seq<Id>, gone: set<Id>)
    ensures |Active(ids, gone)| <= |ids|
  {
    if ids != [] {
      ActiveShorter(ids[1..], gone);
    }
  }

  lemma BelongsBelow(s: System, g: Group, ids: seq<Id>)
    requires Belongs(s, g, ids)
    ensures forall id :: id in ids ==> id < s.taken && id < |s.accepted|
  {
  }

  lemma StartMoves(s: System, gone: set<Id>, r: System)
    requires s.jobs != [] && r == StartBatch(s, gone)
    ensures MovesOn(s, r)
  {
    var batch := s.jobs[0];
    var active := Active(batch.tasks, gone);
    ActiveOrGone(batch.tasks, gone);
    FailAllCompletes(s, Gone(batch.tasks, gone));
    forall id | Handed(s, id) ensures Handed(r, id) {
      if InBatches(s.jobs, id) {
        var k :| 0 <= k < |s.jobs| && id in s.jobs[k].tasks;
        if k > 0 {
          assert id in r.jobs[k - 1].tasks;
        } else if id in active {
          assert id in r.running[|s.running|].tasks;
        }
      } else if InWork(s.running, id) {
        var k :| 0 <= k < |s.running| && id in s.running[k].tasks;
        assert id in r.running[k].tasks;
      }
    }
    forall id | InGroups(s, id) ensures InGroups(r, id) {
      var g :| g in s.groups && id in s.groups[g];
      assert g in r.groups && id in r.groups[g];
    }
  }

  lemma FinishMoves(s: System, w: nat, r: System)
    requires w < |s.running| && r.groups == s.groups && r.jobs == s.jobs && r.taken == s.taken
    requires r.running == s.running[..w] + s.running[w + 1..]
    requires s.completed.Keys <= r.completed.Keys && forall id :: id in s.running[w].tasks ==> id in r.completed
    ensures MovesOn(s, r)
  {
    forall id | InWork(s.running, id) ensures InWork(r.running, id) || id in r.completed {
      var k :| 0 <= k < |s.running| && id in s.running[k].tasks;
      if k < w {
        assert id in r.running[k].tasks;
      } else if k > w {
        assert id in r.running[k - 1].tasks;
      }
    }
    forall id | InGroups(s, id) ensures InGroups(r, id) {
      var g :| g in s.groups && id in s.groups[g];
      assert g in r.groups && id in r.groups[g];
    }
  }

  /** Answers go to the tasks whose keys they are about: the request lists the keys in task order. */
  lemma AnsweredTruth(s: System, work: Work, answers: seq<Answer>)
    requires |work.tasks| == |answers| && Truthful(s) && Matched(s.accepted, work) && Belongs(s, work.group, work.tasks)
    ensures Truthful(AnswerEach(s.(said := s.said + Replies(work.group, work.keys, answers)), work.tasks, answers))
  {
    hide AnswerEach;
    var m := s.(said := s.said + Replies(work.group, work.keys, answers));
    var r := AnswerEach(m, work.tasks, answers);
    AnswerEachCompletes(m, work.tasks, answers);
    forall id | id in r.completed && r.completed[id].Value? && id < |r.accepted|
      ensures (r.accepted[id].group, r.accepted[id].key, r.completed[id].answer) in r.said
    {
      if id !in s.completed {
        var k :| 0 <= k < |work.tasks| && work.tasks[k] == id && r.completed[id] == Value(answers[k]);
        assert id in work.tasks;
        assert (work.group, work.keys[k], answers[k]) in Replies(work.group, work.keys, answers);
      }
    }
  }

  lemma AnsweredSlots(c: Config, s: System, said: set<(Group, Key, Answer)>, m: System, ids: seq<Id>, r: System)
    requires Slotted(c, s) && Completes(s.(said := said), m, ids)
    requires r.completed == m.completed && r.accepted == s.accepted && r.reserved == s.reserved && r.held == m.held
    ensures Slotted(c, r)
  {
  }

  lemma FinishStep(c: Config, s: System, w: nat, ok: bool, answers: seq<Answer>, r: System)
    requires Enabled(c, s, FinishWork(w, ok, answers)) && r == FinishBatch(s, w, ok, answers)
    requires Inv(c, s)
    ensures Inv(c, r)
  {
    hide MovesOn, Covered, Slotted, Truthful, AnswerEach, FailAll, Replies, Belongs, Handed, InGroups, Matched;
    var work := s.running[w];
    assert Belongs(s, work.group, work.tasks) && Matched(s.accepted, work);
    BelongsBelow(s, work.group, work.tasks);
    assert Formed(c, s);
    hide Sorted, Formed;
    var said := if ok then s.said + Replies(work.group, work.keys, answers) else s.said;
    var m := s.(said := said);
    if ok && |answers| == |work.tasks| {
      AnswerEachCompletes(m, work.tasks, answers);
      AnsweredTruth(s, work, answers);
      AnsweredSlots(c, s, said, AnswerEach(m, work.tasks, answers), work.tasks, r);
      SameTruth(AnswerEach(m, work.tasks, answers), r);
    } else {
      FailAllCompletes(m, work.tasks);
      SaidMore(c, s, m);
      CompletedSlots(c, m, FailAll(m, work.tasks), work.tasks, r);
    }
    KeepsSorted(s, r);
    FinishMoves(s, w, r);
    MovesKeepCovered(s, r);
    FinishFormed(c, s, w, r);
  }

  lemma FinishFormed(c: Config, s: System, w: nat, r: System)
    requires Formed(c, s) && w < |s.running| && r.running == s.running[..w] + s.running[w + 1..]
    requires r.jobs == s.jobs && r.accepted == s.accepted
    ensures Formed(c, r)
  {
    hide Matched;
    KeepsFormed(c, s, r);
  }

  lemma SaidMore(c: Config, s: System, r: System)
    requires Slotted(c, s) && Truthful(s) && r == s.(said := r.said) && s.said <= r.said
    ensures Slotted(c, r) && Truthful(r)
  {
  }

  lemma SameTruth(s: System, r: System)
    requires Truthful(s) && r.completed == s.completed && r.accepted == s.accepted && r.said == s.said
    ensures Truthful(r)
  {
  }

  // --------------------------------------------------------------------------- every run

  lemma StepKeeps(c: Config, s: System, step: Step)
    requires Enabled(c, s, step) && Inv(c, s)
    ensures Inv(c, Apply(c, s, step))
  {
    hide Inv;
    var r := Apply(c, s, step);
    match step {
      case Reserve | Accept(_) | Bounce | Close => CallerStep(c, s, step, r);
      case Tick(g) => TickStep(c, s, g, r);
      case Notice | EndShutting | CloseJobs | Join => PhaseStep(c, s, step, r);
      case Take(cancelled) => TakeStep(c, s, cancelled, r);
      case Send => SendStep(c, s, r);
      case Abort => AbortStep(c, s, r);
      case NextGroup(_) | EndSending => GroupStep(c, s, step, r);
      case ShutGroup(g) => ShutStep(c, s, g, r);
      case DrainOne => DrainStep(c, s, r);
      case StartWork(gone) => StartStep(c, s, gone, r);
      case FinishWork(w, ok, answers) => FinishStep(c, s, w, ok, answers, r);
    }
  }

  predicate CanRun(c: Config, s: System, steps: seq<Step>)
    decreases |steps|
  {
    steps == [] || (Enabled(c, s, steps[0]) && CanRun(c, Apply(c, s, steps[0]), steps[1..]))
  }

  function Run(c: Config, s: System, steps: seq<Step>): System
    requires CanRun(c, s, steps)
    decreases |steps|
  {
    if steps == [] then s else Run(c, Apply(c, s, steps[0]), steps[1..])
  }

  lemma {:induction false} RunKeeps(c: Config, s: System, steps: seq<Step>)
    requires CanRun(c, s, steps) && Inv(c, s)
    ensures Inv(c, Run(c, s, steps))
    decreases |steps|
  {
    hide Inv, Apply, Enabled;
    if steps != [] {
      StepKeeps(c, s, steps[0]);
      RunKeeps(c, Apply(c, s, steps[0]), steps[1..]);
    }
  }

  lemma StartInv(c: Config)
    requires ValidConfig(c)
    ensures Inv(c, START)
  {
  }

  // ----------------------------------------------------------------------- guarantees

  /** While a caller holds a slot and has not queued its task, the queue has room for it. */
  lemma QueueNeverBlocks(c: Config, steps: seq<Step>)
    requires ValidConfig(c) && CanRun(c, START, steps)
    ensures var s := Run(c, START, steps);
      s.reserved > 0 ==> |s.accepted| - s.taken < c.maxQueued
    ensures var s := Run(c, START, steps);
      s.held == s.reserved + |s.accepted| - |s.completed.Keys| && 0 <= s.held <= c.maxQueued
  {
    hide Run, CanRun, Covered, Truthful, Phased;
    StartInv(c);
    RunKeeps(c, START, steps);
    var s := Run(c, START, steps);
    KeysBelow(s.completed.Keys, s.taken);
  }

  lemma {:induction false} KeysBelow(ids: set<Id>, n: nat)
    requires forall id :: id in ids ==> id < n
    ensures |ids| <= n
    decreases n
  {
    if n == 0 {
      assert ids == {};
    } else {
      KeysBelow(ids - {n - 1}, n - 1);
      if n - 1 in ids {
        assert ids == (ids - {n - 1}) + {n - 1};
      } else {
        assert ids == ids - {n - 1};
      }
    }
  }

  /** Every accepted task has its result, and only callers on their way in hold slots. */
  ghost predicate AllDone(s: System)
  {
    (forall id: Id :: id < |s.accepted| ==> id in s.completed) && s.held == s.reserved
  }

  lemma StoppedIsDone(c: Config, s: System)
    requires Inv(c, s) && s.phase.Stopped?
    ensures AllDone(s)
  {
    hide Truthful, Formed;
    forall id: Id | id < |s.accepted| ensures id in s.completed {
      assert InGroups(s, id) || Handed(s, id);
    }
    AllKeys(s.completed.Keys, |s.accepted|);
  }

  /** When Close has returned nothing is left, whatever was grouped, cancelled or retried. */
  lemma ClosedLeavesNothing(c: Config, steps: seq<Step>)
    requires ValidConfig(c) && CanRun(c, START, steps) && Run(c, START, steps).phase.Stopped?
    ensures AllDone(Run(c, START, steps))
  {
    hide Run, CanRun, Inv, AllDone;
    StartInv(c);
    RunKeeps(c, START, steps);
    StoppedIsDone(c, Run(c, START, steps));
  }

  lemma {:induction false} AllKeys(ids: set<Id>, n: nat)
    requires forall id: Id :: id in ids <==> id < n
    ensures |ids| == n
    decreases n
  {
    if n == 0 {
      assert ids == {};
    } else {
      assert n - 1 in ids;
      AllKeys(ids - {n - 1}, n - 1);
      assert ids == (ids - {n - 1}) + {n - 1};
    }
  }

  lemma AnswersAreTheBackends(c: Config, steps: seq<Step>, id: Id)
    requires ValidConfig(c) && CanRun(c, START, steps)
    requires var s := Run(c, START, steps); id in s.completed && s.completed[id].Value?
    ensures var s := Run(c, START, steps);
      id < |s.accepted| && (s.accepted[id].group, s.accepted[id].key, s.completed[id].answer) in s.said
  {
    hide Run, CanRun, Covered, Slotted, Phased;
    StartInv(c);
    RunKeeps(c, START, steps);
  }

  /**
   Every request ever in flight asks for at least one and at most `maxBatchKeys` keys, the k-th
   being the k-th waiting task's, all of one mode and bucket; requests and queued jobs stay
   within `maxInFlight`.
   */
  lemma RequestsAreFormed(c: Config, steps: seq<Step>, w: nat)
    requires ValidConfig(c) && CanRun(c, START, steps) && w < |Run(c, START, steps).running|
    ensures var s := Run(c, START, steps); var work := s.running[w];
      Matched(s.accepted, work) && 1 <= |work.keys| <= c.maxBatchKeys
      && (forall id :: id in work.tasks ==> id < |s.accepted| && s.accepted[id].group == work.group)
      && |s.jobs| <= c.maxInFlight && |s.running| <= c.maxInFlight
  {
    hide Run, CanRun, Covered, Slotted, Truthful, Phased;
    StartInv(c);
    RunKeeps(c, START, steps);
    var s := Run(c, START, steps);
    assert Belongs(s, s.running[w].group, s.running[w].tasks);
  }

  ghost predicate Stays(s: System, r: System)
  {
    forall id :: id in s.completed ==> id in r.completed && r.completed[id] == s.completed[id]
  }

  lemma StepStays(c: Config, s: System, step: Step)
    requires Enabled(c, s, step)
    ensures Stays(s, Apply(c, s, step))
  {
    hide FailAll, AnswerEach, Replies, Active, Gone, InGroup;
    match step {
      case Abort => FailAllCompletes(s, s.phase.tasks[..Min(c.maxBatchKeys, |s.phase.tasks|)]);
      case ShutGroup(g) => FailAllCompletes(s, s.groups[g]);
      case StartWork(gone) => FailAllCompletes(s, Gone(s.jobs[0].tasks, gone));
      case FinishWork(w, ok, answers) =>
        var work := s.running[w];
        var m := if ok then s.(said := s.said + Replies(work.group, work.keys, answers)) else s;
        if ok && |answers| == |work.tasks| {
          AnswerEachCompletes(m, work.tasks, answers);
        } else {
          FailAllCompletes(m, work.tasks);
        }
      case _ =>
    }
  }

  /** A result, once given, is never given again or changed. */
  lemma {:induction false} ResultsNeverChange(c: Config, s: System, steps: seq<Step>)
    requires CanRun(c, s, steps)
    ensures Stays(s, Run(c, s, steps))
    decreases |steps|
  {
    hide Apply, Enabled;
    if steps != [] {
      StepStays(c, s, steps[0]);
      ResultsNeverChange(c, Apply(c, s, steps[0]), steps[1..]);
    }
  }
}
