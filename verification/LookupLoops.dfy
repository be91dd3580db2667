/** The loops of the lookup scheduler and its workers, proved against the steps of `LookupRuns`. */
module LookupLoops {
  import opened LookupRuns

  /**
   The worker's filter, in place: the tasks whose callers still wait are moved to the front of
   the batch in order, the others are handed back to be failed.
   */
  method KeepActive(tasks: array<Id>, gone: set<Id>) returns (count: nat, left: seq<Id>)
    modifies tasks
    ensures count <= tasks.Length && tasks[..count] == Active(old(tasks[..]), gone)
    ensures left == Gone(old(tasks[..]), gone)
  {
    hide Active, Gone;
    count, left := 0, [];
    NothingFiltered(gone);
    ghost var all := tasks[..];
    for i := 0 to tasks.Length
      invariant count <= i && forall j :: i <= j < tasks.Length ==> tasks[j] == all[j]
      invariant tasks[..count] == Active(all[..i], gone) && left == Gone(all[..i], gone)
    {
      FilterOneMore(all, i, gone);
      var task := tasks[i];
      if task in gone {
        left := left + [task];
      } else {
        ghost var front := tasks[..count];
        tasks[count] := task;
        assert tasks[..count] == front;
        assert tasks[..count + 1] == front + [task];
        count := count + 1;
      }
    }
    assert all[..tasks.Length] == all;
  }

  lemma {:induction false} ActiveConcat(a: seq<Id>, b: seq<Id>, gone: set<Id>)
    ensures Active(a + b, gone) == Active(a, gone) + Active(b, gone)
  {
    if a == [] {
      assert a + b == b;
    } else {
      ActiveConcat(a[1..], b, gone);
      assert (a + b)[0] == a[0] && (a + b)[1..] == a[1..] + b;
      Associates(if a[0] in gone then [] else [a[0]], Active(a[1..], gone), Active(b, gone));
    }
  }

  lemma {:induction false} GoneConcat(a: seq<Id>, b: seq<Id>, gone: set<Id>)
    ensures Gone(a + b, gone) == Gone(a, gone) + Gone(b, gone)
  {
    if a == [] {
      assert a + b == b;
    } else {
      GoneConcat(a[1..], b, gone);
      assert (a + b)[0] == a[0] && (a + b)[1..] == a[1..] + b;
      Associates(if a[0] in gone then [a[0]] else [], Gone(a[1..], gone), Gone(b, gone));
    }
  }

  lemma Associates(a: seq<Id>, b: seq<Id>, c: seq<Id>)
    ensures a + (b + c) == a + b + c
  {
  }

  lemma NothingFiltered(gone: set<Id>)
    ensures Active([], gone) == [] && Gone([], gone) == []
  {
  }

  lemma FilterOne(id: Id, gone: set<Id>)
    ensures Active([id], gone) == if id in gone then [] else [id]
    ensures Gone([id], gone) == if id in gone then [id] else []
  {
    assert [id][1..] == [] && Active([], gone) == [] && Gone([], gone) == [];
  }

  lemma FilterOneMore(ids: seq<Id>, i: nat, gone: set<Id>)
    requires i < |ids|
    ensures Active(ids[..i + 1], gone) == Active(ids[..i], gone) + (if ids[i] in gone then [] else [ids[i]])
    ensures Gone(ids[..i + 1], gone) == Gone(ids[..i], gone) + (if ids[i] in gone then [ids[i]] else [])
  {
    hide Active, Gone;
    assert ids[..i + 1] == ids[..i] + [ids[i]];
    ActiveConcat(ids[..i], [ids[i]], gone);
    GoneConcat(ids[..i], [ids[i]], gone);
    FilterOne(ids[i], gone);
  }

  /** `encodedLookupTasks`: the keys of a request. */
  method EncodedKeys(accepted: seq<Task>, tasks: seq<Id>) returns (keys: seq<Key>)
    requires forall id :: id in tasks ==> id < |accepted|
    ensures keys == KeysOf(accepted, tasks)
  {
    keys := [];
    for i := 0 to |tasks|
      invariant keys == KeysOf(accepted, tasks[..i])
    {
      assert tasks[i] in tasks && tasks[..i + 1] == tasks[..i] + [tasks[i]];
      keys := keys + [accepted[tasks[i]].key];
    }
    assert tasks[..|tasks|] == tasks;
  }

  /** Task results and held slots, updated by whoever completes a task first. */
  class Completions {
    var completed: map<Id, Result>
    var held: int

    ghost predicate Shows(s: System)
      reads this
    {
      s.completed == completed && s.held == held
    }

    constructor (slots: int)
      ensures completed == map[] && held == slots
    {
      completed, held := map[], slots;
    }

    /** `lookupTask.complete` under its once guard. */
    method CompleteOnce(id: Id, r: Result, ghost s: System)
      requires Shows(s)
      modifies this
      ensures Shows(Complete(s, id, r))
    {
      if id !in completed {
        completed := completed[id := r];
        held := held - 1;
      }
    }

    /** `completeLookupTasks` with an error. */
    method FailTasks(tasks: seq<Id>, ghost s: System)
      requires Shows(s)
      modifies this
      ensures Shows(FailAll(s, tasks))
    {
      ghost var now := s;
      assert tasks[0..] == tasks;
      for i := 0 to |tasks|
        invariant Shows(now) && FailAll(now, tasks[i..]) == FailAll(s, tasks)
      {
        assert tasks[i..][0] == tasks[i] && tasks[i..][1..] == tasks[i + 1..];
        CompleteOnce(tasks[i], Error, now);
        now := Complete(now, tasks[i], Error);
      }
      assert tasks[|tasks|..] == [];
    }

    /** `completePointLookupBatch` and its prefix twin at the end of request `w`: the k-th answer goes to the k-th task, or all fail. */
    method CompleteTasks(tasks: seq<Id>, ok: bool, answers: seq<Answer>, ghost s: System, ghost w: nat)
      requires Shows(s) && w < |s.running| && tasks == s.running[w].tasks
      modifies this
      ensures Shows(FinishBatch(s, w, ok, answers))
    {
      ghost var heard := if ok then s.(said := s.said + Replies(s.running[w].group, s.running[w].keys, answers)) else s;
      if !ok || |answers| != |tasks| {
        FailTasks(tasks, heard);
        return;
      }
      ghost var now := heard;
      assert tasks[0..] == tasks && answers[0..] == answers;
      for i := 0 to |tasks|
        invariant Shows(now) && AnswerEach(now, tasks[i..], answers[i..]) == AnswerEach(heard, tasks, answers)
      {
        assert tasks[i..][0] == tasks[i] && tasks[i..][1..] == tasks[i + 1..];
        assert answers[i..][0] == answers[i] && answers[i..][1..] == answers[i + 1..];
        CompleteOnce(tasks[i], Value(answers[i]), now);
        now := Complete(now, tasks[i], Value(answers[i]));
      }
      assert tasks[|tasks|..] == [];
    }
  }

  /** The batches a group is sent as. */
  function Chunks(tasks: seq<Id>, most: nat): (r: seq<seq<Id>>)
    requires most >= 1
    decreases |tasks|
  {
    if tasks == [] then [] else [tasks[..Min(most, |tasks|)]] + Chunks(tasks[Min(most, |tasks|)..], most)
  }

  function Joined(batches: seq<seq<Id>>): seq<Id>
  {
    if batches == [] then [] else batches[0] + Joined(batches[1..])
  }

  /** Batches hold the group's tasks, all of them, in order, none empty and none over the limit. */
  lemma {:induction false} ChunksExact(tasks: seq<Id>, most: nat)
    requires most >= 1
    ensures Joined(Chunks(tasks, most)) == tasks
    ensures forall k :: 0 <= k < |Chunks(tasks, most)| ==> 1 <= |Chunks(tasks, most)[k]| <= most
    decreases |tasks|
  {
    if tasks != [] {
      var n := Min(most, |tasks|);
      ChunksExact(tasks[n..], most);
      var batches := Chunks(tasks, most);
      assert batches[0] == tasks[..n] && batches[1..] == Chunks(tasks[n..], most);
      assert tasks == tasks[..n] + tasks[n..];
    }
  }

  /** The sending loop of `dispatchGroup` when nothing interrupts it. */
  method SendGroup(tasks: seq<Id>, most: nat) returns (batches: seq<seq<Id>>)
    requires most >= 1
    ensures batches == Chunks(tasks, most)
  {
    batches := [];
    var rest := tasks;
    assert [] + Chunks(tasks, most) == Chunks(tasks, most);
    while rest != []
      invariant batches + Chunks(rest, most) == Chunks(tasks, most)
      decreases |rest|
    {
      var count := most;
      if |rest| < count {
        count := |rest|;
      }
      assert batches + ([rest[..count]] + Chunks(rest[count..], most)) == batches + [rest[..count]] + Chunks(rest[count..], most);
      batches := batches + [rest[..count]];
      rest := rest[count..];
    }
  }
}
