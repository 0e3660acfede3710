/** The executor that runs one task instance at a time, in its own process. */
module InProcessExecutor {
  type Key = string

  datatype TaskState = SUCCESS | FAILED | UPSTREAM_FAILED

  /** How running a task instance ends. The first three are handled: it finishes, it raises an error, or it is interrupted
      from the keyboard. Leaving the process is not. */
  datatype Outcome = Finishes | Errors | Interrupted | Exits

  /** What the executor meets when it comes to a task: whether the run is killed by then, and how the task would end. */
  datatype Meeting = Meeting(killed: bool, outcome: Outcome)

  // ----- what becomes of each task -----

  predicate Executes(failFast: bool, failed: bool, m: Meeting) {
    !(failFast && failed) && !m.killed
  }

  function Decide(failFast: bool, failed: bool, m: Meeting): TaskState {
    if failFast && failed then UPSTREAM_FAILED
    else if !m.killed && m.outcome == Finishes then SUCCESS
    else FAILED
  }

  /** A killed task is not a failed one for the tasks after it. */
  predicate FailedThen(failFast: bool, failed: bool, m: Meeting) {
    failed || (Executes(failFast, failed, m) && m.outcome != Finishes)
  }

  function States(failFast: bool, failed: bool, env: seq<Meeting>): (r: seq<TaskState>)
    ensures |r| == |env|
    decreases |env|
  {
    if env == [] then []
    else [Decide(failFast, failed, env[0])] + States(failFast, FailedThen(failFast, failed, env[0]), env[1..])
  }

  function Executed(failFast: bool, failed: bool, env: seq<Meeting>): (r: seq<bool>)
    ensures |r| == |env|
    decreases |env|
  {
    if env == [] then []
    else [Executes(failFast, failed, env[0])] + Executed(failFast, FailedThen(failFast, failed, env[0]), env[1..])
  }

  /** A kill is never taken back. */
  ghost predicate KillsStay(env: seq<Meeting>) {
    forall i, j | 0 <= i <= j < |env| && env[i].killed :: env[j].killed
  }

  lemma {:induction false} AfterFailure(env: seq<Meeting>)
    ensures forall k | 0 <= k < |env| :: States(true, true, env)[k] == UPSTREAM_FAILED && !Executed(true, true, env)[k]
  {
    if env != [] {
      AfterFailure(env[1..]);
    }
  }

  lemma {:induction false} AfterKill(failFast: bool, env: seq<Meeting>)
    requires forall k | 0 <= k < |env| :: env[k].killed
    ensures forall k | 0 <= k < |env| :: States(failFast, false, env)[k] == FAILED && !Executed(failFast, false, env)[k]
  {
    if env != [] {
      AfterKill(failFast, env[1..]);
    }
  }

  /** Failing fast, in queue order: the tasks before position `stop` succeed; if a kill comes first there, it and all after
      it are failed without being executed; otherwise it is executed and fails, and all after it are upstream failed. */
  lemma {:induction false} FailFastPattern(env: seq<Meeting>) returns (stop: nat)
    requires KillsStay(env)
    ensures stop <= |env|
    ensures forall k | 0 <= k < stop :: States(true, false, env)[k] == SUCCESS && Executed(true, false, env)[k]
    ensures forall k | stop < k < |env| :: !Executed(true, false, env)[k]
    ensures stop < |env| ==> Executed(true, false, env)[stop] == !env[stop].killed && States(true, false, env)[stop] == FAILED
    ensures stop < |env| ==> forall k | stop < k < |env| ::
              States(true, false, env)[k] == if env[stop].killed then FAILED else UPSTREAM_FAILED
  {
    if env == [] {
      stop := 0;
    } else if env[0].killed {
      AfterKill(true, env);
      stop := 0;
    } else if env[0].outcome != Finishes {
      AfterFailure(env[1..]);
      stop := 0;
    } else {
      var rest := FailFastPattern(env[1..]);
      stop := rest + 1;
    }
  }

  /** Without it every task stands alone. An interrupt counts as any other failure, in both modes. */
  lemma {:induction false} EachAlone(failed: bool, env: seq<Meeting>, k: nat)
    requires k < |env|
    ensures Executed(false, failed, env)[k] == !env[k].killed
    ensures States(false, failed, env)[k] == if !env[k].killed && env[k].outcome == Finishes then SUCCESS else FAILED
    decreases |env|
  {
    if k > 0 {
      EachAlone(FailedThen(false, failed, env[0]), env[1..], k - 1);
    }
  }

  /** The same, except that one may be interrupted where the other raises an error. */
  ghost predicate FailAlike(m: Meeting, n: Meeting) {
    && m.killed == n.killed
    && (m.outcome == n.outcome || {m.outcome, n.outcome} == {Interrupted, Errors})
  }

  lemma {:induction false} InterruptIsNoDifferent(failFast: bool, failed: bool, env: seq<Meeting>, other: seq<Meeting>)
    requires |other| == |env| && forall k | 0 <= k < |env| :: FailAlike(env[k], other[k])
    ensures States(failFast, failed, env) == States(failFast, failed, other)
    ensures Executed(failFast, failed, env) == Executed(failFast, failed, other)
    decreases |env|
  {
    if env != [] {
      assert FailAlike(env[0], other[0]);
      InterruptIsNoDifferent(failFast, FailedThen(failFast, failed, env[0]), env[1..], other[1..]);
    }
  }

  // ----- the books: who is running, and what was reported -----

  /** `instances` are the states written to task instances that were not executed; `changes` lists every reported change. */
  datatype Books = Books(running: set<Key>, events: map<Key, TaskState>, instances: map<Key, TaskState>,
                         changes: seq<(Key, TaskState)>)

  function Change(b: Books, key: Key, state: TaskState): Books {
    b.(running := b.running - {key}, events := b.events[key := state], changes := b.changes + [(key, state)])
  }

  function SetState(b: Books, key: Key, state: TaskState): Books {
    b.(instances := b.instances[key := state])
  }

  /** The books after the tasks are gone through, and whether an exception got out. */
  function Synced(failFast: bool, failed: bool, b: Books, tasks: seq<Key>, env: seq<Meeting>): (Books, bool)
    requires |tasks| == |env|
    decreases |tasks|
  {
    if tasks == [] then (b, false)
    else
      var state := Decide(failFast, failed, env[0]);
      var c := if Executes(failFast, failed, env[0]) then b else SetState(b, tasks[0], state);
      if tasks[0] !in b.running || (Executes(failFast, failed, env[0]) && env[0].outcome == Exits) then (c, true)
      else Synced(failFast, FailedThen(failFast, failed, env[0]), Change(c, tasks[0], state), tasks[1..], env[1..])
  }

  ghost predicate Unique(tasks: seq<Key>) {
    forall i, j | 0 <= i < j < |tasks| :: tasks[i] != tasks[j]
  }

  ghost predicate AllRunning(b: Books, tasks: seq<Key>) {
    forall k | k in tasks :: k in b.running
  }

  ghost predicate Leaves(failFast: bool, env: seq<Meeting>, failed: bool) {
    exists k | 0 <= k < |env| :: Executed(failFast, failed, env)[k] && env[k].outcome == Exits
  }

  lemma LeavesTail(failFast: bool, env: seq<Meeting>, failed: bool)
    requires env != []
    ensures Leaves(failFast, env, failed) <==>
            (Executes(failFast, failed, env[0]) && env[0].outcome == Exits)
            || Leaves(failFast, env[1..], FailedThen(failFast, failed, env[0]))
  {
    var whole, rest := Executed(failFast, failed, env), Executed(failFast, FailedThen(failFast, failed, env[0]), env[1..]);
    assert forall k | 0 <= k < |env[1..]| :: rest[k] == whole[k + 1] && env[1..][k] == env[k + 1];
    if k :| 0 <= k < |env| && whole[k] && env[k].outcome == Exits {
      assert k > 0 ==> rest[k - 1] && env[1..][k - 1].outcome == Exits;
    }
    if k :| 0 <= k < |env[1..]| && rest[k] && env[1..][k].outcome == Exits {
      assert whole[k + 1] && env[k + 1].outcome == Exits;
    }
  }

  /** An exception gets out exactly when a key comes up that is not running any more, or an executed task leaves. */
  lemma {:induction false} RaisesExactly(failFast: bool, failed: bool, b: Books, tasks: seq<Key>, env: seq<Meeting>)
    requires |tasks| == |env|
    ensures Synced(failFast, failed, b, tasks, env).1 <==>
            !(Unique(tasks) && AllRunning(b, tasks)) || Leaves(failFast, env, failed)
    decreases |tasks|
  {
    if tasks != [] {
      var state := Decide(failFast, failed, env[0]);
      var c := if Executes(failFast, failed, env[0]) then b else SetState(b, tasks[0], state);
      var d := Change(c, tasks[0], state);
      LeavesTail(failFast, env, failed);
      RaisesExactly(failFast, FailedThen(failFast, failed, env[0]), d, tasks[1..], env[1..]);
      RunningTail(b, d, tasks);
    }
  }

  lemma RunningTail(b: Books, d: Books, tasks: seq<Key>)
    requires tasks != [] && d.running == b.running - {tasks[0]}
    ensures Unique(tasks) && AllRunning(b, tasks) <==>
            tasks[0] in b.running && Unique(tasks[1..]) && AllRunning(d, tasks[1..])
  {
    assert tasks == [tasks[0]] + tasks[1..];
    if tasks[0] in b.running && Unique(tasks[1..]) && AllRunning(d, tasks[1..]) {
      assert tasks[0] !in tasks[1..];
    }
  }

  function Zip(tasks: seq<Key>, states: seq<TaskState>): seq<(Key, TaskState)>
    requires |tasks| == |states|
  {
    if tasks == [] then [] else [(tasks[0], states[0])] + Zip(tasks[1..], states[1..])
  }

  /** When nothing gets out every task is accounted for once: it has left the running ones, and the changes reported are one
      per task, in queue order. */
  lemma {:induction false} AccountedForOnce(failFast: bool, failed: bool, b: Books, tasks: seq<Key>, env: seq<Meeting>)
    requires |tasks| == |env| && !Synced(failFast, failed, b, tasks, env).1
    ensures var after := Synced(failFast, failed, b, tasks, env).0;
            && after.running == b.running - (set k | k in tasks)
            && after.changes == b.changes + Zip(tasks, States(failFast, failed, env))
    decreases |tasks|
  {
    if tasks != [] {
      var state := Decide(failFast, failed, env[0]);
      var c := if Executes(failFast, failed, env[0]) then b else SetState(b, tasks[0], state);
      var d := Change(c, tasks[0], state);
      AccountedForOnce(failFast, FailedThen(failFast, failed, env[0]), d, tasks[1..], env[1..]);
      assert tasks == [tasks[0]] + tasks[1..];
    }
  }

  ghost predicate SameInstance(b: Books, c: Books, key: Key) {
    (key in c.instances <==> key in b.instances) && (key in b.instances ==> c.instances[key] == b.instances[key])
  }

  /** The executor writes the state of a task's instance exactly when it did not execute the task. */
  lemma {:induction false} InstancesAre(failFast: bool, failed: bool, b: Books, tasks: seq<Key>, env: seq<Meeting>, k: nat)
    requires |tasks| == |env| && !Synced(failFast, failed, b, tasks, env).1 && Unique(tasks) && k < |tasks|
    ensures var after := Synced(failFast, failed, b, tasks, env).0;
            if Executed(failFast, failed, env)[k] then SameInstance(b, after, tasks[k])
            else tasks[k] in after.instances && after.instances[tasks[k]] == States(failFast, failed, env)[k]
    decreases |tasks|
  {
    var state := Decide(failFast, failed, env[0]);
    var c := if Executes(failFast, failed, env[0]) then b else SetState(b, tasks[0], state);
    var d := Change(c, tasks[0], state);
    if k == 0 {
      OtherInstances(failFast, FailedThen(failFast, failed, env[0]), d, tasks[1..], env[1..], tasks[0]);
    } else {
      InstancesAre(failFast, FailedThen(failFast, failed, env[0]), d, tasks[1..], env[1..], k - 1);
      assert SameInstance(b, d, tasks[k]);
    }
  }

  lemma {:induction false} OtherInstances(failFast: bool, failed: bool, b: Books, tasks: seq<Key>, env: seq<Meeting>, key: Key)
    requires |tasks| == |env| && !Synced(failFast, failed, b, tasks, env).1 && key !in tasks
    ensures SameInstance(b, Synced(failFast, failed, b, tasks, env).0, key)
    decreases |tasks|
  {
    if tasks != [] {
      var state := Decide(failFast, failed, env[0]);
      var c := if Executes(failFast, failed, env[0]) then b else SetState(b, tasks[0], state);
      OtherInstances(failFast, FailedThen(failFast, failed, env[0]), Change(c, tasks[0], state), tasks[1..], env[1..], key);
    }
  }

  /** ... and its event is its state. Other keys keep theirs. */
  lemma {:induction false} EventsAre(failFast: bool, failed: bool, b: Books, tasks: seq<Key>, env: seq<Meeting>)
    requires |tasks| == |env| && !Synced(failFast, failed, b, tasks, env).1 && Unique(tasks)
    ensures var after := Synced(failFast, failed, b, tasks, env).0;
            && (forall k | 0 <= k < |tasks| :: tasks[k] in after.events && after.events[tasks[k]] == States(failFast, failed, env)[k])
            && (forall key | key !in tasks :: (key in after.events <==> key in b.events)
                                              && (key in b.events ==> after.events[key] == b.events[key]))
    decreases |tasks|
  {
    if tasks != [] {
      var state := Decide(failFast, failed, env[0]);
      var c := if Executes(failFast, failed, env[0]) then b else SetState(b, tasks[0], state);
      var d := Change(c, tasks[0], state);
      EventsAre(failFast, FailedThen(failFast, failed, env[0]), d, tasks[1..], env[1..]);
      assert tasks == [tasks[0]] + tasks[1..];
      assert tasks[0] !in tasks[1..];
    }
  }

  class InProcessExecutor {
    const failFast: bool
    var tasksToRun: seq<Key>
    var queued: set<Key>
    var running: set<Key>
    var eventBuffer: map<Key, TaskState>
    /** States written to task instances by the executor itself. */
    var instances: map<Key, TaskState>
    ghost var changes: seq<(Key, TaskState)>

    ghost function TheBooks(): Books
      reads this
    {
      Books(running, eventBuffer, instances, changes)
    }

    /** What holds between calls until the executor is ended. */
    ghost predicate Valid()
      reads this
    {
      Unique(tasksToRun) && AllRunning(TheBooks(), tasksToRun) && queued !! running
    }

    constructor (failFast: bool)
      ensures Valid() && tasksToRun == [] && TheBooks() == Books({}, map[], map[], []) && this.failFast == failFast
    {
      this.failFast, tasksToRun, queued, running := failFast, [], {}, {};
      eventBuffer, instances, changes := map[], map[], [];
    }

    /** A key is accepted only when it is neither queued nor running. */
    method QueueCommand(key: Key) returns (accepted: bool)
      modifies this`queued
      ensures accepted <==> key !in old(queued) && key !in running
      ensures queued == if accepted then old(queued) + {key} else old(queued)
      ensures old(Valid()) ==> Valid()
    {
      accepted := key !in queued && key !in running;
      if accepted {
        queued := queued + {key};
      }
    }

    method ExecuteAsync(key: Key)
      modifies this`tasksToRun
      ensures tasksToRun == old(tasksToRun) + [key]
    {
      tasksToRun := tasksToRun + [key];
    }

    /** The base executor's step from queued to running. */
    method Trigger(key: Key)
      requires key in queued
      modifies this`queued, this`running, this`tasksToRun
      ensures queued == old(queued) - {key} && running == old(running) + {key} && tasksToRun == old(tasksToRun) + [key]
      ensures old(Valid()) ==> Valid()
    {
      queued := queued - {key};
      running := running + {key};
      ExecuteAsync(key);
    }

    /** Fails when the key is not running. */
    method ChangeState(key: Key, state: TaskState) returns (ok: bool)
      modifies this`running, this`eventBuffer, this`changes
      ensures ok <==> key in old(running)
      ensures TheBooks() == if ok then Change(old(TheBooks()), key, state) else old(TheBooks())
    {
      ok := key in running;
      if ok {
        running := running - {key};
        eventBuffer := eventBuffer[key := state];
        changes := changes + [(key, state)];
      }
    }

    /** One turn of the loop in `sync`. */
    method Handle(key: Key, m: Meeting, failed: bool) returns (raised: bool, nowFailed: bool)
      modifies this`running, this`eventBuffer, this`changes, this`instances
      ensures var state := Decide(failFast, failed, m);
              var c := if Executes(failFast, failed, m) then old(TheBooks()) else SetState(old(TheBooks()), key, state);
              && raised == (key !in old(running) || (Executes(failFast, failed, m) && m.outcome == Exits))
              && TheBooks() == (if raised then c else Change(c, key, state))
              && (!raised ==> nowFailed == FailedThen(failFast, failed, m))
    {
      nowFailed := failed;
      var ok;
      if failFast && failed {
        instances := instances[key := UPSTREAM_FAILED];
        ok := ChangeState(key, UPSTREAM_FAILED);
      } else if m.killed {
        instances := instances[key := FAILED];
        ok := ChangeState(key, FAILED);
      } else {
        match m.outcome
        case Exits =>
          ok := false;
        case Finishes =>
          ok := ChangeState(key, SUCCESS);
          if !ok {
            // the handlers catch the failed report of success, and fail to report the failure
            nowFailed := true;
            ok := ChangeState(key, FAILED);
          }
        case Errors =>
          nowFailed := true;
          ok := ChangeState(key, FAILED);
        case Interrupted =>
          nowFailed := true;
          var localFailFast := true;
          ok := ChangeState(key, FAILED);
      }
      raised := !ok;
    }

    /** Goes through the tasks in order; an exception that gets out leaves the list as it was. */
    method Sync(env: seq<Meeting>) returns (raised: bool)
      requires |env| == |tasksToRun|
      modifies this`running, this`eventBuffer, this`changes, this`instances, this`tasksToRun
      ensures (TheBooks(), raised) == Synced(failFast, false, old(TheBooks()), old(tasksToRun), env)
      ensures tasksToRun == if raised then old(tasksToRun) else []
      ensures old(Valid()) && !raised ==> Valid()
      ensures old(Valid()) ==> (raised <==> Leaves(failFast, env, false))
    {
      RaisesExactly(failFast, false, TheBooks(), tasksToRun, env);
      var taskFailed := false;
      raised := false;
      var k := 0;
      assert env[0..] == env && tasksToRun[0..] == tasksToRun;
      while k < |tasksToRun|
        invariant 0 <= k <= |env| && !raised && tasksToRun == old(tasksToRun)
        invariant Synced(failFast, false, old(TheBooks()), old(tasksToRun), env)
                  == Synced(failFast, taskFailed, TheBooks(), tasksToRun[k..], env[k..])
        invariant running <= old(running)
        decreases |tasksToRun| - k
      {
        assert tasksToRun[k..][1..] == tasksToRun[k + 1..] && env[k..][1..] == env[k + 1..];
        raised, taskFailed := Handle(tasksToRun[k], env[k], taskFailed);
        if raised {
          return;
        }
        k := k + 1;
      }
      tasksToRun := [];
    }

    /** Gives up the tasks that were not run. The list is not cleared. */
    method End() returns (raised: bool)
      modifies this`running, this`eventBuffer, this`changes, this`instances
      ensures tasksToRun == old(tasksToRun)
      ensures (TheBooks(), raised) == GivenUp(old(TheBooks()), tasksToRun)
    {
      var k := 0;
      assert tasksToRun[0..] == tasksToRun;
      while k < |tasksToRun|
        invariant 0 <= k <= |tasksToRun|
        invariant GivenUp(old(TheBooks()), tasksToRun) == GivenUp(TheBooks(), tasksToRun[k..])
        decreases |tasksToRun| - k
      {
        assert tasksToRun[k..][1..] == tasksToRun[k + 1..];
        instances := instances[tasksToRun[k] := UPSTREAM_FAILED];
        var ok := ChangeState(tasksToRun[k], UPSTREAM_FAILED);
        if !ok {
          return true;
        }
        k := k + 1;
      }
      return false;
    }
  }

  /** The books after the executor is ended. */
  function GivenUp(b: Books, tasks: seq<Key>): (Books, bool)
    decreases |tasks|
  {
    if tasks == [] then (b, false)
    else
      var c := SetState(b, tasks[0], UPSTREAM_FAILED);
      if tasks[0] !in b.running then (c, true)
      else GivenUp(Change(c, tasks[0], UPSTREAM_FAILED), tasks[1..])
  }

  /** Ending is like failing fast on everything; it works once, and then neither it nor a sync does while tasks remain. */
  lemma {:induction false} GivenUpAsFailed(b: Books, tasks: seq<Key>, env: seq<Meeting>)
    requires |env| == |tasks|
    ensures GivenUp(b, tasks) == Synced(true, true, b, tasks, env)
    decreases |tasks|
  {
    if tasks != [] {
      var c := SetState(b, tasks[0], UPSTREAM_FAILED);
      GivenUpAsFailed(Change(c, tasks[0], UPSTREAM_FAILED), tasks[1..], env[1..]);
    }
  }

  lemma EndsOnce(b: Books, tasks: seq<Key>, env: seq<Meeting>, failFast: bool)
    requires |env| == |tasks| && tasks != [] && Unique(tasks) && AllRunning(b, tasks)
    ensures !GivenUp(b, tasks).1
    ensures GivenUp(GivenUp(b, tasks).0, tasks).1
    ensures Synced(failFast, false, GivenUp(b, tasks).0, tasks, env).1
  {
    GivenUpAsFailed(b, tasks, env);
    RaisesExactly(true, true, b, tasks, env);
    AfterFailure(env);
    AccountedForOnce(true, true, b, tasks, env);
    assert tasks[0] in tasks;
  }
}
