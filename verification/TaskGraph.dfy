/** Translating the selected tasks of a run into the operators of an Airflow DAG. */
module TaskGraph {
  import opened Common

  type TaskId = string

  /** An Airflow operator. Ids of its neighbours are kept on both sides of an edge. */
  class Operator {
    const taskId: string
    var upstreamIds: set<string>
    var downstreamIds: set<string>
    var dag: Dag?

    constructor (taskId: string, dag: Dag)
      ensures this.taskId == taskId && this.dag == dag && upstreamIds == {} && downstreamIds == {}
    {
      this.taskId, this.dag, upstreamIds, downstreamIds := taskId, dag, {}, {};
    }
  }

  class Dag {
    var tasks: seq<Operator>

    constructor ()
      ensures tasks == []
    {
      tasks := [];
    }
  }

  /** A selected task: its own id, the id its operator has, the tasks directly upstream of it, and the operator to reuse if
      the task stands for one. */
  datatype TaskRun = TaskRun(task: TaskId, afId: string, upstream: seq<TaskId>, reused: Option<Operator>)

  ghost predicate TasksDiffer(runs: seq<TaskRun>) {
    forall i, j | 0 <= i < j < |runs| :: runs[i].task != runs[j].task
  }

  ghost predicate AfIdsDiffer(runs: seq<TaskRun>) {
    forall i, j | 0 <= i < j < |runs| :: runs[i].afId != runs[j].afId
  }

  ghost predicate ReusedFit(runs: seq<TaskRun>) {
    forall i | 0 <= i < |runs| && runs[i].reused.Some? :: runs[i].reused.value.taskId == runs[i].afId
  }

  // ----- the meaning of the translation, on ids -----

  /** The task at `j` is directly upstream of the task at `i`. */
  predicate Edge(runs: seq<TaskRun>, i: nat, j: nat) {
    i < |runs| && j < |runs| && runs[j].task in runs[i].upstream
  }

  /** The operator ids of the selected tasks directly upstream of the one at `i`. */
  ghost function UpIds(runs: seq<TaskRun>, i: nat): set<string> {
    set j | 0 <= j < |runs| && Edge(runs, i, j) :: runs[j].afId
  }

  /** Every operator has exactly the upstream ids it should have, and there is nothing else. */
  ghost predicate Induced(runs: seq<TaskRun>, up: map<string, set<string>>) {
    && up.Keys == (set i | 0 <= i < |runs| :: runs[i].afId)
    && forall i | 0 <= i < |runs| :: up[runs[i].afId] == UpIds(runs, i)
  }

  /** The operator graph is the task graph restricted to the selected tasks: its edges are the same. */
  lemma EdgesAreTheSame(runs: seq<TaskRun>, up: map<string, set<string>>, i: nat, j: nat)
    requires AfIdsDiffer(runs) && Induced(runs, up) && i < |runs| && j < |runs|
    ensures runs[i].afId in up && (runs[j].afId in up[runs[i].afId] <==> Edge(runs, i, j))
  {
    if runs[j].afId in UpIds(runs, i) {
      var k :| 0 <= k < |runs| && Edge(runs, i, k) && runs[k].afId == runs[j].afId;
    }
  }

  /** A walk along upstream edges, as positions in `runs`. */
  ghost predicate TaskWalk(runs: seq<TaskRun>, w: seq<nat>) {
    (forall k | 0 <= k < |w| :: w[k] < |runs|) && forall k | 0 < k < |w| :: Edge(runs, w[k - 1], w[k])
  }

  ghost predicate OperatorWalk(up: map<string, set<string>>, w: seq<string>) {
    (forall k | 0 <= k < |w| :: w[k] in up) && forall k | 0 < k < |w| :: w[k] in up[w[k - 1]]
  }

  ghost predicate Closed<T>(w: seq<T>) {
    |w| > 1 && w[0] == w[|w| - 1]
  }

  ghost predicate CyclicTasks(runs: seq<TaskRun>) {
    exists w: seq<nat> :: TaskWalk(runs, w) && Closed(w)
  }

  ghost predicate CyclicOperators(up: map<string, set<string>>) {
    exists w :: OperatorWalk(up, w) && Closed(w)
  }

  function IdsOf(runs: seq<TaskRun>, w: seq<nat>): (r: seq<string>)
    requires forall k | 0 <= k < |w| :: w[k] < |runs|
    ensures |r| == |w| && forall k | 0 <= k < |w| :: r[k] == runs[w[k]].afId
  {
    seq(|w|, k requires 0 <= k < |w| => runs[w[k]].afId)
  }

  lemma WalkBack(runs: seq<TaskRun>, up: map<string, set<string>>, w: seq<string>) returns (tasks: seq<nat>)
    requires AfIdsDiffer(runs) && Induced(runs, up) && OperatorWalk(up, w)
    ensures TaskWalk(runs, tasks) && |tasks| == |w| && forall k | 0 <= k < |w| :: runs[tasks[k]].afId == w[k]
  {
    tasks := [];
    while |tasks| < |w|
      invariant |tasks| <= |w|
      invariant forall k | 0 <= k < |tasks| :: tasks[k] < |runs| && runs[tasks[k]].afId == w[k]
      decreases |w| - |tasks|
    {
      assert w[|tasks|] in up.Keys;
      var i: nat :| i < |runs| && runs[i].afId == w[|tasks|];
      tasks := tasks + [i];
    }
    forall k | 0 < k < |tasks| ensures Edge(runs, tasks[k - 1], tasks[k]) {
      EdgesAreTheSame(runs, up, tasks[k - 1], tasks[k]);
    }
  }

  /** The operators have a cycle exactly when the selected tasks have one among themselves. */
  lemma CyclesAreTheSame(runs: seq<TaskRun>, up: map<string, set<string>>)
    requires AfIdsDiffer(runs) && Induced(runs, up)
    ensures CyclicOperators(up) <==> CyclicTasks(runs)
  {
    if CyclicOperators(up) {
      var w :| OperatorWalk(up, w) && Closed(w);
      var tasks := WalkBack(runs, up, w);
      assert Closed(tasks);
    }
    if CyclicTasks(runs) {
      var w: seq<nat> :| TaskWalk(runs, w) && Closed(w);
      var ids := IdsOf(runs, w);
      forall k | 0 <= k < |ids| ensures ids[k] in up {
        EdgesAreTheSame(runs, up, w[k], w[k]);
      }
      forall k | 0 < k < |ids| ensures ids[k] in up[ids[k - 1]] {
        EdgesAreTheSame(runs, up, w[k - 1], w[k]);
      }
      assert OperatorWalk(up, ids) && Closed(ids);
    }
  }

  /** An order in which everything comes after what is upstream of it. */
  ghost predicate TaskOrder(runs: seq<TaskRun>, order: seq<nat>) {
    forall k, l | 0 <= k < |order| && 0 <= l < |order| && Edge(runs, order[k], order[l]) :: l < k
  }

  ghost predicate OperatorOrder(up: map<string, set<string>>, order: seq<string>) {
    forall k, l | 0 <= k < |order| && 0 <= l < |order| && order[k] in up && order[l] in up[order[k]] :: l < k
  }

  /** An order of the tasks serves the operators, and the other way round. */
  lemma OrdersAreTheSame(runs: seq<TaskRun>, up: map<string, set<string>>, order: seq<nat>)
    requires AfIdsDiffer(runs) && Induced(runs, up) && forall k | 0 <= k < |order| :: order[k] < |runs|
    ensures TaskOrder(runs, order) <==> OperatorOrder(up, IdsOf(runs, order))
  {
    var ids := IdsOf(runs, order);
    forall k, l | 0 <= k < |order| && 0 <= l < |order|
      ensures ids[k] in up && (ids[l] in up[ids[k]] <==> Edge(runs, order[k], order[l]))
    {
      EdgesAreTheSame(runs, up, order[k], order[l]);
    }
  }

  // ----- the translation itself -----

  /** `ops` has the operators of `list`, the one at `i` under the task at `i`. */
  ghost predicate Table(runs: seq<TaskRun>, list: seq<Operator>, ops: map<TaskId, Operator>) {
    && |list| <= |runs|
    && (forall i | 0 <= i < |list| :: runs[i].task in ops && ops[runs[i].task] == list[i] && list[i].taskId == runs[i].afId)
    && (forall t | t in ops :: exists i | 0 <= i < |list| :: runs[i].task == t)
  }

  function TableOf(runs: seq<TaskRun>, list: seq<Operator>): map<TaskId, Operator>
    requires |list| <= |runs|
  {
    if list == [] then map[] else TableOf(runs, list[..|list| - 1])[runs[|list| - 1].task := list[|list| - 1]]
  }

  lemma {:induction false} TableIsTable(runs: seq<TaskRun>, list: seq<Operator>)
    requires TasksDiffer(runs) && |list| <= |runs|
    requires forall i | 0 <= i < |list| :: list[i].taskId == runs[i].afId
    ensures Table(runs, list, TableOf(runs, list))
  {
    if list != [] {
      var last := |list| - 1;
      var ops := TableOf(runs, list);
      TableIsTable(runs, list[..last]);
      forall t | t in ops ensures exists i | 0 <= i < |list| :: runs[i].task == t {
        if t != runs[last].task {
          var i :| 0 <= i < last && runs[i].task == t;
        }
      }
    }
  }

  /** The ids of those of `tasks` that have an operator. */
  function Selected(ops: map<TaskId, Operator>, tasks: seq<TaskId>): set<string> {
    set t | t in tasks && t in ops :: ops[t].taskId
  }

  lemma SelectedNext(ops: map<TaskId, Operator>, tasks: seq<TaskId>, k: nat)
    requires k < |tasks|
    ensures Selected(ops, tasks[..k + 1]) == Selected(ops, tasks[..k]) + if tasks[k] in ops then {ops[tasks[k]].taskId} else {}
  {
    assert tasks[..k + 1] == tasks[..k] + [tasks[k]];
  }

  lemma SelectedAreUpIds(runs: seq<TaskRun>, list: seq<Operator>, ops: map<TaskId, Operator>, i: nat)
    requires Table(runs, list, ops) && |list| == |runs| && i < |runs|
    ensures Selected(ops, runs[i].upstream) == UpIds(runs, i)
  {
    forall id | id in Selected(ops, runs[i].upstream) ensures id in UpIds(runs, i) {
      var t :| t in runs[i].upstream && t in ops && ops[t].taskId == id;
      var j :| 0 <= j < |list| && runs[j].task == t;
      assert Edge(runs, i, j);
    }
    forall id | id in UpIds(runs, i) ensures id in Selected(ops, runs[i].upstream) {
      var j :| 0 <= j < |runs| && Edge(runs, i, j) && runs[j].afId == id;
      assert runs[j].task in ops;
    }
  }

  method SetUpstream(op: Operator, up: Operator)
    modifies op`upstreamIds, up`downstreamIds
    ensures op.upstreamIds == old(op.upstreamIds) + {up.taskId}
    ensures up.downstreamIds == old(up.downstreamIds) + {op.taskId}
  {
    op.upstreamIds := op.upstreamIds + {up.taskId};
    up.downstreamIds := up.downstreamIds + {op.taskId};
  }

  /** Different tasks have operators with different ids. */
  ghost predicate IdsDiffer(ops: map<TaskId, Operator>) {
    forall t, u | t in ops && u in ops && t != u :: ops[t].taskId != ops[u].taskId
  }

  lemma TableIdsDiffer(runs: seq<TaskRun>, list: seq<Operator>, ops: map<TaskId, Operator>)
    requires AfIdsDiffer(runs) && Table(runs, list, ops)
    ensures IdsDiffer(ops)
  {
    forall t, u | t in ops && u in ops && t != u ensures ops[t].taskId != ops[u].taskId {
      var i :| 0 <= i < |list| && runs[i].task == t;
      var j :| 0 <= j < |list| && runs[j].task == u;
    }
  }

  /** The second pass for one task: its upstream tasks that were not selected are skipped. */
  method LinkUpstream(ops: map<TaskId, Operator>, op: Operator, upstream: seq<TaskId>)
    requires op in ops.Values && IdsDiffer(ops) && op.upstreamIds == {}
    modifies op`upstreamIds, ops.Values`downstreamIds
    ensures op.upstreamIds == Selected(ops, upstream)
    ensures forall t | t in ops :: ops[t].downstreamIds == old(ops[t].downstreamIds)
              + if ops[t].taskId in op.upstreamIds then {op.taskId} else {}
  {
    for k := 0 to |upstream|
      invariant op.upstreamIds == Selected(ops, upstream[..k])
      invariant forall t | t in ops :: ops[t].downstreamIds == old(ops[t].downstreamIds)
                  + if ops[t].taskId in op.upstreamIds then {op.taskId} else {}
    {
      var t := upstream[k];
      SelectedNext(ops, upstream, k);
      if t in ops {
        assert ops[t] in ops.Values;
        if ops[t].taskId !in op.upstreamIds {
          SetUpstream(op, ops[t]);
        }
      }
    }
    assert upstream[..|upstream|] == upstream;
  }

  ghost function ReusedOp(run: TaskRun): set<Operator> {
    if run.reused.Some? then {run.reused.value} else {}
  }

  /** The first pass for one task: a reused operator is moved to this DAG and loses its upstream ids, but not its downstream
      ids; other tasks get a new operator. */
  method MakeOperator(run: TaskRun, dag: Dag) returns (op: Operator)
    requires run.reused.Some? ==> run.reused.value.taskId == run.afId
    modifies dag`tasks, ReusedOp(run)`dag, ReusedOp(run)`upstreamIds
    ensures run.reused.Some? ==> op == run.reused.value
    ensures run.reused.None? ==> fresh(op)
    ensures op.downstreamIds == Kept(run) && Unlinked(run, op, dag)
    ensures dag.tasks == old(dag.tasks) + [op]
  {
    if run.reused.Some? {
      op := run.reused.value;
      op.dag := dag;
      op.upstreamIds := {};
    } else {
      op := new Operator(run.afId, dag);
    }
    dag.tasks := dag.tasks + [op];
  }

  /** Operator `op` is the one for `run` and has not been linked yet. */
  ghost predicate Unlinked(run: TaskRun, op: Operator, dag: Dag)
    reads op
  {
    op.taskId == run.afId && op.dag == dag && op.upstreamIds == {} && (run.reused.Some? ==> op == run.reused.value)
  }

  /** The downstream ids an operator keeps from before. */
  twostate function Kept(run: TaskRun): set<string>
  {
    if run.reused.Some? then old(run.reused.value.downstreamIds) else {}
  }

  ghost function ReusedOps(runs: seq<TaskRun>): set<Operator> {
    set i | 0 <= i < |runs| && runs[i].reused.Some? :: runs[i].reused.value
  }

  /** The first pass. */
  method MakeOperators(runs: seq<TaskRun>, dag: Dag) returns (ops: map<TaskId, Operator>, ghost list: seq<Operator>)
    requires TasksDiffer(runs) && AfIdsDiffer(runs) && ReusedFit(runs)
    modifies dag`tasks, ReusedOps(runs)`dag, ReusedOps(runs)`upstreamIds
    ensures |list| == |runs| && dag.tasks == old(dag.tasks) + list && Table(runs, list, ops)
    ensures forall i | 0 <= i < |runs| :: Unlinked(runs[i], list[i], dag) && list[i].downstreamIds == Kept(runs[i])
    ensures forall i | 0 <= i < |runs| :: list[i] in ReusedOps(runs) || fresh(list[i])
  {
    list, ops := [], map[];
    for k := 0 to |runs|
      invariant |list| == k && dag.tasks == old(dag.tasks) + list && ops == TableOf(runs, list)
      invariant forall i | 0 <= i < k :: Unlinked(runs[i], list[i], dag)
      invariant forall i | 0 <= i < k :: list[i].downstreamIds == Kept(runs[i])
      invariant forall i | 0 <= i < k :: list[i] in ReusedOps(runs) || fresh(list[i])
    {
      ghost var was := list;
      var op := MakeOperator(runs[k], dag);
      ops := ops[runs[k].task := op];
      list := list + [op];
      assert list[..k] == was;
      forall i | 0 <= i < k ensures Unlinked(runs[i], was[i], dag) {
        assert was[i].taskId != op.taskId;
      }
    }
    TableIsTable(runs, list);
  }

  /** The ids of the tasks among the first `k` that have the task at `i` directly upstream. */
  ghost function Downstream(runs: seq<TaskRun>, i: nat, k: nat): set<string>
    requires k <= |runs|
  {
    set j | 0 <= j < k && Edge(runs, j, i) :: runs[j].afId
  }

  lemma OneMoreDownstream(runs: seq<TaskRun>, i: nat, k: nat)
    requires AfIdsDiffer(runs) && k < |runs| && i < |runs|
    ensures Downstream(runs, i, k + 1)
            == Downstream(runs, i, k) + if runs[i].afId in UpIds(runs, k) then {runs[k].afId} else {}
  {
    if runs[i].afId in UpIds(runs, k) {
      var j :| 0 <= j < |runs| && Edge(runs, k, j) && runs[j].afId == runs[i].afId;
      assert j == i;
    }
  }

  ghost function Ups(list: seq<Operator>): (r: seq<set<string>>)
    reads list
    ensures |r| == |list| && forall i | 0 <= i < |list| :: r[i] == list[i].upstreamIds
  {
    seq(|list|, i requires 0 <= i < |list| reads list => list[i].upstreamIds)
  }

  ghost function Downs(list: seq<Operator>): (r: seq<set<string>>)
    reads list
    ensures |r| == |list| && forall i | 0 <= i < |list| :: r[i] == list[i].downstreamIds
  {
    seq(|list|, i requires 0 <= i < |list| reads list => list[i].downstreamIds)
  }

  /** The downstream ids after the task at `k` was linked. */
  ghost predicate DownsGrow(runs: seq<TaskRun>, before: seq<set<string>>, after: seq<set<string>>, k: nat)
    requires k < |runs| == |before| == |after|
  {
    forall i | 0 <= i < |runs| ::
      after[i] == before[i] + if runs[i].afId in UpIds(runs, k) then {runs[k].afId} else {}
  }

  /** What the neighbours' ids are when the first `k` tasks are linked, and the downstream ids were `base`. */
  ghost predicate Linked(runs: seq<TaskRun>, ups: seq<set<string>>, downs: seq<set<string>>, base: seq<set<string>>, k: nat)
    requires k <= |runs| == |ups| == |downs| == |base|
  {
    forall i | 0 <= i < |runs| ::
      ups[i] == (if i < k then UpIds(runs, i) else {}) && downs[i] == base[i] + Downstream(runs, i, k)
  }

  lemma LinkedStep(runs: seq<TaskRun>, ups: seq<set<string>>, downs: seq<set<string>>, after: seq<set<string>>,
                   base: seq<set<string>>, k: nat)
    requires k < |runs| == |ups| == |downs| == |base| == |after| && AfIdsDiffer(runs)
    requires Linked(runs, ups, downs, base, k) && DownsGrow(runs, downs, after, k)
    ensures Linked(runs, ups[k := UpIds(runs, k)], after, base, k + 1)
  {
    forall i | 0 <= i < |runs| ensures after[i] == base[i] + Downstream(runs, i, k + 1) {
      OneMoreDownstream(runs, i, k);
    }
  }

  /** The second pass for the task at `k`. */
  method LinkOne(runs: seq<TaskRun>, ops: map<TaskId, Operator>, op: Operator, k: nat, ghost list: seq<Operator>)
    requires AfIdsDiffer(runs) && k < |runs| == |list| && Table(runs, list, ops) && op == list[k] && op.upstreamIds == {}
    modifies op`upstreamIds, list`downstreamIds
    ensures Ups(list) == old(Ups(list))[k := UpIds(runs, k)]
    ensures DownsGrow(runs, old(Downs(list)), Downs(list), k)
  {
    TableIdsDiffer(runs, list, ops);
    SelectedAreUpIds(runs, list, ops, k);
    assert ops[runs[k].task] == list[k];
    assert forall i | 0 <= i < |list| && i != k :: list[i].taskId != list[k].taskId;
    LinkUpstream(ops, op, runs[k].upstream);
    assert forall i | 0 <= i < |list| :: list[i] == ops[runs[i].task];
  }

  /** The second pass. */
  method LinkOperators(runs: seq<TaskRun>, ops: map<TaskId, Operator>, ghost list: seq<Operator>)
    requires AfIdsDiffer(runs) && |runs| == |list| && Table(runs, list, ops)
    requires forall i | 0 <= i < |list| :: list[i].upstreamIds == {}
    modifies list`upstreamIds, list`downstreamIds
    ensures Linked(runs, Ups(list), Downs(list), old(Downs(list)), |runs|)
  {
    for k := 0 to |runs|
      invariant Linked(runs, Ups(list), Downs(list), old(Downs(list)), k)
    {
      ghost var ups, downs := Ups(list), Downs(list);
      LinkOne(runs, ops, ops[runs[k].task], k, list);
      LinkedStep(runs, ups, downs, Downs(list), old(Downs(list)), k);
    }
  }

  /** The DAG gets one operator per selected task, in order, whose upstream ids are exactly those of its selected upstream
      tasks. Downstream ids are right too, except that a reused operator keeps those it had. */
  method BuildOperators(runs: seq<TaskRun>, dag: Dag) returns (ops: map<TaskId, Operator>, ghost list: seq<Operator>)
    requires TasksDiffer(runs) && AfIdsDiffer(runs) && ReusedFit(runs)
    modifies dag, ReusedOps(runs)
    ensures |list| == |runs| && dag.tasks == old(dag.tasks) + list && Table(runs, list, ops)
    ensures forall i | 0 <= i < |runs| :: list[i].dag == dag && (runs[i].reused.Some? ==> list[i] == runs[i].reused.value)
    ensures forall i | 0 <= i < |runs| ::
              list[i].upstreamIds == UpIds(runs, i) && list[i].downstreamIds == Kept(runs[i]) + Downstream(runs, i, |runs|)
  {
    ops, list := MakeOperators(runs, dag);
    LinkOperators(runs, ops, list);
  }

  /** A root task that wraps an existing DAG answers that one, and nothing is translated; otherwise a new DAG is built. */
  method BuildAirflowDag(wrapped: Dag?, runs: seq<TaskRun>) returns (dag: Dag, ghost list: seq<Operator>)
    requires TasksDiffer(runs) && AfIdsDiffer(runs) && ReusedFit(runs)
    modifies if wrapped == null then ReusedOps(runs) else {}
    ensures wrapped != null ==> dag == wrapped
    ensures wrapped == null ==>
              && fresh(dag) && dag.tasks == list && |list| == |runs|
              && forall i | 0 <= i < |runs| ::
                   && list[i].taskId == runs[i].afId && list[i].dag == dag
                   && (runs[i].reused.Some? ==> list[i] == runs[i].reused.value)
                   && list[i].upstreamIds == UpIds(runs, i)
                   && list[i].downstreamIds == Kept(runs[i]) + Downstream(runs, i, |runs|)
  {
    if wrapped != null {
      return wrapped, [];
    }
    dag := new Dag();
    ghost var ops;
    ops, list := BuildOperators(runs, dag);
    assert [] + list == list;
  }

  /** The operator graph of some operators, on ids. */
  ghost function GraphOf(list: seq<Operator>): map<string, set<string>>
    requires forall i, j | 0 <= i < j < |list| :: list[i].taskId != list[j].taskId
    reads list
  {
    map i | 0 <= i < |list| :: list[i].taskId := list[i].upstreamIds
  }

  /** So the graph of the operators built is the one the cycles and orders of the tasks are compared with. */
  lemma BuiltIsInduced(runs: seq<TaskRun>, list: seq<Operator>)
    requires AfIdsDiffer(runs) && |list| == |runs|
    requires forall i | 0 <= i < |runs| :: list[i].taskId == runs[i].afId && list[i].upstreamIds == UpIds(runs, i)
    ensures Induced(runs, GraphOf(list))
  {
    forall i | 0 <= i < |runs| ensures runs[i].afId in GraphOf(list) && GraphOf(list)[runs[i].afId] == UpIds(runs, i) {
      assert list[i].taskId in GraphOf(list);
    }
  }

  // ----- running under another DAG -----

  ghost predicate DistinctOps(ops: seq<Operator>) {
    forall i, j | 0 <= i < j < |ops| :: ops[i].taskId != ops[j].taskId
  }

  method Enter(dag: Dag) returns (original: map<string, Dag?>)
    requires DistinctOps(dag.tasks)
    modifies dag.tasks`dag
    ensures forall op | op in dag.tasks :: op.dag == dag && op.taskId in original && original[op.taskId] == old(op.dag)
  {
    original := map[];
    for i := 0 to |dag.tasks|
      invariant forall j | 0 <= j < i :: dag.tasks[j].dag == dag
      invariant forall j | 0 <= j < i :: dag.tasks[j].taskId in original && original[dag.tasks[j].taskId] == old(dag.tasks[j].dag)
      invariant forall j | i <= j < |dag.tasks| :: dag.tasks[j].dag == old(dag.tasks[j].dag)
    {
      original := original[dag.tasks[i].taskId := dag.tasks[i].dag];
      dag.tasks[i].dag := dag;
    }
  }

  method Leave(dag: Dag, original: map<string, Dag?>)
    requires DistinctOps(dag.tasks)
    modifies dag.tasks`dag
    ensures forall op | op in dag.tasks && op.taskId in original && original[op.taskId] != null :: op.dag == original[op.taskId]
  {
    for i := 0 to |dag.tasks|
      invariant forall j | 0 <= j < i && dag.tasks[j].taskId in original && original[dag.tasks[j].taskId] != null ::
                  dag.tasks[j].dag == original[dag.tasks[j].taskId]
    {
      var op := dag.tasks[i];
      if op.taskId in original && original[op.taskId] != null {
        op.dag := original[op.taskId];
      }
    }
  }

  /** Whatever the run under `dag` did to the references, every operator that had a DAG gets it back. */
  method SetDagAsCurrent(dag: Dag)
    requires DistinctOps(dag.tasks)
    modifies dag.tasks`dag
    ensures forall op | op in dag.tasks && old(op.dag) != null :: op.dag == old(op.dag)
  {
    var original := Enter(dag);
    modify dag.tasks`dag;
    Leave(dag, original);
  }
}
