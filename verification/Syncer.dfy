/** One iteration of the runtime syncer: sorting polled runs into init, update and skip,
    and the two chunk loops that post them, each post carrying a cursor. */
module Syncer {
  import opened Common
  import opened Sequences
  import opened Strings
  import opened AirflowDb

  type Runs = seq<AirflowDagRun>

  const VIEW_ONLY_EVENTS: set<string> := {
    "duration", "elasticsearch", "extra_links", "gantt", "get_logs_with_metadata", "graph", "landing_times", "log",
    "rendered", "task", "task_instances", "tree", "tries", "variables", "varimport", "xcom"
  }

  // ----- categories -----

  predicate IsViewOnlyEvents(r: AirflowDagRun) {
    r.events.Some? && r.events.value != "" && forall e | e in Split(r.events.value, ',') :: e in VIEW_ONLY_EVENTS
  }

  datatype Category = ToInit | ToUpdate | ToSkip

  function Categorize(r: AirflowDagRun, known: seq<int>): Category {
    var isFinished := r.state != "RUNNING";
    if isFinished && IsViewOnlyEvents(r) then ToUpdate
    else if r.id !in known then ToInit
    else if isFinished || r.hasUpdatedTaskInstances || r.isPaused then ToUpdate
    else ToSkip
  }

  /** Skipped are exactly the known runs that are RUNNING, not paused and without updated task instances; initialised are
      the unknown ones, unless they are finished and were only viewed. */
  lemma CategoryExactly(r: AirflowDagRun, known: seq<int>)
    ensures Categorize(r, known) == ToSkip <==>
            r.state == "RUNNING" && r.id in known && !r.hasUpdatedTaskInstances && !r.isPaused
    ensures Categorize(r, known) == ToInit <==> r.id !in known && !(r.state != "RUNNING" && IsViewOnlyEvents(r))
  {
  }

  /** A list of events, joined by commas, is one of views only when each of them is. */
  lemma ViewOnlyExactly(r: AirflowDagRun, events: seq<string>)
    requires events != [] && (forall e | e in events :: ',' !in e) && r.events == Some(JoinWith(events, ','))
    ensures IsViewOnlyEvents(r) <==> events != [""] && forall e | e in events :: e in VIEW_ONLY_EVENTS
  {
    SplitJoin(events, ',');
    if events == [""] {
      assert JoinWith(events, ',') == "";
    } else if |events| == 1 {
      assert events[0] != "";
    } else {
      assert ',' in JoinWith(events, ',');
    }
  }

  function IsCategory(known: seq<int>, c: Category): AirflowDagRun -> bool {
    r => Categorize(r, known) == c
  }

  function Select(runs: Runs, known: seq<int>, c: Category): (s: Runs)
    ensures forall r :: r in s <==> r in runs && Categorize(r, known) == c
  {
    Filter(IsCategory(known, c), runs)
  }

  method CategorizeDagRuns(airflowDagRuns: Runs, dbndDagRunIds: seq<int>) returns (toInit: Runs, toUpdate: Runs)
    ensures toInit == Select(airflowDagRuns, dbndDagRunIds, ToInit)
    ensures toUpdate == Select(airflowDagRuns, dbndDagRunIds, ToUpdate)
  {
    toInit, toUpdate := [], [];
    var toSkip := [];
    for i := 0 to |airflowDagRuns|
      invariant toInit == Select(airflowDagRuns[..i], dbndDagRunIds, ToInit)
      invariant toUpdate == Select(airflowDagRuns[..i], dbndDagRunIds, ToUpdate)
    {
      var dr := airflowDagRuns[i];
      assert airflowDagRuns[..i + 1] == airflowDagRuns[..i] + [dr];
      FilterSnoc(IsCategory(dbndDagRunIds, ToInit), airflowDagRuns[..i], dr);
      FilterSnoc(IsCategory(dbndDagRunIds, ToUpdate), airflowDagRuns[..i], dr);
      var isFinished := dr.state != "RUNNING";
      if isFinished && IsViewOnlyEvents(dr) {
        toUpdate := toUpdate + [dr];
      } else if dr.id !in dbndDagRunIds {
        toInit := toInit + [dr];
      } else if isFinished || dr.hasUpdatedTaskInstances || dr.isPaused {
        toUpdate := toUpdate + [dr];
      } else {
        toSkip := toSkip + [dr];
      }
    }
    assert airflowDagRuns[..|airflowDagRuns|] == airflowDagRuns;
  }

  /** No run is lost or doubled by the split. */
  lemma CategoriesPartition(runs: Runs, known: seq<int>)
    ensures multiset(runs) == multiset(Select(runs, known, ToInit)) + multiset(Select(runs, known, ToUpdate))
                              + multiset(Select(runs, known, ToSkip))
  {
    var parts := multiset(Select(runs, known, ToInit)) + multiset(Select(runs, known, ToUpdate)) + multiset(Select(runs, known, ToSkip));
    forall r ensures multiset(runs)[r] == parts[r] {
      FilterCount(IsCategory(known, ToInit), runs, r);
      FilterCount(IsCategory(known, ToUpdate), runs, r);
      FilterCount(IsCategory(known, ToSkip), runs, r);
    }
  }

  /** The state is compared with the upper-case "RUNNING", which the plugin never reports (it reports "running"):
      on plugin rows nothing is skipped, an unknown run is initialised and a known one updated. */
  lemma PluginRowsNeverSkipped(runs: Runs, known: seq<int>)
    requires forall r | r in runs :: r.state != "RUNNING" && r.events.None?
    ensures Select(runs, known, ToSkip) == []
    ensures forall r | r in runs :: Categorize(r, known) == if r.id in known then ToUpdate else ToInit
  {
    FilterNone(IsCategory(known, ToSkip), runs);
  }

  // ----- the chunk plans -----

  datatype InitChunk = InitChunk(rows: Runs, cursor: int)
  datatype UpdateChunk = UpdateChunk(rows: Runs, cursor: Option<int>)

  function MaxOf(s: seq<int>): (m: int)
    requires s != []
    ensures m in s
    ensures forall x | x in s :: x <= m
  {
    if |s| == 1 then s[0]
    else
      var m := MaxOf(s[1..]);
      assert s == [s[0]] + s[1..];
      if s[0] > m then s[0] else m
  }

  function Ids(rows: Runs): (ids: seq<int>)
    ensures |ids| == |rows| && forall i | 0 <= i < |rows| :: ids[i] == rows[i].id
  {
    seq(|rows|, i requires 0 <= i < |rows| => rows[i].id)
  }

  /** `[dr.max_log_id for dr in rows if dr.max_log_id]`: the truth test drops `None` and also 0. */
  function TruthyLogs(rows: Runs): (ids: seq<int>)
    ensures forall x :: x in ids <==> x != 0 && exists r :: r in rows && r.maxLogId == Some(x)
  {
    if rows == [] then []
    else
      assert rows == [rows[0]] + rows[1..];
      assert forall r :: r in rows <==> r == rows[0] || r in rows[1..];
      var rest := TruthyLogs(rows[1..]);
      if rows[0].maxLogId.Some? && rows[0].maxLogId.value != 0 then [rows[0].maxLogId.value] + rest else rest
  }

  function UpdateCursor(rows: Runs): Option<int> {
    var ids := TruthyLogs(rows);
    if ids == [] then None else Some(MaxOf(ids))
  }

  predicate IdLe(a: AirflowDagRun, b: AirflowDagRun) { a.id <= b.id }
  predicate IdLt(a: AirflowDagRun, b: AirflowDagRun) { a.id < b.id }

  /** The order of the keys `(max_log_id is None, max_log_id)`: runs without a log come last. */
  predicate LogLe(a: AirflowDagRun, b: AirflowDagRun) {
    b.maxLogId.None? || (a.maxLogId.Some? && a.maxLogId.value <= b.maxLogId.value)
  }

  function SortById(runs: Runs): Runs { Sort(IdLe, runs) }
  function SortByLog(runs: Runs): Runs { Sort(LogLe, runs) }

  function BulkSize(bulk: int, runs: Runs): int { if bulk == 0 then |runs| else bulk }

  function InitChunks(chunks: seq<Runs>): (plan: seq<InitChunk>)
    requires forall c | c in chunks :: |c| > 0
    ensures |plan| == |chunks|
    ensures forall i | 0 <= i < |plan| :: plan[i] == InitChunk(chunks[i], MaxOf(Ids(chunks[i])))
  {
    if chunks == [] then [] else [InitChunk(chunks[0], MaxOf(Ids(chunks[0])))] + InitChunks(chunks[1..])
  }

  function UpdateChunks(chunks: seq<Runs>): (plan: seq<UpdateChunk>)
    ensures |plan| == |chunks|
    ensures forall i | 0 <= i < |plan| :: plan[i] == UpdateChunk(chunks[i], UpdateCursor(chunks[i]))
  {
    if chunks == [] then [] else [UpdateChunk(chunks[0], UpdateCursor(chunks[0]))] + UpdateChunks(chunks[1..])
  }

  /** The posts of `init_dagruns` when nothing raises. A negative bulk size makes the range empty. */
  function InitPlan(runs: Runs, bulk: int): seq<InitChunk> {
    var size := BulkSize(bulk, runs);
    if size <= 0 then [] else InitChunks(Chunks(SortById(runs), size))
  }

  /** The posts of `update_dagruns` when nothing raises; an empty batch still posts one heartbeat. */
  function UpdatePlan(runs: Runs, bulk: int): seq<UpdateChunk> {
    var size := BulkSize(bulk, runs);
    if runs == [] then [UpdateChunk([], None)]
    else if size <= 0 then []
    else UpdateChunks(Chunks(SortByLog(runs), size))
  }

  // ----- what is in each post -----

  function InitBatches(plan: seq<InitChunk>): (r: seq<Runs>)
    ensures |r| == |plan| && forall i | 0 <= i < |plan| :: r[i] == plan[i].rows
  {
    seq(|plan|, i requires 0 <= i < |plan| => plan[i].rows)
  }

  function UpdateBatches(plan: seq<UpdateChunk>): (r: seq<Runs>)
    ensures |r| == |plan| && forall i | 0 <= i < |plan| :: r[i] == plan[i].rows
  {
    seq(|plan|, i requires 0 <= i < |plan| => plan[i].rows)
  }

  /** Post `i` has the `i`-th `bulk` runs of the sort order, and together there are as many as it takes; with the bulk size 0
      one post has all, and with a negative one there is none. */
  ghost predicate InBulks(batches: seq<Runs>, sorted: Runs, bulk: int, all: bool) {
    if bulk > 0 then
      && (forall i | 0 <= i < |batches| :: IsSlice(batches[i], sorted, bulk, i))
      && (all ==> |sorted| <= |batches| * bulk)
    else if bulk == 0 && sorted != [] then batches <= [sorted] && (all ==> batches == [sorted])
    else batches == []
  }

  lemma WholeInOne(sorted: Runs)
    requires sorted != []
    ensures Chunks(sorted, |sorted|) == [sorted]
  {
  }

  /** The posts of a batch, and of any start of it, have the runs that the bulk size says. */
  lemma InitPlanInBulks(runs: Runs, bulk: int, k: nat)
    requires k <= |InitPlan(runs, bulk)|
    ensures InBulks(InitBatches(InitPlan(runs, bulk)[..k]), SortById(runs), bulk, k == |InitPlan(runs, bulk)|)
  {
    var sorted := SortById(runs);
    var batches := InitBatches(InitPlan(runs, bulk)[..k]);
    if bulk > 0 {
      ChunksCut(sorted, bulk);
    } else if bulk == 0 && runs != [] {
      WholeInOne(sorted);
      assert k == 1 ==> batches == [sorted];
    }
  }

  lemma UpdatePlanInBulks(runs: Runs, bulk: int, k: nat)
    requires runs != [] && k <= |UpdatePlan(runs, bulk)|
    ensures InBulks(UpdateBatches(UpdatePlan(runs, bulk)[..k]), SortByLog(runs), bulk, k == |UpdatePlan(runs, bulk)|)
  {
    var sorted := SortByLog(runs);
    var batches := UpdateBatches(UpdatePlan(runs, bulk)[..k]);
    if bulk > 0 {
      ChunksCut(sorted, bulk);
    } else if bulk == 0 {
      WholeInOne(sorted);
      assert k == 1 ==> batches == [sorted];
    }
  }

  // ----- what the plans guarantee after any crash -----

  function RunId(r: AirflowDagRun): int { r.id }

  lemma SortedByIdStrictly(runs: Runs)
    requires DistinctBy(RunId, runs)
    ensures SortedBy(IdLt, SortById(runs))
  {
    SortSorted(IdLe, runs);
    SortDistinct(IdLe, RunId, runs);
    var s := SortById(runs);
    forall i, j | 0 <= i < j < |s| ensures IdLt(s[i], s[j]) {
      assert IdLe(s[i], s[j]) && RunId(s[i]) != RunId(s[j]);
    }
  }

  /** Whatever chunk raises, nothing is left behind a posted run cursor: every run of a later chunk
      has an id above every earlier cursor, so the cursors strictly increase. */
  lemma InitPlanOrdered(runs: Runs, bulk: int, i: nat, j: nat)
    requires DistinctBy(RunId, runs)
    requires i < j < |InitPlan(runs, bulk)|
    ensures InitPlan(runs, bulk)[i].cursor < InitPlan(runs, bulk)[j].cursor
    ensures forall r | r in InitPlan(runs, bulk)[j].rows :: InitPlan(runs, bulk)[i].cursor < r.id
  {
    var s, size := SortById(runs), BulkSize(bulk, runs);
    SortedByIdStrictly(runs);
    ChunksOrdered(IdLt, s, size, i, j);
    InitChunkPair(Chunks(s, size)[i], Chunks(s, size)[j]);
  }

  lemma InitChunkPair(a: Runs, b: Runs)
    requires a != [] && b != []
    requires forall x, y | x in a && y in b :: IdLt(x, y)
    ensures MaxOf(Ids(a)) < MaxOf(Ids(b))
    ensures forall r | r in b :: MaxOf(Ids(a)) < r.id
  {
    InitCursorIsARow(a);
    var x :| x in a && x.id == MaxOf(Ids(a));
    assert forall y | y in b :: IdLt(x, y);
    RowBelowInitCursor(b, b[0]);
  }

  /** The rows of a chunk come from the batch, and its cursor is the greatest of their ids. */
  lemma InitPlanRows(runs: Runs, bulk: int, i: nat, r: AirflowDagRun)
    requires i < |InitPlan(runs, bulk)| && r in InitPlan(runs, bulk)[i].rows
    ensures r in runs && r.id <= InitPlan(runs, bulk)[i].cursor
  {
    var s, size := SortById(runs), BulkSize(bulk, runs);
    ChunkSubset(s, size, i);
    RowBelowInitCursor(Chunks(s, size)[i], r);
  }

  lemma InitPlanCursor(runs: Runs, bulk: int, i: nat)
    requires i < |InitPlan(runs, bulk)|
    ensures exists r :: r in runs && r in InitPlan(runs, bulk)[i].rows && r.id == InitPlan(runs, bulk)[i].cursor
  {
    var chunk := Chunks(SortById(runs), BulkSize(bulk, runs))[i];
    ChunkSubset(SortById(runs), BulkSize(bulk, runs), i);
    InitCursorIsARow(chunk);
  }

  lemma InitCursorIsARow(rows: Runs)
    requires rows != []
    ensures exists r :: r in rows && r.id == MaxOf(Ids(rows))
  {
    var i :| 0 <= i < |rows| && Ids(rows)[i] == MaxOf(Ids(rows));
    assert rows[i] in rows;
  }

  lemma RowBelowInitCursor(rows: Runs, r: AirflowDagRun)
    requires r in rows
    ensures r.id <= MaxOf(Ids(rows))
  {
    var i :| 0 <= i < |rows| && rows[i] == r;
    assert Ids(rows)[i] in Ids(rows);
  }

  function InitRows(plan: seq<InitChunk>): Runs {
    if plan == [] then [] else plan[0].rows + InitRows(plan[1..])
  }

  function UpdateRows(plan: seq<UpdateChunk>): Runs {
    if plan == [] then [] else plan[0].rows + UpdateRows(plan[1..])
  }

  lemma {:induction false} InitRowsAre(plan: seq<InitChunk>, chunks: seq<Runs>)
    requires |plan| == |chunks| && forall i | 0 <= i < |plan| :: plan[i].rows == chunks[i]
    ensures InitRows(plan) == Flatten(chunks)
  {
    if plan != [] {
      InitRowsAre(plan[1..], chunks[1..]);
    }
  }

  lemma {:induction false} UpdateRowsAre(plan: seq<UpdateChunk>, chunks: seq<Runs>)
    requires |plan| == |chunks| && forall i | 0 <= i < |plan| :: plan[i].rows == chunks[i]
    ensures UpdateRows(plan) == Flatten(chunks)
  {
    if plan != [] {
      UpdateRowsAre(plan[1..], chunks[1..]);
    }
  }

  lemma InitRowsOf(chunks: seq<Runs>, k: nat)
    requires k <= |chunks| && forall c | c in chunks :: |c| > 0
    ensures InitRows(InitChunks(chunks)[..k]) <= Flatten(chunks)
    ensures k == |chunks| ==> InitRows(InitChunks(chunks)[..k]) == Flatten(chunks)
  {
    FlattenPrefix(chunks, k);
    InitRowsAre(InitChunks(chunks)[..k], chunks[..k]);
    assert chunks[..|chunks|] == chunks;
  }

  lemma UpdateRowsOf(chunks: seq<Runs>, k: nat)
    requires k <= |chunks|
    ensures UpdateRows(UpdateChunks(chunks)[..k]) <= Flatten(chunks)
    ensures k == |chunks| ==> UpdateRows(UpdateChunks(chunks)[..k]) == Flatten(chunks)
  {
    FlattenPrefix(chunks, k);
    UpdateRowsAre(UpdateChunks(chunks)[..k], chunks[..k]);
    assert chunks[..|chunks|] == chunks;
  }

  /** The runs posted before a crash are a prefix of the sort order; without a crash they are the whole batch.
      This needs the bulk size not to be negative: with a negative one nothing is posted at all. */
  lemma InitPlanPrefix(runs: Runs, bulk: int, k: nat)
    requires k <= |InitPlan(runs, bulk)|
    ensures InitRows(InitPlan(runs, bulk)[..k]) <= SortById(runs)
    ensures k == |InitPlan(runs, bulk)| && bulk >= 0 ==> InitRows(InitPlan(runs, bulk)[..k]) == SortById(runs)
    ensures bulk < 0 ==> InitPlan(runs, bulk) == []
    ensures multiset(SortById(runs)) == multiset(runs)
  {
    var size := BulkSize(bulk, runs);
    if size > 0 {
      FlattenChunks(SortById(runs), size);
      InitRowsOf(Chunks(SortById(runs), size), k);
    }
  }

  lemma UpdatePlanPrefix(runs: Runs, bulk: int, k: nat)
    requires runs != [] && k <= |UpdatePlan(runs, bulk)|
    ensures UpdateRows(UpdatePlan(runs, bulk)[..k]) <= SortByLog(runs)
    ensures k == |UpdatePlan(runs, bulk)| && bulk >= 0 ==> UpdateRows(UpdatePlan(runs, bulk)[..k]) == SortByLog(runs)
    ensures bulk < 0 ==> UpdatePlan(runs, bulk) == []
    ensures multiset(SortByLog(runs)) == multiset(runs)
  {
    var size := BulkSize(bulk, runs);
    if size > 0 {
      FlattenChunks(SortByLog(runs), size);
      UpdateRowsOf(Chunks(SortByLog(runs), size), k);
    }
  }

  lemma UpdateCursorIsARow(rows: Runs)
    requires UpdateCursor(rows).Some?
    ensures exists r :: r in rows && r.maxLogId == UpdateCursor(rows)
  {
    assert UpdateCursor(rows).value in TruthyLogs(rows);
  }

  lemma RowBelowUpdateCursor(rows: Runs, r: AirflowDagRun)
    requires r in rows && r.maxLogId.Some? && r.maxLogId.value != 0
    ensures UpdateCursor(rows).Some? && r.maxLogId.value <= UpdateCursor(rows).value
  {
    assert r.maxLogId.value in TruthyLogs(rows);
  }

  lemma UpdatePlanPair(runs: Runs, bulk: int, i: nat, j: nat)
    requires i < j < |UpdatePlan(runs, bulk)|
    ensures forall a, b | a in UpdatePlan(runs, bulk)[i].rows && b in UpdatePlan(runs, bulk)[j].rows :: LogLe(a, b)
    ensures UpdatePlan(runs, bulk)[i] == UpdateChunk(UpdatePlan(runs, bulk)[i].rows, UpdateCursor(UpdatePlan(runs, bulk)[i].rows))
    ensures UpdatePlan(runs, bulk)[j] == UpdateChunk(UpdatePlan(runs, bulk)[j].rows, UpdateCursor(UpdatePlan(runs, bulk)[j].rows))
    ensures UpdatePlan(runs, bulk)[i].rows != []
  {
    SortSorted(LogLe, runs);
    ChunksOrdered(LogLe, SortByLog(runs), BulkSize(bulk, runs), i, j);
  }

  /** Log cursors never decrease, and no run left unposted has a key below a posted cursor. */
  lemma UpdatePlanOrdered(runs: Runs, bulk: int, i: nat, j: nat)
    requires i < j < |UpdatePlan(runs, bulk)|
    requires UpdatePlan(runs, bulk)[i].cursor.Some?
    ensures UpdatePlan(runs, bulk)[j].cursor.Some? ==>
              UpdatePlan(runs, bulk)[i].cursor.value <= UpdatePlan(runs, bulk)[j].cursor.value
    ensures forall r | r in UpdatePlan(runs, bulk)[j].rows && r.maxLogId.Some? ::
              UpdatePlan(runs, bulk)[i].cursor.value <= r.maxLogId.value
  {
    UpdatePlanPair(runs, bulk, i, j);
    UpdateChunkPair(UpdatePlan(runs, bulk)[i].rows, UpdatePlan(runs, bulk)[j].rows);
  }

  lemma UpdateChunkPair(a: Runs, b: Runs)
    requires forall x, y | x in a && y in b :: LogLe(x, y)
    requires UpdateCursor(a).Some?
    ensures UpdateCursor(b).Some? ==> UpdateCursor(a).value <= UpdateCursor(b).value
    ensures forall r | r in b && r.maxLogId.Some? :: UpdateCursor(a).value <= r.maxLogId.value
  {
    UpdateCursorIsARow(a);
    var x :| x in a && x.maxLogId == UpdateCursor(a);
    assert forall y | y in b :: LogLe(x, y);
    if UpdateCursor(b).Some? {
      UpdateCursorIsARow(b);
    }
  }

  lemma UpdatePlanRows(runs: Runs, bulk: int, i: nat, r: AirflowDagRun)
    requires i < |UpdatePlan(runs, bulk)| && r in UpdatePlan(runs, bulk)[i].rows
    ensures r in runs
  {
    if runs != [] {
      ChunkSubset(SortByLog(runs), BulkSize(bulk, runs), i);
    }
  }

  // ----- where the cursor-less posts are -----

  ghost predicate NoneOnlyAtTail(plan: seq<UpdateChunk>) {
    forall i, j | 0 <= i < j < |plan| && plan[i].cursor.None? :: plan[j].cursor.None?
  }

  /** Posts without a cursor come last for every bulk size exactly when the batch does not hold
      both the log id 0 (which the truth test drops) and a positive one. */
  lemma NoneOnlyAtTailIff(runs: Runs)
    ensures (forall bulk :: NoneOnlyAtTail(UpdatePlan(runs, bulk)))
            <==> !(exists a, b :: a in runs && b in runs && a.maxLogId == Some(0) && b.maxLogId.Some? && b.maxLogId.value > 0)
  {
    if a, b :| a in runs && b in runs && a.maxLogId == Some(0) && b.maxLogId.Some? && b.maxLogId.value > 0 {
      ZeroBreaksTail(runs, a, b);
    } else {
      forall bulk ensures NoneOnlyAtTail(UpdatePlan(runs, bulk)) {
        NoZeroKeepsTail(runs, bulk);
      }
    }
  }

  lemma {:induction false} SingletonChunks(s: Runs)
    ensures |Chunks(s, 1)| == |s|
    ensures forall i | 0 <= i < |s| :: Chunks(s, 1)[i] == [s[i]]
  {
    if |s| > 1 {
      SingletonChunks(s[1..]);
    }
  }

  lemma SingletonPlan(runs: Runs, i: nat)
    requires i < |SortByLog(runs)|
    ensures i < |UpdatePlan(runs, 1)| && UpdatePlan(runs, 1)[i].cursor == UpdateCursor([SortByLog(runs)[i]])
  {
    SingletonChunks(SortByLog(runs));
  }

  lemma ZeroBeforePositive(s: Runs, a: AirflowDagRun, b: AirflowDagRun) returns (i: nat, j: nat)
    requires SortedBy(LogLe, s) && a in s && b in s && !LogLe(b, a)
    ensures i < j < |s| && s[i] == a && s[j] == b
  {
    i :| 0 <= i < |s| && s[i] == a;
    j :| 0 <= j < |s| && s[j] == b;
  }

  lemma ZeroBreaksTail(runs: Runs, a: AirflowDagRun, b: AirflowDagRun)
    requires a in runs && b in runs && a.maxLogId == Some(0) && b.maxLogId.Some? && b.maxLogId.value > 0
    ensures !NoneOnlyAtTail(UpdatePlan(runs, 1))
  {
    SortSorted(LogLe, runs);
    var i, j := ZeroBeforePositive(SortByLog(runs), a, b);
    SingletonPlan(runs, i);
    SingletonPlan(runs, j);
    SingletonCursor(a);
    SingletonCursor(b);
  }

  lemma SingletonCursor(r: AirflowDagRun)
    ensures UpdateCursor([r]) == if r.maxLogId == Some(0) then None else r.maxLogId
  {
    assert TruthyLogs([r]) == if r.maxLogId.Some? && r.maxLogId.value != 0 then [r.maxLogId.value] else [];
  }

  /** Two chunks in sort order, the earlier without a cursor, the later with one: a zero met a positive id. */
  lemma CursorAfterNone(a: Runs, b: Runs)
    requires a != [] && UpdateCursor(a).None? && UpdateCursor(b).Some?
    requires forall x, y | x in a && y in b :: LogLe(x, y)
    ensures a[0].maxLogId == Some(0)
    ensures exists y :: y in b && y.maxLogId.Some? && y.maxLogId.value > 0
  {
    UpdateCursorIsARow(b);
    var y :| y in b && y.maxLogId == UpdateCursor(b);
    assert y.maxLogId.value in TruthyLogs(b);
    assert LogLe(a[0], y);
    if a[0].maxLogId.value != 0 {
      RowBelowUpdateCursor(a, a[0]);
    }
  }

  lemma NoZeroKeepsTail(runs: Runs, bulk: int)
    requires !(exists a, b :: a in runs && b in runs && a.maxLogId == Some(0) && b.maxLogId.Some? && b.maxLogId.value > 0)
    ensures NoneOnlyAtTail(UpdatePlan(runs, bulk))
  {
    var plan := UpdatePlan(runs, bulk);
    forall i, j | 0 <= i < j < |plan| && plan[i].cursor.None? ensures plan[j].cursor.None? {
      if plan[j].cursor.Some? {
        UpdatePlanPair(runs, bulk, i, j);
        CursorAfterNone(plan[i].rows, plan[j].rows);
        var y :| y in plan[j].rows && y.maxLogId.Some? && y.maxLogId.value > 0;
        UpdatePlanRows(runs, bulk, i, plan[i].rows[0]);
        UpdatePlanRows(runs, bulk, j, y);
      }
    }
  }

  // ----- the loops -----

  /** What an attempt at a chunk meets: whether the fetch raises, whether the post does, and if so whether it took effect. */
  datatype Attempt = Attempt(fetchRaises: bool, postRaises: bool, stored: bool)

  predicate Succeeds(a: Attempt) { !a.fetchRaises && !a.postRaises }
  predicate Stores(a: Attempt) { !a.fetchRaises && (!a.postRaises || a.stored) }

  /** The Databand server as the syncer sees it. */
  class TrackingService {
    var initPosts: seq<InitChunk>
    var updatePosts: seq<UpdateChunk>

    constructor ()
      ensures initPosts == [] && updatePosts == []
    {
      initPosts, updatePosts := [], [];
    }

    method InitDagRuns(rows: Runs, lastSeenRunId: int, a: Attempt) returns (ok: bool)
      modifies this`initPosts
      ensures ok == !a.postRaises
      ensures initPosts == old(initPosts) + if ok || a.stored then [InitChunk(rows, lastSeenRunId)] else []
    {
      ok := !a.postRaises;
      if ok || a.stored {
        initPosts := initPosts + [InitChunk(rows, lastSeenRunId)];
      }
    }

    method UpdateDagRuns(rows: Runs, lastSeenLogId: Option<int>, a: Attempt) returns (ok: bool)
      modifies this`updatePosts
      ensures ok == !a.postRaises
      ensures updatePosts == old(updatePosts) + if ok || a.stored then [UpdateChunk(rows, lastSeenLogId)] else []
    {
      ok := !a.postRaises;
      if ok || a.stored {
        updatePosts := updatePosts + [UpdateChunk(rows, lastSeenLogId)];
      }
    }
  }

  /** Airflow as the syncer sees it, with the ids it was asked for. */
  class DataFetcher {
    var fetched: seq<seq<int>>

    constructor ()
      ensures fetched == []
    {
      fetched := [];
    }

    method Fetch(ids: seq<int>, a: Attempt) returns (ok: bool)
      modifies this
      ensures ok == !a.fetchRaises && fetched == old(fetched) + [ids]
    {
      fetched := fetched + [ids];
      ok := !a.fetchRaises;
    }
  }

  /** The posts are a prefix of the plan, and all of it if nothing raised. */
  ghost predicate IsPrefixOf<C>(posts: seq<C>, plan: seq<C>, ok: bool) {
    posts <= plan && (ok ==> posts == plan)
  }

  /** What becomes of a plan: its chunks are tried in order until one raises; posted are those before it, and it too if it
      took effect. */
  ghost predicate CameTo<C>(plan: seq<C>, env: nat -> Attempt, tries: nat, posted: seq<C>, ok: bool) {
    && tries <= |plan|
    && (forall j: nat | j < tries - 1 :: Succeeds(env(j)))
    && if ok then tries == |plan| && posted == plan && (tries > 0 ==> Succeeds(env(tries - 1)))
       else tries > 0 && !Succeeds(env(tries - 1)) && posted == plan[..if Stores(env(tries - 1)) then tries else tries - 1]
  }

  function IdLists(batches: seq<Runs>): (r: seq<seq<int>>)
    ensures |r| == |batches| && forall i | 0 <= i < |batches| :: r[i] == Ids(batches[i])
  {
    seq(|batches|, i requires 0 <= i < |batches| => Ids(batches[i]))
  }

  /** The plan so far: `n` chunks have been tried and succeeded, `rest` is left. */
  ghost predicate SoFar<C>(plan: seq<C>, env: nat -> Attempt, n: nat, rest: seq<C>) {
    && n <= |plan| && plan[n..] == rest
    && forall j: nat | j < n :: Succeeds(env(j))
  }

  /** The posts after the first `n` chunks and an attempt at the next one. */
  ghost function PostedBy<C>(plan: seq<C>, env: nat -> Attempt, n: nat): seq<C>
    requires n < |plan|
  {
    plan[..if Stores(env(n)) then n + 1 else n]
  }

  /** After `n` attempts: they all succeeded and `rest` is left, or the last one did not. */
  ghost predicate Turned<C>(plan: seq<C>, env: nat -> Attempt, n: nat, rest: seq<C>, posted: seq<C>, ok: bool) {
    if ok then SoFar(plan, env, n, rest) && posted == plan[..n] else CameTo(plan, env, n, posted, false)
  }

  lemma StartTurns<C>(plan: seq<C>, env: nat -> Attempt)
    ensures Turned(plan, env, 0, plan, [], true) && plan[..0] == []
  {
  }

  lemma EndTurns<C>(plan: seq<C>, env: nat -> Attempt, n: nat, posted: seq<C>, rest: seq<C>, ok: bool)
    requires Turned(plan, env, n, rest, posted, ok) && (ok ==> rest == [])
    ensures CameTo(plan, env, n, posted, ok) && n <= |plan|
  {
  }

  lemma OneMoreChunk<C>(plan: seq<C>, env: nat -> Attempt, n: nat, c: C, rest: seq<C>)
    requires SoFar(plan, env, n, [c] + rest)
    ensures n < |plan| && plan[n] == c
    ensures if Succeeds(env(n)) then SoFar(plan, env, n + 1, rest) && PostedBy(plan, env, n) == plan[..n + 1]
            else CameTo(plan, env, n + 1, PostedBy(plan, env, n), false)
  {
    assert plan[n] == plan[n..][0] && plan[n + 1..] == plan[n..][1..];
  }

  lemma PostsGrow<C>(before: seq<C>, plan: seq<C>, env: nat -> Attempt, n: nat)
    requires n < |plan|
    ensures (before + plan[..n]) + (if Stores(env(n)) then [plan[n]] else []) == before + PostedBy(plan, env, n)
  {
  }

  lemma IdsGrow(before: seq<seq<int>>, lists: seq<seq<int>>, n: nat)
    requires n < |lists|
    ensures (before + lists[..n]) + [lists[n]] == before + lists[..n + 1]
  {
  }

  lemma InitsInBulks(runs: Runs, bulk: int, posted: seq<InitChunk>, ok: bool)
    requires IsPrefixOf(posted, InitPlan(runs, bulk), ok)
    ensures InBulks(InitBatches(posted), SortById(runs), bulk, ok)
  {
    assert posted == InitPlan(runs, bulk)[..|posted|];
    InitPlanInBulks(runs, bulk, |posted|);
  }

  lemma UpdatesInBulks(runs: Runs, bulk: int, posted: seq<UpdateChunk>, ok: bool)
    requires runs != [] && IsPrefixOf(posted, UpdatePlan(runs, bulk), ok)
    ensures InBulks(UpdateBatches(posted), SortByLog(runs), bulk, ok)
  {
    assert posted == UpdatePlan(runs, bulk)[..|posted|];
    UpdatePlanInBulks(runs, bulk, |posted|);
  }

  ghost function InitPlanFrom(sorted: Runs, size: nat, i: nat): seq<InitChunk>
    requires size > 0 && i <= |sorted|
  {
    InitChunks(Chunks(sorted[i..], size))
  }

  lemma InitPlanStep(sorted: Runs, size: nat, i: nat)
    requires size > 0 && i < |sorted|
    ensures var hi := if i + size <= |sorted| then i + size else |sorted|;
            InitPlanFrom(sorted, size, i) == [InitChunk(sorted[i..hi], MaxOf(Ids(sorted[i..hi])))] + InitPlanFrom(sorted, size, hi)
  {
    ChunksStep(sorted, size, i);
  }

  ghost function UpdatePlanFrom(sorted: Runs, size: nat, i: nat): seq<UpdateChunk>
    requires size > 0 && i <= |sorted|
  {
    UpdateChunks(Chunks(sorted[i..], size))
  }

  lemma UpdatePlanStep(sorted: Runs, size: nat, i: nat)
    requires size > 0 && i < |sorted|
    ensures var hi := if i + size <= |sorted| then i + size else |sorted|;
            UpdatePlanFrom(sorted, size, i) == [UpdateChunk(sorted[i..hi], UpdateCursor(sorted[i..hi]))] + UpdatePlanFrom(sorted, size, hi)
  {
    ChunksStep(sorted, size, i);
  }

  class AirflowRuntimeSyncer {
    const bulkSize: int
    const trackingService: TrackingService
    const dataFetcher: DataFetcher

    constructor (bulkSize: int, trackingService: TrackingService, dataFetcher: DataFetcher)
      ensures this.bulkSize == bulkSize && this.trackingService == trackingService && this.dataFetcher == dataFetcher
    {
      this.bulkSize, this.trackingService, this.dataFetcher := bulkSize, trackingService, dataFetcher;
    }

    method InitChunkOnce(chunk: Runs, a: Attempt) returns (ok: bool)
      requires chunk != []
      modifies trackingService`initPosts, dataFetcher
      ensures ok == Succeeds(a) && dataFetcher.fetched == old(dataFetcher.fetched) + [Ids(chunk)]
      ensures trackingService.initPosts == old(trackingService.initPosts) + if Stores(a) then [InitChunk(chunk, MaxOf(Ids(chunk)))] else []
    {
      ok := dataFetcher.Fetch(Ids(chunk), a);
      if ok {
        ok := trackingService.InitDagRuns(chunk, MaxOf(Ids(chunk)), a);
      }
    }

    /** One turn of the chunk loop, seen from the plan: `n` chunks are posted and `rest` comes after this one. */
    method NextInit(chunk: Runs, env: nat -> Attempt, n: nat, ghost plan: seq<InitChunk>, ghost rest: seq<InitChunk>,
                  ghost posted: seq<InitChunk>, ghost posts: seq<InitChunk>, ghost fetched: seq<seq<int>>)
      returns (ok: bool, ghost more: seq<InitChunk>)
      requires chunk != [] && Turned(plan, env, n, [InitChunk(chunk, MaxOf(Ids(chunk)))] + rest, posted, true)
      requires trackingService.initPosts == posts + posted && n <= |plan| && dataFetcher.fetched == fetched + IdLists(InitBatches(plan))[..n]
      modifies trackingService`initPosts, dataFetcher
      ensures trackingService.initPosts == posts + more && n < |plan| && Turned(plan, env, n + 1, rest, more, ok)
      ensures dataFetcher.fetched == fetched + IdLists(InitBatches(plan))[..n + 1]
    {
      OneMoreChunk(plan, env, n, InitChunk(chunk, MaxOf(Ids(chunk))), rest);
      PostsGrow(posts, plan, env, n);
      IdsGrow(fetched, IdLists(InitBatches(plan)), n);
      ok := InitChunkOnce(chunk, env(n));
      more := PostedBy(plan, env, n);
    }

    /** The chunk loop. */
    method PostInits(sorted: Runs, size: nat, env: nat -> Attempt)
      returns (ok: bool, ghost posted: seq<InitChunk>, tries: nat)
      requires size > 0
      modifies trackingService`initPosts, dataFetcher
      ensures trackingService.initPosts == old(trackingService.initPosts) + posted
      ensures CameTo(InitPlanFrom(sorted, size, 0), env, tries, posted, ok)
      ensures dataFetcher.fetched
              == old(dataFetcher.fetched) + IdLists(InitBatches(InitPlanFrom(sorted, size, 0)))[..tries]
    {
      ok, posted, tries := true, [], 0;
      ghost var plan := InitPlanFrom(sorted, size, 0);
      var i := 0;
      StartTurns(plan, env);
      while ok && i < |sorted|
        invariant 0 <= i <= |sorted| && tries <= |plan|
        invariant trackingService.initPosts == old(trackingService.initPosts) + posted
        invariant dataFetcher.fetched == old(dataFetcher.fetched) + IdLists(InitBatches(plan))[..tries]
        invariant Turned(plan, env, tries, InitPlanFrom(sorted, size, i), posted, ok)
        decreases |sorted| - i, ok
      {
        var hi := if i + size <= |sorted| then i + size else |sorted|;
        var chunk := sorted[i..hi];
        InitPlanStep(sorted, size, i);
        ok, posted := NextInit(chunk, env, tries, plan, InitPlanFrom(sorted, size, hi), posted,
                              old(trackingService.initPosts), old(dataFetcher.fetched));
        i, tries := hi, tries + 1;
      }
      EndTurns(plan, env, tries, posted, InitPlanFrom(sorted, size, i), ok);
    }

    method InitDagruns(dagruns: Runs, env: nat -> Attempt) returns (ok: bool, ghost posted: seq<InitChunk>, tries: nat)
      modifies trackingService`initPosts, dataFetcher
      ensures trackingService.initPosts == old(trackingService.initPosts) + posted
      ensures IsPrefixOf(posted, InitPlan(dagruns, bulkSize), ok)
      ensures CameTo(InitPlan(dagruns, bulkSize), env, tries, posted, ok)
      ensures dataFetcher.fetched == old(dataFetcher.fetched) + IdLists(InitBatches(InitPlan(dagruns, bulkSize)))[..tries]
      ensures InBulks(InitBatches(posted), SortById(dagruns), bulkSize, ok)
    {
      ok, posted, tries := true, [], 0;
      if dagruns == [] {
        return;
      }
      var sorted := SortById(dagruns);
      var size := BulkSize(bulkSize, dagruns);
      if 0 < size {
        ok, posted, tries := PostInits(sorted, size, env);
        assert sorted[0..] == sorted;
      }
      InitsInBulks(dagruns, bulkSize, posted, ok);
    }

    method UpdateChunkOnce(chunk: Runs, a: Attempt) returns (ok: bool)
      requires chunk != []
      modifies trackingService`updatePosts, dataFetcher
      ensures ok == Succeeds(a) && dataFetcher.fetched == old(dataFetcher.fetched) + [Ids(chunk)]
      ensures trackingService.updatePosts == old(trackingService.updatePosts) + if Stores(a) then [UpdateChunk(chunk, UpdateCursor(chunk))] else []
    {
      ok := dataFetcher.Fetch(Ids(chunk), a);
      if ok {
        ok := trackingService.UpdateDagRuns(chunk, UpdateCursor(chunk), a);
      }
    }

    /** One turn of the chunk loop, seen from the plan: `n` chunks are posted and `rest` comes after this one. */
    method NextUpdate(chunk: Runs, env: nat -> Attempt, n: nat, ghost plan: seq<UpdateChunk>, ghost rest: seq<UpdateChunk>,
                  ghost posted: seq<UpdateChunk>, ghost posts: seq<UpdateChunk>, ghost fetched: seq<seq<int>>)
      returns (ok: bool, ghost more: seq<UpdateChunk>)
      requires chunk != [] && Turned(plan, env, n, [UpdateChunk(chunk, UpdateCursor(chunk))] + rest, posted, true)
      requires trackingService.updatePosts == posts + posted && n <= |plan| && dataFetcher.fetched == fetched + IdLists(UpdateBatches(plan))[..n]
      modifies trackingService`updatePosts, dataFetcher
      ensures trackingService.updatePosts == posts + more && n < |plan| && Turned(plan, env, n + 1, rest, more, ok)
      ensures dataFetcher.fetched == fetched + IdLists(UpdateBatches(plan))[..n + 1]
    {
      OneMoreChunk(plan, env, n, UpdateChunk(chunk, UpdateCursor(chunk)), rest);
      PostsGrow(posts, plan, env, n);
      IdsGrow(fetched, IdLists(UpdateBatches(plan)), n);
      ok := UpdateChunkOnce(chunk, env(n));
      more := PostedBy(plan, env, n);
    }

    /** The chunk loop. */
    method PostUpdates(sorted: Runs, size: nat, env: nat -> Attempt)
      returns (ok: bool, ghost posted: seq<UpdateChunk>, tries: nat)
      requires size > 0
      modifies trackingService`updatePosts, dataFetcher
      ensures trackingService.updatePosts == old(trackingService.updatePosts) + posted
      ensures CameTo(UpdatePlanFrom(sorted, size, 0), env, tries, posted, ok)
      ensures dataFetcher.fetched
              == old(dataFetcher.fetched) + IdLists(UpdateBatches(UpdatePlanFrom(sorted, size, 0)))[..tries]
    {
      ok, posted, tries := true, [], 0;
      ghost var plan := UpdatePlanFrom(sorted, size, 0);
      var i := 0;
      StartTurns(plan, env);
      while ok && i < |sorted|
        invariant 0 <= i <= |sorted| && tries <= |plan|
        invariant trackingService.updatePosts == old(trackingService.updatePosts) + posted
        invariant dataFetcher.fetched == old(dataFetcher.fetched) + IdLists(UpdateBatches(plan))[..tries]
        invariant Turned(plan, env, tries, UpdatePlanFrom(sorted, size, i), posted, ok)
        decreases |sorted| - i, ok
      {
        var hi := if i + size <= |sorted| then i + size else |sorted|;
        var chunk := sorted[i..hi];
        UpdatePlanStep(sorted, size, i);
        ok, posted := NextUpdate(chunk, env, tries, plan, UpdatePlanFrom(sorted, size, hi), posted,
                              old(trackingService.updatePosts), old(dataFetcher.fetched));
        i, tries := hi, tries + 1;
      }
      EndTurns(plan, env, tries, posted, UpdatePlanFrom(sorted, size, i), ok);
    }

    /** Without runs one empty post is made as a heartbeat, and nothing is fetched. */
    method UpdateDagruns(dagruns: Runs, env: nat -> Attempt) returns (ok: bool, ghost posted: seq<UpdateChunk>, tries: nat)
      modifies trackingService`updatePosts, dataFetcher
      ensures trackingService.updatePosts == old(trackingService.updatePosts) + posted
      ensures IsPrefixOf(posted, UpdatePlan(dagruns, bulkSize), ok)
      ensures if dagruns == [] then
                && ok == !env(0).postRaises && posted == (if ok || env(0).stored then [UpdateChunk([], None)] else [])
                && dataFetcher.fetched == old(dataFetcher.fetched)
              else
                && CameTo(UpdatePlan(dagruns, bulkSize), env, tries, posted, ok)
                && dataFetcher.fetched == old(dataFetcher.fetched) + IdLists(UpdateBatches(UpdatePlan(dagruns, bulkSize)))[..tries]
                && InBulks(UpdateBatches(posted), SortByLog(dagruns), bulkSize, ok)
    {
      ok, posted, tries := true, [], 0;
      if dagruns == [] {
        ok := trackingService.UpdateDagRuns([], None, env(0));
        posted := if ok || env(0).stored then [UpdateChunk([], None)] else [];
        return;
      }
      var sorted := SortByLog(dagruns);
      var size := BulkSize(bulkSize, dagruns);
      if 0 < size {
        ok, posted, tries := PostUpdates(sorted, size, env);
        assert sorted[0..] == sorted;
      }
      UpdatesInBulks(dagruns, bulkSize, posted, ok);
    }

    /** The end of `_sync_once`: an exception inside `init_dagruns` is swallowed, so the updates run regardless. */
    method SyncPolledRuns(polled: Runs, dbndDagRunIds: seq<int>, initEnv: nat -> Attempt, updateEnv: nat -> Attempt)
      returns (initOk: bool, updateOk: bool, ghost inits: seq<InitChunk>, ghost updates: seq<UpdateChunk>)
      modifies trackingService, dataFetcher
      ensures trackingService.initPosts == old(trackingService.initPosts) + inits
      ensures trackingService.updatePosts == old(trackingService.updatePosts) + updates
      ensures var plan := InitPlan(Select(polled, dbndDagRunIds, ToInit), bulkSize);
              IsPrefixOf(inits, plan, initOk) && exists tries: nat :: CameTo(plan, initEnv, tries, inits, initOk)
      ensures var toUpdate := Select(polled, dbndDagRunIds, ToUpdate);
              && IsPrefixOf(updates, UpdatePlan(toUpdate, bulkSize), updateOk)
              && (toUpdate == [] ==> updateOk == !updateEnv(0).postRaises)
              && (toUpdate != [] ==> exists tries: nat :: CameTo(UpdatePlan(toUpdate, bulkSize), updateEnv, tries, updates, updateOk))
      ensures InBulks(InitBatches(inits), SortById(Select(polled, dbndDagRunIds, ToInit)), bulkSize, initOk)
      ensures var toUpdate := Select(polled, dbndDagRunIds, ToUpdate);
              if toUpdate == [] then IsPrefixOf(updates, [UpdateChunk([], None)], updateOk)
              else InBulks(UpdateBatches(updates), SortByLog(toUpdate), bulkSize, updateOk)
    {
      var toInit, toUpdate := CategorizeDagRuns(polled, dbndDagRunIds);
      var tries;
      initOk, inits, tries := InitDagruns(toInit, initEnv);
      updateOk, updates, tries := UpdateDagruns(toUpdate, updateEnv);
    }
  }
}
