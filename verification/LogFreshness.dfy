/** What the log cursor promises: a run whose latest log row lies at or below the cursor
    was fetched after that row was written. */
module LogFreshness {
  import opened Common
  import opened Sequences
  import opened AirflowDb
  import opened Syncer
  import opened SyncProtocol

  function KeyOfRun(r: DagRun): LogKey { LogKey(r.dagId, Some(r.execDate)) }

  ghost predicate LogOf(l: LogRow, k: LogKey) { l.dagId.Some? && KeyOfLog(l) == k }

  ghost predicate IsLatest(logs: set<LogRow>, k: LogKey, l: LogRow) {
    l in logs && LogOf(l, k) && forall m | m in logs && LogOf(m, k) :: m.id <= l.id
  }

  /** `l` is the latest log row of the selected run `r`, with an id in `(lo, hi]`. */
  ghost predicate LatestWithin(c: Config, s: State, lo: int, hi: int, r: DagRun, l: LogRow) {
    r in s.db.runs && Selected(c, r) && IsLatest(s.db.logs, KeyOfRun(r), l) && lo < l.id <= hi
  }

  ghost predicate Fresh(s: State, r: DagRun, l: LogRow) {
    r.id in s.server.known && l.id in s.server.known[r.id]
  }

  /** The server's copy of each such run was fetched after its latest log row was written,
      or the run is new and the run cursor has not reached it yet. */
  ghost predicate LogCursorFresh(c: Config, s: State) {
    s.server.lastLog.Some? && s.server.lastRun.Some? ==>
      forall r, l | LatestWithin(c, s, s.bootLog, s.server.lastLog.value, r, l) ::
        Fresh(s, r, l) || (r.id !in s.server.known && r.id > s.server.lastRun.value)
  }

  // ----- which histories keep the promise -----

  /** The server's copy has the log, or the run is new and all cursors are below it. */
  ghost predicate Held(s: State, r: DagRun, l: LogRow) {
    Fresh(s, r, l) || (r.id !in s.server.known && r.id > s.highRun)
  }

  /** A cursor move to `newLog` passes no latest log of a dropped run that the server does not hold. */
  ghost predicate PassesNoDropped(c: Config, s: State, newLog: int)
    requires s.phase.Updating?
  {
    forall r, l | LatestWithin(c, s, s.highLog, newLog, r, l) && InInits(s.phase.dropped, r.id) :: Held(s, r, l)
  }

  /** The fixer would put back a copy of the run fetched before this log was written. */
  ghost predicate PutsBackOlder(s: State, r: DagRun, l: LogRow)
    requires s.fixer.FixerHolds?
  {
    r.id in s.server.known && r.id in s.fixer.data.ids && l.id !in s.fixer.data.seenLogs
  }

  /** The fixer's post puts back no copy without a latest log that a cursor has passed. */
  ghost predicate OlderNotBelowCursor(c: Config, s: State)
    requires s.fixer.FixerHolds?
  {
    s.server.lastLog.Some? ==> forall r, l | LatestWithin(c, s, s.bootLog, s.highLog, r, l) :: !PutsBackOlder(s, r, l)
  }

  ghost predicate Polled(s: State) {
    s.phase.Initialising? || s.phase.Updating?
  }

  /** The init chunks of the current iteration that are still to be posted, or were given up. */
  ghost function Inits(s: State): seq<InitChunk>
    requires Polled(s)
  {
    if s.phase.Initialising? then s.phase.inits else s.phase.dropped
  }

  /** Nor one without a latest log that the cursor may pass in this iteration, unless the run is still in a chunk. */
  ghost predicate OlderNotBelowMark(c: Config, s: State)
    requires s.fixer.FixerHolds?
  {
    Polled(s) && c.bulk >= 0 ==>
      forall r, l | LatestWithin(c, s, s.highLog, s.logMark, r, l) && PutsBackOlder(s, r, l) ::
        InInits(Inits(s), r.id) || InUpdates(s.phase.updates, r.id, l.id)
  }

  /** The steps that keep the promise: all but a cursor move past a dropped run, and a fixer post of an older copy. */
  ghost predicate Calm(c: Config, s: State, e: Event) {
    && (e.PostUpdate? && s.phase.Updating? ==> PassesNoDropped(c, s, e.newLog))
    && (e.FixerPost? && s.fixer.FixerHolds? ==> OlderNotBelowCursor(c, s) && OlderNotBelowMark(c, s))
  }

  ghost predicate CalmHistory(c: Config, s: State, history: seq<Event>) {
    forall k | 0 <= k < |history| :: Run(c, s, history[..k]).Some? ==> Calm(c, Run(c, s, history[..k]).value, history[k])
  }

  /** It is enough that `init_dagruns` did not raise in this iteration, and that no log row was written since the fixer's fetch. */
  lemma CalmWhen(c: Config, s: State, e: Event)
    requires e.PostUpdate? && s.phase.Updating? ==> s.phase.dropped == []
    requires e.FixerPost? && s.fixer.FixerHolds? ==> LogIds(s.db.logs) <= s.fixer.data.seenLogs
    ensures Calm(c, s, e)
  {
    if e.FixerPost? && s.fixer.FixerHolds? {
      forall r, l | l in s.db.logs ensures !PutsBackOlder(s, r, l) {
        assert l.id in LogIds(s.db.logs);
      }
    }
  }

  // ----- the invariant -----

  ghost predicate HighLogFresh(c: Config, s: State) {
    s.server.lastLog.Some? ==> forall r, l | LatestWithin(c, s, s.bootLog, s.highLog, r, l) :: Held(s, r, l)
  }

  ghost predicate CursorInv(s: State) {
    s.server.lastLog.Some? ==> s.bootRun <= s.highRun && s.bootLog <= s.highLog && s.server.lastLog.value <= s.highLog <= s.logHigh
  }

  ghost predicate InUpdates(updates: seq<UpdateChunk>, id: int, log: int) {
    exists k, r :: 0 <= k < |updates| && r in updates[k].rows && r.id == id && r.maxLogId == Some(log)
  }

  /** Remaining update chunks: cursors come from the rows, rows are in log order, no log id occurs in two chunks. */
  ghost predicate UpdatesInv(s: State, updates: seq<UpdateChunk>) {
    && (forall k | 0 <= k < |updates| :: updates[k].cursor == UpdateCursor(updates[k].rows))
    && (forall k, r | 0 <= k < |updates| && r in updates[k].rows :: r.id in s.server.known)
    && (forall k, r | 0 <= k < |updates| && r in updates[k].rows && r.maxLogId.Some? :: r.maxLogId.value <= s.logMark)
    && (forall j, k | 0 <= j < k < |updates| :: ChunksApart(updates[j].rows, updates[k].rows))
  }

  ghost predicate ChunksApart(a: Runs, b: Runs) {
    forall x, y | x in a && y in b :: LogLe(x, y) && (x.maxLogId == y.maxLogId ==> x.maxLogId.None?)
  }

  ghost predicate SawLogs(s: State, f: Fetched) {
    forall l | l in s.db.logs && l.id <= s.logMark :: l.id in f.seenLogs
  }

  /** Every run with a log between the cursor and the poll's mark is fresh, about to be posted, or newer than the poll. */
  ghost predicate LogsCovered(c: Config, s: State, inits: seq<InitChunk>, updates: seq<UpdateChunk>) {
    forall r, l | LatestWithin(c, s, s.highLog, s.logMark, r, l) ::
      Fresh(s, r, l) || InInits(inits, r.id) || InUpdates(updates, r.id, l.id) || r.id > s.runMark
  }

  ghost predicate GroupsInv(c: Config, s: State, seenLog: int, groups: map<LogKey, int>) {
    && (forall k: LogKey, l | SelectedDag(c.dagIds, k.dagId) && IsLatest(s.db.logs, k, l) && seenLog < l.id <= s.logMark ::
          k in groups && groups[k] == l.id)
    && (forall k | k in groups :: groups[k] <= s.logMark)
    && (forall k | k in groups :: exists l :: l in s.db.logs && LogOf(l, k) && l.id == groups[k])
  }

  /** No run is both in an init chunk and in an update chunk. */
  ghost predicate Disjoint(inits: seq<InitChunk>, updates: seq<UpdateChunk>) {
    forall k, r | 0 <= k < |updates| && r in updates[k].rows :: !InInits(inits, r.id)
  }

  ghost predicate Marks(s: State) {
    s.highRun <= s.runMark && s.highLog <= s.logMark <= s.logHigh && s.server.lastLog.Some?
  }

  ghost predicate NoCursors(updates: seq<UpdateChunk>) {
    forall k | 0 <= k < |updates| :: updates[k].cursor.None?
  }

  ghost predicate LogPhaseInv(c: Config, s: State) {
    match s.phase
    case Idle => true
    case Booting => true
    case BootValues(run, log) => true
    case Reading(active, seenRun, seenLog) => seenLog <= s.highLog
    case LogsRead(active, seenRun, seenLog, groups) =>
      seenLog <= s.highLog <= s.logMark <= s.logHigh && GroupsInv(c, s, seenLog, groups)
    case Initialising(inits, fetched, updates) =>
      && Marks(s) && UpdatesInv(s, updates) && Disjoint(inits, updates)
      && (if c.bulk < 0 then NoCursors(updates) else LogsCovered(c, s, inits, updates))
      && (fetched.Some? ==> SawLogs(s, fetched.value))
    case Updating(updates, fetched, dropped) =>
      && Marks(s) && UpdatesInv(s, updates) && Disjoint(dropped, updates)
      && (if c.bulk < 0 then NoCursors(updates) else LogsCovered(c, s, dropped, updates))
      && (fetched.Some? ==> updates != [] && SawLogs(s, fetched.value) && FetchedInv(s.db, updates[0].rows, fetched.value))
  }

  ghost predicate LogInv(c: Config, s: State) {
    CursorInv(s) && HighLogFresh(c, s) && LogPhaseInv(c, s)
  }

  // ----- Airflow moves -----

  /** The latest rows up to the old mark are those of before. */
  ghost predicate LatestFrom(c: Config, s: State, t: State) {
    forall lo, hi, r, l | LatestWithin(c, t, lo, hi, r, l) && hi <= s.logHigh ::
      r.id > s.runHigh || exists q :: LatestWithin(c, s, lo, hi, q, l) && q.id == r.id
  }

  lemma AirflowLatest(c: Config, s: State, e: Event, t: State)
    requires RunInv(c, s) && IsAirflowEvent(e) && AirflowStep(s, e).Some? && t == WithDb(s, e, AirflowStep(s, e).value)
    ensures LatestFrom(c, s, t)
  {
    if !e.InsertRun? {
      SameRuns(s, e, t);
    }
    forall lo, hi, r, l | LatestWithin(c, t, lo, hi, r, l) && hi <= s.logHigh
      ensures r.id > s.runHigh || exists q :: LatestWithin(c, s, lo, hi, q, l) && q.id == r.id
    {
      assert IsLatest(s.db.logs, KeyOfRun(r), l);
      if r in s.db.runs {
        assert LatestWithin(c, s, lo, hi, r, l);
      } else if !e.InsertRun? {
        var q :| q in s.db.runs && q == r.(state := q.state);
        assert KeyOfRun(q) == KeyOfRun(r);
        assert LatestWithin(c, s, lo, hi, q, l);
      }
    }
  }

  lemma AirflowCovered(c: Config, s: State, t: State, inits: seq<InitChunk>, updates: seq<UpdateChunk>)
    requires LatestFrom(c, s, t) && LogsCovered(c, s, inits, updates)
    requires t == s.(db := t.db, runHigh := t.runHigh, logHigh := t.logHigh)
    requires s.logMark <= s.logHigh && s.runMark <= s.runHigh
    ensures LogsCovered(c, t, inits, updates)
  {
    forall r, l | LatestWithin(c, t, t.highLog, t.logMark, r, l)
      ensures Fresh(t, r, l) || InInits(inits, r.id) || InUpdates(updates, r.id, l.id) || r.id > t.runMark
    {
      if r.id <= s.runHigh {
        var q :| LatestWithin(c, s, s.highLog, s.logMark, q, l) && q.id == r.id;
      }
    }
  }

  lemma AirflowFetched(c: Config, s: State, e: Event, t: State, rows: Runs, f: Fetched)
    requires RunInv(c, s) && IsAirflowEvent(e) && AirflowStep(s, e).Some? && t == WithDb(s, e, AirflowStep(s, e).value)
    requires FetchedInv(s.db, rows, f) && forall r | r in rows :: r.id <= s.runHigh
    ensures FetchedInv(t.db, rows, f)
  {
    if !e.InsertRun? {
      SameRuns(s, e, t);
    }
    forall r | r in t.db.runs && r.id in IdSet(rows) ensures r.id in f.ids {
      var d :| d in rows && d.id == r.id;
      if !e.InsertRun? {
        var q :| q in s.db.runs && q == r.(state := q.state);
      }
    }
  }

  lemma AirflowGroups(c: Config, s: State, e: Event, t: State)
    requires RunInv(c, s) && IsAirflowEvent(e) && AirflowStep(s, e).Some? && t == WithDb(s, e, AirflowStep(s, e).value)
    requires s.phase.LogsRead? && s.logMark <= s.logHigh && GroupsInv(c, s, s.phase.seenLog, s.phase.groups)
    ensures GroupsInv(c, t, s.phase.seenLog, s.phase.groups)
  {
    forall k: LogKey, l | SelectedDag(c.dagIds, k.dagId) && IsLatest(t.db.logs, k, l) && s.phase.seenLog < l.id <= t.logMark
      ensures k in s.phase.groups && s.phase.groups[k] == l.id
    {
      assert IsLatest(s.db.logs, k, l);
    }
    forall k | k in s.phase.groups
      ensures exists l :: l in t.db.logs && LogOf(l, k) && l.id == s.phase.groups[k]
    {
      var l :| l in s.db.logs && LogOf(l, k) && l.id == s.phase.groups[k];
      assert l in t.db.logs;
    }
  }

  lemma AirflowPhase(c: Config, s: State, e: Event, t: State)
    requires RunInv(c, s) && LogInv(c, s)
    requires IsAirflowEvent(e) && AirflowStep(s, e).Some? && t == WithDb(s, e, AirflowStep(s, e).value)
    ensures LogPhaseInv(c, t)
  {
    AirflowLatest(c, s, e, t);
    match s.phase
    case LogsRead(_, _, _, _) => AirflowGroups(c, s, e, t);
    case Initialising(inits, fetched, updates) =>
      assert UpdatesInv(t, updates);
      if c.bulk >= 0 {
        AirflowCovered(c, s, t, inits, updates);
      }
    case Updating(updates, fetched, dropped) =>
      assert UpdatesInv(t, updates);
      if c.bulk >= 0 {
        AirflowCovered(c, s, t, dropped, updates);
      }
      if fetched.Some? {
        assert forall r | r in updates[0].rows :: r.id in s.server.known;
        AirflowFetched(c, s, e, t, updates[0].rows, fetched.value);
      }
    case _ =>
  }

  lemma AirflowKeeps(c: Config, s: State, e: Event)
    requires RunInv(c, s) && LogInv(c, s) && IsAirflowEvent(e) && AirflowStep(s, e).Some?
    ensures LogInv(c, WithDb(s, e, AirflowStep(s, e).value))
  {
    var t := WithDb(s, e, AirflowStep(s, e).value);
    AirflowLatest(c, s, e, t);
    AirflowPhase(c, s, e, t);
    if s.server.lastLog.Some? {
      forall r, l | LatestWithin(c, t, t.bootLog, t.highLog, r, l) ensures Held(t, r, l) {
        if r.id <= s.runHigh {
          var q :| LatestWithin(c, s, s.bootLog, s.highLog, q, l) && q.id == r.id;
          assert Held(s, q, l);
        }
      }
    }
  }

  // ----- the syncer polls -----

  lemma ReadLogsGroups(c: Config, s: State, seenLog: int, groups: map<LogKey, int>)
    requires DbInv(s) && IsLogGroups(groups, s.db.logs, seenLog, c.dagIds) && s.logMark == s.logHigh
    ensures GroupsInv(c, s, seenLog, groups)
  {
    forall k: LogKey, l | SelectedDag(c.dagIds, k.dagId) && IsLatest(s.db.logs, k, l) && seenLog < l.id <= s.logMark
      ensures k in groups && groups[k] == l.id
    {
      assert LogMatches(l, seenLog, c.dagIds);
      var m :| m in s.db.logs && LogMatches(m, seenLog, c.dagIds) && KeyOfLog(m) == k && m.id == groups[k];
      assert LogOf(m, k);
    }
    forall k | k in groups ensures groups[k] <= s.logMark && exists l :: l in s.db.logs && LogOf(l, k) && l.id == groups[k] {
      var m :| m in s.db.logs && LogMatches(m, seenLog, c.dagIds) && KeyOfLog(m) == k && m.id == groups[k];
      assert LogOf(m, k);
    }
  }

  lemma InUpdatePlan(runs: Runs, bulk: int, r: AirflowDagRun)
    requires r in runs && bulk >= 0 && r.maxLogId.Some?
    ensures InUpdates(UpdatePlan(runs, bulk), r.id, r.maxLogId.value)
  {
    var chunks := Chunks(SortByLog(runs), BulkSize(bulk, runs));
    FlattenChunks(SortByLog(runs), BulkSize(bulk, runs));
    FlattenMember(chunks, r);
    var k :| 0 <= k < |chunks| && r in chunks[k];
    assert r in UpdatePlan(runs, bulk)[k].rows;
  }

  /** The query returns the run with its latest log id, and the split never skips a run with a new log. */
  lemma ReadRunsCoversLogs(c: Config, s: State, keys: seq<LogKey>, resp: Runs)
    requires RunInv(c, s) && LogInv(c, s) && c.bulk >= 0 && s.phase.LogsRead? && CanRead(c, s, keys, resp)
    ensures var t := AfterRead(c, s, resp); LogsCovered(c, t, t.phase.inits, t.phase.updates)
  {
    var toInit, toUpdate := Select(resp, s.phase.active, ToInit), Select(resp, s.phase.active, ToUpdate);
    forall r, l | LatestWithin(c, s, s.highLog, s.logMark, r, l)
      ensures InInits(InitPlan(toInit, c.bulk), r.id) || InUpdates(UpdatePlan(toUpdate, c.bulk), r.id, l.id)
    {
      var k := KeyOfRun(r);
      assert k in s.phase.groups && s.phase.groups[k] == l.id;
      var row := Joined(r, s.db.models[r.dagId]);
      assert InBase(s.db, r, c.dagIds, true) && KeyOfRow(row) == k && k in keys;
      assert row in RowsFor(c, s, keys);
      var d := ToDagRun(row, s.phase.groups);
      assert d in resp && d.hasUpdatedTaskInstances && d.maxLogId == Some(l.id);
      if d.id !in s.phase.active {
        assert d in toInit;
        NonEmptyInitPlan(toInit, c.bulk);
        InInitPlan(toInit, c.bulk, d);
      } else {
        assert d in toUpdate;
        InUpdatePlan(toUpdate, c.bulk, d);
      }
    }
    SameLatest(c, s, AfterRead(c, s, resp));
  }

  lemma SameLatest(c: Config, s: State, t: State)
    requires t.db == s.db
    ensures forall lo, hi, r, l :: LatestWithin(c, t, lo, hi, r, l) <==> LatestWithin(c, s, lo, hi, r, l)
  {
  }

  lemma NonEmptyInitPlan(runs: Runs, bulk: int)
    requires runs != [] && bulk >= 0
    ensures InitPlan(runs, bulk) != []
  {
    FlattenChunks(SortById(runs), BulkSize(bulk, runs));
  }

  /** Two runs with the same latest log have the same key, so they are one run. */
  lemma ResponseLogsApart(c: Config, s: State, keys: seq<LogKey>, resp: Runs, a: AirflowDagRun, b: AirflowDagRun)
    requires RunInv(c, s) && LogInv(c, s) && s.phase.LogsRead? && CanRead(c, s, keys, resp)
    requires a in resp && b in resp && a.maxLogId == b.maxLogId && a.maxLogId.Some?
    ensures a.id == b.id
  {
    var rows := RowsFor(c, s, keys);
    var p :| p in rows && a == ToDagRun(p, s.phase.groups);
    var q :| q in rows && b == ToDagRun(q, s.phase.groups);
    SameGroupSameKey(c, s, KeyOfRow(p), KeyOfRow(q));
    var x :| x in s.db.runs && InBase(s.db, x, c.dagIds, true) && p == Joined(x, s.db.models[x.dagId]);
    var y :| y in s.db.runs && InBase(s.db, y, c.dagIds, true) && q == Joined(y, s.db.models[y.dagId]);
  }

  lemma SameGroupSameKey(c: Config, s: State, j: LogKey, k: LogKey)
    requires DbInv(s) && s.phase.LogsRead? && GroupsInv(c, s, s.phase.seenLog, s.phase.groups)
    requires j in s.phase.groups && k in s.phase.groups && s.phase.groups[j] == s.phase.groups[k]
    ensures j == k
  {
    var l :| l in s.db.logs && LogOf(l, j) && l.id == s.phase.groups[j];
    var m :| m in s.db.logs && LogOf(m, k) && m.id == s.phase.groups[k];
    assert l == m;
  }

  lemma UpdatePlanApart(runs: Runs, bulk: int, j: nat, k: nat)
    requires DistinctBy(RunId, runs)
    requires forall a, b | a in runs && b in runs && a.maxLogId == b.maxLogId && a.maxLogId.Some? :: a.id == b.id
    requires j < k < |UpdatePlan(runs, bulk)|
    ensures ChunksApart(UpdatePlan(runs, bulk)[j].rows, UpdatePlan(runs, bulk)[k].rows)
  {
    var s, size := SortByLog(runs), BulkSize(bulk, runs);
    SortDistinct(LogLe, RunId, runs);
    ChunksOrdered(IdsDiffer, s, size, j, k);
    UpdatePlanPair(runs, bulk, j, k);
    forall x, y | x in UpdatePlan(runs, bulk)[j].rows && y in UpdatePlan(runs, bulk)[k].rows
      ensures x.maxLogId == y.maxLogId ==> x.maxLogId.None?
    {
      UpdatePlanRows(runs, bulk, j, x);
      UpdatePlanRows(runs, bulk, k, y);
      assert IdsDiffer(x, y);
    }
  }

  predicate IdsDiffer(a: AirflowDagRun, b: AirflowDagRun) { RunId(a) != RunId(b) }

  lemma UpdatePlanCursor(runs: Runs, bulk: int, k: nat)
    requires k < |UpdatePlan(runs, bulk)|
    ensures UpdatePlan(runs, bulk)[k].cursor == UpdateCursor(UpdatePlan(runs, bulk)[k].rows)
    ensures bulk < 0 ==> UpdatePlan(runs, bulk)[k].cursor.None?
  {
  }

  /** What a response says of each of its runs: its log id is at or below the poll's mark. */
  lemma ResponseLogsBelow(c: Config, s: State, keys: seq<LogKey>, resp: Runs, r: AirflowDagRun)
    requires LogInv(c, s) && s.phase.LogsRead? && CanRead(c, s, keys, resp) && r in resp && r.maxLogId.Some?
    ensures r.maxLogId.value <= s.logMark
  {
    var p :| p in RowsFor(c, s, keys) && r == ToDagRun(p, s.phase.groups);
  }

  /** The chunks of a batch whose runs are known and have different log ids. */
  lemma UpdatePlanInv(t: State, runs: Runs, bulk: int)
    requires DistinctBy(RunId, runs)
    requires forall a, b | a in runs && b in runs && a.maxLogId == b.maxLogId && a.maxLogId.Some? :: a.id == b.id
    requires forall r | r in runs :: r.id in t.server.known && (r.maxLogId.Some? ==> r.maxLogId.value <= t.logMark)
    ensures UpdatesInv(t, UpdatePlan(runs, bulk))
    ensures bulk < 0 ==> NoCursors(UpdatePlan(runs, bulk))
  {
    var plan := UpdatePlan(runs, bulk);
    forall j, k | 0 <= j < k < |plan| ensures ChunksApart(plan[j].rows, plan[k].rows) {
      UpdatePlanApart(runs, bulk, j, k);
    }
    forall k, r | 0 <= k < |plan| && r in plan[k].rows ensures r in runs {
      UpdatePlanRows(runs, bulk, k, r);
    }
    forall k | 0 <= k < |plan| ensures plan[k].cursor == UpdateCursor(plan[k].rows) && (bulk < 0 ==> plan[k].cursor.None?) {
      UpdatePlanCursor(runs, bulk, k);
    }
  }

  lemma ReadRunsUpdates(c: Config, s: State, keys: seq<LogKey>, resp: Runs)
    requires RunInv(c, s) && LogInv(c, s) && s.phase.LogsRead? && CanRead(c, s, keys, resp)
    ensures var t := AfterRead(c, s, resp); UpdatesInv(t, t.phase.updates) && (c.bulk < 0 ==> NoCursors(t.phase.updates))
  {
    var toUpdate := Select(resp, s.phase.active, ToUpdate);
    ResponseDistinct(c, s, keys, resp);
    FilterDistinct(IsCategory(s.phase.active, ToUpdate), RunId, resp);
    forall a, b | a in toUpdate && b in toUpdate && a.maxLogId == b.maxLogId && a.maxLogId.Some? ensures a.id == b.id {
      ResponseLogsApart(c, s, keys, resp, a, b);
    }
    forall r | r in toUpdate ensures r.id in s.server.known && (r.maxLogId.Some? ==> r.maxLogId.value <= s.logMark) {
      assert Categorize(r, s.phase.active) == ToUpdate;
      if r.maxLogId.Some? {
        ResponseLogsBelow(c, s, keys, resp, r);
      }
    }
    UpdatePlanInv(AfterRead(c, s, resp), toUpdate, c.bulk);
  }

  lemma {:induction false} DistinctApart(runs: Runs, a: AirflowDagRun, b: AirflowDagRun)
    requires DistinctBy(RunId, runs) && a in runs && b in runs && a.id == b.id
    ensures a == b
  {
    var i :| 0 <= i < |runs| && runs[i] == a;
    var j :| 0 <= j < |runs| && runs[j] == b;
    assert RunId(runs[i]) == RunId(runs[j]);
  }

  /** The split puts a run in one list only. */
  lemma ReadRunsDisjoint(c: Config, s: State, keys: seq<LogKey>, resp: Runs)
    requires RunInv(c, s) && s.phase.LogsRead? && CanRead(c, s, keys, resp)
    ensures var t := AfterRead(c, s, resp); Disjoint(t.phase.inits, t.phase.updates)
  {
    var toInit, toUpdate := Select(resp, s.phase.active, ToInit), Select(resp, s.phase.active, ToUpdate);
    ResponseDistinct(c, s, keys, resp);
    var inits, updates := InitPlan(toInit, c.bulk), UpdatePlan(toUpdate, c.bulk);
    forall k, r | 0 <= k < |updates| && r in updates[k].rows ensures !InInits(inits, r.id) {
      UpdatePlanRows(toUpdate, c.bulk, k, r);
      if InInits(inits, r.id) {
        var j, d :| 0 <= j < |inits| && d in inits[j].rows && d.id == r.id;
        InitPlanRows(toInit, c.bulk, j, d);
        DistinctApart(resp, d, r);
      }
    }
  }

  lemma PollKeepsLogs(c: Config, s: State, e: Event)
    requires RunInv(c, s) && LogInv(c, s) && IsPollEvent(e) && PollStep(c, s, e).Some?
    ensures LogInv(c, PollStep(c, s, e).value)
  {
    var t := PollStep(c, s, e).value;
    if e.ReadRuns? {
      ReadRunsUpdates(c, s, e.keys, e.resp);
      ReadRunsDisjoint(c, s, e.keys, e.resp);
      if c.bulk >= 0 {
        ReadRunsCoversLogs(c, s, e.keys, e.resp);
      }
      SameDbSameHeld(c, s, t);
    } else if e.PostLastSeen? {
      assert forall r, l :: !LatestWithin(c, t, t.bootLog, t.highLog, r, l);
    } else {
      if e.ReadLogs? {
        ReadLogsGroups(c, t, s.phase.seenLog, e.groups);
      }
      SameDbSameHeld(c, s, t);
    }
  }

  lemma SameDbSameHeld(c: Config, s: State, t: State)
    requires HighLogFresh(c, s)
    requires t.db == s.db && t.server == s.server && t.bootLog == s.bootLog && t.highLog == s.highLog && t.highRun == s.highRun
    ensures HighLogFresh(c, t)
  {
    if s.server.lastLog.Some? {
      forall r, l | LatestWithin(c, t, t.bootLog, t.highLog, r, l) ensures Held(t, r, l) {
        assert LatestWithin(c, s, s.bootLog, s.highLog, r, l);
      }
    }
  }

  // ----- the syncer posts -----

  /** A post of data fetched after the poll's logs keeps every fresh copy fresh. */
  lemma StoreKeepsFresh(s: State, t: State, f: Fetched, r: DagRun, l: LogRow)
    requires t.server.known == StoreInit(s.server.known, f) || t.server.known == StoreUpdate(s.server.known, f)
    requires l in s.db.logs && ((l.id <= s.logMark && SawLogs(s, f)) || l.id in f.seenLogs)
    ensures Fresh(s, r, l) ==> Fresh(t, r, l)
    ensures r.id in f.ids && r.id in t.server.known ==> Fresh(t, r, l)
  {
  }

  lemma PostInitHeld(c: Config, s: State, e: Event, t: State)
    requires RunInv(c, s) && LogInv(c, s) && e.PostInit? && PostStep(s, e) == Some(t) && RunInv(c, t)
    ensures CursorInv(t) && HighLogFresh(c, t)
  {
    var f := s.phase.fetched.value;
    forall r, l | LatestWithin(c, t, t.bootLog, t.highLog, r, l) ensures Held(t, r, l) {
      assert LatestWithin(c, s, s.bootLog, s.highLog, r, l);
      StoreKeepsFresh(s, t, f, r, l);
      if !Fresh(s, r, l) && r.id !in t.server.known {
        assert r.id > s.highRun >= s.bootRun;
      }
    }
  }

  lemma PostInitCovered(c: Config, s: State, e: Event, t: State)
    requires RunInv(c, s) && LogInv(c, s) && e.PostInit? && PostStep(s, e) == Some(t) && c.bulk >= 0
    ensures LogsCovered(c, t, Inits(t), s.phase.updates)
  {
    var f, inits := s.phase.fetched.value, s.phase.inits;
    forall r, l | LatestWithin(c, t, t.highLog, t.logMark, r, l)
      ensures Fresh(t, r, l) || InInits(Inits(t), r.id) || InUpdates(s.phase.updates, r.id, l.id) || r.id > t.runMark
    {
      assert LatestWithin(c, s, s.highLog, s.logMark, r, l);
      StoreKeepsFresh(s, t, f, r, l);
      if !Fresh(s, r, l) && InInits(inits, r.id) {
        PostedOrInTail(inits, f, s.db, r);
      }
    }
  }

  lemma PostedOrInTail(inits: seq<InitChunk>, f: Fetched, db: Db, r: DagRun)
    requires inits != [] && FetchedInv(db, inits[0].rows, f) && r in db.runs && InInits(inits, r.id)
    ensures r.id in f.ids || InInits(inits[1..], r.id)
  {
    var k, d :| 0 <= k < |inits| && d in inits[k].rows && d.id == r.id;
    if k == 0 {
      assert r.id in IdSet(inits[0].rows);
    } else {
      assert d in inits[1..][k - 1].rows;
    }
  }

  lemma InitsTail(inits: seq<InitChunk>, id: int)
    requires inits != []
    ensures InInits(inits[1..], id) ==> InInits(inits, id)
  {
    if j, d :| 0 <= j < |inits[1..]| && d in inits[1..][j].rows && d.id == id {
      assert d in inits[j + 1].rows;
    }
  }

  lemma DisjointTails(inits: seq<InitChunk>, updates: seq<UpdateChunk>)
    requires Disjoint(inits, updates)
    ensures inits != [] ==> Disjoint(inits[1..], updates)
    ensures updates != [] ==> Disjoint(inits, updates[1..])
    ensures Disjoint([], updates)
  {
    forall k, r | inits != [] && 0 <= k < |updates| && r in updates[k].rows ensures !InInits(inits[1..], r.id) {
      InitsTail(inits, r.id);
    }
  }

  lemma PostInitKeepsLogs(c: Config, s: State, e: Event)
    requires RunInv(c, s) && LogInv(c, s) && e.PostInit? && PostStep(s, e).Some?
    ensures LogInv(c, PostStep(s, e).value)
  {
    var t := PostStep(s, e).value;
    PostInitKeeps(c, s, e);
    PostInitHeld(c, s, e, t);
    assert UpdatesInv(t, s.phase.updates);
    DisjointTails(s.phase.inits, s.phase.updates);
    if c.bulk >= 0 {
      PostInitCovered(c, s, e, t);
    }
  }

  lemma LogAboveCursor(a: Runs, b: Runs, d: AirflowDagRun)
    requires ChunksApart(a, b) && UpdateCursor(a).Some? && d in b && d.maxLogId.Some?
    ensures UpdateCursor(a).value < d.maxLogId.value
  {
    UpdateCursorIsARow(a);
    var x :| x in a && x.maxLogId == UpdateCursor(a);
    assert LogLe(x, d);
  }

  /** When the cursor moves up to `l`, the run with latest log `l` is in the chunk just posted. */
  lemma InHeadChunk(s: State, updates: seq<UpdateChunk>, id: int, log: int)
    requires UpdatesInv(s, updates) && updates != [] && InUpdates(updates, id, log)
    requires updates[0].cursor.Some? && log <= updates[0].cursor.value
    ensures id in IdSet(updates[0].rows)
  {
    var k, d :| 0 <= k < |updates| && d in updates[k].rows && d.id == id && d.maxLogId == Some(log);
    if k > 0 {
      LogAboveCursor(updates[0].rows, updates[k].rows, d);
    }
  }

  /** What the post does to the state: the fetched runs the server knows are stored, and the cursor moves at most to the chunk's. */
  ghost predicate Posted(s: State, e: Event, t: State)
    requires e.PostUpdate?
  {
    && s.phase.Updating? && s.phase.fetched.Some? && s.phase.updates != []
    && t.db == s.db && t.bootLog == s.bootLog && t.highRun == s.highRun && t.highLog == Max(s.highLog, e.newLog)
    && t.logMark == s.logMark && t.runMark == s.runMark && t.server.lastLog == Some(e.newLog)
    && t.server.known == StoreUpdate(s.server.known, s.phase.fetched.value)
    && (e.newLog > s.highLog ==> s.phase.updates[0].cursor.Some? && e.newLog <= s.phase.updates[0].cursor.value)
  }

  lemma PostUpdatePosts(s: State, e: Event, t: State)
    requires CursorInv(s) && e.PostUpdate? && PostStep(s, e) == Some(t)
    ensures Posted(s, e, t)
  {
  }

  /** A latest log the cursor passes belongs to a run that is held, in the chunk posted, or dropped. */
  lemma PassedLog(c: Config, s: State, e: Event, t: State, r: DagRun, l: LogRow)
    requires RunInv(c, s) && LogInv(c, s) && e.PostUpdate? && Posted(s, e, t)
    requires LatestWithin(c, s, s.highLog, e.newLog, r, l) && !InInits(s.phase.dropped, r.id)
    ensures Held(t, r, l)
  {
    var f, updates := s.phase.fetched.value, s.phase.updates;
    UpdateCursorIsARow(updates[0].rows);
    assert LatestWithin(c, s, s.highLog, s.logMark, r, l);
    StoreKeepsFresh(s, t, f, r, l);
    if !Fresh(s, r, l) && InUpdates(updates, r.id, l.id) {
      InHeadChunk(s, updates, r.id, l.id);
      var d :| d in updates[0].rows && d.id == r.id;
    }
  }

  /** The post changes nothing for a dropped run: it is in no update chunk. */
  lemma DroppedUntouched(c: Config, s: State, e: Event, t: State, r: DagRun, l: LogRow)
    requires LogInv(c, s) && e.PostUpdate? && Posted(s, e, t) && InInits(s.phase.dropped, r.id)
    ensures Held(t, r, l) <==> Held(s, r, l)
  {
    assert r.id !in IdSet(s.phase.updates[0].rows);
  }

  /** A swallowed init failure, exactly: whichever update chunk is posted, and whatever happened since, the promise survives
      the post exactly when its cursor passes no latest log of a dropped run that the server does not hold. */
  lemma SwallowedInitFailure(c: Config, s: State, e: Event, t: State)
    requires RunInv(c, s) && LogInv(c, s) && e.PostUpdate? && PostStep(s, e) == Some(t)
    ensures s.phase.Updating?
    ensures HighLogFresh(c, t) <==> PassesNoDropped(c, s, e.newLog)
  {
    PostUpdatePosts(s, e, t);
    if PassesNoDropped(c, s, e.newLog) {
      forall r, l | LatestWithin(c, t, t.bootLog, t.highLog, r, l) ensures Held(t, r, l) {
        if l.id <= s.highLog {
          assert LatestWithin(c, s, s.bootLog, s.highLog, r, l);
          StoreKeepsFresh(s, t, s.phase.fetched.value, r, l);
        } else {
          assert LatestWithin(c, s, s.highLog, e.newLog, r, l);
          if InInits(s.phase.dropped, r.id) {
            DroppedUntouched(c, s, e, t, r, l);
          } else {
            PassedLog(c, s, e, t, r, l);
          }
        }
      }
    }
    if HighLogFresh(c, t) {
      forall r, l | LatestWithin(c, s, s.highLog, e.newLog, r, l) && InInits(s.phase.dropped, r.id) ensures Held(s, r, l) {
        assert LatestWithin(c, t, t.bootLog, t.highLog, r, l);
        DroppedUntouched(c, s, e, t, r, l);
      }
    }
  }

  lemma PostUpdateCovered(c: Config, s: State, e: Event, t: State)
    requires RunInv(c, s) && LogInv(c, s) && e.PostUpdate? && Posted(s, e, t) && c.bulk >= 0
    ensures LogsCovered(c, t, s.phase.dropped, s.phase.updates[1..])
  {
    var f, updates := s.phase.fetched.value, s.phase.updates;
    forall r, l | LatestWithin(c, t, t.highLog, t.logMark, r, l)
      ensures Fresh(t, r, l) || InInits(s.phase.dropped, r.id) || InUpdates(updates[1..], r.id, l.id) || r.id > t.runMark
    {
      assert LatestWithin(c, s, s.highLog, s.logMark, r, l);
      StoreKeepsFresh(s, t, f, r, l);
      if !Fresh(s, r, l) && InUpdates(updates, r.id, l.id) {
        var k, d :| 0 <= k < |updates| && d in updates[k].rows && d.id == r.id && d.maxLogId == Some(l.id);
        if k == 0 {
          assert r.id in IdSet(updates[0].rows) && r.id in s.server.known;
        } else {
          assert d in updates[1..][k - 1].rows;
        }
      }
    }
  }

  lemma TailUpdates(s: State, t: State, updates: seq<UpdateChunk>)
    requires UpdatesInv(s, updates) && updates != []
    requires t.server.known.Keys == s.server.known.Keys && t.logMark == s.logMark
    ensures UpdatesInv(t, updates[1..]) && UpdatesInv(t, updates)
  {
  }

  lemma PostUpdateKeepsLogs(c: Config, s: State, e: Event)
    requires RunInv(c, s) && LogInv(c, s) && Calm(c, s, e) && e.PostUpdate? && PostStep(s, e).Some?
    ensures LogInv(c, PostStep(s, e).value)
  {
    var t := PostStep(s, e).value;
    SwallowedInitFailure(c, s, e, t);
    PostUpdatePosts(s, e, t);
    TailUpdates(s, t, s.phase.updates);
    DisjointTails(s.phase.dropped, s.phase.updates);
    if s.phase.updates[0].cursor.Some? {
      UpdateCursorIsARow(s.phase.updates[0].rows);
    }
    if c.bulk >= 0 {
      PostUpdateCovered(c, s, e, t);
    }
  }

  /** Fetching, finishing a phase and crashing change neither the server nor Airflow. */
  lemma QuietPostKeepsLogs(c: Config, s: State, e: Event)
    requires RunInv(c, s) && LogInv(c, s) && !IsPollEvent(e) && !e.PostInit? && !e.PostUpdate? && PostStep(s, e).Some?
    ensures LogInv(c, PostStep(s, e).value)
  {
    var t := PostStep(s, e).value;
    SameDbSameHeld(c, s, t);
    if Polled(s) && Polled(t) {
      assert Inits(t) == Inits(s) && t.phase.updates == s.phase.updates;
      assert UpdatesInv(t, s.phase.updates);
      if c.bulk >= 0 {
        SameCovered(c, s, t, Inits(s), s.phase.updates);
      }
    }
  }

  lemma SameCovered(c: Config, s: State, t: State, inits: seq<InitChunk>, updates: seq<UpdateChunk>)
    requires LogsCovered(c, s, inits, updates)
    requires t.db == s.db && t.server == s.server && t.highLog == s.highLog && t.logMark == s.logMark && t.runMark == s.runMark
    ensures LogsCovered(c, t, inits, updates)
  {
    forall r, l | LatestWithin(c, t, t.highLog, t.logMark, r, l)
      ensures Fresh(t, r, l) || InInits(inits, r.id) || InUpdates(updates, r.id, l.id) || r.id > t.runMark
    {
      assert LatestWithin(c, s, s.highLog, s.logMark, r, l);
    }
  }

  // ----- the fixer -----

  /** The state after the fixer's post. */
  ghost function AfterFixer(s: State): State
    requires s.fixer.FixerHolds?
  {
    s.(server := s.server.(known := StoreUpdate(s.server.known, s.fixer.data)), fixer := FixerIdle)
  }

  lemma FixerHeld(s: State, r: DagRun, l: LogRow)
    requires s.fixer.FixerHolds?
    ensures !PutsBackOlder(s, r, l) && Held(s, r, l) ==> Held(AfterFixer(s), r, l)
    ensures !PutsBackOlder(s, r, l) && Fresh(s, r, l) ==> Fresh(AfterFixer(s), r, l)
    ensures PutsBackOlder(s, r, l) ==> !Held(AfterFixer(s), r, l)
  {
  }

  /** A late fixer post, exactly: the promise survives it exactly when it puts back no copy without a latest log
      that a cursor has passed. */
  lemma LateFixerPost(c: Config, s: State, t: State)
    requires RunInv(c, s) && LogInv(c, s) && FixerStep(s, FixerPost) == Some(t)
    ensures s.fixer.FixerHolds?
    ensures HighLogFresh(c, t) <==> OlderNotBelowCursor(c, s)
  {
    if s.server.lastLog.Some? {
      if OlderNotBelowCursor(c, s) {
        forall r, l | LatestWithin(c, t, t.bootLog, t.highLog, r, l) ensures Held(t, r, l) {
          assert LatestWithin(c, s, s.bootLog, s.highLog, r, l);
          FixerHeld(s, r, l);
        }
      }
      if HighLogFresh(c, t) {
        forall r, l | LatestWithin(c, s, s.bootLog, s.highLog, r, l) ensures !PutsBackOlder(s, r, l) {
          assert LatestWithin(c, t, t.bootLog, t.highLog, r, l);
          FixerHeld(s, r, l);
        }
      }
    }
  }

  /** What is left to post covers the logs after the fixer's post exactly when it also spares the logs up to the poll's mark. */
  lemma FixerCoveredExactly(c: Config, s: State)
    requires RunInv(c, s) && LogInv(c, s) && s.fixer.FixerHolds? && Polled(s) && c.bulk >= 0
    ensures LogsCovered(c, AfterFixer(s), Inits(s), s.phase.updates) <==> OlderNotBelowMark(c, s)
  {
    var t := AfterFixer(s);
    if OlderNotBelowMark(c, s) {
      forall r, l | LatestWithin(c, t, t.highLog, t.logMark, r, l)
        ensures Fresh(t, r, l) || InInits(Inits(s), r.id) || InUpdates(s.phase.updates, r.id, l.id) || r.id > t.runMark
      {
        assert LatestWithin(c, s, s.highLog, s.logMark, r, l);
        FixerHeld(s, r, l);
      }
    }
    if LogsCovered(c, t, Inits(s), s.phase.updates) {
      forall r, l | LatestWithin(c, s, s.highLog, s.logMark, r, l) && PutsBackOlder(s, r, l)
        ensures InInits(Inits(s), r.id) || InUpdates(s.phase.updates, r.id, l.id)
      {
        assert LatestWithin(c, t, t.highLog, t.logMark, r, l);
        FixerHeld(s, r, l);
      }
    }
  }

  lemma FixerPhase(c: Config, s: State)
    requires RunInv(c, s) && LogInv(c, s) && s.fixer.FixerHolds? && OlderNotBelowMark(c, s)
    ensures LogPhaseInv(c, AfterFixer(s))
  {
    var t := AfterFixer(s);
    assert t.server.known.Keys == s.server.known.Keys;
    if s.phase.LogsRead? {
      SameGroups(c, s, t);
    } else if Polled(s) {
      assert UpdatesInv(t, s.phase.updates);
      if c.bulk >= 0 {
        FixerCoveredExactly(c, s);
      }
    }
  }

  lemma FixerKeepsLogs(c: Config, s: State, e: Event)
    requires RunInv(c, s) && LogInv(c, s) && Calm(c, s, e) && FixerStep(s, e).Some?
    ensures LogInv(c, FixerStep(s, e).value)
  {
    var t := FixerStep(s, e).value;
    if e.FixerPost? {
      LateFixerPost(c, s, t);
      FixerPhase(c, s);
    } else {
      SameDbSameHeld(c, s, t);
      OtherFixerPhase(c, s, t);
    }
  }

  lemma SameGroups(c: Config, s: State, t: State)
    requires s.phase.LogsRead? && GroupsInv(c, s, s.phase.seenLog, s.phase.groups) && t.db == s.db && t.logMark == s.logMark
    ensures GroupsInv(c, t, s.phase.seenLog, s.phase.groups)
  {
  }

  lemma OtherFixerPhase(c: Config, s: State, t: State)
    requires LogInv(c, s) && t == s.(fixer := t.fixer)
    ensures LogPhaseInv(c, t)
  {
    if s.phase.LogsRead? {
      SameGroups(c, s, t);
    } else if Polled(s) {
      assert UpdatesInv(t, s.phase.updates);
      if c.bulk >= 0 {
        SameCovered(c, s, t, Inits(s), s.phase.updates);
      }
    }
  }

  // ----- all together -----

  lemma StepKeepsLogs(c: Config, s: State, e: Event)
    requires RunInv(c, s) && LogInv(c, s) && Calm(c, s, e) && Step(c, s, e).Some?
    ensures LogInv(c, Step(c, s, e).value)
  {
    if IsAirflowEvent(e) {
      AirflowKeeps(c, s, e);
    } else if IsFixerEvent(e) {
      FixerKeepsLogs(c, s, e);
    } else if IsPollEvent(e) {
      PollKeepsLogs(c, s, e);
    } else if e.PostInit? {
      PostInitKeepsLogs(c, s, e);
    } else if e.PostUpdate? {
      PostUpdateKeepsLogs(c, s, e);
    } else {
      QuietPostKeepsLogs(c, s, e);
    }
  }

  /** No calmness is asked for in vain: a step keeps the invariant exactly when it is calm. */
  lemma CalmExactly(c: Config, s: State, e: Event)
    requires RunInv(c, s) && LogInv(c, s) && Step(c, s, e).Some?
    ensures LogInv(c, Step(c, s, e).value) <==> Calm(c, s, e)
  {
    var t := Step(c, s, e).value;
    if Calm(c, s, e) {
      StepKeepsLogs(c, s, e);
    } else if e.PostUpdate? {
      SwallowedInitFailure(c, s, e, t);
    } else {
      LateFixerPost(c, s, t);
      if Polled(s) && c.bulk >= 0 {
        FixerCoveredExactly(c, s);
      }
    }
  }

  lemma {:induction false} LogInvAlways(c: Config, s: State, history: seq<Event>)
    requires Start(s) && CalmHistory(c, s, history) && Run(c, s, history).Some?
    ensures LogInv(c, Run(c, s, history).value)
  {
    if history != [] {
      var last := |history| - 1;
      var before := history[..last];
      assert forall k | 0 <= k < last :: before[..k] == history[..k] && before[k] == history[k];
      LogInvAlways(c, s, before);
      RunInvAlways(c, s, before);
      StepKeepsLogs(c, Run(c, s, before).value, history[last]);
    } else {
      assert forall r, l :: !LatestWithin(c, s, s.bootLog, s.highLog, r, l) || s.server.lastLog.None?;
    }
  }

  /** Main result. In every state of a calm history the log cursor has passed no run
      whose latest log the server's copy does not reflect. */
  lemma LogCursorAlwaysFresh(c: Config, s: State, history: seq<Event>)
    requires Start(s) && CalmHistory(c, s, history) && Run(c, s, history).Some?
    ensures LogCursorFresh(c, Run(c, s, history).value)
  {
    LogInvAlways(c, s, history);
    RunInvAlways(c, s, history);
    var t := Run(c, s, history).value;
    if t.server.lastLog.Some? && t.server.lastRun.Some? {
      forall r, l | LatestWithin(c, t, t.bootLog, t.server.lastLog.value, r, l)
        ensures Fresh(t, r, l) || (r.id !in t.server.known && r.id > t.server.lastRun.value)
      {
        assert LatestWithin(c, t, t.bootLog, t.highLog, r, l);
      }
    }
  }
}
