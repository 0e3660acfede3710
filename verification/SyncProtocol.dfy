/** Airflow, the Databand server, the runtime syncer and the runtime fixer as one step system.
    A history is a sequence of events; each event says which party moves and resolves what that party
    cannot control (the rows Airflow inserts, the order of a response, where a cursor ends up, which call raises).

    Assumed of the server, which is not part of this model: a post stores its data and moves the cursor in one
    step; a missing cursor moves nothing and a cursor n leaves the server's cursor at most max(old, n); a post
    that raises may still have taken effect; only initialised runs are reported as active.
    Assumed of Airflow: ids become visible in increasing order, (dag_id, execution_date) is unique among runs,
    a run is inserted only for a DAG with a model row, and log rows are not deleted. */
module SyncProtocol {
  import opened Common
  import opened Sequences
  import opened AirflowDb
  import opened Syncer

  datatype Config = Config(dagIds: seq<string>, bulk: int)

  /** What a fetch returned: the runs that existed, and (for the record) the log ids written by then. */
  datatype Fetched = Fetched(ids: set<int>, seenLogs: set<int>)

  /** `known` maps each initialised run to the log ids that were written when the server's copy was fetched. */
  datatype Server = Server(known: map<int, set<int>>, lastRun: Option<int>, lastLog: Option<int>)

  /** `dropped` are the init chunks given up when `init_dagruns` raised; the first of them may have been stored. */
  datatype Phase =
    | Idle
    | Booting
    | BootValues(run: int, log: int)
    | Reading(active: seq<int>, seenRun: int, seenLog: int)
    | LogsRead(active: seq<int>, seenRun: int, seenLog: int, groups: map<LogKey, int>)
    | Initialising(inits: seq<InitChunk>, fetched: Option<Fetched>, updates: seq<UpdateChunk>)
    | Updating(updates: seq<UpdateChunk>, fetched: Option<Fetched>, dropped: seq<InitChunk>)

  datatype Fixer = FixerIdle | FixerHolds(data: Fetched)

  /** `runHigh` and `logHigh` are the greatest ids Airflow ever gave out. The last five fields record history only:
      the bootstrap cursors, the greatest cursors the server ever held, and the two id marks of the current poll. */
  datatype State = State(
    db: Db,
    runHigh: int,
    logHigh: int,
    server: Server,
    phase: Phase,
    fixer: Fixer,
    bootRun: int,
    bootLog: int,
    highRun: int,
    highLog: int,
    runMark: int,
    logMark: int)

  datatype Event =
    // Airflow
    | InsertRun(row: DagRun)
    | SetRunState(id: int, state: string)
    | DeleteRun(id: int)
    | SetModel(dagId: string, model: DagModel)
    | InsertLog(log: LogRow)
    // the syncer
    | GetActive(active: seq<int>)
    | ReadLastSeen(maxRun: Option<int>, maxLog: Option<int>)
    | PostLastSeen
    | ReadLogs(groups: map<LogKey, int>)
    | ReadRuns(keys: seq<LogKey>, resp: Runs)
    | FetchInit
    | PostInit(newRun: int, raised: bool)
    | InitRaised
    | InitDone
    | FetchUpdate
    | PostUpdate(newLog: int, raised: bool)
    | UpdateDone
    | Crash
    // the fixer
    | FixerFetch(ids: set<int>)
    | FixerPost
    | FixerDrop

  function Max(a: int, b: int): int { if a < b then b else a }

  function FetchOf(db: Db, ids: set<int>): Fetched {
    Fetched(set r | r in db.runs && r.id in ids :: r.id, LogIds(db.logs))
  }

  function IdSet(rows: Runs): set<int> { set r | r in rows :: r.id }

  /** An init post stores every fetched run; an update post only those the server knows. */
  function StoreInit(known: map<int, set<int>>, f: Fetched): map<int, set<int>> {
    map i | i in known.Keys + f.ids :: if i in f.ids then f.seenLogs else known[i]
  }

  function StoreUpdate(known: map<int, set<int>>, f: Fetched): map<int, set<int>> {
    map i | i in known :: if i in f.ids then f.seenLogs else known[i]
  }

  // ----- the parties -----

  ghost function AirflowStep(s: State, e: Event): Option<Db> {
    match e
    case InsertRun(row) =>
      if row.id > s.runHigh && row.dagId in s.db.models
         && (forall r | r in s.db.runs :: !(r.dagId == row.dagId && r.execDate == row.execDate))
      then Some(s.db.(runs := s.db.runs + {row})) else None
    case SetRunState(id, state) =>
      Some(s.db.(runs := set r | r in s.db.runs :: if r.id == id then r.(state := state) else r))
    case DeleteRun(id) => Some(s.db.(runs := set r | r in s.db.runs && r.id != id))
    case SetModel(d, m) => Some(s.db.(models := s.db.models[d := m]))
    case InsertLog(l) => if l.id > s.logHigh then Some(s.db.(logs := s.db.logs + {l})) else None
    case _ => None
  }

  /** `resp` is a response to a poll with the log groups read before, whose keys are `keys`. */
  ghost predicate CanRead(c: Config, s: State, keys: seq<LogKey>, resp: Runs)
    requires s.phase.LogsRead?
  {
    && (forall k :: k in keys <==> k in s.phase.groups)
    && IsResponse(resp, RowsFor(c, s, keys), s.phase.groups)
  }

  ghost function RowsFor(c: Config, s: State, keys: seq<LogKey>): set<RunRow>
    requires s.phase.LogsRead?
  {
    NewRows(s.db, Some(s.phase.seenRun), s.phase.active, keys, c.dagIds, true)
  }

  /** The response is split and cut into chunks. */
  function AfterRead(c: Config, s: State, resp: Runs): State
    requires s.phase.LogsRead?
  {
    s.(phase := Initialising(InitPlan(Select(resp, s.phase.active, ToInit), c.bulk), None,
                             UpdatePlan(Select(resp, s.phase.active, ToUpdate), c.bulk)),
       runMark := s.runHigh)
  }

  ghost function PollStep(c: Config, s: State, e: Event): Option<State> {
    match (e, s.phase)
    case (GetActive(active), Idle) =>
      if !(forall i | i in active :: i in s.server.known) then None
      else if s.server.lastRun.None? || s.server.lastLog.None? then Some(s.(phase := Booting))
      else Some(s.(phase := Reading(active, s.server.lastRun.value, s.server.lastLog.value)))
    case (ReadLastSeen(maxRun, maxLog), Booting) =>
      if IsMaxId(RunIds(s.db.runs), maxRun) && IsMaxId(LogIds(s.db.logs), maxLog)
      then Some(s.(phase := BootValues(if maxRun.None? then -1 else maxRun.value, if maxLog.None? then -1 else maxLog.value)))
      else None
    case (PostLastSeen, BootValues(run, log)) =>
      if s.server.lastRun.None? && s.server.lastLog.None?
      then Some(s.(server := s.server.(lastRun := Some(run), lastLog := Some(log)), phase := Idle,
                   bootRun := run, bootLog := log, highRun := run, highLog := log))
      else None
    case (ReadLogs(groups), Reading(active, seenRun, seenLog)) =>
      if IsLogGroups(groups, s.db.logs, seenLog, c.dagIds)
      then Some(s.(phase := LogsRead(active, seenRun, seenLog, groups), logMark := s.logHigh)) else None
    case (ReadRuns(keys, resp), LogsRead(_, _, _, _)) =>
      if CanRead(c, s, keys, resp) then Some(AfterRead(c, s, resp)) else None
    case _ => None
  }

  ghost function PostStep(s: State, e: Event): Option<State> {
    match (e, s.phase)
    case (FetchInit, Initialising(inits, None, updates)) =>
      if inits == [] then None
      else Some(s.(phase := Initialising(inits, Some(FetchOf(s.db, IdSet(inits[0].rows))), updates)))
    case (PostInit(newRun, raised), Initialising(inits, Some(f), updates)) =>
      if inits == [] || s.server.lastRun.None? || newRun > Max(s.server.lastRun.value, inits[0].cursor) then None
      else Some(s.(server := s.server.(known := StoreInit(s.server.known, f), lastRun := Some(newRun)),
                   highRun := Max(s.highRun, newRun),
                   phase := if raised then Updating(updates, None, inits) else Initialising(inits[1..], None, updates)))
    case (InitRaised, Initialising(inits, _, updates)) =>
      if inits == [] then None else Some(s.(phase := Updating(updates, None, inits)))
    case (InitDone, Initialising(inits, _, updates)) =>
      if inits == [] then Some(s.(phase := Updating(updates, None, []))) else None
    case (FetchUpdate, Updating(updates, None, dropped)) =>
      if updates == [] then None
      else Some(s.(phase := Updating(updates, Some(FetchOf(s.db, IdSet(updates[0].rows))), dropped)))
    case (PostUpdate(newLog, raised), Updating(updates, Some(f), dropped)) =>
      if updates == [] || s.server.lastLog.None?
         || newLog > (if updates[0].cursor.None? then s.server.lastLog.value else Max(s.server.lastLog.value, updates[0].cursor.value))
         || (updates[0].cursor.None? && newLog != s.server.lastLog.value)
      then None
      else Some(s.(server := s.server.(known := StoreUpdate(s.server.known, f), lastLog := Some(newLog)),
                   highLog := Max(s.highLog, newLog),
                   phase := if raised then Idle else Updating(updates[1..], None, dropped)))
    case (UpdateDone, Updating(updates, _, _)) => if updates == [] then Some(s.(phase := Idle)) else None
    // an exception outside the two chunk loops is swallowed by _sync_once, or the process dies
    case (Crash, _) => Some(s.(phase := Idle))
    case _ => None
  }

  ghost function FixerStep(s: State, e: Event): Option<State> {
    match (e, s.fixer)
    case (FixerFetch(ids), FixerIdle) =>
      if forall i | i in ids :: i in s.server.known
      then Some(s.(fixer := FixerHolds(FetchOf(s.db, ids)))) else None
    case (FixerPost, FixerHolds(data)) =>
      Some(s.(server := s.server.(known := StoreUpdate(s.server.known, data)), fixer := FixerIdle))
    case (FixerDrop, FixerHolds(_)) => Some(s.(fixer := FixerIdle))
    case _ => None
  }

  predicate IsAirflowEvent(e: Event) {
    e.InsertRun? || e.SetRunState? || e.DeleteRun? || e.SetModel? || e.InsertLog?
  }
  predicate IsPollEvent(e: Event) {
    e.GetActive? || e.ReadLastSeen? || e.PostLastSeen? || e.ReadLogs? || e.ReadRuns?
  }
  predicate IsFixerEvent(e: Event) { e.FixerFetch? || e.FixerPost? || e.FixerDrop? }

  ghost function WithDb(s: State, e: Event, db: Db): State {
    s.(db := db,
       runHigh := if e.InsertRun? then e.row.id else s.runHigh,
       logHigh := if e.InsertLog? then e.log.id else s.logHigh)
  }

  /** The state after an event, or `None` when the event cannot happen. */
  ghost function Step(c: Config, s: State, e: Event): Option<State> {
    if IsAirflowEvent(e) then
      var db := AirflowStep(s, e);
      if db.None? then None else Some(WithDb(s, e, db.value))
    else if IsFixerEvent(e) then FixerStep(s, e)
    else if IsPollEvent(e) then PollStep(c, s, e)
    else PostStep(s, e)
  }

  ghost function Run(c: Config, s: State, history: seq<Event>): Option<State> {
    if history == [] then Some(s)
    else
      var last := |history| - 1;
      var t := Run(c, s, history[..last]);
      if t.None? then None else Step(c, t.value, history[last])
  }

  lemma Then(c: Config, s: State, h: seq<Event>, t: State, e: Event, u: State)
    requires Run(c, s, h) == Some(t) && Step(c, t, e) == Some(u)
    ensures Run(c, s, h + [e]) == Some(u)
  {
    assert (h + [e])[..|h|] == h;
  }

  lemma {:induction false} Continue(c: Config, s: State, h: seq<Event>, t: State, more: seq<Event>)
    requires Run(c, s, h) == Some(t)
    ensures Run(c, s, h + more) == Run(c, t, more)
    decreases |more|
  {
    if more == [] {
      assert h + more == h;
    } else {
      var last := |more| - 1;
      Continue(c, s, h, t, more[..last]);
      assert (h + more)[..|h| + last] == h + more[..last];
    }
  }

  // ----- where a history may start -----

  ghost predicate DbInv(s: State) {
    && -1 <= s.runHigh && -1 <= s.logHigh
    && (forall r | r in s.db.runs :: r.id <= s.runHigh && r.dagId in s.db.models)
    && (forall a, b | a in s.db.runs && b in s.db.runs && a.id == b.id :: a == b)
    && (forall a, b | a in s.db.runs && b in s.db.runs && a.dagId == b.dagId && a.execDate == b.execDate :: a == b)
    && (forall l | l in s.db.logs :: l.id <= s.logHigh)
    && (forall a, b | a in s.db.logs && b in s.db.logs && a.id == b.id :: a == b)
  }

  /** Any Airflow, any server that knows only runs Airflow had, with no cursors yet or with both set. */
  ghost predicate Start(s: State) {
    && DbInv(s)
    && s.phase == Idle && s.fixer == FixerIdle
    && (forall i | i in s.server.known :: i <= s.runHigh)
    && (s.server.lastRun.None? <==> s.server.lastLog.None?)
    && (s.server.lastRun.Some? ==>
          && s.server.lastRun == Some(s.bootRun) && s.bootRun == s.highRun <= s.runHigh
          && s.server.lastLog == Some(s.bootLog) && s.bootLog == s.highLog <= s.logHigh)
  }

  // ----- run-cursor safety -----

  ghost predicate Selected(c: Config, r: DagRun) { SelectedDag(c.dagIds, r.dagId) }

  /** Every selected run above the bootstrap cursor and at or below the server's cursor has been initialised. */
  ghost predicate RunCursorSafe(c: Config, s: State) {
    s.server.lastRun.Some? ==>
      forall r | r in s.db.runs && Selected(c, r) && s.bootRun < r.id <= s.server.lastRun.value :: r.id in s.server.known
  }

  ghost predicate InInits(inits: seq<InitChunk>, id: int) {
    exists k, r :: 0 <= k < |inits| && r in inits[k].rows && r.id == id
  }

  ghost predicate ServerInv(s: State) {
    && (forall i | i in s.server.known :: i <= s.runHigh)
    && (s.server.lastRun.None? <==> s.server.lastLog.None?)
    && (s.server.lastRun.Some? ==> s.server.lastRun.value <= s.highRun <= s.runHigh)
  }

  ghost predicate HighRunSafe(c: Config, s: State) {
    s.server.lastRun.Some? ==>
      forall r | r in s.db.runs && Selected(c, r) && s.bootRun < r.id <= s.highRun :: r.id in s.server.known
  }

  /** The remaining chunks are in order and at or below the poll's mark. */
  ghost predicate InitsInv(inits: seq<InitChunk>, mark: int) {
    && (forall k | 0 <= k < |inits| :: inits[k].cursor <= mark)
    && (forall k, r | 0 <= k < |inits| && r in inits[k].rows :: r.id <= mark)
    && (forall k, r | 0 < k < |inits| && r in inits[k].rows :: inits[0].cursor < r.id)
    && (forall j, k | 0 <= j < k < |inits| :: forall r | r in inits[k].rows :: inits[j].cursor < r.id)
  }

  /** Every selected run above all cursors is known, still to be posted, or newer than the poll. */
  ghost predicate Covered(c: Config, s: State, inits: seq<InitChunk>) {
    inits != [] ==>
      forall r | r in s.db.runs && Selected(c, r) && r.id > s.highRun ::
        r.id in s.server.known || InInits(inits, r.id) || r.id > s.runMark
  }

  ghost predicate FetchedInv(db: Db, rows: Runs, f: Fetched) {
    && f.ids <= IdSet(rows)
    && (forall r | r in db.runs && r.id in IdSet(rows) :: r.id in f.ids)
  }

  ghost predicate PhaseInv(c: Config, s: State) {
    match s.phase
    case Idle => true
    case Booting => true
    case BootValues(run, log) => run <= s.runHigh && log <= s.logHigh
    case Reading(active, seenRun, seenLog) =>
      s.server.lastRun.Some? && (forall i | i in active :: i in s.server.known) && seenRun <= s.highRun
    case LogsRead(active, seenRun, seenLog, groups) =>
      s.server.lastRun.Some? && (forall i | i in active :: i in s.server.known) && seenRun <= s.highRun
    case Initialising(inits, fetched, updates) =>
      && s.server.lastRun.Some?
      && s.runMark <= s.runHigh
      && (forall i | i in s.server.known :: i <= s.runMark)
      && InitsInv(inits, s.runMark)
      && Covered(c, s, inits)
      && (fetched.Some? ==> inits != [] && FetchedInv(s.db, inits[0].rows, fetched.value))
    case Updating(updates, fetched, dropped) =>
      && s.server.lastRun.Some?
      && s.runMark <= s.runHigh
      && (forall i | i in s.server.known :: i <= s.runMark)
  }

  ghost predicate RunInv(c: Config, s: State) {
    DbInv(s) && ServerInv(s) && HighRunSafe(c, s) && PhaseInv(c, s)
  }

  // ----- Airflow moves -----

  lemma InsertRunKeepsDb(c: Config, s: State, e: Event)
    requires RunInv(c, s) && e.InsertRun? && AirflowStep(s, e).Some?
    ensures RunInv(c, WithDb(s, e, AirflowStep(s, e).value))
  {
    var t := WithDb(s, e, AirflowStep(s, e).value);
    assert DbInv(t);
    assert s.server.lastRun.Some? ==> e.row.id > s.highRun;
    if s.phase.Initialising? {
      forall r | r in t.db.runs && Selected(c, r) && r.id > t.highRun && s.phase.inits != []
        ensures r.id in t.server.known || InInits(s.phase.inits, r.id) || r.id > t.runMark
      {
        assert r == e.row || r in s.db.runs;
      }
      if s.phase.fetched.Some? {
        forall r | r in t.db.runs && r.id in IdSet(s.phase.inits[0].rows) ensures r.id in s.phase.fetched.value.ids {
          assert r in s.db.runs;
        }
      }
    }
  }

  /** No new id and no new key: everything said about the runs still holds. */
  ghost predicate RunsFrom(after: set<DagRun>, before: set<DagRun>) {
    forall r | r in after :: exists q :: q in before && q == r.(state := q.state)
  }

  lemma FewerRunsPhase(c: Config, s: State, t: State)
    requires RunInv(c, s) && RunsFrom(t.db.runs, s.db.runs) && t == s.(db := t.db, logHigh := t.logHigh, fixer := t.fixer)
    requires s.logHigh <= t.logHigh
    ensures PhaseInv(c, t)
  {
    if s.phase.Initialising? {
      var inits := s.phase.inits;
      forall r | r in t.db.runs && Selected(c, r) && r.id > t.highRun && inits != []
        ensures r.id in t.server.known || InInits(inits, r.id) || r.id > t.runMark
      {
        var q :| q in s.db.runs && q == r.(state := q.state);
        assert Selected(c, q);
      }
      if s.phase.fetched.Some? {
        forall r | r in t.db.runs && r.id in IdSet(inits[0].rows) ensures r.id in s.phase.fetched.value.ids {
          var q :| q in s.db.runs && q == r.(state := q.state);
        }
      }
    }
  }

  /** Changing, deleting and describing runs, and writing logs, never adds a run. */
  lemma OtherAirflowKeepsDb(c: Config, s: State, e: Event)
    requires RunInv(c, s) && IsAirflowEvent(e) && !e.InsertRun? && AirflowStep(s, e).Some?
    ensures RunInv(c, WithDb(s, e, AirflowStep(s, e).value))
  {
    var t := WithDb(s, e, AirflowStep(s, e).value);
    SameRuns(s, e, t);
    FewerRunsPhase(c, s, t);
    if s.server.lastRun.Some? {
      forall r | r in t.db.runs && Selected(c, r) && t.bootRun < r.id <= t.highRun ensures r.id in t.server.known {
        var q :| q in s.db.runs && q == r.(state := q.state);
        assert Selected(c, q);
      }
    }
  }

  lemma SetRunStateKeepsDb(s: State, e: Event, t: State)
    requires DbInv(s) && e.SetRunState? && AirflowStep(s, e).Some? && t == WithDb(s, e, AirflowStep(s, e).value)
    ensures DbInv(t)
  {
    forall a, b | a in t.db.runs && b in t.db.runs && (a.id == b.id || (a.dagId == b.dagId && a.execDate == b.execDate))
      ensures a == b
    {
      var p :| p in s.db.runs && a == if p.id == e.id then p.(state := e.state) else p;
      var q :| q in s.db.runs && b == if q.id == e.id then q.(state := e.state) else q;
      assert p == q;
    }
  }

  /** Each run after the move was there before, up to its state. */
  lemma SameRuns(s: State, e: Event, t: State)
    requires DbInv(s) && IsAirflowEvent(e) && !e.InsertRun? && AirflowStep(s, e).Some?
    requires t == WithDb(s, e, AirflowStep(s, e).value)
    ensures DbInv(t)
    ensures RunsFrom(t.db.runs, s.db.runs)
  {
    if e.SetRunState? {
      SetRunStateKeepsDb(s, e, t);
    }
    forall r | r in t.db.runs ensures exists q :: q in s.db.runs && q == r.(state := q.state) {
      if e.SetRunState? {
        var q :| q in s.db.runs && r == if q.id == e.id then q.(state := e.state) else q;
        assert q == r.(state := q.state);
      } else {
        assert r in s.db.runs && r == r.(state := r.state);
      }
    }
  }

  // ----- the syncer polls -----

  lemma ResponseIdsDistinct(s: State, resp: Runs, rows: set<RunRow>, groups: map<LogKey, int>)
    requires forall a, b | a in rows && b in rows && a.id == b.id :: a == b
    requires IsResponse(resp, rows, groups)
    ensures DistinctBy(RunId, resp)
  {
    forall i, j | 0 <= i < j < |resp| ensures RunId(resp[i]) != RunId(resp[j]) {
      assert resp[i] in resp && resp[j] in resp;
      var a :| a in rows && resp[i] == ToDagRun(a, groups);
      var b :| b in rows && resp[j] == ToDagRun(b, groups);
    }
  }

  lemma RowsHaveDistinctIds(s: State, rows: set<RunRow>, dagIds: seq<string>)
    requires DbInv(s) && rows <= BaseRows(s.db, dagIds, true)
    ensures forall a, b | a in rows && b in rows && a.id == b.id :: a == b
    ensures forall a | a in rows :: a.id <= s.runHigh
  {
    forall a, b | a in rows && b in rows && a.id == b.id ensures a == b {
      var p :| p in s.db.runs && InBase(s.db, p, dagIds, true) && a == Joined(p, s.db.models[p.dagId]);
      var q :| q in s.db.runs && InBase(s.db, q, dagIds, true) && b == Joined(q, s.db.models[q.dagId]);
    }
  }

  /** Each run of the plan's batch is in some chunk. */
  lemma InInitPlan(runs: Runs, bulk: int, r: AirflowDagRun)
    requires r in runs && InitPlan(runs, bulk) != []
    ensures InInits(InitPlan(runs, bulk), r.id)
  {
    var chunks := Chunks(SortById(runs), BulkSize(bulk, runs));
    FlattenChunks(SortById(runs), BulkSize(bulk, runs));
    FlattenMember(chunks, r);
    var k :| 0 <= k < |chunks| && r in chunks[k];
    assert r in InitPlan(runs, bulk)[k].rows;
  }

  lemma InitPlanInv(runs: Runs, bulk: int, mark: int)
    requires DistinctBy(RunId, runs)
    requires forall r | r in runs :: r.id <= mark
    ensures InitsInv(InitPlan(runs, bulk), mark)
  {
    var plan := InitPlan(runs, bulk);
    forall j, k | 0 <= j < k < |plan| ensures forall r | r in plan[k].rows :: plan[j].cursor < r.id {
      InitPlanOrdered(runs, bulk, j, k);
    }
    forall k, r | 0 <= k < |plan| && r in plan[k].rows ensures r.id <= mark {
      InitPlanRows(runs, bulk, k, r);
    }
    forall k | 0 <= k < |plan| ensures plan[k].cursor <= mark {
      InitPlanCursor(runs, bulk, k);
    }
  }

  /** The poll returns every selected run above the cursor it was made with. */
  lemma NewRunReturned(c: Config, s: State, keys: seq<LogKey>, resp: Runs, r: DagRun)
    requires s.phase.LogsRead? && CanRead(c, s, keys, resp)
    requires r in s.db.runs && r.dagId in s.db.models && Selected(c, r) && r.id > s.phase.seenRun
    ensures ToDagRun(Joined(r, s.db.models[r.dagId]), s.phase.groups) in resp
  {
    var row := Joined(r, s.db.models[r.dagId]);
    assert InBase(s.db, r, c.dagIds, true);
    assert row in RowsFor(c, s, keys);
  }

  /** A polled row carries no events, so that one the server does not know is to be initialised. */
  lemma UnknownToInit(row: RunRow, groups: map<LogKey, int>, active: seq<int>)
    requires row.id !in active
    ensures Categorize(ToDagRun(row, groups), active) == ToInit
  {
  }

  lemma NotActive(c: Config, s: State, id: int)
    requires PhaseInv(c, s) && s.phase.LogsRead? && id !in s.server.known
    ensures id !in s.phase.active && s.phase.seenRun <= s.highRun
  {
  }

  /** A new run that the server does not know is in an init chunk after the poll. */
  lemma NewRunPlanned(c: Config, s: State, keys: seq<LogKey>, resp: Runs, r: DagRun)
    requires RunInv(c, s) && s.phase.LogsRead? && CanRead(c, s, keys, resp)
    requires InitPlan(Select(resp, s.phase.active, ToInit), c.bulk) != []
    requires r in s.db.runs && Selected(c, r) && r.id > s.highRun && r.id !in s.server.known
    ensures InInits(InitPlan(Select(resp, s.phase.active, ToInit), c.bulk), r.id)
  {
    NotActive(c, s, r.id);
    NewRunReturned(c, s, keys, resp, r);
    var d := ToDagRun(Joined(r, s.db.models[r.dagId]), s.phase.groups);
    UnknownToInit(Joined(r, s.db.models[r.dagId]), s.phase.groups, s.phase.active);
    InInitPlan(Select(resp, s.phase.active, ToInit), c.bulk, d);
  }

  lemma ReadRunsCovers(c: Config, s: State, keys: seq<LogKey>, resp: Runs)
    requires RunInv(c, s) && s.phase.LogsRead? && CanRead(c, s, keys, resp)
    ensures Covered(c, AfterRead(c, s, resp), InitPlan(Select(resp, s.phase.active, ToInit), c.bulk))
  {
    var inits := InitPlan(Select(resp, s.phase.active, ToInit), c.bulk);
    forall r | inits != [] && r in s.db.runs && Selected(c, r) && r.id > s.highRun && r.id !in s.server.known
      ensures InInits(inits, r.id)
    {
      NewRunPlanned(c, s, keys, resp, r);
    }
  }

  lemma ResponseDistinct(c: Config, s: State, keys: seq<LogKey>, resp: Runs)
    requires RunInv(c, s) && s.phase.LogsRead? && CanRead(c, s, keys, resp)
    ensures DistinctBy(RunId, resp) && forall d | d in resp :: d.id <= s.runHigh
  {
    var rows := RowsFor(c, s, keys);
    RowsHaveDistinctIds(s, rows, c.dagIds);
    ResponseIdsDistinct(s, resp, rows, s.phase.groups);
    forall d | d in resp ensures d.id <= s.runHigh {
      var a :| a in rows && d == ToDagRun(a, s.phase.groups);
    }
  }

  lemma ReadRunsKeeps(c: Config, s: State, keys: seq<LogKey>, resp: Runs)
    requires RunInv(c, s) && s.phase.LogsRead? && CanRead(c, s, keys, resp)
    ensures RunInv(c, AfterRead(c, s, resp))
  {
    var toInit := Select(resp, s.phase.active, ToInit);
    ResponseDistinct(c, s, keys, resp);
    FilterDistinct(IsCategory(s.phase.active, ToInit), RunId, resp);
    InitPlanInv(toInit, c.bulk, s.runHigh);
    ReadRunsCovers(c, s, keys, resp);
  }

  lemma PollKeeps(c: Config, s: State, e: Event)
    requires RunInv(c, s) && IsPollEvent(e) && PollStep(c, s, e).Some?
    ensures RunInv(c, PollStep(c, s, e).value)
  {
    if e.ReadRuns? {
      ReadRunsKeeps(c, s, e.keys, e.resp);
    } else if e.ReadLastSeen? {
      MaxIdBelow(s, e.maxRun, e.maxLog);
    } else if e.PostLastSeen? {
      var t := PollStep(c, s, e).value;
      assert t.bootRun == t.highRun;
    }
  }

  lemma MaxIdBelow(s: State, maxRun: Option<int>, maxLog: Option<int>)
    requires DbInv(s) && IsMaxId(RunIds(s.db.runs), maxRun) && IsMaxId(LogIds(s.db.logs), maxLog)
    ensures maxRun.Some? ==> maxRun.value <= s.runHigh
    ensures maxLog.Some? ==> maxLog.value <= s.logHigh
  {
  }

  // ----- the syncer posts -----

  lemma PostInitKeeps(c: Config, s: State, e: Event)
    requires RunInv(c, s) && e.PostInit? && PostStep(s, e).Some?
    ensures RunInv(c, PostStep(s, e).value)
  {
    var t := PostStep(s, e).value;
    var inits, f := s.phase.inits, s.phase.fetched.value;
    assert f.ids <= IdSet(inits[0].rows);
    forall i | i in t.server.known ensures i <= s.runMark {
      if i in f.ids {
        var r :| r in inits[0].rows && r.id == i;
      }
    }
    forall r | r in t.db.runs && Selected(c, r) && r.id > s.highRun && r.id <= s.runMark
      ensures r.id in t.server.known || (inits[1..] != [] && InInits(inits[1..], r.id) && inits[0].cursor < r.id)
    {
      PostedOrLater(c, s, r);
    }
    assert t.highRun <= Max(s.highRun, inits[0].cursor);
    assert HighRunSafe(c, t);
    if !e.raised {
      assert InitsInv(inits[1..], s.runMark);
    }
  }

  lemma PostedOrLater(c: Config, s: State, r: DagRun)
    requires RunInv(c, s) && s.phase.Initialising? && s.phase.fetched.Some?
    requires r in s.db.runs && Selected(c, r) && s.highRun < r.id <= s.runMark
    ensures var inits := s.phase.inits;
            || r.id in s.server.known || r.id in s.phase.fetched.value.ids
            || (inits[1..] != [] && InInits(inits[1..], r.id) && inits[0].cursor < r.id)
  {
    var inits := s.phase.inits;
    if r.id !in s.server.known {
      assert InInits(inits, r.id);
      var k, d :| 0 <= k < |inits| && d in inits[k].rows && d.id == r.id;
      if k == 0 {
        assert r.id in IdSet(inits[0].rows);
      } else {
        assert inits[1..][k - 1] == inits[k];
        assert d in inits[1..][k - 1].rows;
      }
    }
  }

  lemma PostKeeps(c: Config, s: State, e: Event)
    requires RunInv(c, s) && !IsPollEvent(e) && PostStep(s, e).Some?
    ensures RunInv(c, PostStep(s, e).value)
  {
    if e.PostInit? {
      PostInitKeeps(c, s, e);
    }
  }

  // ----- all together -----

  lemma FixerKeeps(c: Config, s: State, e: Event)
    requires RunInv(c, s) && FixerStep(s, e).Some?
    ensures RunInv(c, FixerStep(s, e).value)
  {
    var t := FixerStep(s, e).value;
    assert t.server.known.Keys == s.server.known.Keys;
    assert DbInv(t) && ServerInv(t) && HighRunSafe(c, t);
    assert s.phase.Initialising? ==> Covered(c, t, s.phase.inits);
  }

  lemma StepKeeps(c: Config, s: State, e: Event)
    requires RunInv(c, s) && Step(c, s, e).Some?
    ensures RunInv(c, Step(c, s, e).value)
  {
    if IsAirflowEvent(e) {
      if e.InsertRun? {
        InsertRunKeepsDb(c, s, e);
      } else {
        OtherAirflowKeepsDb(c, s, e);
      }
    } else if IsFixerEvent(e) {
      FixerKeeps(c, s, e);
    } else if IsPollEvent(e) {
      PollKeeps(c, s, e);
    } else {
      PostKeeps(c, s, e);
    }
  }

  lemma {:induction false} RunInvAlways(c: Config, s: State, history: seq<Event>)
    requires Start(s) && Run(c, s, history).Some?
    ensures RunInv(c, Run(c, s, history).value)
  {
    if history != [] {
      var last := |history| - 1;
      RunInvAlways(c, s, history[..last]);
      StepKeeps(c, Run(c, s, history[..last]).value, history[last]);
    }
  }

  /** Main result. In every state of every history, whatever chunk raised or crashed, no cursor has passed
      a selected run that was never initialised. */
  lemma RunCursorAlwaysSafe(c: Config, s: State, history: seq<Event>)
    requires Start(s) && Run(c, s, history).Some?
    ensures RunCursorSafe(c, Run(c, s, history).value)
  {
    RunInvAlways(c, s, history);
  }
}
