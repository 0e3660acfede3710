/** Left alone, the syncer catches up: what one iteration achieves when nobody moves meanwhile and nothing raises. */
module CatchUp {
  import opened Common
  import opened Sequences
  import opened AirflowDb
  import opened Syncer
  import opened SyncProtocol
  import opened LogFreshness

  // ----- the others are free to move -----

  /** Airflow may do anything at any time that keeps its ids growing and its runs apart. */
  lemma AirflowIsFree(c: Config, s: State)
    ensures forall row :: Step(c, s, InsertRun(row)).Some? <==>
              row.id > s.runHigh && row.dagId in s.db.models && forall r | r in s.db.runs :: r.dagId != row.dagId || r.execDate != row.execDate
    ensures forall l :: Step(c, s, InsertLog(l)).Some? <==> l.id > s.logHigh
    ensures forall id, state :: Step(c, s, SetRunState(id, state)).Some?
    ensures forall id :: Step(c, s, DeleteRun(id)).Some?
    ensures forall dagId, model :: Step(c, s, SetModel(dagId, model)).Some?
  {
  }

  /** While initialising, every fetch and every post may raise, a post with effect or without. */
  lemma InitsMayRaise(c: Config, s: State)
    requires s.phase.Initialising? && s.phase.inits != []
    ensures Step(c, s, InitRaised).Some? && Step(c, s, InitRaised).value == s.(phase := Updating(s.phase.updates, None, s.phase.inits))
    ensures s.phase.fetched.Some? && s.server.lastRun.Some? ==>
              forall n, raised | n <= Max(s.server.lastRun.value, s.phase.inits[0].cursor) :: Step(c, s, PostInit(n, raised)).Some?
  {
  }

  /** So may the posts of an update. */
  lemma UpdatesMayRaise(c: Config, s: State)
    ensures s.phase.Updating? && s.phase.updates != [] && s.phase.fetched.Some? && s.server.lastLog.Some? ==>
              if s.phase.updates[0].cursor.None?
              then forall raised :: Step(c, s, PostUpdate(s.server.lastLog.value, raised)).Some?
              else forall n, raised | n <= Max(s.server.lastLog.value, s.phase.updates[0].cursor.value) :: Step(c, s, PostUpdate(n, raised)).Some?
  {
  }

  /** The process may die at any time, and the fixer may post late or never. */
  lemma AnyoneMayStop(c: Config, s: State)
    ensures Step(c, s, Crash) == Some(s.(phase := Idle))
    ensures s.fixer.FixerHolds? ==> Step(c, s, FixerPost).Some? && Step(c, s, FixerDrop) == Some(s.(fixer := FixerIdle))
  {
  }

  /** An init post stores what was fetched and an update post does so for known runs only; neither touches another run. */
  lemma StoredExactly(known: map<int, set<int>>, f: Fetched, i: int)
    ensures i in StoreInit(known, f) <==> i in known || i in f.ids
    ensures i in StoreUpdate(known, f) <==> i in known
    ensures i in f.ids ==> StoreInit(known, f)[i] == f.seenLogs && (i in known ==> StoreUpdate(known, f)[i] == f.seenLogs)
    ensures i !in f.ids && i in known ==> StoreInit(known, f)[i] == StoreUpdate(known, f)[i] == known[i]
  {
  }

  // ----- answers exist -----

  lemma {:induction false} Listed<T>(s: set<T>) returns (q: seq<T>)
    ensures (forall x :: x in q <==> x in s) && forall i, j | 0 <= i < j < |q| :: q[i] != q[j]
  {
    if s == {} {
      q := [];
    } else {
      var x :| x in s;
      var rest := Listed(s - {x});
      q := [x] + rest;
    }
  }

  lemma {:induction false} GreatestExists(ids: set<int>) returns (m: Option<int>)
    ensures IsMaxId(ids, m)
  {
    if ids == {} {
      m := None;
    } else {
      HasElement(ids);
      var i :| i in ids;
      var rest := GreatestExists(ids - {i});
      m := if rest.None? || rest.value < i then Some(i) else rest;
      assert forall j | j in ids :: j == i || j in ids - {i};
    }
  }

  lemma {:induction false} GroupsExist(logs: set<LogRow>, lastLog: int, dagIds: seq<string>) returns (groups: map<LogKey, int>)
    ensures IsLogGroups(groups, logs, lastLog, dagIds)
  {
    groups := map[];
    if logs != {} {
      var l :| l in logs;
      var rest := GroupsExist(logs - {l}, lastLog, dagIds);
      groups := rest;
      if LogMatches(l, lastLog, dagIds) && (KeyOfLog(l) !in rest || rest[KeyOfLog(l)] < l.id) {
        groups := rest[KeyOfLog(l) := l.id];
      }
      forall k | k in groups
        ensures exists m :: m in logs && LogMatches(m, lastLog, dagIds) && KeyOfLog(m) == k && m.id == groups[k]
      {
        if k in rest && rest[k] == groups[k] {
          var m :| m in logs - {l} && LogMatches(m, lastLog, dagIds) && KeyOfLog(m) == k && m.id == rest[k];
          assert m in logs;
        } else {
          assert l in logs && KeyOfLog(l) == k && l.id == groups[k];
        }
      }
      forall m | m in logs && LogMatches(m, lastLog, dagIds) ensures KeyOfLog(m) in groups && m.id <= groups[KeyOfLog(m)] {
        assert m == l || m in logs - {l};
      }
    }
  }

  lemma {:induction false} ResponseExists(rows: seq<RunRow>, groups: map<LogKey, int>) returns (resp: Runs)
    requires forall i, j | 0 <= i < j < |rows| :: rows[i] != rows[j]
    ensures |resp| == |rows| && forall i | 0 <= i < |rows| :: resp[i] == ToDagRun(rows[i], groups)
    ensures forall i, j | 0 <= i < j < |rows| :: resp[i] != resp[j]
  {
    resp := seq(|rows|, i requires 0 <= i < |rows| => ToDagRun(rows[i], groups));
    forall i, j | 0 <= i < j < |rows| ensures resp[i] != resp[j] {
      if resp[i] == resp[j] {
        ToDagRunInjective(rows[i], rows[j], groups);
      }
    }
  }

  lemma AnswerExists(rows: set<RunRow>, groups: map<LogKey, int>) returns (resp: Runs)
    ensures IsResponse(resp, rows, groups)
  {
    var listed := Listed(rows);
    resp := ResponseExists(listed, groups);
    forall r | r in rows ensures ToDagRun(r, groups) in resp {
      var i :| 0 <= i < |listed| && listed[i] == r;
      assert resp[i] == ToDagRun(r, groups);
    }
    forall d | d in resp ensures exists r :: r in rows && d == ToDagRun(r, groups) {
      var i :| 0 <= i < |resp| && resp[i] == d;
      assert listed[i] in rows;
    }
  }

  // ----- the poll -----

  lemma PollStarts(c: Config, s: State, active: seq<int>) returns (groups: map<LogKey, int>, t: State)
    requires s.phase.Idle? && s.server.lastRun.Some? && s.server.lastLog.Some?
    requires forall i | i in active :: i in s.server.known
    ensures Run(c, s, [GetActive(active), ReadLogs(groups)]) == Some(t)
    ensures t == s.(phase := LogsRead(active, s.server.lastRun.value, s.server.lastLog.value, groups), logMark := s.logHigh)
    ensures IsLogGroups(groups, s.db.logs, s.server.lastLog.value, c.dagIds)
  {
    groups := GroupsExist(s.db.logs, s.server.lastLog.value, c.dagIds);
    t := s.(phase := LogsRead(active, s.server.lastRun.value, s.server.lastLog.value, groups), logMark := s.logHigh);
    var u := s.(phase := Reading(active, s.server.lastRun.value, s.server.lastLog.value));
    assert Step(c, s, GetActive(active)) == Some(u);
    assert Step(c, u, ReadLogs(groups)) == Some(t);
    Then(c, s, [], s, GetActive(active), u);
    assert [] + [GetActive(active)] == [GetActive(active)];
    Then(c, s, [GetActive(active)], u, ReadLogs(groups), t);
    assert [GetActive(active)] + [ReadLogs(groups)] == [GetActive(active), ReadLogs(groups)];
  }

  lemma PollAnswers(c: Config, s: State) returns (keys: seq<LogKey>, resp: Runs)
    requires s.phase.LogsRead?
    ensures CanRead(c, s, keys, resp) && Step(c, s, ReadRuns(keys, resp)) == Some(AfterRead(c, s, resp))
  {
    keys := Listed(s.phase.groups.Keys);
    resp := AnswerExists(RowsFor(c, s, keys), s.phase.groups);
    assert IsPollEvent(ReadRuns(keys, resp)) && !IsAirflowEvent(ReadRuns(keys, resp)) && !IsFixerEvent(ReadRuns(keys, resp));
  }

  // ----- the posts -----

  /** The server has the run with every log there is. */
  ghost predicate UpToDate(s: State, id: int) {
    id in s.server.known && s.server.known[id] == LogIds(s.db.logs)
  }

  /** Nothing but the server, the phase and the record of cursors differs, and the server lost nothing. */
  ghost predicate OnlyPosted(s: State, t: State) {
    && t.db == s.db && t.runHigh == s.runHigh && t.logHigh == s.logHigh && t.fixer == s.fixer
    && t.server.lastRun.Some? && t.server.lastLog.Some?
    && (forall i | i in s.server.known :: i in t.server.known && (UpToDate(s, i) ==> UpToDate(t, i)))
  }

  ghost predicate Exists(s: State, id: int) {
    exists r :: r in s.db.runs && r.id == id
  }

  lemma OneInit(c: Config, s: State) returns (h: seq<Event>, t: State)
    requires s.phase.Initialising? && s.phase.inits != [] && s.phase.fetched.None?
    requires s.server.lastRun.Some? && s.server.lastLog.Some?
    ensures Run(c, s, h) == Some(t) && OnlyPosted(s, t)
    ensures t.phase == Initialising(s.phase.inits[1..], None, s.phase.updates)
    ensures t.server.lastRun == Some(Max(s.server.lastRun.value, s.phase.inits[0].cursor)) && t.server.lastLog == s.server.lastLog
    ensures forall r | r in s.phase.inits[0].rows && Exists(s, r.id) :: UpToDate(t, r.id)
  {
    var chunk := s.phase.inits[0];
    var f := FetchOf(s.db, IdSet(chunk.rows));
    var u := s.(phase := Initialising(s.phase.inits, Some(f), s.phase.updates));
    var newRun := Max(s.server.lastRun.value, chunk.cursor);
    t := s.(server := s.server.(known := StoreInit(s.server.known, f), lastRun := Some(newRun)),
            highRun := Max(s.highRun, newRun), phase := Initialising(s.phase.inits[1..], None, s.phase.updates));
    assert Step(c, s, FetchInit) == Some(u);
    assert Step(c, u, PostInit(newRun, false)) == Some(t);
    Then(c, s, [], s, FetchInit, u);
    assert [] + [FetchInit] == [FetchInit];
    Then(c, s, [FetchInit], u, PostInit(newRun, false), t);
    h := [FetchInit] + [PostInit(newRun, false)];
    forall r | r in chunk.rows && Exists(s, r.id) ensures r.id in f.ids {
      assert r.id in IdSet(chunk.rows);
      var q :| q in s.db.runs && q.id == r.id;
    }
  }

  lemma {:induction false} AllInits(c: Config, s: State) returns (h: seq<Event>, t: State)
    requires s.phase.Initialising? && s.phase.fetched.None? && s.server.lastRun.Some? && s.server.lastLog.Some?
    ensures Run(c, s, h) == Some(t) && OnlyPosted(s, t)
    ensures t.phase == Updating(s.phase.updates, None, [])
    ensures forall id | InInits(s.phase.inits, id) && Exists(s, id) :: UpToDate(t, id)
    ensures t.server.lastRun.value >= s.server.lastRun.value && t.server.lastLog == s.server.lastLog
    ensures forall k | 0 <= k < |s.phase.inits| :: t.server.lastRun.value >= s.phase.inits[k].cursor
    decreases |s.phase.inits|
  {
    if s.phase.inits == [] {
      t := s.(phase := Updating(s.phase.updates, None, []));
      assert Step(c, s, InitDone) == Some(t);
      Then(c, s, [], s, InitDone, t);
      h := [] + [InitDone];
    } else {
      var h1, u := OneInit(c, s);
      var h2;
      h2, t := AllInits(c, u);
      Continue(c, s, h1, u, h2);
      h := h1 + h2;
      forall id | InInits(s.phase.inits, id) && Exists(s, id) ensures UpToDate(t, id) {
        var k, r :| 0 <= k < |s.phase.inits| && r in s.phase.inits[k].rows && r.id == id;
        if k > 0 {
          assert r in u.phase.inits[k - 1].rows;
          assert InInits(u.phase.inits, id) && Exists(u, id);
        }
      }
      assert forall k | 0 < k < |s.phase.inits| :: s.phase.inits[k] == u.phase.inits[k - 1];
    }
  }

  ghost function Moved(cursor: Option<int>, last: int): int {
    if cursor.None? then last else Max(last, cursor.value)
  }

  lemma OneUpdate(c: Config, s: State) returns (h: seq<Event>, t: State)
    requires s.phase.Updating? && s.phase.updates != [] && s.phase.fetched.None? && s.phase.dropped == []
    requires s.server.lastRun.Some? && s.server.lastLog.Some?
    ensures Run(c, s, h) == Some(t) && OnlyPosted(s, t)
    ensures t.phase == Updating(s.phase.updates[1..], None, [])
    ensures t.server.lastLog == Some(Moved(s.phase.updates[0].cursor, s.server.lastLog.value)) && t.server.lastRun == s.server.lastRun
    ensures forall r | r in s.phase.updates[0].rows && Exists(s, r.id) && r.id in s.server.known :: UpToDate(t, r.id)
  {
    var chunk := s.phase.updates[0];
    var f := FetchOf(s.db, IdSet(chunk.rows));
    var u := s.(phase := Updating(s.phase.updates, Some(f), []));
    var newLog := Moved(chunk.cursor, s.server.lastLog.value);
    t := s.(server := s.server.(known := StoreUpdate(s.server.known, f), lastLog := Some(newLog)),
            highLog := Max(s.highLog, newLog), phase := Updating(s.phase.updates[1..], None, []));
    assert Step(c, s, FetchUpdate) == Some(u);
    assert Step(c, u, PostUpdate(newLog, false)) == Some(t);
    Then(c, s, [], s, FetchUpdate, u);
    assert [] + [FetchUpdate] == [FetchUpdate];
    Then(c, s, [FetchUpdate], u, PostUpdate(newLog, false), t);
    h := [FetchUpdate] + [PostUpdate(newLog, false)];
    forall r | r in chunk.rows && Exists(s, r.id) ensures r.id in f.ids {
      assert r.id in IdSet(chunk.rows);
      var q :| q in s.db.runs && q.id == r.id;
    }
  }

  ghost predicate InUpdateRows(updates: seq<UpdateChunk>, id: int) {
    exists k, r :: 0 <= k < |updates| && r in updates[k].rows && r.id == id
  }

  lemma {:induction false} AllUpdates(c: Config, s: State) returns (h: seq<Event>, t: State)
    requires s.phase.Updating? && s.phase.fetched.None? && s.phase.dropped == []
    requires s.server.lastRun.Some? && s.server.lastLog.Some?
    ensures Run(c, s, h) == Some(t) && OnlyPosted(s, t) && t.phase == Idle
    ensures forall id | InUpdateRows(s.phase.updates, id) && Exists(s, id) && id in s.server.known :: UpToDate(t, id)
    ensures t.server.lastLog.value >= s.server.lastLog.value && t.server.lastRun == s.server.lastRun
    ensures forall k | 0 <= k < |s.phase.updates| && s.phase.updates[k].cursor.Some? ::
              t.server.lastLog.value >= s.phase.updates[k].cursor.value
    decreases |s.phase.updates|
  {
    if s.phase.updates == [] {
      t := s.(phase := Idle);
      assert Step(c, s, UpdateDone) == Some(t);
      Then(c, s, [], s, UpdateDone, t);
      h := [] + [UpdateDone];
    } else {
      var h1, u := OneUpdate(c, s);
      var h2;
      h2, t := AllUpdates(c, u);
      Continue(c, s, h1, u, h2);
      h := h1 + h2;
      forall id | InUpdateRows(s.phase.updates, id) && Exists(s, id) && id in s.server.known ensures UpToDate(t, id) {
        var k, r :| 0 <= k < |s.phase.updates| && r in s.phase.updates[k].rows && r.id == id;
        if k > 0 {
          assert r in u.phase.updates[k - 1].rows;
          assert InUpdateRows(u.phase.updates, id) && Exists(u, id);
        }
      }
      assert forall k | 0 < k < |s.phase.updates| :: s.phase.updates[k] == u.phase.updates[k - 1];
    }
  }

  // ----- a whole iteration -----

  /** The run has a log above the log cursor. */
  ghost predicate HasNews(s: State, r: DagRun)
    requires s.server.lastLog.Some?
  {
    exists l :: l in s.db.logs && LogOf(l, KeyOfRun(r)) && l.id > s.server.lastLog.value
  }

  /** A selected run that is above the run cursor or has news. */
  ghost predicate Due(c: Config, s: State, r: DagRun)
    requires s.server.lastRun.Some? && s.server.lastLog.Some?
  {
    r in s.db.runs && Selected(c, r) && (r.id > s.server.lastRun.value || HasNews(s, r))
  }

  lemma NewsGrouped(c: Config, s: State, groups: map<LogKey, int>, r: DagRun)
    requires s.server.lastLog.Some? && IsLogGroups(groups, s.db.logs, s.server.lastLog.value, c.dagIds)
    requires Selected(c, r) && HasNews(s, r)
    ensures KeyOfRun(r) in groups
  {
    var l :| l in s.db.logs && LogOf(l, KeyOfRun(r)) && l.id > s.server.lastLog.value;
    assert LogMatches(l, s.server.lastLog.value, c.dagIds);
  }

  /** The run as it is in the response. */
  ghost function Polled(s: State, r: DagRun): AirflowDagRun
    requires s.phase.LogsRead? && r.dagId in s.db.models
  {
    ToDagRun(Joined(r, s.db.models[r.dagId]), s.phase.groups)
  }

  lemma DueReturned(c: Config, s: State, u: State, keys: seq<LogKey>, resp: Runs, r: DagRun)
    requires RunInv(c, s) && s.server.lastRun.Some? && s.server.lastLog.Some? && Due(c, s, r)
    requires u.phase.LogsRead? && u.db == s.db && u.phase.seenRun == s.server.lastRun.value
    requires IsLogGroups(u.phase.groups, s.db.logs, s.server.lastLog.value, c.dagIds) && CanRead(c, u, keys, resp)
    ensures Polled(u, r) in resp && Polled(u, r).id == r.id
    ensures HasNews(s, r) ==> Polled(u, r).hasUpdatedTaskInstances
  {
    var row := Joined(r, s.db.models[r.dagId]);
    assert InBase(s.db, r, c.dagIds, true);
    assert KeyOfRow(row) == KeyOfRun(r);
    if HasNews(s, r) {
      NewsGrouped(c, s, u.phase.groups, r);
      assert KeyOfRow(row) in keys;
    }
    assert row in RowsFor(c, u, keys);
  }

  lemma UpdatePosted(runs: Runs, bulk: int, r: AirflowDagRun)
    requires bulk >= 0 && r in runs
    ensures InUpdateRows(UpdatePlan(runs, bulk), r.id)
  {
    var chunks := Chunks(SortByLog(runs), BulkSize(bulk, runs));
    FlattenChunks(SortByLog(runs), BulkSize(bulk, runs));
    FlattenMember(chunks, r);
    var k :| 0 <= k < |chunks| && r in chunks[k];
    assert r in UpdatePlan(runs, bulk)[k].rows;
  }

  lemma InitPosted(runs: Runs, bulk: int, r: AirflowDagRun)
    requires bulk >= 0 && r in runs
    ensures InInits(InitPlan(runs, bulk), r.id)
  {
    var chunks := Chunks(SortById(runs), BulkSize(bulk, runs));
    FlattenChunks(SortById(runs), BulkSize(bulk, runs));
    FlattenMember(chunks, r);
    InInitPlan(runs, bulk, r);
  }

  /** Some chunk's cursor is at or above the id. */
  ghost predicate CursorReaches(inits: seq<InitChunk>, id: int) {
    exists k :: 0 <= k < |inits| && id <= inits[k].cursor
  }

  lemma InitCursorReached(runs: Runs, bulk: int, id: int)
    requires InInits(InitPlan(runs, bulk), id)
    ensures CursorReaches(InitPlan(runs, bulk), id)
  {
    var k, r :| 0 <= k < |InitPlan(runs, bulk)| && r in InitPlan(runs, bulk)[k].rows && r.id == id;
    InitPlanRows(runs, bulk, k, r);
  }

  /** A run that is returned is in an init chunk if it is not known to be active, otherwise in an update chunk if it has news. */
  lemma DuePlanned(c: Config, u: State, resp: Runs, row: RunRow, groups: map<LogKey, int>)
    requires u.phase.LogsRead? && c.bulk >= 0 && ToDagRun(row, groups) in resp
    ensures var p := AfterRead(c, u, resp).phase;
            && (row.id !in u.phase.active ==> InInits(p.inits, row.id) && CursorReaches(p.inits, row.id))
            && (row.id in u.phase.active && ToDagRun(row, groups).hasUpdatedTaskInstances ==> InUpdateRows(p.updates, row.id))
  {
    var d := ToDagRun(row, groups);
    if row.id !in u.phase.active {
      UnknownToInit(row, groups, u.phase.active);
      InitPosted(Select(resp, u.phase.active, ToInit), c.bulk, d);
      InitCursorReached(Select(resp, u.phase.active, ToInit), c.bulk, row.id);
    } else if d.hasUpdatedTaskInstances {
      UpdatePosted(Select(resp, u.phase.active, ToUpdate), c.bulk, d);
    }
  }

  lemma DueInPlan(c: Config, s: State, u: State, keys: seq<LogKey>, resp: Runs, r: DagRun)
    requires RunInv(c, s) && s.server.lastRun.Some? && s.server.lastLog.Some? && Due(c, s, r) && c.bulk >= 0
    requires u.phase.LogsRead? && u.db == s.db && u.phase.seenRun == s.server.lastRun.value
    requires (forall i | i in u.phase.active :: i in s.server.known)
    requires IsLogGroups(u.phase.groups, s.db.logs, s.server.lastLog.value, c.dagIds) && CanRead(c, u, keys, resp)
    ensures var p := AfterRead(c, u, resp).phase;
            && (r.id !in s.server.known ==> InInits(p.inits, r.id) && CursorReaches(p.inits, r.id))
            && (HasNews(s, r) ==> InInits(p.inits, r.id) || InUpdateRows(p.updates, r.id))
  {
    DueReturned(c, s, u, keys, resp, r);
    DuePlanned(c, u, resp, Joined(r, s.db.models[r.dagId]), u.phase.groups);
  }

  lemma AfterPosts(p: State, v: State, t: State, known: set<int>, news: bool, r: DagRun)
    requires p.phase.Initialising? && OnlyPosted(p, v) && OnlyPosted(v, t) && r in p.db.runs && p.server.known.Keys == known
    requires forall id | InInits(p.phase.inits, id) && Exists(p, id) :: UpToDate(v, id)
    requires forall id | InUpdateRows(p.phase.updates, id) && Exists(v, id) && id in v.server.known :: UpToDate(t, id)
    requires r.id in known || InInits(p.phase.inits, r.id)
    requires r.id in known && news ==> InInits(p.phase.inits, r.id) || InUpdateRows(p.phase.updates, r.id)
    ensures r.id in t.server.known && (r.id !in known || news ==> UpToDate(t, r.id))
  {
    assert Exists(p, r.id) && Exists(v, r.id);
  }

  /** After the posts of an undisturbed iteration a due run is known, and if it was new or had news, up to date. */
  lemma CaughtUp(c: Config, s: State, p: State, u: State, keys: seq<LogKey>, resp: Runs, v: State, t: State, r: DagRun)
    requires RunInv(c, s) && s.server.lastRun.Some? && s.server.lastLog.Some? && Due(c, s, r) && c.bulk >= 0
    requires u.phase.LogsRead? && u.db == s.db && u.phase.seenRun == s.server.lastRun.value && u.server == s.server
    requires (forall i | i in u.phase.active :: i in s.server.known)
    requires IsLogGroups(u.phase.groups, s.db.logs, s.server.lastLog.value, c.dagIds) && CanRead(c, u, keys, resp)
    requires p == AfterRead(c, u, resp) && OnlyPosted(p, v) && OnlyPosted(v, t)
    requires forall id | InInits(p.phase.inits, id) && Exists(p, id) :: UpToDate(v, id)
    requires forall id | InUpdateRows(p.phase.updates, id) && Exists(v, id) && id in v.server.known :: UpToDate(t, id)
    ensures r.id in t.server.known && (r.id !in s.server.known || HasNews(s, r) ==> UpToDate(t, r.id))
    ensures r.id !in s.server.known ==> CursorReaches(p.phase.inits, r.id)
  {
    DueInPlan(c, s, u, keys, resp, r);
    AfterPosts(p, v, t, s.server.known.Keys, HasNews(s, r), r);
  }

  lemma InOneHistory(c: Config, s: State, h1: seq<Event>, u: State, e: Event, p: State, h2: seq<Event>, v: State, h3: seq<Event>, t: State)
    returns (h: seq<Event>)
    requires Run(c, s, h1) == Some(u) && Step(c, u, e) == Some(p) && Run(c, p, h2) == Some(v) && Run(c, v, h3) == Some(t)
    ensures Run(c, s, h) == Some(t)
  {
    Then(c, s, h1, u, e, p);
    Continue(c, s, h1 + [e], p, h2);
    Continue(c, s, h1 + [e] + h2, v, h3);
    h := h1 + [e] + h2 + h3;
  }

  /** Left alone for one iteration, the syncer catches up: every selected run above the run cursor, or with a log above the
      log cursor, is known to the server afterwards; it is there with all its logs if it was not known or had news; and the
      run cursor has passed every run that was not known. */
  lemma CatchesUp(c: Config, s: State, active: seq<int>) returns (h: seq<Event>, t: State)
    requires RunInv(c, s) && s.phase.Idle? && s.server.lastRun.Some? && s.server.lastLog.Some? && c.bulk >= 0
    requires forall i | i in active :: i in s.server.known
    ensures Run(c, s, h) == Some(t) && t.phase.Idle? && OnlyPosted(s, t)
    ensures forall r | Due(c, s, r) :: r.id in t.server.known && (r.id !in s.server.known || HasNews(s, r) ==> UpToDate(t, r.id))
    ensures forall r | Due(c, s, r) && r.id !in s.server.known :: r.id <= t.server.lastRun.value
    ensures t.server.lastRun.value >= s.server.lastRun.value && t.server.lastLog.value >= s.server.lastLog.value
  {
    var groups, u := PollStarts(c, s, active);
    var keys, resp := PollAnswers(c, u);
    var p := AfterRead(c, u, resp);
    var h2, v := AllInits(c, p);
    var h3;
    h3, t := AllUpdates(c, v);
    h := InOneHistory(c, s, [GetActive(active), ReadLogs(groups)], u, ReadRuns(keys, resp), p, h2, v, h3, t);
    forall r | Due(c, s, r)
      ensures r.id in t.server.known && (r.id !in s.server.known || HasNews(s, r) ==> UpToDate(t, r.id))
      ensures r.id !in s.server.known ==> r.id <= t.server.lastRun.value
    {
      CaughtUp(c, s, p, u, keys, resp, v, t, r);
    }
  }

  ghost predicate NothingToInit(s: State) {
    s.phase.Initialising? ==> s.phase.inits == []
  }

  lemma StepLearnsNothing(c: Config, s: State, e: Event)
    requires c.bulk < 0 && NothingToInit(s) && Step(c, s, e).Some?
    ensures NothingToInit(Step(c, s, e).value) && Step(c, s, e).value.server.known.Keys == s.server.known.Keys
  {
    if e.ReadRuns? && s.phase.LogsRead? {
      assert InitPlan(Select(e.resp, s.phase.active, ToInit), c.bulk) == [];
    }
  }

  /** With a negative bulk size no history whatever makes the server know another run. */
  lemma {:induction false} NegativeBulkLearnsNothing(c: Config, s: State, h: seq<Event>)
    requires c.bulk < 0 && NothingToInit(s) && Run(c, s, h).Some?
    ensures NothingToInit(Run(c, s, h).value) && Run(c, s, h).value.server.known.Keys == s.server.known.Keys
    decreases |h|
  {
    if h != [] {
      NegativeBulkLearnsNothing(c, s, h[..|h| - 1]);
      StepLearnsNothing(c, Run(c, s, h[..|h| - 1]).value, h[|h| - 1]);
    }
  }

  /** So whether the server can get to know all that is due depends on the bulk size alone. */
  lemma CatchesUpExactly(c: Config, s: State)
    requires RunInv(c, s) && s.phase.Idle? && s.server.lastRun.Some? && s.server.lastLog.Some?
    ensures (exists h :: Run(c, s, h).Some? && forall r | Due(c, s, r) :: r.id in Run(c, s, h).value.server.known)
            <==> c.bulk >= 0 || forall r | Due(c, s, r) :: r.id in s.server.known
  {
    if c.bulk >= 0 {
      var h, t := CatchesUp(c, s, []);
    } else {
      if h :| Run(c, s, h).Some? && forall r | Due(c, s, r) :: r.id in Run(c, s, h).value.server.known {
        NegativeBulkLearnsNothing(c, s, h);
        forall r | Due(c, s, r) ensures r.id in s.server.known {
          assert r.id in Run(c, s, h).value.server.known.Keys;
        }
      }
      if forall r | Due(c, s, r) :: r.id in s.server.known {
        assert Run(c, s, []) == Some(s);
      }
    }
  }

  /** A server without cursors gets Airflow's greatest ids, or -1 for an empty table, and the next iteration can poll. */
  lemma Boots(c: Config, s: State) returns (h: seq<Event>, t: State)
    requires s.phase.Idle? && s.server.lastRun.None? && s.server.lastLog.None?
    ensures Run(c, s, h) == Some(t) && t.phase.Idle? && t.db == s.db && t.server.known == s.server.known
    ensures t.server.lastRun.Some? && t.server.lastLog.Some?
    ensures if s.db.runs == {} then t.server.lastRun.value == -1
            else IsMaxId(RunIds(s.db.runs), t.server.lastRun)
    ensures if s.db.logs == {} then t.server.lastLog.value == -1
            else IsMaxId(LogIds(s.db.logs), t.server.lastLog)
  {
    var maxRun := GreatestExists(RunIds(s.db.runs));
    var maxLog := GreatestExists(LogIds(s.db.logs));
    var run, log := if maxRun.None? then -1 else maxRun.value, if maxLog.None? then -1 else maxLog.value;
    var u, v := s.(phase := Booting), s.(phase := BootValues(run, log));
    t := s.(server := s.server.(lastRun := Some(run), lastLog := Some(log)), phase := Idle,
            bootRun := run, bootLog := log, highRun := run, highLog := log);
    assert Step(c, s, GetActive([])) == Some(u) && Step(c, u, ReadLastSeen(maxRun, maxLog)) == Some(v);
    assert Step(c, v, PostLastSeen) == Some(t);
    Then(c, s, [], s, GetActive([]), u);
    Then(c, s, [] + [GetActive([])], u, ReadLastSeen(maxRun, maxLog), v);
    Then(c, s, [] + [GetActive([])] + [ReadLastSeen(maxRun, maxLog)], v, PostLastSeen, t);
    h := [] + [GetActive([])] + [ReadLastSeen(maxRun, maxLog)] + [PostLastSeen];
    if s.db.runs != {} {
      var r :| r in s.db.runs;
      assert r.id in RunIds(s.db.runs);
    }
    if s.db.logs != {} {
      var l :| l in s.db.logs;
      assert l.id in LogIds(s.db.logs);
    }
  }

  /** A fixer left alone brings the runs it is asked for up to date and moves no cursor. */
  lemma Fixes(c: Config, s: State, ids: set<int>) returns (h: seq<Event>, t: State)
    requires s.fixer.FixerIdle? && s.server.lastRun.Some? && s.server.lastLog.Some? && forall i | i in ids :: i in s.server.known
    ensures Run(c, s, h) == Some(t) && OnlyPosted(s, t) && t.phase == s.phase
    ensures t.server.lastRun == s.server.lastRun && t.server.lastLog == s.server.lastLog
    ensures forall i | i in ids && Exists(s, i) :: UpToDate(t, i)
  {
    var data := FetchOf(s.db, ids);
    var u := s.(fixer := FixerHolds(data));
    t := s.(server := s.server.(known := StoreUpdate(s.server.known, data)));
    assert Step(c, s, FixerFetch(ids)) == Some(u) && Step(c, u, FixerPost) == Some(t);
    Then(c, s, [], s, FixerFetch(ids), u);
    Then(c, s, [] + [FixerFetch(ids)], u, FixerPost, t);
    h := [] + [FixerFetch(ids)] + [FixerPost];
  }
}
