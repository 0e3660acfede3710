/** What one poll of Airflow returns: the export plugin's queries over the Airflow tables.
    Tables are sets of rows; a query is a filter. */
module AirflowDb {
  import opened Common

  datatype DagRun = DagRun(id: int, dagId: string, execDate: int, state: string)
  datatype DagModel = DagModel(isPaused: bool, isSubdag: bool)
  /** `dag_id` and `execution_date` of a log row are nullable. */
  datatype LogRow = LogRow(id: int, dagId: Option<string>, execDate: Option<int>)
  datatype Db = Db(runs: set<DagRun>, models: map<string, DagModel>, logs: set<LogRow>)

  /** A row of the run query: a run joined with its DAG's model. */
  datatype RunRow = RunRow(id: int, dagId: string, execDate: int, state: string, isPaused: bool)
  /** The pair logs are grouped by, `(dag_id, execution_date)`. */
  datatype LogKey = LogKey(dagId: string, execDate: Option<int>)

  /** A run as the monitor receives it. */
  datatype AirflowDagRun = AirflowDagRun(
    id: int,
    dagId: string,
    execDate: int,
    state: string,
    isPaused: bool,
    hasUpdatedTaskInstances: bool,
    maxLogId: Option<int>,
    events: Option<string>)

  const MAX_PARAMETERS_INSIDE_IN_CLAUSE := 900

  // ----- the dag id filter -----

  /** `s LIKE p || '%'`: the prefix is not escaped, so `_` and `%` in it are wildcards. */
  predicate LikePrefix(p: string, s: string)
    decreases |p|
  {
    if p == "" then true
    else if p[0] == '%' then exists k | 0 <= k <= |s| :: LikePrefix(p[1..], s[k..])
    else s != "" && (p[0] == '_' || p[0] == s[0]) && LikePrefix(p[1..], s[1..])
  }

  /** No filter at all, a listed DAG, or a sub-DAG of a listed one. */
  predicate SelectedDag(dagIds: seq<string>, dagId: string) {
    || dagIds == []
    || dagId in dagIds
    || exists d | d in dagIds :: LikePrefix(d + ".", dagId)
  }

  /** Without a percent sign, a pattern is a prefix in which an underscore stands for any character. */
  lemma {:induction false} LikeWithoutPercent(p: string, s: string)
    requires '%' !in p
    ensures LikePrefix(p, s) <==> |p| <= |s| && forall i | 0 <= i < |p| :: p[i] == '_' || p[i] == s[i]
  {
    if p != "" && s != "" {
      LikeWithoutPercent(p[1..], s[1..]);
      assert forall i | 0 < i < |p| :: p[i] == p[1..][i - 1];
      assert forall i | 0 < i < |s| :: s[i] == s[1..][i - 1];
    }
  }

  /** A percent sign skips any number of characters. */
  lemma {:induction false} LikePercent(a: string, b: string, s: string)
    requires '%' !in a
    ensures LikePrefix(a + "%" + b, s) <==> LikePrefix(a, s) && exists k | |a| <= k <= |s| :: LikePrefix(b, s[k..])
  {
    var p := a + "%" + b;
    if a == "" {
      assert p[1..] == b;
    } else if s != "" {
      LikePercent(a[1..], b, s[1..]);
      assert p[1..] == a[1..] + "%" + b && p[0] == a[0];
      assert forall k | 1 <= k <= |s| :: s[k..] == s[1..][k - 1..];
      if k :| |a| <= k <= |s| && LikePrefix(b, s[k..]) {
        assert LikePrefix(b, s[1..][k - 1..]);
      }
    }
  }

  /** As long as no listed id holds a wildcard, exactly the listed DAGs and their sub-DAGs are selected. */
  lemma SelectedExactly(dagIds: seq<string>, dagId: string)
    requires forall d | d in dagIds :: '%' !in d && '_' !in d
    ensures SelectedDag(dagIds, dagId) <==> dagIds == [] || dagId in dagIds || exists d | d in dagIds :: d + "." <= dagId
  {
    forall d | d in dagIds ensures LikePrefix(d + ".", dagId) <==> d + "." <= dagId {
      LikeWithoutPercent(d + ".", dagId);
      assert forall i | 0 <= i < |d + "."| :: (d + ".")[i] in d || (d + ".")[i] == '.';
    }
  }

  // ----- logs grouped by run -----

  ghost predicate LogMatches(l: LogRow, lastLog: int, dagIds: seq<string>) {
    l.id > lastLog && l.dagId.Some? && SelectedDag(dagIds, l.dagId.value)
  }

  function KeyOfLog(l: LogRow): LogKey
    requires l.dagId.Some?
  {
    LogKey(l.dagId.value, l.execDate)
  }

  /** The groups hold, for exactly the keys that have a matching log, the greatest matching log id. */
  ghost predicate IsLogGroups(groups: map<LogKey, int>, logs: set<LogRow>, lastLog: int, dagIds: seq<string>) {
    && (forall l | l in logs && LogMatches(l, lastLog, dagIds) :: KeyOfLog(l) in groups && l.id <= groups[KeyOfLog(l)])
    && (forall k | k in groups :: exists l :: l in logs && LogMatches(l, lastLog, dagIds) && KeyOfLog(l) == k && l.id == groups[k])
  }

  method FindAllLogsGroupedByRuns(logs: set<LogRow>, lastLog: Option<int>, dagIds: seq<string>)
    returns (groups: map<LogKey, int>)
    ensures lastLog.None? ==> groups == map[]
    ensures lastLog.Some? ==> IsLogGroups(groups, logs, lastLog.value, dagIds)
  {
    groups := map[];
    if lastLog.None? {
      return;
    }
    var todo := logs;
    while todo != {}
      invariant todo <= logs
      invariant IsLogGroups(groups, logs - todo, lastLog.value, dagIds)
      decreases todo
    {
      var l :| l in todo;
      ghost var before := groups;
      ghost var done := logs - todo;
      assert logs - (todo - {l}) == done + {l};
      if l.id > lastLog.value && l.dagId.Some? && SelectedDag(dagIds, l.dagId.value) {
        var k := KeyOfLog(l);
        if k !in groups || groups[k] < l.id {
          groups := groups[k := l.id];
        }
      }
      forall k | k in groups
        ensures exists m :: m in done + {l} && LogMatches(m, lastLog.value, dagIds) && KeyOfLog(m) == k && m.id == groups[k]
      {
        if k in before && before[k] == groups[k] {
          var m :| m in done && LogMatches(m, lastLog.value, dagIds) && KeyOfLog(m) == k && m.id == before[k];
        } else {
          assert l in done + {l} && KeyOfLog(l) == k && l.id == groups[k];
        }
      }
      todo := todo - {l};
    }
    assert logs - {} == logs;
  }

  // ----- the run query -----

  function KeyOfRow(r: RunRow): LogKey {
    LogKey(r.dagId, Some(r.execDate))
  }

  function Joined(r: DagRun, m: DagModel): RunRow {
    RunRow(r.id, r.dagId, r.execDate, r.state, m.isPaused)
  }

  predicate InBase(db: Db, r: DagRun, dagIds: seq<string>, includeSubdags: bool) {
    && r.dagId in db.models
    && SelectedDag(dagIds, r.dagId)
    && (includeSubdags || !db.models[r.dagId].isSubdag)
  }

  /** Runs joined with their models, filtered by the dag ids and the sub-DAG flag. */
  function BaseRows(db: Db, dagIds: seq<string>, includeSubdags: bool): set<RunRow> {
    set r | r in db.runs && InBase(db, r, dagIds, includeSubdags) :: Joined(r, db.models[r.dagId])
  }

  /** Wanted by id, still running, or above the run cursor. */
  predicate WantedById(r: RunRow, lastRun: Option<int>, extra: seq<int>) {
    || r.id in extra
    || (r.state == "running" && !r.isPaused)
    || (lastRun.Some? && r.id > lastRun.value)
  }

  /** The single query: one OR over every reason to return a run. */
  function NewRows(db: Db, lastRun: Option<int>, extra: seq<int>, keys: seq<LogKey>, dagIds: seq<string>, includeSubdags: bool)
    : set<RunRow>
  {
    set r | r in BaseRows(db, dagIds, includeSubdags) && (WantedById(r, lastRun, extra) || KeyOfRow(r) in keys)
  }

  /** A run is in the answer exactly when its DAG has a model and is asked for, and there is a reason for the run. */
  lemma NewRowsExactly(db: Db, lastRun: Option<int>, extra: seq<int>, keys: seq<LogKey>, dagIds: seq<string>, includeSubdags: bool)
    ensures var rows := NewRows(db, lastRun, extra, keys, dagIds, includeSubdags);
            && (forall r | r in db.runs && r.dagId in db.models ::
                  RunRow(r.id, r.dagId, r.execDate, r.state, db.models[r.dagId].isPaused) in rows <==>
                  && SelectedDag(dagIds, r.dagId) && (includeSubdags || !db.models[r.dagId].isSubdag)
                  && (r.id in extra || (r.state == "running" && !db.models[r.dagId].isPaused)
                      || (lastRun.Some? && r.id > lastRun.value) || LogKey(r.dagId, Some(r.execDate)) in keys))
            && (forall row | row in rows :: exists r ::
                  r in db.runs && r.dagId in db.models && row == RunRow(r.id, r.dagId, r.execDate, r.state, db.models[r.dagId].isPaused))
  {
    var base := BaseRows(db, dagIds, includeSubdags);
    forall r | r in db.runs && r.dagId in db.models
      ensures Joined(r, db.models[r.dagId]) in base <==> InBase(db, r, dagIds, includeSubdags)
    {
      if Joined(r, db.models[r.dagId]) in base {
        var q :| q in db.runs && InBase(db, q, dagIds, includeSubdags) && Joined(q, db.models[q.dagId]) == Joined(r, db.models[r.dagId]);
        assert q == r;
      }
    }
  }

  /** `asked` are the lists of keys that were put into a query. */
  method FindDagRunsByListInChunks(base: set<RunRow>, keys: seq<LogKey>) returns (all: set<RunRow>, ghost asked: seq<seq<LogKey>>)
    ensures all == set r | r in base && KeyOfRow(r) in keys
    ensures forall q | q in asked :: |q| <= MAX_PARAMETERS_INSIDE_IN_CLAUSE
  {
    all, asked := {}, [];
    var i := 0;
    while i < |keys|
      invariant 0 <= i
      invariant all == set r | r in base && KeyOfRow(r) in keys[..if i < |keys| then i else |keys|]
      invariant forall q | q in asked :: |q| <= MAX_PARAMETERS_INSIDE_IN_CLAUSE
    {
      var hi := if i + MAX_PARAMETERS_INSIDE_IN_CLAUSE < |keys| then i + MAX_PARAMETERS_INSIDE_IN_CLAUSE else |keys|;
      var chunk := keys[i..hi];
      assert keys[..hi] == keys[..i] + chunk;
      all := all + set r | r in base && KeyOfRow(r) in chunk;
      asked := asked + [chunk];
      i := i + MAX_PARAMETERS_INSIDE_IN_CLAUSE;
    }
    assert keys[..|keys|] == keys;
  }

  /** Below 900 keys one query answers; from 900 on the keys are looked up in chunks and the sets united.
      Either way the answer is that of the single query, and no query is asked with more than 900 keys. */
  method FindNewDagRuns(db: Db, lastRun: Option<int>, extra: seq<int>, keys: seq<LogKey>, dagIds: seq<string>, includeSubdags: bool)
    returns (rows: set<RunRow>, ghost asked: seq<seq<LogKey>>)
    ensures forall q | q in asked :: |q| <= 900
    ensures rows == NewRows(db, lastRun, extra, keys, dagIds, includeSubdags)
    ensures forall r | r in db.runs && r.dagId in db.models ::
              RunRow(r.id, r.dagId, r.execDate, r.state, db.models[r.dagId].isPaused) in rows <==>
              && SelectedDag(dagIds, r.dagId) && (includeSubdags || !db.models[r.dagId].isSubdag)
              && (r.id in extra || (r.state == "running" && !db.models[r.dagId].isPaused)
                  || (lastRun.Some? && r.id > lastRun.value) || LogKey(r.dagId, Some(r.execDate)) in keys)
    ensures forall row | row in rows :: exists r ::
              r in db.runs && r.dagId in db.models && row == RunRow(r.id, r.dagId, r.execDate, r.state, db.models[r.dagId].isPaused)
  {
    NewRowsExactly(db, lastRun, extra, keys, dagIds, includeSubdags);
    var base := BaseRows(db, dagIds, includeSubdags);
    if |keys| < MAX_PARAMETERS_INSIDE_IN_CLAUSE {
      rows := set r | r in base && (WantedById(r, lastRun, extra) || KeyOfRow(r) in keys);
      asked := [keys];
      return;
    }
    var byId := set r | r in base && WantedById(r, lastRun, extra);
    rows, asked := FindDagRunsByListInChunks(base, keys);
    rows := rows + byId;
  }

  // ----- the poll -----

  /** `None` for an empty table, otherwise the greatest id. */
  ghost predicate IsMaxId(ids: set<int>, m: Option<int>) {
    && (m.None? <==> ids == {})
    && (m.Some? ==> m.value in ids && forall i | i in ids :: i <= m.value)
  }

  lemma HasElement(s: set<int>)
    requires s != {}
    ensures exists i :: i in s
  {
    if forall i :: i !in s {
      assert false;
    }
  }

  method FindMaxId(ids: set<int>) returns (m: Option<int>)
    ensures IsMaxId(ids, m)
  {
    m := None;
    var todo := ids;
    while todo != {}
      invariant todo <= ids
      invariant IsMaxId(ids - todo, m)
      decreases todo
    {
      HasElement(todo);
      var i :| i in todo;
      assert ids - (todo - {i}) == (ids - todo) + {i};
      if m.None? || m.value < i {
        m := Some(i);
      }
      todo := todo - {i};
    }
    assert ids - {} == ids;
  }

  /** A row as the monitor sees it: `from_dict` copies every field but the events. */
  function ToDagRun(r: RunRow, groups: map<LogKey, int>): AirflowDagRun {
    var k := KeyOfRow(r);
    AirflowDagRun(r.id, r.dagId, r.execDate, r.state, r.isPaused,
                  k in groups, if k in groups then Some(groups[k]) else None, None)
  }

  /** The response holds exactly the rows of the query, in some order, each once. */
  ghost predicate IsResponse(resp: seq<AirflowDagRun>, rows: set<RunRow>, groups: map<LogKey, int>) {
    && (forall r {:trigger ToDagRun(r, groups)} | r in rows :: ToDagRun(r, groups) in resp)
    && (forall d | d in resp :: exists r :: r in rows && d == ToDagRun(r, groups))
    && (forall i, j | 0 <= i < j < |resp| :: resp[i] != resp[j])
  }

  function RunIds(runs: set<DagRun>): set<int> { set r | r in runs :: r.id }
  function LogIds(logs: set<LogRow>): set<int> { set l | l in logs :: l.id }

  lemma ToDagRunInjective(a: RunRow, b: RunRow, groups: map<LogKey, int>)
    requires ToDagRun(a, groups) == ToDagRun(b, groups)
    ensures a == b
  {
  }

  /** The rows of the query, one after the other, each with its group's log id. */
  method Respond(rows: set<RunRow>, groups: map<LogKey, int>) returns (resp: seq<AirflowDagRun>)
    ensures IsResponse(resp, rows, groups)
  {
    resp := [];
    var todo := rows;
    while todo != {}
      invariant todo <= rows
      invariant IsResponse(resp, rows - todo, groups)
      decreases todo
    {
      var r :| r in todo;
      ghost var done := rows - todo;
      assert rows - (todo - {r}) == done + {r};
      var d := ToDagRun(r, groups);
      forall o | o in done ensures ToDagRun(o, groups) != d {
        if ToDagRun(o, groups) == d {
          ToDagRunInjective(o, r, groups);
        }
      }
      assert r in done + {r};
      ghost var before := resp;
      forall i | 0 <= i < |before| ensures before[i] != d {
        assert before[i] in before;
      }
      resp := resp + [d];
      forall e | e in resp ensures exists o :: o in done + {r} && e == ToDagRun(o, groups) {
        if e in before {
          var o :| o in done && e == ToDagRun(o, groups);
          assert o in done + {r};
        }
      }
      todo := todo - {r};
    }
    assert rows - {} == rows;
  }

  method GetNewDagRuns(
    db: Db, lastSeenRun: Option<int>, lastSeenLog: Option<int>, extra: seq<int>, dagIds: seq<string>, includeSubdags: bool)
    returns (resp: seq<AirflowDagRun>, ghost groups: map<LogKey, int>, maxRun: Option<int>, maxLog: Option<int>)
    ensures IsMaxId(RunIds(db.runs), maxRun) && IsMaxId(LogIds(db.logs), maxLog)
    ensures var lastLog := if lastSeenLog.None? then maxLog else lastSeenLog;
            if lastLog.None? then groups == map[] else IsLogGroups(groups, db.logs, lastLog.value, dagIds)
    ensures var lastRun := if lastSeenRun.None? then maxRun else lastSeenRun;
            exists keys :: (forall k :: k in keys <==> k in groups) &&
                           IsResponse(resp, NewRows(db, lastRun, extra, keys, dagIds, includeSubdags), groups)
    ensures var lastRun := if lastSeenRun.None? then maxRun else lastSeenRun;
            forall r | r in db.runs && r.dagId in db.models ::
              var key := LogKey(r.dagId, Some(r.execDate));
              AirflowDagRun(r.id, r.dagId, r.execDate, r.state, db.models[r.dagId].isPaused,
                            key in groups, if key in groups then Some(groups[key]) else None, None) in resp <==>
              && SelectedDag(dagIds, r.dagId) && (includeSubdags || !db.models[r.dagId].isSubdag)
              && (r.id in extra || (r.state == "running" && !db.models[r.dagId].isPaused)
                  || (lastRun.Some? && r.id > lastRun.value) || key in groups)
    ensures forall d | d in resp :: exists r ::
              && r in db.runs && r.dagId in db.models
              && var key := LogKey(r.dagId, Some(r.execDate));
                 d == AirflowDagRun(r.id, r.dagId, r.execDate, r.state, db.models[r.dagId].isPaused,
                                    key in groups, if key in groups then Some(groups[key]) else None, None)
    ensures forall i, j | 0 <= i < j < |resp| :: resp[i] != resp[j]
  {
    maxRun := FindMaxId(RunIds(db.runs));
    maxLog := FindMaxId(LogIds(db.logs));
    var lastRun := if lastSeenRun.None? then maxRun else lastSeenRun;
    var lastLog := if lastSeenLog.None? then maxLog else lastSeenLog;
    var logs := FindAllLogsGroupedByRuns(db.logs, lastLog, dagIds);
    groups := logs;
    var keys := KeysOf(logs);
    var rows, asked := FindNewDagRuns(db, lastRun, extra, keys, dagIds, includeSubdags);
    resp := Respond(rows, logs);
    ResponseExactly(db, resp, rows, groups);
  }

  /** A run is in a response exactly when its row is in the answer, with the latest of its newer logs. */
  lemma ResponseExactly(db: Db, resp: seq<AirflowDagRun>, rows: set<RunRow>, groups: map<LogKey, int>)
    requires IsResponse(resp, rows, groups)
    requires forall row | row in rows :: exists r ::
               r in db.runs && r.dagId in db.models && row == RunRow(r.id, r.dagId, r.execDate, r.state, db.models[r.dagId].isPaused)
    ensures forall r | r in db.runs && r.dagId in db.models ::
              var key := LogKey(r.dagId, Some(r.execDate));
              AirflowDagRun(r.id, r.dagId, r.execDate, r.state, db.models[r.dagId].isPaused,
                            key in groups, if key in groups then Some(groups[key]) else None, None) in resp <==>
              RunRow(r.id, r.dagId, r.execDate, r.state, db.models[r.dagId].isPaused) in rows
    ensures forall d | d in resp :: exists r ::
              && r in db.runs && r.dagId in db.models
              && var key := LogKey(r.dagId, Some(r.execDate));
                 d == AirflowDagRun(r.id, r.dagId, r.execDate, r.state, db.models[r.dagId].isPaused,
                                    key in groups, if key in groups then Some(groups[key]) else None, None)
  {
    forall r | r in db.runs && r.dagId in db.models
      ensures var row := RunRow(r.id, r.dagId, r.execDate, r.state, db.models[r.dagId].isPaused);
              ToDagRun(row, groups) in resp <==> row in rows
    {
      var row := RunRow(r.id, r.dagId, r.execDate, r.state, db.models[r.dagId].isPaused);
      if ToDagRun(row, groups) in resp {
        var o :| o in rows && ToDagRun(row, groups) == ToDagRun(o, groups);
        ToDagRunInjective(row, o, groups);
      }
    }
    forall d | d in resp
      ensures exists r ::
                && r in db.runs && r.dagId in db.models
                && d == ToDagRun(RunRow(r.id, r.dagId, r.execDate, r.state, db.models[r.dagId].isPaused), groups)
    {
      var row :| row in rows && d == ToDagRun(row, groups);
      var r :| r in db.runs && r.dagId in db.models && row == RunRow(r.id, r.dagId, r.execDate, r.state, db.models[r.dagId].isPaused);
    }
  }

  method KeysOf(groups: map<LogKey, int>) returns (keys: seq<LogKey>)
    ensures forall k :: k in keys <==> k in groups
  {
    keys := [];
    var todo := groups.Keys;
    while todo != {}
      invariant todo <= groups.Keys
      invariant forall k :: k in keys <==> k in groups.Keys - todo
      decreases todo
    {
      var k :| k in todo;
      keys := keys + [k];
      todo := todo - {k};
    }
  }
}
