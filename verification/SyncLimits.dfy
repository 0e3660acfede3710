/** Concrete histories in which the log cursor's promise is broken, one for each kind of step that is not calm. */
module SyncLimits {
  import opened Common
  import opened Sequences
  import opened AirflowDb
  import opened Syncer
  import opened SyncProtocol
  import opened LogFreshness

  // ----- concrete histories -----

  lemma ThreeSteps(c: Config, s: State, h: seq<Event>, t: State, e1: Event, u1: State, e2: Event, u2: State, e3: Event, u3: State)
    requires Run(c, s, h) == Some(t)
    requires Step(c, t, e1) == Some(u1) && Step(c, u1, e2) == Some(u2) && Step(c, u2, e3) == Some(u3)
    ensures Run(c, s, h + [e1, e2, e3]) == Some(u3)
  {
    Then(c, s, h, t, e1, u1);
    Then(c, s, h + [e1], u1, e2, u2);
    Then(c, s, h + [e1] + [e2], u2, e3, u3);
    assert h + [e1] + [e2] + [e3] == h + [e1, e2, e3];
  }

  lemma SixSteps(c: Config, s: State, e1: Event, s1: State, e2: Event, s2: State, e3: Event, s3: State,
                 e4: Event, s4: State, e5: Event, s5: State, e6: Event, s6: State)
    requires Step(c, s, e1) == Some(s1) && Step(c, s1, e2) == Some(s2) && Step(c, s2, e3) == Some(s3)
    requires Step(c, s3, e4) == Some(s4) && Step(c, s4, e5) == Some(s5) && Step(c, s5, e6) == Some(s6)
    ensures Run(c, s, [e1, e2, e3, e4, e5, e6]) == Some(s6)
  {
    ThreeSteps(c, s, [], s, e1, s1, e2, s2, e3, s3);
    assert [] + [e1, e2, e3] == [e1, e2, e3];
    ThreeSteps(c, s, [e1, e2, e3], s3, e4, s4, e5, s5, e6, s6);
    assert [e1, e2, e3] + [e4, e5, e6] == [e1, e2, e3, e4, e5, e6];
  }

  lemma SixAndThree<T>(h: seq<T>, a: T, b: T, c: T)
    requires |h| == 6
    ensures h + [a, b, c] == [h[0], h[1], h[2], h[3], h[4], h[5], a, b, c]
  {
  }

  lemma NineSteps(c: Config, s: State, h: seq<Event>, t: State, e7: Event, s7: State, e8: Event, s8: State, e9: Event, s9: State)
    requires |h| == 6 && Run(c, s, h) == Some(t)
    requires Step(c, t, e7) == Some(s7) && Step(c, s7, e8) == Some(s8) && Step(c, s8, e9) == Some(s9)
    ensures Run(c, s, [h[0], h[1], h[2], h[3], h[4], h[5], e7, e8, e9]) == Some(s9)
  {
    ThreeSteps(c, s, h, t, e7, s7, e8, s8, e9, s9);
    SixAndThree(h, e7, e8, e9);
  }

  lemma ReadEffect(c: Config, s: State, keys: seq<LogKey>, resp: Runs, t: State)
    requires s.phase.LogsRead? && CanRead(c, s, keys, resp)
    requires t == AfterRead(c, s, resp)
    ensures Step(c, s, ReadRuns(keys, resp)) == Some(t)
  {
    var e := ReadRuns(keys, resp);
    assert IsPollEvent(e) && !IsAirflowEvent(e) && !IsFixerEvent(e);
    assert PollStep(c, s, e) == Some(AfterRead(c, s, resp));
  }

  const NO_FILTER := Config([], 0)
  const DAGS := map["d" := DagModel(false, false)]

  function RunOf(id: int, state: string): DagRun { DagRun(id, "d", id, state) }
  function LogFor(log: int, id: int): LogRow { LogRow(log, Some("d"), Some(id)) }
  function KeyFor(id: int): LogKey { LogKey("d", Some(id)) }
  function RowFor(id: int, state: string, log: Option<int>): AirflowDagRun {
    AirflowDagRun(id, "d", id, state, false, log.Some?, log, None)
  }

  /** A server that knows the runs `known` (fetched before any log), with cursors (run, 0). */
  function Attached(db: Db, runHigh: int, logHigh: int, known: set<int>): State {
    State(db, runHigh, logHigh, Server(map i | i in known :: {}, Some(runHigh), Some(0)), Idle, FixerIdle,
          runHigh, 0, runHigh, 0, 0, 0)
  }

  lemma SingletonSelect(r: AirflowDagRun, known: seq<int>, c: Category)
    ensures Select([r], known, c) == if Categorize(r, known) == c then [r] else []
  {
    assert Filter(IsCategory(known, c), [r][1..]) == [];
  }

  lemma PairSelect(a: AirflowDagRun, b: AirflowDagRun, known: seq<int>, c: Category)
    ensures Select([a, b], known, c) == (if Categorize(a, known) == c then [a] else []) + if Categorize(b, known) == c then [b] else []
  {
    SingletonSelect(b, known, c);
    assert [a, b][1..] == [b];
  }

  lemma SingletonPlans(r: AirflowDagRun, bulk: int)
    requires bulk >= 0
    ensures InitPlan([r], bulk) == [InitChunk([r], r.id)]
    ensures UpdatePlan([r], bulk) == [UpdateChunk([r], if r.maxLogId == Some(0) then None else r.maxLogId)]
  {
    SingletonCursor(r);
    assert Sort(IdLe, [r]) == [r] by {
      assert [r][1..] == [];
    }
    assert Sort(LogLe, [r]) == [r] by {
      assert [r][1..] == [];
    }
  }

  // -- a swallowed init failure --

  const RUN_A := RunOf(1, "success")
  const RUN_B := RunOf(2, "running")
  const ROW_A := RowFor(1, "success", Some(1))
  const ROW_B := RowFor(2, "running", Some(2))
  const TWO_RUNS := Db({RUN_A, RUN_B}, DAGS, {LogFor(1, 1), LogFor(2, 2)})
  const TWO_GROUPS := map[KeyFor(1) := 1, KeyFor(2) := 2]
  const TWO_KEYS := [KeyFor(1), KeyFor(2)]

  lemma TwoGroupsRead()
    ensures IsLogGroups(TWO_GROUPS, TWO_RUNS.logs, 0, [])
  {
    assert LogMatches(LogFor(1, 1), 0, []) && LogMatches(LogFor(2, 2), 0, []);
  }

  lemma TwoRunsRead()
    ensures IsResponse([ROW_A, ROW_B], NewRows(TWO_RUNS, Some(2), [2], TWO_KEYS, [], true), TWO_GROUPS)
    ensures Select([ROW_A, ROW_B], [2], ToInit) == [ROW_A]
    ensures Select([ROW_A, ROW_B], [2], ToUpdate) == [ROW_B]
  {
    var ra, rb := Joined(RUN_A, DAGS["d"]), Joined(RUN_B, DAGS["d"]);
    assert InBase(TWO_RUNS, RUN_A, [], true) && InBase(TWO_RUNS, RUN_B, [], true);
    assert NewRows(TWO_RUNS, Some(2), [2], TWO_KEYS, [], true) == {ra, rb};
    assert ToDagRun(ra, TWO_GROUPS) == ROW_A && ToDagRun(rb, TWO_GROUPS) == ROW_B;
    PairSelect(ROW_A, ROW_B, [2], ToInit);
    PairSelect(ROW_A, ROW_B, [2], ToUpdate);
  }

  function Swallowed(k: nat): State {
    var s := Attached(TWO_RUNS, 2, 2, {2});
    var dropped, updates := [InitChunk([ROW_A], 1)], [UpdateChunk([ROW_B], Some(2))];
    var f := FetchOf(TWO_RUNS, IdSet([ROW_B]));
    var read := s.(logMark := 2);
    var polled := s.(logMark := 2, runMark := 2);
    if k == 0 then s
    else if k == 1 then s.(phase := Reading([2], 2, 0))
    else if k == 2 then read.(phase := LogsRead([2], 2, 0, TWO_GROUPS))
    else if k == 3 then polled.(phase := Initialising(dropped, None, updates))
    else if k == 4 then polled.(phase := Updating(updates, None, dropped))
    else if k == 5 then polled.(phase := Updating(updates, Some(f), dropped))
    else polled.(phase := Updating([], None, dropped), highLog := 2,
                 server := Server(StoreUpdate(s.server.known, f), Some(2), Some(2)))
  }

  lemma SwallowedActive()
    ensures Step(NO_FILTER, Swallowed(0), GetActive([2])) == Some(Swallowed(1))
  {
  }

  lemma SwallowedPoll()
    ensures Step(NO_FILTER, Swallowed(1), ReadLogs(TWO_GROUPS)) == Some(Swallowed(2))
  {
    TwoGroupsRead();
  }

  lemma TwoRunsPlans(s: State)
    requires s.phase.LogsRead? && s.phase.active == [2]
    ensures AfterRead(NO_FILTER, s, [ROW_A, ROW_B])
            == s.(phase := Initialising([InitChunk([ROW_A], 1)], None, [UpdateChunk([ROW_B], Some(2))]), runMark := s.runHigh)
  {
    TwoRunsRead();
    SingletonPlans(ROW_A, 0);
    SingletonPlans(ROW_B, 0);
  }

  lemma TwoRunsResponse(s: State)
    requires s.db == TWO_RUNS && s.phase == LogsRead([2], 2, 0, TWO_GROUPS)
    ensures CanRead(NO_FILTER, s, TWO_KEYS, [ROW_A, ROW_B])
  {
    TwoRunsRead();
  }

  lemma TwoRunsReadFrom(s: State, t: State)
    requires s.db == TWO_RUNS && s.phase == LogsRead([2], 2, 0, TWO_GROUPS)
    requires t == s.(phase := Initialising([InitChunk([ROW_A], 1)], None, [UpdateChunk([ROW_B], Some(2))]), runMark := s.runHigh)
    ensures Step(NO_FILTER, s, ReadRuns(TWO_KEYS, [ROW_A, ROW_B])) == Some(t)
  {
    TwoRunsPlans(s);
    TwoRunsResponse(s);
    ReadEffect(NO_FILTER, s, TWO_KEYS, [ROW_A, ROW_B], t);
  }

  lemma SwallowedRead()
    ensures Step(NO_FILTER, Swallowed(2), ReadRuns(TWO_KEYS, [ROW_A, ROW_B])) == Some(Swallowed(3))
  {
    TwoRunsReadFrom(Swallowed(2), Swallowed(3));
  }

  lemma SwallowedFetch()
    ensures Step(NO_FILTER, Swallowed(3), InitRaised) == Some(Swallowed(4))
    ensures Step(NO_FILTER, Swallowed(4), FetchUpdate) == Some(Swallowed(5))
  {
  }

  lemma SwallowedPost()
    ensures Step(NO_FILTER, Swallowed(5), PostUpdate(2, false)) == Some(Swallowed(6))
  {
    assert [UpdateChunk([ROW_B], Some(2))][1..] == [];
  }

  lemma SwallowedStart()
    ensures Start(Swallowed(0))
  {
  }

  lemma SwallowedEnd()
    ensures !LogCursorFresh(NO_FILTER, Swallowed(6))
  {
    assert LatestWithin(NO_FILTER, Swallowed(6), 0, 2, RUN_A, LogFor(1, 1));
  }

  /** An old finished run and a running one both get a log. The old run is to be initialised; that raises,
      the running run is updated, and the log cursor passes the old run's log, which no later poll asks for. */
  lemma SwallowedInitBreaksFreshness() returns (s: State, h: seq<Event>)
    ensures Start(s) && Run(NO_FILTER, s, h).Some? && !LogCursorFresh(NO_FILTER, Run(NO_FILTER, s, h).value)
    ensures h == [GetActive([2]), ReadLogs(TWO_GROUPS), ReadRuns(TWO_KEYS, [ROW_A, ROW_B]), InitRaised, FetchUpdate, PostUpdate(2, false)]
  {
    SwallowedStart();
    SwallowedActive();
    SwallowedPoll();
    SwallowedRead();
    SwallowedFetch();
    SwallowedPost();
    SwallowedEnd();
    s := Swallowed(0);
    SixSteps(NO_FILTER, s, GetActive([2]), Swallowed(1), ReadLogs(TWO_GROUPS), Swallowed(2),
             ReadRuns(TWO_KEYS, [ROW_A, ROW_B]), Swallowed(3), InitRaised, Swallowed(4), FetchUpdate, Swallowed(5),
             PostUpdate(2, false), Swallowed(6));
    h := [GetActive([2]), ReadLogs(TWO_GROUPS), ReadRuns(TWO_KEYS, [ROW_A, ROW_B]), InitRaised, FetchUpdate, PostUpdate(2, false)];
  }

  // -- a fixer overtaken by the syncer --

  const ONE_RUN := Db({RUN_B}, DAGS, {})
  const ONE_RUN_LOGGED := Db({RUN_B}, DAGS, {LogFor(1, 2)})
  const ROW_B1 := RowFor(2, "running", Some(1))
  const ONE_GROUP := map[KeyFor(2) := 1]
  const ONE_KEY := [KeyFor(2)]

  function Interleaved(k: nat): State {
    var s := Attached(ONE_RUN, 2, 0, {2});
    var held := s.(fixer := FixerHolds(Fetched({2}, {})));
    var logged := held.(db := ONE_RUN_LOGGED, logHigh := 1);
    var polled := logged.(logMark := 1, runMark := 2);
    var updates := [UpdateChunk([ROW_B1], Some(1))];
    var f := FetchOf(ONE_RUN_LOGGED, IdSet([ROW_B1]));
    var posted := polled.(server := Server(StoreUpdate(s.server.known, f), Some(2), Some(1)), highLog := 1,
                          phase := Updating([], None, []));
    if k == 0 then s
    else if k == 1 then held
    else if k == 2 then logged
    else if k == 3 then logged.(phase := Reading([2], 2, 0))
    else if k == 4 then logged.(phase := LogsRead([2], 2, 0, ONE_GROUP), logMark := 1)
    else if k == 5 then polled.(phase := Initialising([], None, updates))
    else if k == 6 then polled.(phase := Updating(updates, None, []))
    else if k == 7 then polled.(phase := Updating(updates, Some(f), []))
    else if k == 8 then posted
    else posted.(server := Server(StoreUpdate(posted.server.known, Fetched({2}, {})), Some(2), Some(1)), fixer := FixerIdle)
  }

  lemma InterleavedFixer()
    ensures Step(NO_FILTER, Interleaved(0), FixerFetch({2})) == Some(Interleaved(1))
  {
    assert FetchOf(ONE_RUN, {2}) == Fetched({2}, {}) by {
      assert RUN_B in ONE_RUN.runs;
    }
  }

  lemma InterleavedLog()
    ensures Step(NO_FILTER, Interleaved(1), InsertLog(LogFor(1, 2))) == Some(Interleaved(2))
  {
    assert ONE_RUN.logs + {LogFor(1, 2)} == ONE_RUN_LOGGED.logs;
  }

  lemma InterleavedFixerPost()
    ensures Step(NO_FILTER, Interleaved(8), FixerPost) == Some(Interleaved(9))
  {
  }

  lemma OneRunRead()
    ensures IsLogGroups(ONE_GROUP, ONE_RUN_LOGGED.logs, 0, [])
    ensures IsResponse([ROW_B1], NewRows(ONE_RUN_LOGGED, Some(2), [2], ONE_KEY, [], true), ONE_GROUP)
    ensures Select([ROW_B1], [2], ToInit) == [] && Select([ROW_B1], [2], ToUpdate) == [ROW_B1]
  {
    assert LogMatches(LogFor(1, 2), 0, []);
    var rb := Joined(RUN_B, DAGS["d"]);
    assert InBase(ONE_RUN_LOGGED, RUN_B, [], true);
    assert NewRows(ONE_RUN_LOGGED, Some(2), [2], ONE_KEY, [], true) == {rb};
    assert ToDagRun(rb, ONE_GROUP) == ROW_B1;
    SingletonSelect(ROW_B1, [2], ToInit);
    SingletonSelect(ROW_B1, [2], ToUpdate);
  }

  lemma InterleavedPoll()
    ensures Step(NO_FILTER, Interleaved(2), GetActive([2])) == Some(Interleaved(3))
    ensures Step(NO_FILTER, Interleaved(3), ReadLogs(ONE_GROUP)) == Some(Interleaved(4))
  {
    OneRunRead();
  }

  lemma OneRunPlans(s: State)
    requires s.phase.LogsRead? && s.phase.active == [2]
    ensures AfterRead(NO_FILTER, s, [ROW_B1])
            == s.(phase := Initialising([], None, [UpdateChunk([ROW_B1], Some(1))]), runMark := s.runHigh)
  {
    OneRunRead();
    SingletonPlans(ROW_B1, 0);
  }

  lemma OneRunResponse(s: State)
    requires s.db == ONE_RUN_LOGGED && s.phase == LogsRead([2], 2, 0, ONE_GROUP)
    ensures CanRead(NO_FILTER, s, ONE_KEY, [ROW_B1])
  {
    OneRunRead();
  }

  lemma OneRunReadFrom(s: State, t: State)
    requires s.db == ONE_RUN_LOGGED && s.phase == LogsRead([2], 2, 0, ONE_GROUP)
    requires t == s.(phase := Initialising([], None, [UpdateChunk([ROW_B1], Some(1))]), runMark := s.runHigh)
    ensures Step(NO_FILTER, s, ReadRuns(ONE_KEY, [ROW_B1])) == Some(t)
  {
    OneRunPlans(s);
    OneRunResponse(s);
    ReadEffect(NO_FILTER, s, ONE_KEY, [ROW_B1], t);
  }

  lemma InterleavedRead()
    ensures Step(NO_FILTER, Interleaved(4), ReadRuns(ONE_KEY, [ROW_B1])) == Some(Interleaved(5))
  {
    OneRunReadFrom(Interleaved(4), Interleaved(5));
  }

  lemma InterleavedFetch()
    ensures Step(NO_FILTER, Interleaved(5), InitDone) == Some(Interleaved(6))
    ensures Step(NO_FILTER, Interleaved(6), FetchUpdate) == Some(Interleaved(7))
  {
  }

  lemma InterleavedPost()
    ensures Step(NO_FILTER, Interleaved(7), PostUpdate(1, false)) == Some(Interleaved(8))
  {
    assert [UpdateChunk([ROW_B1], Some(1))][1..] == [];
  }

  lemma InterleavedStart()
    ensures Start(Interleaved(0))
  {
  }

  lemma InterleavedEnd()
    ensures !LogCursorFresh(NO_FILTER, Interleaved(9))
  {
    assert LatestWithin(NO_FILTER, Interleaved(9), 0, 1, RUN_B, LogFor(1, 2));
  }

  /** The fixer fetches a run, the run gets a log, the syncer updates it and moves the log cursor,
      and the fixer's late post puts the older copy back. Nothing raises. */
  lemma InterleavedFixerBreaksFreshness() returns (s: State, h: seq<Event>)
    ensures Start(s) && Run(NO_FILTER, s, h).Some? && !LogCursorFresh(NO_FILTER, Run(NO_FILTER, s, h).value)
    ensures h == [FixerFetch({2}), InsertLog(LogFor(1, 2)), GetActive([2]), ReadLogs(ONE_GROUP), ReadRuns(ONE_KEY, [ROW_B1]),
                  InitDone, FetchUpdate, PostUpdate(1, false), FixerPost]
  {
    InterleavedStart();
    InterleavedFixer();
    InterleavedLog();
    InterleavedPoll();
    InterleavedRead();
    InterleavedFetch();
    InterleavedPost();
    InterleavedFixerPost();
    InterleavedEnd();
    s := Interleaved(0);
    SixSteps(NO_FILTER, s, FixerFetch({2}), Interleaved(1), InsertLog(LogFor(1, 2)), Interleaved(2), GetActive([2]), Interleaved(3),
             ReadLogs(ONE_GROUP), Interleaved(4), ReadRuns(ONE_KEY, [ROW_B1]), Interleaved(5), InitDone, Interleaved(6));
    h := [FixerFetch({2}), InsertLog(LogFor(1, 2)), GetActive([2]), ReadLogs(ONE_GROUP), ReadRuns(ONE_KEY, [ROW_B1]), InitDone];
    NineSteps(NO_FILTER, s, h, Interleaved(6), FetchUpdate, Interleaved(7), PostUpdate(1, false), Interleaved(8), FixerPost, Interleaved(9));
    h := [FixerFetch({2}), InsertLog(LogFor(1, 2)), GetActive([2]), ReadLogs(ONE_GROUP), ReadRuns(ONE_KEY, [ROW_B1]),
          InitDone, FetchUpdate, PostUpdate(1, false), FixerPost];
  }
}
