# A model of Databand's Airflow synchronisation and of the codecs beside it

This project models, in Dafny, the parts of the repository where several pieces of state have to stay in step, and proves what
they promise. `dafny verify dfyconfig.toml` checks it.

## What is modelled

**Synchronisation** (`AirflowDb`, `Syncer`, `SyncProtocol`, `LogFreshness`, `SyncLimits`, `CatchUp`). The monitor polls Airflow with two
cursors, splits the runs it gets, and posts them in sorted chunks that carry the new cursors. `AirflowDb` has the plugin's
queries, `Syncer` one iteration with its two chunk loops, and `SyncProtocol` puts Airflow, the server, the syncer and the fixer
into one step system whose histories may fail at every fetch and every post. The run cursor is safe in all of them. The log
cursor is fresh in the calm ones, in which no cursor passes a log of a run dropped by a swallowed init failure, and no fixer puts
back a copy older than such a log. `LogFreshness` proves that these two conditions are exact, step by step, and `SyncLimits`
has a history for each that breaks the promise. `CatchUp` shows the other side: from every state a history can reach between two
iterations, one undisturbed iteration leaves nothing behind.

**Monitoring** (`ComponentManager`, `MultiServer`, `ErrorAggregator`). One manager per server, one runner per enabled
component, in classes. `launched` and `retired` record every runner ever started, so that "no runner leaks" can be said of any
history of configurations, deaths and failing iterations. The aggregator's shortcut is modelled with garbage collection allowed
at every point of a report.

**Scheduling** (`InProcessExecutor`, `TaskGraph`). The executor's bookkeeping, and the translation of the selected tasks into
Airflow operators on the heap.

**Codecs, names and merging** (`PercentEncoding`, `FormQuery`, `Urls`, `CompositeUri`, `ConfigOverlay`, `TargetConfigs`,
`Decimals`, `Partitions`, `FreshNames`, `SafeLabels`, `TargetCache`). `Sequences` and `Strings` hold sorting, chunking,
splitting, joining and the order of strings.

## Assumptions

- The Databand server is not part of the repository. A post stores its data and moves the cursor in one step; a missing cursor
  moves nothing, and a cursor n leaves the server's cursor at most max(old, n); a post that raises may still have taken effect;
  only initialised runs are reported as active; the two last-seen values are filled in together and only when both are missing.
- Airflow's ids become visible in increasing order, `(dag_id, execution_date)` is unique among runs, every run's DAG has a model
  row when it is inserted, and log rows are not deleted. `dag_ids` does not change during a history.
- The poll reads the logs and the runs at two moments, with any moves of the other parties between them.
- `start` and `stop` of a runner do not raise, as their decorators swallow exceptions.
- The digest behind a safe label is any function that gives at least nine letters or digits, as a hexadecimal digest does.
- URLs are split and joined as CPython 3.9 to 3.11 does it; later versions place a path without an authority differently.
- Dictionaries keep insertion order. Text in URLs is the sequence of its UTF-8 bytes; the unreserved characters are those of
  section 2.3 of RFC 3986.

## Where the code differs from what it says

- `categorize_dag_runs` compares with the upper-case `RUNNING` while the plugin reports lower-case states, so plugin rows are
  never skipped; and `from_dict` never fills `events`, so the view-only branch is not taken on that path.
- The truth test on `max_log_id` drops the id 0 as well as a missing one.
- `get_ext` appends the compression to every format, because its exception compares a name with configurations, and it looks the
  compression's extension up among the formats.
- `is_subset` is true when the response is not a subset.
- The `fail_fast = True` in the interrupt handler of the executor sets a local name and has no effect.
- `end` does not clear the list of tasks, so ending twice fails.
- A reused operator loses its upstream ids but not its downstream ids.
- `TargetCache.has` ignores the enabled flag while `get` does not.

## Model

| member | source | states |
|---|---|---|
| SyncProtocol.RunCursorAlwaysSafe | modules/dbnd-airflow-monitor/src/airflow_monitor/syncer/runtime_syncer.py:72-137 | main result: after every history of Airflow, server, syncer and fixer events, with a failure allowed at every fetch and post, each selected run above the bootstrap cursor and at or below the server's run cursor has been initialised |
| SyncProtocol.RunInvAlways | modules/dbnd-airflow-monitor/src/airflow_monitor/syncer/runtime_syncer.py:72-174 | the invariant behind it holds after every history |
| SyncProtocol.StepKeeps | modules/dbnd-airflow-monitor/src/airflow_monitor/syncer/runtime_syncer.py:72-174 | every single event of any party keeps that invariant |
| SyncProtocol.ReadRunsCovers | modules/dbnd-airflow-monitor/src/airflow_monitor/syncer/runtime_syncer.py:102-114 | after a poll every selected run above the cursors is known, waiting in an init chunk, or newer than the poll |
| SyncProtocol.PostInitKeeps | modules/dbnd-airflow-monitor/src/airflow_monitor/syncer/runtime_syncer.py:124-137 | an init post, whether it raises or not, never takes the run cursor past a run that was not posted |
| SyncProtocol.FixerKeeps | modules/dbnd-airflow-monitor/src/airflow_monitor/fixer/runtime_fixer.py:41-55 | the fixer's fetches and posts keep the run invariant, since they never move a cursor |
| LogFreshness.LogCursorAlwaysFresh | modules/dbnd-airflow-monitor/src/airflow_monitor/syncer/runtime_syncer.py:72-174 | main result: in every calm history a selected run whose latest log row lies between the bootstrap log cursor and the server's log cursor is held in a copy fetched after that row was written, or is new and above the run cursor |
| LogFreshness.LogInvAlways | modules/dbnd-airflow-monitor/src/airflow_monitor/syncer/runtime_syncer.py:72-174 | the invariant behind it holds after every calm history |
| LogFreshness.SwallowedInitFailure | modules/dbnd-airflow-monitor/src/airflow_monitor/syncer/runtime_syncer.py:113-174 | exact condition: for any update post in any state reached, after a swallowed init failure and whatever followed, the log promise survives exactly when the cursor passes no latest log of a dropped run that the server does not hold |
| LogFreshness.LateFixerPost | modules/dbnd-airflow-monitor/src/airflow_monitor/fixer/runtime_fixer.py:41-55 | exact condition: a fixer's post, however late, keeps the log promise exactly when it puts back no copy without a latest log that a cursor has passed |
| LogFreshness.FixerCoveredExactly | modules/dbnd-airflow-monitor/src/airflow_monitor/fixer/runtime_fixer.py:41-55 | what is left to post still covers the logs up to the poll's mark exactly when the fixer also spares those, unless their runs are still in a chunk |
| LogFreshness.CalmExactly | modules/dbnd-airflow-monitor/src/airflow_monitor/syncer/runtime_syncer.py:72-174 | every step keeps the log invariant exactly when it is calm, so calm histories exclude nothing that does no harm |
| LogFreshness.CalmWhen | modules/dbnd-airflow-monitor/src/airflow_monitor/syncer/runtime_syncer.py:113-174 | it is enough that the iteration's inits did not raise and that no log row was written since the fixer's fetch |
| LogFreshness.ReadRunsDisjoint | modules/dbnd-airflow-monitor/src/airflow_monitor/syncer/runtime_syncer.py:46-62 | no run is both in an init chunk and in an update chunk |
| LogFreshness.ReadRunsCoversLogs | modules/dbnd-airflow-monitor/src/airflow_monitor/syncer/runtime_syncer.py:46-62 | the poll returns every run with a fresh log together with its latest log id, and the split never puts it in skip |
| LogFreshness.PostUpdateKeepsLogs | modules/dbnd-airflow-monitor/src/airflow_monitor/syncer/runtime_syncer.py:159-174 | a calm update post, of any chunk, keeps the log invariant |
| LogFreshness.FixerKeepsLogs | modules/dbnd-airflow-monitor/src/airflow_monitor/fixer/runtime_fixer.py:41-55 | a fixer's fetch, and its post of a copy that is not older where it matters, keep the log invariant whoever moved in between |
| CatchUp.CatchesUp | modules/dbnd-airflow-monitor/src/airflow_monitor/syncer/runtime_syncer.py:72-174 | main result: in any reachable state between iterations, one iteration left alone makes every selected run above the run cursor, or with a log above the log cursor, known to the server; it is there with all its logs if it was unknown or had a new log, and the run cursor has passed every run that was unknown |
| CatchUp.CatchesUpExactly | modules/dbnd-airflow-monitor/src/airflow_monitor/syncer/runtime_syncer.py:121-137 | some history makes the server know every due run exactly when the bulk size is not negative or all of them are known already: with a negative one no history ever adds a run |
| CatchUp.Boots | modules/dbnd-airflow-monitor/src/airflow_monitor/syncer/runtime_syncer.py:78-93 | a server without cursors gets the greatest ids of Airflow, or -1 for an empty table |
| CatchUp.Fixes | modules/dbnd-airflow-monitor/src/airflow_monitor/fixer/runtime_fixer.py:41-55 | a fixer left alone brings the runs it is asked for up to date and moves no cursor |
| CatchUp.InitsMayRaise | modules/dbnd-airflow-monitor/src/airflow_monitor/syncer/runtime_syncer.py:116-137 | nothing is ruled out: every fetch and every post of an init may raise, a post with effect or without |
| CatchUp.UpdatesMayRaise | modules/dbnd-airflow-monitor/src/airflow_monitor/syncer/runtime_syncer.py:139-174 | so may those of an update |
| SyncLimits.SwallowedInitBreaksFreshness | modules/dbnd-airflow-monitor/src/airflow_monitor/syncer/runtime_syncer.py:113-137 | a concrete history in which a swallowed init failure lets the log cursor pass a log of a run that was not initialised |
| SyncLimits.InterleavedFixerBreaksFreshness | modules/dbnd-airflow-monitor/src/airflow_monitor/fixer/runtime_fixer.py:41-55 | a concrete history in which a fixer's late post replaces a fresher copy although nothing raises |
| Syncer.CategorizeDagRuns | modules/dbnd-airflow-monitor/src/airflow_monitor/syncer/runtime_syncer.py:46-62 | the two lists are, in order, the polled runs of category init and of category update |
| Syncer.CategoriesPartition | modules/dbnd-airflow-monitor/src/airflow_monitor/syncer/runtime_syncer.py:46-62 | no polled run is lost or doubled between init, update and skip |
| Syncer.CategoryExactly | modules/dbnd-airflow-monitor/src/airflow_monitor/syncer/runtime_syncer.py:46-62 | skipped are exactly the known runs in state RUNNING that are not paused and have no updated task instances; initialised are the unknown ones, unless finished and only viewed |
| Syncer.ViewOnlyExactly | modules/dbnd-airflow-monitor/src/airflow_monitor/syncer/runtime_syncer.py:39-43 | a comma-separated list of events is one of views exactly when it is not empty and each of them is one |
| Syncer.PluginRowsNeverSkipped | modules/dbnd-airflow-monitor/src/airflow_monitor/syncer/runtime_syncer.py:53-61 | states other than the upper-case RUNNING are never skipped: unknown runs are initialised and known ones updated |
| Syncer.InitPlanOrdered | modules/dbnd-airflow-monitor/src/airflow_monitor/syncer/runtime_syncer.py:121-137 | init cursors strictly increase, and every run of a later chunk has an id above every earlier cursor |
| Syncer.InitPlanRows | modules/dbnd-airflow-monitor/src/airflow_monitor/syncer/runtime_syncer.py:121-137 | the runs of an init chunk come from the batch and none has an id above the chunk's cursor |
| Syncer.InitPlanCursor | modules/dbnd-airflow-monitor/src/airflow_monitor/syncer/runtime_syncer.py:126-137 | an init cursor is the id of a run of its own chunk |
| Syncer.InitPlanPrefix | modules/dbnd-airflow-monitor/src/airflow_monitor/syncer/runtime_syncer.py:121-137 | whatever chunk raises, the runs posted are a prefix of the batch sorted by id, and without a failure the whole batch |
| Syncer.InitPlanInBulks | modules/dbnd-airflow-monitor/src/airflow_monitor/syncer/runtime_syncer.py:123-125 | post i has the i-th bulk of the runs sorted by id, the last perhaps fewer, and there are as many as it takes; with bulk size 0 one post has all, with a negative one there is none |
| Syncer.UpdatePlanOrdered | modules/dbnd-airflow-monitor/src/airflow_monitor/syncer/runtime_syncer.py:155-174 | log cursors never decrease, and no run left unposted has a log id below a posted cursor |
| Syncer.UpdatePlanPrefix | modules/dbnd-airflow-monitor/src/airflow_monitor/syncer/runtime_syncer.py:155-174 | whatever chunk raises, the runs posted are a prefix of the batch sorted by log id, and without a failure the whole batch |
| Syncer.UpdatePlanInBulks | modules/dbnd-airflow-monitor/src/airflow_monitor/syncer/runtime_syncer.py:159-161 | the same of the update posts and the runs sorted by log id |
| Syncer.UpdatePlanPair | modules/dbnd-airflow-monitor/src/airflow_monitor/syncer/runtime_syncer.py:155-174 | earlier update chunks come before later ones in the sort order, each with the cursor of its own rows |
| Syncer.NoneOnlyAtTailIff | modules/dbnd-airflow-monitor/src/airflow_monitor/syncer/runtime_syncer.py:169-173 | posts without a cursor come last for every bulk size exactly when the batch does not hold both the log id 0 and a positive one |
| Sequences.SortStable | modules/dbnd-airflow-monitor/src/airflow_monitor/syncer/runtime_syncer.py:155-157 | runs that come equal in the sort order, as those without a log, keep the order they were polled in |
| Syncer.AirflowRuntimeSyncer.InitDagruns | modules/dbnd-airflow-monitor/src/airflow_monitor/syncer/runtime_syncer.py:116-137 | the chunks are fetched and posted in the order of the plan until one raises; posted are those before it, and it too if its post took effect; each has the runs that the configured bulk size says |
| Syncer.AirflowRuntimeSyncer.UpdateDagruns | modules/dbnd-airflow-monitor/src/airflow_monitor/syncer/runtime_syncer.py:139-174 | likewise for updates; without runs one empty post is made as a heartbeat and nothing is fetched |
| Syncer.AirflowRuntimeSyncer.SyncPolledRuns | modules/dbnd-airflow-monitor/src/airflow_monitor/syncer/runtime_syncer.py:109-114 | the updates are posted whatever happened to the inits, both in bulks of the configured size |
| AirflowDb.FindNewDagRuns | modules/dbnd-airflow/src/dbnd_airflow/export_plugin/queries.py:96-130 | below and above 900 keys: of the runs with a model exactly those are returned that are selected, allowed by the sub-DAG flag, and asked for by id, running and not paused, above the cursor or asked for by key; and nothing else is |
| AirflowDb.SelectedExactly | modules/dbnd-airflow/src/dbnd_airflow/export_plugin/queries.py:30-48 | as long as no listed id holds a wildcard, exactly the listed DAGs and their sub-DAGs are selected, and all without a list |
| AirflowDb.LikeWithoutPercent | modules/dbnd-airflow/src/dbnd_airflow/export_plugin/queries.py:31-34 | the prefix of a listed id is not escaped: an underscore in it stands for any character |
| AirflowDb.LikePercent | modules/dbnd-airflow/src/dbnd_airflow/export_plugin/queries.py:31-34 | and a percent sign for any number of them |
| AirflowDb.FindDagRunsByListInChunks | modules/dbnd-airflow/src/dbnd_airflow/export_plugin/queries.py:80-93 | the union over the chunks is the lookup of all keys at once, and no query is asked with more than 900 keys |
| AirflowDb.FindAllLogsGroupedByRuns | modules/dbnd-airflow/src/dbnd_airflow/export_plugin/queries.py:133-161 | for exactly the runs with a matching newer log, the greatest such log id |
| AirflowDb.FindMaxId | modules/dbnd-airflow/src/dbnd_airflow/export_plugin/queries.py:164-175 | the greatest id, or nothing for an empty table |
| AirflowDb.GetNewDagRuns | modules/dbnd-airflow/src/dbnd_airflow/export_plugin/api_functions.py:95-154 | a poll returns each wanted run once, field by field, with its latest log id among the newer logs, and nothing else |
| ComponentManagers.ReconcileTarget | modules/dbnd-airflow-monitor/src/airflow_monitor/shared/base_monitor_component_manager.py:58-80 | after reconciling, a service is active exactly when it is enabled and was active and alive, or was missing and the server had answered alive by then |
| ComponentManagers.ReconcileStopping | modules/dbnd-airflow-monitor/src/airflow_monitor/shared/base_monitor_component_manager.py:41-80 | a manager that is stopping ends with none of its services active |
| ComponentManagers.ComponentManager.CleanDeadComponents | modules/dbnd-airflow-monitor/src/airflow_monitor/shared/base_monitor_component_manager.py:32-36 | exactly the components that do not answer alive are stopped and dropped; the others keep their runner |
| ComponentManagers.ComponentManager.Visit | modules/dbnd-airflow-monitor/src/airflow_monitor/shared/base_monitor_component_manager.py:62-80 | one turn of the loop is one step of the reconciliation |
| ComponentManagers.ComponentManager.UpdateComponentState | modules/dbnd-airflow-monitor/src/airflow_monitor/shared/base_monitor_component_manager.py:58-82 | the new active set is the reconciliation of the live components, and whoever was alive and stays active keeps the runner |
| ComponentManagers.ComponentManager.Stop | modules/dbnd-airflow-monitor/src/airflow_monitor/shared/base_monitor_component_manager.py:84-87 | the active set is empty, no runner was started and every runner ever started is stopped |
| ComponentManagers.ComponentManager.Start | modules/dbnd-airflow-monitor/src/airflow_monitor/shared/base_monitor_component_manager.py:89-92 | the active set is the reconciliation of the live components, unless reporting the state raised; survivors keep their runners |
| ComponentManagers.ComponentManager.UpdateConfig | modules/dbnd-airflow-monitor/src/airflow_monitor/shared/base_monitor_component_manager.py:94-97 | the active set is the reconciliation of the live components with the new configuration; survivors are not restarted |
| ComponentManagers.ComponentManager.Heartbeat | modules/dbnd-airflow-monitor/src/airflow_monitor/shared/base_monitor_component_manager.py:99-104 | the active set is what is alive of it, with the runners it had |
| ComponentManagers.CallsAfterStop | modules/dbnd-airflow-monitor/src/airflow_monitor/shared/base_monitor_component_manager.py:84-104 | after a stop no sequence of calls makes the active set non-empty or starts a runner, and none is running |
| MultiServer.MultiServerMonitor.NoLeakedRunner | modules/dbnd-airflow-monitor/src/airflow_monitor/shared/base_multiserver.py:70-113 | a runner that was started and not stopped is held by exactly one active manager, under one name |
| MultiServer.MultiServerMonitor.HeldRunnersRun | modules/dbnd-airflow-monitor/src/airflow_monitor/shared/base_multiserver.py:70-113 | and what a manager holds is started and not stopped |
| MultiServer.MultiServerMonitor.Run | modules/dbnd-airflow-monitor/src/airflow_monitor/shared/base_multiserver.py:125-142 | the loop returns exactly after the first iteration at which the time is up or the number of iterations, if one is set, is reached; every iteration, whether it raises or not, makes of the servers what RunOnce says, and at the end all are gone and every runner ever started is stopped |
| MultiServer.LimitReached | modules/dbnd-airflow-monitor/src/airflow_monitor/shared/base_multiserver.py:60-68 | with a number of iterations set the loop ends exactly there, unless the time ran out before |
| MultiServer.MultiServerMonitor.StopDisabledServers | modules/dbnd-airflow-monitor/src/airflow_monitor/shared/base_multiserver.py:70-80 | exactly the configured servers keep their monitors, as they were, and no runner is forgotten |
| MultiServer.MultiServerMonitor.AddServer | modules/dbnd-airflow-monitor/src/airflow_monitor/shared/base_multiserver.py:105-113 | a new server gets a monitor with its configuration, reconciled from nothing; the other servers are as they were |
| MultiServer.MultiServerMonitor.UpdateServer | modules/dbnd-airflow-monitor/src/airflow_monitor/shared/base_multiserver.py:100-104 | a known server's monitor gets the configuration and is reconciled, without restarting who stays; the other servers are as they were |
| MultiServer.MultiServerMonitor.EnsureMonitoredServers | modules/dbnd-airflow-monitor/src/airflow_monitor/shared/base_multiserver.py:97-113 | it raises exactly when a server without a monitor cannot get one; otherwise exactly the configured servers have a monitor, and for configurations with distinct ids each has seen to its configuration; when it raises, those before the failing one have |
| MultiServer.MultiServerMonitor.Heartbeat | modules/dbnd-airflow-monitor/src/airflow_monitor/shared/base_multiserver.py:115-123 | every monitor keeps exactly its components that are alive, with their runners |
| MultiServer.MultiServerMonitor.RunOnce | modules/dbnd-airflow-monitor/src/airflow_monitor/shared/base_multiserver.py:144-156 | an iteration in which nothing raises leaves every configured server with the outcome of its configuration as far as that is still alive, and no other server; one that cannot read the configurations changes nothing, and one that cannot create a monitor stops there |
| ErrorAggregator.ErrorAggregator.Report | modules/dbnd-airflow-monitor/src/airflow_monitor/shared/error_aggregator.py:38-58 | whatever was collected before or meanwhile, the message published after a report tells exactly the errors active then: nothing of none, its own message of one, and of two parts the newer one, a separator and the older one; when nothing is to update it was published already |
| ErrorAggregator.ErrorAggregator.Evict | modules/dbnd-airflow-monitor/src/airflow_monitor/shared/error_aggregator.py:17-35 | a collection at any time keeps the invariant |
| ErrorAggregator.CountingSuffices | modules/dbnd-airflow-monitor/src/airflow_monitor/shared/error_aggregator.py:43-49 | errors that only disappeared since they were joined, and are as many as were counted, are the same errors with the same message |
| ErrorAggregator.MessageIgnoresOrder | modules/dbnd-airflow-monitor/src/airflow_monitor/shared/error_aggregator.py:53-58 | the message depends on the active errors, not on the order they came in |
| ErrorAggregator.JoinedNewestFirst | modules/dbnd-airflow-monitor/src/airflow_monitor/shared/error_aggregator.py:53-56 | the active errors stand in an order from the newest to the oldest, among equally new ones the greater text first, in which the message of what is from any error on is its own, the separator and the message of those behind it |
| ErrorAggregator.MessageTells | modules/dbnd-airflow-monitor/src/airflow_monitor/shared/error_aggregator.py:53-58 | the message of any errors says what the report promises, without sorting: none, one, or two parts of which one is before the other |
| ErrorAggregator.UpdatedEntries | modules/dbnd-airflow-monitor/src/airflow_monitor/shared/error_aggregator.py:39-42 | a failure is the reporter's one entry, a success leaves it none, nobody else's is touched |
| CompositeUri.RoundTrip | plugins/dbnd-mlflow/src/dbnd_mlflow/url_utils.py:44-111 | for every URL that is accepted the duplicate URI always comes back, and the URL comes back exactly when it is stable: scheme in lower case and followed by two slashes but not four, no dangling ? or #, no empty parameters, and a canonical query without the reserved key |
| CompositeUri.SameUrl | plugins/dbnd-mlflow/src/dbnd_mlflow/url_utils.py:100-111 | the URL with its query read and written is the same exactly when it is stable |
| CompositeUri.PlacedTwice | plugins/dbnd-mlflow/src/dbnd_mlflow/url_utils.py:63-111 | authority and path come back exactly when there is an authority, if empty then one the path does not pass for, and no empty parameters |
| CompositeUri.BuildText | plugins/dbnd-mlflow/src/dbnd_mlflow/url_utils.py:63-73 | the text built for any accepted URL and any duplicate URI |
| CompositeUri.ParseText | plugins/dbnd-mlflow/src/dbnd_mlflow/url_utils.py:100-111 | what is read from such a text |
| CompositeUri.AcceptedExactly | plugins/dbnd-mlflow/src/dbnd_mlflow/url_utils.py:13-41 | a URI is accepted exactly when its scheme, in lower case, is one of the four |
| CompositeUri.ParseScheme | plugins/dbnd-mlflow/src/dbnd_mlflow/url_utils.py:13-18 | the URL that comes back is an https one exactly when the scheme of the URI ends in +s, whichever of the two names it has, and an http one otherwise |
| CompositeUri.BuildScheme | plugins/dbnd-mlflow/src/dbnd_mlflow/url_utils.py:11-73 | a URL is accepted exactly when its scheme is http or https, which become dbnd and dbnd+s |
| CompositeUri.SchemesAlike | plugins/dbnd-mlflow/src/dbnd_mlflow/url_utils.py:13-18 | a databand URI reads as the dbnd URI with the same rest does, and databand+s as dbnd+s |
| FormQuery.CanonicalExactly | plugins/dbnd-mlflow/src/dbnd_mlflow/url_utils.py:103-109 | a query is read and written back unchanged, without the reserved key, exactly when it is canonical |
| FormQuery.ParseEncode | plugins/dbnd-mlflow/src/dbnd_mlflow/url_utils.py:66-71 | reading an encoded dictionary gives it back without its blank values |
| FormQuery.ReadBackPut | plugins/dbnd-mlflow/src/dbnd_mlflow/url_utils.py:66-71 | after writing a key the value is there unless it was blank, and the rest is as before |
| PercentEncoding.UnquoteQuote | plugins/dbnd-mlflow/src/dbnd_mlflow/url_utils.py:68 | decoding undoes encoding on every text |
| PercentEncoding.QuoteUnquote | plugins/dbnd-mlflow/src/dbnd_mlflow/url_utils.py:103-109 | encoding undoes decoding exactly on normal text |
| PercentEncoding.KeptExactly | plugins/dbnd-mlflow/src/dbnd_mlflow/url_utils.py:68 | letters, digits and four marks stay, a space becomes a plus sign, and every other byte three bytes |
| PercentEncoding.UnquoteFirst | plugins/dbnd-mlflow/src/dbnd_mlflow/url_utils.py:103-109 | an escape is the byte with that number, a plus sign a space, and any other byte itself |
| PercentEncoding.HexExactly | plugins/dbnd-mlflow/src/dbnd_mlflow/url_utils.py:103-109 | hexadecimal digits are read in both letter cases |
| Urls.ScanText | plugins/dbnd-mlflow/src/dbnd_mlflow/url_utils.py:63 | scanning the text of well-formed parts gives the parts back |
| Urls.TextScan | plugins/dbnd-mlflow/src/dbnd_mlflow/url_utils.py:73 | the text of the scanned parts of a URL with a scheme is that URL |
| Urls.UnparseText | plugins/dbnd-mlflow/src/dbnd_mlflow/url_utils.py:70-73 | the text written for any URL with a scheme is that of its non-empty parts, with authority and path as they will be read |
| Urls.RejoinedExactly | plugins/dbnd-mlflow/src/dbnd_mlflow/url_utils.py:63-73 | splitting off the parameters and joining them again loses only an empty list |
| Urls.ParamsExactly | plugins/dbnd-mlflow/src/dbnd_mlflow/url_utils.py:63 | the parameters of a path begin at the first semicolon of its last segment |
| Urls.TextScanBare | plugins/dbnd-mlflow/src/dbnd_mlflow/url_utils.py:63-73 | nothing is lost of a text without a scheme either |
| InProcessExecutor.FailFastPattern | modules/dbnd-airflow/src/dbnd_airflow/executors/simple_executor.py:60-102 | failing fast, the states in queue order are successes, then a failure followed by upstream failures, or failures only once killed; nothing is executed from there on except that failure |
| InProcessExecutor.EachAlone | modules/dbnd-airflow/src/dbnd_airflow/executors/simple_executor.py:69-100 | without fail-fast every task's state depends on that task alone |
| InProcessExecutor.InterruptIsNoDifferent | modules/dbnd-airflow/src/dbnd_airflow/executors/simple_executor.py:90-100 | an interrupt changes no state and no execution compared with another failure |
| InProcessExecutor.RaisesExactly | modules/dbnd-airflow/src/dbnd_airflow/executors/simple_executor.py:60-102 | an exception gets out of a sync exactly when a key is no longer running, or an executed task leaves the process |
| InProcessExecutor.AccountedForOnce | modules/dbnd-airflow/src/dbnd_airflow/executors/simple_executor.py:60-102 | otherwise every task leaves the running ones and exactly one change is reported for each, in queue order |
| InProcessExecutor.EventsAre | modules/dbnd-airflow/src/dbnd_airflow/executors/simple_executor.py:145-152 | and its event is its state, while other keys keep theirs |
| InProcessExecutor.InstancesAre | modules/dbnd-airflow/src/dbnd_airflow/executors/simple_executor.py:69-100 | the executor writes the state of a task instance itself exactly when it did not execute it |
| InProcessExecutor.InProcessExecutor.QueueCommand | modules/dbnd-airflow/src/dbnd_airflow/executors/simple_executor.py:104-112 | a key is accepted exactly when it is neither queued nor running |
| InProcessExecutor.InProcessExecutor.Trigger | modules/dbnd-airflow/src/dbnd_airflow/executors/simple_executor.py:57-58 | a triggered key is running and last in the list |
| InProcessExecutor.InProcessExecutor.ChangeState | modules/dbnd-airflow/src/dbnd_airflow/executors/simple_executor.py:145-152 | a state is recorded for a running key, which stops running; otherwise nothing changes and it fails |
| InProcessExecutor.InProcessExecutor.Handle | modules/dbnd-airflow/src/dbnd_airflow/executors/simple_executor.py:62-100 | one turn of the loop, with all its handlers, is one step of the bookkeeping |
| InProcessExecutor.InProcessExecutor.Sync | modules/dbnd-airflow/src/dbnd_airflow/executors/simple_executor.py:60-102 | the books afterwards are those of the whole queue; the list is empty unless an exception got out |
| InProcessExecutor.InProcessExecutor.End | modules/dbnd-airflow/src/dbnd_airflow/executors/simple_executor.py:134-141 | the remaining tasks are given up and the list is not cleared |
| InProcessExecutor.GivenUpAsFailed | modules/dbnd-airflow/src/dbnd_airflow/executors/simple_executor.py:134-141 | ending is a sync in which everything is already upstream failed |
| InProcessExecutor.EndsOnce | modules/dbnd-airflow/src/dbnd_airflow/executors/simple_executor.py:134-141 | ending works once; with tasks in the list a second end or sync fails |
| TaskGraph.BuildAirflowDag | modules/dbnd-airflow/src/dbnd_airflow/dbnd_task_executor/dbnd_task_executor_via_airflow.py:241-296 | a wrapped DAG is answered as it is; otherwise a new DAG has one operator per selected task whose upstream ids are exactly those of its selected upstream tasks; downstream ids too, except that a reused operator keeps its old ones |
| TaskGraph.BuildOperators | modules/dbnd-airflow/src/dbnd_airflow/dbnd_task_executor/dbnd_task_executor_via_airflow.py:263-292 | the operators in the order of the tasks, with exactly the upstream ids they should have |
| TaskGraph.LinkUpstream | modules/dbnd-airflow/src/dbnd_airflow/dbnd_task_executor/dbnd_task_executor_via_airflow.py:282-292 | the second pass links exactly the upstream tasks that were selected, on both sides |
| TaskGraph.MakeOperators | modules/dbnd-airflow/src/dbnd_airflow/dbnd_task_executor/dbnd_task_executor_via_airflow.py:264-280 | the first pass gives every task its operator, in order, with no upstream ids |
| TaskGraph.EdgesAreTheSame | modules/dbnd-airflow/src/dbnd_airflow/dbnd_task_executor/dbnd_task_executor_via_airflow.py:282-292 | an operator is upstream of another exactly when its task is |
| TaskGraph.CyclesAreTheSame | modules/dbnd-airflow/src/dbnd_airflow/dbnd_task_executor/dbnd_task_executor_via_airflow.py:263-292 | the operators have a cycle exactly when the selected tasks have one among themselves |
| TaskGraph.OrdersAreTheSame | modules/dbnd-airflow/src/dbnd_airflow/dbnd_task_executor/dbnd_task_executor_via_airflow.py:263-292 | an order of the tasks is topological exactly when it is for the operators |
| TaskGraph.BuiltIsInduced | modules/dbnd-airflow/src/dbnd_airflow/dbnd_task_executor/dbnd_task_executor_via_airflow.py:263-292 | the operators built have the graph those statements are about |
| TaskGraph.SetDagAsCurrent | modules/dbnd-airflow/src/dbnd_airflow/dbnd_task_executor/dbnd_task_executor_via_airflow.py:471-491 | whatever happened in between, every operator that had a DAG gets it back |
| ConfigOverlay.OverlayRight | modules/dbnd-airflow/src/dbnd_airflow/export_plugin/api_functions.py:210-221 | at every path: the override's value where it puts one, what was there where it has nothing, a mapping where it passes through |
| ConfigOverlay.RaisesExactly | modules/dbnd-airflow/src/dbnd_airflow/export_plugin/api_functions.py:210-221 | the update raises exactly when a mapping with fields meets something that is not a mapping |
| ConfigOverlay.CompatibleExactly | modules/dbnd-airflow/src/dbnd_airflow/export_plugin/api_functions.py:210-221 | trees are incompatible exactly when at some path a mapping with fields meets something that is not a mapping |
| ConfigOverlay.PutsItsOwn | modules/dbnd-airflow/src/dbnd_airflow/export_plugin/api_functions.py:215-220 | an empty mapping and any value that is no mapping replace what was there |
| ConfigOverlay.Converges | modules/dbnd-airflow/src/dbnd_airflow/export_plugin/api_functions.py:210-221 | updating again changes nothing, and the first update changes nothing exactly when everything was there |
| ConfigOverlay.FlattenIs | modules/dbnd/src/dbnd/_core/utils/json_utils.py:125-150 | for every tree a flat name has the value of the last leaf of that dotted name |
| ConfigOverlay.AsksExactly | modules/dbnd-airflow/src/dbnd_airflow/export_plugin/api_functions.py:233-234 | for all trees no write is asked for exactly when every dotted name of the response has in both trees a last leaf of the same value |
| ConfigOverlay.NoFurtherWrite | modules/dbnd-airflow/src/dbnd_airflow/export_plugin/api_functions.py:233-247 | after an update the same response asks for no further write, if leaves of the result that share a dotted name with one of the response have its value |
| ConfigOverlay.NoDotsNoClash | modules/dbnd-airflow/src/dbnd_airflow/export_plugin/api_functions.py:233-247 | trees without dots in their keys have no such clash |
| ConfigOverlay.DottedKeysNeverSettle | modules/dbnd-airflow/src/dbnd_airflow/export_plugin/api_functions.py:233-247 | with a dotted key next to a nested one the same response writes back what was there, time after time |
| ConfigOverlay.CheckSettles | modules/dbnd-airflow/src/dbnd_airflow/export_plugin/api_functions.py:237-249 | one check with a write settles it: the next finds nothing to write, if no leaves clash |
| ConfigOverlay.CheckSettlesWithoutDots | modules/dbnd-airflow/src/dbnd_airflow/export_plugin/api_functions.py:237-249 | one check settles it whenever no key holds a dot |
| ConfigOverlay.RemovesExactly | modules/dbnd-airflow/src/dbnd_airflow/export_plugin/api_functions.py:224-230 | exactly the two place holders go: at every other path the response is as it was, and the core section goes when nothing else was in it |
| ConfigOverlay.RemovingRaisesExactly | modules/dbnd-airflow/src/dbnd_airflow/export_plugin/api_functions.py:226-230 | removing raises exactly when the core section is there and is neither null nor a mapping |
| ConfigOverlay.CheckExactly | modules/dbnd-airflow/src/dbnd_airflow/export_plugin/api_functions.py:237-249 | the check raises exactly when removing does or when it has to write and the trees are incompatible; it writes exactly when asked to, and then every override is in the connection |
| ConfigOverlay.PlaceHoldersSurvive | modules/dbnd-airflow/src/dbnd_airflow/export_plugin/api_functions.py:224-249 | the connection's own URL and token survive a write, unless the response has null for the core section |
| TargetConfigs.PrintAndRead | modules/dbnd/src/targets/target_config.py:246-309 | a configuration, file or folder, is read back from what it prints exactly when it is recoverable: its format's extension is read as that format, and its compression's as that compression and as no format |
| TargetConfigs.ReadFolder | modules/dbnd/src/targets/target_config.py:284-289 | a trailing slash makes a configuration a folder and changes nothing else |
| TargetConfigs.CompressionByName | modules/dbnd/src/targets/target_config.py:255-309 | a compression is recoverable exactly when its name is one of its own extensions and no format's |
| TargetConfigs.RegisteredRecoverable | modules/dbnd/src/targets/target_config.py:54-122 | when nothing is claimed twice, a registered format and compression are recoverable exactly when the compression's name is among its extensions and is no format's name or extension |
| TargetConfigs.ZipIsAFormat | modules/dbnd/src/targets/target_config.py:100-122 | with the shipped formats the zip compression is never read back |
| TargetConfigs.ShippedRecoverable | modules/dbnd/src/targets/target_config.py:98-122 | as shipped, a format and a compression are recoverable exactly when the compression is not zip |
| TargetConfigs.ClaimedOnce | modules/dbnd/src/targets/target_config.py:59-65 | an extension claimed once is read as the name that claimed it |
| TargetConfigs.RegisterKeepsConsistent | modules/dbnd/src/targets/target_config.py:59-65 | registration keeps the two directions of a registry consistent |
| TargetConfigs.FileExtensionMap.RegisterExtension | modules/dbnd/src/targets/target_config.py:59-65 | the loop performs the registration, which takes an extension over from an earlier one |
| TargetConfigs.RegisterExactly | modules/dbnd/src/targets/target_config.py:59-65 | the given extensions, or the name when none is given, belong to the name afterwards, and all other extensions and names are as before |
| TargetConfigs.ExtensionExactly | modules/dbnd/src/targets/target_config.py:67-76 | what is printed for a name is a dot and its first extension, or its own name when it has none, and nothing for a blank one |
| TargetConfigs.NameExactly | modules/dbnd/src/targets/target_config.py:78-87 | an extension is read as the name it belongs to, unless that is blank |
| TargetConfigs.DotAdded | modules/dbnd/src/targets/target_config.py:269-272 | a configuration is read with or without its first dot |
| TargetConfigs.ExtractExactly | modules/dbnd/src/targets/target_config.py:275-297 | the marker at the end decides the flag, a slash before it makes a folder, and a configuration that had a format or compression keeps it |
| TargetConfigs.DirectoryIgnored | modules/dbnd/src/targets/target_config.py:284-300 | what is read of a file does not depend on the directory it is in |
| TargetConfigs.ReadLastTwo | modules/dbnd/src/targets/target_config.py:297-309 | of a file name the last two parts are read, in order |
| TargetConfigs.LastComponentExactly | modules/dbnd/src/targets/target_config.py:289-294 | the last component is the last name of the path; slashes and dots at the end do not count, and two dots take back a name |
| TargetConfigs.LastComponentAtTop | modules/dbnd/src/targets/target_config.py:289-294 | two dots stay at the top of a relative path and are nothing at the root |
| TargetConfigs.DirNameExactly | modules/dbnd/src/targets/target_config.py:287 | the directory of a path is what is before the slash of its last component, or the root, or nothing |
| Partitions.PathsDiffer | modules/dbnd/src/targets/dir_target.py:107-118 | no automatic partition name is ever used twice |
| Partitions.ListingExactly | modules/dbnd/src/targets/dir_target.py:67-90 | in a folder with otherwise only hidden files the listing is exactly the partitions, and in the order of creation exactly up to 10000 of them |
| Partitions.PartitionsAreShown | modules/dbnd/src/targets/dir_target.py:67-80 | with the default flag a partition is left out exactly when its very name is listed as a meta file |
| Partitions.ListedWhich | modules/dbnd/src/targets/dir_target.py:67-80 | a file of the folder is listed as often as it is there, unless its name starts with a dot or underscore, is a meta file or is the flag |
| Partitions.WriteTargetIsFirst | modules/dbnd/src/targets/dir_target.py:52-53 | the target a folder is written through is its first automatic partition |
| Partitions.DirTarget.Partition | modules/dbnd/src/targets/dir_target.py:100-118 | the path of a named partition, or of the next automatic one, with the extension given by the caller or the folder's |
| Decimals.ValuePadded | modules/dbnd/src/targets/dir_target.py:107-109 | a padded numeral has the value it was made from |
| FreshNames.GetAvailableName | plugins/dbnd-luigi/src/dbnd_luigi/luigi_target.py:74-83 | the search ends with the first free suggestion, after at most as many taken ones as there are known names |
| FreshNames.ExtractTargetsDedup | plugins/dbnd-luigi/src/dbnd_luigi/luigi_target.py:64-71 | every target gets the first name free after the attributes and the names before it |
| FreshNames.DedupNames | plugins/dbnd-luigi/src/dbnd_luigi/luigi_target.py:64-71 | the names are pairwise different and none is an attribute; a free name is kept, and any other has a number after it, while the name itself and the name with every smaller number were taken |
| FreshNames.SuggestedExactly | plugins/dbnd-luigi/src/dbnd_luigi/luigi_target.py:79-81 | the suggestions are the name itself and then the name with 0, 1, 2 and so on after it |
| SafeLabels.SafeExactly | modules/dbnd-airflow/src/dbnd_airflow/_vendor/kubernetes_utils.py:7-23 | the result has at most 63 characters and is a valid label exactly when the text is empty or has an alphanumeric |
| SafeLabels.ValidIsKept | modules/dbnd-airflow/src/dbnd_airflow/_vendor/kubernetes_utils.py:17-23 | a valid label is returned unchanged |
| SafeLabels.StableExactly | modules/dbnd-airflow/src/dbnd_airflow/_vendor/kubernetes_utils.py:17-23 | making a label safe twice is the same as once in exactly the same cases |
| SafeLabels.MarkedExactly | modules/dbnd-airflow/src/dbnd_airflow/_vendor/kubernetes_utils.py:17-23 | a text that is not a label becomes the allowed characters between its first and last alphanumeric, at most 53 of them, a dash and nine characters of the digest |
| SafeLabels.Characters | modules/dbnd-airflow/src/dbnd_airflow/_vendor/kubernetes_utils.py:17 | the characters that count as alphanumeric and the three others that are allowed |
| TargetCache.Targets.Run | modules/dbnd/src/targets/data_target.py:115-148 | with the flag constant, and nothing cached if it is off, every load in any history answers what a target without a cache would |
| TargetCache.Targets.Load | modules/dbnd/src/targets/data_target.py:135-148 | a hit while disabled answers nothing; every other load answers what is stored |
| TargetCache.Targets.Dump | modules/dbnd/src/targets/data_target.py:115-133 | the value is stored and cached, and the cache stays coherent unless it is off and holds the key |
| TargetCache.TargetCache.ClearForTargets | modules/dbnd/src/targets/caching.py:60-71 | exactly the entries of those targets go |

## Left out

- MultiServer.MultiServerMonitor.EnsureMonitoredServers: when a server occurs twice in the configurations, what it ends with is stated by EnsureServer for each of the two in turn only.
- AirflowDb.FindAllLogsGroupedByRuns: the distinct events of each group are left out, as the monitor does not read them from the response.
- AirflowDb.GetNewDagRuns: likewise for the events of each run.
- ConfigOverlay.NoFurtherWrite: one direction, with a condition on leaves; the exact one, for any two trees, is that of AsksExactly on the last leaves of each dotted name.
- LogFreshness.LogCursorAlwaysFresh: speaks of each run's latest log row. For older rows the promise is not made by the code, which asks only for the latest.
- ConfigOverlay models `deep_update` on values: the update in place and the sharing of overridden subtrees with the response are not captured. Python's equality across number types is not either.
- Bracketed hosts, Unicode checks on hosts, stripping of control characters and percent escapes that are not UTF-8: the URL model reads and writes plain text only.
- The order in which equal log ids are posted beyond the stable sort, and what SQL does with time zones and collations.
- The fixer's chunk loop: its chunks are any fetches and posts of known runs, in any number.
- `iterate_targets` and the conversion of Luigi targets: the names reach the search as a list.
- The exceptions a runner's own code may raise, process handling, and the liveness file.
- The `DAG` objects themselves beyond their task list, and documentation texts set on operators.
- Writing task instance states to Airflow's database beyond the last state set; running a task instance and its logs.
- Target paths with commas or glob patterns, sub-directories of a partition folder, and remote file systems.
- HTTP, login, retries, metrics, logging, the web server, SQLAlchemy, Spark, Databricks, Qubole, Docker and cloud credentials.
- The numeric histogram merge of the Postgres plugin and the generated Airflow task ids: no law of the kind proved here holds of them.
