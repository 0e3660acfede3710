/** The multi-server monitor: one component manager per configured server, driven by a loop that survives failing iterations. */
module MultiServer {
  import opened Common
  import opened ComponentManagers

  /** A tracking source's uid. */
  type ServerId = string

  datatype ServerConfig = ServerConfig(id: ServerId, enabled: set<string>)

  /** What one iteration meets. `configs` is `None` when reading or filtering the configurations raises;
      creating a monitor raises for the servers in `trackingRaises`. Runners may die between the two checks. */
  datatype Iteration = Iteration(
    configs: Option<seq<ServerConfig>>,
    ask: (ServerId, string) -> Option<bool>,
    alive: (ServerId, string) -> bool,
    aliveLater: (ServerId, string) -> bool,
    trackingRaises: set<ServerId>,
    startRaises: set<ServerId>,
    timeUp: bool)

  /** What one server is told in an iteration. */
  function Asks(env: Iteration, id: ServerId): string -> Option<bool> {
    name => env.ask(id, name)
  }

  function Alive(env: Iteration, id: ServerId): string -> bool {
    name => env.alive(id, name)
  }

  function AliveLater(env: Iteration, id: ServerId): string -> bool {
    name => env.aliveLater(id, name)
  }

  /** The iteration, counted from 1, after which the loop ends, if these iterations get that far. */
  function LastIteration(limit: nat, envs: seq<Iteration>, done: nat): Option<nat> {
    if envs == [] then None
    else if (limit > 0 && done + 1 >= limit) || envs[0].timeUp then Some(done + 1)
    else LastIteration(limit, envs[1..], done + 1)
  }

  /** With a limit the loop ends exactly at the limit, unless the time runs out before. */
  lemma {:induction false} LimitReached(limit: nat, envs: seq<Iteration>, done: nat)
    requires limit > 0 && done < limit && done + |envs| >= limit
    ensures LastIteration(limit, envs, done).Some?
    ensures var last := LastIteration(limit, envs, done).value;
            && done < last <= limit
            && (last < limit ==> envs[last - done - 1].timeUp)
            && (forall k | 0 <= k < last - done - 1 :: !envs[k].timeUp)
  {
    if !((limit > 0 && done + 1 >= limit) || envs[0].timeUp) {
      LimitReached(limit, envs[1..], done + 1);
    }
  }

  function ServerIds(configs: seq<ServerConfig>): set<ServerId> {
    set c | c in configs :: c.id
  }

  ghost predicate DistinctIds(configs: seq<ServerConfig>) {
    forall i, j | 0 <= i < j < |configs| :: configs[i].id != configs[j].id
  }

  // ----- what each server ends with -----

  /** One server as the monitor has it: its manager, the configuration that has, and its active runners. */
  datatype ServerView = ServerView(monitor: ComponentManager, enabled: set<string>, components: map<string, Runner>)

  type Views = map<ServerId, ServerView>

  function Was(views: Views, id: ServerId): Option<ServerView> {
    if id in views then Some(views[id]) else None
  }

  /** A known server is reconciled with what was active, a new one is started from nothing. */
  function Outcome(services: seq<string>, config: ServerConfig, env: Iteration, was: Option<ServerView>): set<string> {
    if was.None? && config.id in env.startRaises then {}
    else
      var active := if was.Some? then was.value.components.Keys else {};
      Reconcile(services, config.enabled, false, Live(active, Alive(env, config.id)), Asks(env, config.id), None)
  }

  /** The configuration has been seen to: the active components are the outcome, and a known server keeps its manager and,
      of those that were active and alive and still are active, the runners. */
  ghost predicate Served(services: seq<string>, config: ServerConfig, env: Iteration, was: Option<ServerView>, now: ServerView) {
    && now.enabled == config.enabled && now.components.Keys == Outcome(services, config, env, was)
    && (was.Some? ==> now.monitor == was.value.monitor
                      && SurvivorsKept(was.value.components, now.components, Alive(env, config.id)))
  }

  /** A heartbeat leaves exactly what is alive, with the runners it had. */
  ghost predicate Beaten(alive: string -> bool, was: ServerView, now: ServerView) {
    && now.monitor == was.monitor && now.enabled == was.enabled
    && now.components.Keys == Live(was.components.Keys, alive)
    && SurvivorsKept(was.components, now.components, alive)
  }

  /** An iteration sees to the configuration and then drops what died meanwhile. */
  ghost predicate Iterated(services: seq<string>, config: ServerConfig, env: Iteration, was: Option<ServerView>, now: ServerView) {
    && now.enabled == config.enabled
    && now.components.Keys == Live(Outcome(services, config, env, was), AliveLater(env, config.id))
    && (was.Some? ==> now.monitor == was.value.monitor
                      && forall n | n in was.value.components && env.alive(config.id, n) && n in now.components ::
                           now.components[n] == was.value.components[n])
  }

  lemma PutBack(now: Views, before: Views, id: ServerId)
    requires id in now && now - {id} == before - {id}
    ensures now == before[id := now[id]]
  {
    forall j | j in before && j != id ensures j in now && now[j] == before[j] {
      assert j in before - {id} && j in now - {id};
    }
    forall j | j in now && j != id ensures j in before {
      assert j in now - {id} && j in before - {id};
    }
  }

  lemma TakenAway(now: Views, before: Views, id: ServerId)
    requires id !in now && now - {id} == before - {id}
    ensures now == before - {id}
  {
    assert now - {id} == now;
  }

  lemma MinusMinus(views: Views, a: set<ServerId>, b: set<ServerId>)
    ensures (views - a) - b == views - (a + b)
  {
  }

  class MultiServerMonitor {
    const services: seq<string>
    const numberOfIterations: nat
    var activeMonitors: map<ServerId, ComponentManager>
    var iteration: nat
    /** The runners of managers that were stopped and dropped. */
    ghost var retired: set<Runner>
    ghost var repr: set<object>

    /** Every runner ever started. */
    ghost function Ever(): set<Runner>
      reads this`activeMonitors, this`retired, activeMonitors.Values
    {
      (set i, r | i in activeMonitors && r in activeMonitors[i].launched :: r) + retired
    }

    ghost predicate ManagerOk(m: ComponentManager)
      reads m, m.launched
    {
      m.Valid() && !m.isStopping && m.services == services
    }

    ghost predicate Apart(i: ServerId, j: ServerId)
      requires i in activeMonitors && j in activeMonitors
      reads this`activeMonitors, activeMonitors[i], activeMonitors[j]
    {
      activeMonitors[i] != activeMonitors[j] && activeMonitors[i].launched !! activeMonitors[j].launched
    }

    ghost predicate InRepr(i: ServerId)
      requires i in activeMonitors
      reads this`activeMonitors, this`repr, this`retired, activeMonitors[i]
    {
      activeMonitors[i] in repr && activeMonitors[i].launched <= repr && activeMonitors[i].launched !! retired
    }

    ghost predicate Valid()
      reads this`activeMonitors, this`repr, this`retired, repr
    {
      && this !in repr && retired <= repr
      && Distinct(services)
      && (forall i | i in activeMonitors :: activeMonitors[i] in repr && InRepr(i))
      && (forall i | i in activeMonitors :: ManagerOk(activeMonitors[i]))
      && (forall i, j | i in activeMonitors && j in activeMonitors && i != j :: Apart(i, j))
      && (forall r | r in retired :: r.started && r.stopped)
    }

    /** When everything but server `id` is as it was, the others stay valid and apart. */
    twostate lemma OthersStayOk(id: ServerId)
      requires old(Valid())
      requires forall j | j in activeMonitors && j != id ::
                 j in old(activeMonitors) && activeMonitors[j] == old(activeMonitors)[j]
                 && unchanged(old(activeMonitors)[j]) && unchanged(old(activeMonitors[j].launched))
      ensures forall j | j in activeMonitors && j != id :: ManagerOk(activeMonitors[j])
      ensures forall i, j | i in activeMonitors && j in activeMonitors && i != j && i != id && j != id :: Apart(i, j)
    {
      forall i, j | i in activeMonitors && j in activeMonitors && i != j && i != id && j != id ensures Apart(i, j) {
        assert old(Apart(i, j));
      }
    }

    /** Every runner ever started is still on record. */
    twostate lemma NothingForgotten()
      requires old(retired) <= retired
      requires forall i | i in old(activeMonitors) ::
                 old(activeMonitors[i].launched) <= retired
                 || (i in activeMonitors && old(activeMonitors[i].launched) <= activeMonitors[i].launched)
      ensures Ever() >= old(Ever())
    {
    }

    twostate predicate OthersUntouched(id: ServerId)
      reads this`activeMonitors, activeMonitors.Values
    {
      && activeMonitors.Keys - {id} == old(activeMonitors.Keys) - {id}
      && (forall j | j in activeMonitors && j != id ::
            j in old(activeMonitors) && activeMonitors[j] == old(activeMonitors)[j] && unchanged(old(activeMonitors)[j]))
    }

    /** Servers that were not touched look the same. */
    twostate lemma OthersLookTheSame(id: ServerId)
      requires OthersUntouched(id)
      ensures View() - {id} == old(View()) - {id}
    {
      forall j | j in View() - {id} ensures j in old(View()) && View()[j] == old(View())[j] {
        assert j in activeMonitors && j != id;
      }
      forall j | j in old(View()) - {id} ensures j in View() {
        assert j in old(activeMonitors.Keys) - {id};
      }
    }

    /** One manager has done something with its runners; the monitor is in order again. */
    twostate lemma MonitorChanged(id: ServerId)
      requires old(Valid()) && id in old(activeMonitors) && activeMonitors == old(activeMonitors)
      requires retired == old(retired) && repr == old(repr) + activeMonitors[id].launched && this !in repr
      requires ManagerOk(activeMonitors[id])
      requires old(activeMonitors[id].launched) <= activeMonitors[id].launched
      requires forall r | r in activeMonitors[id].launched && r !in old(activeMonitors[id].launched) :: r !in old(repr)
      requires forall j | j in activeMonitors && j != id ::
                 unchanged(old(activeMonitors)[j]) && unchanged(old(activeMonitors[j].launched))
      requires forall r | r in retired :: unchanged(r)
      ensures Valid() && Ever() >= old(Ever()) && View() - {id} == old(View()) - {id}
    {
      OthersStayOk(id);
      assert old(InRepr(id));
      forall j | j in activeMonitors && j != id ensures InRepr(j) && Apart(id, j) && Apart(j, id) {
        assert old(InRepr(j)) && old(Apart(id, j));
      }
      NothingForgotten();
      OthersLookTheSame(id);
    }

    /** `r` is the active runner of component `name` of server `i`. */
    ghost predicate HeldBy(r: Runner, i: ServerId, name: string)
      reads this, activeMonitors.Values
    {
      i in activeMonitors && name in activeMonitors[i].activeComponents && activeMonitors[i].activeComponents[name] == r
    }

    /** No leak: a runner that was started and not stopped is held by one server under one name, and only by it. */
    lemma NoLeakedRunner(r: Runner)
      requires Valid() && r in Ever() && Running(r)
      ensures exists i, name :: HeldBy(r, i, name)
      ensures forall i, j, m, n | HeldBy(r, i, m) && HeldBy(r, j, n) :: i == j && m == n
    {
      var i :| i in activeMonitors && r in activeMonitors[i].launched;
      assert ManagerOk(activeMonitors[i]);
      var name :| name in activeMonitors[i].activeComponents && activeMonitors[i].activeComponents[name] == r;
      assert HeldBy(r, i, name);
      forall i, j, m, n | HeldBy(r, i, m) && HeldBy(r, j, n) ensures i == j && m == n {
        assert r in activeMonitors[i].launched && r in activeMonitors[j].launched;
        assert i != j ==> Apart(i, j);
      }
    }

    /** The converse: what is held is running. */
    lemma HeldRunnersRun(r: Runner, i: ServerId, name: string)
      requires Valid() && HeldBy(r, i, name)
      ensures r in Ever() && Running(r)
    {
      assert ManagerOk(activeMonitors[i]) && r in activeMonitors[i].launched;
    }

    ghost function View(): (views: Views)
      reads this`activeMonitors, activeMonitors.Values
      ensures views.Keys == activeMonitors.Keys
    {
      map id | id in activeMonitors ::
        ServerView(activeMonitors[id], activeMonitors[id].enabled, activeMonitors[id].activeComponents)
    }

    constructor (services: seq<string>, numberOfIterations: nat)
      requires Distinct(services)
      ensures Valid() && activeMonitors == map[] && Ever() == {} && iteration == 0 && repr == {}
      ensures this.services == services && this.numberOfIterations == numberOfIterations
    {
      this.services, this.numberOfIterations := services, numberOfIterations;
      activeMonitors, iteration, retired, repr := map[], 0, {}, {};
    }

    method StopServer(id: ServerId, ask: string -> Option<bool>, alive: string -> bool)
      requires Valid() && id in activeMonitors
      modifies this`activeMonitors, this`retired, activeMonitors[id], activeMonitors[id].launched
      ensures Valid() && View() == old(View()) - {id}
      ensures Ever() >= old(Ever())
    {
      var monitor := activeMonitors[id];
      assert InRepr(id) && forall j | j in activeMonitors && j != id :: Apart(id, j) && InRepr(j);
      monitor.Stop(alive, ask);
      activeMonitors := activeMonitors - {id};
      retired := retired + monitor.launched;
      MonitorStopped(id);
      TakenAway(View(), old(View()), id);
    }

    /** A manager has stopped its runners and is dropped; the monitor is in order again. */
    twostate lemma MonitorStopped(id: ServerId)
      requires old(Valid()) && id in old(activeMonitors) && activeMonitors == old(activeMonitors) - {id}
      requires repr == old(repr) && retired == old(retired) + old(activeMonitors[id].launched)
      requires forall r | r in retired :: r.started && r.stopped
      requires forall j | j in activeMonitors ::
                 unchanged(old(activeMonitors)[j]) && unchanged(old(activeMonitors[j].launched))
      ensures Valid() && Ever() >= old(Ever()) && View() - {id} == old(View()) - {id}
    {
      OthersStayOk(id);
      assert old(InRepr(id));
      forall i | i in activeMonitors ensures InRepr(i) {
        assert old(InRepr(i)) && old(Apart(id, i));
      }
      NothingForgotten();
      OthersLookTheSame(id);
    }

    method NewMonitor(config: ServerConfig, env: Iteration) returns (monitor: ComponentManager)
      requires Distinct(services)
      ensures fresh(monitor) && fresh(monitor.launched) && ManagerOk(monitor) && monitor.enabled == config.enabled
      ensures monitor.activeComponents.Keys == Outcome(services, config, env, None)
    {
      monitor := new ComponentManager(services, config.enabled);
      assert monitor.activeComponents.Keys == {};
      monitor.Start(Alive(env, config.id), Asks(env, config.id), config.id in env.startRaises);
    }

    method Register(id: ServerId, monitor: ComponentManager)
      requires Valid() && id !in activeMonitors
      requires ManagerOk(monitor) && monitor !in repr && monitor.launched !! repr
      modifies this`activeMonitors, this`repr
      ensures Valid() && activeMonitors == old(activeMonitors)[id := monitor]
      ensures repr == old(repr) + {monitor} + monitor.launched && Ever() >= old(Ever())
      ensures View() == old(View())[id := ServerView(monitor, old(monitor.enabled), old(monitor.activeComponents))]
    {
      activeMonitors := activeMonitors[id := monitor];
      repr := repr + {monitor} + monitor.launched;
      MonitorAdded(id);
      PutBack(View(), old(View()), id);
    }

    /** A manager of its own is entered; the monitor is in order. */
    twostate lemma MonitorAdded(id: ServerId)
      requires old(Valid()) && id !in old(activeMonitors) && id in activeMonitors
      requires activeMonitors == old(activeMonitors)[id := activeMonitors[id]] && retired == old(retired)
      requires repr == old(repr) + {activeMonitors[id]} + activeMonitors[id].launched && this !in repr
      requires ManagerOk(activeMonitors[id])
      requires activeMonitors[id] !in old(repr) && activeMonitors[id].launched !! old(repr)
      requires forall j | j in old(activeMonitors) ::
                 unchanged(old(activeMonitors)[j]) && unchanged(old(activeMonitors[j].launched))
      requires forall r | r in retired :: unchanged(r)
      ensures Valid() && Ever() >= old(Ever()) && View() - {id} == old(View()) - {id}
    {
      OthersStayOk(id);
      forall i | i in activeMonitors && i != id ensures InRepr(i) && Apart(i, id) && Apart(id, i) {
        assert old(InRepr(i));
      }
      assert InRepr(id);
      NothingForgotten();
      OthersLookTheSame(id);
    }

    /** A monitor is entered in the table only after its start, which swallows every exception. */
    method AddServer(config: ServerConfig, env: Iteration)
      requires Valid() && config.id !in activeMonitors
      modifies this`activeMonitors, this`repr
      ensures Valid() && config.id in View() && View() == old(View())[config.id := View()[config.id]]
      ensures Served(services, config, env, None, View()[config.id])
      ensures repr >= old(repr) && fresh(repr - old(repr)) && Ever() >= old(Ever())
    {
      var monitor := NewMonitor(config, env);
      Register(config.id, monitor);
    }

    method UpdateServer(config: ServerConfig, env: Iteration)
      requires Valid() && config.id in activeMonitors
      modifies this`repr, activeMonitors[config.id], activeMonitors[config.id].launched
      ensures Valid() && config.id in View() && View() == old(View())[config.id := View()[config.id]]
      ensures Served(services, config, env, Some(old(View())[config.id]), View()[config.id])
      ensures repr >= old(repr) && fresh(repr - old(repr)) && Ever() >= old(Ever())
    {
      var monitor := activeMonitors[config.id];
      assert InRepr(config.id) && forall j | j in activeMonitors && j != config.id :: InRepr(j) && Apart(config.id, j);
      monitor.UpdateConfig(config.enabled, Alive(env, config.id), Asks(env, config.id));
      repr := repr + monitor.launched;
      MonitorChanged(config.id);
      PutBack(View(), old(View()), config.id);
    }

    method HeartbeatServer(id: ServerId, alive: string -> bool)
      requires Valid() && id in activeMonitors
      modifies this, repr
      ensures Valid() && repr == old(repr) && Ever() >= old(Ever()) && iteration == old(iteration)
      ensures id in View() && View() == old(View())[id := View()[id]] && Beaten(alive, old(View())[id], View()[id])
    {
      var monitor := activeMonitors[id];
      assert InRepr(id) && forall j | j in activeMonitors && j != id :: InRepr(j) && Apart(id, j);
      monitor.Heartbeat(alive);
      assert repr == repr + monitor.launched;
      MonitorChanged(id);
      PutBack(View(), old(View()), id);
    }

    /** Stops the server if it is not configured any more. */
    method StopIfDropped(id: ServerId, configs: seq<ServerConfig>, env: Iteration)
      requires Valid() && id in activeMonitors
      modifies this, repr
      ensures Valid() && repr == old(repr) && Ever() >= old(Ever()) && iteration == old(iteration)
      ensures View() == if id in ServerIds(configs) then old(View()) else old(View()) - {id}
    {
      if id !in ServerIds(configs) {
        assert InRepr(id);
        StopServer(id, Asks(env, id), Alive(env, id));
      }
    }

    /** Exactly the configured servers keep their monitors, and those as they were. */
    method StopDisabledServers(configs: seq<ServerConfig>, env: Iteration)
      requires Valid()
      modifies this, repr
      ensures Valid() && repr == old(repr) && Ever() >= old(Ever()) && iteration == old(iteration)
      ensures View() == old(View()) - (old(View().Keys) - ServerIds(configs)) && activeMonitors.Keys <= ServerIds(configs)
    {
      var todo := activeMonitors.Keys;
      ghost var before := View();
      ghost var now := before;
      assert before.Keys - ServerIds(configs) - todo == {} && before - {} == before;
      while todo != {}
        invariant Valid() && repr == old(repr) && Ever() >= old(Ever()) && iteration == old(iteration)
        invariant now == View() && todo <= now.Keys && HalfStopped(configs, before, now, todo)
        decreases todo
      {
        var id :| id in todo;
        StopIfDropped(id, configs, env);
        HalfStoppedNext(configs, before, now, todo, id);
        todo := todo - {id};
        now := View();
      }
      AllStoppedThen(configs, before, now);
    }

    /** The dropped servers have been stopped, but for those in `todo`. */
    ghost predicate HalfStopped(configs: seq<ServerConfig>, before: Views, now: Views, todo: set<ServerId>) {
      now == before - (before.Keys - ServerIds(configs) - todo)
    }

    lemma HalfStoppedNext(configs: seq<ServerConfig>, before: Views, now: Views, todo: set<ServerId>, id: ServerId)
      requires id in todo && todo <= now.Keys && HalfStopped(configs, before, now, todo)
      ensures var next := if id in ServerIds(configs) then now else now - {id};
              HalfStopped(configs, before, next, todo - {id}) && todo - {id} <= next.Keys
    {
      var gone := before.Keys - ServerIds(configs) - (todo - {id});
      if id in ServerIds(configs) {
        assert before.Keys - ServerIds(configs) - todo == gone;
      } else {
        assert before.Keys - ServerIds(configs) - todo + {id} == gone;
        MinusMinus(before, before.Keys - ServerIds(configs) - todo, {id});
      }
    }

    lemma AllStoppedThen(configs: seq<ServerConfig>, before: Views, now: Views)
      requires HalfStopped(configs, before, now, {})
      ensures now == before - (before.Keys - ServerIds(configs)) && now.Keys <= ServerIds(configs)
    {
      assert before.Keys - ServerIds(configs) - {} == before.Keys - ServerIds(configs);
    }

    /** Updates the server's monitor or creates it; creating one may raise, and then nothing changes. */
    method EnsureServer(config: ServerConfig, env: Iteration) returns (ok: bool)
      requires Valid()
      modifies this, repr
      ensures Valid() && repr >= old(repr) && fresh(repr - old(repr)) && Ever() >= old(Ever()) && iteration == old(iteration)
      ensures ok <==> !CannotCreate(config, env, old(View()))
      ensures if !ok then View() == old(View())
              else config.id in View() && View() == old(View())[config.id := View()[config.id]]
                   && Served(services, config, env, Was(old(View()), config.id), View()[config.id])
    {
      ok := config.id in activeMonitors || config.id !in env.trackingRaises;
      if config.id in activeMonitors {
        assert InRepr(config.id);
        UpdateServer(config, env);
      } else if ok {
        AddServer(config, env);
      }
    }

    /** Creating a monitor for a server that has none raises. */
    ghost predicate CannotCreate(config: ServerConfig, env: Iteration, before: Views) {
      config.id !in before && config.id in env.trackingRaises
    }

    /** Servers in `configs[..k]` have been seen to, and those in `configs[k..]` are as before. */
    ghost predicate SeenTo(configs: seq<ServerConfig>, k: nat, env: Iteration, before: Views, now: Views)
      requires k <= |configs|
    {
      && (forall j | 0 <= j < k ::
            configs[j].id in now && Served(services, configs[j], env, Was(before, configs[j].id), now[configs[j].id]))
      && (forall j | k <= j < |configs| :: Was(now, configs[j].id) == Was(before, configs[j].id))
    }

    lemma SeenToNext(configs: seq<ServerConfig>, k: nat, env: Iteration, before: Views, now: Views, view: ServerView)
      requires k < |configs| && DistinctIds(configs) && SeenTo(configs, k, env, before, now)
      requires Served(services, configs[k], env, Was(now, configs[k].id), view)
      ensures SeenTo(configs, k + 1, env, before, now[configs[k].id := view])
    {
    }

    /** The configurations before `k` have been seen to, and creating a monitor for that one raised. */
    ghost predicate StuckAt(configs: seq<ServerConfig>, k: int, env: Iteration, before: Views, now: Views) {
      0 <= k < |configs| && CannotCreate(configs[k], env, before) && SeenTo(configs, k, env, before, now)
    }

    /** What an attempt to see to all the configurations comes to. */
    ghost predicate SeenToAll(configs: seq<ServerConfig>, env: Iteration, before: Views, now: Views, ok: bool) {
      && (ok <==> forall j | 0 <= j < |configs| :: !CannotCreate(configs[j], env, before))
      && now.Keys <= ServerIds(configs) && (ok ==> now.Keys == ServerIds(configs))
      && (DistinctIds(configs) ==>
            if ok then SeenTo(configs, |configs|, env, before, now) else exists k :: StuckAt(configs, k, env, before, now))
    }

    /** One turn of the loop over the configurations. */
    method SeeTo(configs: seq<ServerConfig>, k: nat, env: Iteration, ghost first: Views) returns (ok: bool)
      requires Valid() && k < |configs| && Progress(configs, k, env, first, View())
      modifies this, repr
      ensures Valid() && repr >= old(repr) && fresh(repr - old(repr)) && Ever() >= old(Ever()) && iteration == old(iteration)
      ensures if ok then Progress(configs, k + 1, env, first, View()) else SeenToAll(configs, env, first, View(), false)
    {
      ghost var now := View();
      ok := EnsureServer(configs[k], env);
      if ok {
        MoreProgress(configs, k, env, first, now, View()[configs[k].id]);
      } else {
        NoMoreProgress(configs, k, env, first, now);
      }
    }

    /** Stops dropped servers, then goes through the configurations until one raises. If none does, every server
        ends with what its configuration asks for. */
    method EnsureMonitoredServers(configs: seq<ServerConfig>, env: Iteration) returns (ok: bool)
      requires Valid()
      modifies this, repr
      ensures Valid() && repr >= old(repr) && fresh(repr - old(repr)) && Ever() >= old(Ever()) && iteration == old(iteration)
      ensures SeenToAll(configs, env, old(View()), View(), ok)
    {
      StopDisabledServers(configs, env);
      ok := true;
      var k := 0;
      ghost var first := old(View());
      StartSeenTo(configs, env, first, View());
      while ok && k < |configs|
        invariant 0 <= k <= |configs|
        invariant Valid() && repr >= old(repr) && fresh(repr - old(repr)) && Ever() >= old(Ever()) && iteration == old(iteration)
        invariant if ok then Progress(configs, k, env, first, View()) else SeenToAll(configs, env, first, View(), false)
        decreases |configs| - k
      {
        ok := SeeTo(configs, k, env, first);
        k := k + 1;
      }
      if ok {
        FullProgress(configs, env, first, View());
      }
    }

    /** So far nothing raised: the configurations before `k` have been seen to. */
    ghost predicate Progress(configs: seq<ServerConfig>, k: nat, env: Iteration, before: Views, now: Views)
      requires k <= |configs|
    {
      && now.Keys <= ServerIds(configs)
      && (forall j | 0 <= j < k :: configs[j].id in now && !CannotCreate(configs[j], env, before))
      && (forall j | k <= j < |configs| :: configs[j].id in now <==> configs[j].id in before || IdBefore(configs, k, configs[j].id))
      && (DistinctIds(configs) ==> SeenTo(configs, k, env, before, now))
    }

    ghost predicate IdBefore(configs: seq<ServerConfig>, k: nat, id: ServerId) {
      exists i | 0 <= i < k && i < |configs| :: configs[i].id == id
    }

    lemma NoMoreProgress(configs: seq<ServerConfig>, k: nat, env: Iteration, before: Views, now: Views)
      requires k < |configs| && Progress(configs, k, env, before, now) && CannotCreate(configs[k], env, now)
      ensures SeenToAll(configs, env, before, now, false)
    {
      assert CannotCreate(configs[k], env, before);
      assert DistinctIds(configs) ==> StuckAt(configs, k, env, before, now);
    }

    lemma FullProgress(configs: seq<ServerConfig>, env: Iteration, before: Views, now: Views)
      requires Progress(configs, |configs|, env, before, now)
      ensures SeenToAll(configs, env, before, now, true)
    {
      forall id | id in ServerIds(configs) ensures id in now {
        var c :| c in configs && c.id == id;
        var j :| 0 <= j < |configs| && configs[j] == c;
      }
    }

    lemma StartSeenTo(configs: seq<ServerConfig>, env: Iteration, before: Views, now: Views)
      requires now == before - (before.Keys - ServerIds(configs))
      ensures Progress(configs, 0, env, before, now)
    {
      forall j | 0 <= j < |configs| ensures Was(now, configs[j].id) == Was(before, configs[j].id) {
        assert configs[j].id in ServerIds(configs);
      }
    }

    lemma MoreProgress(configs: seq<ServerConfig>, k: nat, env: Iteration, before: Views, now: Views, view: ServerView)
      requires k < |configs| && Progress(configs, k, env, before, now) && !CannotCreate(configs[k], env, now)
      requires Served(services, configs[k], env, Was(now, configs[k].id), view)
      ensures Progress(configs, k + 1, env, before, now[configs[k].id := view])
    {
      assert configs[k].id in ServerIds(configs);
      if IdBefore(configs, k, configs[k].id) {
        var i :| 0 <= i < k && configs[i].id == configs[k].id;
        assert !CannotCreate(configs[i], env, before);
      }
      if DistinctIds(configs) {
        SeenToNext(configs, k, env, before, now, view);
      }
    }

    method Heartbeat(env: Iteration)
      requires Valid()
      modifies this, repr
      ensures Valid() && repr == old(repr) && Ever() >= old(Ever()) && iteration == old(iteration)
      ensures View().Keys == old(View().Keys)
      ensures forall id | id in View() :: Beaten(AliveLater(env, id), old(View())[id], View()[id])
    {
      var todo := activeMonitors.Keys;
      ghost var before := View();
      ghost var now := before;
      while todo != {}
        invariant Valid() && repr == old(repr) && Ever() >= old(Ever()) && iteration == old(iteration)
        invariant now == View() && todo <= now.Keys == before.Keys && HalfBeaten(env, before, now, todo)
        decreases todo
      {
        var id :| id in todo;
        HeartbeatServer(id, AliveLater(env, id));
        HalfBeatenNext(env, before, now, todo, id, View()[id]);
        todo := todo - {id};
        now := View();
      }
    }

    /** The heartbeat has been through all servers but those in `todo`. */
    ghost predicate HalfBeaten(env: Iteration, before: Views, now: Views, todo: set<ServerId>) {
      forall id | id in now ::
        id in before && if id in todo then now[id] == before[id] else Beaten(AliveLater(env, id), before[id], now[id])
    }

    lemma HalfBeatenNext(env: Iteration, before: Views, now: Views, todo: set<ServerId>, id: ServerId, view: ServerView)
      requires id in todo && todo <= now.Keys && HalfBeaten(env, before, now, todo)
      requires Beaten(AliveLater(env, id), now[id], view)
      ensures HalfBeaten(env, before, now[id := view], todo - {id})
      ensures now[id := view].Keys == now.Keys
    {
    }

    lemma IteratedAll(configs: seq<ServerConfig>, env: Iteration, before: Views, served: Views, now: Views)
      requires SeenTo(configs, |configs|, env, before, served) && now.Keys == served.Keys
      requires forall id | id in now :: Beaten(AliveLater(env, id), served[id], now[id])
      ensures forall c | c in configs :: c.id in now && Iterated(services, c, env, Was(before, c.id), now[c.id])
    {
      forall c | c in configs ensures c.id in now && Iterated(services, c, env, Was(before, c.id), now[c.id]) {
        var j :| 0 <= j < |configs| && configs[j] == c;
        assert Served(services, c, env, Was(before, c.id), served[c.id]);
      }
    }

    /** What one iteration makes of the servers, whether it raises or not. */
    ghost predicate Stepped(env: Iteration, before: Views, now: Views) {
      match env.configs
      case None => now == before
      case Some(configs) =>
        if exists j | 0 <= j < |configs| :: CannotCreate(configs[j], env, before) then SeenToAll(configs, env, before, now, false)
        else
          && now.Keys == ServerIds(configs)
          && (DistinctIds(configs) ==>
                forall c | c in configs :: c.id in now && Iterated(services, c, env, Was(before, c.id), now[c.id]))
    }

    /** One iteration. If nothing raises, exactly the configured servers have a monitor, each as its configuration asks. */
    method RunOnce(env: Iteration) returns (ok: bool)
      requires Valid()
      modifies this, repr
      ensures Valid() && repr >= old(repr) && fresh(repr - old(repr)) && Ever() >= old(Ever()) && iteration == old(iteration)
      ensures Stepped(env, old(View()), View())
      ensures ok <==> env.configs.Some? && forall c | c in env.configs.value :: !CannotCreate(c, env, old(View()))
    {
      if env.configs.None? {
        return false;
      }
      ok := EnsureMonitoredServers(env.configs.value, env);
      if ok {
        ghost var served := View();
        Heartbeat(env);
        if DistinctIds(env.configs.value) {
          IteratedAll(env.configs.value, env, old(View()), served, View());
        }
      }
    }

    predicate ShouldStop(env: Iteration)
      reads this
    {
      (numberOfIterations > 0 && iteration >= numberOfIterations) || env.timeUp
    }

    lemma AllStopped()
      requires Valid() && activeMonitors.Keys == {}
      ensures forall r | r in Ever() :: r.started && r.stopped
    {
    }

    method CountIteration()
      requires Valid()
      modifies this`iteration
      ensures Valid() && Ever() >= old(Ever()) && iteration == old(iteration) + 1
    {
      iteration := iteration + 1;
    }

    /** One turn of the main loop; `reached` are the servers after the iteration, before they are stopped at the end. */
    method Turn(env: Iteration) returns (ended: bool, ghost reached: Views)
      requires Valid()
      modifies this, repr
      ensures Valid() && repr >= old(repr) && fresh(repr - old(repr)) && Ever() >= old(Ever())
      ensures iteration == old(iteration) + 1 && ended == ShouldStop(env)
      ensures Stepped(env, old(View()), reached) && View() == if ended then map[] else reached
    {
      CountIteration();
      var ok := RunOnce(env);
      reached := View();
      ended := ShouldStop(env);
      if ended {
        StopDisabledServers([], env);
        NoServersLeft();
      }
    }

    lemma NoServersLeft()
      requires activeMonitors.Keys <= ServerIds([])
      ensures View() == map[]
    {
      assert View().Keys == {};
    }

    method Loop(envs: seq<Iteration>) returns (ended: bool, ghost views: seq<Views>)
      requires Valid() && iteration == 0
      modifies this, repr
      ensures Valid() && Ever() >= old(Ever()) && iteration <= |envs|
      ensures Viewed(envs, old(View()), views, iteration) && View() == if ended then map[] else views[iteration]
      ensures Ended(envs, iteration, ended) && (!ended ==> iteration == |envs|)
    {
      ended, views := false, [View()];
      while !ended && iteration < |envs|
        invariant iteration <= |envs|
        invariant Valid() && repr >= old(repr) && fresh(repr - old(repr)) && Ever() >= old(Ever())
        invariant Viewed(envs, old(View()), views, iteration) && View() == if ended then map[] else views[iteration]
        invariant Ended(envs, iteration, ended)
        decreases |envs| - iteration
      {
        ghost var k := iteration;
        ghost var reached: Views;
        ended, reached := Turn(envs[iteration]);
        ViewedNext(envs, old(View()), views, k, reached);
        EndedNext(envs, k);
        views := views + [reached];
      }
    }

    lemma ViewedNext(envs: seq<Iteration>, before: Views, views: seq<Views>, k: nat, reached: Views)
      requires k < |envs| && Viewed(envs, before, views, k) && Stepped(envs[k], views[k], reached)
      ensures Viewed(envs, before, views + [reached], k + 1)
    {
    }

    lemma EndedNext(envs: seq<Iteration>, k: nat)
      requires k < |envs| && Ended(envs, k, false)
      ensures Ended(envs, k + 1, envs[k].timeUp || (numberOfIterations > 0 && k + 1 >= numberOfIterations))
    {
      assert k > 0 ==> !IsLast(envs, k - 1);
    }

    /** The main loop over what each iteration meets; an exception in one is logged and the loop goes on.
        `ended` tells whether the loop returned; if not, the history simply stops being observed.
        It returns after the first iteration at which the time is up, or which is the last of a limited number.
        `views[k]` are the servers after `k` iterations. When it returned, every runner ever started has been stopped. */
    method Run(envs: seq<Iteration>) returns (ended: bool, ghost views: seq<Views>)
      requires Valid() && iteration == 0
      modifies this, repr
      ensures Valid() && Ever() >= old(Ever())
      ensures ended <==> exists k | 0 <= k < |envs| :: envs[k].timeUp || (numberOfIterations > 0 && k + 1 >= numberOfIterations)
      ensures if ended then 0 < iteration <= |envs| else iteration == |envs|
      ensures ended ==> envs[iteration - 1].timeUp || (numberOfIterations > 0 && iteration >= numberOfIterations)
      ensures forall k | 0 <= k < iteration - 1 :: !envs[k].timeUp && (numberOfIterations > 0 ==> k + 1 < numberOfIterations)
      ensures ended <==> LastIteration(numberOfIterations, envs, 0).Some?
      ensures ended ==> Some(iteration) == LastIteration(numberOfIterations, envs, 0)
      ensures |views| == iteration + 1 && views[0] == old(View())
      ensures forall k | 0 <= k < iteration :: Stepped(envs[k], views[k], views[k + 1])
      ensures View() == if ended then map[] else views[iteration]
      ensures ended ==> forall r | r in Ever() :: r.started && r.stopped
    {
      ended, views := Loop(envs);
      if ended {
        AllStopped();
      }
      EndedIs(envs, iteration, ended);
    }

    lemma EndedIs(envs: seq<Iteration>, k: nat, ended: bool)
      requires k <= |envs| && Ended(envs, k, ended) && (!ended ==> k == |envs|)
      ensures LastIteration(numberOfIterations, envs, 0) == if ended then Some(k) else None
      ensures ended <==> exists i | 0 <= i < |envs| :: envs[i].timeUp || (numberOfIterations > 0 && i + 1 >= numberOfIterations)
      ensures ended ==> 0 < k && (envs[k - 1].timeUp || (numberOfIterations > 0 && k >= numberOfIterations))
      ensures forall i | 0 <= i < k - 1 :: !envs[i].timeUp && (numberOfIterations > 0 ==> i + 1 < numberOfIterations)
    {
      assert envs[0..] == envs;
      LastFrom(envs, 0, k, ended);
      forall i | 0 <= i < |envs| ensures IsLast(envs, i) == (envs[i].timeUp || (numberOfIterations > 0 && i + 1 >= numberOfIterations)) {
      }
      assert ended ==> IsLast(envs, k - 1);
    }

    lemma {:induction false} LastFrom(envs: seq<Iteration>, i: nat, k: nat, ended: bool)
      requires i <= k <= |envs| && Ended(envs, k, ended) && (ended ==> i < k) && (!ended ==> k == |envs|)
      ensures LastIteration(numberOfIterations, envs[i..], i) == if ended then Some(k) else None
      decreases k - i
    {
      if i < |envs| {
        assert envs[i..][0] == envs[i] && envs[i..][1..] == envs[i + 1..];
        assert IsLast(envs, i) ==> ended && i == k - 1;
        if !IsLast(envs, i) {
          LastFrom(envs, i + 1, k, ended);
        }
      }
    }

    ghost predicate Viewed(envs: seq<Iteration>, before: Views, views: seq<Views>, k: nat)
      requires k <= |envs|
    {
      && |views| == k + 1 && views[0] == before
      && forall i | 0 <= i < k :: Stepped(envs[i], views[i], views[i + 1])
    }

    /** None of the first `k` iterations was to be the last, except that the `k`-th was if the loop has ended. */
    ghost predicate Ended(envs: seq<Iteration>, k: nat, ended: bool)
      requires k <= |envs|
    {
      && (forall i | 0 <= i < k - 1 :: !IsLast(envs, i))
      && (if ended then k > 0 && IsLast(envs, k - 1) else k > 0 ==> !IsLast(envs, k - 1))
    }

    ghost predicate IsLast(envs: seq<Iteration>, k: nat)
      requires k < |envs|
    {
      envs[k].timeUp || (numberOfIterations > 0 && k + 1 >= numberOfIterations)
    }
  }
}
