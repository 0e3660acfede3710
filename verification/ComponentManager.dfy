/** One server's component manager: a runner per enabled component, reconciled on every config change. */
module ComponentManagers {
  import opened Common

  /** A component's runner. It may die at any time; its owner only learns of it by asking whether it is alive. */
  class Runner {
    var started: bool
    var stopped: bool

    constructor ()
      ensures !started && !stopped
    {
      started, stopped := false, false;
    }

    method Start()
      modifies this`started
      ensures started
    {
      started := true;
    }

    method Stop()
      modifies this`stopped
      ensures stopped
    {
      stopped := true;
    }
  }

  // ----- the set of active components after reconciling -----

  /** One pass over the services in order. `answer` is what the liveness check said so far: it is asked only when
      something has to start, and asked again for the next component when it failed to answer. */
  function Reconcile(services: seq<string>, enabled: set<string>, stopping: bool, active: set<string>,
                     ask: string -> Option<bool>, answer: Option<bool>): set<string>
  {
    if services == [] then active
    else
      var n := services[0];
      if n in enabled && n !in active && !stopping then
        var a := if answer.None? then ask(n) else answer;
        Reconcile(services[1..], enabled, stopping, if a == Some(true) then active + {n} else active, ask, a)
      else if n in active && (stopping || n !in enabled) then
        Reconcile(services[1..], enabled, stopping, active - {n}, ask, answer)
      else Reconcile(services[1..], enabled, stopping, active, ask, answer)
  }

  /** The active components that answer that they are alive; a failing check reads as dead. */
  function Live(active: set<string>, alive: string -> bool): set<string> {
    set n | n in active && alive(n)
  }

  ghost predicate Distinct(services: seq<string>) {
    forall i, j | 0 <= i < j < |services| :: services[i] != services[j]
  }

  /** Components outside the remaining services are not touched, and once stopping every service is out. */
  lemma {:induction false} ReconcileStopping(services: seq<string>, enabled: set<string>, active: set<string>,
                                             ask: string -> Option<bool>, answer: Option<bool>)
    ensures Reconcile(services, enabled, true, active, ask, answer) == active - (set n | n in services)
  {
    if services != [] {
      var n := services[0];
      assert services == [n] + services[1..];
      ReconcileStopping(services[1..], enabled, active - {n}, ask, answer);
      ReconcileStopping(services[1..], enabled, active, ask, answer);
    }
  }

  /** The liveness check has said yes by the time service `i` is reached: a missing enabled service at or before `i`
      was the first to get an answer, and the answer was yes. */
  ghost predicate SaidAlive(services: seq<string>, enabled: set<string>, active: set<string>,
                            ask: string -> Option<bool>, answer: Option<bool>, i: nat)
    requires i < |services|
  {
    || answer == Some(true)
    || (answer.None? && exists j :: FirstAnswer(services, enabled, active, ask, i, j))
  }

  ghost predicate Missing(n: string, enabled: set<string>, active: set<string>) { n in enabled && n !in active }

  ghost predicate FirstAnswer(services: seq<string>, enabled: set<string>, active: set<string>,
                              ask: string -> Option<bool>, i: nat, j: int)
    requires i < |services|
  {
    && 0 <= j <= i && Missing(services[j], enabled, active) && ask(services[j]) == Some(true)
    && forall k | 0 <= k < j && Missing(services[k], enabled, active) :: ask(services[k]).None?
  }

  lemma {:induction false} ReconcileOutside(services: seq<string>, enabled: set<string>, stopping: bool, active: set<string>,
                                            ask: string -> Option<bool>, answer: Option<bool>, n: string)
    requires n !in services
    ensures n in Reconcile(services, enabled, stopping, active, ask, answer) <==> n in active
  {
    if services != [] {
      var m := services[0];
      var a := if answer.None? then ask(m) else answer;
      assert services == [m] + services[1..];
      ReconcileOutside(services[1..], enabled, stopping, active + {m}, ask, a, n);
      ReconcileOutside(services[1..], enabled, stopping, active, ask, a, n);
      ReconcileOutside(services[1..], enabled, stopping, active - {m}, ask, answer, n);
      ReconcileOutside(services[1..], enabled, stopping, active, ask, answer, n);
    }
  }

  /** Reconciling reaches its target: a service is active afterwards exactly when it is enabled and was active and alive,
      or was missing and the server had answered alive by then. */
  lemma {:induction false} ReconcileTarget(services: seq<string>, enabled: set<string>, active: set<string>,
                                           ask: string -> Option<bool>, answer: Option<bool>, i: nat)
    requires Distinct(services) && i < |services|
    ensures services[i] in Reconcile(services, enabled, false, active, ask, answer)
            <==> services[i] in enabled && (services[i] in active || SaidAlive(services, enabled, active, ask, answer, i))
  {
    var m, rest := services[0], services[1..];
    assert services == [m] + rest;
    var missing := Missing(m, enabled, active);
    var a := if missing && answer.None? then ask(m) else answer;
    var next := if missing then (if a == Some(true) then active + {m} else active)
                else if m in active && m !in enabled then active - {m} else active;
    assert Reconcile(services, enabled, false, active, ask, answer) == Reconcile(rest, enabled, false, next, ask, a);
    if i == 0 {
      ReconcileOutside(rest, enabled, false, next, ask, a, m);
      if missing && answer.None? {
        FirstAnswerAtHead(services, enabled, active, ask, answer);
      }
    } else {
      ReconcileTarget(rest, enabled, next, ask, a, i - 1);
      FirstAnswerShift(services, enabled, active, next, ask, answer, a, i);
    }
  }

  lemma FirstAnswerAtHead(services: seq<string>, enabled: set<string>, active: set<string>,
                          ask: string -> Option<bool>, answer: Option<bool>)
    requires services != [] && Missing(services[0], enabled, active) && answer.None?
    ensures SaidAlive(services, enabled, active, ask, answer, 0) <==> ask(services[0]) == Some(true)
  {
    if ask(services[0]) == Some(true) {
      assert FirstAnswer(services, enabled, active, ask, 0, 0);
    }
  }

  lemma FirstAnswerShift(services: seq<string>, enabled: set<string>, active: set<string>, next: set<string>,
                         ask: string -> Option<bool>, answer: Option<bool>, a: Option<bool>, i: nat)
    requires Distinct(services) && 0 < i < |services|
    requires forall n :: n != services[0] ==> (n in next <==> n in active)
    requires a == if Missing(services[0], enabled, active) && answer.None? then ask(services[0]) else answer
    ensures SaidAlive(services, enabled, active, ask, answer, i)
            <==> SaidAlive(services[1..], enabled, next, ask, a, i - 1)
  {
    var rest, prev := services[1..], i - 1;
    assert forall k | 0 <= k < |rest| :: Missing(rest[k], enabled, next) == Missing(services[k + 1], enabled, active);
    if answer.None? {
      if j :| FirstAnswer(services, enabled, active, ask, i, j) {
        if j > 0 {
          assert FirstAnswer(rest, enabled, next, ask, prev, j - 1);
        }
      }
      if a.None? {
        if j :| FirstAnswer(rest, enabled, next, ask, prev, j) {
          assert FirstAnswer(services, enabled, active, ask, i, j + 1);
        }
      } else if a == Some(true) {
        assert FirstAnswer(services, enabled, active, ask, i, 0);
      }
    }
  }

  // ----- the manager -----

  ghost predicate Running(r: Runner)
    reads r
  {
    r.started && !r.stopped
  }

  /** From one table to the next nobody who is wanted lost or changed the runner, and nobody who is not wanted got one. */
  ghost predicate KeepsWanted(before: map<string, Runner>, after: map<string, Runner>, enabled: set<string>, stopping: bool) {
    && (forall n | n in before && n in enabled && !stopping :: n in after && after[n] == before[n])
    && (forall n | n in after && (n !in enabled || stopping) :: n in before && before[n] == after[n])
  }

  /** Whoever was active and alive, and still is active, has the same runner: it was not restarted. */
  ghost predicate SurvivorsKept(before: map<string, Runner>, after: map<string, Runner>, alive: string -> bool) {
    forall n | n in before && alive(n) && n in after :: after[n] == before[n]
  }

  class ComponentManager {
    const services: seq<string>
    var enabled: set<string>
    var activeComponents: map<string, Runner>
    var isStopping: bool
    /** Every runner this manager ever started. */
    ghost var launched: set<Runner>

    /** Exactly the active runners are running, each under one name. */
    ghost predicate Valid()
      reads this, launched
    {
      && Distinct(services)
      && (forall n | n in activeComponents :: n in services && activeComponents[n] in launched)
      && (forall m, n | m in activeComponents && n in activeComponents && m != n :: activeComponents[m] != activeComponents[n])
      && (forall r | r in launched :: r.started && (r.stopped <==> r !in activeComponents.Values))
    }

    constructor (services: seq<string>, enabled: set<string>)
      requires Distinct(services)
      ensures Valid() && launched == {} && activeComponents == map[] && !isStopping
      ensures this.services == services && this.enabled == enabled
    {
      this.services, this.enabled := services, enabled;
      activeComponents, isStopping, launched := map[], false, {};
    }

    /** Takes one component out and stops its runner. */
    method Drop(name: string)
      requires Valid() && name in activeComponents
      modifies this`activeComponents, activeComponents[name]
      ensures Valid() && activeComponents == old(activeComponents) - {name}
    {
      var component := activeComponents[name];
      activeComponents := activeComponents - {name};
      component.Stop();
      assert forall n | n in activeComponents :: n in old(activeComponents);
      forall r | r in launched ensures r.started && (r.stopped <==> r !in activeComponents.Values) {
        if r != component && r in old(activeComponents.Values) {
          var n :| n in old(activeComponents) && old(activeComponents)[n] == r;
          assert n in activeComponents && activeComponents[n] == r;
        }
      }
    }

    /** Starts a runner for a component that has none. */
    method Launch(name: string)
      requires Valid() && name in services && name !in activeComponents
      modifies this`activeComponents, this`launched
      ensures Valid() && name in activeComponents && activeComponents == old(activeComponents)[name := activeComponents[name]]
      ensures fresh(activeComponents[name]) && activeComponents.Keys == old(activeComponents.Keys) + {name}
      ensures launched >= old(launched) && fresh(launched - old(launched))
    {
      var r := new Runner();
      r.Start();
      activeComponents := activeComponents[name := r];
      launched := launched + {r};
      assert activeComponents[name] == r;
      forall q | q in launched ensures q.started && (q.stopped <==> q !in activeComponents.Values) {
        if q != r && q in old(activeComponents.Values) {
          var n :| n in old(activeComponents) && old(activeComponents)[n] == q;
          assert n in activeComponents && activeComponents[n] == q;
        }
      }
    }

    /** Drops every component that does not answer that it is alive, and no other. */
    method CleanDeadComponents(alive: string -> bool)
      requires Valid()
      modifies this`activeComponents, launched
      ensures Valid() && activeComponents.Keys == Live(old(activeComponents.Keys), alive)
      ensures forall n | n in activeComponents :: activeComponents[n] == old(activeComponents)[n]
    {
      var todo := activeComponents.Keys;
      while todo != {}
        invariant Valid() && todo <= activeComponents.Keys
        invariant activeComponents.Keys == todo + Live(old(activeComponents.Keys) - todo, alive)
        invariant forall n | n in activeComponents :: n in old(activeComponents) && activeComponents[n] == old(activeComponents)[n]
        decreases todo
      {
        var name :| name in todo;
        todo := todo - {name};
        if !alive(name) {
          Drop(name);
        }
      }
    }

    /** The loop body: starts the component, stops it, or leaves it. */
    method Visit(name: string, ask: string -> Option<bool>, asked: Option<bool>) returns (answer: Option<bool>)
      requires Valid() && name in services
      modifies this`activeComponents, this`launched, launched
      ensures Valid() && launched >= old(launched) && fresh(launched - old(launched))
      ensures isStopping ==> launched == old(launched)
      ensures KeepsWanted(old(activeComponents), activeComponents, enabled, isStopping)
      ensures forall rest :: Reconcile([name] + rest, enabled, isStopping, old(activeComponents.Keys), ask, asked)
                             == Reconcile(rest, enabled, isStopping, activeComponents.Keys, ask, answer)
    {
      answer := asked;
      if name in enabled && name !in activeComponents && !isStopping {
        if answer.None? {
          answer := ask(name);
        }
        if answer == Some(true) {
          Launch(name);
        }
      } else if name in activeComponents && (isStopping || name !in enabled) {
        Drop(name);
        assert activeComponents.Keys == old(activeComponents.Keys) - {name};
      }
      assert forall rest: seq<string> :: ([name] + rest)[0] == name && ([name] + rest)[1..] == rest;
    }

    method UpdateComponentState(alive: string -> bool, ask: string -> Option<bool>)
      requires Valid()
      modifies this`activeComponents, this`launched, launched
      ensures Valid()
      ensures activeComponents.Keys
              == Reconcile(services, enabled, isStopping, Live(old(activeComponents.Keys), alive), ask, None)
      ensures SurvivorsKept(old(activeComponents), activeComponents, alive)
      ensures launched >= old(launched) && fresh(launched - old(launched))
      ensures isStopping ==> launched == old(launched)
    {
      CleanDeadComponents(alive);
      ghost var kept := activeComponents;
      ghost var live := activeComponents.Keys;
      var answer: Option<bool> := None;
      assert services[0..] == services;
      for i := 0 to |services|
        invariant Valid() && launched >= old(launched) && fresh(launched - old(launched))
        invariant isStopping ==> launched == old(launched)
        invariant KeepsWanted(kept, activeComponents, enabled, isStopping)
        invariant Reconcile(services, enabled, isStopping, live, ask, None)
                  == Reconcile(services[i..], enabled, isStopping, activeComponents.Keys, ask, answer)
      {
        assert services[i..] == [services[i]] + services[i + 1..];
        answer := Visit(services[i], ask, answer);
      }
    }

    ghost predicate StoppedForGood()
      reads this
    {
      isStopping && activeComponents == map[]
    }

    lemma NothingLeft(live: set<string>, ask: string -> Option<bool>)
      requires Valid() && isStopping && live <= (set n | n in services)
      ensures Reconcile(services, enabled, isStopping, live, ask, None) == {}
    {
      ReconcileStopping(services, enabled, live, ask, None);
    }

    /** Stopping empties the active set, whatever was running and whatever the liveness check would say. */
    method Stop(alive: string -> bool, ask: string -> Option<bool>)
      requires Valid()
      modifies this`isStopping, this`activeComponents, this`launched, launched
      ensures Valid() && StoppedForGood() && launched == old(launched)
    {
      isStopping := true;
      ghost var live := Live(activeComponents.Keys, alive);
      UpdateComponentState(alive, ask);
      NothingLeft(live, ask);
    }

    /** Reporting the starting state may raise; then nothing is started now, and a later config change will do it. */
    method Start(alive: string -> bool, ask: string -> Option<bool>, reportRaises: bool)
      requires Valid()
      modifies this`activeComponents, this`launched, launched
      ensures Valid() && launched >= old(launched) && fresh(launched - old(launched))
      ensures activeComponents.Keys
              == if reportRaises then old(activeComponents.Keys)
                 else Reconcile(services, enabled, isStopping, Live(old(activeComponents.Keys), alive), ask, None)
      ensures SurvivorsKept(old(activeComponents), activeComponents, alive)
      ensures old(StoppedForGood()) ==> StoppedForGood() && launched == old(launched)
    {
      if reportRaises {
        return;
      }
      UpdateComponentState(alive, ask);
      if old(StoppedForGood()) {
        NothingLeft(Live(old(activeComponents.Keys), alive), ask);
      }
    }

    method UpdateConfig(newEnabled: set<string>, alive: string -> bool, ask: string -> Option<bool>)
      requires Valid()
      modifies this`enabled, this`activeComponents, this`launched, launched
      ensures Valid() && enabled == newEnabled
      ensures activeComponents.Keys
              == Reconcile(services, newEnabled, isStopping, Live(old(activeComponents.Keys), alive), ask, None)
      ensures SurvivorsKept(old(activeComponents), activeComponents, alive)
      ensures launched >= old(launched) && fresh(launched - old(launched))
      ensures old(StoppedForGood()) ==> StoppedForGood() && launched == old(launched)
    {
      enabled := newEnabled;
      UpdateComponentState(alive, ask);
      if old(StoppedForGood()) {
        NothingLeft(Live(old(activeComponents.Keys), alive), ask);
      }
    }

    /** The components' own heartbeats swallow their exceptions; afterwards the dead are dropped. */
    method Heartbeat(alive: string -> bool)
      requires Valid()
      modifies this`activeComponents, launched
      ensures Valid() && activeComponents.Keys == Live(old(activeComponents.Keys), alive)
      ensures SurvivorsKept(old(activeComponents), activeComponents, alive)
    {
      CleanDeadComponents(alive);
    }
  }

  datatype Call =
    | DoStart(alive: string -> bool, ask: string -> Option<bool>, raises: bool)
    | DoUpdate(enabled: set<string>, alive: string -> bool, ask: string -> Option<bool>)
    | DoHeartbeat(alive: string -> bool)

  /** Stop is permanent: no later sequence of calls makes the active set non-empty or starts a runner. */
  method CallsAfterStop(m: ComponentManager, alive: string -> bool, ask: string -> Option<bool>, calls: seq<Call>)
    requires m.Valid()
    modifies m, m.launched
    ensures m.Valid() && m.StoppedForGood()
    ensures m.launched == old(m.launched) && forall r | r in m.launched :: !Running(r)
  {
    m.Stop(alive, ask);
    for i := 0 to |calls|
      invariant m.Valid() && m.StoppedForGood() && m.launched == old(m.launched)
    {
      match calls[i]
      case DoStart(alive, ask, raises) => m.Start(alive, ask, raises);
      case DoUpdate(enabled, alive, ask) => m.UpdateConfig(enabled, alive, ask);
      case DoHeartbeat(alive) => m.Heartbeat(alive);
    }
  }
}
