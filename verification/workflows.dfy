/**
 * The three migration workflows of `Refactoring` and the clone step they
 * build on. Each workflow is one `try` block: a fixed sequence of calls to
 * Docker, the routing file and the gateway, in which the first exception
 * skips every later call.
 *
 * The outside world is abstract. A call either succeeds or throws a checked
 * exception (`DockerException`, `IOException`, `InterruptedException`), which
 * the workflow catches; what a successful call returns comes from an `Env`.
 * Unchecked exceptions (an index out of range, a failed cast) are not caught
 * and end the workflow with `Threw`.
 */
module Workflows {
  import opened Options
  import opened Text
  import opened RouteDoc
  import opened Containers
  import opened Routes

  /** An external call a workflow makes. */
  datatype Call =
    | Inspect(id: string)                                   // docker.inspectContainer
    | Create(image: string, name: string)                   // docker.createContainer
    | Connect(network: string, container: string, alias: string) // docker.connectToNetwork
    | ListBridge                                            // docker.listNetworks(byNetworkName("bridge"))
    | Disconnect(container: string, network: string)        // docker.disconnectFromNetwork
    | LoadConfig                                            // read the properties and the routing file
    | WriteConfig(doc: Entries)                             // dump the document over the routing file
    | Refresh                                               // refreshZuulRoutes: POST to the gateway
    | Stop(id: string, timeout: int)                        // docker.stopContainer
    | Remove(id: string)                                    // docker.removeContainer

  /**
   * The world the calls meet: the containers `inspect` knows, the id the
   * next `create` returns, the ids of the networks named `bridge`, and the
   * positions in the call log at which a call throws a checked exception.
   */
  datatype Env = Env(containers: map<string, ContainerInfo>, nextId: string, bridges: seq<string>, faults: set<nat>)

  /**
   * The call made at log position `at` throws a checked exception: the
   * environment says so, or it inspects a container that does not exist.
   */
  predicate Fails(env: Env, at: nat, c: Call) {
    at in env.faults || (c.Inspect? && c.id !in env.containers)
  }

  /** The routing file after a successful call. */
  function Apply(c: Call, file: Entries): Entries {
    if c.WriteConfig? then c.doc else file
  }

  /** How a workflow ends: it returns a value, or an unchecked exception escapes it. */
  datatype Outcome<T> = Returned(value: T) | Threw

  /**
   * A workflow when no call fails: the calls it makes, in order, and how it
   * ends once they have all succeeded.
   */
  datatype Script<T> = Script(calls: seq<Call>, fin: Outcome<T>)

  function Then<T>(c: Call, s: Script<T>): Script<T> {
    Script([c] + s.calls, s.fin)
  }

  function Finish<T>(fin: Outcome<T>): Script<T> {
    Script([], fin)
  }

  /** What a workflow did: the calls it made, how it ended, and the routing file afterwards. */
  datatype Run<T> = Run(calls: seq<Call>, outcome: Outcome<T>, file: Entries)

  /** Every call succeeds when the first one is made at log position `at`. */
  predicate Succeeds(calls: seq<Call>, env: Env, at: nat) {
    forall i :: 0 <= i < |calls| ==> !Fails(env, at + i, calls[i])
  }

  /** The document of the last write among `calls` that succeeded, or `file` when none did. */
  function LastWrite(calls: seq<Call>, env: Env, at: nat, file: Entries): Entries
    decreases |calls|
  {
    if calls == [] then file
    else
      var c := calls[|calls| - 1];
      if c.WriteConfig? && !Fails(env, at + |calls| - 1, c) then c.doc
      else LastWrite(calls[..|calls| - 1], env, at, file)
  }

  lemma {:induction false} LastWriteFirst(c: Call, rest: seq<Call>, env: Env, at: nat, file: Entries)
    ensures LastWrite([c] + rest, env, at, file) ==
      LastWrite(rest, env, at + 1, if Fails(env, at, c) then file else Apply(c, file))
    decreases |rest|
  {
    if rest != [] {
      var n := |rest|;
      assert ([c] + rest)[..n] == [c] + rest[..n - 1];
      LastWriteFirst(c, rest[..n - 1], env, at, file);
    }
  }

  /**
   * A script run in a `try` block whose `catch` returns `caught`: the calls
   * are made in order until one throws.
   */
  function Perform<T>(s: Script<T>, caught: T, env: Env, at: nat, file: Entries): Run<T>
    decreases |s.calls|
  {
    if s.calls == [] then Run([], s.fin, file)
    else
      var c := s.calls[0];
      if Fails(env, at, c) then Run([c], Returned(caught), file)
      else
        var rest := Perform(Script(s.calls[1..], s.fin), caught, env, at + 1, Apply(c, file));
        Run([c] + rest.calls, rest.outcome, rest.file)
  }

  /** Running a script that starts with `c`: make `c`, then run the rest unless `c` threw. */
  lemma PerformThen<T>(c: Call, s: Script<T>, caught: T, env: Env, at: nat, file: Entries)
    ensures Perform(Then(c, s), caught, env, at, file) ==
      if Fails(env, at, c) then Run([c], Returned(caught), file)
      else
        var rest := Perform(s, caught, env, at + 1, Apply(c, file));
        Run([c] + rest.calls, rest.outcome, rest.file)
  {
    assert Then(c, s).calls[1..] == s.calls;
  }

  /**
   * After `done`, a successful call `c` moves on to the rest of the script:
   * the calls still to come after `done + [c]` are those of the rest.
   */
  lemma Advance<T>(done: seq<Call>, c: Call, s: Script<T>, caught: T, env: Env, at: nat, file: Entries)
    requires !Fails(env, at, c)
    ensures var run := Perform(Then(c, s), caught, env, at, file);
      var rest := Perform(s, caught, env, at + 1, Apply(c, file));
      done + run.calls == (done + [c]) + rest.calls && run.outcome == rest.outcome && run.file == rest.file
  {
    PerformThen(c, s, caught, env, at, file);
    AppendAssoc(done, [c], Perform(s, caught, env, at + 1, Apply(c, file)).calls);
  }

  /** After `done`, a call `c` that throws ends the run in the `catch` block. */
  lemma Halt<T>(done: seq<Call>, c: Call, s: Script<T>, caught: T, env: Env, at: nat, file: Entries)
    requires Fails(env, at, c)
    ensures var run := Perform(Then(c, s), caught, env, at, file);
      done + run.calls == done + [c] && run.outcome == Returned(caught) && run.file == file
  {
    PerformThen(c, s, caught, env, at, file);
  }

  /** The calls made are a prefix of the script, and all but the last of them succeeded. */
  lemma {:induction false} PerformPrefix<T>(s: Script<T>, caught: T, env: Env, at: nat, file: Entries)
    decreases |s.calls|
    ensures var r := Perform(s, caught, env, at, file);
      && |r.calls| <= |s.calls| && r.calls == s.calls[..|r.calls|]
      && (forall i :: 0 <= i < |r.calls| - 1 ==> !Fails(env, at + i, r.calls[i]))
  {
    if s.calls != [] && !Fails(env, at, s.calls[0]) {
      var t := Script(s.calls[1..], s.fin);
      PerformPrefix(t, caught, env, at + 1, Apply(s.calls[0], file));
      var rest := Perform(t, caught, env, at + 1, Apply(s.calls[0], file));
      var r := Perform(s, caught, env, at, file);
      assert r.calls == [s.calls[0]] + rest.calls;
      forall i | 0 < i < |r.calls| - 1 ensures !Fails(env, at + i, r.calls[i]) {
        assert r.calls[i] == rest.calls[i - 1];
      }
    }
  }

  /** Every call succeeds exactly when the first does and every later one does. */
  lemma SucceedsCons(calls: seq<Call>, env: Env, at: nat)
    requires calls != []
    ensures Succeeds(calls, env, at) <==> !Fails(env, at, calls[0]) && Succeeds(calls[1..], env, at + 1)
  {
    if !Fails(env, at, calls[0]) && Succeeds(calls[1..], env, at + 1) {
      forall i | 0 < i < |calls| ensures !Fails(env, at + i, calls[i]) {
        assert calls[i] == calls[1..][i - 1];
      }
    }
  }

  /** When every call succeeds, all of them are made and the script's own ending is reached. */
  lemma {:induction false} PerformSucceeds<T>(s: Script<T>, caught: T, env: Env, at: nat, file: Entries)
    requires Succeeds(s.calls, env, at)
    decreases |s.calls|
    ensures Perform(s, caught, env, at, file).calls == s.calls
    ensures Perform(s, caught, env, at, file).outcome == s.fin
  {
    if s.calls != [] {
      SucceedsCons(s.calls, env, at);
      var t := Script(s.calls[1..], s.fin);
      PerformSucceeds(t, caught, env, at + 1, Apply(s.calls[0], file));
      assert s.calls == [s.calls[0]] + t.calls;
    }
  }

  /** When some call throws, the last call made is one that threw, and the `catch` value is returned. */
  lemma {:induction false} PerformFails<T>(s: Script<T>, caught: T, env: Env, at: nat, file: Entries)
    requires !Succeeds(s.calls, env, at)
    decreases |s.calls|
    ensures var r := Perform(s, caught, env, at, file);
      && r.calls != [] && Fails(env, at + |r.calls| - 1, r.calls[|r.calls| - 1]) && r.outcome == Returned(caught)
  {
    SucceedsCons(s.calls, env, at);
    if !Fails(env, at, s.calls[0]) {
      var t := Script(s.calls[1..], s.fin);
      PerformFails(t, caught, env, at + 1, Apply(s.calls[0], file));
      var rest := Perform(t, caught, env, at + 1, Apply(s.calls[0], file));
      var r := Perform(s, caught, env, at, file);
      assert r.calls == [s.calls[0]] + rest.calls;
      assert r.calls[|r.calls| - 1] == rest.calls[|rest.calls| - 1];
    }
  }

  /** Afterwards the file holds the last write that succeeded. */
  lemma {:induction false} PerformWrites<T>(s: Script<T>, caught: T, env: Env, at: nat, file: Entries)
    decreases |s.calls|
    ensures Perform(s, caught, env, at, file).file == LastWrite(Perform(s, caught, env, at, file).calls, env, at, file)
  {
    if s.calls != [] && !Fails(env, at, s.calls[0]) {
      var c := s.calls[0];
      var t := Script(s.calls[1..], s.fin);
      PerformWrites(t, caught, env, at + 1, Apply(c, file));
      LastWriteFirst(c, Perform(t, caught, env, at + 1, Apply(c, file)).calls, env, at, file);
    }
  }

  // ---------------------------------------------------------------------
  // The scripts of the workflows
  // ---------------------------------------------------------------------

  /**
   * `cloneContainer` (lines 72-120): inspect the source, create a container
   * from its image under the slash-free name, connect it to the source's
   * first network under the clone alias, look up the `bridge` network and
   * disconnect the clone from it. A checked failure returns `null`.
   */
  function CloneScript(env: Env, containerId: string, name: string): Script<Option<string>> {
    Then(Inspect(containerId), CloneInspected(env, containerId, name))
  }

  /** The clone after a successful inspection of the source. */
  function CloneInspected(env: Env, containerId: string, name: string): Script<Option<string>> {
    // an unknown container makes the inspection throw, so this ending is never reached
    if containerId !in env.containers then Finish(Returned(None))
    else CloneCreate(env, env.containers[containerId], name)
  }

  /** The clone after a successful inspection of the source `info`. */
  function CloneCreate(env: Env, info: ContainerInfo, name: string): Script<Option<string>> {
    Then(Create(info.image, CloneName(name)),
      match CloneEndpoint(info.networks)
      case None => Finish(Threw)
      case Some((network, alias)) => CloneConnect(env, network, alias))
  }

  /** The clone after its creation: join the network, then leave `bridge`. */
  function CloneConnect(env: Env, network: string, alias: string): Script<Option<string>> {
    Then(Connect(network, env.nextId, alias),
      Then(ListBridge, CloneDetach(env)))
  }

  function CloneDetach(env: Env): Script<Option<string>> {
    if env.bridges == [] then Finish(Threw)
    else Then(Disconnect(env.nextId, env.bridges[0]), Finish(Returned(Some(env.nextId))))
  }

  function CloneRun(env: Env, at: nat, file: Entries, containerId: string, name: string): Run<Option<string>> {
    Perform(CloneScript(env, containerId, name), None, env, at, file)
  }

  /**
   * Write the document the upsert produced and refresh the gateway;
   * `Threw` when a cast in the upsert threw.
   */
  function RouteTail<T>(upsert: Option<Entries>, result: T): Script<T> {
    match upsert
    case None => Finish(Threw)
    case Some(doc) => Then(WriteConfig(doc), Then(Refresh, Finish(Returned(result))))
  }

  /** Load the routing file, then publish what the upsert produced. */
  function Publish<T>(upsert: Option<Entries>, result: T): Script<T> {
    Then(LoadConfig, RouteTail(upsert, result))
  }

  /**
   * `moveFunctionToNewContainer` (lines 132-216): inspect the old container,
   * take its port, clone it (the clone catches its own failures), then add
   * a route to the new container under its name as given, write the file
   * and refresh. A checked failure returns whatever the clone returned, or
   * `null` before the clone.
   */
  function MoveToNewRun(env: Env, at: nat, file: Entries, containerId: string, serviceId: string,
                        newContainerName: string, functionName: string): Run<Option<string>>
  {
    if Fails(env, at, Inspect(containerId)) then Run([Inspect(containerId)], Returned(None), file)
    else
      match FirstPort(env.containers[containerId].ports)
      case None => Run([Inspect(containerId)], Threw, file)
      case Some(port) =>
        var clone := CloneRun(env, at + 1, file, containerId, newContainerName);
        var rest := AfterClone(env, at + 1, clone, serviceId, newContainerName, functionName, port);
        Run([Inspect(containerId)] + rest.calls, rest.outcome, rest.file)
  }

  /**
   * The move once `clone` has run from log position `at`: unless it threw,
   * the route to the new container is published, whatever it returned.
   */
  function AfterClone(env: Env, at: nat, clone: Run<Option<string>>, serviceId: string,
                      newContainerName: string, functionName: string, port: string): Run<Option<string>>
  {
    match clone.outcome
    case Threw => clone
    case Returned(newId) =>
      var key := RouteKey(functionName, newContainerName);
      var route := RouteRecord(serviceId, functionName, newContainerName, port);
      var rest := Perform(Publish(UpsertRoute(clone.file, key, route), newId),
                          newId, env, at + |clone.calls|, clone.file);
      Run(clone.calls + rest.calls, rest.outcome, rest.file)
  }

  /**
   * `moveFunctionToAnotherContainer` (lines 228-310): inspect the target,
   * take its port, load the file, add a route to the target under its name
   * without the leading `/`, write and refresh. Returns the target's id
   * however the calls go.
   */
  function MoveToAnotherScript(env: Env, file: Entries, serviceId: string, functionName: string,
                               otherContainerId: string): Script<string>
  {
    Then(Inspect(otherContainerId), MoveToAnotherTarget(env, file, serviceId, functionName, otherContainerId))
  }

  /** The move after a successful inspection of the target. */
  function MoveToAnotherTarget(env: Env, file: Entries, serviceId: string, functionName: string,
                               otherContainerId: string): Script<string>
  {
    // an unknown container makes the inspection throw, so this ending is never reached
    if otherContainerId !in env.containers then Finish(Returned(otherContainerId))
    else
      var info := env.containers[otherContainerId];
      match FirstPort(info.ports)
      case None => Finish(Threw)
      case Some(port) => Then(LoadConfig, MoveToAnotherEdit(file, serviceId, functionName, otherContainerId, info.name, port))
  }

  /** The move after the file was loaded, for a target named `name` listening on `port`. */
  function MoveToAnotherEdit(file: Entries, serviceId: string, functionName: string, otherContainerId: string,
                             name: string, port: string): Script<string>
  {
    match StripFirst(name)
    case None => Finish(Threw)
    case Some(host) =>
      RouteTail(UpsertRoute(file, RouteKey(functionName, host), RouteRecord(serviceId, functionName, host, port)),
                otherContainerId)
  }

  function MoveToAnotherRun(env: Env, at: nat, file: Entries, serviceId: string, functionName: string,
                            otherContainerId: string): Run<string>
  {
    Perform(MoveToAnotherScript(env, file, serviceId, functionName, otherContainerId),
            otherContainerId, env, at, file)
  }

  /** Refresh the gateway, stop the container with a 10-second timeout and remove it. */
  function Shutdown(containerId: string): Script<()> {
    Then(Refresh, Then(Stop(containerId, 10), Then(Remove(containerId), Finish(Returned(())))))
  }

  /**
   * `removeContainer` (lines 313-402): inspect the container, load the file,
   * clear its routes and write the file when `zuul.routes` exists, then shut
   * it down. `substring(1)` of its name is taken once per route key, so an
   * empty name throws only when there is a route.
   */
  function DecommissionScript(env: Env, file: Entries, containerId: string): Script<()>
  {
    Then(Inspect(containerId), DecommissionTarget(env, file, containerId))
  }

  /** The decommission after a successful inspection of the container. */
  function DecommissionTarget(env: Env, file: Entries, containerId: string): Script<()>
  {
    // an unknown container makes the inspection throw, so this ending is never reached
    if containerId !in env.containers then Finish(Returned(()))
    else Then(LoadConfig, DecommissionEdit(file, containerId, env.containers[containerId].name))
  }

  /** The decommission after the file was loaded, for a container named `name`. */
  function DecommissionEdit(file: Entries, containerId: string, name: string): Script<()>
  {
    match PurgeDoc(file, if name == [] then [] else name[1..])
    case Broken => Finish(Threw)
    case NoRoutes => Shutdown(containerId)
    case Purged(doc) =>
      if name == [] && RoutesOf(file).value != [] then Finish(Threw)
      else Then(WriteConfig(doc), Shutdown(containerId))
  }

  function DecommissionRun(env: Env, at: nat, file: Entries, containerId: string): Run<()>
  {
    Perform(DecommissionScript(env, file, containerId), (), env, at, file)
  }

  // ---------------------------------------------------------------------
  // The workflows, call by call
  // ---------------------------------------------------------------------

  /**
   * The refactoring service: the calls it has made so far, in order, and
   * the routing file they have left behind.
   */
  class Refactoring {
    var log: seq<Call>
    var routingFile: Entries

    /** The routing file is a document SnakeYAML loads: its maps hold every key once. */
    predicate Valid()
      reads this
    {
      DocOk(routingFile)
    }

    /**
     * A service that has made no call yet, over a routing file SnakeYAML
     * loads; the Docker client the constructors bind is not modelled.
     */
    constructor(file: Entries)
      requires DocOk(file)
      ensures Valid() && log == [] && routingFile == file
    {
      log := [];
      routingFile := file;
    }

    /**
     * Make one call: it is logged, it fails as the environment says, and
     * only a successful write changes the file.
     */
    method Invoke(env: Env, c: Call) returns (ok: bool)
      modifies this
      ensures ok == !Fails(env, |old(log)|, c)
      ensures log == old(log) + [c]
      ensures routingFile == if ok then Apply(c, old(routingFile)) else old(routingFile)
    {
      ok := !Fails(env, |log|, c);
      log := log + [c];
      if ok {
        routingFile := Apply(c, routingFile);
      }
    }

    /** `cloneContainer`: returns `Returned(None)` for `null`. */
    method CloneContainer(env: Env, containerId: string, name: string) returns (r: Outcome<Option<string>>)
      modifies this
      ensures routingFile == old(routingFile)
      ensures var run := CloneRun(env, |old(log)|, old(routingFile), containerId, name);
        log == old(log) + run.calls && r == run.outcome && routingFile == run.file
    {
      var inspect := Inspect(containerId);
      var ok := Invoke(env, inspect);
      if !ok {
        Halt(old(log), inspect, CloneInspected(env, containerId, name), None, env, |old(log)|, routingFile);
        return Returned(None);
      }
      Advance(old(log), inspect, CloneInspected(env, containerId, name), None, env, |old(log)|, routingFile);
      r := CreateClone(env, env.containers[containerId], name);
    }

    /** Lines 82-98: create the clone of the container `info`, then attach it. */
    method CreateClone(env: Env, info: ContainerInfo, name: string) returns (r: Outcome<Option<string>>)
      modifies this
      ensures routingFile == old(routingFile)
      ensures var run := Perform(CloneCreate(env, info, name), None, env, |old(log)|, old(routingFile));
        log == old(log) + run.calls && r == run.outcome && routingFile == run.file
    {
      var create := Create(info.image, CloneName(name));
      var endpoint := CloneEndpoint(info.networks);
      ghost var attach := if endpoint.None? then Finish(Threw)
                          else CloneConnect(env, endpoint.value.0, endpoint.value.1);
      var ok := Invoke(env, create);
      if !ok {
        Halt(old(log), create, attach, None, env, |old(log)|, routingFile);
        return Returned(None);
      }
      Advance(old(log), create, attach, None, env, |old(log)|, routingFile);
      if endpoint.None? {
        return Threw;
      }
      r := AttachClone(env, endpoint.value.0, endpoint.value.1);
    }

    /** Lines 87-98: connect the clone to `network` under `alias`, then disconnect it from `bridge`. */
    method AttachClone(env: Env, network: string, alias: string) returns (r: Outcome<Option<string>>)
      modifies this
      ensures routingFile == old(routingFile)
      ensures var run := Perform(CloneConnect(env, network, alias), None, env, |old(log)|, old(routingFile));
        log == old(log) + run.calls && r == run.outcome && routingFile == run.file
    {
      var newId := env.nextId;
      var connect := Connect(network, newId, alias);
      var ok := Invoke(env, connect);
      if !ok {
        Halt(old(log), connect, Then(ListBridge, CloneDetach(env)), None, env, |old(log)|, routingFile);
        return Returned(None);
      }
      Advance(old(log), connect, Then(ListBridge, CloneDetach(env)), None, env, |old(log)|, routingFile);
      ghost var l := log;
      ok := Invoke(env, ListBridge);
      if !ok {
        Halt(l, ListBridge, CloneDetach(env), None, env, |l|, routingFile);
        return Returned(None);
      }
      Advance(l, ListBridge, CloneDetach(env), None, env, |l|, routingFile);
      if env.bridges == [] {
        return Threw;
      }
      var detach := Disconnect(newId, env.bridges[0]);
      l := log;
      ok := Invoke(env, detach);
      if !ok {
        Halt(l, detach, Finish(Returned(Some(newId))), None, env, |l|, routingFile);
        return Returned(None);
      }
      Advance(l, detach, Finish(Returned(Some(newId))), None, env, |l|, routingFile);
      return Returned(Some(newId));
    }

    /**
     * Lines 164-202 and 258-296, after the file was loaded: add the route,
     * write the file, refresh the gateway, and return `result` unless a
     * cast throws.
     */
    method PublishRoute<T>(env: Env, key: string, route: Node, result: T) returns (r: Outcome<T>)
      requires Valid()
      modifies this
      ensures Valid()
      ensures var run := Perform(RouteTail(UpsertRoute(old(routingFile), key, route), result), result, env, |old(log)|, old(routingFile));
        log == old(log) + run.calls && r == run.outcome && routingFile == run.file
    {
      var doc := AddRoute(routingFile, key, route);
      if doc.None? {
        return Threw;
      }
      UpsertRouteSpec(routingFile, key, route);
      r := WriteAndRefresh(env, doc.value, result);
    }

    /** Write `doc` over the routing file, then refresh the gateway. */
    method WriteAndRefresh<T>(env: Env, doc: Entries, result: T) returns (r: Outcome<T>)
      requires DocOk(doc) && Valid()
      modifies this
      ensures Valid()
      ensures var run := Perform(Then(WriteConfig(doc), Then(Refresh, Finish(Returned(result)))), result, env,
                                 |old(log)|, old(routingFile));
        log == old(log) + run.calls && r == run.outcome && routingFile == run.file
    {
      var tail := Then(Refresh, Finish(Returned(result)));
      PerformThen(WriteConfig(doc), tail, result, env, |log|, routingFile);
      var ok := Invoke(env, WriteConfig(doc));
      if !ok {
        return Returned(result);
      }
      PerformThen(Refresh, Finish(Returned(result)), result, env, |log|, routingFile);
      ok := Invoke(env, Refresh);
      return Returned(result);
    }

    /** Lines 377-382: refresh the gateway, stop the container, remove it. */
    method RefreshAndRemove(env: Env, containerId: string) returns (r: Outcome<()>)
      modifies this
      ensures routingFile == old(routingFile)
      ensures var run := Perform(Shutdown(containerId), (), env, |old(log)|, old(routingFile));
        log == old(log) + run.calls && r == run.outcome && routingFile == run.file
    {
      var stop := Then(Stop(containerId, 10), Then(Remove(containerId), Finish(Returned(()))));
      PerformThen(Refresh, stop, (), env, |log|, routingFile);
      var ok := Invoke(env, Refresh);
      if !ok {
        return Returned(());
      }
      PerformThen(Stop(containerId, 10), Then(Remove(containerId), Finish(Returned(()))), (), env, |log|, routingFile);
      ok := Invoke(env, Stop(containerId, 10));
      if !ok {
        return Returned(());
      }
      PerformThen(Remove(containerId), Finish(Returned(())), (), env, |log|, routingFile);
      ok := Invoke(env, Remove(containerId));
      return Returned(());
    }

    /** `moveFunctionToNewContainer`: returns `Returned(None)` for `null`. */
    method MoveFunctionToNewContainer(env: Env, containerId: string, serviceId: string,
                                      newContainerName: string, functionName: string)
      returns (r: Outcome<Option<string>>)
      requires Valid()
      modifies this
      ensures Valid()
      ensures var run := MoveToNewRun(env, |old(log)|, old(routingFile), containerId, serviceId,
                                      newContainerName, functionName);
        log == old(log) + run.calls && r == run.outcome && routingFile == run.file
    {
      var newContainerId: Option<string> := None;
      var ok := Invoke(env, Inspect(containerId));
      if !ok {
        return Returned(newContainerId);
      }
      var info := env.containers[containerId];
      var port := FirstPort(info.ports);
      if port.None? {
        return Threw;
      }
      ghost var rest := AfterClone(env, |old(log)| + 1, CloneRun(env, |old(log)| + 1, routingFile, containerId, newContainerName),
                                   serviceId, newContainerName, functionName, port.value);
      ghost var l := log;
      r := CloneAndPublish(env, containerId, serviceId, newContainerName, functionName, port.value);
      assert log == l + rest.calls;
      AppendAssoc(old(log), [Inspect(containerId)], rest.calls);
    }

    /** Lines 145-202, after the port was read: clone the container, then route to the clone. */
    method CloneAndPublish(env: Env, containerId: string, serviceId: string, newContainerName: string,
                           functionName: string, port: string)
      returns (r: Outcome<Option<string>>)
      requires Valid()
      modifies this
      ensures Valid()
      ensures var run := AfterClone(env, |old(log)|, CloneRun(env, |old(log)|, old(routingFile), containerId, newContainerName),
                                    serviceId, newContainerName, functionName, port);
        log == old(log) + run.calls && r == run.outcome && routingFile == run.file
    {
      ghost var clone := CloneRun(env, |log|, routingFile, containerId, newContainerName);
      var cloned := CloneContainer(env, containerId, newContainerName);
      if cloned.Threw? {
        return Threw;
      }
      var newContainerId := cloned.value;
      var key := RouteKey(functionName, newContainerName);
      var route := RouteRecord(serviceId, functionName, newContainerName, port);
      ghost var l := log;
      assert |l| == |old(log)| + |clone.calls|;
      ghost var rest := Perform(Publish(UpsertRoute(routingFile, key, route), newContainerId),
                                newContainerId, env, |l|, routingFile);
      assert AfterClone(env, |old(log)|, clone, serviceId, newContainerName, functionName, port) ==
        Run(clone.calls + rest.calls, rest.outcome, rest.file);
      r := LoadAndPublish(env, key, route, newContainerId);
      assert log == l + rest.calls;
      AppendAssoc(old(log), clone.calls, rest.calls);
    }

    /** Lines 151-202, after the clone: load the file, add the route, write the file and refresh. */
    method LoadAndPublish<T>(env: Env, key: string, route: Node, result: T) returns (r: Outcome<T>)
      requires Valid()
      modifies this
      ensures Valid()
      ensures var run := Perform(Publish(UpsertRoute(old(routingFile), key, route), result), result, env,
                                 |old(log)|, old(routingFile));
        log == old(log) + run.calls && r == run.outcome && routingFile == run.file
    {
      ghost var tail := RouteTail(UpsertRoute(routingFile, key, route), result);
      var ok := Invoke(env, LoadConfig);
      PerformThen(LoadConfig, tail, result, env, |old(log)|, old(routingFile));
      if !ok {
        return Returned(result);
      }
      ghost var rest := Perform(tail, result, env, |old(log)| + 1, routingFile);
      r := PublishRoute(env, key, route, result);
      assert log == (old(log) + [LoadConfig]) + rest.calls;
      AppendAssoc(old(log), [LoadConfig], rest.calls);
    }

    /** `moveFunctionToAnotherContainer`. */
    method MoveFunctionToAnotherContainer(env: Env, serviceId: string, functionName: string,
                                          otherContainerId: string)
      returns (r: Outcome<string>)
      requires Valid()
      modifies this
      ensures Valid()
      ensures var run := MoveToAnotherRun(env, |old(log)|, old(routingFile), serviceId, functionName,
                                          otherContainerId);
        log == old(log) + run.calls && r == run.outcome && routingFile == run.file
    {
      ghost var at, file := |log|, routingFile;
      PerformThen(Inspect(otherContainerId), MoveToAnotherTarget(env, file, serviceId, functionName, otherContainerId),
                  otherContainerId, env, at, file);
      var ok := Invoke(env, Inspect(otherContainerId));
      if !ok {
        return Returned(otherContainerId);
      }
      var info := env.containers[otherContainerId];
      var port := FirstPort(info.ports);
      if port.None? {
        return Threw;
      }
      ghost var edit := MoveToAnotherEdit(file, serviceId, functionName, otherContainerId, info.name, port.value);
      ghost var rest := Perform(Then(LoadConfig, edit), otherContainerId, env, at + 1, file);
      assert MoveToAnotherTarget(env, file, serviceId, functionName, otherContainerId) == Then(LoadConfig, edit);
      ghost var log1 := log;
      r := PublishToTarget(env, serviceId, functionName, otherContainerId, info.name, port.value);
      assert log == log1 + rest.calls;
      AppendAssoc(old(log), [Inspect(otherContainerId)], rest.calls);
    }

    /**
     * Lines 258-296, after the target was inspected: load the file, route
     * to the target named `name` without its leading `/`, write the file
     * and refresh.
     */
    method PublishToTarget(env: Env, serviceId: string, functionName: string, otherContainerId: string,
                           name: string, port: string)
      returns (r: Outcome<string>)
      requires Valid()
      modifies this
      ensures Valid()
      ensures var run := Perform(Then(LoadConfig, MoveToAnotherEdit(old(routingFile), serviceId, functionName,
                                                                  otherContainerId, name, port)),
                                 otherContainerId, env, |old(log)|, old(routingFile));
        log == old(log) + run.calls && r == run.outcome && routingFile == run.file
    {
      ghost var edit := MoveToAnotherEdit(routingFile, serviceId, functionName, otherContainerId, name, port);
      PerformThen(LoadConfig, edit, otherContainerId, env, |log|, routingFile);
      var ok := Invoke(env, LoadConfig);
      if !ok {
        return Returned(otherContainerId);
      }
      var host := StripFirst(name);
      if host.None? {
        return Threw;
      }
      var key := RouteKey(functionName, host.value);
      var route := RouteRecord(serviceId, functionName, host.value, port);
      ghost var rest := Perform(edit, otherContainerId, env, |old(log)| + 1, routingFile);
      assert edit == RouteTail(UpsertRoute(routingFile, key, route), otherContainerId);
      r := PublishRoute(env, key, route, otherContainerId);
      assert log == (old(log) + [LoadConfig]) + rest.calls;
      AppendAssoc(old(log), [LoadConfig], rest.calls);
    }

    /** `removeContainer`. */
    method RemoveContainer(env: Env, containerId: string) returns (r: Outcome<()>)
      requires Valid()
      modifies this
      ensures Valid()
      ensures var run := DecommissionRun(env, |old(log)|, old(routingFile), containerId);
        log == old(log) + run.calls && r == run.outcome && routingFile == run.file
    {
      var inspect := Inspect(containerId);
      var ok := Invoke(env, inspect);
      if !ok {
        Halt(old(log), inspect, DecommissionTarget(env, old(routingFile), containerId), (), env, |old(log)|, routingFile);
        return Returned(());
      }
      Advance(old(log), inspect, DecommissionTarget(env, old(routingFile), containerId), (), env, |old(log)|, routingFile);
      var name := env.containers[containerId].name;
      assert DecommissionTarget(env, old(routingFile), containerId) ==
        Then(LoadConfig, DecommissionEdit(routingFile, containerId, name));
      r := LoadAndClear(env, containerId, name);
    }

    /** Lines 321-382, after the container was inspected: load the file, then clear and shut down. */
    method LoadAndClear(env: Env, containerId: string, name: string) returns (r: Outcome<()>)
      requires Valid()
      modifies this
      ensures Valid()
      ensures var run := Perform(Then(LoadConfig, DecommissionEdit(old(routingFile), containerId, name)), (), env,
                                 |old(log)|, old(routingFile));
        log == old(log) + run.calls && r == run.outcome && routingFile == run.file
    {
      ghost var edit := DecommissionEdit(routingFile, containerId, name);
      var ok := Invoke(env, LoadConfig);
      if !ok {
        Halt(old(log), LoadConfig, edit, (), env, |old(log)|, old(routingFile));
        return Returned(());
      }
      Advance(old(log), LoadConfig, edit, (), env, |old(log)|, old(routingFile));
      r := ClearRoutesAndRemove(env, containerId, name);
    }

    /**
     * Lines 342-382, after the file was loaded: clear the routes of the
     * container named `name` and write the file when `zuul.routes` exists,
     * then refresh, stop and remove.
     */
    method ClearRoutesAndRemove(env: Env, containerId: string, name: string) returns (r: Outcome<()>)
      requires Valid()
      modifies this
      ensures Valid()
      ensures var run := Perform(DecommissionEdit(old(routingFile), containerId, name), (), env, |old(log)|, old(routingFile));
        log == old(log) + run.calls && r == run.outcome && routingFile == run.file
    {
      ghost var edit := DecommissionEdit(routingFile, containerId, name);
      var root := routingFile;
      var host := if name == [] then [] else name[1..];
      if "zuul" in Keys(root) {
        var zuul := Lookup(root, "zuul").value;
        if zuul.Scalar? {
          assert edit == Finish(Threw);
          return Threw;
        }
        if "routes" in Keys(zuul.entries) {
          var routes := Lookup(zuul.entries, "routes").value;
          if routes.Scalar? {
            assert edit == Finish(Threw);
            return Threw;
          }
          assert RoutesOf(root) == Some(routes.entries);
          // `substring(1)` is evaluated for the first key, if there is one
          if routes.entries != [] && name == [] {
            assert edit == Finish(Threw);
            return Threw;
          }
          var cleared := ClearMatching(routes.entries, host);
          root := Put(root, "zuul", Mapping(Put(zuul.entries, "routes", Mapping(cleared))));
          assert PurgeDoc(routingFile, host) == Purged(root);
          PurgeDocSpec(routingFile, host);
          assert edit == Then(WriteConfig(root), Shutdown(containerId));
          r := WriteAndShutdown(env, containerId, root);
          return;
        }
      }
      assert edit == Shutdown(containerId);
      r := RefreshAndRemove(env, containerId);
    }

    /** Lines 366-382: write `doc` over the routing file, then refresh, stop and remove. */
    method WriteAndShutdown(env: Env, containerId: string, doc: Entries) returns (r: Outcome<()>)
      requires DocOk(doc) && Valid()
      modifies this
      ensures Valid()
      ensures var run := Perform(Then(WriteConfig(doc), Shutdown(containerId)), (), env, |old(log)|, old(routingFile));
        log == old(log) + run.calls && r == run.outcome && routingFile == run.file
    {
      var write := WriteConfig(doc);
      var ok := Invoke(env, write);
      if !ok {
        Halt(old(log), write, Shutdown(containerId), (), env, |old(log)|, old(routingFile));
        return Returned(());
      }
      Advance(old(log), write, Shutdown(containerId), (), env, |old(log)|, old(routingFile));
      r := RefreshAndRemove(env, containerId);
    }
  }
}
