/**
 * The order in which the workflows make their calls: what must have
 * succeeded before a write, a stop or a removal, what the routing file is
 * overwritten with, and how each workflow ends.
 */
module WorkflowOrder {
  import opened Options
  import opened Text
  import opened RouteDoc
  import opened Containers
  import opened Routes
  import opened Workflows

  /** No call throws a checked exception at the `n` log positions from `from` on. */
  predicate NoFaults(env: Env, from: nat, n: nat) {
    forall k :: from <= k < from + n ==> k !in env.faults
  }

  /** The text `removeContainer` looks for in route keys: the name without its first character. */
  function PurgeName(name: string): string {
    if name == [] then [] else name[1..]
  }

  // ---------------------------------------------------------------------
  // Runs of any script
  // ---------------------------------------------------------------------

  /** The `i`-th call made is the script's `i`-th call, and every call made before it succeeded. */
  lemma RunBefore<T>(s: Script<T>, caught: T, env: Env, at: nat, file: Entries, i: nat)
    requires i < |Perform(s, caught, env, at, file).calls|
    ensures var r := Perform(s, caught, env, at, file);
      && i < |s.calls| && r.calls[i] == s.calls[i] && r.calls[..i] == s.calls[..i]
      && Succeeds(r.calls[..i], env, at)
  {
    PerformPrefix(s, caught, env, at, file);
    var r := Perform(s, caught, env, at, file);
    assert r.calls[..i] == s.calls[..|r.calls|][..i];
    forall j | 0 <= j < i ensures !Fails(env, at + j, r.calls[..i][j]) {
      assert r.calls[..i][j] == r.calls[j];
    }
  }

  /**
   * The first call that throws is the last one made, and the run ends in
   * the `catch` block: every later call of the `try` block is skipped.
   */
  lemma StopsAtFault<T>(s: Script<T>, caught: T, env: Env, at: nat, file: Entries, i: nat)
    requires i < |Perform(s, caught, env, at, file).calls|
    requires Fails(env, at + i, Perform(s, caught, env, at, file).calls[i])
    ensures |Perform(s, caught, env, at, file).calls| == i + 1
    ensures Perform(s, caught, env, at, file).outcome == Returned(caught)
  {
    PerformPrefix(s, caught, env, at, file);
    assert Fails(env, at + i, s.calls[i]);
    PerformFails(s, caught, env, at, file);
  }

  /** A run ends as its script does, or returns the `catch` value. */
  lemma RunOutcome<T>(s: Script<T>, caught: T, env: Env, at: nat, file: Entries)
    ensures var r := Perform(s, caught, env, at, file);
      r.outcome == s.fin || r.outcome == Returned(caught)
  {
    if Succeeds(s.calls, env, at) {
      PerformSucceeds(s, caught, env, at, file);
    } else {
      PerformFails(s, caught, env, at, file);
    }
  }

  /** A script that writes nothing leaves the routing file as it was. */
  lemma {:induction false} RunKeepsFile<T>(s: Script<T>, caught: T, env: Env, at: nat, file: Entries)
    requires forall i :: 0 <= i < |s.calls| ==> !s.calls[i].WriteConfig?
    ensures Perform(s, caught, env, at, file).file == file
    decreases |s.calls|
  {
    if s.calls != [] && !Fails(env, at, s.calls[0]) {
      var t := Script(s.calls[1..], s.fin);
      assert forall i :: 0 <= i < |t.calls| ==> t.calls[i] == s.calls[i + 1];
      RunKeepsFile(t, caught, env, at + 1, file);
    }
  }

  /** With no fault at its positions, a script whose inspections find their containers runs to its end. */
  lemma RunClear<T>(s: Script<T>, caught: T, env: Env, at: nat, file: Entries)
    requires NoFaults(env, at, |s.calls|)
    requires forall i :: 0 <= i < |s.calls| && s.calls[i].Inspect? ==> s.calls[i].id in env.containers
    ensures Perform(s, caught, env, at, file).calls == s.calls
    ensures Perform(s, caught, env, at, file).outcome == s.fin
  {
    assert Succeeds(s.calls, env, at);
    PerformSucceeds(s, caught, env, at, file);
  }

  /** Without a write among `calls` the file is the one they started from. */
  lemma {:induction false} LastWriteNone(calls: seq<Call>, env: Env, at: nat, file: Entries)
    requires forall i :: 0 <= i < |calls| ==> !calls[i].WriteConfig?
    ensures LastWrite(calls, env, at, file) == file
    decreases |calls|
  {
    if calls != [] {
      LastWriteNone(calls[..|calls| - 1], env, at, file);
    }
  }

  /** When the `k`-th call is a successful write and no later call writes, the file holds its document. */
  lemma {:induction false} LastWriteAt(calls: seq<Call>, env: Env, at: nat, file: Entries, k: nat)
    requires k < |calls| && calls[k].WriteConfig? && !Fails(env, at + k, calls[k])
    requires forall j :: k < j < |calls| ==> !calls[j].WriteConfig?
    ensures LastWrite(calls, env, at, file) == calls[k].doc
    decreases |calls|
  {
    if k < |calls| - 1 {
      LastWriteAt(calls[..|calls| - 1], env, at, file, k);
    }
  }

  // ---------------------------------------------------------------------
  // removeContainer
  // ---------------------------------------------------------------------

  /** The write `removeContainer` makes, if any: none when `zuul.routes` is missing or malformed. */
  function Written(file: Entries, name: string): (w: seq<Call>)
    ensures |w| <= 1 && (w != [] ==> w[0].WriteConfig?)
  {
    match PurgeDoc(file, PurgeName(name))
    case Purged(doc) => [WriteConfig(doc)]
    case _ => []
  }

  /** A purge only has a document to write when `zuul.routes` exists. */
  lemma WrittenHasRoutes(file: Entries, name: string)
    requires Written(file, name) != []
    ensures RoutesOf(file).Some? && PurgeDoc(file, PurgeName(name)) == Purged(Written(file, name)[0].doc)
  {
  }

  /** The calls of a `removeContainer` that reaches the shutdown after the writes `w`. */
  function ShutdownCalls(id: string, w: seq<Call>): seq<Call> {
    [Inspect(id), LoadConfig] + w + [Refresh, Stop(id, 10), Remove(id)]
  }

  /** The calls of `removeContainer` after the load when none of them throws. */
  lemma DecommissionEditCalls(file: Entries, id: string, name: string)
    ensures var s := DecommissionEdit(file, id, name).calls;
      var p := PurgeDoc(file, PurgeName(name));
      if p.Broken? || (p.Purged? && name == [] && RoutesOf(file).value != []) then s == []
      else s == Written(file, name) + [Refresh, Stop(id, 10), Remove(id)]
  {
  }

  /**
   * The calls of `removeContainer` when none of them throws: it stops
   * after the inspection or the load, or it goes on to the shutdown.
   */
  lemma DecommissionCalls(env: Env, file: Entries, id: string)
    ensures var s := DecommissionScript(env, file, id).calls;
      || s == [Inspect(id)]
      || s == [Inspect(id), LoadConfig]
      || (id in env.containers && s == ShutdownCalls(id, Written(file, env.containers[id].name)))
  {
    if id in env.containers {
      var name := env.containers[id].name;
      var e := DecommissionEdit(file, id, name);
      assert DecommissionTarget(env, file, id) == Then(LoadConfig, e);
      AppendAssoc([Inspect(id)], [LoadConfig], e.calls);
      DecommissionEditCalls(file, id, name);
      AppendAssoc([Inspect(id), LoadConfig], Written(file, name), [Refresh, Stop(id, 10), Remove(id)]);
    }
  }

  /** In the shutdown calls, a write comes third, after the inspection and the load. */
  lemma WriteInShutdown(id: string, w: seq<Call>, i: nat)
    requires |w| <= 1 && i < |ShutdownCalls(id, w)| && ShutdownCalls(id, w)[i].WriteConfig?
    ensures i == 2 && w == [ShutdownCalls(id, w)[i]] && ShutdownCalls(id, w)[..i] == [Inspect(id), LoadConfig]
  {
  }

  /** In the shutdown calls, the stop comes right after the refresh, which follows the writes. */
  lemma StopInShutdown(id: string, w: seq<Call>, i: nat)
    requires |w| <= 1 && (w != [] ==> w[0].WriteConfig?)
    requires i < |ShutdownCalls(id, w)| && ShutdownCalls(id, w)[i].Stop?
    ensures ShutdownCalls(id, w)[i] == Stop(id, 10)
    ensures ShutdownCalls(id, w)[..i] == [Inspect(id), LoadConfig] + w + [Refresh]
  {
    var s := ShutdownCalls(id, w);
    assert i == |s| - 2;
    assert s[..i] == [Inspect(id), LoadConfig] + w + [Refresh];
  }

  /**
   * Lines 342-371: the routing file is written only when `zuul.routes`
   * exists, with its purged document, and only after the inspection and
   * the load succeeded.
   */
  lemma DecommissionWrite(env: Env, at: nat, file: Entries, id: string, i: nat)
    requires i < |DecommissionRun(env, at, file, id).calls|
    requires DecommissionRun(env, at, file, id).calls[i].WriteConfig?
    ensures var r := DecommissionRun(env, at, file, id);
      && id in env.containers && RoutesOf(file).Some?
      && PurgeDoc(file, PurgeName(env.containers[id].name)) == Purged(r.calls[i].doc)
      && r.calls[..i] == [Inspect(id), LoadConfig] && Succeeds(r.calls[..i], env, at)
  {
    var s := DecommissionScript(env, file, id);
    RunBefore(s, (), env, at, file, i);
    DecommissionCalls(env, file, id);
    var w := Written(file, env.containers[id].name);
    WriteInShutdown(id, w, i);
    WrittenHasRoutes(file, env.containers[id].name);
  }

  /**
   * Lines 377-382 and 391-400: the container is stopped, with a 10-second
   * timeout, only after the inspection, the load, the write of the purged
   * file (when `zuul.routes` exists) and the refresh, each of which
   * succeeded.
   */
  lemma DecommissionStop(env: Env, at: nat, file: Entries, id: string, i: nat)
    requires i < |DecommissionRun(env, at, file, id).calls|
    requires DecommissionRun(env, at, file, id).calls[i].Stop?
    ensures var r := DecommissionRun(env, at, file, id);
      && id in env.containers && r.calls[i] == Stop(id, 10)
      && r.calls[..i] == [Inspect(id), LoadConfig] + Written(file, env.containers[id].name) + [Refresh]
      && Succeeds(r.calls[..i], env, at)
  {
    var s := DecommissionScript(env, file, id);
    RunBefore(s, (), env, at, file, i);
    DecommissionCalls(env, file, id);
    StopInShutdown(id, Written(file, env.containers[id].name), i);
  }

  /** Lines 381-382: the container is removed last, right after it was stopped, once every earlier call succeeded. */
  lemma DecommissionRemove(env: Env, at: nat, file: Entries, id: string, i: nat)
    requires i < |DecommissionRun(env, at, file, id).calls|
    requires DecommissionRun(env, at, file, id).calls[i].Remove?
    ensures var r := DecommissionRun(env, at, file, id);
      && r.calls[i] == Remove(id) && i == |r.calls| - 1
      && 1 <= i && r.calls[i - 1] == Stop(id, 10) && Succeeds(r.calls[..i], env, at)
  {
    var s := DecommissionScript(env, file, id);
    RunBefore(s, (), env, at, file, i);
    PerformPrefix(s, (), env, at, file);
    DecommissionCalls(env, file, id);
    RunBefore(s, (), env, at, file, i - 1);
  }

  /** The purge throws exactly on a malformed document. */
  lemma PurgeBroken(file: Entries, name: string)
    ensures PurgeDoc(file, name).Broken? <==> Malformed(file)
  {
  }

  /** When nothing throws, `removeContainer` goes on to the shutdown. */
  lemma DecommissionClearCalls(env: Env, file: Entries, id: string)
    requires id in env.containers && !Malformed(file)
    requires RoutesOf(file).Some? && RoutesOf(file).value != [] ==> env.containers[id].name != []
    ensures DecommissionScript(env, file, id).calls == ShutdownCalls(id, Written(file, env.containers[id].name))
    ensures DecommissionScript(env, file, id).fin == Returned(())
  {
    var name := env.containers[id].name;
    PurgeBroken(file, PurgeName(name));
    DecommissionCalls(env, file, id);
    if PurgeDoc(file, PurgeName(name)).Purged? {
      WrittenHasRoutes(file, name);
    }
  }

  /** After the shutdown calls, the file holds the write among them, if any. */
  lemma ShutdownFile(id: string, w: seq<Call>, env: Env, at: nat, file: Entries)
    requires |w| <= 1 && (w != [] ==> w[0].WriteConfig?) && NoFaults(env, at, |ShutdownCalls(id, w)|)
    ensures LastWrite(ShutdownCalls(id, w), env, at, file) == if w == [] then file else w[0].doc
  {
    var s := ShutdownCalls(id, w);
    if w == [] {
      LastWriteNone(s, env, at, file);
    } else {
      LastWriteAt(s, env, at, file, 2);
    }
  }

  /** A script with the shutdown calls runs to its end when nothing throws, and leaves the write's document. */
  lemma ShutdownRun<T>(s: Script<T>, caught: T, env: Env, at: nat, file: Entries, id: string, w: seq<Call>)
    requires s.calls == ShutdownCalls(id, w) && id in env.containers
    requires |w| <= 1 && (w != [] ==> w[0].WriteConfig?) && NoFaults(env, at, 6)
    ensures var r := Perform(s, caught, env, at, file);
      r.calls == s.calls && r.outcome == s.fin && r.file == if w == [] then file else w[0].doc
  {
    RunClear(s, caught, env, at, file);
    PerformWrites(s, caught, env, at, file);
    ShutdownFile(id, w, env, at, file);
  }

  /**
   * When nothing throws, `removeContainer` makes all its calls and the
   * routing file ends up holding the purged document it wrote (or untouched
   * when `zuul.routes` is missing).
   */
  lemma DecommissionClear(env: Env, at: nat, file: Entries, id: string)
    requires id in env.containers && NoFaults(env, at, 6) && !Malformed(file)
    requires RoutesOf(file).Some? && RoutesOf(file).value != [] ==> env.containers[id].name != []
    ensures var r := DecommissionRun(env, at, file, id);
      var name := env.containers[id].name;
      && r.calls == ShutdownCalls(id, Written(file, name))
      && r.outcome == Returned(())
      && r.file == if Written(file, name) == [] then file else Written(file, name)[0].doc
  {
    DecommissionClearCalls(env, file, id);
    ShutdownRun(DecommissionScript(env, file, id), (), env, at, file, id, Written(file, env.containers[id].name));
  }

  // ---------------------------------------------------------------------
  // cloneContainer
  // ---------------------------------------------------------------------

  /** No call in `calls` writes the routing file. */
  predicate NoWrites(calls: seq<Call>) {
    forall k :: 0 <= k < |calls| ==> !calls[k].WriteConfig?
  }

  /** A call that is not a write keeps a script free of writes. */
  lemma NoWritesThen<T>(c: Call, s: Script<T>)
    requires !c.WriteConfig? && NoWrites(s.calls)
    ensures NoWrites(Then(c, s).calls)
  {
    assert forall k :: 0 < k < |Then(c, s).calls| ==> Then(c, s).calls[k] == s.calls[k - 1];
  }

  /** The clone makes no write to the routing file. */
  lemma CloneScriptNoWrites(env: Env, id: string, name: string)
    ensures NoWrites(CloneScript(env, id, name).calls)
  {
    if id in env.containers {
      var info := env.containers[id];
      var ep := CloneEndpoint(info.networks);
      var after: Script<Option<string>> := if ep.None? then Finish(Threw) else CloneConnect(env, ep.value.0, ep.value.1);
      if ep.Some? {
        NoWritesThen(ListBridge, CloneDetach(env));
        NoWritesThen(Connect(ep.value.0, env.nextId, ep.value.1), Then(ListBridge, CloneDetach(env)));
      }
      assert CloneCreate(env, info, name) == Then(Create(info.image, CloneName(name)), after);
      NoWritesThen(Create(info.image, CloneName(name)), after);
    }
    NoWritesThen(Inspect(id), CloneInspected(env, id, name));
  }

  /** Lines 72-120: the clone neither writes the routing file nor changes it. */
  lemma CloneKeepsFile(env: Env, at: nat, file: Entries, id: string, name: string)
    ensures NoWrites(CloneRun(env, at, file, id, name).calls)
    ensures CloneRun(env, at, file, id, name).file == file
  {
    var s := CloneScript(env, id, name);
    CloneScriptNoWrites(env, id, name);
    PerformPrefix(s, None, env, at, file);
    RunKeepsFile(s, None, env, at, file);
  }

  /** The calls of a clone that returns a container id. */
  function ClonedCalls(env: Env, id: string, info: ContainerInfo, name: string, network: string, alias: string): seq<Call>
    requires env.bridges != []
  {
    [Inspect(id), Create(info.image, CloneName(name)), Connect(network, env.nextId, alias), ListBridge,
     Disconnect(env.nextId, env.bridges[0])]
  }

  /** The clone's script reaches a container id only along its whole length. */
  lemma CloneScriptReturns(env: Env, id: string, name: string)
    requires CloneScript(env, id, name).fin.Returned? && CloneScript(env, id, name).fin.value.Some?
    ensures id in env.containers && CloneEndpoint(env.containers[id].networks).Some? && env.bridges != []
    ensures var ep := CloneEndpoint(env.containers[id].networks).value;
      && CloneScript(env, id, name).fin == Returned(Some(env.nextId))
      && CloneScript(env, id, name).calls == ClonedCalls(env, id, env.containers[id], name, ep.0, ep.1)
  {
  }

  /**
   * Lines 76-100: a clone that returns an id returns the id of the created
   * container, after the inspection, the creation under the slash-free name,
   * the connection to the source's first network under the clone alias, the
   * lookup of `bridge` and the disconnection from it, each of which
   * succeeded.
   */
  lemma CloneReturnsId(env: Env, at: nat, file: Entries, id: string, name: string)
    requires CloneRun(env, at, file, id, name).outcome.Returned?
    requires CloneRun(env, at, file, id, name).outcome.value.Some?
    ensures id in env.containers && CloneEndpoint(env.containers[id].networks).Some? && env.bridges != []
    ensures var r := CloneRun(env, at, file, id, name);
      var ep := CloneEndpoint(env.containers[id].networks).value;
      && r.outcome.value.value == env.nextId
      && r.calls == ClonedCalls(env, id, env.containers[id], name, ep.0, ep.1)
      && Succeeds(r.calls, env, at)
  {
    var s := CloneScript(env, id, name);
    if Succeeds(s.calls, env, at) {
      PerformSucceeds(s, None, env, at, file);
      CloneScriptReturns(env, id, name);
    } else {
      PerformFails(s, None, env, at, file);
    }
  }

  /**
   * Lines 82-92: when the source has no network or its first network has
   * fewer than two aliases, the clone throws after it was created.
   */
  lemma CloneThrowsAfterCreate(env: Env, at: nat, file: Entries, id: string, name: string)
    requires id in env.containers && at !in env.faults && at + 1 !in env.faults
    requires env.containers[id].networks == [] || |env.containers[id].networks[0].aliases| < 2
    ensures CloneRun(env, at, file, id, name) ==
      Run([Inspect(id), Create(env.containers[id].image, CloneName(name))], Threw, file)
  {
    var info := env.containers[id];
    PerformThen(Inspect(id), CloneInspected(env, id, name), None, env, at, file);
    PerformThen(Create(info.image, CloneName(name)), Finish<Option<string>>(Threw), None, env, at + 1, file);
  }

  // ---------------------------------------------------------------------
  // Publishing a route
  // ---------------------------------------------------------------------

  /** The calls of a publication when none of them throws: the upsert's cast throws, or the write and refresh follow. */
  lemma PublishCalls<T>(upsert: Option<Entries>, result: T)
    ensures var s := Publish(upsert, result);
      && s.calls == [LoadConfig] + (if upsert.Some? then [WriteConfig(upsert.value), Refresh] else [])
      && s.fin == if upsert.Some? then Returned(result) else Threw
  {
  }

  /** A publication writes the upserted document, second, after the load. */
  lemma PublishWrite<T>(upsert: Option<Entries>, result: T, j: nat)
    requires j < |Publish(upsert, result).calls| && Publish(upsert, result).calls[j].WriteConfig?
    ensures var s := Publish(upsert, result).calls;
      j == 1 && s[..j] == [LoadConfig] && upsert == Some(s[j].doc)
  {
    PublishCalls(upsert, result);
  }

  /** With no fault at its three positions, a publication writes the upserted document and refreshes. */
  lemma PublishClear<T>(doc: Entries, result: T, env: Env, at: nat, file: Entries)
    requires NoFaults(env, at, 3)
    ensures var r := Perform(Publish(Some(doc), result), result, env, at, file);
      r.calls == [LoadConfig, WriteConfig(doc), Refresh] && r.outcome == Returned(result) && r.file == doc
  {
    var s := Publish(Some(doc), result);
    PublishCalls(Some(doc), result);
    RunClear(s, result, env, at, file);
    PerformWrites(s, result, env, at, file);
    LastWriteAt(s.calls, env, at, file, 1);
  }

  // ---------------------------------------------------------------------
  // moveFunctionToNewContainer
  // ---------------------------------------------------------------------

  /**
   * Lines 142-143: when the old container has no port, or its first port
   * has no `/`, the move throws right after the inspection, before any
   * clone or write.
   */
  lemma MoveToNewNoPort(env: Env, at: nat, file: Entries, id: string, serviceId: string,
                        newContainerName: string, functionName: string)
    requires id in env.containers && at !in env.faults
    requires env.containers[id].ports == [] || '/' !in env.containers[id].ports[0]
    ensures MoveToNewRun(env, at, file, id, serviceId, newContainerName, functionName) == Run([Inspect(id)], Threw, file)
  {
  }

  /** Lines 119-120: when the clone threw, the move ends with it. */
  lemma AfterCloneThrew(env: Env, at: nat, clone: Run<Option<string>>, serviceId: string,
                        newContainerName: string, functionName: string, port: string)
    requires clone.outcome.Threw?
    ensures AfterClone(env, at, clone, serviceId, newContainerName, functionName, port) == clone
  {
  }

  /** When the clone returned, whatever it returned, the route to the new container is published. */
  lemma AfterCloneReturned(env: Env, at: nat, clone: Run<Option<string>>, serviceId: string,
                           newContainerName: string, functionName: string, port: string)
    requires clone.outcome.Returned?
    ensures var r := AfterClone(env, at, clone, serviceId, newContainerName, functionName, port);
      var u := UpsertRoute(clone.file, RouteKey(functionName, newContainerName),
                           RouteRecord(serviceId, functionName, newContainerName, port));
      var rest := Perform(Publish(u, clone.outcome.value), clone.outcome.value, env, at + |clone.calls|, clone.file);
      r == Run(clone.calls + rest.calls, rest.outcome, rest.file)
  {
  }

  /**
   * Lines 132-145 and 200: once the old container was inspected and has a
   * port, the move clones it, and what follows depends only on how the
   * clone ended.
   */
  lemma MoveToNewClonesFirst(env: Env, at: nat, file: Entries, id: string, serviceId: string,
                             newContainerName: string, functionName: string, clone: Run<Option<string>>)
    requires !Fails(env, at, Inspect(id)) && FirstPort(env.containers[id].ports).Some?
    requires clone == CloneRun(env, at + 1, file, id, newContainerName)
    ensures var port := FirstPort(env.containers[id].ports).value;
      var rest := AfterClone(env, at + 1, clone, serviceId, newContainerName, functionName, port);
      MoveToNewRun(env, at, file, id, serviceId, newContainerName, functionName) ==
        Run([Inspect(id)] + rest.calls, rest.outcome, rest.file)
  {
  }

  /** A publication that goes through appends its three calls to the clone's. */
  lemma ExtendClear(env: Env, at: nat, clone: Run<Option<string>>, upsert: Option<Entries>, doc: Entries)
    requires clone.outcome.Returned? && upsert == Some(doc)
    requires NoFaults(env, at + |clone.calls|, 3)
    ensures var rest := Perform(Publish(upsert, clone.outcome.value), clone.outcome.value, env,
                                at + |clone.calls|, clone.file);
      Run(clone.calls + rest.calls, rest.outcome, rest.file) ==
        Run(clone.calls + [LoadConfig, WriteConfig(doc), Refresh], clone.outcome, doc)
  {
    PublishClear(doc, clone.outcome.value, env, at + |clone.calls|, clone.file);
  }

  /**
   * Lines 151-202: whatever the clone returned, `null` included, when the
   * load, the write and the refresh succeed the routing file holds the
   * upserted route to the new container under its name as given, and the
   * move returns the clone's result.
   */
  lemma AfterCloneClear(env: Env, at: nat, clone: Run<Option<string>>, serviceId: string,
                        newContainerName: string, functionName: string, port: string, doc: Entries)
    requires clone.outcome.Returned?
    requires UpsertRoute(clone.file, RouteKey(functionName, newContainerName),
                         RouteRecord(serviceId, functionName, newContainerName, port)) == Some(doc)
    requires NoFaults(env, at + |clone.calls|, 3)
    ensures AfterClone(env, at, clone, serviceId, newContainerName, functionName, port) ==
      Run(clone.calls + [LoadConfig, WriteConfig(doc), Refresh], clone.outcome, doc)
  {
    AfterCloneReturned(env, at, clone, serviceId, newContainerName, functionName, port);
    ExtendClear(env, at, clone, UpsertRoute(clone.file, RouteKey(functionName, newContainerName),
                                            RouteRecord(serviceId, functionName, newContainerName, port)), doc);
  }

  // ---------------------------------------------------------------------
  // moveFunctionToAnotherContainer
  // ---------------------------------------------------------------------

  /** The calls that follow the load: none when a cast in the upsert threw, else the write and the refresh. */
  function TailCalls(upsert: Option<Entries>): (t: seq<Call>)
    ensures t == [] <==> upsert.None?
    ensures upsert.Some? ==> t == [WriteConfig(upsert.value), Refresh]
  {
    match upsert
    case None => []
    case Some(doc) => [WriteConfig(doc), Refresh]
  }

  /** The upsert of lines 279-285: the route's host is the target's name with its leading `/` dropped. */
  function TargetUpsert(file: Entries, serviceId: string, functionName: string, name: string, port: string): Option<Entries>
    requires name != []
  {
    UpsertRoute(file, RouteKey(functionName, name[1..]), RouteRecord(serviceId, functionName, name[1..], port))
  }

  /** The calls and the ending of a publication after the load. */
  lemma RouteTailShape<T>(upsert: Option<Entries>, result: T)
    ensures RouteTail(upsert, result).calls == TailCalls(upsert)
    ensures RouteTail(upsert, result).fin == if upsert.None? then Threw else Returned(result)
  {
  }

  /** Two calls in front of a script. */
  lemma TwoThen<T>(a: Call, b: Call, t: Script<T>)
    ensures Then(a, Then(b, t)).calls == [a, b] + t.calls
  {
    AppendAssoc([a], [b], t.calls);
  }

  /** With a port, the load comes next. */
  lemma AnotherTarget(env: Env, file: Entries, serviceId: string, functionName: string, otherContainerId: string)
    requires otherContainerId in env.containers && FirstPort(env.containers[otherContainerId].ports).Some?
    ensures var info := env.containers[otherContainerId];
      MoveToAnotherTarget(env, file, serviceId, functionName, otherContainerId) ==
        Then(LoadConfig, MoveToAnotherEdit(file, serviceId, functionName, otherContainerId, info.name, FirstPort(info.ports).value))
  {
  }

  /** Lines 279-296: the edit throws on an empty name; otherwise it publishes the upserted document. */
  lemma AnotherEditCalls(file: Entries, serviceId: string, functionName: string, otherContainerId: string,
                         name: string, port: string)
    ensures var e := MoveToAnotherEdit(file, serviceId, functionName, otherContainerId, name, port);
      if name == [] then e == Finish(Threw)
      else (e.calls == TailCalls(TargetUpsert(file, serviceId, functionName, name, port))
        && e.fin == if TargetUpsert(file, serviceId, functionName, name, port).None? then Threw else Returned(otherContainerId))
  {
    if name != [] {
      RouteTailShape(TargetUpsert(file, serviceId, functionName, name, port), otherContainerId);
    }
  }

  /**
   * Lines 236-296: the target is inspected; without a port the workflow
   * throws, with one it is followed by the load and, once its name gave a
   * host, by the write of the upserted document and the refresh.
   */
  lemma MoveToAnotherCalls(env: Env, file: Entries, serviceId: string, functionName: string, otherContainerId: string)
    ensures var s := MoveToAnotherScript(env, file, serviceId, functionName, otherContainerId);
      if otherContainerId !in env.containers || FirstPort(env.containers[otherContainerId].ports).None? then
        s.calls == [Inspect(otherContainerId)] && (otherContainerId in env.containers ==> s.fin == Threw)
      else
        var info := env.containers[otherContainerId];
        if info.name == [] then s == Script([Inspect(otherContainerId), LoadConfig], Threw)
        else
          var u := TargetUpsert(file, serviceId, functionName, info.name, FirstPort(info.ports).value);
          && s.calls == [Inspect(otherContainerId), LoadConfig] + TailCalls(u)
          && s.fin == if u.None? then Threw else Returned(otherContainerId)
  {
    if otherContainerId in env.containers {
      var info := env.containers[otherContainerId];
      if FirstPort(info.ports).Some? {
        var e := MoveToAnotherEdit(file, serviceId, functionName, otherContainerId, info.name, FirstPort(info.ports).value);
        AnotherTarget(env, file, serviceId, functionName, otherContainerId);
        TwoThen(Inspect(otherContainerId), LoadConfig, e);
        AnotherEditCalls(file, serviceId, functionName, otherContainerId, info.name, FirstPort(info.ports).value);
      }
    }
  }

  /** Lines 234-309: the workflow either throws or returns the target's id, whatever failed. */
  lemma MoveToAnotherReturnsTarget(env: Env, at: nat, file: Entries, serviceId: string, functionName: string,
                                   otherContainerId: string)
    ensures var r := MoveToAnotherRun(env, at, file, serviceId, functionName, otherContainerId);
      r.outcome == Threw || r.outcome == Returned(otherContainerId)
  {
    var s := MoveToAnotherScript(env, file, serviceId, functionName, otherContainerId);
    RunOutcome(s, otherContainerId, env, at, file);
    if otherContainerId in env.containers {
      var info := env.containers[otherContainerId];
      if FirstPort(info.ports).Some? && info.name != [] {
        RouteTailShape(TargetUpsert(file, serviceId, functionName, info.name, FirstPort(info.ports).value),
                       otherContainerId);
      }
    }
  }

  /**
   * A run of a script that inspects, loads and then perhaps publishes writes
   * only third, and only the published document.
   */
  lemma WriteAfterLoad<T>(s: Script<T>, caught: T, env: Env, at: nat, file: Entries, id: string,
                          upsert: Option<Entries>, i: nat)
    requires s.calls == [Inspect(id)] || s.calls == [Inspect(id), LoadConfig] ||
             s.calls == [Inspect(id), LoadConfig] + TailCalls(upsert)
    requires i < |Perform(s, caught, env, at, file).calls|
    requires Perform(s, caught, env, at, file).calls[i].WriteConfig?
    ensures var r := Perform(s, caught, env, at, file);
      && upsert == Some(r.calls[i].doc)
      && i == 2 && r.calls[..i] == [Inspect(id), LoadConfig] && Succeeds(r.calls[..i], env, at)
  {
    RunBefore(s, caught, env, at, file, i);
  }

  /**
   * Lines 236-291: a write happens only third, after the target was
   * inspected and the file loaded, and it writes the file with the route to
   * the slash-stripped name of the target upserted.
   */
  lemma MoveToAnotherWrite(env: Env, at: nat, file: Entries, serviceId: string, functionName: string,
                           otherContainerId: string, i: nat)
    requires i < |MoveToAnotherRun(env, at, file, serviceId, functionName, otherContainerId).calls|
    requires MoveToAnotherRun(env, at, file, serviceId, functionName, otherContainerId).calls[i].WriteConfig?
    ensures var r := MoveToAnotherRun(env, at, file, serviceId, functionName, otherContainerId);
      && otherContainerId in env.containers
      && var info := env.containers[otherContainerId];
      && FirstPort(info.ports).Some? && info.name != []
      && TargetUpsert(file, serviceId, functionName, info.name, FirstPort(info.ports).value) == Some(r.calls[i].doc)
      && i == 2 && r.calls[..i] == [Inspect(otherContainerId), LoadConfig] && Succeeds(r.calls[..i], env, at)
  {
    var s := MoveToAnotherScript(env, file, serviceId, functionName, otherContainerId);
    MoveToAnotherCalls(env, file, serviceId, functionName, otherContainerId);
    var u := if otherContainerId in env.containers && FirstPort(env.containers[otherContainerId].ports).Some?
                && env.containers[otherContainerId].name != []
             then TargetUpsert(file, serviceId, functionName, env.containers[otherContainerId].name,
                               FirstPort(env.containers[otherContainerId].ports).value)
             else None;
    WriteAfterLoad(s, otherContainerId, env, at, file, otherContainerId, u, i);
  }

  /** A script that inspects a known container, loads, writes and refreshes runs through when nothing faults. */
  lemma LoadWriteClear<T>(s: Script<T>, caught: T, env: Env, at: nat, file: Entries, id: string, doc: Entries)
    requires s.calls == [Inspect(id), LoadConfig, WriteConfig(doc), Refresh]
    requires id in env.containers && NoFaults(env, at, 4)
    ensures Perform(s, caught, env, at, file) == Run(s.calls, s.fin, doc)
  {
    RunClear(s, caught, env, at, file);
    PerformWrites(s, caught, env, at, file);
    LastWriteAt(s.calls, env, at, file, 2);
  }

  /** The four calls of a publication to the target that goes through. */
  lemma LoadThenTail(id: string, doc: Entries)
    ensures [Inspect(id), LoadConfig] + TailCalls(Some(doc)) == [Inspect(id), LoadConfig, WriteConfig(doc), Refresh]
  {
  }

  /** Lines 234-296: with a port, a name and a well-formed file, the workflow's script publishes `doc`. */
  lemma MoveToAnotherScriptClear(env: Env, file: Entries, serviceId: string, functionName: string,
                                 otherContainerId: string, doc: Entries)
    requires otherContainerId in env.containers
    requires FirstPort(env.containers[otherContainerId].ports).Some? && env.containers[otherContainerId].name != []
    requires TargetUpsert(file, serviceId, functionName, env.containers[otherContainerId].name,
                          FirstPort(env.containers[otherContainerId].ports).value) == Some(doc)
    ensures MoveToAnotherScript(env, file, serviceId, functionName, otherContainerId) ==
      Script([Inspect(otherContainerId), LoadConfig, WriteConfig(doc), Refresh], Returned(otherContainerId))
  {
    LoadThenTail(otherContainerId, doc);
    MoveToAnotherCalls(env, file, serviceId, functionName, otherContainerId);
  }

  /**
   * Lines 234-309: when nothing throws, the target is inspected, the file
   * loaded, the upserted document written and the gateway refreshed, and
   * the target's id is returned.
   */
  lemma MoveToAnotherClear(env: Env, at: nat, file: Entries, serviceId: string, functionName: string,
                           otherContainerId: string, doc: Entries)
    requires otherContainerId in env.containers
    requires FirstPort(env.containers[otherContainerId].ports).Some? && env.containers[otherContainerId].name != []
    requires TargetUpsert(file, serviceId, functionName, env.containers[otherContainerId].name,
                          FirstPort(env.containers[otherContainerId].ports).value) == Some(doc)
    requires NoFaults(env, at, 4)
    ensures MoveToAnotherRun(env, at, file, serviceId, functionName, otherContainerId) ==
      Run([Inspect(otherContainerId), LoadConfig, WriteConfig(doc), Refresh], Returned(otherContainerId), doc)
  {
    MoveToAnotherScriptClear(env, file, serviceId, functionName, otherContainerId, doc);
    LoadWriteClear(MoveToAnotherScript(env, file, serviceId, functionName, otherContainerId),
                   otherContainerId, env, at, file, otherContainerId, doc);
  }
}
