# Microservices refactoring: route table and nginx edits

This project models the core of a small refactoring tool for a Spring Cloud
deployment. The tool runs microservices in Docker containers behind a Zuul
gateway, and it has two parts.

**`Refactoring`** moves a function of a microservice to another container by
editing the gateway's routing file, a YAML document.

- **Route table.** The routing file is an ordered association list, which
  stands for a `LinkedHashMap`. Before an upsert the `zuul.routes` section
  is bootstrapped: it is created when missing. The upsert then puts a route
  record `{path, url}` under the key `redirect_<function>_to_<host>`.
  Decommissioning a container sets every route whose key contains the
  container's name to `""`.
  - `RouteDoc` holds the document operations: `Put`, bootstrap, upsert and
    purge.
  - `Routes` holds the route's key, path and url.
  - `Containers` holds the port, name and alias helpers.
- **Workflows.** `moveFunctionToNewContainer`, `moveFunctionToAnotherContainer`
  and `removeContainer` each run one `try` block of calls: inspect, clone,
  load the file, write it, refresh the gateway, stop, remove. `cloneContainer`
  runs its own block.
  - Each call is an abstract event in a log. The call at a log position
    may throw a checked exception, and that skips the rest of the block.
  - Unchecked exceptions escape the workflow as `Threw`. These are an empty
    port map, a key without `/`, an empty name, a missing network or alias,
    a failed cast, and a missing `bridge` network.
  - `Workflows` gives each workflow as a function of the environment, and as
    the methods of class `Refactoring`. The class holds the log and the
    routing file, and each method is proved equal to its function.
  - `WorkflowOrder` proves what the workflows do in what order.

**`Nginx`** edits an nginx configuration file in read-transform-write cycles.

- Class `Nginx` holds the file's `content`.
- `ReadConfig` is the `readLine` loop, proved against the text it reads.
- The three edits are pure string functions in `NginxText`:
  - `AddUpstream` inserts an `upstream` block before every `server {`.
  - `RemoveUpstream` deletes the first `upstream g {...}` block.
  - `Retarget` rewrites `proxy_pass` directives from one host to another.
- The two regular expressions are specified directly on strings. Group and
  host names are plain tokens (`PlainName`), so no character in them is
  special to a regular expression or a replacement string. `%n` is `"\n"`.

Source paths below are relative to the repository root. `R` stands for
`src/main/java/it/univaq/disim/sealab/microservicesrefactoring/Refactoring.java`
and `N` for `.../Nginx.java`; the table spells both out.

## Model

| member | source | states |
|---|---|---|
| Text.ReplaceAllAbsent | src/main/java/it/univaq/disim/sealab/microservicesrefactoring/Nginx.java:52 | `String.replace` leaves a text without the pattern unchanged |
| Text.ReplaceAllFirst | src/main/java/it/univaq/disim/sealab/microservicesrefactoring/Nginx.java:52 | `String.replace` keeps the text before the first occurrence, substitutes that occurrence, and resumes right after it |
| Text.CountReplaceAll | src/main/java/it/univaq/disim/sealab/microservicesrefactoring/Nginx.java:52-56 | replacing a pattern by a text that ends with it and holds it once keeps the number of occurrences |
| Containers.PortOf | src/main/java/it/univaq/disim/sealab/microservicesrefactoring/Refactoring.java:143 | `substring(0, indexOf("/"))` fails exactly when there is no `/`; otherwise it is the key's prefix up to its first `/`, with no `/` in it |
| Containers.PortOfRoundTrip | src/main/java/it/univaq/disim/sealab/microservicesrefactoring/Refactoring.java:142-143 | the port of `"8080" + "/" + "tcp"` is `"8080"` for any port without `/` |
| Containers.FirstPort | src/main/java/it/univaq/disim/sealab/microservicesrefactoring/Refactoring.java:142-143 | the port step fails exactly when the port map is empty or its first key has no `/` |
| Containers.StripFirst | src/main/java/it/univaq/disim/sealab/microservicesrefactoring/Refactoring.java:282 | `substring(1)` fails exactly on the empty name; otherwise the name is its first character followed by the result |
| Containers.CloneName | src/main/java/it/univaq/disim/sealab/microservicesrefactoring/Refactoring.java:82 | the clone's container name: `name.replace("/", "")`; its contract is proved by `CloneNameUnslashed` |
| Containers.CloneNameUnslashed | src/main/java/it/univaq/disim/sealab/microservicesrefactoring/Refactoring.java:82 | `name.replace("/", "")` removes exactly the slashes and keeps the other characters in order |
| Containers.CloneEndpoint | src/main/java/it/univaq/disim/sealab/microservicesrefactoring/Refactoring.java:87-92 | fails exactly when there is no network or the first network has fewer than two aliases; otherwise gives the first network's id and its second alias followed by `_clone` |
| Routes.RouteKey | src/main/java/it/univaq/disim/sealab/microservicesrefactoring/Refactoring.java:191 | the route key `redirect_<function>_to_<host>`; what it names is proved by `RouteKeyNamesHost` and `RouteKeyHostInjective` |
| Routes.RoutePath | src/main/java/it/univaq/disim/sealab/microservicesrefactoring/Refactoring.java:188 | the route's `path` value `/<service>/<function>/**` |
| Routes.RouteUrl | src/main/java/it/univaq/disim/sealab/microservicesrefactoring/Refactoring.java:189 | the route's `url` value `http://<host>:<port>/<function>/` |
| Routes.RouteRecord | src/main/java/it/univaq/disim/sealab/microservicesrefactoring/Refactoring.java:186-189 | the route is a map with keys `path` then `url`; `path` is `/svc/f/**` and `url` is `http://host:port/f/` |
| Routes.RouteKeyNamesHost | src/main/java/it/univaq/disim/sealab/microservicesrefactoring/Refactoring.java:191 | the key `redirect_f_to_host` contains `host`, so decommissioning `host` clears the route |
| Routes.RouteKeyHostInjective | src/main/java/it/univaq/disim/sealab/microservicesrefactoring/Refactoring.java:191 | the same function routed to two different hosts gives two different keys |
| RouteDoc.Put | src/main/java/it/univaq/disim/sealab/microservicesrefactoring/Refactoring.java:191 | `put` maps the key to the value and keeps every other key's value; the key order is kept, and a new key goes last |
| RouteDoc.PutInPlace | src/main/java/it/univaq/disim/sealab/microservicesrefactoring/Refactoring.java:191 | every entry with another key stays at its position |
| RouteDoc.PutUnique | src/main/java/it/univaq/disim/sealab/microservicesrefactoring/Refactoring.java:191 | `put` never duplicates a key |
| RouteDoc.PutIdempotent | src/main/java/it/univaq/disim/sealab/microservicesrefactoring/Refactoring.java:191 | putting the same entry twice equals putting it once |
| RouteDoc.EnsureRoutes | src/main/java/it/univaq/disim/sealab/microservicesrefactoring/Refactoring.java:164-180 | the bootstrap of `zuul.routes`; its promises are proved by `EnsureRoutesSpec` and `BootstrapHasRoutes` |
| RouteDoc.EnsureRoutesSpec | src/main/java/it/univaq/disim/sealab/microservicesrefactoring/Refactoring.java:164-180 | the bootstrap fails exactly when `zuul` is a scalar. A missing `zuul` is added last, holding an empty `routes`; an existing `zuul` without `routes` gains an empty one. Existing routes, every other section, and every other key of `zuul` are kept |
| RouteDoc.BootstrapHasRoutes | src/main/java/it/univaq/disim/sealab/microservicesrefactoring/Refactoring.java:182-183 | after the bootstrap `zuul.routes` exists, and the cast to a map succeeds exactly when it is a mapping |
| RouteDoc.Bootstrap | src/main/java/it/univaq/disim/sealab/microservicesrefactoring/Refactoring.java:164-180 | the in-place bootstrap, step by step, gives the bootstrapped document |
| RouteDoc.UpsertRoute | src/main/java/it/univaq/disim/sealab/microservicesrefactoring/Refactoring.java:164-191 | bootstrap, the casts of `zuul` and `routes`, and `put` of the route; its promises are proved by `UpsertRouteSpec` and `UpsertIdempotent` |
| RouteDoc.UpsertRouteSpec | src/main/java/it/univaq/disim/sealab/microservicesrefactoring/Refactoring.java:164-191 | the upsert fails exactly on a malformed document. Otherwise the routes become the old routes (or none) with the key put, the top-level keys and other sections are kept (with `zuul` appended when it was missing), and well-formed documents stay well-formed |
| RouteDoc.UpsertIdempotent | src/main/java/it/univaq/disim/sealab/microservicesrefactoring/Refactoring.java:191 | adding the same route twice gives the document adding it once gives |
| RouteDoc.AddRoute | src/main/java/it/univaq/disim/sealab/microservicesrefactoring/Refactoring.java:164-191 | bootstrap, re-fetch of `zuul` and `routes`, and `put`, step by step, give the upserted document |
| RouteDoc.Purge | src/main/java/it/univaq/disim/sealab/microservicesrefactoring/Refactoring.java:350-363 | every route whose key contains the name is set to `""`; its promises are proved by `PurgeLookup` and `PurgeIdempotent` |
| RouteDoc.PurgeLookup | src/main/java/it/univaq/disim/sealab/microservicesrefactoring/Refactoring.java:350-363 | the purge keeps every key in place; a key that contains the name maps to `""`, and every other key keeps its value |
| RouteDoc.PurgeIdempotent | src/main/java/it/univaq/disim/sealab/microservicesrefactoring/Refactoring.java:350-363 | purging twice equals purging once |
| RouteDoc.ClearMatching | src/main/java/it/univaq/disim/sealab/microservicesrefactoring/Refactoring.java:350-363 | the key-collecting loop, then the `put(key, "")` loop, give the purged routes |
| RouteDoc.PurgeDoc | src/main/java/it/univaq/disim/sealab/microservicesrefactoring/Refactoring.java:342-371 | the purge of the whole document, or why there is nothing to write or it throws; its promises are proved by `PurgeDocSpec` and `PurgeDocIdempotent` |
| RouteDoc.PurgeDocSpec | src/main/java/it/univaq/disim/sealab/microservicesrefactoring/Refactoring.java:342-371 | the purge throws exactly on a malformed document and has nothing to write exactly when `zuul.routes` is missing. Otherwise only the routes change, to their purge |
| RouteDoc.PurgeDocIdempotent | src/main/java/it/univaq/disim/sealab/microservicesrefactoring/Refactoring.java:342-371 | purging the document twice equals purging it once |
| Workflows.Perform | src/main/java/it/univaq/disim/sealab/microservicesrefactoring/Refactoring.java:136-213 | a `try` block run against the environment: its calls in order up to the first that throws, then the `catch` value; its promises are proved by the `Perform*` lemmas |
| Workflows.PerformPrefix | src/main/java/it/univaq/disim/sealab/microservicesrefactoring/Refactoring.java:136-213 | a `try` block makes a prefix of its calls, and every call before the last one made succeeded |
| Workflows.PerformSucceeds | src/main/java/it/univaq/disim/sealab/microservicesrefactoring/Refactoring.java:136-213 | when no call throws, the block makes all its calls and ends as its code does |
| Workflows.PerformFails | src/main/java/it/univaq/disim/sealab/microservicesrefactoring/Refactoring.java:204-215 | when a call throws, the last call made is the one that threw, and the `catch` value is returned |
| Workflows.PerformWrites | src/main/java/it/univaq/disim/sealab/microservicesrefactoring/Refactoring.java:193-196 | afterwards the routing file holds the last write that succeeded, or is untouched |
| Workflows.CloneRun | src/main/java/it/univaq/disim/sealab/microservicesrefactoring/Refactoring.java:72-120 | the run of `cloneContainer`; proved about by `WorkflowOrder.Clone*` |
| Workflows.MoveToNewRun | src/main/java/it/univaq/disim/sealab/microservicesrefactoring/Refactoring.java:132-216 | the run of `moveFunctionToNewContainer`; proved about by `WorkflowOrder.MoveToNew*` and `AfterClone*` |
| Workflows.MoveToAnotherRun | src/main/java/it/univaq/disim/sealab/microservicesrefactoring/Refactoring.java:228-310 | the run of `moveFunctionToAnotherContainer`; proved about by `WorkflowOrder.MoveToAnother*` |
| Workflows.DecommissionRun | src/main/java/it/univaq/disim/sealab/microservicesrefactoring/Refactoring.java:313-402 | the run of `removeContainer`; proved about by `WorkflowOrder.Decommission*` and `PurgeBroken` |
| Workflows.Refactoring.constructor | src/main/java/it/univaq/disim/sealab/microservicesrefactoring/Refactoring.java:50-63 | a service that has made no call yet over a well-formed routing file, so the invariant holds from the start |
| Workflows.Refactoring.Invoke | src/main/java/it/univaq/disim/sealab/microservicesrefactoring/Refactoring.java:138 | one external call is logged, fails as the environment says, and changes the file only when it is a successful write |
| Workflows.Refactoring.CloneContainer | src/main/java/it/univaq/disim/sealab/microservicesrefactoring/Refactoring.java:72-120 | the log, the result and the file are those of the clone's run; the file is unchanged |
| Workflows.Refactoring.CreateClone | src/main/java/it/univaq/disim/sealab/microservicesrefactoring/Refactoring.java:82-98 | creation, then attachment, as the clone's run from the creation on |
| Workflows.Refactoring.AttachClone | src/main/java/it/univaq/disim/sealab/microservicesrefactoring/Refactoring.java:87-98 | connect, look up `bridge`, disconnect, as the clone's run from the connection on |
| Workflows.Refactoring.PublishRoute | src/main/java/it/univaq/disim/sealab/microservicesrefactoring/Refactoring.java:164-202 | upsert, write and refresh, as the run of the publication after the load; keeps the document well-formed |
| Workflows.Refactoring.WriteAndRefresh | src/main/java/it/univaq/disim/sealab/microservicesrefactoring/Refactoring.java:193-202 | write, then refresh, as their run |
| Workflows.Refactoring.RefreshAndRemove | src/main/java/it/univaq/disim/sealab/microservicesrefactoring/Refactoring.java:377-382 | refresh, `stop(id, 10)` and remove, as their run; the file is unchanged |
| Workflows.Refactoring.MoveFunctionToNewContainer | src/main/java/it/univaq/disim/sealab/microservicesrefactoring/Refactoring.java:132-216 | the log, the result and the file are those of the move-to-new run |
| Workflows.Refactoring.CloneAndPublish | src/main/java/it/univaq/disim/sealab/microservicesrefactoring/Refactoring.java:145-202 | the clone's run followed by the publication of the route to the raw new name |
| Workflows.Refactoring.LoadAndPublish | src/main/java/it/univaq/disim/sealab/microservicesrefactoring/Refactoring.java:151-202 | load, upsert, write and refresh, as the publication's run |
| Workflows.Refactoring.MoveFunctionToAnotherContainer | src/main/java/it/univaq/disim/sealab/microservicesrefactoring/Refactoring.java:228-310 | the log, the result and the file are those of the move-to-another run |
| Workflows.Refactoring.PublishToTarget | src/main/java/it/univaq/disim/sealab/microservicesrefactoring/Refactoring.java:255-296 | load, strip the target's name, upsert, write and refresh, as their run |
| Workflows.Refactoring.RemoveContainer | src/main/java/it/univaq/disim/sealab/microservicesrefactoring/Refactoring.java:313-402 | the log, the result and the file are those of the decommissioning run |
| Workflows.Refactoring.LoadAndClear | src/main/java/it/univaq/disim/sealab/microservicesrefactoring/Refactoring.java:321-382 | load, then purge and shut down, as their run |
| Workflows.Refactoring.ClearRoutesAndRemove | src/main/java/it/univaq/disim/sealab/microservicesrefactoring/Refactoring.java:342-382 | the in-place purge of lines 342-371 gives the purged document, then the write and shutdown follow, as their run |
| Workflows.Refactoring.WriteAndShutdown | src/main/java/it/univaq/disim/sealab/microservicesrefactoring/Refactoring.java:365-382 | write, refresh, stop and remove, as their run |
| WorkflowOrder.RunBefore | src/main/java/it/univaq/disim/sealab/microservicesrefactoring/Refactoring.java:136-203 | the i-th call made is the code's i-th call, and every call before it succeeded |
| WorkflowOrder.StopsAtFault | src/main/java/it/univaq/disim/sealab/microservicesrefactoring/Refactoring.java:204-213 | the first call that throws is the last call made, and the block returns its `catch` value |
| WorkflowOrder.RunOutcome | src/main/java/it/univaq/disim/sealab/microservicesrefactoring/Refactoring.java:204-215 | a block ends as its code does, or returns the `catch` value |
| WorkflowOrder.RunKeepsFile | src/main/java/it/univaq/disim/sealab/microservicesrefactoring/Refactoring.java:72-120 | a block without a write leaves the routing file as it was |
| WorkflowOrder.RunClear | src/main/java/it/univaq/disim/sealab/microservicesrefactoring/Refactoring.java:136-203 | with no fault, and containers that exist, a block makes all its calls and ends as its code does |
| WorkflowOrder.LastWriteAt | src/main/java/it/univaq/disim/sealab/microservicesrefactoring/Refactoring.java:193-196 | the file holds the document of a successful write that no later write follows |
| WorkflowOrder.DecommissionCalls | src/main/java/it/univaq/disim/sealab/microservicesrefactoring/Refactoring.java:313-382 | with no fault, `removeContainer` stops after the inspection or the load, or it makes the inspection, the load, at most one write, the refresh, `stop(id, 10)` and the removal |
| WorkflowOrder.DecommissionWrite | src/main/java/it/univaq/disim/sealab/microservicesrefactoring/Refactoring.java:342-371 | the file is written only when `zuul.routes` exists, with the purged document, and only after a successful inspection and load |
| WorkflowOrder.DecommissionStop | src/main/java/it/univaq/disim/sealab/microservicesrefactoring/Refactoring.java:377-381 | the stop is `stop(id, 10)`, made only after the inspection, the load, the write (if any) and the refresh all succeeded |
| WorkflowOrder.DecommissionRemove | src/main/java/it/univaq/disim/sealab/microservicesrefactoring/Refactoring.java:381-382 | the removal is the last call, right after the stop, and every earlier call succeeded |
| WorkflowOrder.PurgeBroken | src/main/java/it/univaq/disim/sealab/microservicesrefactoring/Refactoring.java:344-348 | decommissioning throws at the casts exactly on a malformed document |
| WorkflowOrder.DecommissionClear | src/main/java/it/univaq/disim/sealab/microservicesrefactoring/Refactoring.java:313-402 | with no fault, all six calls are made and the method returns. The file holds the purged document, or is untouched when `zuul.routes` is missing |
| WorkflowOrder.CloneKeepsFile | src/main/java/it/univaq/disim/sealab/microservicesrefactoring/Refactoring.java:72-120 | the clone makes no write and leaves the routing file unchanged |
| WorkflowOrder.CloneScriptReturns | src/main/java/it/univaq/disim/sealab/microservicesrefactoring/Refactoring.java:76-109 | the clone reaches `return newID` only through all five calls, with a network, an alias and a `bridge` network |
| WorkflowOrder.CloneReturnsId | src/main/java/it/univaq/disim/sealab/microservicesrefactoring/Refactoring.java:76-109 | a returned id is the created container's. Before it, these calls all succeeded: the inspection, the creation under the slash-free name, the connection to the first network under the clone alias, the `bridge` lookup and the disconnection |
| WorkflowOrder.CloneThrowsAfterCreate | src/main/java/it/univaq/disim/sealab/microservicesrefactoring/Refactoring.java:82-92 | with no network, or fewer than two aliases, the clone throws after the container was created |
| WorkflowOrder.PublishCalls | src/main/java/it/univaq/disim/sealab/microservicesrefactoring/Refactoring.java:161-202 | a publication loads, then writes the upserted document and refreshes, or throws at a cast |
| WorkflowOrder.PublishWrite | src/main/java/it/univaq/disim/sealab/microservicesrefactoring/Refactoring.java:193-196 | a publication's write comes second, after the load, and writes the upserted document |
| WorkflowOrder.PublishClear | src/main/java/it/univaq/disim/sealab/microservicesrefactoring/Refactoring.java:161-202 | with no fault, a publication loads, writes and refreshes, returns its result, and leaves the written document |
| WorkflowOrder.MoveToNewNoPort | src/main/java/it/univaq/disim/sealab/microservicesrefactoring/Refactoring.java:142-143 | with no port, or a first key without `/`, the move throws right after the inspection, with no clone and no write |
| WorkflowOrder.MoveToNewClonesFirst | src/main/java/it/univaq/disim/sealab/microservicesrefactoring/Refactoring.java:138-145 | after the inspection and the port, the move clones the container before anything else |
| WorkflowOrder.AfterCloneThrew | src/main/java/it/univaq/disim/sealab/microservicesrefactoring/Refactoring.java:145 | a clone that throws ends the move: no load, no write |
| WorkflowOrder.AfterCloneReturned | src/main/java/it/univaq/disim/sealab/microservicesrefactoring/Refactoring.java:145-202 | whatever the clone returned, `null` included, the route to the raw `newContainerName` is published next |
| WorkflowOrder.AfterCloneClear | src/main/java/it/univaq/disim/sealab/microservicesrefactoring/Refactoring.java:186-202 | with no fault, after a clone that returned (even `null`), the file is loaded, the upserted document written and the gateway refreshed, and the clone's result is returned |
| WorkflowOrder.MoveToAnotherCalls | src/main/java/it/univaq/disim/sealab/microservicesrefactoring/Refactoring.java:232-296 | with no fault, the move inspects the target. Without a port it throws; with an empty name it throws after the load. Otherwise it loads, writes the document with the route to the slash-stripped name, and refreshes, unless a cast throws |
| WorkflowOrder.MoveToAnotherReturnsTarget | src/main/java/it/univaq/disim/sealab/microservicesrefactoring/Refactoring.java:298-309 | the move returns `otherContainerID` whatever checked exception it caught; only an unchecked one escapes |
| WorkflowOrder.MoveToAnotherWrite | src/main/java/it/univaq/disim/sealab/microservicesrefactoring/Refactoring.java:279-290 | a write comes third, after a successful inspection and load, and writes the upsert of the route to the target's name without its leading `/` |
| WorkflowOrder.MoveToAnotherClear | src/main/java/it/univaq/disim/sealab/microservicesrefactoring/Refactoring.java:230-309 | with no fault, the move inspects, loads, writes the upserted document and refreshes, returns `otherContainerID`, and leaves the written document |
| NginxText.Lines | src/main/java/it/univaq/disim/sealab/microservicesrefactoring/Nginx.java:31-35 | the lines `readLine` returns, each line break being `\n`, `\r` or `\r\n`; proved about by `Received` and `ReadWholeFile` |
| NginxText.ReadText | src/main/java/it/univaq/disim/sealab/microservicesrefactoring/Nginx.java:31-38 | what the read loop accumulates: each line read followed by `"\n"`, up to the fault; proved about by `ReadWholeFile` and `Nginx.ReadConfig` |
| NginxText.Received | src/main/java/it/univaq/disim/sealab/microservicesrefactoring/Nginx.java:31-38 | the lines read are a prefix of the file's lines: all of them, or as many as were read before the reader threw |
| NginxText.ReadWholeFile | src/main/java/it/univaq/disim/sealab/microservicesrefactoring/Nginx.java:31-35 | for a file without `\r`, reading every line and appending `"\n"` to each gives the file back, with a final newline added when it lacked one |
| NginxText.AddUpstream | src/main/java/it/univaq/disim/sealab/microservicesrefactoring/Nginx.java:52-56 | the edit of `addServerGroup`; proved about by `AddUpstreamAbsent`, `AddUpstreamFirst` and `AddUpstreamCount` |
| NginxText.UpstreamBlockEndsWithAnchor | src/main/java/it/univaq/disim/sealab/microservicesrefactoring/Nginx.java:53 | the inserted block ends with the `server {` it replaces |
| NginxText.AddUpstreamAbsent | src/main/java/it/univaq/disim/sealab/microservicesrefactoring/Nginx.java:52-56 | with no `server {` the text is unchanged |
| NginxText.AddUpstreamFirst | src/main/java/it/univaq/disim/sealab/microservicesrefactoring/Nginx.java:51-58 | the text before the first `server {` is kept. That `server {` becomes `upstream g {`, a `server a;` line per address in order, `}`, a blank line and `server {`. The rest is edited the same way |
| NginxText.AddUpstreamCount | src/main/java/it/univaq/disim/sealab/microservicesrefactoring/Nginx.java:52-56 | when the block holds `server {` only at its end, the number of `server {` is unchanged |
| NginxText.BlockAt | src/main/java/it/univaq/disim/sealab/microservicesrefactoring/Nginx.java:62 | a match of `(?s)\nupstream g \{.+?\}\n` at i: the opening, at least one character, then the first `}\n` after that |
| NginxText.FirstBlock | src/main/java/it/univaq/disim/sealab/microservicesrefactoring/Nginx.java:62 | the leftmost match, or none anywhere |
| NginxText.RemoveUpstream | src/main/java/it/univaq/disim/sealab/microservicesrefactoring/Nginx.java:62 | the first edit of `removeServerGroup`; proved about by `RemoveUpstreamBlock` and `RemoveUpstreamAbsent` |
| NginxText.RemoveUpstreamBlock | src/main/java/it/univaq/disim/sealab/microservicesrefactoring/Nginx.java:62 | only the leftmost block is cut out, from the newline before `upstream g {` through the first `}` and its newline; the text around it is kept |
| NginxText.RemoveUpstreamAbsent | src/main/java/it/univaq/disim/sealab/microservicesrefactoring/Nginx.java:62 | without such a block the text is unchanged |
| NginxText.NoBlockWithout | src/main/java/it/univaq/disim/sealab/microservicesrefactoring/Nginx.java:62 | a text lacking the opening `\nupstream g {` or any `}\n` has no block, so nothing is removed |
| NginxText.MatchLen | src/main/java/it/univaq/disim/sealab/microservicesrefactoring/Nginx.java:70 | a match of `proxy_pass\s+http://m;` is at least as long as its one-space form and lies within the text |
| NginxText.FirstDirectiveSpec | src/main/java/it/univaq/disim/sealab/microservicesrefactoring/Nginx.java:69-71 | finds the leftmost directive targeting `m`, or there is none |
| NginxText.DirectiveMatch | src/main/java/it/univaq/disim/sealab/microservicesrefactoring/Nginx.java:69-71 | a written `proxy_pass http://r;` matches the pattern for `m` exactly when `m == r` |
| NginxText.Retarget | src/main/java/it/univaq/disim/sealab/microservicesrefactoring/Nginx.java:69-71 | the edit of `replaceProxyPass`; proved about by the `Retarget*` lemmas |
| NginxText.RetargetFirst | src/main/java/it/univaq/disim/sealab/microservicesrefactoring/Nginx.java:68-72 | the text before the first directive is kept, the directive becomes `proxy_pass http://r;` with its whitespace normalised to one space, and the scan resumes after it |
| NginxText.RetargetUnchanged | src/main/java/it/univaq/disim/sealab/microservicesrefactoring/Nginx.java:68-72 | with no directive targeting `m` the text is unchanged |
| NginxText.RetargetLeavesNone | src/main/java/it/univaq/disim/sealab/microservicesrefactoring/Nginx.java:68-72 | for `m != r`, no directive targeting `m` is left |
| NginxText.RetargetIdempotent | src/main/java/it/univaq/disim/sealab/microservicesrefactoring/Nginx.java:68-72 | retargeting twice equals retargeting once, for any two hosts (a host retargeted to itself included) |
| NginxText.RetargetSelf | src/main/java/it/univaq/disim/sealab/microservicesrefactoring/Nginx.java:69-71 | retargeting a host to itself, twice, equals doing it once |
| NginxText.RetargetRoundTrip | src/main/java/it/univaq/disim/sealab/microservicesrefactoring/Nginx.java:84-87 | retargeting `a` to `b` then `b` to `a` restores the text when every `a` directive had one space and no `b` directive existed |
| NginxConfig.Cycle | src/main/java/it/univaq/disim/sealab/microservicesrefactoring/Nginx.java:26-49 | one `modifyConfig` cycle: the edit of what was read, or the old file when it could not be opened for writing |
| NginxConfig.Nginx.constructor | src/main/java/it/univaq/disim/sealab/microservicesrefactoring/Nginx.java:22-24 | the object starts with the given file |
| NginxConfig.Nginx.ReadConfig | src/main/java/it/univaq/disim/sealab/microservicesrefactoring/Nginx.java:31-38 | the loop yields every line read, each followed by `"\n"`. A reader that throws at once gives `""`, and a file without `\r` read to its end comes back completed by a final newline |
| NginxConfig.Nginx.ModifyConfig | src/main/java/it/univaq/disim/sealab/microservicesrefactoring/Nginx.java:26-49 | the file becomes exactly the edit of what was read, which is `""` when the read failed at once; it is unchanged when it could not be opened for writing |
| NginxConfig.Nginx.AddServerGroup | src/main/java/it/univaq/disim/sealab/microservicesrefactoring/Nginx.java:51-58 | one cycle with the upstream insertion |
| NginxConfig.Nginx.RemoveServerGroup | src/main/java/it/univaq/disim/sealab/microservicesrefactoring/Nginx.java:60-66 | two cycles: the block removal is written back first, then `proxy_pass g` is retargeted to the replacement |
| NginxConfig.Nginx.ReplaceProxyPass | src/main/java/it/univaq/disim/sealab/microservicesrefactoring/Nginx.java:68-72 | one cycle with the retargeting |

## Left out

- Docker, SnakeYAML and the file system are not modelled.
  - Inspect, create, connect, list, disconnect, stop and remove are abstract events that succeed or throw a checked exception at a given log position.
  - What inspect returns and the id `create` returns come from a fixed environment.
- The HTTP refresh (`refreshZuulRoutes`) is one abstract event that may throw.
- YAML parsing and dumping are left out. The document is a tree of ordered maps and scalars, and a `null` value counts as a scalar.
- The `myproject.properties` lookup and the `FileInputStream`/`FileWriter` calls are left out. Together they are one `LoadConfig` event, which may throw, and one `WriteConfig` event.
- `listContainers` and the printing after the removal in `removeContainer` are left out. Nothing follows them in the `try` block.
- `updateContainer`, `reloadConfig`, the constructors binding the Docker socket, and `Nginx.main` (Nginx.java:81-88) are left out. They are Docker pass-throughs or demo code.
- The Java regex engine is not modelled in general. Group and host names are `PlainName` tokens: letters, digits, `-`, `_` and `:`. `.` is excluded because it is a regex metacharacter.
- Characters are modelled as `char`, not bytes. `getBytes()` encoding, partial writes and an exception during `write` after the file was truncated are left out. A failed write means the file could not be opened, so it is unchanged.
- The line round trip (`ReadWholeFile`) is proved only for files without `\r`. With `\r`, `readLine` normalises line breaks; `ReadText` models that behaviour, but no closed form is proved for it.
- An exact `addServerGroup`/`removeServerGroup` round trip is left out: it does not hold for the source. The insertion indents `server {` and does not put `upstream` at the start of a line.
- Concurrency and file-system atomicity are left out.
- NginxText.AddUpstreamCount: the precondition says abstractly that the block holds `server {` once. It is not derived from conditions on the addresses, because an address is spliced unescaped after `server ` and an address that starts with `{` creates an extra `server {`.
