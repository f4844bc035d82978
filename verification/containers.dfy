/**
 * What the workflows read from `docker inspect`, and the small string
 * helpers they apply to it: the port of the first exposed port key, the
 * container name without Docker's leading `/`, the clone's name and the
 * clone's network alias.
 */
module Containers {
  import opened Options
  import opened Text

  /** An attached network: its id and the container's aliases on it, in order. */
  datatype Network = Network(id: string, aliases: seq<string>)

  /**
   * The parts of `ContainerInfo` the workflows use. `ports` holds the keys
   * of the port map (`"8080/tcp"`) and `networks` the attached networks,
   * both in the map's iteration order.
   */
  datatype ContainerInfo = ContainerInfo(name: string, image: string, ports: seq<string>, networks: seq<Network>)

  /**
   * `key.substring(0, key.indexOf("/"))`: the text before the first `/`.
   * `None` when there is no `/` (the substring call throws).
   */
  function PortOf(key: string): (r: Option<string>)
    ensures r.None? <==> '/' !in key
    ensures r.Some? ==>
      |r.value| < |key| && key[..|r.value|] == r.value && key[|r.value|] == '/' && '/' !in r.value
  {
    FindChar(key, '/');
    match Find(key, "/", 0)
    case None => None
    case Some(i) => Some(key[..i])
  }

  /** A port key is the port, a `/` and the protocol; the port comes back out. */
  lemma PortOfRoundTrip(port: string, protocol: string)
    requires '/' !in port
    ensures PortOf(port + "/" + protocol) == Some(port)
  {
    var key := port + "/" + protocol;
    assert key[|port|] == '/' && key[..|port|] == port;
    var p := PortOf(key).value;
    assert forall j :: 0 <= j < |port| ==> key[j] == port[j];
    assert forall j :: 0 <= j < |p| ==> key[j] == p[j];
  }

  /**
   * The port of the first key of the port map. `None` when the map is
   * empty (`toArray()[0]` throws) or its first key has no `/`.
   */
  function FirstPort(ports: seq<string>): (r: Option<string>)
    ensures r.None? <==> ports == [] || '/' !in ports[0]
  {
    if ports == [] then None else PortOf(ports[0])
  }

  /** `name.substring(1)`. `None` on the empty name (the call throws). */
  function StripFirst(name: string): (r: Option<string>)
    ensures r.None? <==> name == []
    ensures r.Some? ==> name == [name[0]] + r.value
  {
    if name == [] then None else Some(name[1..])
  }

  /** `s` with every `/` dropped and every other character kept in order. */
  function Unslashed(s: string): (r: string)
    ensures '/' !in r && |r| <= |s|
    ensures '/' !in s ==> r == s
  {
    if s == [] then []
    else (if s[0] == '/' then [] else [s[0]]) + Unslashed(s[1..])
  }

  /** The clone's name, `name.replace("/", "")`. */
  function CloneName(name: string): string {
    ReplaceAll(name, "/", "")
  }

  /** The literal replacement in `CloneName` drops exactly the slashes. */
  lemma {:induction false} CloneNameUnslashed(name: string)
    ensures CloneName(name) == Unslashed(name)
    ensures '/' !in CloneName(name)
    decreases |name|
  {
    if name != [] {
      CloneNameUnslashed(name[1..]);
      assert name[..1] == [name[0]];
    }
  }

  /** The suffix the clone's alias carries. */
  const CloneSuffix := "_clone"

  /** The alias a clone alias was derived from, when `a` ends with the suffix. */
  function CloneOf(a: string): Option<string> {
    if |a| >= |CloneSuffix| && a[|a| - |CloneSuffix|..] == CloneSuffix
    then Some(a[..|a| - |CloneSuffix|])
    else None
  }

  /**
   * The network the clone joins and its alias there: the first network of
   * the cloned container, and that network's second alias with the suffix.
   * `None` when there is no network (`iterator().next()` throws) or fewer
   * than two aliases (`get(1)` throws).
   */
  function CloneEndpoint(networks: seq<Network>): (r: Option<(string, string)>)
    ensures r.None? <==> networks == [] || |networks[0].aliases| < 2
    ensures r.Some? ==> r.value.0 == networks[0].id && CloneOf(r.value.1) == Some(networks[0].aliases[1])
  {
    if networks == [] || |networks[0].aliases| < 2 then None
    else
      var alias := networks[0].aliases[1] + CloneSuffix;
      assert alias[..|alias| - |CloneSuffix|] == networks[0].aliases[1];
      Some((networks[0].id, alias))
  }
}
