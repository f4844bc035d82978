/**
 * The shape of a route the migration workflows add to `zuul.routes`: its
 * key, its `path` and its `url`.
 */
module Routes {
  import opened Options
  import opened Text
  import opened RouteDoc

  /** The key a function's route to `host` goes under. */
  function RouteKey(function_: string, host: string): string {
    "redirect_" + function_ + "_to_" + host
  }

  /** The gateway path the route matches: every request below the function's path in the service. */
  function RoutePath(service: string, function_: string): string {
    "/" + service + "/" + function_ + "/**"
  }

  /** The address the route forwards to. */
  function RouteUrl(host: string, port: string, function_: string): string {
    "http://" + host + ":" + port + "/" + function_ + "/"
  }

  /**
   * The route record, built as the source builds it: a fresh map, `path`
   * put first and `url` second.
   */
  function RouteRecord(service: string, function_: string, host: string, port: string): (r: Node)
    ensures r.Mapping? && Keys(r.entries) == ["path", "url"] && UniqueKeys(r.entries)
    ensures Lookup(r.entries, "path") == Some(Scalar(RoutePath(service, function_)))
    ensures Lookup(r.entries, "url") == Some(Scalar(RouteUrl(host, port, function_)))
  {
    var m := Put([], "path", Scalar(RoutePath(service, function_)));
    PutUnique([], "path", Scalar(RoutePath(service, function_)));
    PutUnique(m, "url", Scalar(RouteUrl(host, port, function_)));
    Mapping(Put(m, "url", Scalar(RouteUrl(host, port, function_))))
  }

  /**
   * A route's key names its target host, so decommissioning a container
   * whose stripped name is `host` clears the routes added for it.
   */
  lemma RouteKeyNamesHost(function_: string, host: string)
    ensures Contains(RouteKey(function_, host), host)
  {
    var k := RouteKey(function_, host);
    var i := |k| - |host|;
    assert k[i..i + |host|] == host;
    assert OccursAt(k, host, i);
  }

  /** Routes of one function to two different hosts go under two different keys. */
  lemma RouteKeyHostInjective(function_: string, h1: string, h2: string)
    requires RouteKey(function_, h1) == RouteKey(function_, h2)
    ensures h1 == h2
  {
    var pre := "redirect_" + function_ + "_to_";
    assert RouteKey(function_, h1)[|pre|..] == h1;
    assert RouteKey(function_, h2)[|pre|..] == h2;
  }
}
