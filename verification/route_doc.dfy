/**
 * The gateway's routing document (a YAML file loaded by SnakeYAML into nested
 * `LinkedHashMap`s) and the edits the migration workflows make to its
 * `zuul.routes` section.
 */
module RouteDoc {
  import opened Options
  import opened Text

  /**
   * A YAML value. A mapping keeps insertion order, as `LinkedHashMap` does;
   * every other value (string, number, list, null) is opaque here.
   */
  datatype Node = Scalar(text: string) | Mapping(entries: seq<(string, Node)>)

  /** The entries of a mapping, in iteration order. */
  type Entries = seq<(string, Node)>

  function Keys(m: Entries): (ks: seq<string>)
    ensures |ks| == |m| && forall i :: 0 <= i < |m| ==> ks[i] == m[i].0
  {
    if m == [] then [] else [m[0].0] + Keys(m[1..])
  }

  /** A `LinkedHashMap` never holds a key twice. */
  predicate UniqueKeys(m: Entries) {
    forall i, j :: 0 <= i < j < |m| ==> m[i].0 != m[j].0
  }

  /** `m.get(k)`, with `None` for a missing key. */
  function Lookup(m: Entries, k: string): (r: Option<Node>)
    ensures r.Some? <==> k in Keys(m)
    ensures r.Some? ==> (k, r.value) in m
  {
    if m == [] then None
    else if m[0].0 == k then Some(m[0].1)
    else Lookup(m[1..], k)
  }

  /**
   * `m.put(k, v)`: afterwards `k` maps to `v`, every other key maps to what
   * it mapped to, and the key order is kept, with a new key appended last.
   */
  function Put(m: Entries, k: string, v: Node): (r: Entries)
    ensures Lookup(r, k) == Some(v)
    ensures forall k' :: k' != k ==> Lookup(r, k') == Lookup(m, k')
    ensures Keys(r) == if k in Keys(m) then Keys(m) else Keys(m) + [k]
  {
    if m == [] then
      assert Keys([(k, v)]) == [k];
      [(k, v)]
    else if m[0].0 == k then
      PutFront(m, v);
      [(k, v)] + m[1..]
    else
      var t := Put(m[1..], k, v);
      PutBehind(m, k, v, t);
      [m[0]] + t
  }

  /** The step of `Put` that replaces the value of the first key. */
  lemma PutFront(m: Entries, v: Node)
    requires m != []
    ensures var r := [(m[0].0, v)] + m[1..];
      && Lookup(r, m[0].0) == Some(v)
      && (forall k' :: k' != m[0].0 ==> Lookup(r, k') == Lookup(m, k'))
      && Keys(r) == Keys(m)
  {
    var r := [(m[0].0, v)] + m[1..];
    assert r[1..] == m[1..];
    assert Keys(r) == [m[0].0] + Keys(m[1..]);
  }

  /** The step of `Put` that keeps the first entry and puts into the rest, giving `t`. */
  lemma PutBehind(m: Entries, k: string, v: Node, t: Entries)
    requires m != [] && m[0].0 != k
    requires Lookup(t, k) == Some(v)
    requires forall k' :: k' != k ==> Lookup(t, k') == Lookup(m[1..], k')
    requires Keys(t) == if k in Keys(m[1..]) then Keys(m[1..]) else Keys(m[1..]) + [k]
    ensures var r := [m[0]] + t;
      && Lookup(r, k) == Some(v)
      && (forall k' :: k' != k ==> Lookup(r, k') == Lookup(m, k'))
      && Keys(r) == if k in Keys(m) then Keys(m) else Keys(m) + [k]
  {
    var r := [m[0]] + t;
    assert r[1..] == t;
    assert Keys(r) == [m[0].0] + Keys(t);
    assert Keys(m) == [m[0].0] + Keys(m[1..]);
    assert k in Keys(m) <==> k in Keys(m[1..]);
    if k !in Keys(m) {
      AppendAssoc([m[0].0], Keys(m[1..]), [k]);
    }
  }

  /** `put` works in place: every entry with another key stays where it was. */
  lemma {:induction false} PutInPlace(m: Entries, k: string, v: Node)
    ensures forall i :: 0 <= i < |m| && m[i].0 != k ==> Put(m, k, v)[i] == m[i]
  {
    if m != [] && m[0].0 != k {
      var t := Put(m[1..], k, v);
      PutInPlace(m[1..], k, v);
      var r := Put(m, k, v);
      assert r == [m[0]] + t;
      forall i | 1 <= i < |m| && m[i].0 != k ensures r[i] == m[i] {
        assert r[i] == t[i - 1] && m[1..][i - 1] == m[i];
      }
    }
  }

  /** `put` never duplicates a key. */
  lemma PutUnique(m: Entries, k: string, v: Node)
    requires UniqueKeys(m)
    ensures UniqueKeys(Put(m, k, v))
  {
    var r := Put(m, k, v);
    forall i, j | 0 <= i < j < |r| ensures r[i].0 != r[j].0 {
      assert Keys(r)[i] == r[i].0 && Keys(r)[j] == r[j].0;
      if j < |m| {
        assert Keys(m)[i] == m[i].0 && Keys(m)[j] == m[j].0;
      } else {
        assert k !in Keys(m);
        assert Keys(m)[i] == m[i].0;
      }
    }
  }

  /** Putting the same entry twice leaves the map as putting it once. */
  lemma {:induction false} PutIdempotent(m: Entries, k: string, v: Node)
    ensures Put(Put(m, k, v), k, v) == Put(m, k, v)
  {
    if m != [] && m[0].0 != k {
      PutIdempotent(m[1..], k, v);
      assert Put(m, k, v)[1..] == Put(m[1..], k, v);
    }
  }

  // ---------------------------------------------------------------------
  // The `zuul.routes` section
  // ---------------------------------------------------------------------

  /** The `zuul` section, when it is a mapping. */
  function Section(root: Entries): Option<Entries> {
    match Lookup(root, "zuul")
    case Some(Mapping(z)) => Some(z)
    case _ => None
  }

  /** The `zuul.routes` section, when both levels are mappings. */
  function RoutesOf(root: Entries): Option<Entries> {
    match Section(root)
    case Some(z) =>
      (match Lookup(z, "routes")
       case Some(Mapping(rs)) => Some(rs)
       case _ => None)
    case None => None
  }

  /**
   * `zuul` or `zuul.routes` is present but not a mapping: the casts to
   * `LinkedHashMap` (or the calls on a null value) throw.
   */
  predicate Malformed(root: Entries) {
    || (Lookup(root, "zuul").Some? && Lookup(root, "zuul").value.Scalar?)
    || (Section(root).Some? && Lookup(Section(root).value, "routes").Some?
        && Lookup(Section(root).value, "routes").value.Scalar?)
  }

  /** Every mapping the workflows edit has unique keys. */
  predicate DocOk(root: Entries) {
    && UniqueKeys(root)
    && (Section(root).Some? ==> UniqueKeys(Section(root).value))
    && (RoutesOf(root).Some? ==> UniqueKeys(RoutesOf(root).value))
  }

  /** Replaces the routes of a document whose `zuul` section is a mapping. */
  function WithRoutes(root: Entries, rs: Entries): Entries
    requires Section(root).Some?
  {
    Put(root, "zuul", Mapping(Put(Section(root).value, "routes", Mapping(rs))))
  }

  /** Replacing the routes changes only `zuul.routes`. */
  lemma WithRoutesFacts(root: Entries, rs: Entries)
    requires Section(root).Some?
    ensures RoutesOf(WithRoutes(root, rs)) == Some(rs)
    ensures Keys(WithRoutes(root, rs)) == Keys(root)
    ensures forall k :: k != "zuul" ==> Lookup(WithRoutes(root, rs), k) == Lookup(root, k)
    ensures Section(WithRoutes(root, rs)).Some?
    ensures forall k :: k != "routes" ==>
      Lookup(Section(WithRoutes(root, rs)).value, k) == Lookup(Section(root).value, k)
  {
    var z' := Put(Section(root).value, "routes", Mapping(rs));
    WithRoutesTop(root, Mapping(z'));
    WithRoutesSection(root, rs);
  }

  /** Putting `zuul` back keeps the top-level key order. */
  lemma WithRoutesTop(root: Entries, v: Node)
    requires Section(root).Some?
    ensures Keys(Put(root, "zuul", v)) == Keys(root)
  {
    assert "zuul" in Keys(root);
  }

  /** The new `zuul` holds the new routes. */
  lemma WithRoutesSection(root: Entries, rs: Entries)
    requires Section(root).Some?
    ensures var z' := Put(Section(root).value, "routes", Mapping(rs));
      && Section(WithRoutes(root, rs)) == Some(z')
      && Lookup(z', "routes") == Some(Mapping(rs))
      && RoutesOf(WithRoutes(root, rs)) == Some(rs)
  {
  }

  lemma WithRoutesOk(root: Entries, rs: Entries)
    requires Section(root).Some?
    ensures DocOk(root) && UniqueKeys(rs) ==> DocOk(WithRoutes(root, rs))
  {
    if DocOk(root) && UniqueKeys(rs) {
      var z := Section(root).value;
      var z' := Put(z, "routes", Mapping(rs));
      PutUnique(z, "routes", Mapping(rs));
      PutUnique(root, "zuul", Mapping(z'));
      WithRoutesFacts(root, rs);
    }
  }

  /** The document after `root.put("zuul", zuul)` with a new `zuul` holding only an empty `routes`. */
  function WithNewSection(root: Entries): Entries {
    Put(root, "zuul", Mapping(Put([], "routes", Mapping([]))))
  }

  lemma WithNewSectionFacts(root: Entries)
    requires "zuul" !in Keys(root)
    ensures RoutesOf(WithNewSection(root)) == Some([])
    ensures Keys(WithNewSection(root)) == Keys(root) + ["zuul"]
    ensures forall k :: k != "zuul" ==> Lookup(WithNewSection(root), k) == Lookup(root, k)
    ensures Section(WithNewSection(root)) == Some([("routes", Mapping([]))])
    ensures DocOk(root) ==> DocOk(WithNewSection(root))
  {
    var z := Put([], "routes", Mapping([]));
    assert z == [("routes", Mapping([]))];
    var d := WithNewSection(root);
    assert Lookup(d, "zuul") == Some(Mapping(z));
    assert Lookup(z, "routes") == Some(Mapping([]));
    if DocOk(root) {
      PutUnique(root, "zuul", Mapping(z));
    }
  }

  /**
   * Section bootstrap: a missing `zuul` becomes a mapping holding an empty
   * `routes`; a `zuul` mapping without `routes` gains an empty one; nothing
   * else changes. `None` when `zuul` is not a mapping (the cast throws).
   */
  function EnsureRoutes(root: Entries): Option<Entries> {
    match Lookup(root, "zuul")
    case None => Some(WithNewSection(root))
    case Some(Scalar(_)) => None
    case Some(Mapping(z)) =>
      if Lookup(z, "routes").None? then Some(WithRoutes(root, [])) else Some(root)
  }

  lemma EnsureRoutesSpec(root: Entries)
    ensures var r := EnsureRoutes(root);
      && (r.None? <==> Lookup(root, "zuul").Some? && Lookup(root, "zuul").value.Scalar?)
      && (r.Some? ==> Keys(r.value) == if "zuul" in Keys(root) then Keys(root) else Keys(root) + ["zuul"])
      && (r.Some? ==> forall k :: k != "zuul" ==> Lookup(r.value, k) == Lookup(root, k))
      && (r.Some? ==> Section(r.value).Some?)
      && (r.Some? && Section(root).Some? ==> forall k :: k != "routes" ==>
            Lookup(Section(r.value).value, k) == Lookup(Section(root).value, k))
      && (r.Some? && !Malformed(root) ==>
            RoutesOf(r.value) == Some(if RoutesOf(root).Some? then RoutesOf(root).value else []))
      && (r.Some? && Malformed(root) ==> r.value == root)
      && (r.Some? && DocOk(root) ==> DocOk(r.value))
  {
    match Lookup(root, "zuul")
    case None =>
      WithNewSectionFacts(root);
    case Some(Scalar(_)) =>
    case Some(Mapping(z)) =>
      assert Section(root) == Some(z);
      if Lookup(z, "routes").None? {
        WithRoutesFacts(root, []);
        WithRoutesOk(root, []);
      }
  }

  /** After the bootstrap, `zuul.routes` is there; the upsert goes on exactly when it is a mapping. */
  lemma BootstrapHasRoutes(root: Entries)
    requires EnsureRoutes(root).Some?
    ensures var b := EnsureRoutes(root).value;
      && Section(b).Some? && Lookup(Section(b).value, "routes").Some?
      && (RoutesOf(b).Some? <==> Lookup(Section(b).value, "routes").value.Mapping?)
  {
    match Lookup(root, "zuul")
    case None =>
      WithNewSectionFacts(root);
    case Some(Mapping(z)) =>
      if Lookup(z, "routes").None? {
        WithRoutesFacts(root, []);
      }
  }

  /**
   * Upsert: after bootstrapping the section, the route goes under `key` by
   * `LinkedHashMap.put`. `None` when `zuul` or `zuul.routes` is not a mapping.
   */
  function UpsertRoute(root: Entries, key: string, route: Node): Option<Entries> {
    match EnsureRoutes(root)
    case None => None
    case Some(b) =>
      if RoutesOf(b).None? then None
      else Some(WithRoutes(b, Put(RoutesOf(b).value, key, route)))
  }

  /**
   * The upsert fails exactly on a malformed document; otherwise the routes
   * become the old routes (or none) with `key` put, the top-level keys and
   * the other sections are kept, and so are the other keys of `zuul`.
   */
  lemma UpsertRouteSpec(root: Entries, key: string, route: Node)
    ensures UpsertRoute(root, key, route).None? <==> Malformed(root)
    ensures UpsertRoute(root, key, route).Some? ==>
      RoutesOf(UpsertRoute(root, key, route).value) ==
        Some(Put(if RoutesOf(root).Some? then RoutesOf(root).value else [], key, route))
    ensures UpsertRoute(root, key, route).Some? ==>
      Keys(UpsertRoute(root, key, route).value) == if "zuul" in Keys(root) then Keys(root) else Keys(root) + ["zuul"]
    ensures UpsertRoute(root, key, route).Some? ==>
      forall k :: k != "zuul" ==> Lookup(UpsertRoute(root, key, route).value, k) == Lookup(root, k)
    ensures UpsertRoute(root, key, route).Some? && Section(root).Some? ==>
      forall k :: k != "routes" ==>
        Lookup(Section(UpsertRoute(root, key, route).value).value, k) == Lookup(Section(root).value, k)
    ensures UpsertRoute(root, key, route).Some? && DocOk(root) ==> DocOk(UpsertRoute(root, key, route).value)
  {
    UpsertRouteFails(root, key, route);
    if UpsertRoute(root, key, route).Some? {
      UpsertRouteDoc(root, key, route);
    }
  }

  /** The upsert fails exactly on a malformed document. */
  lemma UpsertRouteFails(root: Entries, key: string, route: Node)
    ensures UpsertRoute(root, key, route).None? <==> Malformed(root)
  {
    if EnsureRoutes(root).Some? && RoutesOf(EnsureRoutes(root).value).Some? {
      UpsertFacts(root, EnsureRoutes(root).value, key, route);
    } else {
      BootstrapFails(root);
    }
  }

  /** A bootstrap that yields no routes section happens only on a malformed document. */
  lemma BootstrapFails(root: Entries)
    requires EnsureRoutes(root).None? || RoutesOf(EnsureRoutes(root).value).None?
    ensures Malformed(root)
  {
    EnsureRoutesSpec(root);
  }

  /** What a successful upsert keeps and changes. */
  lemma UpsertRouteDoc(root: Entries, key: string, route: Node)
    requires UpsertRoute(root, key, route).Some?
    ensures var d := UpsertRoute(root, key, route).value;
      && RoutesOf(d) == Some(Put(if RoutesOf(root).Some? then RoutesOf(root).value else [], key, route))
      && Keys(d) == (if "zuul" in Keys(root) then Keys(root) else Keys(root) + ["zuul"])
      && (forall k :: k != "zuul" ==> Lookup(d, k) == Lookup(root, k))
      && (Section(root).Some? ==> forall k :: k != "routes" ==>
            Lookup(Section(d).value, k) == Lookup(Section(root).value, k))
      && (DocOk(root) ==> DocOk(d))
  {
    var b := EnsureRoutes(root).value;
    UpsertFacts(root, b, key, route);
  }

  lemma UpsertFacts(root: Entries, b: Entries, key: string, route: Node)
    requires EnsureRoutes(root) == Some(b) && RoutesOf(b).Some?
    ensures !Malformed(root)
    ensures var d := WithRoutes(b, Put(RoutesOf(b).value, key, route));
      && RoutesOf(d) == Some(Put(if RoutesOf(root).Some? then RoutesOf(root).value else [], key, route))
      && Keys(d) == (if "zuul" in Keys(root) then Keys(root) else Keys(root) + ["zuul"])
      && (forall k :: k != "zuul" ==> Lookup(d, k) == Lookup(root, k))
      && (Section(root).Some? ==> forall k :: k != "routes" ==>
            Lookup(Section(d).value, k) == Lookup(Section(root).value, k))
      && (DocOk(root) ==> DocOk(d))
  {
    EnsureRoutesSpec(root);
    var rs := Put(RoutesOf(b).value, key, route);
    WithRoutesFacts(b, rs);
    WithRoutesOk(b, rs);
    if DocOk(root) {
      PutUnique(RoutesOf(b).value, key, route);
    }
  }

  /** Adding the same route twice gives the document adding it once gives. */
  lemma UpsertIdempotent(root: Entries, key: string, route: Node)
    requires UpsertRoute(root, key, route).Some?
    ensures UpsertRoute(UpsertRoute(root, key, route).value, key, route) == UpsertRoute(root, key, route)
  {
    var b := EnsureRoutes(root).value;
    var zb := Section(b).value;
    var rs := Put(RoutesOf(b).value, key, route);
    var zd := Put(zb, "routes", Mapping(rs));
    var d := WithRoutes(b, rs);
    assert d == Put(b, "zuul", Mapping(zd));
    WithRoutesFacts(b, rs);
    assert Section(d) == Some(zd);
    assert EnsureRoutes(d) == Some(d);
    assert RoutesOf(d) == Some(rs);
    PutIdempotent(RoutesOf(b).value, key, route);
    PutIdempotent(zb, "routes", Mapping(rs));
    PutIdempotent(b, "zuul", Mapping(zd));
    assert WithRoutes(d, rs) == d;
  }

  /**
   * Lines 164-183 step by step, as the source mutates the loaded maps:
   * give the document a `zuul` section with a `routes` section. `None`
   * where the cast of `zuul` to a map throws.
   */
  method Bootstrap(root: Entries) returns (r: Option<Entries>)
    ensures r == EnsureRoutes(root)
  {
    var doc := root;
    if "zuul" !in Keys(doc) {
      var zuul := Put([], "routes", Mapping([]));
      doc := Put(doc, "zuul", Mapping(zuul));
      return Some(doc);
    }
    var zuul := Lookup(doc, "zuul").value;
    if zuul.Scalar? {
      return None;
    }
    if "routes" !in Keys(zuul.entries) {
      var z := Put(zuul.entries, "routes", Mapping([]));
      doc := Put(doc, "zuul", Mapping(z));
    }
    return Some(doc);
  }

  /**
   * Lines 164-191 step by step: bootstrap the section, fetch `zuul` and
   * `routes` again, put the route. `None` where a cast to a map throws.
   */
  method AddRoute(root: Entries, key: string, route: Node) returns (r: Option<Entries>)
    ensures r == UpsertRoute(root, key, route)
  {
    var boot := Bootstrap(root);
    if boot.None? {
      return None;
    }
    var doc := boot.value;
    BootstrapHasRoutes(root);
    var zuul := Section(doc).value;
    var routes := Lookup(zuul, "routes").value;
    if routes.Scalar? {
      return None;
    }
    doc := Put(doc, "zuul", Mapping(Put(zuul, "routes", Mapping(Put(routes.entries, key, route)))));
    return Some(doc);
  }

  lemma LookupUnique(m: Entries, i: nat)
    requires UniqueKeys(m) && i < |m|
    ensures Lookup(m, m[i].0) == Some(m[i].1)
  {
    var r := Lookup(m, m[i].0);
    var j :| 0 <= j < |m| && m[j] == (m[i].0, r.value);
    assert Keys(m)[i] == m[i].0 && Keys(m)[j] == m[j].0;
  }

  // ---------------------------------------------------------------------
  // Decommissioning: clearing the routes of a container
  // ---------------------------------------------------------------------

  /** The routes with every value whose key contains `name` replaced by the empty string. */
  function Purge(rs: Entries, name: string): Entries {
    seq(|rs|, i requires 0 <= i < |rs| =>
      if Contains(rs[i].0, name) then (rs[i].0, Scalar("")) else rs[i])
  }

  /**
   * Seen as a map, the purge clears exactly the keys that contain `name`:
   * no key is added or dropped and the other routes keep their values.
   */
  lemma PurgeLookup(rs: Entries, name: string, k: string)
    requires UniqueKeys(rs)
    ensures Keys(Purge(rs, name)) == Keys(rs)
    ensures UniqueKeys(Purge(rs, name))
    ensures Lookup(Purge(rs, name), k) ==
      if k in Keys(rs) && Contains(k, name) then Some(Scalar("")) else Lookup(rs, k)
  {
    var p := Purge(rs, name);
    assert Keys(p) == Keys(rs) by {
      forall i | 0 <= i < |rs| ensures Keys(p)[i] == Keys(rs)[i] {}
    }
    assert UniqueKeys(p) by {
      forall i, j | 0 <= i < j < |p| ensures p[i].0 != p[j].0 {
        assert p[i].0 == rs[i].0 && p[j].0 == rs[j].0;
      }
    }
    if k in Keys(rs) {
      var i :| 0 <= i < |rs| && Keys(rs)[i] == k;
      LookupUnique(rs, i);
      LookupUnique(p, i);
    }
  }

  /** Purging twice gives the routes purging once gives. */
  lemma PurgeIdempotent(rs: Entries, name: string)
    ensures Purge(Purge(rs, name), name) == Purge(rs, name)
  {
    var p := Purge(rs, name);
    forall i | 0 <= i < |rs| ensures Purge(p, name)[i] == p[i] {
      assert p[i].0 == rs[i].0;
    }
  }

  /**
   * Lines 350-363 of the decommissioning workflow: collect, in iteration
   * order, the keys that contain the container name, then put the empty
   * string under each of them.
   */
  method ClearMatching(routes: Entries, name: string) returns (r: Entries)
    requires UniqueKeys(routes)
    ensures r == Purge(routes, name)
  {
    var matching: seq<string> := [];
    var i := 0;
    while i < |routes|
      invariant 0 <= i <= |routes|
      invariant forall p :: 0 <= p < i ==> (routes[p].0 in matching <==> Contains(routes[p].0, name))
      invariant forall k :: k in matching ==> k in Keys(routes) && Contains(k, name)
    {
      assert forall p :: 0 <= p < i ==> routes[p].0 != routes[i].0;
      if Contains(routes[i].0, name) {
        assert Keys(routes)[i] == routes[i].0;
        matching := matching + [routes[i].0];
      }
      i := i + 1;
    }
    r := routes;
    var j := 0;
    while j < |matching|
      invariant 0 <= j <= |matching|
      invariant ClearedUpTo(routes, r, matching[..j])
    {
      var k := matching[j];
      ClearOne(routes, r, matching[..j], k);
      TakeNext(matching, j);
      r := Put(r, k, Scalar(""));
      j := j + 1;
    }
    assert matching[..j] == matching;
    forall p | 0 <= p < |routes| ensures r[p] == Purge(routes, name)[p] {
      assert Keys(r)[p] == Keys(routes)[p];
    }
  }

  /** `r` is `routes` with the keys in `cleared` set to the empty string. */
  predicate ClearedUpTo(routes: Entries, r: Entries, cleared: seq<string>) {
    && Keys(r) == Keys(routes) && UniqueKeys(r)
    && forall p :: 0 <= p < |routes| ==>
         r[p] == if routes[p].0 in cleared then (routes[p].0, Scalar("")) else routes[p]
  }

  /** Clearing one more key of `routes` keeps the cleared prefix in step. */
  lemma ClearOne(routes: Entries, r: Entries, cleared: seq<string>, k: string)
    requires ClearedUpTo(routes, r, cleared) && k in Keys(routes)
    ensures ClearedUpTo(routes, Put(r, k, Scalar("")), cleared + [k])
  {
    var next := Put(r, k, Scalar(""));
    PutInPlace(r, k, Scalar(""));
    PutUnique(r, k, Scalar(""));
    forall p | 0 <= p < |routes|
      ensures next[p] == if routes[p].0 in cleared + [k] then (routes[p].0, Scalar("")) else routes[p]
    {
      assert Keys(r)[p] == r[p].0 == routes[p].0 == Keys(routes)[p];
      if routes[p].0 == k {
        assert Keys(next)[p] == next[p].0;
        LookupUnique(next, p);
      }
    }
  }

  /** What decommissioning does to the routing document. */
  datatype Purged = NoRoutes | Broken | Purged(doc: Entries)

  /**
   * Lines 342-371: when `zuul.routes` exists, clear the container's routes
   * in place; when `zuul` or `routes` is missing there is nothing to write;
   * when either is not a mapping the cast throws.
   */
  function PurgeDoc(root: Entries, name: string): Purged {
    match Lookup(root, "zuul")
    case None => NoRoutes
    case Some(Scalar(_)) => Broken
    case Some(Mapping(z)) =>
      match Lookup(z, "routes")
      case None => NoRoutes
      case Some(Scalar(_)) => Broken
      case Some(Mapping(rs)) => Purged(WithRoutes(root, Purge(rs, name)))
  }

  /**
   * The purge breaks exactly on a malformed document and has nothing to do
   * exactly when `zuul.routes` is missing; otherwise the routes become their
   * purge and everything else in the document is kept.
   */
  lemma PurgeDocSpec(root: Entries, name: string)
    requires DocOk(root)
    ensures var r := PurgeDoc(root, name);
      && (r.Broken? <==> Malformed(root))
      && (r.NoRoutes? <==> !Malformed(root) && RoutesOf(root).None?)
      && (r.Purged? ==> RoutesOf(r.doc) == Some(Purge(RoutesOf(root).value, name)))
      && (r.Purged? ==> Keys(r.doc) == Keys(root))
      && (r.Purged? ==> forall k :: k != "zuul" ==> Lookup(r.doc, k) == Lookup(root, k))
      && (r.Purged? ==> forall k :: k != "routes" ==>
            Lookup(Section(r.doc).value, k) == Lookup(Section(root).value, k))
      && (r.Purged? ==> DocOk(r.doc))
  {
    if RoutesOf(root).Some? {
      var rs := RoutesOf(root).value;
      var p := Purge(rs, name);
      PurgeLookup(rs, name, "");
      WithRoutesFacts(root, p);
      WithRoutesOk(root, p);
    }
  }

  /** Applying the purge twice gives the document applying it once gives. */
  lemma PurgeDocIdempotent(root: Entries, name: string)
    requires DocOk(root) && PurgeDoc(root, name).Purged?
    ensures PurgeDoc(PurgeDoc(root, name).doc, name) == PurgeDoc(root, name)
  {
    var z := Section(root).value;
    var p := Purge(RoutesOf(root).value, name);
    var zd := Put(z, "routes", Mapping(p));
    var d := PurgeDoc(root, name).doc;
    assert d == Put(root, "zuul", Mapping(zd));
    assert Section(d) == Some(zd);
    PurgeIdempotent(RoutesOf(root).value, name);
    PutIdempotent(z, "routes", Mapping(p));
    PutIdempotent(root, "zuul", Mapping(zd));
  }
}
