/** Undirected graphs over event ids, their connected components, and the worklist search that finds them. */
module IncidentGraph {
  import opened Collections
  import opened Schema

  type Links = set<(EventId, EventId)>

  ghost function LinksOf(edges: seq<CorrelationEdge>): Links {
    set e | e in edges :: (e.source, e.target)
  }

  predicate Adjacent(links: Links, a: EventId, b: EventId) {
    (a, b) in links || (b, a) in links
  }

  ghost predicate IsPath(links: Links, p: seq<EventId>) {
    p != [] && forall i :: 0 <= i < |p| - 1 ==> Adjacent(links, p[i], p[i + 1])
  }

  ghost predicate PathBetween(links: Links, p: seq<EventId>, a: EventId, b: EventId) {
    IsPath(links, p) && p[0] == a && p[|p| - 1] == b
  }

  ghost predicate Connected(links: Links, a: EventId, b: EventId) {
    exists p :: PathBetween(links, p, a, b)
  }

  ghost function Component(nodes: set<EventId>, links: Links, a: EventId): set<EventId> {
    set b | b in nodes && Connected(links, a, b)
  }

  /** An incident is a connected component of the graph. */
  ghost function Incidents(nodes: set<EventId>, links: Links): set<set<EventId>> {
    set a | a in nodes :: Component(nodes, links, a)
  }

  /** Both ends of every link are nodes of the graph. */
  ghost predicate Within(nodes: set<EventId>, links: Links) {
    forall a, b :: (a, b) in links ==> a in nodes && b in nodes
  }

  ghost predicate ClosedUnder(s: set<EventId>, links: Links) {
    forall a, b :: a in s && Adjacent(links, a, b) ==> b in s
  }

  // ---- Connectedness is an equivalence ----

  lemma ConnectedReflexive(links: Links, a: EventId)
    ensures Connected(links, a, a)
  {
    assert PathBetween(links, [a], a, a);
  }

  lemma AdjacentConnected(links: Links, a: EventId, b: EventId)
    requires Adjacent(links, a, b)
    ensures Connected(links, a, b)
  {
    assert PathBetween(links, [a, b], a, b);
  }

  lemma ConnectedTransitive(links: Links, a: EventId, b: EventId, c: EventId)
    requires Connected(links, a, b) && Connected(links, b, c)
    ensures Connected(links, a, c)
  {
    var p :| PathBetween(links, p, a, b);
    var q :| PathBetween(links, q, b, c);
    var r := p + q[1..];
    assert q == [b] + q[1..];
    forall i | 0 <= i < |r| - 1
      ensures Adjacent(links, r[i], r[i + 1])
    {
      if i >= |p| - 1 {
        assert r[i] == q[i - |p| + 1] && r[i + 1] == q[i - |p| + 2];
      }
    }
    assert PathBetween(links, r, a, c);
  }

  lemma {:induction false} PathReversed(links: Links, p: seq<EventId>)
    requires IsPath(links, p)
    ensures Connected(links, p[|p| - 1], p[0])
  {
    if |p| == 1 {
      ConnectedReflexive(links, p[0]);
    } else {
      PathReversed(links, p[1..]);
      AdjacentConnected(links, p[1], p[0]);
      ConnectedTransitive(links, p[|p| - 1], p[1], p[0]);
    }
  }

  lemma ConnectedSymmetric(links: Links, a: EventId, b: EventId)
    requires Connected(links, a, b)
    ensures Connected(links, b, a)
  {
    var p :| PathBetween(links, p, a, b);
    PathReversed(links, p);
  }

  /** More links never disconnect anything. */
  lemma ConnectedMonotone(links: Links, more: Links, a: EventId, b: EventId)
    requires links <= more && Connected(links, a, b)
    ensures Connected(more, a, b)
  {
    var p :| PathBetween(links, p, a, b);
    assert PathBetween(more, p, a, b);
  }

  // ---- Closed sets trap paths ----

  /** A path that starts in a closed set stays there, and uses only the links that the set sees. */
  lemma {:induction false} ClosedSetTrapsPath(s: set<EventId>, links: Links, inner: Links, p: seq<EventId>)
    requires ClosedUnder(s, links) && IsPath(links, p) && p[0] in s
    requires forall a, b :: a in s && Adjacent(links, a, b) ==> Adjacent(inner, a, b)
    ensures forall x :: x in p ==> x in s
    ensures IsPath(inner, p)
  {
    if |p| == 1 {
    } else {
      assert Adjacent(links, p[0], p[1]);
      var rest := p[1..];
      assert forall i :: 0 <= i < |rest| ==> rest[i] == p[i + 1];
      ClosedSetTrapsPath(s, links, inner, rest);
      assert p == [p[0]] + p[1..];
      forall i | 0 <= i < |p| - 1
        ensures Adjacent(inner, p[i], p[i + 1])
      {
        if i > 0 {
          assert Adjacent(inner, rest[i - 1], rest[i]);
        }
      }
    }
  }

  lemma ClosedSetTraps(s: set<EventId>, links: Links, a: EventId, b: EventId)
    requires ClosedUnder(s, links) && a in s && Connected(links, a, b)
    ensures b in s
  {
    var p :| PathBetween(links, p, a, b);
    ClosedSetTrapsPath(s, links, links, p);
  }

  // ---- Components partition the nodes ----

  lemma ComponentsEqual(nodes: set<EventId>, links: Links, a: EventId, b: EventId)
    requires Connected(links, a, b)
    ensures Component(nodes, links, a) == Component(nodes, links, b)
  {
    ConnectedSymmetric(links, a, b);
    forall x | x in nodes
      ensures Connected(links, a, x) <==> Connected(links, b, x)
    {
      if Connected(links, a, x) {
        ConnectedTransitive(links, b, a, x);
      }
      if Connected(links, b, x) {
        ConnectedTransitive(links, a, b, x);
      }
    }
  }

  /** Two nodes share an incident exactly when a path joins them. */
  lemma SameIncidentIffConnected(nodes: set<EventId>, links: Links, a: EventId, b: EventId)
    requires a in nodes && b in nodes
    ensures (exists c :: c in Incidents(nodes, links) && a in c && b in c) <==> Connected(links, a, b)
  {
    ConnectedReflexive(links, a);
    if Connected(links, a, b) {
      assert Component(nodes, links, a) in Incidents(nodes, links);
    }
    if c :| c in Incidents(nodes, links) && a in c && b in c {
      var x :| x in nodes && c == Component(nodes, links, x);
      ConnectedSymmetric(links, x, a);
      ConnectedTransitive(links, a, x, b);
    }
  }

  ghost predicate NonEmptyParts(parts: set<set<EventId>>, whole: set<EventId>) {
    forall p :: p in parts ==> p != {} && p <= whole
  }

  ghost predicate DisjointParts(parts: set<set<EventId>>) {
    forall p, q :: p in parts && q in parts && p != q ==> p !! q
  }

  ghost predicate Covers(parts: set<set<EventId>>, whole: set<EventId>) {
    forall x {:trigger InSome(parts, x)} :: x in whole ==> InSome(parts, x)
  }

  ghost predicate InSome(parts: set<set<EventId>>, x: EventId) {
    exists p :: p in parts && x in p
  }

  ghost predicate Partition(parts: set<set<EventId>>, whole: set<EventId>) {
    NonEmptyParts(parts, whole) && DisjointParts(parts) && Covers(parts, whole)
  }

  lemma IncidentsAreNonEmpty(nodes: set<EventId>, links: Links)
    ensures NonEmptyParts(Incidents(nodes, links), nodes)
  {
    forall c | c in Incidents(nodes, links)
      ensures c != {} && c <= nodes
    {
      var a :| a in nodes && c == Component(nodes, links, a);
      ConnectedReflexive(links, a);
      assert a in c;
    }
  }

  lemma IncidentsAreDisjoint(nodes: set<EventId>, links: Links)
    ensures DisjointParts(Incidents(nodes, links))
  {
    forall p, q | p in Incidents(nodes, links) && q in Incidents(nodes, links) && p != q
      ensures p !! q
    {
      var a :| a in nodes && p == Component(nodes, links, a);
      var b :| b in nodes && q == Component(nodes, links, b);
      forall x | x in p
        ensures x !in q
      {
        ComponentsEqual(nodes, links, a, x);
        if x in q {
          ComponentsEqual(nodes, links, b, x);
        }
      }
    }
  }

  lemma IncidentsCover(nodes: set<EventId>, links: Links)
    ensures Covers(Incidents(nodes, links), nodes)
  {
    forall x | x in nodes
      ensures InSome(Incidents(nodes, links), x)
    {
      ConnectedReflexive(links, x);
      assert x in Component(nodes, links, x) && Component(nodes, links, x) in Incidents(nodes, links);
    }
  }

  /** Every node lies in exactly one incident. */
  lemma IncidentsPartition(nodes: set<EventId>, links: Links)
    ensures Partition(Incidents(nodes, links), nodes)
  {
    IncidentsAreNonEmpty(nodes, links);
    IncidentsAreDisjoint(nodes, links);
    IncidentsCover(nodes, links);
  }

  // ---- Unions of graphs on separate nodes ----

  lemma SeparateUnionComponent(n1: set<EventId>, l1: Links, n2: set<EventId>, l2: Links, a: EventId)
    requires n1 !! n2 && Within(n1, l1) && Within(n2, l2) && a in n1
    ensures Component(n1 + n2, l1 + l2, a) == Component(n1, l1, a)
  {
    var links := l1 + l2;
    assert ClosedUnder(n1, links);
    forall b | b in n1 + n2
      ensures Connected(links, a, b) <==> b in n1 && Connected(l1, a, b)
    {
      if Connected(links, a, b) {
        var p :| PathBetween(links, p, a, b);
        ClosedSetTrapsPath(n1, links, l1, p);
        assert PathBetween(l1, p, a, b);
      }
      if Connected(l1, a, b) {
        ConnectedMonotone(l1, links, a, b);
      }
    }
  }

  /** Putting two graphs on separate nodes side by side neither merges nor splits an incident. */
  lemma SeparateUnion(n1: set<EventId>, l1: Links, n2: set<EventId>, l2: Links)
    requires n1 !! n2 && Within(n1, l1) && Within(n2, l2)
    ensures Incidents(n1 + n2, l1 + l2) == Incidents(n1, l1) + Incidents(n2, l2)
    ensures Incidents(n1, l1) !! Incidents(n2, l2)
  {
    forall a | a in n1
      ensures Component(n1 + n2, l1 + l2, a) == Component(n1, l1, a)
    {
      SeparateUnionComponent(n1, l1, n2, l2, a);
    }
    forall a | a in n2
      ensures Component(n1 + n2, l1 + l2, a) == Component(n2, l2, a)
    {
      SeparateUnionComponent(n2, l2, n1, l1, a);
      assert n2 + n1 == n1 + n2 && l2 + l1 == l1 + l2;
    }
    IncidentsAreNonEmpty(n1, l1);
    IncidentsAreNonEmpty(n2, l2);
    forall c | c in Incidents(n1, l1)
      ensures c !in Incidents(n2, l2)
    {
      var x :| x in c;
      assert x in n1 && x !in n2;
    }
  }

  // ---- Shortest paths ----

  /** A component that no link touches is one of the graph without links. */
  lemma LinklessComponent(nodes: set<EventId>, links: Links, c: set<EventId>)
    requires c in Incidents(nodes, links)
    requires forall a, b :: (a, b) in links ==> a !in c && b !in c
    ensures c in Incidents(nodes, {})
  {
    var root :| root in nodes && c == Component(nodes, links, root);
    ConnectedReflexive(links, root);
    ConnectedReflexive({}, root);
    forall b | b in nodes
      ensures Connected(links, root, b) <==> Connected({}, root, b)
    {
      if Connected(links, root, b) {
        ClosedSetTraps({root}, links, root, b);
      }
      if Connected({}, root, b) {
        ConnectedMonotone({}, links, root, b);
      }
    }
    assert c == Component(nodes, {}, root);
  }

  /** Any connection can be made without visiting a node twice. */
  lemma {:induction false} SimplePath(links: Links, p: seq<EventId>, a: EventId, b: EventId) returns (q: seq<EventId>)
    requires PathBetween(links, p, a, b)
    ensures PathBetween(links, q, a, b) && Distinct(q)
    ensures forall x :: x in q ==> x in p
    decreases |p|
  {
    if i, j :| 0 <= i < j < |p| && p[i] == p[j] {
      var shorter := p[..i] + p[j..];
      forall k | 0 <= k < |shorter| - 1
        ensures Adjacent(links, shorter[k], shorter[k + 1])
      {
        if k >= i {
          assert shorter[k] == p[k - i + j] && shorter[k + 1] == p[k - i + j + 1];
        } else {
          assert Adjacent(links, p[k], p[k + 1]);
          assert shorter[k] == p[k] && shorter[k + 1] == p[k + 1];
        }
      }
      assert PathBetween(links, shorter, a, b);
      q := SimplePath(links, shorter, a, b);
    } else {
      q := p;
    }
  }

  // ---- The search ----

  function Neighbours(nodes: set<EventId>, links: Links, v: EventId): set<EventId> {
    set w | w in nodes && Adjacent(links, v, w)
  }

  /** Breadth-first search from one node with an explicit worklist. */
  method BreadthFirst(nodes: set<EventId>, links: Links, source: EventId) returns (seen: set<EventId>)
    requires source in nodes && Within(nodes, links)
    ensures seen == Component(nodes, links, source)
  {
    seen := {source};
    var worklist := [source];
    ghost var done: set<EventId> := {};
    ConnectedReflexive(links, source);
    while worklist != []
      invariant source in seen && seen <= nodes
      invariant Distinct(worklist)
      invariant done <= seen
      invariant forall x :: x in seen <==> x in done || x in worklist
      invariant forall x :: x in done ==> x !in worklist
      invariant forall x :: x in seen ==> Connected(links, source, x)
      invariant forall x, y :: x in done && Adjacent(links, x, y) ==> y in seen
      decreases nodes - done
    {
      var v := worklist[0];
      ghost var rest := worklist[1..];
      assert worklist == [v] + rest;
      var found := Neighbours(nodes, links, v) - seen;
      var queue := Enqueue(found);
      forall x | x in found
        ensures Connected(links, source, x)
      {
        AdjacentConnected(links, v, x);
        ConnectedTransitive(links, source, v, x);
      }
      DistinctParts([v], rest);
      DistinctConcat(rest, queue);
      worklist := worklist[1..] + queue;
      seen := seen + found;
      done := done + {v};
    }
    assert ClosedUnder(seen, links);
    forall x | x in nodes && Connected(links, source, x)
      ensures x in seen
    {
      ClosedSetTraps(seen, links, source, x);
    }
  }

  /** The elements of a set, in whatever order they come. */
  method Enqueue(s: set<EventId>) returns (queue: seq<EventId>)
    ensures Distinct(queue)
    ensures forall x :: x in queue <==> x in s
  {
    queue := [];
    var left := s;
    while left != {}
      invariant left <= s
      invariant Distinct(queue)
      invariant forall x :: x in queue <==> x in s - left
      decreases left
    {
      var x :| x in left;
      DistinctSnoc(queue, x);
      queue := queue + [x];
      left := left - {x};
    }
  }

  ghost predicate Covered(components: seq<set<EventId>>, x: EventId) {
    exists c :: c in components && x in c
  }

  /** The components yielded so far are incidents, all different, and cover every node seen. */
  ghost predicate Yielded(components: seq<set<EventId>>, seen: set<EventId>, nodes: set<EventId>, links: Links) {
    Distinct(components)
    && (forall c :: c in components ==> c in Incidents(nodes, links) && c <= seen)
    && (forall x :: x in seen ==> Covered(components, x))
  }

  lemma YieldOne(components: seq<set<EventId>>, seen: set<EventId>, nodes: set<EventId>, links: Links, v: EventId)
    requires Yielded(components, seen, nodes, links) && v in nodes && v !in seen
    ensures var c := Component(nodes, links, v);
      v in c && Yielded(components + [c], seen + c, nodes, links)
  {
    var c := Component(nodes, links, v);
    ConnectedReflexive(links, v);
    DistinctSnoc(components, c);
    forall x | x in seen + c
      ensures Covered(components + [c], x)
    {
      if x in c {
        assert c in components + [c];
      } else {
        assert Covered(components, x);
        var d :| d in components && x in d;
        assert d in components + [c];
      }
    }
  }

  /** Parts of a partition that together cover everything are all the parts there are. */
  lemma CoveringPartsAreAll(components: seq<set<EventId>>, parts: set<set<EventId>>, whole: set<EventId>)
    requires NonEmptyParts(parts, whole) && DisjointParts(parts)
    requires forall c :: c in components ==> c in parts
    requires forall x :: x in whole ==> Covered(components, x)
    ensures Elements(components) == parts
  {
    forall c | c in parts
      ensures c in components
    {
      var x :| x in c;
      assert Covered(components, x);
      var d :| d in components && x in d;
      assert !(c !! d);
    }
  }

  /** networkx.connected_components: one search per node not seen before. */
  method ConnectedComponents(order: seq<EventId>, links: Links) returns (components: seq<set<EventId>>)
    requires Within(Elements(order), links)
    ensures Elements(components) == Incidents(Elements(order), links)
    ensures Distinct(components)
  {
    components := [];
    var nodes := set x | x in order;
    assert nodes == Elements(order);
    var seen: set<EventId> := {};
    for i := 0 to |order|
      invariant Yielded(components, seen, nodes, links)
      invariant forall j :: 0 <= j < i ==> order[j] in seen
    {
      var v := order[i];
      if v !in seen {
        var c := BreadthFirst(nodes, links, v);
        YieldOne(components, seen, nodes, links, v);
        components := components + [c];
        seen := seen + c;
      }
    }
    IncidentsAreNonEmpty(nodes, links);
    IncidentsAreDisjoint(nodes, links);
    CoveringPartsAreAll(components, Incidents(nodes, links), nodes);
  }
}
