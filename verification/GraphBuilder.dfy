/** The node and edge lists shown for a graph or for one of its incidents (visualization/graph_builder.py). */
module GraphBuilder {
  import opened Options
  import opened Collections
  import opened Selections
  import opened OrderedDicts
  import opened Schema
  import opened IncidentGraph
  import opened Store

  datatype VisNode = VisNode(id: EventId, event: LogEvent)

  datatype VisEdge = VisEdge(from: EventId, to: EventId, edge: CorrelationEdge)

  datatype VisGraph = VisGraph(nodes: seq<VisNode>, edges: seq<VisEdge>)

  predicate NodeShown(n: VisNode, ids: Option<set<EventId>>) {
    ids.Some? ==> n.id in ids.value
  }

  predicate EdgeShown(e: VisEdge, ids: Option<set<EventId>>) {
    ids.Some? ==> e.from in ids.value && e.to in ids.value
  }

  function ToNode(kv: (EventId, LogEvent)): VisNode {
    VisNode(kv.0, kv.1)
  }

  function ToEdge(kv: ((EventId, EventId), CorrelationEdge)): VisEdge {
    VisEdge(kv.0.0, kv.0.1, kv.1)
  }

  function ShownNodes(items: seq<(EventId, LogEvent)>, ids: Option<set<EventId>>): seq<VisNode> {
    if items == [] then []
    else
      var n := ToNode(items[|items| - 1]);
      ShownNodes(items[..|items| - 1], ids) + if NodeShown(n, ids) then [n] else []
  }

  function ShownEdges(items: seq<((EventId, EventId), CorrelationEdge)>, ids: Option<set<EventId>>): seq<VisEdge> {
    if items == [] then []
    else
      var e := ToEdge(items[|items| - 1]);
      ShownEdges(items[..|items| - 1], ids) + if EdgeShown(e, ids) then [e] else []
  }

  function GraphJson(g: Graph, ids: Option<set<EventId>>): VisGraph {
    VisGraph(ShownNodes(Items(g.nodes), ids), ShownEdges(Items(g.edges), ids))
  }

  method BuildGraphJson(g: Graph, ids: Option<set<EventId>>) returns (json: VisGraph)
    ensures json == GraphJson(g, ids)
  {
    var nodes: seq<VisNode> := [];
    var nodeItems := Items(g.nodes);
    for i := 0 to |nodeItems|
      invariant nodes == ShownNodes(nodeItems[..i], ids)
    {
      assert nodeItems[..i + 1][..i] == nodeItems[..i];
      if ids.Some? && nodeItems[i].0 !in ids.value {
        continue;
      }
      nodes := nodes + [ToNode(nodeItems[i])];
    }
    assert nodeItems[..|nodeItems|] == nodeItems;
    var edges: seq<VisEdge> := [];
    var edgeItems := Items(g.edges);
    for i := 0 to |edgeItems|
      invariant edges == ShownEdges(edgeItems[..i], ids)
    {
      assert edgeItems[..i + 1][..i] == edgeItems[..i];
      if ids.Some? && (edgeItems[i].0.0 !in ids.value || edgeItems[i].0.1 !in ids.value) {
        continue;
      }
      edges := edges + [ToEdge(edgeItems[i])];
    }
    assert edgeItems[..|edgeItems|] == edgeItems;
    json := VisGraph(nodes, edges);
  }

  function NodeIf(ids: Option<set<EventId>>): ((EventId, LogEvent)) -> Option<VisNode> {
    (kv: (EventId, LogEvent)) => if ids == None || kv.0 in ids.value then Some(VisNode(kv.0, kv.1)) else None
  }

  function EdgeIf(ids: Option<set<EventId>>): (((EventId, EventId), CorrelationEdge)) -> Option<VisEdge> {
    (kv: ((EventId, EventId), CorrelationEdge)) =>
      if ids == None || {kv.0.0, kv.0.1} <= ids.value then Some(VisEdge(kv.0.0, kv.0.1, kv.1)) else None
  }

  lemma {:induction false} NodesYield(items: seq<(EventId, LogEvent)>, ids: Option<set<EventId>>) returns (at: seq<nat>)
    ensures Yields(NodeIf(ids), items, ShownNodes(items, ids), at)
  {
    if items == [] {
      at := [];
    } else {
      var init := items[..|items| - 1];
      at := NodesYield(init, ids);
      at := YieldsLast(NodeIf(ids), items, ShownNodes(init, ids), at);
    }
  }

  lemma {:induction false} EdgesYield(items: seq<((EventId, EventId), CorrelationEdge)>, ids: Option<set<EventId>>)
    returns (at: seq<nat>)
    ensures Yields(EdgeIf(ids), items, ShownEdges(items, ids), at)
  {
    if items == [] {
      at := [];
    } else {
      var init := items[..|items| - 1];
      at := EdgesYield(init, ids);
      at := YieldsLast(EdgeIf(ids), items, ShownEdges(init, ids), at);
    }
  }

  /** A view shows, in graph order, the nodes it is asked for and the edges with both ends among them; without a choice
      of nodes, everything. */
  lemma ViewShows(g: Graph, ids: Option<set<EventId>>) returns (nodesAt: seq<nat>, edgesAt: seq<nat>)
    ensures Yields(NodeIf(ids), Items(g.nodes), GraphJson(g, ids).nodes, nodesAt)
    ensures Yields(EdgeIf(ids), Items(g.edges), GraphJson(g, ids).edges, edgesAt)
  {
    nodesAt := NodesYield(Items(g.nodes), ids);
    edgesAt := EdgesYield(Items(g.edges), ids);
  }

  // ---- All incident views together ----

  function NodeViews(items: seq<(EventId, LogEvent)>, parts: seq<set<EventId>>): seq<VisNode> {
    if parts == [] then [] else ShownNodes(items, Some(parts[0])) + NodeViews(items, parts[1..])
  }

  function EdgeViews(items: seq<((EventId, EventId), CorrelationEdge)>, parts: seq<set<EventId>>): seq<VisEdge> {
    if parts == [] then [] else ShownEdges(items, Some(parts[0])) + EdgeViews(items, parts[1..])
  }

  /** How many parts hold both of two nodes. */
  function Homes(parts: seq<set<EventId>>, u: EventId, v: EventId): nat {
    if parts == [] then 0 else (if u in parts[0] && v in parts[0] then 1 else 0) + Homes(parts[1..], u, v)
  }

  lemma {:induction false} OneMoreNode(items: seq<(EventId, LogEvent)>, x: (EventId, LogEvent),
      parts: seq<set<EventId>>)
    requires Homes(parts, x.0, x.0) <= 1
    ensures multiset(NodeViews(items + [x], parts))
      == multiset(NodeViews(items, parts)) + if Homes(parts, x.0, x.0) == 1 then multiset{ToNode(x)} else multiset{}
  {
    if parts == [] {
    } else {
      assert (items + [x])[..|items|] == items;
      OneMoreNode(items, x, parts[1..]);
    }
  }

  lemma {:induction false} OneMoreEdge(items: seq<((EventId, EventId), CorrelationEdge)>,
      x: ((EventId, EventId), CorrelationEdge), parts: seq<set<EventId>>)
    requires Homes(parts, x.0.0, x.0.1) <= 1
    ensures multiset(EdgeViews(items + [x], parts))
      == multiset(EdgeViews(items, parts)) + if Homes(parts, x.0.0, x.0.1) == 1 then multiset{ToEdge(x)} else multiset{}
  {
    if parts == [] {
    } else {
      assert (items + [x])[..|items|] == items;
      OneMoreEdge(items, x, parts[1..]);
    }
  }

  lemma {:induction false} NoItemsNoViews(parts: seq<set<EventId>>)
    ensures NodeViews([], parts) == [] && EdgeViews([], parts) == []
  {
    if parts == [] {
    } else {
      NoItemsNoViews(parts[1..]);
    }
  }

  lemma {:induction false} NodeViewsAreAll(items: seq<(EventId, LogEvent)>, parts: seq<set<EventId>>)
    requires forall x :: x in items ==> Homes(parts, x.0, x.0) == 1
    ensures multiset(NodeViews(items, parts)) == multiset(ShownNodes(items, None))
  {
    if items == [] {
      NoItemsNoViews(parts);
    } else {
      var init, last := items[..|items| - 1], items[|items| - 1];
      assert items == init + [last];
      NodeViewsAreAll(init, parts);
      OneMoreNode(init, last, parts);
    }
  }

  lemma {:induction false} EdgeViewsAreAll(items: seq<((EventId, EventId), CorrelationEdge)>, parts: seq<set<EventId>>)
    requires forall x :: x in items ==> Homes(parts, x.0.0, x.0.1) == 1
    ensures multiset(EdgeViews(items, parts)) == multiset(ShownEdges(items, None))
  {
    if items == [] {
      NoItemsNoViews(parts);
    } else {
      var init, last := items[..|items| - 1], items[|items| - 1];
      assert items == init + [last];
      EdgeViewsAreAll(init, parts);
      OneMoreEdge(init, last, parts);
    }
  }

  ghost predicate SeparateParts(parts: seq<set<EventId>>) {
    forall i, j :: 0 <= i < j < |parts| ==> parts[i] !! parts[j]
  }

  lemma {:induction false} NoHome(parts: seq<set<EventId>>, u: EventId, v: EventId)
    requires forall i :: 0 <= i < |parts| ==> u !in parts[i] || v !in parts[i]
    ensures Homes(parts, u, v) == 0
  {
    if parts == [] {
    } else {
      NoHome(parts[1..], u, v);
    }
  }

  lemma {:induction false} OneHome(parts: seq<set<EventId>>, u: EventId, v: EventId, k: nat)
    requires SeparateParts(parts) && k < |parts| && u in parts[k] && v in parts[k]
    ensures Homes(parts, u, v) == 1
  {
    if k == 0 {
      forall i | 0 <= i < |parts[1..]|
        ensures u !in parts[1..][i] || v !in parts[1..][i]
      {
        assert parts[0] !! parts[i + 1];
      }
      NoHome(parts[1..], u, v);
    } else {
      OneHome(parts[1..], u, v, k - 1);
    }
  }

  lemma HomeOfLink(parts: seq<set<EventId>>, nodes: set<EventId>, links: Links, u: EventId, v: EventId)
    requires SeparateParts(parts) && Elements(parts) == Incidents(nodes, links)
    requires u in nodes && v in nodes && Connected(links, u, v)
    ensures Homes(parts, u, v) == 1
  {
    SameIncidentIffConnected(nodes, links, u, v);
    var c :| c in Incidents(nodes, links) && u in c && v in c;
    assert c in Elements(parts);
    var k :| 0 <= k < |parts| && parts[k] == c;
    OneHome(parts, u, v, k);
  }

  lemma DistinctIncidentsSeparate(parts: seq<set<EventId>>, nodes: set<EventId>, links: Links)
    requires Distinct(parts) && Elements(parts) == Incidents(nodes, links)
    ensures SeparateParts(parts)
  {
    IncidentsAreDisjoint(nodes, links);
    forall i, j | 0 <= i < j < |parts|
      ensures parts[i] !! parts[j]
    {
      assert parts[i] in Elements(parts) && parts[j] in Elements(parts) && parts[i] != parts[j];
    }
  }

  /** On one graph snapshot the views of all incidents together are the full view: every node and every edge appears in
      exactly one of them, so no edge is cut and none is repeated. */
  lemma IncidentViewsLoseNothing(g: Graph, events: EventTable, edges: EdgeTable, parts: seq<set<EventId>>)
    requires IsGraphOf(g, events, edges) && ForeignKeys(events, edges)
    requires Distinct(parts) && Elements(parts) == Incidents(events.Keys, TableLinks(edges))
    ensures multiset(NodeViews(Items(g.nodes), parts)) == multiset(GraphJson(g, None).nodes)
    ensures multiset(EdgeViews(Items(g.edges), parts)) == multiset(GraphJson(g, None).edges)
  {
    var nodes, links := events.Keys, GraphLinks(g);
    GraphIncidents(g, events, edges);
    DistinctIncidentsSeparate(parts, nodes, links);
    ItemsSpec(g.nodes);
    ItemsSpec(g.edges);
    forall x | x in Items(g.nodes)
      ensures Homes(parts, x.0, x.0) == 1
    {
      ConnectedReflexive(links, x.0);
      HomeOfLink(parts, nodes, links, x.0, x.0);
    }
    forall x | x in Items(g.edges)
      ensures Homes(parts, x.0.0, x.0.1) == 1
    {
      assert x.0 in links;
      AdjacentConnected(links, x.0.0, x.0.1);
      HomeOfLink(parts, nodes, links, x.0.0, x.0.1);
    }
    NodeViewsAreAll(Items(g.nodes), parts);
    EdgeViewsAreAll(Items(g.edges), parts);
  }
}
