/** The Relationship Store (storage/relationship_store.py): two tables with a foreign key, and the graph they hold. */
module Store {
  import opened Collections
  import opened OrderedDicts
  import opened StableSorting
  import opened Selections
  import opened Schema
  import opened IncidentGraph

  type EdgeId = string

  datatype EdgeRow = EdgeRow(id: EdgeId, edge: CorrelationEdge)

  type EventTable = map<EventId, LogEvent>
  type EdgeTable = map<EdgeId, CorrelationEdge>

  /** INSERT ... ON CONFLICT (event_id) DO NOTHING, row by row. */
  function InsertEvents(t: EventTable, rows: seq<LogEvent>): EventTable
    decreases rows
  {
    if rows == [] then t
    else InsertEvents(if rows[0].id in t then t else t[rows[0].id := rows[0]], rows[1..])
  }

  /** INSERT ... ON CONFLICT (edge_id) DO NOTHING, row by row. */
  function InsertEdges(t: EdgeTable, rows: seq<EdgeRow>): EdgeTable
    decreases rows
  {
    if rows == [] then t
    else InsertEdges(if rows[0].id in t then t else t[rows[0].id := rows[0].edge], rows[1..])
  }

  /** Both ends of every stored edge are stored events. */
  predicate ForeignKeys(events: EventTable, edges: EdgeTable) {
    forall id :: id in edges ==> edges[id].source in events && edges[id].target in events
  }

  ghost function TableLinks(edges: EdgeTable): Links {
    set id | id in edges :: (edges[id].source, edges[id].target)
  }

  /** `more` has every row of `t`, unchanged. */
  ghost predicate Keeps<K, V>(t: map<K, V>, more: map<K, V>) {
    t.Keys <= more.Keys && forall k :: k in t ==> more[k] == t[k]
  }

  lemma {:induction false} InsertEventsSpec(t: EventTable, rows: seq<LogEvent>)
    ensures Keeps(t, InsertEvents(t, rows))
    ensures InsertEvents(t, rows).Keys == t.Keys + Ids(rows)
    ensures forall id :: id in InsertEvents(t, rows) && id !in t ==>
      InsertEvents(t, rows)[id] in rows && InsertEvents(t, rows)[id].id == id
    decreases rows
  {
    if rows == [] {
    } else {
      var next := if rows[0].id in t then t else t[rows[0].id := rows[0]];
      InsertEventsSpec(next, rows[1..]);
      assert rows == [rows[0]] + rows[1..];
      assert Ids(rows) == {rows[0].id} + Ids(rows[1..]);
    }
  }

  ghost function RowIds(rows: seq<EdgeRow>): set<EdgeId> {
    set r | r in rows :: r.id
  }

  lemma {:induction false} InsertEdgesSpec(t: EdgeTable, rows: seq<EdgeRow>)
    ensures Keeps(t, InsertEdges(t, rows))
    ensures InsertEdges(t, rows).Keys == t.Keys + RowIds(rows)
    ensures forall id :: id in InsertEdges(t, rows) && id !in t ==> EdgeRow(id, InsertEdges(t, rows)[id]) in rows
    decreases rows
  {
    if rows == [] {
    } else {
      var next := if rows[0].id in t then t else t[rows[0].id := rows[0].edge];
      InsertEdgesSpec(next, rows[1..]);
      assert rows == [rows[0]] + rows[1..];
      assert RowIds(rows) == {rows[0].id} + RowIds(rows[1..]);
    }
  }

  lemma {:induction false} InsertEventsNothing(t: EventTable, rows: seq<LogEvent>)
    requires Ids(rows) <= t.Keys
    ensures InsertEvents(t, rows) == t
    decreases rows
  {
    if rows == [] {
    } else {
      assert rows[0].id in Ids(rows);
      InsertEventsNothing(t, rows[1..]);
    }
  }

  lemma {:induction false} InsertEdgesNothing(t: EdgeTable, rows: seq<EdgeRow>)
    requires RowIds(rows) <= t.Keys
    ensures InsertEdges(t, rows) == t
    decreases rows
  {
    if rows == [] {
    } else {
      assert rows[0].id in RowIds(rows);
      InsertEdgesNothing(t, rows[1..]);
    }
  }

  /** Saving the same rows a second time changes nothing. */
  lemma SavingAgainIsNoOp(events: EventTable, edges: EdgeTable, eventRows: seq<LogEvent>, edgeRows: seq<EdgeRow>)
    ensures InsertEvents(InsertEvents(events, eventRows), eventRows) == InsertEvents(events, eventRows)
    ensures InsertEdges(InsertEdges(edges, edgeRows), edgeRows) == InsertEdges(edges, edgeRows)
  {
    InsertEventsSpec(events, eventRows);
    InsertEdgesSpec(edges, edgeRows);
    InsertEventsNothing(InsertEvents(events, eventRows), eventRows);
    InsertEdgesNothing(InsertEdges(edges, edgeRows), edgeRows);
  }

  /** No save ever takes two events of one incident apart. */
  lemma SavesNeverDisconnect(edges: EdgeTable, rows: seq<EdgeRow>, a: EventId, b: EventId)
    requires Connected(TableLinks(edges), a, b)
    ensures Connected(TableLinks(InsertEdges(edges, rows)), a, b)
  {
    InsertEdgesSpec(edges, rows);
    var more := InsertEdges(edges, rows);
    forall l | l in TableLinks(edges)
      ensures l in TableLinks(more)
    {
      var id :| id in edges && l == (edges[id].source, edges[id].target);
      assert id in more && more[id] == edges[id];
    }
    ConnectedMonotone(TableLinks(edges), TableLinks(more), a, b);
  }

  // ---- The graph ----

  /** networkx.Graph: nodes and undirected edges in insertion order; re-adding an edge overwrites its attributes. */
  datatype Graph = Graph(nodes: OrderedDict<EventId, LogEvent>, edges: OrderedDict<(EventId, EventId), CorrelationEdge>)

  ghost function GraphLinks(g: Graph): Links {
    g.edges.values.Keys
  }

  /** What the graph of a store must look like, whatever order the database returns its rows in. */
  ghost predicate IsGraphOf(g: Graph, events: EventTable, edges: EdgeTable) {
    g.nodes.values == events
    && (forall key :: key in g.edges.values ==>
          EdgePair(g.edges.values[key]) == key && Stored(g.edges.values[key], events, edges))
    && (forall id :: id in edges && edges[id].source in events && edges[id].target in events ==>
          EdgePair(edges[id]) in g.edges.values)
  }

  ghost predicate Stored(e: CorrelationEdge, events: EventTable, edges: EdgeTable) {
    e.source in events && e.target in events && exists id :: id in edges && edges[id] == e
  }

  lemma SameAdjacencySameIncidents(nodes: set<EventId>, l1: Links, l2: Links)
    requires forall a, b :: Adjacent(l1, a, b) <==> Adjacent(l2, a, b)
    ensures Incidents(nodes, l1) == Incidents(nodes, l2)
  {
    forall a, b
      ensures Connected(l1, a, b) <==> Connected(l2, a, b)
    {
      if p :| PathBetween(l1, p, a, b) {
        assert PathBetween(l2, p, a, b);
      }
      if p :| PathBetween(l2, p, a, b) {
        assert PathBetween(l1, p, a, b);
      }
    }
    forall a
      ensures Component(nodes, l1, a) == Component(nodes, l2, a)
    {
    }
  }

  lemma TableLinkIsInGraph(g: Graph, events: EventTable, edges: EdgeTable, l: (EventId, EventId))
    requires IsGraphOf(g, events, edges) && ForeignKeys(events, edges) && l in TableLinks(edges)
    ensures Adjacent(GraphLinks(g), l.0, l.1)
  {
    var id :| id in edges && l == (edges[id].source, edges[id].target);
    var pair := EdgePair(edges[id]);
    assert edges[id].source in events && edges[id].target in events;
    assert pair in g.edges.values;
    assert pair == (l.0, l.1) || pair == (l.1, l.0);
  }

  lemma GraphAdjacency(g: Graph, events: EventTable, edges: EdgeTable, a: EventId, b: EventId)
    requires IsGraphOf(g, events, edges) && ForeignKeys(events, edges)
    ensures Adjacent(GraphLinks(g), a, b) <==> Adjacent(TableLinks(edges), a, b)
    ensures Adjacent(GraphLinks(g), a, b) ==> a in events && b in events
  {
    if Adjacent(TableLinks(edges), a, b) {
      TableLinkIsInGraph(g, events, edges, if (a, b) in TableLinks(edges) then (a, b) else (b, a));
    }
  }

  /** The graph has the incidents of the tables it was loaded from. */
  lemma GraphIncidents(g: Graph, events: EventTable, edges: EdgeTable)
    requires IsGraphOf(g, events, edges) && ForeignKeys(events, edges)
    ensures Incidents(events.Keys, GraphLinks(g)) == Incidents(events.Keys, TableLinks(edges))
    ensures Within(events.Keys, GraphLinks(g))
  {
    forall a, b
      ensures Adjacent(GraphLinks(g), a, b) <==> Adjacent(TableLinks(edges), a, b)
      ensures Adjacent(GraphLinks(g), a, b) ==> a in events && b in events
    {
      GraphAdjacency(g, events, edges, a, b);
    }
    SameAdjacencySameIncidents(events.Keys, GraphLinks(g), TableLinks(edges));
  }

  // ---- Incident summaries ----

  datatype Incident =
    Incident(number: nat, eventIds: set<EventId>, count: nat, sources: set<SourceSystem>, start: int, end: int)

  function Itself(t: int): int {
    t
  }

  function BySizeDescending(i: Incident): int {
    -(i.count as int)
  }

  /** A summary reports its component's size, sources and time range. */
  ghost predicate Summarises(i: Incident, events: EventTable) {
    i.eventIds <= events.Keys && i.count == |i.eventIds|
    && (forall src :: src in i.sources <==> exists id :: id in i.eventIds && events[id].source == src)
    && (forall id :: id in i.eventIds ==> i.start <= events[id].timestamp <= i.end)
    && (exists id :: id in i.eventIds && events[id].timestamp == i.start)
    && (exists id :: id in i.eventIds && events[id].timestamp == i.end)
  }

  ghost function Total(incidents: seq<Incident>): nat {
    if incidents == [] then 0 else Total(incidents[..|incidents| - 1]) + incidents[|incidents| - 1].count
  }

  ghost function EventSets(incidents: seq<Incident>): seq<set<EventId>> {
    seq(|incidents|, i requires 0 <= i < |incidents| => incidents[i].eventIds)
  }

  function TimesOf(order: seq<EventId>, events: EventTable): seq<int>
    requires forall id :: id in order ==> id in events
  {
    seq(|order|, k requires 0 <= k < |order| => assert order[k] in order; events[order[k]].timestamp)
  }

  function SourcesOf(component: set<EventId>, events: EventTable): set<SourceSystem>
    requires component <= events.Keys
  {
    set id | id in component :: events[id].source
  }

  /** First and last of the sorted times are the least and the greatest. */
  lemma TimesSpec(component: set<EventId>, order: seq<EventId>, events: EventTable)
    requires component != {} && component <= events.Keys && forall id :: id in order <==> id in component
    ensures var sorted := StableSort(Itself, TimesOf(order, events));
      sorted != []
      && (forall id :: id in component ==> sorted[0] <= events[id].timestamp <= sorted[|sorted| - 1])
      && (exists id :: id in component && events[id].timestamp == sorted[0])
      && (exists id :: id in component && events[id].timestamp == sorted[|sorted| - 1])
  {
    var times := TimesOf(order, events);
    var sorted := StableSort(Itself, times);
    var x :| x in component;
    assert x in order;
    SortedEnds(times);
    forall id | id in component
      ensures sorted[0] <= events[id].timestamp <= sorted[|sorted| - 1]
    {
      var k :| 0 <= k < |order| && order[k] == id;
      assert times[k] in times;
    }
    var lo :| 0 <= lo < |times| && times[lo] == sorted[0];
    var hi :| 0 <= hi < |times| && times[hi] == sorted[|sorted| - 1];
    assert order[lo] in component && events[order[lo]].timestamp == sorted[0];
    assert order[hi] in component && events[order[hi]].timestamp == sorted[|sorted| - 1];
  }

  lemma SortedEnds(times: seq<int>)
    requires times != []
    ensures var sorted := StableSort(Itself, times);
      |sorted| == |times| && sorted[0] in times && sorted[|sorted| - 1] in times
      && forall t :: t in times ==> sorted[0] <= t <= sorted[|sorted| - 1]
  {
    var sorted := StableSort(Itself, times);
    StableSortSpec(Itself, times);
    MultisetMembers(sorted, times);
    forall t | t in times
      ensures sorted[0] <= t <= sorted[|sorted| - 1]
    {
      var j :| 0 <= j < |sorted| && sorted[j] == t;
      assert j == 0 || Itself(sorted[0]) <= Itself(sorted[j]);
      assert j == |sorted| - 1 || Itself(sorted[j]) <= Itself(sorted[|sorted| - 1]);
    }
  }

  class RelationshipStore {
    var events: EventTable
    var edges: EdgeTable

    constructor ()
      ensures events == map[] && edges == map[]
    {
      events, edges := map[], map[];
    }

    method SaveEvents(rows: seq<LogEvent>)
      modifies this`events
      ensures events == InsertEvents(old(events), rows)
    {
      if rows == [] {
        return;
      }
      events := InsertEvents(events, rows);
    }

    /** `ok` is false when the statement breaks the foreign key; the transaction is then rolled back. */
    method SaveEdges(rows: seq<EdgeRow>) returns (ok: bool)
      requires ForeignKeys(events, edges)
      modifies this`edges
      ensures ok == ForeignKeys(events, InsertEdges(old(edges), rows))
      ensures edges == if ok then InsertEdges(old(edges), rows) else old(edges)
      ensures ForeignKeys(events, edges)
    {
      if rows == [] {
        return true;
      }
      var after := InsertEdges(edges, rows);
      ok := ForeignKeys(events, after);
      if ok {
        edges := after;
      }
    }

    method LoadGraph() returns (g: Graph)
      ensures IsGraphOf(g, events, edges)
    {
      var nodes: OrderedDict<EventId, LogEvent> := Empty();
      var left := events.Keys;
      while left != {}
        invariant left <= events.Keys && nodes.values.Keys == events.Keys - left
        invariant forall id :: id in nodes.values ==> nodes.values[id] == events[id]
        decreases left
      {
        var id :| id in left;
        nodes := Put(nodes, id, events[id]);
        left := left - {id};
      }
      assert nodes.values == events;
      var links: OrderedDict<(EventId, EventId), CorrelationEdge> := Empty();
      var rows := edges.Keys;
      while rows != {}
        invariant rows <= edges.Keys
        invariant forall key :: key in links.values ==>
          EdgePair(links.values[key]) == key && Stored(links.values[key], events, edges)
        invariant forall id ::
          id in edges && id !in rows && edges[id].source in events && edges[id].target in events ==>
          EdgePair(edges[id]) in links.values
        decreases rows
      {
        var id :| id in rows;
        var row := edges[id];
        if row.source in nodes.values && row.target in nodes.values {
          links := Put(links, PairKey(row.source, row.target), row);
        }
        rows := rows - {id};
      }
      g := Graph(nodes, links);
    }

    method Summarise(number: nat, component: set<EventId>) returns (i: Incident)
      requires component != {} && component <= events.Keys
      ensures Summarises(i, events) && i.number == number && i.eventIds == component
    {
      var order := Enqueue(component);
      var times := TimesOf(order, events);
      var sorted := StableSort(Itself, times);
      TimesSpec(component, order, events);
      i := Incident(number, component, |component|, SourcesOf(component, events), sorted[0], sorted[|sorted| - 1]);
    }

    /** Every stored event is in exactly one listed incident, the incidents are the connected components, and they come
        largest first. */
    method ListIncidents() returns (incidents: seq<Incident>)
      requires ForeignKeys(events, edges)
      ensures forall i :: i in incidents ==> Summarises(i, events)
      ensures Elements(EventSets(incidents)) == Incidents(events.Keys, TableLinks(edges))
      ensures Distinct(EventSets(incidents))
      ensures Total(incidents) == |events|
      ensures Sorted(BySizeDescending, incidents) && NumberedInOrder(incidents)
    {
      var g := LoadGraph();
      GraphIncidents(g, events, edges);
      assert Elements(g.nodes.keys) == events.Keys;
      var components := ConnectedComponents(g.nodes.keys, g.edges.values.Keys);
      IncidentsAreNonEmpty(events.Keys, TableLinks(edges));
      var listed := SummariseAll(components);
      incidents := StableSort(BySizeDescending, listed);
      Reordered(listed, incidents, events);
      NumbersFollow(listed);
      ListedTotal(incidents, events, TableLinks(edges));
    }

    method SummariseAll(components: seq<set<EventId>>) returns (listed: seq<Incident>)
      requires NonEmptyParts(Elements(components), events.Keys)
      ensures forall x :: x in listed ==> Summarises(x, events)
      ensures EventSets(listed) == components
      ensures forall i :: 0 <= i < |listed| ==> listed[i].number == i
    {
      listed := [];
      for i := 0 to |components|
        invariant forall k :: 0 <= k < |listed| ==> listed[k].number == k
        invariant forall x :: x in listed ==> Summarises(x, events)
        invariant EventSets(listed) == components[..i]
      {
        assert components[i] in Elements(components);
        var incident := Summarise(i, components[i]);
        PrefixSnoc(components, i);
        assert EventSets(listed + [incident]) == EventSets(listed) + [incident.eventIds];
        listed := listed + [incident];
      }
      assert components[..|components|] == components;
    }
  }

  ghost predicate Precedes(a: Incident, b: Incident) {
    a.count > b.count || (a.count == b.count && a.number < b.number)
  }

  ghost predicate HasNumber(incidents: seq<Incident>, n: nat) {
    exists i :: i in incidents && i.number == n
  }

  /** Larger incidents come first, and among equally large ones the lower number; all numbers are used. */
  ghost predicate NumberedInOrder(incidents: seq<Incident>) {
    (forall i, j :: 0 <= i < j < |incidents| ==> Precedes(incidents[i], incidents[j]))
    && forall n: nat :: n < |incidents| ==> HasNumber(incidents, n)
  }

  lemma SortedNumbers(listed: seq<Incident>, sorted: seq<Incident>, p: seq<nat>)
    requires forall k :: 0 <= k < |listed| ==> listed[k].number == k
    requires SortedAt(BySizeDescending, listed, sorted, p)
    ensures forall i :: 0 <= i < |sorted| ==> sorted[i].number == p[i]
    ensures forall i, j :: 0 <= i < j < |sorted| ==> Precedes(sorted[i], sorted[j])
  {
    forall i, j | 0 <= i < j < |sorted|
      ensures Precedes(sorted[i], sorted[j])
    {
      assert Before(BySizeDescending, sorted[i], p[i], sorted[j], p[j]);
    }
  }

  lemma NumbersFollow(listed: seq<Incident>)
    requires forall k :: 0 <= k < |listed| ==> listed[k].number == k
    ensures NumberedInOrder(StableSort(BySizeDescending, listed))
  {
    var sorted := StableSort(BySizeDescending, listed);
    var p := SortPositions(BySizeDescending, listed);
    SortedNumbers(listed, sorted, p);
    StableSortSpec(BySizeDescending, listed);
    MultisetMembers(sorted, listed);
    forall n: nat | n < |sorted|
      ensures HasNumber(sorted, n)
    {
      assert listed[n] in listed;
    }
  }

  lemma Reordered(listed: seq<Incident>, incidents: seq<Incident>, events: EventTable)
    requires incidents == StableSort(BySizeDescending, listed)
    requires forall i :: i in listed ==> Summarises(i, events)
    requires Distinct(EventSets(listed))
    ensures Sorted(BySizeDescending, incidents)
    ensures forall i :: i in incidents ==> Summarises(i, events)
    ensures Elements(EventSets(incidents)) == Elements(EventSets(listed))
    ensures Distinct(EventSets(incidents))
  {
    StableSortSpec(BySizeDescending, listed);
    MultisetMembers(incidents, listed);
    forall c
      ensures c in EventSets(incidents) <==> c in EventSets(listed)
    {
      SetOfIncident(incidents, c);
      SetOfIncident(listed, c);
    }
    assert Elements(EventSets(incidents)) == Elements(EventSets(listed));
    DistinctSets(listed, incidents);
  }

  lemma DistinctSets(listed: seq<Incident>, incidents: seq<Incident>)
    requires multiset(incidents) == multiset(listed) && Distinct(EventSets(listed))
    ensures Distinct(EventSets(incidents))
  {
    forall i, j | 0 <= i < j < |listed|
      ensures listed[i] != listed[j]
    {
      assert EventSets(listed)[i] != EventSets(listed)[j];
    }
    DistinctPermutation(listed, incidents);
    MultisetMembers(incidents, listed);
    forall i, j | 0 <= i < j < |incidents|
      ensures EventSets(incidents)[i] != EventSets(incidents)[j]
    {
      assert incidents[i] in listed && incidents[j] in listed;
      var p :| 0 <= p < |listed| && listed[p] == incidents[i];
      var q :| 0 <= q < |listed| && listed[q] == incidents[j];
      assert EventSets(listed)[p] == incidents[i].eventIds && EventSets(listed)[q] == incidents[j].eventIds;
    }
  }

  lemma SetOfIncident(incidents: seq<Incident>, c: set<EventId>)
    ensures c in EventSets(incidents) <==> exists i :: i in incidents && i.eventIds == c
  {
    if c in EventSets(incidents) {
      var k :| 0 <= k < |incidents| && EventSets(incidents)[k] == c;
      assert incidents[k] in incidents;
    }
    if i :| i in incidents && i.eventIds == c {
      var k :| 0 <= k < |incidents| && incidents[k] == i;
      assert EventSets(incidents)[k] == c;
    }
  }

  ghost function UnionOf(incidents: seq<Incident>): set<EventId> {
    if incidents == [] then {} else UnionOf(incidents[..|incidents| - 1]) + incidents[|incidents| - 1].eventIds
  }

  lemma {:induction false} UnionMembers(incidents: seq<Incident>, x: EventId)
    ensures x in UnionOf(incidents) <==> exists i :: 0 <= i < |incidents| && x in incidents[i].eventIds
  {
    if incidents == [] {
    } else {
      UnionMembers(incidents[..|incidents| - 1], x);
    }
  }

  lemma {:induction false} TotalOfDisjoint(incidents: seq<Incident>)
    requires forall i :: 0 <= i < |incidents| ==> incidents[i].count == |incidents[i].eventIds|
    requires forall i, j :: 0 <= i < j < |incidents| ==> incidents[i].eventIds !! incidents[j].eventIds
    ensures Total(incidents) == |UnionOf(incidents)|
  {
    if incidents == [] {
    } else {
      var init, last := incidents[..|incidents| - 1], incidents[|incidents| - 1];
      TotalOfDisjoint(init);
      forall x | x in UnionOf(init)
        ensures x !in last.eventIds
      {
        UnionMembers(init, x);
      }
      assert UnionOf(init) !! last.eventIds;
    }
  }

  lemma UnionCovers(incidents: seq<Incident>, whole: set<EventId>)
    requires Covers(Elements(EventSets(incidents)), whole)
    ensures whole <= UnionOf(incidents)
  {
    var sets := EventSets(incidents);
    forall x | x in whole
      ensures x in UnionOf(incidents)
    {
      assert InSome(Elements(sets), x);
      var p :| p in Elements(sets) && x in p;
      var k :| 0 <= k < |sets| && sets[k] == p;
      UnionMembers(incidents, x);
    }
  }

  lemma {:induction false} UnionStaysInside(incidents: seq<Incident>, whole: set<EventId>)
    requires forall i :: 0 <= i < |incidents| ==> incidents[i].eventIds <= whole
    ensures UnionOf(incidents) <= whole
  {
    if incidents == [] {
    } else {
      UnionStaysInside(incidents[..|incidents| - 1], whole);
    }
  }

  /** The listed counts add up to the number of stored events. */
  lemma TotalIsWhole(incidents: seq<Incident>, whole: set<EventId>)
    requires forall i :: 0 <= i < |incidents| ==>
      incidents[i].count == |incidents[i].eventIds| && incidents[i].eventIds <= whole
    requires Distinct(EventSets(incidents)) && DisjointParts(Elements(EventSets(incidents)))
    requires Covers(Elements(EventSets(incidents)), whole)
    ensures Total(incidents) == |whole|
  {
    assert UnionOf(incidents) == whole by {
      UnionCovers(incidents, whole);
      UnionStaysInside(incidents, whole);
    }
    SetsAreDisjoint(incidents);
    TotalOfDisjoint(incidents);
  }

  lemma ListedTotal(incidents: seq<Incident>, events: EventTable, links: Links)
    requires forall i :: i in incidents ==> Summarises(i, events)
    requires Distinct(EventSets(incidents)) && Elements(EventSets(incidents)) == Incidents(events.Keys, links)
    ensures Total(incidents) == |events|
  {
    IncidentsAreDisjoint(events.Keys, links);
    IncidentsCover(events.Keys, links);
    forall i | 0 <= i < |incidents|
      ensures incidents[i].count == |incidents[i].eventIds| && incidents[i].eventIds <= events.Keys
    {
      assert incidents[i] in incidents;
    }
    TotalIsWhole(incidents, events.Keys);
  }

  lemma SetsAreDisjoint(incidents: seq<Incident>)
    requires Distinct(EventSets(incidents)) && DisjointParts(Elements(EventSets(incidents)))
    ensures forall i, j :: 0 <= i < j < |incidents| ==> incidents[i].eventIds !! incidents[j].eventIds
  {
    var sets := EventSets(incidents);
    forall i, j | 0 <= i < j < |incidents|
      ensures incidents[i].eventIds !! incidents[j].eventIds
    {
      assert sets[i] in Elements(sets) && sets[j] in Elements(sets) && sets[i] != sets[j];
    }
  }
}
