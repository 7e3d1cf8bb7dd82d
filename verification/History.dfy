/** The store over any number of runs (main.py): every run saves fresh events, then the edges between them. */
module History {
  import opened Collections
  import opened Schema
  import opened Deterministic
  import opened Semantic
  import opened IncidentGraph
  import opened Pipeline
  import opened Store

  /** One run: the events it normalised, and what the LLM and the uuid generator did meanwhile. */
  datatype Run = Run(events: seq<LogEvent>, useLlm: bool, llm: Llm, edgeIds: seq<EdgeId>)

  datatype Tables = Tables(events: EventTable, edges: EdgeTable)

  function RunEdges(r: Run, settings: Settings): seq<CorrelationEdge>
    requires settings.maxBatch >= 1
  {
    PipelineEdges(r.events, r.useLlm, settings, r.llm)
  }

  /** Every edge gets its own uuid4. */
  function Rows(ids: seq<EdgeId>, edges: seq<CorrelationEdge>): seq<EdgeRow>
    requires |ids| == |edges|
  {
    seq(|ids|, i requires 0 <= i < |ids| => EdgeRow(ids[i], edges[i]))
  }

  /** The uuids of the run have not been used before. */
  ghost predicate FreshRun(t: Tables, r: Run, settings: Settings)
    requires settings.maxBatch >= 1
  {
    DistinctIds(r.events) && Ids(r.events) !! t.events.Keys
    && |r.edgeIds| == |RunEdges(r, settings)| && Distinct(r.edgeIds)
    && forall id :: id in r.edgeIds ==> id !in t.edges
  }

  function Step(t: Tables, r: Run, settings: Settings): Tables
    requires settings.maxBatch >= 1 && |r.edgeIds| == |RunEdges(r, settings)|
  {
    Tables(InsertEvents(t.events, r.events), InsertEdges(t.edges, Rows(r.edgeIds, RunEdges(r, settings))))
  }

  ghost function RunIncidents(r: Run, settings: Settings): set<set<EventId>>
    requires settings.maxBatch >= 1
  {
    Incidents(Ids(r.events), LinksOf(RunEdges(r, settings)))
  }

  ghost function TableIncidents(t: Tables): set<set<EventId>> {
    Incidents(t.events.Keys, TableLinks(t.edges))
  }

  lemma {:induction false} InsertFreshEdges(t: EdgeTable, ids: seq<EdgeId>, edges: seq<CorrelationEdge>)
    requires |ids| == |edges| && Distinct(ids) && forall id :: id in ids ==> id !in t
    ensures TableLinks(InsertEdges(t, Rows(ids, edges))) == TableLinks(t) + LinksOf(edges)
    decreases |ids|
  {
    var rows := Rows(ids, edges);
    if ids == [] {
      assert LinksOf(edges) == {};
    } else {
      var next := t[ids[0] := edges[0]];
      assert rows[1..] == Rows(ids[1..], edges[1..]);
      assert rows[0] == EdgeRow(ids[0], edges[0]);
      InsertFreshEdges(next, ids[1..], edges[1..]);
      LinksAfterInsert(t, ids[0], edges[0]);
      LinksOfConcat([edges[0]], edges[1..]);
      assert edges == [edges[0]] + edges[1..];
      assert LinksOf([edges[0]]) == {(edges[0].source, edges[0].target)};
    }
  }

  lemma LinksAfterInsert(t: EdgeTable, id: EdgeId, edge: CorrelationEdge)
    requires id !in t
    ensures TableLinks(t[id := edge]) == TableLinks(t) + {(edge.source, edge.target)}
  {
    var next := t[id := edge];
    forall l | l in TableLinks(t) + {(edge.source, edge.target)}
      ensures l in TableLinks(next)
    {
      if l in TableLinks(t) {
        var k :| k in t && l == (t[k].source, t[k].target);
        assert k in next && next[k] == t[k];
      } else {
        assert id in next && next[id] == edge;
      }
    }
  }

  lemma PipelineStaysInside(events: seq<LogEvent>, useLlm: bool, settings: Settings, llm: Llm)
    requires settings.maxBatch >= 1 && DistinctIds(events)
    ensures Within(Ids(events), LinksOf(PipelineEdges(events, useLlm, settings, llm)))
  {
    StagesAreSeparate(events, useLlm, settings, llm);
    LinksOfConcat(DeterministicEdges(events, settings.window), SecondStage(events, useLlm, settings, llm));
  }

  lemma ForeignKeysAreWithin(events: EventTable, edges: EdgeTable)
    ensures ForeignKeys(events, edges) <==> Within(events.Keys, TableLinks(edges))
  {
    if Within(events.Keys, TableLinks(edges)) {
      forall id | id in edges
        ensures edges[id].source in events && edges[id].target in events
      {
        assert (edges[id].source, edges[id].target) in TableLinks(edges);
      }
    }
  }

  /** One run keeps the foreign key, keeps every row, and adds exactly its own incidents next to the old ones. */
  lemma StepSpec(t: Tables, r: Run, settings: Settings)
    requires settings.maxBatch >= 1 && FreshRun(t, r, settings) && ForeignKeys(t.events, t.edges)
    ensures var next := Step(t, r, settings);
      ForeignKeys(next.events, next.edges)
      && Keeps(t.events, next.events) && Keeps(t.edges, next.edges)
      && next.events.Keys == t.events.Keys + Ids(r.events)
      && TableIncidents(next) == TableIncidents(t) + RunIncidents(r, settings)
      && TableIncidents(t) !! RunIncidents(r, settings)
  {
    var next, edges := Step(t, r, settings), RunEdges(r, settings);
    InsertEventsSpec(t.events, r.events);
    InsertEdgesSpec(t.edges, Rows(r.edgeIds, edges));
    InsertFreshEdges(t.edges, r.edgeIds, edges);
    PipelineStaysInside(r.events, r.useLlm, settings, r.llm);
    ForeignKeysAreWithin(t.events, t.edges);
    ForeignKeysAreWithin(next.events, next.edges);
    SeparateUnion(t.events.Keys, TableLinks(t.edges), Ids(r.events), LinksOf(edges));
  }

  /** What one run stores: every event of its own under its id, every edge with all its fields under its own id, and
      nothing else. */
  lemma StepRows(t: Tables, r: Run, settings: Settings)
    requires settings.maxBatch >= 1 && FreshRun(t, r, settings)
    ensures var next, edges := Step(t, r, settings), RunEdges(r, settings);
      Keeps(t.events, next.events) && next.events.Keys == t.events.Keys + Ids(r.events)
      && (forall e :: e in r.events ==> e.id in next.events && next.events[e.id] == e)
      && Keeps(t.edges, next.edges) && next.edges.Keys == t.edges.Keys + Elements(r.edgeIds)
      && forall i :: 0 <= i < |edges| ==> r.edgeIds[i] in next.edges && next.edges[r.edgeIds[i]] == edges[i]
  {
    var next, edges := Step(t, r, settings), RunEdges(r, settings);
    InsertEventsSpec(t.events, r.events);
    forall e | e in r.events
      ensures e.id in next.events && next.events[e.id] == e
    {
      assert e.id in Ids(r.events);
      SameIdSameEvent(r.events, e, next.events[e.id]);
    }
    StoredEdges(t.edges, r.edgeIds, edges);
  }

  lemma StoredEdges(t: EdgeTable, ids: seq<EdgeId>, edges: seq<CorrelationEdge>)
    requires |ids| == |edges| && Distinct(ids) && forall id :: id in ids ==> id !in t
    ensures var next := InsertEdges(t, Rows(ids, edges));
      Keeps(t, next) && next.Keys == t.Keys + Elements(ids)
      && forall i :: 0 <= i < |ids| ==> ids[i] in next && next[ids[i]] == edges[i]
  {
    var rows, next := Rows(ids, edges), InsertEdges(t, Rows(ids, edges));
    InsertEdgesSpec(t, rows);
    forall id
      ensures id in RowIds(rows) <==> id in ids
    {
      if id in ids {
        var i :| 0 <= i < |ids| && ids[i] == id;
        assert rows[i] in rows && rows[i].id == id;
      }
    }
    forall i | 0 <= i < |ids|
      ensures ids[i] in next && next[ids[i]] == edges[i]
    {
      assert ids[i] in ids;
      var k :| 0 <= k < |rows| && rows[k] == EdgeRow(ids[i], next[ids[i]]);
      assert ids[k] == ids[i];
      assert k == i;
    }
  }

  ghost predicate FreshHistory(t: Tables, runs: seq<Run>, settings: Settings)
    requires settings.maxBatch >= 1
    decreases |runs|
  {
    runs == [] || (FreshRun(t, runs[0], settings) && FreshHistory(Step(t, runs[0], settings), runs[1..], settings))
  }

  ghost function After(t: Tables, runs: seq<Run>, settings: Settings): Tables
    requires settings.maxBatch >= 1 && FreshHistory(t, runs, settings)
    decreases |runs|
  {
    if runs == [] then t else After(Step(t, runs[0], settings), runs[1..], settings)
  }

  /** The incidents of each run by itself. */
  ghost function IncidentsByRun(runs: seq<Run>, settings: Settings): seq<set<set<EventId>>>
    requires settings.maxBatch >= 1
  {
    if runs == [] then [] else [RunIncidents(runs[0], settings)] + IncidentsByRun(runs[1..], settings)
  }

  ghost function UnionOf<T>(parts: seq<set<T>>): set<T> {
    if parts == [] then {} else parts[0] + UnionOf(parts[1..])
  }

  ghost predicate PairwiseSeparate<T>(parts: seq<set<T>>) {
    forall i, j :: 0 <= i < j < |parts| ==> parts[i] !! parts[j]
  }

  lemma {:induction false} PartOfUnion<T>(parts: seq<set<T>>, j: nat)
    requires j < |parts|
    ensures parts[j] <= UnionOf(parts)
  {
    if j == 0 {
    } else {
      PartOfUnion(parts[1..], j - 1);
    }
  }

  /** `next` has grown from `old_` by one part, and `end` from `next` by the rest. */
  lemma AddPart<T>(old_: set<T>, part: set<T>, rest: seq<set<T>>, next: set<T>, end: set<T>)
    requires next == old_ + part && old_ !! part
    requires end == next + UnionOf(rest) && next !! UnionOf(rest) && PairwiseSeparate(rest)
    ensures var parts := [part] + rest;
      end == old_ + UnionOf(parts) && old_ !! UnionOf(parts) && PairwiseSeparate(parts)
  {
    assert ([part] + rest)[1..] == rest;
    forall j | 0 <= j < |rest|
      ensures part !! rest[j]
    {
      PartOfUnion(rest, j);
    }
  }

  /** Over any history of runs: every stored edge has both ends stored, no row is changed or lost, and the incidents
      are the disjoint union of the incidents there were before and each run's own; none is merged, split or altered
      later. */
  lemma {:induction false} HistoryIsSafe(t: Tables, runs: seq<Run>, settings: Settings)
    requires settings.maxBatch >= 1 && FreshHistory(t, runs, settings) && ForeignKeys(t.events, t.edges)
    ensures var end := After(t, runs, settings);
      ForeignKeys(end.events, end.edges)
      && Keeps(t.events, end.events) && Keeps(t.edges, end.edges)
      && TableIncidents(end) == TableIncidents(t) + UnionOf(IncidentsByRun(runs, settings))
      && TableIncidents(t) !! UnionOf(IncidentsByRun(runs, settings))
    ensures PairwiseSeparate(IncidentsByRun(runs, settings))
    decreases |runs|
  {
    if runs == [] {
    } else {
      var next := Step(t, runs[0], settings);
      StepSpec(t, runs[0], settings);
      HistoryIsSafe(next, runs[1..], settings);
      AddPart(TableIncidents(t), RunIncidents(runs[0], settings), IncidentsByRun(runs[1..], settings),
              TableIncidents(next), TableIncidents(After(t, runs, settings)));
    }
  }

  /** The persisting end of `main.run`: events first, so that the edges find both their ends. */
  method Persist(store: RelationshipStore, r: Run, settings: Settings) returns (saved: bool, incidents: seq<Incident>)
    requires settings.maxBatch >= 1
    requires ForeignKeys(store.events, store.edges)
    requires FreshRun(Tables(store.events, store.edges), r, settings)
    modifies store
    ensures saved
    ensures Tables(store.events, store.edges) == Step(old(Tables(store.events, store.edges)), r, settings)
    ensures ForeignKeys(store.events, store.edges)
    ensures Elements(EventSets(incidents))
      == old(TableIncidents(Tables(store.events, store.edges))) + RunIncidents(r, settings)
  {
    ghost var before := Tables(store.events, store.edges);
    StepSpec(before, r, settings);
    InsertEventsSpec(store.events, r.events);
    var edges, stats, _, _ := RunCorrelation(r.events, r.useLlm, settings, r.llm, null);
    store.SaveEvents(r.events);
    saved := store.SaveEdges(Rows(r.edgeIds, edges));
    incidents := store.ListIncidents();
  }
}
