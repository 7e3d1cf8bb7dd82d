/** One end-to-end run (main.py): extract, normalise, correlate, persist. */
module MainRun {
  import opened Options
  import opened Collections
  import opened Selections
  import opened Schema
  import opened IncidentGraph
  import opened Semantic
  import opened Pipeline
  import opened Normalizer
  import opened Store
  import opened History

  function Bodies<R>(normalizer: R -> Option<EventBody>, extracted: seq<seq<R>>, lo: int, hi: int): seq<EventBody> {
    Normalized(normalizer, Flatten(extracted), Some(lo), Some(hi))
  }

  /** uuid4 as a supply of ids, the k-th event of a run taking the k-th. */
  function StampAll(newId: nat -> EventId, bodies: seq<EventBody>): seq<LogEvent> {
    seq(|bodies|, i requires 0 <= i < |bodies| => Stamp(newId(i), bodies[i]))
  }

  /** The supply never repeats an id, nor one of `used`. */
  ghost predicate Unused(newId: nat -> string, used: set<string>) {
    (forall i: nat, j: nat :: i < j ==> newId(i) != newId(j)) && forall i: nat :: newId(i) !in used
  }

  function EdgeIds(newId: nat -> EdgeId, n: nat): seq<EdgeId> {
    seq(n, i requires 0 <= i < n => newId(i))
  }

  function TheRun(events: seq<LogEvent>, useLlm: bool, settings: Settings, llm: Llm, newEdgeId: nat -> EdgeId): Run
    requires settings.maxBatch >= 1
  {
    Run(events, useLlm, llm, EdgeIds(newEdgeId, |PipelineEdges(events, useLlm, settings, llm)|))
  }

  lemma StampedIsFresh(t: Tables, bodies: seq<EventBody>, useLlm: bool, settings: Settings, llm: Llm,
      newId: nat -> EventId, newEdgeId: nat -> EdgeId)
    requires settings.maxBatch >= 1
    requires Unused(newId, t.events.Keys) && Unused(newEdgeId, t.edges.Keys)
    ensures FreshRun(t, TheRun(StampAll(newId, bodies), useLlm, settings, llm, newEdgeId), settings)
  {
    var events := StampAll(newId, bodies);
    var r := TheRun(events, useLlm, settings, llm, newEdgeId);
    forall i, j | 0 <= i < j < |events|
      ensures events[i].id != events[j].id
    {
      assert events[i].id == newId(i) && events[j].id == newId(j);
    }
    forall i, j | 0 <= i < j < |r.edgeIds|
      ensures r.edgeIds[i] != r.edgeIds[j]
    {
      assert r.edgeIds[i] == newEdgeId(i) && r.edgeIds[j] == newEdgeId(j);
    }
  }

  /** The extraction and normalisation stages. */
  method Ingest<R>(normalizer: R -> Option<EventBody>, extracted: seq<seq<R>>, lo: int, hi: int)
    returns (bodies: seq<EventBody>)
    ensures bodies == Bodies(normalizer, extracted, lo, hi)
  {
    var raw: seq<R> := [];
    for i := 0 to |extracted|
      invariant raw == Flatten(extracted[..i])
    {
      PrefixSnoc(extracted, i);
      FlattenSnoc(extracted[..i], extracted[i]);
      raw := raw + extracted[i];
    }
    assert extracted[..|extracted|] == extracted;
    bodies := Normalize(normalizer, raw, Some(lo), Some(hi));
  }

  /** The events of a run come one to one from the records that are accepted with a time in [lo, hi), in order of time
      and, at equal times, of extraction: `places[k]` is where the record of event k stands. */
  ghost predicate ComeFrom<R>(events: seq<LogEvent>, places: seq<Place>, newId: nat -> EventId,
      normalizer: R -> Option<EventBody>, extracted: seq<seq<R>>, lo: int, hi: int)
  {
    |places| == |events|
    && (forall k :: 0 <= k < |events| ==>
          AcceptedPlace(places[k], normalizer, extracted, lo, hi)
          && events[k].id == newId(k)
          && IsEventOf(events[k], normalizer(extracted[places[k].piece][places[k].index]).value))
    && (forall p: Place :: AcceptedPlace(p, normalizer, extracted, lo, hi) ==> p in places)
    && forall i, j :: 0 <= i < j < |events| ==>
         events[i].timestamp < events[j].timestamp
         || (events[i].timestamp == events[j].timestamp && Earlier(places[i], places[j]))
  }

  ghost predicate AcceptedPlace<R>(p: Place, normalizer: R -> Option<EventBody>, extracted: seq<seq<R>>, lo: int,
      hi: int)
  {
    p.piece < |extracted| && p.index < |extracted[p.piece]|
    && normalizer(extracted[p.piece][p.index]).Some?
    && lo <= normalizer(extracted[p.piece][p.index]).value.timestamp < hi
  }

  ghost predicate IsEventOf(e: LogEvent, b: EventBody) {
    e.source == b.source && e.timestamp == b.timestamp && e.message == b.message && e.identifiers == b.identifiers
  }

  lemma AcceptedAt<R>(normalizer: R -> Option<EventBody>, extracted: seq<seq<R>>, lo: int, hi: int, p: Place, r: R)
    requires IsPlaceOf(extracted, p, r)
    ensures AcceptedPlace(p, normalizer, extracted, lo, hi) <==> Accepted(normalizer, Some(lo), Some(hi))(r).Some?
    ensures AcceptedPlace(p, normalizer, extracted, lo, hi) ==>
      Accepted(normalizer, Some(lo), Some(hi))(r) == normalizer(extracted[p.piece][p.index])
  {
  }

  /** The place of each body: where the record that yields it stands in the pieces. */
  function Compose<T>(all: seq<T>, at: seq<nat>): seq<T>
    requires forall k :: 0 <= k < |at| ==> at[k] < |all|
  {
    seq(|at|, k requires 0 <= k < |at| => all[at[k]])
  }

  lemma PlacesAreAccepted<R>(bodies: seq<EventBody>, records: seq<R>, all: seq<Place>, at: seq<nat>,
      normalizer: R -> Option<EventBody>, extracted: seq<seq<R>>, lo: int, hi: int, k: nat)
    requires GoesThrough(extracted, records, all) && k < |bodies|
    requires YieldsAt(Accepted(normalizer, Some(lo), Some(hi)), records, bodies, at)
    ensures AcceptedPlace(all[at[k]], normalizer, extracted, lo, hi)
    ensures normalizer(extracted[all[at[k]].piece][all[at[k]].index]) == Some(bodies[k])
  {
    assert IsPlaceOf(extracted, all[at[k]], records[at[k]]);
    AcceptedAt(normalizer, extracted, lo, hi, all[at[k]], records[at[k]]);
  }

  lemma AcceptedAreAmong<R>(bodies: seq<EventBody>, records: seq<R>, all: seq<Place>, at: seq<nat>,
      normalizer: R -> Option<EventBody>, extracted: seq<seq<R>>, lo: int, hi: int, p: Place)
    requires GoesThrough(extracted, records, all)
    requires YieldsAt(Accepted(normalizer, Some(lo), Some(hi)), records, bodies, at)
    requires AcceptedPlace(p, normalizer, extracted, lo, hi)
    ensures p in Compose(all, at)
  {
    assert p in all;
    var i: nat :| i < |all| && all[i] == p;
    assert IsPlaceOf(extracted, all[i], records[i]);
    AcceptedAt(normalizer, extracted, lo, hi, p, records[i]);
    assert i in at;
    var k :| 0 <= k < |at| && at[k] == i;
    assert Compose(all, at)[k] == p;
  }

  lemma PlacesAreOrdered<R>(bodies: seq<EventBody>, records: seq<R>, all: seq<Place>, at: seq<nat>,
      f: R -> Option<EventBody>, extracted: seq<seq<R>>, i: nat, j: nat)
    requires GoesThrough(extracted, records, all) && i < j < |bodies|
    requires YieldsByKey(BodyTime, f, records, bodies, at)
    ensures bodies[i].timestamp < bodies[j].timestamp
      || (bodies[i].timestamp == bodies[j].timestamp && Earlier(all[at[i]], all[at[j]]))
  {
    assert BodyTime(bodies[i]) < BodyTime(bodies[j]) || (BodyTime(bodies[i]) == BodyTime(bodies[j]) && at[i] < at[j]);
  }

  lemma StampedAt(newId: nat -> EventId, bodies: seq<EventBody>, k: nat)
    requires k < |bodies|
    ensures StampAll(newId, bodies)[k].id == newId(k) && IsEventOf(StampAll(newId, bodies)[k], bodies[k])
  {
  }

  lemma StampedComeFrom<R>(newId: nat -> EventId, bodies: seq<EventBody>, normalizer: R -> Option<EventBody>,
      extracted: seq<seq<R>>, lo: int, hi: int) returns (places: seq<Place>)
    requires bodies == Bodies(normalizer, extracted, lo, hi)
    ensures ComeFrom(StampAll(newId, bodies), places, newId, normalizer, extracted, lo, hi)
  {
    var records, events := Flatten(extracted), StampAll(newId, bodies);
    var all := FlattenGoesThrough(extracted);
    var at := NormalizedYields(normalizer, records, Some(lo), Some(hi));
    places := Compose(all, at);
    forall k | 0 <= k < |events|
      ensures AcceptedPlace(places[k], normalizer, extracted, lo, hi)
      ensures events[k].id == newId(k)
      ensures IsEventOf(events[k], normalizer(extracted[places[k].piece][places[k].index]).value)
    {
      PlacesAreAccepted(bodies, records, all, at, normalizer, extracted, lo, hi, k);
      StampedAt(newId, bodies, k);
    }
    forall p: Place | AcceptedPlace(p, normalizer, extracted, lo, hi)
      ensures p in places
    {
      AcceptedAreAmong(bodies, records, all, at, normalizer, extracted, lo, hi, p);
    }
    forall i, j | 0 <= i < j < |events|
      ensures events[i].timestamp < events[j].timestamp
        || (events[i].timestamp == events[j].timestamp && Earlier(places[i], places[j]))
    {
      PlacesAreOrdered(bodies, records, all, at, Accepted(normalizer, Some(lo), Some(hi)), extracted, i, j);
      StampedAt(newId, bodies, i);
      StampedAt(newId, bodies, j);
    }
  }

  /** `after` holds what `before` held and `events`, each under its own id, and nothing else. */
  ghost predicate GainsEvents(before: EventTable, after: EventTable, events: seq<LogEvent>) {
    Keeps(before, after) && after.Keys == before.Keys + Ids(events)
    && forall e :: e in events ==> e.id in after && after[e.id] == e
  }

  /** `after` holds what `before` held and `edges`, the i-th under the i-th id supplied, and nothing else. */
  ghost predicate GainsEdges(before: EdgeTable, after: EdgeTable, edges: seq<CorrelationEdge>, newEdgeId: nat -> EdgeId)
  {
    Keeps(before, after)
    && (forall id :: id in after <==> id in before || exists i: nat :: i < |edges| && id == newEdgeId(i))
    && forall i: nat :: i < |edges| ==> newEdgeId(i) in after && after[newEdgeId(i)] == edges[i]
  }

  lemma StepGains(t: Tables, events: seq<LogEvent>, useLlm: bool, settings: Settings, llm: Llm,
      newEdgeId: nat -> EdgeId)
    requires settings.maxBatch >= 1
    requires FreshRun(t, TheRun(events, useLlm, settings, llm, newEdgeId), settings)
    ensures var next := Step(t, TheRun(events, useLlm, settings, llm, newEdgeId), settings);
      GainsEvents(t.events, next.events, events)
      && GainsEdges(t.edges, next.edges, PipelineEdges(events, useLlm, settings, llm), newEdgeId)
  {
    var r, edges := TheRun(events, useLlm, settings, llm, newEdgeId), PipelineEdges(events, useLlm, settings, llm);
    var next := Step(t, r, settings);
    StepRows(t, r, settings);
    EdgeIdsAre(newEdgeId, |edges|);
    assert forall id :: id in next.edges <==> id in t.edges || id in Elements(r.edgeIds);
    forall i: nat | i < |edges|
      ensures newEdgeId(i) in next.edges && next.edges[newEdgeId(i)] == edges[i]
    {
      assert r.edgeIds[i] == newEdgeId(i);
    }
  }

  lemma EdgeIdsAre(newId: nat -> EdgeId, n: nat)
    ensures forall id :: id in Elements(EdgeIds(newId, n)) <==> exists i: nat :: i < n && id == newId(i)
  {
    var ids := EdgeIds(newId, n);
    forall i: nat | i < n
      ensures newId(i) in ids
    {
      assert ids[i] == newId(i);
    }
  }

  /** A run stores one event for every record accepted in its time range, with that record's source, time, message and
      identifiers, and one row for every edge that the pipeline draws between them, with that edge's fields; nothing
      else is new. Afterwards it lists the incidents there were together with its own. */
  method RunOnce<R>(store: RelationshipStore, normalizer: R -> Option<EventBody>, extracted: seq<seq<R>>, lo: int,
      hi: int, useLlm: bool, settings: Settings, llm: Llm, newId: nat -> EventId, newEdgeId: nat -> EdgeId)
    returns (saved: bool, incidents: seq<Incident>, ghost events: seq<LogEvent>, ghost places: seq<Place>)
    requires settings.maxBatch >= 1 && ForeignKeys(store.events, store.edges)
    requires Unused(newId, store.events.Keys) && Unused(newEdgeId, store.edges.Keys)
    modifies store
    ensures saved && ForeignKeys(store.events, store.edges)
    ensures ComeFrom(events, places, newId, normalizer, extracted, lo, hi)
    ensures GainsEvents(old(store.events), store.events, events)
    ensures GainsEdges(old(store.edges), store.edges, PipelineEdges(events, useLlm, settings, llm), newEdgeId)
    ensures Elements(EventSets(incidents))
      == old(TableIncidents(Tables(store.events, store.edges)))
         + Incidents(Ids(events), LinksOf(PipelineEdges(events, useLlm, settings, llm)))
  {
    ghost var before := Tables(store.events, store.edges);
    assert Unused(newId, before.events.Keys) && Unused(newEdgeId, before.edges.Keys);
    var bodies := Ingest(normalizer, extracted, lo, hi);
    StampedIsFresh(before, bodies, useLlm, settings, llm, newId, newEdgeId);
    events := StampAll(newId, bodies);
    places := StampedComeFrom(newId, bodies, normalizer, extracted, lo, hi);
    var run := TheRun(StampAll(newId, bodies), useLlm, settings, llm, newEdgeId);
    StepGains(before, events, useLlm, settings, llm, newEdgeId);
    saved, incidents := Persist(store, run, settings);
  }
}
