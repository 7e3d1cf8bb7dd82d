/** How far in time a deterministic incident can reach. */
module DeterministicExtent {
  import opened Collections
  import opened Schema
  import opened Deterministic
  import opened IncidentGraph

  lemma LinkedNeighbours(events: seq<LogEvent>, window: int, a: LogEvent, id: EventId) returns (b: LogEvent)
    requires DistinctIds(events) && a in events
    requires Adjacent(LinksOf(DeterministicEdges(events, window)), a.id, id)
    ensures b in events && b.id == id && Abs(a.timestamp - b.timestamp) <= window
  {
    var x :| x in DeterministicEdges(events, window)
      && ((x.source == a.id && x.target == id) || (x.source == id && x.target == a.id));
    EdgesAreSound(events, window, x);
    var c, d :| c in events && d in events && JoinsSharedIdentifier(x, c, d, window);
    SameIdSameEvent(events, a, c);
    SameIdSameEvent(events, a, d);
    b := if x.source == a.id then d else c;
  }

  lemma {:induction false} PathSpan(events: seq<LogEvent>, window: int, p: seq<EventId>, a: LogEvent, b: LogEvent)
    requires DistinctIds(events) && a in events && b in events
    requires PathBetween(LinksOf(DeterministicEdges(events, window)), p, a.id, b.id)
    ensures Abs(a.timestamp - b.timestamp) <= (|p| - 1) * window
  {
    if |p| == 1 {
      SameIdSameEvent(events, a, b);
    } else {
      assert Adjacent(LinksOf(DeterministicEdges(events, window)), p[0], p[1]);
      var m := LinkedNeighbours(events, window, a, p[1]);
      PathSpan(events, window, p[1..], m, b);
      assert (|p| - 1) * window == (|p[1..]| - 1) * window + window;
    }
  }

  /** An incident of n identifier-matched events spans at most (n - 1) windows. */
  lemma DeterministicIncidentExtent(events: seq<LogEvent>, window: int, c: set<EventId>, a: LogEvent, b: LogEvent)
    requires DistinctIds(events) && a in events && b in events
    requires c in Incidents(Ids(events), LinksOf(DeterministicEdges(events, window)))
    requires a.id in c && b.id in c
    ensures Abs(a.timestamp - b.timestamp) <= (|c| - 1) * window
  {
    var links := LinksOf(DeterministicEdges(events, window));
    SameIncidentIffConnected(Ids(events), links, a.id, b.id);
    var p :| PathBetween(links, p, a.id, b.id);
    var q := SimplePath(links, p, a.id, b.id);
    PathInComponent(events, window, c, q, a.id);
    PigeonHole(q, c);
    PathSpan(events, window, q, a, b);
    if |q| > 1 {
      assert Adjacent(links, q[0], q[1]);
      var m := LinkedNeighbours(events, window, a, q[1]);
      assert (|q| - 1) * window <= (|c| - 1) * window;
    } else {
      SameIdSameEvent(events, a, b);
      SubsetCardinality({a.id}, c);
      assert |{a.id}| == 1;
      NonNegativeExtent(events, window, c, a);
    }
  }

  lemma PathInComponent(events: seq<LogEvent>, window: int, c: set<EventId>, q: seq<EventId>, a: EventId)
    requires DistinctIds(events)
    requires var links := LinksOf(DeterministicEdges(events, window));
      c in Incidents(Ids(events), links) && IsPath(links, q) && q[0] == a && a in c
    ensures forall x :: x in q ==> x in c
  {
    var links := LinksOf(DeterministicEdges(events, window));
    LinkedWithinEvents(events, window);
    var root :| root in Ids(events) && c == Component(Ids(events), links, root);
    forall u, v | u in c && Adjacent(links, u, v)
      ensures v in c
    {
      AdjacentConnected(links, u, v);
      ConnectedTransitive(links, root, u, v);
      assert v in Endpoints(DeterministicEdges(events, window));
    }
    ClosedSetTrapsPath(c, links, links, q);
  }

  lemma NonNegativeExtent(events: seq<LogEvent>, window: int, c: set<EventId>, a: LogEvent)
    requires DistinctIds(events) && a in events && a.id in c
    requires c in Incidents(Ids(events), LinksOf(DeterministicEdges(events, window)))
    ensures (|c| - 1) * window >= 0
  {
    if c == {a.id} {
      assert |c| == 1;
    } else {
      var links := LinksOf(DeterministicEdges(events, window));
      var id :| id in c && id != a.id;
      IncidentsAreNonEmpty(Ids(events), links);
      assert c <= Ids(events);
      SameIncidentIffConnected(Ids(events), links, a.id, id);
      var p :| PathBetween(links, p, a.id, id);
      assert Adjacent(links, p[0], p[1]);
      var m := LinkedNeighbours(events, window, a, p[1]);
      SubsetCardinality({a.id}, c);
      assert |{a.id}| == 1;
      assert (|c| - 1) * window >= 0;
    }
  }
}
