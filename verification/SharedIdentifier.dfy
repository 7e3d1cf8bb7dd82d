/** Events that all carry one identifier: when they form a single incident, and how long such an incident can get. */
module SharedIdentifier {
  import opened Collections
  import opened OrderedDicts
  import opened StableSorting
  import opened Schema
  import opened Deterministic
  import opened DeterministicExtent
  import opened IncidentGraph

  ghost predicate AllCarry(events: seq<LogEvent>, kv: IdKey) {
    forall e :: e in events ==> Has(e, kv)
  }

  /** In time order, no event comes more than a window after the one before it. */
  ghost predicate GapsFit(events: seq<LogEvent>, window: int) {
    var s := StableSort(Timestamp, events);
    forall i :: 0 <= i < |s| - 1 ==> s[i + 1].timestamp - s[i].timestamp <= window
  }

  lemma SortedEvents(events: seq<LogEvent>)
    requires DistinctIds(events)
    ensures var s := StableSort(Timestamp, events);
      Sorted(Timestamp, s) && |s| == |events| && DistinctIds(s) && Ids(s) == Ids(events)
      && forall e :: e in s <==> e in events
  {
    var s := StableSort(Timestamp, events);
    StableSortSpec(Timestamp, events);
    RearrangedIds(events, s);
    MultisetMembers(events, s);
  }

  lemma LinkedAreAdjacent(events: seq<LogEvent>, window: int, a: LogEvent, b: LogEvent)
    requires a in events && b in events && a.id != b.id && ShouldLink(a, b, window)
    ensures Adjacent(LinksOf(DeterministicEdges(events, window)), a.id, b.id)
  {
    EdgesAreComplete(events, window, a, b);
    var x :| x in DeterministicEdges(events, window) && EdgePair(x) == PairKey(a.id, b.id);
    PairKeyIsUnordered(x.source, x.target, a.id, b.id);
    assert (x.source, x.target) in LinksOf(DeterministicEdges(events, window));
  }

  lemma NeighboursAreLinked(events: seq<LogEvent>, kv: IdKey, window: int, i: nat)
    requires DistinctIds(events) && AllCarry(events, kv) && GapsFit(events, window)
    requires i + 1 < |StableSort(Timestamp, events)|
    ensures var s, links := StableSort(Timestamp, events), LinksOf(DeterministicEdges(events, window));
      Adjacent(links, s[i].id, s[i + 1].id)
  {
    SortedEvents(events);
    var s := StableSort(Timestamp, events);
    var a, b := s[i], s[i + 1];
    assert a in s && b in s;
    CloseCarriersShouldLink(a, b, kv, window);
    LinkedAreAdjacent(events, window, a, b);
  }

  lemma CloseCarriersShouldLink(a: LogEvent, b: LogEvent, kv: IdKey, window: int)
    requires Has(a, kv) && Has(b, kv) && Timestamp(a) <= Timestamp(b) && b.timestamp - a.timestamp <= window
    ensures ShouldLink(a, b, window)
  {
  }

  lemma {:induction false} ChainConnects(events: seq<LogEvent>, kv: IdKey, window: int, i: nat)
    requires DistinctIds(events) && AllCarry(events, kv) && GapsFit(events, window)
    requires i < |StableSort(Timestamp, events)|
    ensures var s := StableSort(Timestamp, events);
      Connected(LinksOf(DeterministicEdges(events, window)), s[0].id, s[i].id)
  {
    var s, links := StableSort(Timestamp, events), LinksOf(DeterministicEdges(events, window));
    if i == 0 {
      ConnectedReflexive(links, s[0].id);
    } else {
      ChainConnects(events, kv, window, i - 1);
      NeighboursAreLinked(events, kv, window, i - 1);
      AdjacentConnected(links, s[i - 1].id, s[i].id);
      ConnectedTransitive(links, s[0].id, s[i - 1].id, s[i].id);
    }
  }

  lemma OneComponent(nodes: set<EventId>, links: Links, root: EventId)
    requires root in nodes && forall b :: b in nodes ==> Connected(links, root, b)
    ensures Incidents(nodes, links) == {nodes}
  {
    forall a | a in nodes
      ensures Component(nodes, links, a) == nodes
    {
      ComponentsEqual(nodes, links, root, a);
      assert Component(nodes, links, root) == nodes;
    }
    assert Component(nodes, links, root) in Incidents(nodes, links);
  }

  lemma FittingGapsMakeOneIncident(events: seq<LogEvent>, kv: IdKey, window: int)
    requires DistinctIds(events) && AllCarry(events, kv) && events != [] && GapsFit(events, window)
    ensures Incidents(Ids(events), LinksOf(DeterministicEdges(events, window))) == {Ids(events)}
  {
    SortedEvents(events);
    var s, links := StableSort(Timestamp, events), LinksOf(DeterministicEdges(events, window));
    forall b | b in Ids(events)
      ensures Connected(links, s[0].id, b)
    {
      var e :| e in s && e.id == b;
      var i :| 0 <= i < |s| && s[i] == e;
      ChainConnects(events, kv, window, i);
    }
    assert s[0] in s;
    OneComponent(Ids(events), links, s[0].id);
  }

  /** A gap wider than the window cannot be bridged: the events before it are closed under the links. */
  lemma EarlyIsClosed(events: seq<LogEvent>, s: seq<LogEvent>, window: int, i: nat)
    requires DistinctIds(events) && i + 1 < |s|
    requires Sorted(Timestamp, s) && forall e :: e in s <==> e in events
    requires s[i + 1].timestamp - s[i].timestamp > window
    ensures ClosedUnder(Ids(s[..i + 1]), LinksOf(DeterministicEdges(events, window)))
  {
    var links := LinksOf(DeterministicEdges(events, window));
    forall u, v | u in Ids(s[..i + 1]) && Adjacent(links, u, v)
      ensures v in Ids(s[..i + 1])
    {
      var a :| a in s[..i + 1] && a.id == u;
      assert a in s;
      var b := LinkedNeighbours(events, window, a, v);
    }
  }

  lemma WideGapSplits(events: seq<LogEvent>, window: int, i: nat)
    requires DistinctIds(events) && i + 1 < |StableSort(Timestamp, events)|
    requires var s := StableSort(Timestamp, events); s[i + 1].timestamp - s[i].timestamp > window
    ensures var s := StableSort(Timestamp, events);
      !Connected(LinksOf(DeterministicEdges(events, window)), s[i].id, s[i + 1].id)
  {
    SortedEvents(events);
    var s, links := StableSort(Timestamp, events), LinksOf(DeterministicEdges(events, window));
    var early := Ids(s[..i + 1]);
    EarlyIsClosed(events, s, window, i);
    assert s[i] in s[..i + 1];
    forall e | e in s[..i + 1]
      ensures e.id != s[i + 1].id
    {
      var k :| 0 <= k <= i && s[k] == e;
    }
    if Connected(links, s[i].id, s[i + 1].id) {
      ClosedSetTraps(early, links, s[i].id, s[i + 1].id);
    }
  }

  /** Whatever identifiers the events carry, a gap wider than the window keeps them from being a single incident. */
  lemma OneIncidentNeedsFittingGaps(events: seq<LogEvent>, window: int)
    requires DistinctIds(events) && !GapsFit(events, window)
    ensures Incidents(Ids(events), LinksOf(DeterministicEdges(events, window))) != {Ids(events)}
  {
    var s, links := StableSort(Timestamp, events), LinksOf(DeterministicEdges(events, window));
    var i :| 0 <= i < |s| - 1 && s[i + 1].timestamp - s[i].timestamp > window;
    WideGapSplits(events, window, i);
    SortedEvents(events);
    assert s[i] in s && s[i + 1] in s;
    SameIncidentIffConnected(Ids(events), links, s[i].id, s[i + 1].id);
    assert Ids(events) !in Incidents(Ids(events), links);
    assert Ids(events) in {Ids(events)};
  }

  /** Events that share an identifier form one deterministic incident exactly when no two neighbours in time are more
      than a window apart. */
  lemma SingleIncidentIffGapsFit(events: seq<LogEvent>, kv: IdKey, window: int)
    requires DistinctIds(events) && AllCarry(events, kv) && events != []
    ensures Incidents(Ids(events), LinksOf(DeterministicEdges(events, window))) == {Ids(events)}
      <==> GapsFit(events, window)
  {
    if GapsFit(events, window) {
      FittingGapsMakeOneIncident(events, kv, window);
    } else {
      OneIncidentNeedsFittingGaps(events, window);
    }
  }

  // ---- The (n - 1) * window bound is attained ----

  const TRACE: IdKey := ("trace_id", "abcdefgh")

  function Beat(i: nat, window: int): LogEvent {
    LogEvent(seq(i, _ => 'x'), CloudWatch, i * window, "", Put(Empty(), TRACE.0, TRACE.1))
  }

  function Beats(n: nat, window: int): seq<LogEvent> {
    seq(n, i requires 0 <= i < n => Beat(i, window))
  }

  lemma BeatsAreOneIncident(n: nat, window: nat)
    requires n >= 1
    ensures var events := Beats(n, window);
      Incidents(Ids(events), LinksOf(DeterministicEdges(events, window))) == {Ids(events)}
  {
    BeatsAreRegular(n, window);
    FittingGapsMakeOneIncident(Beats(n, window), TRACE, window);
  }

  /** For every n there is an incident of n events that spans (n - 1) windows: deterministic incidents have no constant
      time bound. */
  lemma ExtentIsAttained(n: nat, window: nat)
    requires n >= 1
    ensures var events := Beats(n, window);
      DistinctIds(events) && |Ids(events)| == n
      && Incidents(Ids(events), LinksOf(DeterministicEdges(events, window))) == {Ids(events)}
      && events[n - 1].timestamp - events[0].timestamp == (n - 1) * window
  {
    DistinctIdsCount(Beats(n, window));
    BeatsAreOneIncident(n, window);
  }

  lemma BeatAt(n: nat, window: nat, i: nat)
    requires i < n
    ensures Beats(n, window)[i].timestamp == i * window
  {
  }

  lemma LaterMultiple(i: nat, j: nat, window: nat)
    requires i <= j
    ensures i * window <= j * window
  {
    assert j * window == i * window + (j - i) * window;
  }

  lemma BeatsAreSorted(n: nat, window: nat)
    ensures Sorted(Timestamp, Beats(n, window))
  {
    forall i, j | 0 <= i < j < n
      ensures Timestamp(Beats(n, window)[i]) <= Timestamp(Beats(n, window)[j])
    {
      BeatAt(n, window, i);
      BeatAt(n, window, j);
      LaterMultiple(i, j, window);
    }
  }

  lemma NextBeat(n: nat, window: nat, i: nat)
    requires i + 1 < n
    ensures Beats(n, window)[i + 1].timestamp - Beats(n, window)[i].timestamp == window
  {
    BeatAt(n, window, i);
    BeatAt(n, window, i + 1);
    assert (i + 1) * window == i * window + window;
  }

  lemma BeatsAreRegular(n: nat, window: nat)
    ensures GapsFit(Beats(n, window), window)
  {
    var beats := Beats(n, window);
    BeatsAreSorted(n, window);
    SortedIsFixpoint(Timestamp, beats);
    forall i | 0 <= i < |beats| - 1
      ensures beats[i + 1].timestamp - beats[i].timestamp <= window
    {
      NextBeat(n, window, i);
    }
  }

  lemma {:induction false} DistinctIdsCount(events: seq<LogEvent>)
    requires DistinctIds(events)
    ensures |Ids(events)| == |events|
  {
    if events == [] {
    } else {
      var last, init := events[|events| - 1], events[..|events| - 1];
      DistinctIdsCount(init);
      assert events == init + [last];
      assert Ids(events) == Ids(init) + {last.id};
    }
  }
}
