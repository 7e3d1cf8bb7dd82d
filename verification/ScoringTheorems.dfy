/** What a score says about a run. */
module ScoringTheorems {
  import opened Options
  import opened Collections
  import opened OrderedDicts
  import opened Schema
  import opened IncidentGraph
  import opened Scoring

  // ---- The observed pairs ----

  /** `s` is a step whose anchor is `id`, and the one the index names for it. */
  ghost predicate Names(anchors: Anchors, index: map<EventId, string>, id: EventId, s: string) {
    id in index && index[id] == s && s in anchors.values && anchors.values[s].id == id
  }

  lemma {:induction false} StepIndexSpec(items: seq<(string, LogEvent)>, id: EventId)
    ensures id in StepIndex(items) <==> exists kv :: kv in items && kv.1.id == id
    ensures id in StepIndex(items) ==> exists kv :: kv in items && kv.1.id == id && kv.0 == StepIndex(items)[id]
  {
    if items == [] {
    } else {
      var init, last := items[..|items| - 1], items[|items| - 1];
      StepIndexSpec(init, id);
      assert items == init + [last];
      assert forall kv :: kv in items <==> kv in init || kv == last;
      if last.1.id == id {
        assert last in items && last.0 == StepIndex(items)[id];
      }
    }
  }

  lemma IndexNamesSteps(anchors: Anchors, id: EventId)
    requires id in StepIndex(Items(anchors))
    ensures Names(anchors, StepIndex(Items(anchors)), id, StepIndex(Items(anchors))[id])
  {
    StepIndexSpec(Items(anchors), id);
    ItemsSpec(anchors);
  }

  lemma AnchorIsIndexed(anchors: Anchors, s: string)
    requires s in anchors.values
    ensures anchors.values[s].id in StepIndex(Items(anchors))
  {
    ItemsSpec(anchors);
    assert (s, anchors.values[s]) in Items(anchors);
    StepIndexSpec(Items(anchors), anchors.values[s].id);
  }

  ghost predicate Shows(x: CorrelationEdge, index: map<EventId, string>, pair: StepPair) {
    BothAnchored(x, index) && PairOfSteps(x, index) == pair
  }

  /** A pair is observed exactly when some edge shows it, and its relation is that of such an edge. */
  lemma {:induction false} ObservedSpec(edges: seq<CorrelationEdge>, index: map<EventId, string>, pair: StepPair)
    ensures pair in Observed(edges, index) <==> exists x :: x in edges && Shows(x, index, pair)
    ensures pair in Observed(edges, index) ==>
      exists x :: x in edges && Shows(x, index, pair) && x.relation == Observed(edges, index)[pair]
  {
    if edges == [] {
    } else {
      var init, last := edges[..|edges| - 1], edges[|edges| - 1];
      ObservedSpec(init, index, pair);
      assert forall x :: x in edges <==> x in init || x == last;
      assert last in edges;
      if Shows(last, index, pair) {
        assert last.relation == Observed(edges, index)[pair];
      } else {
        assert pair in Observed(edges, index) <==> pair in Observed(init, index);
      }
    }
  }

  /** Edges between the same two events never disagree on how they were found. */
  ghost predicate RelationsAgree(edges: seq<CorrelationEdge>) {
    forall x, y :: x in edges && y in edges && EdgePair(x) == EdgePair(y) ==> x.relation == y.relation
  }

  /** Two edges that show the same pair of steps join the same two events. */
  lemma SamePairSameEvents(anchors: Anchors, x: CorrelationEdge, y: CorrelationEdge, pair: StepPair)
    requires var index := StepIndex(Items(anchors)); Shows(x, index, pair) && Shows(y, index, pair)
    ensures EdgePair(x) == EdgePair(y)
  {
    var index := StepIndex(Items(anchors));
    IndexNamesSteps(anchors, x.source);
    IndexNamesSteps(anchors, x.target);
    IndexNamesSteps(anchors, y.source);
    IndexNamesSteps(anchors, y.target);
    PairKeyIsUnordered(index[x.source], index[x.target], index[y.source], index[y.target]);
    PairKeyIsUnordered(x.source, x.target, y.source, y.target);
  }

  lemma ObservedIsOrderFree(edges: seq<CorrelationEdge>, other: seq<CorrelationEdge>, anchors: Anchors)
    requires multiset(edges) == multiset(other) && RelationsAgree(edges)
    ensures var index := StepIndex(Items(anchors)); Observed(edges, index) == Observed(other, index)
  {
    var index := StepIndex(Items(anchors));
    MultisetMembers(edges, other);
    forall pair
      ensures pair in Observed(edges, index) <==> pair in Observed(other, index)
      ensures pair in Observed(edges, index) ==> Observed(edges, index)[pair] == Observed(other, index)[pair]
    {
      ObservedSpec(edges, index, pair);
      ObservedSpec(other, index, pair);
      if pair in Observed(edges, index) {
        var x :| x in edges && Shows(x, index, pair) && x.relation == Observed(edges, index)[pair];
        var y :| y in other && Shows(y, index, pair) && y.relation == Observed(other, index)[pair];
        SamePairSameEvents(anchors, x, y, pair);
      }
    }
  }

  function ContaminationOf(x: CorrelationEdge, index: map<EventId, string>): seq<(EventId, EventId)> {
    if x.source in index && x.target !in index then [(x.source, x.target)]
    else if x.target in index && x.source !in index then [(x.target, x.source)]
    else []
  }

  lemma {:induction false} ContaminationSpec(edges: seq<CorrelationEdge>, index: map<EventId, string>, p: (EventId,
      EventId))
    ensures p in Contamination(edges, index) <==> exists x :: x in edges && ContaminationOf(x, index) == [p]
  {
    if edges == [] {
    } else {
      var init, last := edges[..|edges| - 1], edges[|edges| - 1];
      ContaminationSpec(init, index, p);
      assert Contamination(edges, index) == Contamination(init, index) + ContaminationOf(last, index);
      assert forall x :: x in edges <==> x in init || x == last;
      assert last in edges;
    }
  }

  lemma ReorderedScore(events: seq<LogEvent>, edges: seq<CorrelationEdge>, other: seq<CorrelationEdge>,
      anchors: Anchors,
      expected: Expected, mode: EdgeScoring)
    requires multiset(edges) == multiset(other) && RelationsAgree(edges)
    ensures ScoreEdges(other, anchors, expected, mode) == ScoreEdges(edges, anchors, expected, mode)
    ensures LinksOf(other) == LinksOf(edges) && GraphNodes(events, other) == GraphNodes(events, edges)
  {
    ObservedIsOrderFree(edges, other, anchors);
    MultisetMembers(edges, other);
  }

  function Without(edges: seq<CorrelationEdge>, i: nat): seq<CorrelationEdge>
    requires i < |edges|
  {
    edges[..i] + edges[i + 1..]
  }

  lemma WithoutContents(edges: seq<CorrelationEdge>, i: nat)
    requires i < |edges|
    ensures multiset(edges) == multiset(Without(edges, i)) + multiset{edges[i]}
  {
    assert edges == edges[..i] + [edges[i]] + edges[i + 1..];
  }

  lemma {:induction false} ContaminationConcat(a: seq<CorrelationEdge>, b: seq<CorrelationEdge>,
      index: map<EventId, string>)
    ensures Contamination(a + b, index) == Contamination(a, index) + Contamination(b, index)
  {
    if b == [] {
      assert a + b == a;
    } else {
      var init, last := b[..|b| - 1], b[|b| - 1];
      ContaminationConcat(a, init, index);
      ConcatAssoc(a, init, [last]);
      ConcatAssoc(Contamination(a, index), Contamination(init, index), ContaminationOf(last, index));
      assert b == init + [last];
    }
  }

  lemma ContaminationWithout(edges: seq<CorrelationEdge>, i: nat, index: map<EventId, string>)
    requires i < |edges|
    ensures multiset(Contamination(edges, index))
      == multiset(Contamination(Without(edges, i), index)) + multiset(ContaminationOf(edges[i], index))
  {
    var a, b := edges[..i], edges[i + 1..];
    assert edges == (a + [edges[i]]) + b;
    ContaminationConcat(a + [edges[i]], b, index);
    ContaminationConcat(a, b, index);
  }

  lemma CancelOne(a: multiset<CorrelationEdge>, b: multiset<CorrelationEdge>, x: CorrelationEdge)
    requires a + multiset{x} == b + multiset{x}
    ensures a == b
  {
    forall y
      ensures a[y] == b[y]
    {
      assert (a + multiset{x})[y] == (b + multiset{x})[y];
    }
  }

  lemma {:induction false} ReorderedContamination(edges: seq<CorrelationEdge>, other: seq<CorrelationEdge>,
      index: map<EventId, string>)
    requires multiset(edges) == multiset(other)
    ensures multiset(Contamination(other, index)) == multiset(Contamination(edges, index))
    decreases |edges|
  {
    if edges == [] {
      assert |multiset(other)| == 0;
    } else {
      var n := |edges| - 1;
      assert edges[n] in multiset(other);
      var i :| 0 <= i < |other| && other[i] == edges[n];
      WithoutContents(edges, n);
      WithoutContents(other, i);
      CancelOne(multiset(Without(edges, n)), multiset(Without(other, i)), edges[n]);
      ReorderedContamination(Without(edges, n), Without(other, i), index);
      ContaminationWithout(edges, n, index);
      ContaminationWithout(other, i, index);
    }
  }

  lemma TableHoldsIncidents(events: seq<LogEvent>, edges: seq<CorrelationEdge>)
    ensures ComponentsOf(events, edges).Values == Incidents(GraphNodes(events, edges), LinksOf(edges))
  {
    var nodes, links, t := GraphNodes(events, edges), LinksOf(edges), ComponentsOf(events, edges);
    forall c
      ensures c in t.Values <==> c in Incidents(nodes, links)
    {
      if c in t.Values {
        var id :| id in t && t[id] == c;
      }
      if c in Incidents(nodes, links) {
        var id :| id in nodes && c == Component(nodes, links, id);
        assert t[id] in t.Values;
      }
    }
  }

  // ---- What the figures mean ----

  /** Recall is 1 exactly when nothing expected is missing, and precision exactly when nothing else is observed. */
  lemma PerfectScores(edges: seq<CorrelationEdge>, anchors: Anchors, expected: Expected, mode: EdgeScoring)
    ensures var s := ScoreEdges(edges, anchors, expected, mode);
      (s.recall == 1.0 <==> s.falseNegatives == {}) && (s.precision == 1.0 <==> s.falsePositives == {})
      && s.truePositives !! s.falseNegatives && s.truePositives !! s.falsePositives
      && s.truePositives + s.falseNegatives == ExpectedRelations(expected.edges).Keys
  {
    var s := ScoreEdges(edges, anchors, expected, mode);
    RatioIsOne(|s.truePositives|, |s.falseNegatives|);
    RatioIsOne(|s.truePositives|, |s.falsePositives|);
  }

  lemma RatioIsOne(part: nat, rest: nat)
    ensures Ratio(part, rest) == 1.0 <==> rest == 0
  {
    if part + rest > 0 {
      var total := (part + rest) as real;
      assert part as real / total == 1.0 <==> part as real == total;
    }
  }

  /** The relaxed mode forgives exactly the pairs inside an expected group that are not forbidden, and changes nothing
      else but the precision. */
  lemma RelaxedModeForgives(edges: seq<CorrelationEdge>, anchors: Anchors, expected: Expected, pair: StepPair)
    ensures var strict := ScoreEdges(edges, anchors, expected, Exact);
      var relaxed := ScoreEdges(edges, anchors, expected, IncidentOnly);
      (pair in relaxed.falsePositives <==>
         pair in strict.falsePositives
         && (pair in strict.forbiddenObserved || !WithinExpectedIncident(pair, expected.incidents)))
      && relaxed.precision >= strict.precision
      && relaxed == strict.(precision := relaxed.precision, precisionUndefined := relaxed.precisionUndefined,
                            falsePositives := relaxed.falsePositives)
  {
    var strict := ScoreEdges(edges, anchors, expected, Exact);
    var relaxed := ScoreEdges(edges, anchors, expected, IncidentOnly);
    assert relaxed.falsePositives <= strict.falsePositives;
    SubsetCardinality(relaxed.falsePositives, strict.falsePositives);
    RatioFalls(|strict.truePositives|, |relaxed.falsePositives|, |strict.falsePositives|);
  }

  lemma RatioFalls(part: nat, less: nat, more: nat)
    requires less <= more
    ensures Ratio(part, less) >= Ratio(part, more)
  {
    if part == 0 {
      assert more > 0 ==> Ratio(part, more) == 0.0 / more as real == 0.0;
      assert less > 0 ==> Ratio(part, less) == 0.0 / less as real == 0.0;
    } else {
      QuotientFalls(part as real, (part + less) as real, (part + more) as real);
    }
  }

  lemma QuotientFalls(p: real, l: real, m: real)
    requires p > 0.0 && 0.0 < l <= m
    ensures p / l >= p / m
  {
    var q, r := p / l, p / m;
    assert q * l == p && r * m == p && r > 0.0;
    assert r * m - r * l == r * (m - l) >= 0.0;
    assert (q - r) * l >= 0.0;
  }

  // ---- Edge score implies grouping ----

  /** The expected edges as links between step ids. */
  ghost function ExpectedLinks(edges: seq<ExpectedEdge>): Links {
    set e | e in edges :: (e.fromStep, e.toStep)
  }

  lemma {:induction false} ExpectedPairs(edges: seq<ExpectedEdge>, pair: StepPair)
    ensures pair in ExpectedRelations(edges) <==> exists e :: e in edges && PairKey(e.fromStep, e.toStep) == pair
  {
    if edges == [] {
    } else {
      var init, last := edges[..|edges| - 1], edges[|edges| - 1];
      ExpectedPairs(init, pair);
      assert forall e :: e in edges <==> e in init || e == last;
    }
  }

  /** An expected pair that was observed has both steps anchored, and their events joined by an edge. */
  lemma ObservedPairIsLinked(edges: seq<CorrelationEdge>, anchors: Anchors, s: string, t: string)
    requires PairKey(s, t) in Observed(edges, StepIndex(Items(anchors)))
    ensures s in anchors.values && t in anchors.values
    ensures Adjacent(LinksOf(edges), anchors.values[s].id, anchors.values[t].id)
  {
    var index := StepIndex(Items(anchors));
    ObservedSpec(edges, index, PairKey(s, t));
    var x :| x in edges && Shows(x, index, PairKey(s, t));
    PairKeyIsUnordered(index[x.source], index[x.target], s, t);
    IndexNamesSteps(anchors, x.source);
    IndexNamesSteps(anchors, x.target);
    assert (x.source, x.target) in LinksOf(edges);
  }

  /** Every expected pair is observed. */
  ghost predicate NothingMissing(edges: seq<CorrelationEdge>, anchors: Anchors, expected: Expected) {
    ExpectedRelations(expected.edges).Keys <= Observed(edges, StepIndex(Items(anchors))).Keys
  }

  lemma SubsetIffNoneLeft<T>(a: set<T>, b: set<T>)
    ensures a - b == {} <==> a <= b
  {
    forall x | x in a && x !in b
      ensures a - b != {}
    {
      assert x in a - b;
    }
  }

  lemma NoFalseNegatives(edges: seq<CorrelationEdge>, anchors: Anchors, expected: Expected, mode: EdgeScoring)
    ensures ScoreEdges(edges, anchors, expected, mode).falseNegatives == {}
      <==> NothingMissing(edges, anchors, expected)
  {
    var wanted, seen := ExpectedRelations(expected.edges).Keys, Observed(edges, StepIndex(Items(anchors))).Keys;
    assert ScoreEdges(edges, anchors, expected, mode).falseNegatives == wanted - seen;
    SubsetIffNoneLeft(wanted, seen);
  }

  lemma ExpectedLinkIsObserved(edges: seq<CorrelationEdge>, anchors: Anchors, expected: Expected, s: string, t: string)
    requires NothingMissing(edges, anchors, expected) && Adjacent(ExpectedLinks(expected.edges), s, t)
    ensures PairKey(s, t) in Observed(edges, StepIndex(Items(anchors)))
  {
    ExpectedLinkHasPair(expected.edges, s, t);
  }

  lemma ExpectedLinkHasPair(edges: seq<ExpectedEdge>, s: string, t: string)
    requires Adjacent(ExpectedLinks(edges), s, t)
    ensures PairKey(s, t) in ExpectedRelations(edges)
  {
    var e :| e in edges && ((e.fromStep == s && e.toStep == t) || (e.fromStep == t && e.toStep == s));
    PairKeyIsUnordered(e.fromStep, e.toStep, s, t);
    ExpectedPairs(edges, PairKey(s, t));
  }

  lemma {:induction false} ExpectedPathConnects(edges: seq<CorrelationEdge>, anchors: Anchors, expected: Expected,
      p: seq<string>)
    requires NothingMissing(edges, anchors, expected) && IsPath(ExpectedLinks(expected.edges), p)
    requires p[0] in anchors.values
    ensures p[|p| - 1] in anchors.values
    ensures Connected(LinksOf(edges), anchors.values[p[0]].id, anchors.values[p[|p| - 1]].id)
  {
    var links := LinksOf(edges);
    if |p| == 1 {
      ConnectedReflexive(links, anchors.values[p[0]].id);
    } else {
      assert Adjacent(ExpectedLinks(expected.edges), p[0], p[1]);
      ExpectedLinkIsObserved(edges, anchors, expected, p[0], p[1]);
      ObservedPairIsLinked(edges, anchors, p[0], p[1]);
      ExpectedPathConnects(edges, anchors, expected, p[1..]);
      AdjacentConnected(links, anchors.values[p[0]].id, anchors.values[p[1]].id);
      ConnectedTransitive(links, anchors.values[p[0]].id, anchors.values[p[1]].id, anchors.values[p[|p| - 1]].id);
    }
  }

  ghost predicate AllAnchored(incident: ExpectedIncident, anchors: Anchors) {
    forall m :: m in incident.members ==> m in anchors.values
  }

  /** The expected edges alone connect the members of the incident. */
  ghost predicate ExpectedConnects(incident: ExpectedIncident, expected: Expected) {
    forall m, n :: m in incident.members && n in incident.members ==> Connected(ExpectedLinks(expected.edges), m, n)
  }

  /** An expected incident of two or more anchored members is reported grouped exactly when edges connect all of them.
      */
  lemma GroupedIffConnected(events: seq<LogEvent>, edges: seq<CorrelationEdge>, anchors: Anchors,
      incident: ExpectedIncident)
    requires |incident.members| >= 2 && AllAnchored(incident, anchors)
    requires forall m :: m in incident.members ==> anchors.values[m] in events
    ensures Judge(incident, anchors, ComponentsOf(events, edges)).actualGrouped
      <==> forall m, n :: m in incident.members && n in incident.members ==>
        Connected(LinksOf(edges), anchors.values[m].id, anchors.values[n].id)
  {
    var t, nodes, links := ComponentsOf(events, edges), GraphNodes(events, edges), LinksOf(edges);
    forall m | m in incident.members
      ensures anchors.values[m].id in t && t[anchors.values[m].id] == Component(nodes, links, anchors.values[m].id)
    {
      assert anchors.values[m].id in Ids(events);
    }
    if Judge(incident, anchors, t).actualGrouped {
      var whole := SharedComponent(incident, anchors, t);
      forall m, n | m in incident.members && n in incident.members
        ensures Connected(links, anchors.values[m].id, anchors.values[n].id)
      {
        ConnectedReflexive(links, anchors.values[n].id);
        assert anchors.values[n].id in whole;
      }
    }
    if forall m, n :: m in incident.members && n in incident.members ==>
      Connected(links, anchors.values[m].id, anchors.values[n].id)
    {
      var first := incident.members[0];
      assert first in incident.members;
      forall m | m in incident.members
        ensures t[anchors.values[m].id] == Component(nodes, links, anchors.values[first].id)
      {
        ComponentsEqual(nodes, links, anchors.values[first].id, anchors.values[m].id);
      }
      OneComponentJudged(incident, anchors, t, Component(nodes, links, anchors.values[first].id));
    }
  }

  lemma SharedComponent(incident: ExpectedIncident, anchors: Anchors, t: map<EventId, set<EventId>>)
    returns (whole: set<EventId>)
    requires |incident.members| >= 2 && AllAnchored(incident, anchors)
    requires forall m :: m in incident.members ==> anchors.values[m].id in t
    requires Judge(incident, anchors, t).actualGrouped
    ensures forall m :: m in incident.members ==> t[anchors.values[m].id] == whole
  {
    var components := set m | m in incident.members ::
      (var id := anchors.values[m].id; if id in t then t[id] else {id});
    OnlyOne(components);
    whole :| components == {whole};
    forall m | m in incident.members
      ensures t[anchors.values[m].id] == whole
    {
      assert t[anchors.values[m].id] in components;
    }
  }

  /** With no false negatives, an expected incident of two or more anchored members that the expected edges connect is
      reported as grouped. */
  lemma EdgeScoreImpliesGrouping(events: seq<LogEvent>, edges: seq<CorrelationEdge>, anchors: Anchors,
      expected: Expected,
      incident: ExpectedIncident)
    requires ScoreEdges(edges, anchors, expected, Exact).falseNegatives == {}
    requires |incident.members| >= 2 && AllAnchored(incident, anchors) && ExpectedConnects(incident, expected)
    requires forall m :: m in incident.members ==> anchors.values[m] in events
    ensures Judge(incident, anchors, ComponentsOf(events, edges)).actualGrouped
  {
    NoFalseNegatives(edges, anchors, expected, Exact);
    forall m, n | m in incident.members && n in incident.members
      ensures Connected(LinksOf(edges), anchors.values[m].id, anchors.values[n].id)
    {
      assert Connected(ExpectedLinks(expected.edges), m, n);
      var p :| PathBetween(ExpectedLinks(expected.edges), p, m, n);
      ExpectedPathConnects(edges, anchors, expected, p);
    }
    GroupedIffConnected(events, edges, anchors, incident);
  }

  lemma OneComponentJudged(incident: ExpectedIncident, anchors: Anchors, t: map<EventId, set<EventId>>,
      whole: set<EventId>)
    requires |incident.members| >= 2 && AllAnchored(incident, anchors)
    requires forall m :: m in incident.members ==> anchors.values[m].id in t && t[anchors.values[m].id] == whole
    ensures Judge(incident, anchors, t).actualGrouped
    ensures Judge(incident, anchors, t).componentSize == Some(|whole|)
  {
    var components := set m | m in incident.members ::
      (var id := anchors.values[m].id; if id in t then t[id] else {id});
    assert incident.members[0] in incident.members;
    assert components == {whole};
  }

  // ---- A lone step stays alone ----

  ghost predicate DistinctAnchors(anchors: Anchors) {
    forall s, u :: s in anchors.values && u in anchors.values && s != u ==> anchors.values[s].id != anchors.values[u].id
  }

  /** No expected edge touches the step. */
  ghost predicate Untouched(s: string, expected: Expected) {
    forall e :: e in expected.edges ==> e.fromStep != s && e.toStep != s
  }

  /** Nothing but expected pairs is observed, and no edge has a single anchored end. */
  ghost predicate NothingElse(edges: seq<CorrelationEdge>, anchors: Anchors, expected: Expected) {
    Observed(edges, StepIndex(Items(anchors))).Keys <= ExpectedRelations(expected.edges).Keys
    && Contamination(edges, StepIndex(Items(anchors))) == []
  }

  lemma NoFalsePositives(edges: seq<CorrelationEdge>, anchors: Anchors, expected: Expected)
    ensures NothingElse(edges, anchors, expected)
      <==> (ScoreEdges(edges, anchors, expected, Exact).falsePositives == {}
            && Contamination(edges, StepIndex(Items(anchors))) == [])
  {
    var wanted, seen := ExpectedRelations(expected.edges).Keys, Observed(edges, StepIndex(Items(anchors))).Keys;
    assert ScoreEdges(edges, anchors, expected, Exact).falsePositives == seen - wanted;
    SubsetIffNoneLeft(seen, wanted);
  }

  /** An edge at an anchored event leads to another anchor, and the pair is expected. */
  lemma EdgeAtAnchorIsExpected(edges: seq<CorrelationEdge>, anchors: Anchors, expected: Expected, x: CorrelationEdge)
    requires NothingElse(edges, anchors, expected) && x in edges
    requires var index := StepIndex(Items(anchors)); x.source in index || x.target in index
    ensures var index := StepIndex(Items(anchors));
      BothAnchored(x, index) && PairOfSteps(x, index) in ExpectedRelations(expected.edges)
  {
    var index := StepIndex(Items(anchors));
    if BothAnchored(x, index) {
      assert Shows(x, index, PairOfSteps(x, index));
      ObservedSpec(edges, index, PairOfSteps(x, index));
    } else {
      ContaminationSpec(edges, index, ContaminationOf(x, index)[0]);
    }
  }

  lemma UntouchedPair(expected: Expected, s: string, t: string)
    requires Untouched(s, expected)
    ensures PairKey(s, t) !in ExpectedRelations(expected.edges) && PairKey(t, s) !in ExpectedRelations(expected.edges)
  {
    ExpectedPairs(expected.edges, PairKey(s, t));
    ExpectedPairs(expected.edges, PairKey(t, s));
    forall e | e in expected.edges
      ensures PairKey(e.fromStep, e.toStep) != PairKey(s, t) && PairKey(e.fromStep, e.toStep) != PairKey(t, s)
    {
      PairKeyIsUnordered(e.fromStep, e.toStep, s, t);
      PairKeyIsUnordered(e.fromStep, e.toStep, t, s);
    }
  }

  lemma OwnName(anchors: Anchors, s: string)
    requires DistinctAnchors(anchors) && s in anchors.values
    ensures anchors.values[s].id in StepIndex(Items(anchors)) && StepIndex(Items(anchors))[anchors.values[s].id] == s
  {
    AnchorIsIndexed(anchors, s);
    IndexNamesSteps(anchors, anchors.values[s].id);
  }

  lemma NoEdgeAtLoneStep(edges: seq<CorrelationEdge>, anchors: Anchors, expected: Expected, s: string,
      x: CorrelationEdge)
    requires DistinctAnchors(anchors) && s in anchors.values && Untouched(s, expected) && x in edges
    requires NothingElse(edges, anchors, expected)
    ensures x.source != anchors.values[s].id && x.target != anchors.values[s].id
  {
    var index, id := StepIndex(Items(anchors)), anchors.values[s].id;
    OwnName(anchors, s);
    if x.source == id {
      EdgeAtAnchorIsExpected(edges, anchors, expected, x);
      UntouchedPair(expected, s, index[x.target]);
    } else if x.target == id {
      EdgeAtAnchorIsExpected(edges, anchors, expected, x);
      UntouchedPair(expected, s, index[x.source]);
    }
  }

  lemma LinklessIsAlone(nodes: set<EventId>, links: Links, id: EventId)
    requires id in nodes && forall b :: Adjacent(links, id, b) ==> b == id
    ensures Component(nodes, links, id) == {id}
  {
    ConnectedReflexive(links, id);
    forall b | b in nodes && Connected(links, id, b)
      ensures b == id
    {
      ClosedSetTraps({id}, links, id, b);
    }
  }

  /** A lone member is judged by the size of its event's component; outside the graph that is 1. */
  lemma LoneJudged(incident: ExpectedIncident, anchors: Anchors, t: map<EventId, set<EventId>>, s: string,
      whole: set<EventId>)
    requires incident.members == [s] && s in anchors.values
    requires whole == if anchors.values[s].id in t then t[anchors.values[s].id] else {anchors.values[s].id}
    ensures Judge(incident, anchors, t).componentSize == Some(|whole|)
    ensures Judge(incident, anchors, t).actualGrouped <==> |whole| > 1
  {
    var components := set m | m in incident.members ::
      (var i := anchors.values[m].id; if i in t then t[i] else {i});
    assert incident.members[0] == s;
    assert components == {whole};
  }

  /** A lone member is reported isolated, as a component of one event, exactly when no edge joins its event to another.
      */
  lemma IsolatedIffLinkless(events: seq<LogEvent>, edges: seq<CorrelationEdge>, anchors: Anchors,
      incident: ExpectedIncident, s: string)
    requires incident.members == [s] && s in anchors.values
    ensures var judged, id := Judge(incident, anchors, ComponentsOf(events, edges)), anchors.values[s].id;
      (judged.actualGrouped <==> judged.componentSize != Some(1))
      && (judged.actualGrouped <==> exists b :: b != id && Adjacent(LinksOf(edges), id, b))
  {
    var t, nodes, links := ComponentsOf(events, edges), GraphNodes(events, edges), LinksOf(edges);
    var id := anchors.values[s].id;
    var whole := if id in t then t[id] else {id};
    LoneJudged(incident, anchors, t, s, whole);
    if b :| b != id && Adjacent(links, id, b) {
      assert id in nodes && b in nodes;
      ConnectedReflexive(links, id);
      AdjacentConnected(links, id, b);
      SubsetCardinality({id, b}, whole);
    } else if id in nodes {
      LinklessIsAlone(nodes, links, id);
    }
    assert id in whole ==> |whole| >= 1;
  }

  /** In exact mode, with distinct anchors, no false positive and no contamination, a step that no expected edge
      touches is reported isolated. */
  lemma LoneStepIsIsolated(events: seq<LogEvent>, edges: seq<CorrelationEdge>, anchors: Anchors, expected: Expected,
      incident: ExpectedIncident, s: string)
    requires incident.members == [s] && s in anchors.values
    requires DistinctAnchors(anchors) && Untouched(s, expected)
    requires ScoreEdges(edges, anchors, expected, Exact).falsePositives == {}
    requires Contamination(edges, StepIndex(Items(anchors))) == []
    ensures var judged := Judge(incident, anchors, ComponentsOf(events, edges));
      !judged.actualGrouped && judged.componentSize == Some(1)
  {
    NoFalsePositives(edges, anchors, expected);
    var links, id := LinksOf(edges), anchors.values[s].id;
    forall b
      ensures !Adjacent(links, id, b)
    {
      if Adjacent(links, id, b) {
        var x :| x in edges && ((x.source == id && x.target == b) || (x.source == b && x.target == id));
        NoEdgeAtLoneStep(edges, anchors, expected, s, x);
      }
    }
    IsolatedIffLinkless(events, edges, anchors, incident, s);
  }
}
