/** What the parts of a score mean, in terms of the edges found and the edges expected. */
module ScoreFigures {
  import opened Options
  import opened Collections
  import opened Selections
  import opened OrderedDicts
  import opened Schema
  import opened Scoring
  import opened ScoringTheorems

  ghost predicate Naming(e: ExpectedEdge, pair: StepPair) {
    PairKey(e.fromStep, e.toStep) == pair
  }

  ghost predicate Named(edges: seq<ExpectedEdge>, pair: StepPair) {
    exists e :: e in edges && Naming(e, pair)
  }

  ghost predicate LastNaming(edges: seq<ExpectedEdge>, pair: StepPair, k: nat) {
    k < |edges| && Naming(edges[k], pair) && forall l :: k < l < |edges| ==> !Naming(edges[l], pair)
  }

  ghost predicate Shown(edges: seq<CorrelationEdge>, index: map<EventId, string>, pair: StepPair) {
    exists x :: x in edges && Shows(x, index, pair)
  }

  ghost predicate LastShowing(edges: seq<CorrelationEdge>, index: map<EventId, string>, pair: StepPair, k: nat) {
    k < |edges| && Shows(edges[k], index, pair) && forall l :: k < l < |edges| ==> !Shows(edges[l], index, pair)
  }

  /** The last expected edge that names a pair says how it should be found. */
  lemma {:induction false} ExpectedIsLast(edges: seq<ExpectedEdge>, pair: StepPair, k: nat)
    requires LastNaming(edges, pair, k)
    ensures pair in ExpectedRelations(edges) && ExpectedRelations(edges)[pair] == edges[k].relation
  {
    if k == |edges| - 1 {
    } else {
      assert !Naming(edges[|edges| - 1], pair);
      ExpectedIsLast(edges[..|edges| - 1], pair, k);
    }
  }

  lemma {:induction false} SomeNamingIsLast(edges: seq<ExpectedEdge>, pair: StepPair) returns (k: nat)
    requires Named(edges, pair)
    ensures LastNaming(edges, pair, k)
  {
    var init, last := edges[..|edges| - 1], edges[|edges| - 1];
    if Naming(last, pair) {
      k := |edges| - 1;
    } else {
      assert edges == init + [last];
      k := SomeNamingIsLast(init, pair);
    }
  }

  /** The last edge that shows a pair says how it was found. */
  lemma {:induction false} ObservedIsLast(edges: seq<CorrelationEdge>, index: map<EventId, string>, pair: StepPair,
      k: nat)
    requires LastShowing(edges, index, pair, k)
    ensures pair in Observed(edges, index) && Observed(edges, index)[pair] == edges[k].relation
  {
    if k == |edges| - 1 {
    } else {
      assert !Shows(edges[|edges| - 1], index, pair);
      ObservedIsLast(edges[..|edges| - 1], index, pair, k);
    }
  }

  lemma {:induction false} SomeShowingIsLast(edges: seq<CorrelationEdge>, index: map<EventId, string>, pair: StepPair)
    returns (k: nat)
    requires Shown(edges, index, pair)
    ensures LastShowing(edges, index, pair, k)
  {
    var init, last := edges[..|edges| - 1], edges[|edges| - 1];
    if Shows(last, index, pair) {
      k := |edges| - 1;
    } else {
      assert edges == init + [last];
      k := SomeShowingIsLast(init, index, pair);
    }
  }

  /** The step that an event's id stands for is the last one anchored to it. */
  lemma {:induction false} IndexIsLast(items: seq<(string, LogEvent)>, k: nat)
    requires k < |items| && forall l :: k < l < |items| ==> items[l].1.id != items[k].1.id
    ensures items[k].1.id in StepIndex(items) && StepIndex(items)[items[k].1.id] == items[k].0
  {
    if k == |items| - 1 {
    } else {
      IndexIsLast(items[..|items| - 1], k);
    }
  }

  /** Which pairs are right, missing, wrong or forbidden. */
  lemma PairsMean(edges: seq<CorrelationEdge>, anchors: Anchors, expected: Expected, mode: EdgeScoring, pair: StepPair)
    ensures var s, index := ScoreEdges(edges, anchors, expected, mode), StepIndex(Items(anchors));
      var named, shown := Named(expected.edges, pair), Shown(edges, index, pair);
      (pair in s.truePositives <==> named && shown)
      && (pair in s.falseNegatives <==> named && !shown)
      && (pair in s.falsePositives <==>
            !named && shown
            && (mode == Exact || Named(expected.forbidden, pair) || !WithinExpectedIncident(pair, expected.incidents)))
      && (pair in s.forbiddenObserved <==> Named(expected.forbidden, pair) && shown)
  {
    ExpectedPairs(expected.edges, pair);
    ObservedSpec(edges, StepIndex(Items(anchors)), pair);
    assert pair in ForbiddenPairs(expected.forbidden) <==> Named(expected.forbidden, pair);
  }

  /** A pair is a stage mismatch when it is expected and found, and the last edge that shows it was found otherwise than
      the last expected edge that names it says. */
  lemma MismatchMeans(edges: seq<CorrelationEdge>, anchors: Anchors, expected: Expected, mode: EdgeScoring,
      pair: StepPair)
    ensures var index := StepIndex(Items(anchors));
      pair in ScoreEdges(edges, anchors, expected, mode).stageMismatches
      <==> exists k: nat, l: nat ::
             LastShowing(edges, index, pair, k) && LastNaming(expected.edges, pair, l)
             && edges[k].relation != expected.edges[l].relation
  {
    var index, s := StepIndex(Items(anchors)), ScoreEdges(edges, anchors, expected, mode);
    var observed, wanted := Observed(edges, index), ExpectedRelations(expected.edges);
    MismatchTable(observed, expected, mode, pair);
    if k: nat, l: nat :|
      LastShowing(edges, index, pair, k) && LastNaming(expected.edges, pair, l)
      && edges[k].relation != expected.edges[l].relation
    {
      ObservedIsLast(edges, index, pair, k);
      ExpectedIsLast(expected.edges, pair, l);
    }
    if pair in s.stageMismatches {
      ObservedSpec(edges, index, pair);
      ExpectedPairs(expected.edges, pair);
      var k := SomeShowingIsLast(edges, index, pair);
      var l := SomeNamingIsLast(expected.edges, pair);
      ObservedIsLast(edges, index, pair, k);
      ExpectedIsLast(expected.edges, pair, l);
    }
  }

  lemma MismatchTable(observed: map<StepPair, RelationType>, expected: Expected, mode: EdgeScoring, pair: StepPair)
    ensures var wanted := ExpectedRelations(expected.edges);
      pair in ScoreObserved(observed, expected, mode).stageMismatches
      <==> pair in wanted && pair in observed && observed[pair] != wanted[pair]
  {
  }

  /** On edges that agree on how a pair was found, any edge that shows the pair decides. */
  lemma MismatchOfAgreeing(edges: seq<CorrelationEdge>, anchors: Anchors, expected: Expected, mode: EdgeScoring,
      pair: StepPair)
    requires RelationsAgree(edges)
    ensures var index, s := StepIndex(Items(anchors)), ScoreEdges(edges, anchors, expected, mode);
      pair in s.stageMismatches
      <==> pair in s.truePositives
           && exists x, l: nat ::
                x in edges && Shows(x, index, pair) && LastNaming(expected.edges, pair, l)
                && x.relation != expected.edges[l].relation
  {
    var index := StepIndex(Items(anchors));
    MismatchMeans(edges, anchors, expected, mode, pair);
    PairsMean(edges, anchors, expected, mode, pair);
    if k: nat, l: nat :|
      LastShowing(edges, index, pair, k) && LastNaming(expected.edges, pair, l)
      && edges[k].relation != expected.edges[l].relation
    {
      assert edges[k] in edges && expected.edges[l] in expected.edges;
    }
    if x, l: nat :|
      x in edges && Shows(x, index, pair) && LastNaming(expected.edges, pair, l)
      && x.relation != expected.edges[l].relation
    {
      var k := SomeShowingIsLast(edges, index, pair);
      SamePairSameEvents(anchors, x, edges[k], pair);
      assert edges[k] in edges;
    }
  }

  /** The anchored end and the other end of an edge with one anchored end. */
  function OneEnd(index: map<EventId, string>): CorrelationEdge -> Option<(EventId, EventId)> {
    (x: CorrelationEdge) =>
      if (x.source in index) == (x.target in index) then None
      else Some(if x.source in index then (x.source, x.target) else (x.target, x.source))
  }

  /** Every edge with one anchored end counts as contamination once, in edge order. */
  lemma {:induction false} ContaminationYields(edges: seq<CorrelationEdge>, index: map<EventId, string>)
    returns (at: seq<nat>)
    ensures Yields(OneEnd(index), edges, Contamination(edges, index), at)
  {
    if edges == [] {
      at := [];
    } else {
      var init := edges[..|edges| - 1];
      at := ContaminationYields(init, index);
      at := YieldsLast(OneEnd(index), edges, Contamination(init, index), at);
    }
  }

  /** `figure` is the share that `part` has in `part + rest`, and 1 when there is nothing to share. */
  ghost predicate IsShare(figure: real, part: nat, rest: nat) {
    if part + rest == 0 then figure == 1.0 else figure * (part + rest) as real == part as real
  }

  lemma RatioIsShare(part: nat, rest: nat)
    ensures IsShare(Ratio(part, rest), part, rest)
  {
  }

  lemma FiguresAreRatios(observed: map<StepPair, RelationType>, expected: Expected, mode: EdgeScoring)
    ensures var s := ScoreObserved(observed, expected, mode);
      var tp, fp, fn := |s.truePositives|, |s.falsePositives|, |s.falseNegatives|;
      s.precision == Ratio(tp, fp) && s.recall == Ratio(tp, fn)
      && s.precisionUndefined == (tp + fp == 0) && s.recallUndefined == (tp + fn == 0)
  {
  }

  /** Precision and recall are the shares of the right pairs among those found and among those expected; where there is
      no such pair they are 1 and marked undefined. */
  lemma FiguresMean(edges: seq<CorrelationEdge>, anchors: Anchors, expected: Expected, mode: EdgeScoring)
    ensures var s := ScoreEdges(edges, anchors, expected, mode);
      IsShare(s.precision, |s.truePositives|, |s.falsePositives|)
      && IsShare(s.recall, |s.truePositives|, |s.falseNegatives|)
      && (s.precisionUndefined <==> s.truePositives == {} && s.falsePositives == {})
      && (s.recallUndefined <==> s.truePositives == {} && s.falseNegatives == {})
  {
    var observed := Observed(edges, StepIndex(Items(anchors)));
    var s := ScoreObserved(observed, expected, mode);
    FiguresAreRatios(observed, expected, mode);
    RatioIsShare(|s.truePositives|, |s.falsePositives|);
    RatioIsShare(|s.truePositives|, |s.falseNegatives|);
  }

  /** The group of a step is the last one that lists it. */
  lemma {:induction false} GroupIsLast(incidents: seq<ExpectedIncident>, step: string)
    ensures GroupOf(incidents, step).None? <==> forall i :: i in incidents && i.grouped ==> step !in i.members
    ensures forall k :: 0 <= k < |incidents| && LastGroup(incidents, step, k) ==>
      GroupOf(incidents, step) == Some(Elements(incidents[k].members))
  {
    if incidents == [] {
    } else {
      var init, last := incidents[..|incidents| - 1], incidents[|incidents| - 1];
      GroupIsLast(init, step);
      assert incidents == init + [last];
      forall k | 0 <= k < |init| && LastGroup(incidents, step, k)
        ensures LastGroup(init, step, k) && !(last.grouped && step in last.members)
      {
        assert incidents[|incidents| - 1] == last;
      }
    }
  }

  ghost predicate LastGroup(incidents: seq<ExpectedIncident>, step: string, k: nat) {
    k < |incidents| && incidents[k].grouped && step in incidents[k].members
    && forall l :: k < l < |incidents| ==> !(incidents[l].grouped && step in incidents[l].members)
  }

  lemma {:induction false} SomeGroupIsLast(incidents: seq<ExpectedIncident>, step: string) returns (k: nat)
    requires GroupOf(incidents, step).Some?
    ensures LastGroup(incidents, step, k)
  {
    var init, last := incidents[..|incidents| - 1], incidents[|incidents| - 1];
    if last.grouped && step in last.members {
      k := |incidents| - 1;
    } else {
      k := SomeGroupIsLast(init, step);
      assert init[k] == incidents[k];
    }
  }

  /** Two steps are inside one expected incident if and only if the last group that lists the one and the last group
      that lists the other have the same members. */
  lemma WithinMeans(pair: StepPair, incidents: seq<ExpectedIncident>)
    ensures WithinExpectedIncident(pair, incidents)
      <==> exists k: nat, l: nat ::
             LastGroup(incidents, pair.0, k) && LastGroup(incidents, pair.1, l)
             && Elements(incidents[k].members) == Elements(incidents[l].members)
  {
    GroupIsLast(incidents, pair.0);
    GroupIsLast(incidents, pair.1);
    if WithinExpectedIncident(pair, incidents) {
      var k := SomeGroupIsLast(incidents, pair.0);
      var l := SomeGroupIsLast(incidents, pair.1);
      assert Elements(incidents[k].members) == Elements(incidents[l].members);
    }
  }

  /** The component of a member's anchor; an event outside the graph is on its own. */
  ghost function Home(anchors: Anchors, t: map<EventId, set<EventId>>, m: string): set<EventId>
    requires m in anchors.values
  {
    if anchors.values[m].id in t then t[anchors.values[m].id] else {anchors.values[m].id}
  }

  ghost predicate ShareOneHome(incident: ExpectedIncident, anchors: Anchors, t: map<EventId, set<EventId>>)
    requires AllAnchored(incident, anchors)
  {
    incident.members != []
    && forall m, n :: m in incident.members && n in incident.members ==> Home(anchors, t, m) == Home(anchors, t, n)
  }

  lemma HomesAreOne(homes: set<set<EventId>>)
    requires homes != {} && forall a, b :: a in homes && b in homes ==> a == b
    ensures |homes| == 1
  {
    var a :| a in homes;
    assert homes == {a};
  }

  lemma OneHome(incident: ExpectedIncident, anchors: Anchors, t: map<EventId, set<EventId>>)
    requires AllAnchored(incident, anchors)
    ensures var homes := set m | m in incident.members :: Home(anchors, t, m);
      |homes| == 1 <==> ShareOneHome(incident, anchors, t)
  {
    var homes := set m | m in incident.members :: Home(anchors, t, m);
    if ShareOneHome(incident, anchors, t) {
      assert incident.members[0] in incident.members;
      assert Home(anchors, t, incident.members[0]) in homes;
      HomesAreOne(homes);
    }
    if |homes| == 1 {
      OnlyOne(homes);
      assert forall m :: m in incident.members ==> Home(anchors, t, m) in homes;
      var a :| a in homes;
    }
  }

  /** How an expected incident is judged. A member without an anchor leaves it ungrouped and without a size. Otherwise
      the size is that of the one component that holds every member's anchor, if there is one; a lone member counts as
      grouped when its component has another event, several when they share one component. */
  lemma JudgementMeans(incident: ExpectedIncident, anchors: Anchors, t: map<EventId, set<EventId>>)
    ensures var j := Judge(incident, anchors, t);
      j.members == incident.members && j.expectedGrouped == incident.grouped
      && (!AllAnchored(incident, anchors) ==> !j.actualGrouped && j.componentSize == None)
    ensures AllAnchored(incident, anchors) ==>
      var j, one := Judge(incident, anchors, t), ShareOneHome(incident, anchors, t);
      (!one ==> j.componentSize == None)
      && (one ==> forall m :: m in incident.members ==> j.componentSize == Some(|Home(anchors, t, m)|))
      && (|incident.members| != 1 ==> (j.actualGrouped <==> one))
      && (|incident.members| == 1 ==> (j.actualGrouped <==> |Home(anchors, t, incident.members[0])| > 1))
  {
    if AllAnchored(incident, anchors) {
      JudgementOfAnchored(incident, anchors, t);
    }
  }

  lemma SharedHome(incident: ExpectedIncident, anchors: Anchors, t: map<EventId, set<EventId>>,
      homes: set<set<EventId>>, m: string)
    requires AllAnchored(incident, anchors) && m in incident.members
    requires homes == (set k | k in incident.members :: Home(anchors, t, k)) && |homes| == 1
    ensures TheOnly(homes) == Home(anchors, t, m)
  {
    OnlyOne(homes);
    assert Home(anchors, t, m) in homes;
  }

  lemma JudgementOfAnchored(incident: ExpectedIncident, anchors: Anchors, t: map<EventId, set<EventId>>)
    requires AllAnchored(incident, anchors)
    ensures var j, one := Judge(incident, anchors, t), ShareOneHome(incident, anchors, t);
      (!one ==> j.componentSize == None)
      && (one ==> forall m :: m in incident.members ==> j.componentSize == Some(|Home(anchors, t, m)|))
      && (|incident.members| != 1 ==> (j.actualGrouped <==> one))
      && (|incident.members| == 1 ==> (j.actualGrouped <==> |Home(anchors, t, incident.members[0])| > 1))
  {
    var homes := set m | m in incident.members :: Home(anchors, t, m);
    var components := set m | m in incident.members ::
      (var id := anchors.values[m].id; if id in t then t[id] else {id});
    assert components == homes;
    OneHome(incident, anchors, t);
    if |incident.members| == 1 {
      assert ShareOneHome(incident, anchors, t);
      SharedHome(incident, anchors, t, homes, incident.members[0]);
    }
    forall m | m in incident.members && |homes| == 1
      ensures Home(anchors, t, m) == TheOnly(components)
    {
      SharedHome(incident, anchors, t, homes, m);
    }
  }
}
