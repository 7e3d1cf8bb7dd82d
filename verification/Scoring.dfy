/** Ground-truth scoring of a run (harness/scoring.py). */
module Scoring {
  import opened Options
  import opened Collections
  import opened OrderedDicts
  import opened Schema
  import opened Scenario
  import opened Selections
  import opened IncidentGraph

  // ---- Anchors ----

  function MatchesOf(step: Step, events: seq<LogEvent>): seq<LogEvent>
    requires step.emits.Some?
  {
    if events == [] then []
    else
      var last := events[|events| - 1];
      MatchesOf(step, events[..|events| - 1])
      + if Selects(step.emits.value, last.source, last.message) then [last] else []
  }

  type Anchors = OrderedDict<string, LogEvent>

  function Anchored(steps: seq<Step>, events: seq<LogEvent>): Anchors {
    if steps == [] then Empty()
    else
      var before, step := Anchored(steps[..|steps| - 1], events), steps[|steps| - 1];
      if step.emits.Some? && |MatchesOf(step, events)| == 1 then Put(before, step.id, MatchesOf(step, events)[0])
      else before
  }

  function Unresolved(steps: seq<Step>, events: seq<LogEvent>): seq<string> {
    if steps == [] then []
    else
      var step := steps[|steps| - 1];
      Unresolved(steps[..|steps| - 1], events)
      + if step.emits.Some? && |MatchesOf(step, events)| != 1 then [step.id] else []
  }

  method ResolveAnchors(events: seq<LogEvent>, steps: seq<Step>) returns (anchors: Anchors, unresolved: seq<string>)
    ensures anchors == Anchored(steps, events) && unresolved == Unresolved(steps, events)
    ensures DistinctSteps(steps) ==> forall s :: s in steps ==> Resolves(s, events, anchors, unresolved)
  {
    anchors, unresolved := Empty(), [];
    for i := 0 to |steps|
      invariant anchors == Anchored(steps[..i], events) && unresolved == Unresolved(steps[..i], events)
    {
      assert steps[..i + 1][..i] == steps[..i];
      var step := steps[i];
      if step.emits.None? {
        continue;
      }
      var matches := MatchesOf(step, events);
      if |matches| == 1 {
        anchors := Put(anchors, step.id, matches[0]);
      } else {
        unresolved := unresolved + [step.id];
      }
    }
    assert steps[..|steps|] == steps;
    forall s | DistinctSteps(steps) && s in steps
      ensures Resolves(s, events, anchors, unresolved)
    {
      ResolutionIsExact(steps, events, s);
    }
  }

  ghost predicate DistinctSteps(steps: seq<Step>) {
    forall i, j :: 0 <= i < j < |steps| ==> steps[i].id != steps[j].id
  }

  /** What the step selects. */
  function Match(step: Step): LogEvent -> Option<LogEvent> {
    (e: LogEvent) =>
      if step.emits.Some? && Selects(step.emits.value, e.source, e.message) then Some(e) else None
  }

  lemma {:induction false} MatchesYield(step: Step, events: seq<LogEvent>) returns (at: seq<nat>)
    requires step.emits.Some?
    ensures Yields(Match(step), events, MatchesOf(step, events), at)
  {
    if events == [] {
      at := [];
    } else {
      var init := events[..|events| - 1];
      at := MatchesYield(step, init);
      at := YieldsLast(Match(step), events, MatchesOf(step, init), at);
    }
  }

  /** The step selects the event at position i. */
  predicate SelectedAt(step: Step, events: seq<LogEvent>, i: nat) {
    i < |events| && step.emits.Some? && Selects(step.emits.value, events[i].source, events[i].message)
  }

  /** It selects that event and no other. */
  ghost predicate OnlyAt(step: Step, events: seq<LogEvent>, i: nat) {
    SelectedAt(step, events, i) && forall j: nat :: SelectedAt(step, events, j) ==> j == i
  }

  lemma SelectedAreListed(step: Step, events: seq<LogEvent>, at: seq<nat>, i: nat)
    requires step.emits.Some? && Yields(Match(step), events, MatchesOf(step, events), at)
    ensures SelectedAt(step, events, i) <==> i in at
  {
    if SelectedAt(step, events, i) {
      assert Match(step)(events[i]).Some?;
    }
  }

  lemma MatchCount(step: Step, events: seq<LogEvent>)
    requires step.emits.Some?
    ensures |MatchesOf(step, events)| == 1 <==> SelectsOne(step, events)
    ensures forall i: nat :: OnlyAt(step, events, i) ==> MatchesOf(step, events) == [events[i]]
    ensures |MatchesOf(step, events)| == 0 <==> SelectsNone(step, events)
  {
    var at := MatchesYield(step, events);
    forall i: nat
      ensures SelectedAt(step, events, i) <==> i in at
    {
      SelectedAreListed(step, events, at, i);
    }
    if |at| == 1 {
      assert at[0] in at;
      assert OnlyAt(step, events, at[0]);
    }
    if at != [] {
      assert at[0] in at && SelectedAt(step, events, at[0]);
    }
    forall i: nat | OnlyAt(step, events, i)
      ensures |at| == 1 && at[0] == i
    {
      forall k | 0 <= k < |at|
        ensures at[k] == i
      {
        assert at[k] in at;
      }
      assert i in at;
    }
  }

  lemma {:induction false} AnchoredIds(steps: seq<Step>, events: seq<LogEvent>, id: string)
    ensures id in Anchored(steps, events).values ==> exists s :: s in steps && s.id == id
    ensures id in Unresolved(steps, events) ==> exists s :: s in steps && s.id == id
  {
    if steps == [] {
    } else {
      AnchoredIds(steps[..|steps| - 1], events, id);
      assert steps == steps[..|steps| - 1] + [steps[|steps| - 1]];
    }
  }

  lemma {:induction false} ResolutionByCount(steps: seq<Step>, events: seq<LogEvent>, s: Step)
    requires DistinctSteps(steps) && s in steps
    ensures s.id in Anchored(steps, events).values <==> s.emits.Some? && |MatchesOf(s, events)| == 1
    ensures s.id in Anchored(steps, events).values ==> Anchored(steps, events).values[s.id] == MatchesOf(s, events)[0]
    ensures s.id in Unresolved(steps, events) <==> s.emits.Some? && |MatchesOf(s, events)| != 1
  {
    var init, last := steps[..|steps| - 1], steps[|steps| - 1];
    assert steps == init + [last];
    if s == last {
      AnchoredIds(init, events, s.id);
      assert forall x :: x in init ==> x.id != s.id;
    } else {
      assert s in init;
      ResolutionByCount(init, events, s);
      assert s.id != last.id;
    }
  }

  /** A step is anchored to the only event it selects, and is unresolved when it emits and selects none, or two. */
  ghost predicate Resolves(s: Step, events: seq<LogEvent>, anchors: Anchors, unresolved: seq<string>) {
    (s.id in anchors.values <==> SelectsOne(s, events))
    && (forall i: nat :: OnlyAt(s, events, i) ==> s.id in anchors.values && anchors.values[s.id] == events[i])
    && (s.id in unresolved <==> s.emits.Some? && (SelectsNone(s, events) || SelectsTwo(s, events)))
  }

  ghost predicate SelectsNone(s: Step, events: seq<LogEvent>) {
    forall i: nat :: !SelectedAt(s, events, i)
  }

  ghost predicate SelectsOne(s: Step, events: seq<LogEvent>) {
    exists i: nat :: OnlyAt(s, events, i)
  }

  ghost predicate SelectsTwo(s: Step, events: seq<LogEvent>) {
    exists i: nat, j: nat :: i < j && SelectedAt(s, events, i) && SelectedAt(s, events, j)
  }

  lemma NoneOneOrTwo(s: Step, events: seq<LogEvent>)
    ensures SelectsNone(s, events) || SelectsOne(s, events) || SelectsTwo(s, events)
    ensures SelectsOne(s, events) ==> !SelectsNone(s, events) && !SelectsTwo(s, events)
  {
    if i: nat :| SelectedAt(s, events, i) && !OnlyAt(s, events, i) {
      var j: nat :| SelectedAt(s, events, j) && j != i;
      assert SelectedAt(s, events, if i < j then i else j) && SelectedAt(s, events, if i < j then j else i);
    }
  }

  /** With distinct step ids (the loader's lint) every step is resolved by what it selects. */
  lemma ResolutionIsExact(steps: seq<Step>, events: seq<LogEvent>, s: Step)
    requires DistinctSteps(steps) && s in steps
    ensures Resolves(s, events, Anchored(steps, events), Unresolved(steps, events))
  {
    ResolutionByCount(steps, events, s);
    NoneOneOrTwo(s, events);
    if s.emits.Some? {
      MatchCount(s, events);
    }
  }

  ghost function IfUnresolved(events: seq<LogEvent>): Step -> Option<string> {
    (s: Step) => if s.emits.Some? && !SelectsOne(s, events) then Some(s.id) else None
  }

  /** Unresolved steps are listed in step order, each once. */
  lemma {:induction false} UnresolvedYields(steps: seq<Step>, events: seq<LogEvent>) returns (at: seq<nat>)
    ensures Yields(IfUnresolved(events), steps, Unresolved(steps, events), at)
  {
    if steps == [] {
      at := [];
    } else {
      var init, last := steps[..|steps| - 1], steps[|steps| - 1];
      at := UnresolvedYields(init, events);
      if last.emits.Some? {
        MatchCount(last, events);
      }
      at := YieldsLast(IfUnresolved(events), steps, Unresolved(init, events), at);
    }
  }

  ghost function IfAnchored(events: seq<LogEvent>): Step -> Option<string> {
    (s: Step) => if s.emits.Some? && SelectsOne(s, events) then Some(s.id) else None
  }

  /** The anchors, too, are in step order. */
  lemma {:induction false} AnchoredYields(steps: seq<Step>, events: seq<LogEvent>) returns (at: seq<nat>)
    requires DistinctSteps(steps)
    ensures Yields(IfAnchored(events), steps, Anchored(steps, events).keys, at)
  {
    if steps == [] {
      at := [];
    } else {
      var init, last := steps[..|steps| - 1], steps[|steps| - 1];
      at := AnchoredYields(init, events);
      AnchoredIds(init, events, last.id);
      assert forall x :: x in init ==> x.id != last.id;
      if last.emits.Some? {
        MatchCount(last, events);
      }
      at := YieldsLast(IfAnchored(events), steps, Anchored(init, events).keys, at);
    }
  }

  ghost predicate Picks(s: Step, e: LogEvent) {
    s.emits.Some? && Selects(s.emits.value, e.source, e.message)
  }

  /** `e` is the only event that the step picks. */
  ghost predicate OnlyEvent(s: Step, events: seq<LogEvent>, e: LogEvent) {
    e in events && Picks(s, e) && forall f :: f in events && Picks(s, f) ==> f.id == e.id
  }

  ghost predicate PicksTwo(s: Step, events: seq<LogEvent>) {
    exists e, f :: e in events && f in events && e.id != f.id && Picks(s, e) && Picks(s, f)
  }

  lemma OnlyEventStands(s: Step, events: seq<LogEvent>, e: LogEvent)
    requires DistinctIds(events)
    ensures OnlyEvent(s, events, e) <==> exists i: nat :: OnlyAt(s, events, i) && events[i] == e
  {
    if OnlyEvent(s, events, e) {
      var i: nat :| i < |events| && events[i] == e;
      forall j: nat | SelectedAt(s, events, j)
        ensures j == i
      {
        assert events[j] in events;
      }
      assert OnlyAt(s, events, i);
    }
    if i: nat :| OnlyAt(s, events, i) && events[i] == e {
      forall f | f in events && Picks(s, f)
        ensures f.id == e.id
      {
        var j: nat :| j < |events| && events[j] == f;
        assert SelectedAt(s, events, j);
      }
    }
  }

  lemma TwoPicked(s: Step, events: seq<LogEvent>, e: LogEvent, f: LogEvent)
    requires e in events && f in events && e.id != f.id && Picks(s, e) && Picks(s, f)
    ensures SelectsTwo(s, events)
  {
    var i: nat :| i < |events| && events[i] == e;
    var j: nat :| j < |events| && events[j] == f;
    assert SelectedAt(s, events, i) && SelectedAt(s, events, j);
    if i < j {
    } else {
      assert j < i;
    }
  }

  lemma TwoStand(s: Step, events: seq<LogEvent>)
    requires DistinctIds(events)
    ensures PicksTwo(s, events) <==> SelectsTwo(s, events)
  {
    if e, f :| e in events && f in events && e.id != f.id && Picks(s, e) && Picks(s, f) {
      TwoPicked(s, events, e, f);
    }
    if i: nat, j: nat :| i < j && SelectedAt(s, events, i) && SelectedAt(s, events, j) {
      assert events[i] in events && events[j] in events;
    }
  }

  lemma NoneStands(s: Step, events: seq<LogEvent>)
    ensures (forall e :: e in events ==> !Picks(s, e)) <==> SelectsNone(s, events)
  {
    if e :| e in events && Picks(s, e) {
      var i: nat :| i < |events| && events[i] == e;
      assert SelectedAt(s, events, i);
    }
    if i: nat :| SelectedAt(s, events, i) {
      assert events[i] in events;
    }
  }

  /** The same in terms of the events themselves, whose ids are distinct. */
  lemma ResolutionByEvent(steps: seq<Step>, events: seq<LogEvent>, s: Step, e: LogEvent)
    requires DistinctSteps(steps) && s in steps && DistinctIds(events)
    ensures s.id in Anchored(steps, events).values && Anchored(steps, events).values[s.id] == e
      <==> OnlyEvent(s, events, e)
    ensures s.id in Unresolved(steps, events)
      <==> s.emits.Some? && ((forall f :: f in events ==> !Picks(s, f)) || PicksTwo(s, events))
  {
    ResolutionIsExact(steps, events, s);
    OnlyEventStands(s, events, e);
    TwoStand(s, events);
    NoneStands(s, events);
  }

  // ---- Scoring ----

  // ---- Scoring ----

  // ---- Scoring ----

  type StepPair = (string, string)

  datatype ExpectedEdge = ExpectedEdge(fromStep: string, toStep: string, relation: RelationType)

  datatype ExpectedIncident = ExpectedIncident(members: seq<string>, grouped: bool)

  datatype Expected = Expected(edges: seq<ExpectedEdge>, forbidden: seq<ExpectedEdge>, incidents: seq<ExpectedIncident>)

  datatype EdgeScoring = Exact | IncidentOnly

  datatype IncidentResult =
    IncidentResult(members: seq<string>, expectedGrouped: bool, actualGrouped: bool, componentSize: Option<nat>)

  /** The edge part of a ScoreResult; lists that the program sorts are sets here. */
  datatype EdgeScore = EdgeScore(
    precision: real, precisionUndefined: bool, recall: real, recallUndefined: bool,
    truePositives: set<StepPair>, falsePositives: set<StepPair>, falseNegatives: set<StepPair>,
    stageMismatches: set<StepPair>, forbiddenObserved: set<StepPair>)

  /** {event.event_id: step_id for step_id, event in anchors.items()}: the last step wins. */
  function StepIndex(items: seq<(string, LogEvent)>): map<EventId, string> {
    if items == [] then map[] else StepIndex(items[..|items| - 1])[items[|items| - 1].1.id := items[|items| - 1].0]
  }

  function ExpectedRelations(edges: seq<ExpectedEdge>): map<StepPair, RelationType> {
    if edges == [] then map[]
    else
      var e := edges[|edges| - 1];
      ExpectedRelations(edges[..|edges| - 1])[PairKey(e.fromStep, e.toStep) := e.relation]
  }

  function ForbiddenPairs(edges: seq<ExpectedEdge>): set<StepPair> {
    set e | e in edges :: PairKey(e.fromStep, e.toStep)
  }

  predicate BothAnchored(x: CorrelationEdge, index: map<EventId, string>) {
    x.source in index && x.target in index
  }

  function PairOfSteps(x: CorrelationEdge, index: map<EventId, string>): StepPair
    requires BothAnchored(x, index)
  {
    PairKey(index[x.source], index[x.target])
  }

  /** The relation of every observed pair; a later edge overwrites an earlier one. */
  function Observed(edges: seq<CorrelationEdge>, index: map<EventId, string>): map<StepPair, RelationType> {
    if edges == [] then map[]
    else
      var before, x := Observed(edges[..|edges| - 1], index), edges[|edges| - 1];
      if BothAnchored(x, index) then before[PairOfSteps(x, index) := x.relation] else before
  }

  /** Edges with exactly one anchored end, as (anchor, other). */
  function Contamination(edges: seq<CorrelationEdge>, index: map<EventId, string>): seq<(EventId, EventId)> {
    if edges == [] then []
    else
      var before, x := Contamination(edges[..|edges| - 1], index), edges[|edges| - 1];
      if x.source in index && x.target !in index then before + [(x.source, x.target)]
      else if x.target in index && x.source !in index then before + [(x.target, x.source)]
      else before
  }

  /** The members of the last expected group that names a step. */
  function GroupOf(incidents: seq<ExpectedIncident>, step: string): Option<set<string>> {
    if incidents == [] then None
    else
      var last := incidents[|incidents| - 1];
      if last.grouped && step in last.members then Some(set m | m in last.members)
      else GroupOf(incidents[..|incidents| - 1], step)
  }

  predicate WithinExpectedIncident(pair: StepPair, incidents: seq<ExpectedIncident>) {
    GroupOf(incidents, pair.0).Some? && GroupOf(incidents, pair.0) == GroupOf(incidents, pair.1)
  }

  function Ratio(part: nat, rest: nat): real {
    if part + rest == 0 then 1.0 else part as real / (part + rest) as real
  }

  function ScoreObserved(observed: map<StepPair, RelationType>, expected: Expected, mode: EdgeScoring): EdgeScore {
    var wanted := ExpectedRelations(expected.edges);
    var tp := wanted.Keys * observed.Keys;
    var fn := wanted.Keys - observed.Keys;
    var extra := observed.Keys - wanted.Keys;
    var forbidden := ForbiddenPairs(expected.forbidden);
    var fp := if mode == Exact then extra
              else (set p | p in extra && (p in forbidden || !WithinExpectedIncident(p, expected.incidents)));
    EdgeScore(Ratio(|tp|, |fp|), |tp| + |fp| == 0, Ratio(|tp|, |fn|), |tp| + |fn| == 0, tp, fp, fn,
              (set p | p in tp && observed[p] != wanted[p]), forbidden * observed.Keys)
  }

  function ScoreEdges(edges: seq<CorrelationEdge>, anchors: Anchors, expected: Expected, mode: EdgeScoring): EdgeScore {
    ScoreObserved(Observed(edges, StepIndex(Items(anchors))), expected, mode)
  }

  // ---- Incidents ----

  ghost function GraphNodes(events: seq<LogEvent>, edges: seq<CorrelationEdge>): set<EventId> {
    Ids(events) + Endpoints(edges)
  }

  /** The connected component of every node of the scorer's graph. */
  ghost function ComponentsOf(events: seq<LogEvent>, edges: seq<CorrelationEdge>): map<EventId, set<EventId>> {
    var nodes, links := GraphNodes(events, edges), LinksOf(edges);
    map id | id in nodes :: Component(nodes, links, id)
  }

  /** How an expected incident is judged, given the component of every event. */
  function Judge(incident: ExpectedIncident, anchors: Anchors, componentOf: map<EventId,
      set<EventId>>): IncidentResult {
    if exists m :: m in incident.members && m !in anchors.values then
      IncidentResult(incident.members, incident.grouped, false, None)
    else
      var components := set m | m in incident.members ::
        (var id := anchors.values[m].id; if id in componentOf then componentOf[id] else {id});
      var size: Option<nat> := if |components| == 1 then Some(|TheOnly(components)|) else None;
      var grouped := if |incident.members| == 1 then (if size.Some? && size.value != 0 then size.value else 1) > 1
                     else |components| == 1;
      IncidentResult(incident.members, incident.grouped, grouped, size)
  }

  lemma OnlyOne(s: set<set<EventId>>)
    requires |s| == 1
    ensures exists x :: x in s && s == {x}
  {
    var x :| x in s;
    assert |s - {x}| == 0;
    assert s == {x};
  }

  function TheOnly(s: set<set<EventId>>): set<EventId>
    requires |s| == 1
  {
    OnlyOne(s);
    assert forall x, y :: x in s && y in s ==> x == y by {
      var z :| z in s && s == {z};
    }
    var x :| x in s;
    x
  }

  method NodeOrder(events: seq<LogEvent>, edges: seq<CorrelationEdge>) returns (order: seq<EventId>)
    ensures Elements(order) == GraphNodes(events, edges)
  {
    order := [];
    for i := 0 to |events|
      invariant forall id :: id in order <==> id in Ids(events[..i])
    {
      PrefixSnoc(events, i);
      if events[i].id !in order {
        order := order + [events[i].id];
      }
    }
    assert events[..|events|] == events;
    for i := 0 to |edges|
      invariant forall id :: id in order <==> id in Ids(events) || id in Endpoints(edges[..i])
    {
      PrefixSnoc(edges, i);
      EdgeSetsSnoc(edges[..i], edges[i]);
      if edges[i].source !in order {
        order := order + [edges[i].source];
      }
      if edges[i].target !in order {
        order := order + [edges[i].target];
      }
    }
    assert edges[..|edges|] == edges;
  }

  method ComponentsByEvent(events: seq<LogEvent>, edges: seq<CorrelationEdge>) returns (t: map<EventId, set<EventId>>)
    ensures t == ComponentsOf(events, edges)
  {
    var order := NodeOrder(events, edges);
    ghost var nodes := GraphNodes(events, edges);
    var links := set e | e in edges :: (e.source, e.target);
    var components := ConnectedComponents(order, links);
    t := map[];
    for i := 0 to |components|
      invariant forall id :: id in t ==> id in nodes && t[id] == Component(nodes, links, id)
      invariant forall j, id :: 0 <= j < i && id in components[j] ==> id in t
    {
      var c := components[i];
      assert c in Elements(components);
      ComponentMembers(nodes, links, c);
      t := map id | id in t.Keys + c :: if id in c then c else t[id];
    }
    forall id | id in nodes
      ensures id in t
    {
      var j := SomeComponent(components, nodes, links, id);
    }
    assert t.Keys == nodes;
  }

  lemma SomeComponent(components: seq<set<EventId>>, nodes: set<EventId>, links: Links, id: EventId) returns (j: nat)
    requires Elements(components) == Incidents(nodes, links) && id in nodes
    ensures j < |components| && id in components[j]
  {
    IncidentsCover(nodes, links);
    assert InSome(Incidents(nodes, links), id);
    var c :| c in Elements(components) && id in c;
    j :| j < |components| && components[j] == c;
  }

  lemma ComponentMembers(nodes: set<EventId>, links: Links, c: set<EventId>)
    requires c in Incidents(nodes, links)
    ensures forall id :: id in c ==> id in nodes && Component(nodes, links, id) == c
  {
    var a :| a in nodes && c == Component(nodes, links, a);
    forall id | id in c
      ensures Component(nodes, links, id) == c
    {
      ComponentsEqual(nodes, links, a, id);
    }
  }

  function Judgements(incidents: seq<ExpectedIncident>, anchors: Anchors, t: map<EventId,
      set<EventId>>): seq<IncidentResult> {
    seq(|incidents|, i requires 0 <= i < |incidents| => Judge(incidents[i], anchors, t))
  }

  method ScoreIncidents(events: seq<LogEvent>, edges: seq<CorrelationEdge>, anchors: Anchors, expected: Expected)
    returns (results: seq<IncidentResult>)
    ensures results == Judgements(expected.incidents, anchors, ComponentsOf(events, edges))
  {
    var table := ComponentsByEvent(events, edges);
    results := [];
    for i := 0 to |expected.incidents|
      invariant |results| == i && forall j :: 0 <= j < i ==> results[j] == Judge(expected.incidents[j], anchors, table)
    {
      results := results + [Judge(expected.incidents[i], anchors, table)];
    }
  }

  method Score(events: seq<LogEvent>, edges: seq<CorrelationEdge>, anchors: Anchors, expected: Expected,
      mode: EdgeScoring)
    returns (score: EdgeScore, contamination: seq<(EventId, EventId)>, incidents: seq<IncidentResult>)
    ensures score == ScoreEdges(edges, anchors, expected, mode)
    ensures contamination == Contamination(edges, StepIndex(Items(anchors)))
    ensures incidents == Judgements(expected.incidents, anchors, ComponentsOf(events, edges))
  {
    var index := StepIndex(Items(anchors));
    var observed: map<StepPair, RelationType> := map[];
    contamination := [];
    for i := 0 to |edges|
      invariant observed == Observed(edges[..i], index) && contamination == Contamination(edges[..i], index)
    {
      assert edges[..i + 1][..i] == edges[..i];
      var x := edges[i];
      var sourceIn, targetIn := x.source in index, x.target in index;
      if sourceIn && targetIn {
        observed := observed[PairKey(index[x.source], index[x.target]) := x.relation];
      } else if sourceIn || targetIn {
        contamination := contamination + [if sourceIn then (x.source, x.target) else (x.target, x.source)];
      }
    }
    assert edges[..|edges|] == edges;
    score := ScoreObserved(observed, expected, mode);
    incidents := ScoreIncidents(events, edges, anchors, expected);
  }
}
