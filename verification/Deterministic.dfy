/** The deterministic join (correlation/deterministic.py). */
module Deterministic {
  import opened Collections
  import opened OrderedDicts
  import opened StableSorting
  import opened Schema

  type IdKey = (string, string)

  function Abs(x: int): int {
    if x < 0 then -x else x
  }

  predicate Has(e: LogEvent, kv: IdKey) {
    kv.0 in e.identifiers.values && e.identifiers.values[kv.0] == kv.1
  }

  /** What the stage promises: two events are linked when some identifier and the clock agree. */
  ghost predicate ShouldLink(a: LogEvent, b: LogEvent, window: int) {
    Abs(a.timestamp - b.timestamp) <= window && exists kv :: Has(a, kv) && Has(b, kv)
  }

  // ---- The inverted index ----

  /** Every identifier of every event, in reading order. */
  function Occurrences(events: seq<LogEvent>): seq<IdKey> {
    if events == [] then []
    else Occurrences(events[..|events| - 1]) + Items(events[|events| - 1].identifiers)
  }

  function FirstSeen<T(==)>(s: seq<T>): seq<T> {
    if s == [] then []
    else
      var init := FirstSeen(s[..|s| - 1]);
      if s[|s| - 1] in init then init else init + [s[|s| - 1]]
  }

  function Members(events: seq<LogEvent>, kv: IdKey): seq<LogEvent> {
    if events == [] then []
    else
      Members(events[..|events| - 1], kv)
      + if Has(events[|events| - 1], kv) then [events[|events| - 1]] else []
  }

  lemma {:induction false} FirstSeenElements<T>(s: seq<T>)
    ensures Elements(FirstSeen(s)) == Elements(s)
    ensures forall x :: x in FirstSeen(s) <==> x in s
  {
    if s == [] {
    } else {
      FirstSeenElements(s[..|s| - 1]);
      assert s == s[..|s| - 1] + [s[|s| - 1]];
      assert Elements(s) == Elements(s[..|s| - 1]) + {s[|s| - 1]};
    }
  }

  lemma {:induction false} MembersSpec(events: seq<LogEvent>, kv: IdKey)
    ensures forall e :: e in Members(events, kv) <==> e in events && Has(e, kv)
    ensures DistinctIds(events) ==> DistinctIds(Members(events, kv))
  {
    if events == [] {
    } else {
      var init := events[..|events| - 1];
      MembersSpec(init, kv);
      assert events == init + [events[|events| - 1]];
      assert forall e :: e in events <==> e in init || e == events[|events| - 1];
      if DistinctIds(events) {
        forall i | 0 <= i < |Members(init, kv)|
          ensures Members(init, kv)[i].id != events[|events| - 1].id
        {
          assert Members(init, kv)[i] in init;
        }
      }
    }
  }

  lemma {:induction false} OccurrencesSpec(events: seq<LogEvent>, kv: IdKey)
    ensures kv in Occurrences(events) <==> exists e :: e in events && Has(e, kv)
  {
    if events == [] {
    } else {
      var init, last := events[..|events| - 1], events[|events| - 1];
      OccurrencesSpec(init, kv);
      assert events == init + [last];
      ItemsSpec(last.identifiers);
      assert kv in Items(last.identifiers) <==> Has(last, kv);
    }
  }

  // ---- The edges, in the order the loops draw them ----

  function Edge(key: string, a: LogEvent, b: LogEvent): CorrelationEdge {
    CorrelationEdge(a.id, b.id, IdMatch, 1.0, key)
  }

  /** The three containers the loops update. */
  datatype Progress = Progress(edges: seq<CorrelationEdge>, linked: set<EventId>, seen: set<(EventId, EventId)>)

  /** An edge is taken unless its unordered pair came earlier. */
  function Take(p: Progress, edge: CorrelationEdge): Progress {
    if EdgePair(edge) in p.seen then p
    else Progress(p.edges + [edge], p.linked + {edge.source} + {edge.target}, p.seen + {EdgePair(edge)})
  }

  function PairStep(p: Progress, key: string, a: LogEvent, b: LogEvent, window: int): Progress {
    if Abs(b.timestamp - a.timestamp) > window then p else Take(p, Edge(key, a, b))
  }

  /** Pairs (i, i+1) .. (i, j-1) of one time-sorted group. */
  function RowSteps(p: Progress, key: string, group: seq<LogEvent>, i: nat, j: nat, window: int): Progress
    requires i < j <= |group|
  {
    if j == i + 1 then p
    else PairStep(RowSteps(p, key, group, i, j - 1, window), key, group[i], group[j - 1], window)
  }

  /** The first `i` rows of a group. */
  function GroupSteps(p: Progress, key: string, group: seq<LogEvent>, i: nat, window: int): Progress
    requires i <= |group|
  {
    if i == 0 then p
    else RowSteps(GroupSteps(p, key, group, i - 1, window), key, group, i - 1, |group|, window)
  }

  function SortedGroup(events: seq<LogEvent>, kv: IdKey): seq<LogEvent> {
    StableSort(Timestamp, Members(events, kv))
  }

  /** The groups of the first `g` identifiers. */
  function StageSteps(events: seq<LogEvent>, keys: seq<IdKey>, g: nat, window: int): Progress
    requires g <= |keys|
  {
    if g == 0 then Progress([], {}, {})
    else
      var group := SortedGroup(events, keys[g - 1]);
      GroupSteps(StageSteps(events, keys, g - 1, window), keys[g - 1].0, group, |group|, window)
  }

  function Stage(events: seq<LogEvent>, window: int): Progress {
    var keys := FirstSeen(Occurrences(events));
    StageSteps(events, keys, |keys|, window)
  }

  /** The edges of the stage: for every pair, the first that the loops draw. */
  function DeterministicEdges(events: seq<LogEvent>, window: int): seq<CorrelationEdge> {
    Stage(events, window).edges
  }

  // ---- The program ----

  ghost predicate IsIndex(groups: OrderedDict<IdKey, seq<LogEvent>>, events: seq<LogEvent>) {
    groups.keys == FirstSeen(Occurrences(events))
    && forall kv :: kv in groups.values ==> groups.values[kv] == Members(events, kv)
  }

  /** An identifier never seen before has no members yet. */
  lemma UnseenHasNoMembers(events: seq<LogEvent>, kv: IdKey)
    requires kv !in Occurrences(events)
    ensures Members(events, kv) == []
  {
    OccurrencesSpec(events, kv);
    MembersSpec(events, kv);
  }

  /** The members of `kv` once the first `n` identifiers of the next event have been entered. */
  function MembersSoFar(events: seq<LogEvent>, event: LogEvent, items: seq<IdKey>, n: nat, kv: IdKey): seq<LogEvent>
    requires n <= |items|
  {
    if kv in items[..n] then Members(events, kv) + [event] else Members(events, kv)
  }

  /** The index of `events` after the first `n` identifiers of the next event have been entered. */
  ghost predicate PartIndexed(groups: OrderedDict<IdKey, seq<LogEvent>>, events: seq<LogEvent>, event: LogEvent, n: nat)
    requires n <= |Items(event.identifiers)|
  {
    var items := Items(event.identifiers);
    groups.keys == FirstSeen(Occurrences(events) + items[..n])
    && forall kv :: kv in groups.values ==> groups.values[kv] == MembersSoFar(events, event, items, n, kv)
  }

  lemma KeysAfterEntering(groups: OrderedDict<IdKey, seq<LogEvent>>, events: seq<LogEvent>, items: seq<IdKey>, n: nat,
      group: seq<LogEvent>)
    requires n < |items| && groups.keys == FirstSeen(Occurrences(events) + items[..n])
    ensures Put(groups, items[n], group).keys == FirstSeen(Occurrences(events) + items[..n + 1])
    ensures items[n] !in groups.values ==> items[n] !in Occurrences(events)
  {
    var kv, before := items[n], Occurrences(events) + items[..n];
    PrefixSnoc(items, n);
    ConcatAssoc(Occurrences(events), items[..n], [kv]);
    FirstSeenElements(before);
  }

  lemma EnterIdentifier(groups: OrderedDict<IdKey, seq<LogEvent>>, events: seq<LogEvent>, event: LogEvent, n: nat)
    requires n < |Items(event.identifiers)| && PartIndexed(groups, events, event, n)
    ensures var kv := Items(event.identifiers)[n];
      PartIndexed(Put(groups, kv, groups.GetOr(kv, []) + [event]), events, event, n + 1)
  {
    var items := Items(event.identifiers);
    var group := groups.GetOr(items[n], []) + [event];
    ItemsAreDistinct(event.identifiers);
    KeysAfterEntering(groups, events, items, n, group);
    if items[n] !in groups.values {
      UnseenHasNoMembers(events, items[n]);
    }
    var next := Put(groups, items[n], group);
    forall kv | kv in next.values
      ensures next.values[kv] == MembersSoFar(events, event, items, n + 1, kv)
    {
    }
  }

  lemma AllIdentifiersEntered(groups: OrderedDict<IdKey, seq<LogEvent>>, events: seq<LogEvent>, event: LogEvent)
    requires PartIndexed(groups, events, event, |Items(event.identifiers)|)
    ensures IsIndex(groups, events + [event])
  {
    var items := Items(event.identifiers);
    ItemsSpec(event.identifiers);
    assert items[..|items|] == items;
    assert (events + [event])[..|events|] == events;
    forall kv | kv in groups.values
      ensures groups.values[kv] == Members(events + [event], kv)
    {
      assert kv in items <==> Has(event, kv);
    }
  }

  method AddToIndex(groups: OrderedDict<IdKey, seq<LogEvent>>, event: LogEvent, ghost events: seq<LogEvent>)
    returns (r: OrderedDict<IdKey, seq<LogEvent>>)
    requires IsIndex(groups, events)
    ensures IsIndex(r, events + [event])
  {
    r := groups;
    var items := Items(event.identifiers);
    assert Occurrences(events) + items[..0] == Occurrences(events);
    for j := 0 to |items|
      invariant PartIndexed(r, events, event, j)
    {
      var kv := items[j];
      EnterIdentifier(r, events, event, j);
      r := Put(r, kv, r.GetOr(kv, []) + [event]);
    }
    AllIdentifiersEntered(r, events, event);
  }

  method BuildIndex(events: seq<LogEvent>) returns (groups: OrderedDict<IdKey, seq<LogEvent>>)
    ensures IsIndex(groups, events)
  {
    groups := Empty();
    for i := 0 to |events|
      invariant IsIndex(groups, events[..i])
    {
      groups := AddToIndex(groups, events[i], events[..i]);
      assert events[..i] + [events[i]] == events[..i + 1];
    }
    assert events[..|events|] == events;
  }

  /** The pairs of one event with the later ones of its group. */
  method LinkRow(key: string, group: seq<LogEvent>, i: nat, window: int, p: Progress) returns (r: Progress)
    requires i < |group|
    ensures r == RowSteps(p, key, group, i, |group|, window)
  {
    var a := group[i];
    var edges, linked, seen := p.edges, p.linked, p.seen;
    for j := i + 1 to |group|
      invariant Progress(edges, linked, seen) == RowSteps(p, key, group, i, j, window)
    {
      var b := group[j];
      if Abs(b.timestamp - a.timestamp) > window {
        continue;
      }
      var pair := PairKey(a.id, b.id);
      if pair in seen {
        continue;
      }
      seen := seen + {pair};
      edges := edges + [Edge(key, a, b)];
      linked := linked + {a.id} + {b.id};
    }
    r := Progress(edges, linked, seen);
  }

  /** The pair loop over one group. */
  method LinkGroup(key: string, group: seq<LogEvent>, window: int, p: Progress) returns (r: Progress)
    ensures r == GroupSteps(p, key, group, |group|, window)
  {
    r := p;
    for i := 0 to |group|
      invariant r == GroupSteps(p, key, group, i, window)
    {
      r := LinkRow(key, group, i, window, r);
    }
  }

  /** One group of the index, given its members in reading order. */
  method LinkIndexed(key: string, members: seq<LogEvent>, window: int, p: Progress) returns (r: Progress)
    ensures var group := StableSort(Timestamp, members);
      r == GroupSteps(p, key, group, |group|, window)
  {
    StableSortSpec(Timestamp, members);
    if |members| < 2 {
      return p;
    }
    var group := StableSort(Timestamp, members);
    r := LinkGroup(key, group, window, p);
  }

  ghost predicate HoldsMembers(keys: seq<IdKey>, groups: map<IdKey, seq<LogEvent>>, events: seq<LogEvent>) {
    forall g :: 0 <= g < |keys| ==> keys[g] in groups && groups[keys[g]] == Members(events, keys[g])
  }

  /** The loop over the groups of the index. */
  method LinkGroups(keys: seq<IdKey>, groups: map<IdKey, seq<LogEvent>>, window: int, ghost events: seq<LogEvent>)
    returns (p: Progress)
    requires HoldsMembers(keys, groups, events)
    ensures p == StageSteps(events, keys, |keys|, window)
  {
    p := Progress([], {}, {});
    for g := 0 to |keys|
      invariant p == StageSteps(events, keys, g, window)
    {
      p := LinkIndexed(keys[g].0, groups[keys[g]], window, p);
    }
  }

  method DeterministicCorrelate(events: seq<LogEvent>, settings: Settings)
    returns (edges: seq<CorrelationEdge>, linked: set<EventId>)
    ensures edges == DeterministicEdges(events, settings.window)
    ensures linked == Endpoints(edges)
  {
    var groups := BuildIndex(events);
    var p := LinkGroups(groups.keys, groups.values, settings.window, events);
    StageStaysInStep(events, settings.window);
    edges, linked := p.edges, p.linked;
  }

  // ---- What the edges mean ----

  /** The containers agree with each other, and no unordered pair has two edges. */
  ghost predicate InStep(p: Progress) {
    p.linked == Endpoints(p.edges) && p.seen == PairsOf(p.edges)
    && forall i, j :: 0 <= i < j < |p.edges| ==> EdgePair(p.edges[i]) != EdgePair(p.edges[j])
  }

  lemma {:induction false} RowStaysInStep(p: Progress, key: string, group: seq<LogEvent>, i: nat, j: nat, window: int)
    requires i < j <= |group| && InStep(p)
    ensures InStep(RowSteps(p, key, group, i, j, window))
  {
    if j == i + 1 {
    } else {
      RowStaysInStep(p, key, group, i, j - 1, window);
    }
  }

  lemma {:induction false} GroupStaysInStep(p: Progress, key: string, group: seq<LogEvent>, i: nat, window: int)
    requires i <= |group| && InStep(p)
    ensures InStep(GroupSteps(p, key, group, i, window))
  {
    if i == 0 {
    } else {
      GroupStaysInStep(p, key, group, i - 1, window);
      RowStaysInStep(GroupSteps(p, key, group, i - 1, window), key, group, i - 1, |group|, window);
    }
  }

  lemma {:induction false} StepsStayInStep(events: seq<LogEvent>, keys: seq<IdKey>, g: nat, window: int)
    requires g <= |keys|
    ensures InStep(StageSteps(events, keys, g, window))
  {
    if g == 0 {
    } else {
      var group := SortedGroup(events, keys[g - 1]);
      StepsStayInStep(events, keys, g - 1, window);
      GroupStaysInStep(StageSteps(events, keys, g - 1, window), keys[g - 1].0, group, |group|, window);
    }
  }

  lemma StageStaysInStep(events: seq<LogEvent>, window: int)
    ensures InStep(Stage(events, window))
  {
    var keys := FirstSeen(Occurrences(events));
    StepsStayInStep(events, keys, |keys|, window);
  }

  /** `x` joins two positions of one time-sorted group. */
  ghost predicate FromGroup(x: CorrelationEdge, key: string, group: seq<LogEvent>, i: nat, j: nat, window: int) {
    i < j < |group|
    && x == Edge(key, group[i], group[j])
    && Abs(group[j].timestamp - group[i].timestamp) <= window
  }

  ghost predicate FromRow(x: CorrelationEdge, key: string, group: seq<LogEvent>, i: nat, window: int) {
    exists j: nat :: FromGroup(x, key, group, i, j, window)
  }

  ghost predicate Candidate(x: CorrelationEdge, events: seq<LogEvent>, kv: IdKey, window: int) {
    var group := SortedGroup(events, kv);
    exists i: nat :: i < |group| && FromRow(x, kv.0, group, i, window)
  }

  /** From `p` to `q` the edge `x` is drawn only if `candidate`, and its pair is seen if `candidate`. */
  ghost predicate Draws(p: Progress, q: Progress, x: CorrelationEdge, candidate: bool) {
    (x in q.edges ==> x in p.edges || candidate)
    && (candidate || EdgePair(x) in p.seen ==> EdgePair(x) in q.seen)
  }

  lemma {:induction false} RowDraws(p: Progress, key: string, group: seq<LogEvent>, i: nat, j: nat, window: int,
      x: CorrelationEdge)
    requires i < j <= |group|
    ensures Draws(p, RowSteps(p, key, group, i, j, window), x,
                  exists m: nat :: m < j && FromGroup(x, key, group, i, m, window))
  {
    if j == i + 1 {
    } else {
      RowDraws(p, key, group, i, j - 1, window, x);
      if m: nat :| m < j && FromGroup(x, key, group, i, m, window) {
        assert m == j - 1 || m < j - 1;
      }
      assert Edge(key, group[i], group[j - 1]) == x && Abs(group[j - 1].timestamp - group[i].timestamp) <= window ==>
        FromGroup(x, key, group, i, j - 1, window);
    }
  }

  lemma WholeRowDraws(p: Progress, key: string, group: seq<LogEvent>, i: nat, window: int, x: CorrelationEdge)
    requires i < |group|
    ensures Draws(p, RowSteps(p, key, group, i, |group|, window), x, FromRow(x, key, group, i, window))
  {
    RowDraws(p, key, group, i, |group|, window, x);
  }

  lemma {:induction false} GroupDraws(p: Progress, key: string, group: seq<LogEvent>, n: nat, window: int,
      x: CorrelationEdge)
    requires n <= |group|
    ensures Draws(p, GroupSteps(p, key, group, n, window), x,
                  exists i: nat :: i < n && FromRow(x, key, group, i, window))
  {
    if n == 0 {
    } else {
      GroupDraws(p, key, group, n - 1, window, x);
      WholeRowDraws(GroupSteps(p, key, group, n - 1, window), key, group, n - 1, window, x);
      if i: nat :| i < n && FromRow(x, key, group, i, window) {
        assert i == n - 1 || i < n - 1;
      }
    }
  }

  lemma IndexedGroupDraws(p: Progress, events: seq<LogEvent>, kv: IdKey, window: int, x: CorrelationEdge)
    ensures var group := SortedGroup(events, kv);
      Draws(p, GroupSteps(p, kv.0, group, |group|, window), x, Candidate(x, events, kv, window))
  {
    var group := SortedGroup(events, kv);
    GroupDraws(p, kv.0, group, |group|, window, x);
  }

  lemma OneMoreKey(events: seq<LogEvent>, keys: seq<IdKey>, g: nat, window: int, x: CorrelationEdge)
    requires 0 < g <= |keys|
    ensures (exists k :: 0 <= k < g && Candidate(x, events, keys[k], window))
      <==> ((exists k :: 0 <= k < g - 1 && Candidate(x, events, keys[k], window))
            || Candidate(x, events, keys[g - 1], window))
  {
    if k :| 0 <= k < g && Candidate(x, events, keys[k], window) {
      assert k == g - 1 || k < g - 1;
    }
  }

  lemma {:induction false} StepsDraw(events: seq<LogEvent>, keys: seq<IdKey>, g: nat, window: int, x: CorrelationEdge)
    requires g <= |keys|
    ensures Draws(Progress([], {}, {}), StageSteps(events, keys, g, window), x,
                  exists k :: 0 <= k < g && Candidate(x, events, keys[k], window))
  {
    if g == 0 {
    } else {
      var p, q := StageSteps(events, keys, g - 1, window), StageSteps(events, keys, g, window);
      var earlier := exists k :: 0 <= k < g - 1 && Candidate(x, events, keys[k], window);
      var now := Candidate(x, events, keys[g - 1], window);
      StepsDraw(events, keys, g - 1, window, x);
      IndexedGroupDraws(p, events, keys[g - 1], window, x);
      OneMoreKey(events, keys, g, window, x);
    }
  }

  /** An edge of the stage is a candidate, and every candidate's pair has an edge. */
  lemma StageDraws(events: seq<LogEvent>, window: int, x: CorrelationEdge)
    ensures x in DeterministicEdges(events, window) ==> exists kv :: Candidate(x, events, kv, window)
    ensures forall kv :: kv in Occurrences(events) && Candidate(x, events, kv, window) ==>
      EdgePair(x) in PairsOf(DeterministicEdges(events, window))
  {
    var keys := FirstSeen(Occurrences(events));
    StepsDraw(events, keys, |keys|, window, x);
    StageStaysInStep(events, window);
    FirstSeenElements(Occurrences(events));
    forall kv | kv in Occurrences(events) && Candidate(x, events, kv, window)
      ensures EdgePair(x) in PairsOf(DeterministicEdges(events, window))
    {
      var k :| 0 <= k < |keys| && keys[k] == kv;
    }
  }

  /** Everything a single emitted edge promises. */
  ghost predicate JoinsSharedIdentifier(x: CorrelationEdge, a: LogEvent, b: LogEvent, window: int) {
    x.source == a.id && x.target == b.id && a.id != b.id
    && x.relation == IdMatch && x.confidence == 1.0
    && a.timestamp <= b.timestamp <= a.timestamp + window
    && exists value :: Has(a, (x.matchedOn, value)) && Has(b, (x.matchedOn, value))
  }

  lemma SortedGroupSpec(events: seq<LogEvent>, kv: IdKey)
    ensures Sorted(Timestamp, SortedGroup(events, kv))
    ensures forall e :: e in SortedGroup(events, kv) <==> e in events && Has(e, kv)
    ensures DistinctIds(events) ==> DistinctIds(SortedGroup(events, kv))
  {
    var members := Members(events, kv);
    StableSortSpec(Timestamp, members);
    MembersSpec(events, kv);
    MultisetMembers(SortedGroup(events, kv), members);
    if DistinctIds(events) {
      RearrangedIds(members, SortedGroup(events, kv));
    }
  }

  /** Soundness: an emitted edge joins two different events on an identifier they share, earlier to later. */
  lemma EdgesAreSound(events: seq<LogEvent>, window: int, x: CorrelationEdge)
    requires DistinctIds(events)
    requires x in DeterministicEdges(events, window)
    ensures exists a, b :: a in events && b in events && JoinsSharedIdentifier(x, a, b, window)
  {
    StageDraws(events, window, x);
    var kv :| Candidate(x, events, kv, window);
    var group := SortedGroup(events, kv);
    SortedGroupSpec(events, kv);
    var i: nat :| i < |group| && FromRow(x, kv.0, group, i, window);
    var j: nat :| FromGroup(x, kv.0, group, i, j, window);
    var a, b := group[i], group[j];
    assert a in group && b in group;
    assert Timestamp(a) <= Timestamp(b);
    assert Has(a, (x.matchedOn, kv.1)) && Has(b, (x.matchedOn, kv.1));
    assert JoinsSharedIdentifier(x, a, b, window);
  }

  lemma SharedPairIsCandidate(events: seq<LogEvent>, window: int, a: LogEvent, b: LogEvent, kv: IdKey)
    returns (x: CorrelationEdge)
    requires a in events && b in events && a.id != b.id && Abs(a.timestamp - b.timestamp) <= window
    requires Has(a, kv) && Has(b, kv)
    ensures Candidate(x, events, kv, window) && EdgePair(x) == PairKey(a.id, b.id)
  {
    var group := SortedGroup(events, kv);
    SortedGroupSpec(events, kv);
    var i: nat :| i < |group| && group[i] == a;
    var j: nat :| j < |group| && group[j] == b;
    var lo, hi := if i < j then i else j, if i < j then j else i;
    x := Edge(kv.0, group[lo], group[hi]);
    assert FromGroup(x, kv.0, group, lo, hi, window);
    assert FromRow(x, kv.0, group, lo, window);
    PairKeyIsUnordered(x.source, x.target, a.id, b.id);
  }

  /** Completeness: no pair that should be linked is missed. */
  lemma EdgesAreComplete(events: seq<LogEvent>, window: int, a: LogEvent, b: LogEvent)
    requires a in events && b in events && a.id != b.id
    requires ShouldLink(a, b, window)
    ensures PairKey(a.id, b.id) in PairsOf(DeterministicEdges(events, window))
  {
    var kv :| Has(a, kv) && Has(b, kv);
    OccurrencesSpec(events, kv);
    var x := SharedPairIsCandidate(events, window, a, b, kv);
    StageDraws(events, window, x);
  }

  lemma LinkedPairShouldLink(events: seq<LogEvent>, window: int, a: LogEvent, b: LogEvent)
    requires DistinctIds(events) && a in events && b in events
    requires PairKey(a.id, b.id) in PairsOf(DeterministicEdges(events, window))
    ensures ShouldLink(a, b, window)
  {
    var x :| x in DeterministicEdges(events, window) && EdgePair(x) == PairKey(a.id, b.id);
    EdgesAreSound(events, window, x);
    var c, d :| c in events && d in events && JoinsSharedIdentifier(x, c, d, window);
    PairKeyIsUnordered(x.source, x.target, a.id, b.id);
    if x.source == a.id {
      SameIdSameEvent(events, a, c);
      SameIdSameEvent(events, b, d);
    } else {
      SameIdSameEvent(events, a, d);
      SameIdSameEvent(events, b, c);
    }
  }

  /** The inverted index, the window filter and the pair deduplication together link exactly the pairs that the
      all-pairs definition links, and each of them once. */
  lemma IndexRefinesAllPairs(events: seq<LogEvent>, window: int)
    requires DistinctIds(events)
    ensures var edges := DeterministicEdges(events, window);
      && (forall a, b :: a in events && b in events && a.id != b.id ==>
            (PairKey(a.id, b.id) in PairsOf(edges) <==> ShouldLink(a, b, window)))
      && (forall x :: x in edges ==>
            exists a, b :: a in events && b in events && JoinsSharedIdentifier(x, a, b, window))
      && (forall i, j :: 0 <= i < j < |edges| ==> EdgePair(edges[i]) != EdgePair(edges[j]))
  {
    var edges := DeterministicEdges(events, window);
    StageStaysInStep(events, window);
    forall x | x in edges
      ensures exists a, b :: a in events && b in events && JoinsSharedIdentifier(x, a, b, window)
    {
      EdgesAreSound(events, window, x);
    }
    forall a, b | a in events && b in events && a.id != b.id
      ensures PairKey(a.id, b.id) in PairsOf(edges) <==> ShouldLink(a, b, window)
    {
      if ShouldLink(a, b, window) {
        EdgesAreComplete(events, window, a, b);
      }
      if PairKey(a.id, b.id) in PairsOf(edges) {
        LinkedPairShouldLink(events, window, a, b);
      }
    }
  }

  lemma LinkedHasPartner(events: seq<LogEvent>, window: int, a: LogEvent) returns (b: LogEvent)
    requires DistinctIds(events) && a in events
    requires a.id in Endpoints(DeterministicEdges(events, window))
    ensures b in events && b.id != a.id && ShouldLink(a, b, window)
  {
    var edges := DeterministicEdges(events, window);
    var x :| x in edges && (x.source == a.id || x.target == a.id);
    EdgesAreSound(events, window, x);
    var c, d :| c in events && d in events && JoinsSharedIdentifier(x, c, d, window);
    SameIdSameEvent(events, a, c);
    SameIdSameEvent(events, a, d);
    b := if x.source == a.id then d else c;
    var value :| Has(c, (x.matchedOn, value)) && Has(d, (x.matchedOn, value));
  }

  lemma PartnerMakesLinked(events: seq<LogEvent>, window: int, a: LogEvent, b: LogEvent)
    requires a in events && b in events && a.id != b.id && ShouldLink(a, b, window)
    ensures a.id in Endpoints(DeterministicEdges(events, window))
  {
    EdgesAreComplete(events, window, a, b);
    var x :| x in DeterministicEdges(events, window) && EdgePair(x) == PairKey(a.id, b.id);
    PairKeyIsUnordered(x.source, x.target, a.id, b.id);
  }

  /** An event is linked exactly when it should be linked to some other event. */
  lemma LinkedExactly(events: seq<LogEvent>, window: int, a: LogEvent)
    requires DistinctIds(events) && a in events
    ensures a.id in Endpoints(DeterministicEdges(events, window))
      <==> exists b :: b in events && b.id != a.id && ShouldLink(a, b, window)
  {
    if a.id in Endpoints(DeterministicEdges(events, window)) {
      var b := LinkedHasPartner(events, window, a);
    }
    if b :| b in events && b.id != a.id && ShouldLink(a, b, window) {
      PartnerMakesLinked(events, window, a, b);
    }
  }

  lemma LinkedWithinEvents(events: seq<LogEvent>, window: int)
    requires DistinctIds(events)
    ensures Endpoints(DeterministicEdges(events, window)) <= Ids(events)
  {
    forall id | id in Endpoints(DeterministicEdges(events, window))
      ensures id in Ids(events)
    {
      var x :| x in DeterministicEdges(events, window) && (x.source == id || x.target == id);
      EdgesAreSound(events, window, x);
    }
  }

  lemma PairsDetermineEndpoints(events: seq<LogEvent>, other: seq<LogEvent>, window: int)
    requires DistinctIds(events) && DistinctIds(other) && Elements(events) == Elements(other)
    ensures PairsOf(DeterministicEdges(events, window)) <= PairsOf(DeterministicEdges(other, window))
    ensures Endpoints(DeterministicEdges(events, window)) <= Endpoints(DeterministicEdges(other, window))
  {
    forall e | e in events
      ensures e in other
    {
      assert e in Elements(other);
    }
    forall x | x in DeterministicEdges(events, window)
      ensures EdgePair(x) in PairsOf(DeterministicEdges(other, window))
      ensures {x.source, x.target} <= Endpoints(DeterministicEdges(other, window))
    {
      EdgesAreSound(events, window, x);
      var a, b :| a in events && b in events && JoinsSharedIdentifier(x, a, b, window);
      var value :| Has(a, (x.matchedOn, value)) && Has(b, (x.matchedOn, value));
      assert ShouldLink(a, b, window) && ShouldLink(b, a, window);
      EdgesAreComplete(other, window, a, b);
      PartnerMakesLinked(other, window, a, b);
      PartnerMakesLinked(other, window, b, a);
    }
  }

  /** Which pairs are linked, and which events, does not depend on the order of the input. */
  lemma InputOrderIsImmaterial(events: seq<LogEvent>, other: seq<LogEvent>, window: int)
    requires DistinctIds(events) && multiset(events) == multiset(other)
    ensures PairsOf(DeterministicEdges(events, window)) == PairsOf(DeterministicEdges(other, window))
    ensures Endpoints(DeterministicEdges(events, window)) == Endpoints(DeterministicEdges(other, window))
  {
    RearrangedIds(events, other);
    MultisetMembers(events, other);
    assert Elements(events) == Elements(other);
    PairsDetermineEndpoints(events, other, window);
    PairsDetermineEndpoints(other, events, window);
  }
}
