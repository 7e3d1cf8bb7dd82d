/** Which of the identifiers that two events share an edge names, and in which order the edges come
    (correlation/deterministic.py). */
module DeterministicOrder {
  import opened Options
  import opened Selections
  import opened OrderedDicts
  import opened Schema
  import opened Deterministic

  // ---- The index ----

  /** `firsts` lists what `s` holds, each at the position `at[k]` where it occurs first, and in that order. */
  ghost predicate ListsFirsts<T>(s: seq<T>, firsts: seq<T>, at: seq<nat>) {
    |at| == |firsts|
    && (forall k :: 0 <= k < |at| ==> at[k] < |s| && s[at[k]] == firsts[k] && firsts[k] !in s[..at[k]])
    && (forall x :: x in s ==> x in firsts)
    && Increasing(at)
  }

  lemma ListsFirstsSnoc<T>(s: seq<T>, firsts: seq<T>, at: seq<nat>, x: T)
    requires ListsFirsts(s, firsts, at)
    ensures x in firsts ==> ListsFirsts(s + [x], firsts, at)
    ensures x !in firsts ==> ListsFirsts(s + [x], firsts + [x], at + [|s|])
  {
    assert forall k :: 0 <= k < |at| ==> (s + [x])[..at[k]] == s[..at[k]];
    assert (s + [x])[..|s|] == s;
  }

  lemma {:induction false} FirstSeenListsFirsts<T>(s: seq<T>) returns (at: seq<nat>)
    ensures ListsFirsts(s, FirstSeen(s), at)
  {
    if s == [] {
      at := [];
    } else {
      var init, last := s[..|s| - 1], s[|s| - 1];
      at := FirstSeenListsFirsts(init);
      ListsFirstsSnoc(init, FirstSeen(init), at, last);
      at := if last in FirstSeen(init) then at else at + [|init|];
      assert s == init + [last];
    }
  }

  ghost function ItemsOf(events: seq<LogEvent>): seq<seq<IdKey>> {
    seq(|events|, i requires 0 <= i < |events| => Items(events[i].identifiers))
  }

  /** The identifiers come in reading order: event by event, and in the order of each event's own mapping. */
  lemma {:induction false} OccurrencesGoThrough(events: seq<LogEvent>) returns (places: seq<Place>)
    ensures GoesThrough(ItemsOf(events), Occurrences(events), places)
  {
    if events == [] {
      places := [];
    } else {
      var init, last := events[..|events| - 1], events[|events| - 1];
      var items := Items(last.identifiers);
      places := OccurrencesGoThrough(init);
      OnePieceMore(ItemsOf(init), Occurrences(init), places, items);
      places := places + seq(|items|, i requires 0 <= i < |items| => Place(|init|, i));
      assert ItemsOf(events) == ItemsOf(init) + [items];
    }
  }

  function IfHas(kv: IdKey): LogEvent -> Option<LogEvent> {
    (e: LogEvent) => if Has(e, kv) then Some(e) else None
  }

  lemma {:induction false} MembersYield(events: seq<LogEvent>, kv: IdKey) returns (at: seq<nat>)
    ensures Yields(IfHas(kv), events, Members(events, kv), at)
  {
    if events == [] {
      at := [];
    } else {
      var init := events[..|events| - 1];
      at := MembersYield(init, kv);
      at := YieldsLast(IfHas(kv), events, Members(init, kv), at);
    }
  }

  // ---- The edges ----

  /** Two positions, the first ahead of the second, in the time-sorted group of one identifier of the index. */
  datatype Pairing = Pairing(key: nat, first: nat, second: nat)

  ghost predicate Precedes(s: Pairing, t: Pairing) {
    s.key < t.key
    || (s.key == t.key && (s.first < t.first || (s.first == t.first && s.second < t.second)))
  }

  ghost predicate IsPairing(groups: seq<seq<LogEvent>>, window: int, s: Pairing) {
    s.key < |groups| && s.first < s.second < |groups[s.key]|
    && Abs(groups[s.key][s.second].timestamp - groups[s.key][s.first].timestamp) <= window
  }

  ghost function EdgeAt(keys: seq<IdKey>, groups: seq<seq<LogEvent>>, s: Pairing): CorrelationEdge
    requires |groups| == |keys| && s.key < |keys| && s.first < s.second < |groups[s.key]|
  {
    Edge(keys[s.key].0, groups[s.key][s.first], groups[s.key][s.second])
  }

  /** One of the listed pairings joins the same two events as `s`, and does not come after it. */
  ghost predicate IsCovered(keys: seq<IdKey>, groups: seq<seq<LogEvent>>, edges: seq<CorrelationEdge>,
      pairings: seq<Pairing>, s: Pairing)
    requires |groups| == |keys| && s.key < |keys| && s.first < s.second < |groups[s.key]|
  {
    exists k ::
      0 <= k < |edges| && k < |pairings| && EdgePair(edges[k]) == EdgePair(EdgeAt(keys, groups, s))
      && (pairings[k] == s || Precedes(pairings[k], s))
  }

  /** Of the pairings ahead of `end` the first for every two events has an edge, and the edges come in that order. */
  ghost predicate TakesFirsts(keys: seq<IdKey>, groups: seq<seq<LogEvent>>, window: int, end: Pairing,
      edges: seq<CorrelationEdge>, pairings: seq<Pairing>)
    requires |groups| == |keys|
  {
    |pairings| == |edges|
    && (forall k :: 0 <= k < |edges| ==>
          IsPairing(groups, window, pairings[k]) && Precedes(pairings[k], end)
          && edges[k] == EdgeAt(keys, groups, pairings[k]))
    && (forall i, j :: 0 <= i < j < |edges| ==>
          Precedes(pairings[i], pairings[j]) && EdgePair(edges[i]) != EdgePair(edges[j]))
    && forall s: Pairing {:trigger IsCovered(keys, groups, edges, pairings, s)} ::
         IsPairing(groups, window, s) && Precedes(s, end) ==> IsCovered(keys, groups, edges, pairings, s)
  }

  ghost predicate HasFirsts(keys: seq<IdKey>, groups: seq<seq<LogEvent>>, window: int, end: Pairing, p: Progress)
    requires |groups| == |keys|
  {
    p.seen == PairsOf(p.edges) && exists pairings :: TakesFirsts(keys, groups, window, end, p.edges, pairings)
  }

  lemma StaysCovered(keys: seq<IdKey>, groups: seq<seq<LogEvent>>, edges: seq<CorrelationEdge>,
      pairings: seq<Pairing>, edges': seq<CorrelationEdge>, pairings': seq<Pairing>, t: Pairing)
    requires |groups| == |keys| && t.key < |keys| && t.first < t.second < |groups[t.key]|
    requires edges <= edges' && pairings <= pairings' && IsCovered(keys, groups, edges, pairings, t)
    ensures IsCovered(keys, groups, edges', pairings', t)
  {
    var k :| 0 <= k < |edges| && k < |pairings| && EdgePair(edges[k]) == EdgePair(EdgeAt(keys, groups, t))
      && (pairings[k] == t || Precedes(pairings[k], t));
    assert edges'[k] == edges[k] && pairings'[k] == pairings[k];
  }

  function Next(s: Pairing): Pairing {
    Pairing(s.key, s.first, s.second + 1)
  }

  /** The pairing at the end adds no edge: it is none, or its two events have one. */
  lemma NothingTaken(keys: seq<IdKey>, groups: seq<seq<LogEvent>>, window: int, s: Pairing, edges: seq<CorrelationEdge>,
      pairings: seq<Pairing>)
    requires |groups| == |keys| && TakesFirsts(keys, groups, window, s, edges, pairings)
    requires IsPairing(groups, window, s) ==> IsCovered(keys, groups, edges, pairings, s)
    ensures TakesFirsts(keys, groups, window, Next(s), edges, pairings)
  {
    forall t: Pairing | IsPairing(groups, window, t) && Precedes(t, Next(s))
      ensures IsCovered(keys, groups, edges, pairings, t)
    {
      assert Precedes(t, s) || t == s;
    }
  }

  /** The pairing at the end adds an edge: its two events have none. */
  lemma OneTaken(keys: seq<IdKey>, groups: seq<seq<LogEvent>>, window: int, s: Pairing, edges: seq<CorrelationEdge>,
      pairings: seq<Pairing>)
    requires |groups| == |keys| && TakesFirsts(keys, groups, window, s, edges, pairings)
    requires IsPairing(groups, window, s) && EdgePair(EdgeAt(keys, groups, s)) !in PairsOf(edges)
    ensures TakesFirsts(keys, groups, window, Next(s), edges + [EdgeAt(keys, groups, s)], pairings + [s])
  {
    var edges', pairings' := edges + [EdgeAt(keys, groups, s)], pairings + [s];
    forall t: Pairing | IsPairing(groups, window, t) && Precedes(t, Next(s))
      ensures IsCovered(keys, groups, edges', pairings', t)
    {
      if t == s {
        assert edges'[|edges|] == EdgeAt(keys, groups, s) && pairings'[|edges|] == s;
      } else {
        assert Precedes(t, s);
        assert IsCovered(keys, groups, edges, pairings, t);
        StaysCovered(keys, groups, edges, pairings, edges', pairings', t);
      }
    }
    forall i, j | 0 <= i < j < |edges'|
      ensures Precedes(pairings'[i], pairings'[j]) && EdgePair(edges'[i]) != EdgePair(edges'[j])
    {
      assert edges[i] in edges;
    }
  }

  /** An edge that is there covers a later pairing of the same two events. */
  lemma SeenIsCovered(keys: seq<IdKey>, groups: seq<seq<LogEvent>>, window: int, s: Pairing,
      edges: seq<CorrelationEdge>, pairings: seq<Pairing>)
    requires |groups| == |keys| && TakesFirsts(keys, groups, window, s, edges, pairings)
    requires IsPairing(groups, window, s) && EdgePair(EdgeAt(keys, groups, s)) in PairsOf(edges)
    ensures IsCovered(keys, groups, edges, pairings, s)
  {
    var x :| x in edges && EdgePair(x) == EdgePair(EdgeAt(keys, groups, s));
    var k :| 0 <= k < |edges| && edges[k] == x;
    assert Precedes(pairings[k], s);
  }

  lemma OnePairMore(keys: seq<IdKey>, groups: seq<seq<LogEvent>>, window: int, s: Pairing, p: Progress)
    requires |groups| == |keys| && s.key < |keys| && s.first < s.second < |groups[s.key]|
    requires HasFirsts(keys, groups, window, s, p)
    ensures var q := PairStep(p, keys[s.key].0, groups[s.key][s.first], groups[s.key][s.second], window);
      HasFirsts(keys, groups, window, Next(s), q)
  {
    var edge := EdgeAt(keys, groups, s);
    var pairings :| TakesFirsts(keys, groups, window, s, p.edges, pairings);
    if !IsPairing(groups, window, s) {
      NothingTaken(keys, groups, window, s, p.edges, pairings);
    } else if EdgePair(edge) in p.seen {
      SeenIsCovered(keys, groups, window, s, p.edges, pairings);
      NothingTaken(keys, groups, window, s, p.edges, pairings);
    } else {
      OneTaken(keys, groups, window, s, p.edges, pairings);
      EdgeSetsSnoc(p.edges, edge);
    }
  }

  /** The same pairings come ahead of both ends. */
  ghost predicate SameReach(groups: seq<seq<LogEvent>>, window: int, end: Pairing, end': Pairing) {
    forall s: Pairing :: IsPairing(groups, window, s) ==> (Precedes(s, end) <==> Precedes(s, end'))
  }

  lemma EndMoves(keys: seq<IdKey>, groups: seq<seq<LogEvent>>, window: int, end: Pairing, end': Pairing,
      p: Progress)
    requires |groups| == |keys| && HasFirsts(keys, groups, window, end, p)
    requires SameReach(groups, window, end, end')
    ensures HasFirsts(keys, groups, window, end', p)
  {
    var pairings :| TakesFirsts(keys, groups, window, end, p.edges, pairings);
    assert TakesFirsts(keys, groups, window, end', p.edges, pairings);
  }

  lemma RowStarts(groups: seq<seq<LogEvent>>, window: int, g: nat, i: nat)
    ensures SameReach(groups, window, Pairing(g, i, 0), Pairing(g, i, i + 1))
  {
  }

  lemma RowEnds(groups: seq<seq<LogEvent>>, window: int, g: nat, i: nat)
    requires g < |groups|
    ensures SameReach(groups, window, Pairing(g, i, |groups[g]|), Pairing(g, i + 1, 0))
  {
  }

  lemma GroupEnds(groups: seq<seq<LogEvent>>, window: int, g: nat)
    requires g < |groups|
    ensures SameReach(groups, window, Pairing(g, |groups[g]|, 0), Pairing(g + 1, 0, 0))
  {
  }

  lemma RowGoesOn(keys: seq<IdKey>, groups: seq<seq<LogEvent>>, window: int, g: nat, i: nat, j: nat, p: Progress,
      q: Progress)
    requires |groups| == |keys| && g < |keys| && i < j < |groups[g]|
    requires q == RowSteps(p, keys[g].0, groups[g], i, j, window)
    requires HasFirsts(keys, groups, window, Pairing(g, i, j), q)
    ensures HasFirsts(keys, groups, window, Pairing(g, i, j + 1),
                      RowSteps(p, keys[g].0, groups[g], i, j + 1, window))
  {
    OnePairMore(keys, groups, window, Pairing(g, i, j), q);
  }

  lemma {:induction false} RowTakesFirsts(keys: seq<IdKey>, groups: seq<seq<LogEvent>>, window: int, g: nat, i: nat,
      j: nat, p: Progress)
    requires |groups| == |keys| && g < |keys| && i < j <= |groups[g]|
    requires HasFirsts(keys, groups, window, Pairing(g, i, i + 1), p)
    ensures HasFirsts(keys, groups, window, Pairing(g, i, j), RowSteps(p, keys[g].0, groups[g], i, j, window))
  {
    if j > i + 1 {
      RowTakesFirsts(keys, groups, window, g, i, j - 1, p);
      RowGoesOn(keys, groups, window, g, i, j - 1, p, RowSteps(p, keys[g].0, groups[g], i, j - 1, window));
    }
  }

  lemma WholeRowTakesFirsts(keys: seq<IdKey>, groups: seq<seq<LogEvent>>, window: int, g: nat, i: nat, p: Progress)
    requires |groups| == |keys| && g < |keys| && i < |groups[g]|
    requires HasFirsts(keys, groups, window, Pairing(g, i, 0), p)
    ensures HasFirsts(keys, groups, window, Pairing(g, i + 1, 0),
                      RowSteps(p, keys[g].0, groups[g], i, |groups[g]|, window))
  {
    RowStarts(groups, window, g, i);
    EndMoves(keys, groups, window, Pairing(g, i, 0), Pairing(g, i, i + 1), p);
    RowTakesFirsts(keys, groups, window, g, i, |groups[g]|, p);
    RowEnds(groups, window, g, i);
    EndMoves(keys, groups, window, Pairing(g, i, |groups[g]|), Pairing(g, i + 1, 0),
             RowSteps(p, keys[g].0, groups[g], i, |groups[g]|, window));
  }

  lemma {:induction false} GroupTakesFirsts(keys: seq<IdKey>, groups: seq<seq<LogEvent>>, window: int, g: nat, i: nat,
      p: Progress)
    requires |groups| == |keys| && g < |keys| && i <= |groups[g]|
    requires HasFirsts(keys, groups, window, Pairing(g, 0, 0), p)
    ensures HasFirsts(keys, groups, window, Pairing(g, i, 0), GroupSteps(p, keys[g].0, groups[g], i, window))
  {
    if i > 0 {
      GroupTakesFirsts(keys, groups, window, g, i - 1, p);
      WholeRowTakesFirsts(keys, groups, window, g, i - 1, GroupSteps(p, keys[g].0, groups[g], i - 1, window));
    }
  }

  lemma WholeGroupTakesFirsts(keys: seq<IdKey>, groups: seq<seq<LogEvent>>, window: int, g: nat, p: Progress)
    requires |groups| == |keys| && g < |keys|
    requires HasFirsts(keys, groups, window, Pairing(g, 0, 0), p)
    ensures HasFirsts(keys, groups, window, Pairing(g + 1, 0, 0),
                      GroupSteps(p, keys[g].0, groups[g], |groups[g]|, window))
  {
    GroupTakesFirsts(keys, groups, window, g, |groups[g]|, p);
    GroupEnds(groups, window, g);
    EndMoves(keys, groups, window, Pairing(g, |groups[g]|, 0), Pairing(g + 1, 0, 0),
             GroupSteps(p, keys[g].0, groups[g], |groups[g]|, window));
  }

  ghost predicate AreGroups(events: seq<LogEvent>, keys: seq<IdKey>, groups: seq<seq<LogEvent>>) {
    |groups| == |keys| && forall g :: 0 <= g < |keys| ==> groups[g] == SortedGroup(events, keys[g])
  }

  lemma {:induction false} StepsTakeFirsts(events: seq<LogEvent>, keys: seq<IdKey>, groups: seq<seq<LogEvent>>, g: nat,
      window: int)
    requires AreGroups(events, keys, groups) && g <= |keys|
    ensures HasFirsts(keys, groups, window, Pairing(g, 0, 0), StageSteps(events, keys, g, window))
  {
    if g == 0 {
      assert TakesFirsts(keys, groups, window, Pairing(0, 0, 0), [], []);
    } else {
      assert groups[g - 1] == SortedGroup(events, keys[g - 1]);
      StepsTakeFirsts(events, keys, groups, g - 1, window);
      WholeGroupTakesFirsts(keys, groups, window, g - 1, StageSteps(events, keys, g - 1, window));
    }
  }

  /** The identifiers of the index, in the order in which the events mention them first. */
  function IndexKeys(events: seq<LogEvent>): seq<IdKey> {
    FirstSeen(Occurrences(events))
  }

  ghost function Groups(events: seq<LogEvent>): seq<seq<LogEvent>> {
    var keys := IndexKeys(events);
    seq(|keys|, g requires 0 <= g < |keys| => SortedGroup(events, keys[g]))
  }

  /** Every two events that are paired anywhere have one edge, at the first of their pairings, and the edges come in
      the order of the identifiers and, for one identifier, of the positions in its group. */
  lemma StageTakesFirsts(events: seq<LogEvent>, window: int) returns (pairings: seq<Pairing>)
    ensures var keys := IndexKeys(events);
      TakesFirsts(keys, Groups(events), window, Pairing(|keys|, 0, 0), DeterministicEdges(events, window), pairings)
  {
    var keys, groups, edges := IndexKeys(events), Groups(events), DeterministicEdges(events, window);
    StepsTakeFirsts(events, keys, groups, |keys|, window);
    pairings :| TakesFirsts(keys, groups, window, Pairing(|keys|, 0, 0), edges, pairings);
  }

  /** Two events that share an identifier within the window are paired under it. */
  lemma SharersArePaired(events: seq<LogEvent>, window: int, a: LogEvent, b: LogEvent, g: nat) returns (s: Pairing)
    requires a in events && b in events && a.id != b.id && Abs(a.timestamp - b.timestamp) <= window
    requires g < |IndexKeys(events)| && Has(a, IndexKeys(events)[g]) && Has(b, IndexKeys(events)[g])
    ensures s.key == g && IsPairing(Groups(events), window, s)
    ensures EdgePair(EdgeAt(IndexKeys(events), Groups(events), s)) == PairKey(a.id, b.id)
  {
    var kv := IndexKeys(events)[g];
    var group := SortedGroup(events, kv);
    SortedGroupSpec(events, kv);
    var i: nat :| i < |group| && group[i] == a;
    var j: nat :| j < |group| && group[j] == b;
    s := if i < j then Pairing(g, i, j) else Pairing(g, j, i);
    PairKeyIsUnordered(group[s.first].id, group[s.second].id, a.id, b.id);
  }

  /** An edge names the first identifier of the index that both its events carry. */
  lemma MatchedOnIsFirst(events: seq<LogEvent>, window: int, x: CorrelationEdge, a: LogEvent, b: LogEvent)
    returns (g: nat)
    requires DistinctIds(events) && x in DeterministicEdges(events, window)
    requires a in events && b in events && a.id == x.source && b.id == x.target
    ensures g < |IndexKeys(events)| && x.matchedOn == IndexKeys(events)[g].0
    ensures Has(a, IndexKeys(events)[g]) && Has(b, IndexKeys(events)[g])
    ensures forall h :: 0 <= h < g ==> !(Has(a, IndexKeys(events)[h]) && Has(b, IndexKeys(events)[h]))
  {
    var keys, groups, edges := IndexKeys(events), Groups(events), DeterministicEdges(events, window);
    var pairings := StageTakesFirsts(events, window);
    var k: nat :| k < |edges| && edges[k] == x;
    g := pairings[k].key;
    PairingCarries(events, window, pairings[k], a, b);
    forall h | 0 <= h < g && Has(a, keys[h]) && Has(b, keys[h])
      ensures false
    {
      var s := SharersArePaired(events, window, a, b, h);
      NoneIsEarlier(keys, groups, window, edges, pairings, k, s);
    }
  }

  lemma NoneIsEarlier(keys: seq<IdKey>, groups: seq<seq<LogEvent>>, window: int, edges: seq<CorrelationEdge>,
      pairings: seq<Pairing>, k: nat, s: Pairing)
    requires |groups| == |keys| && TakesFirsts(keys, groups, window, Pairing(|keys|, 0, 0), edges, pairings)
    requires k < |edges| && IsPairing(groups, window, s)
    requires EdgePair(EdgeAt(keys, groups, s)) == EdgePair(edges[k])
    ensures s.key >= pairings[k].key
  {
    assert IsCovered(keys, groups, edges, pairings, s);
    var l :| 0 <= l < |edges| && EdgePair(edges[l]) == EdgePair(edges[k])
      && (pairings[l] == s || Precedes(pairings[l], s));
    assert l == k;
  }

  lemma PairingCarries(events: seq<LogEvent>, window: int, s: Pairing, a: LogEvent, b: LogEvent)
    requires DistinctIds(events) && IsPairing(Groups(events), window, s)
    requires a in events && b in events
    requires var x := EdgeAt(IndexKeys(events), Groups(events), s); a.id == x.source && b.id == x.target
    ensures Has(a, IndexKeys(events)[s.key]) && Has(b, IndexKeys(events)[s.key])
    ensures a.id != b.id && Abs(a.timestamp - b.timestamp) <= window
  {
    var group := SortedGroup(events, IndexKeys(events)[s.key]);
    SortedGroupSpec(events, IndexKeys(events)[s.key]);
    assert group[s.first] in group && group[s.second] in group;
    SameIdSameEvent(events, a, group[s.first]);
    SameIdSameEvent(events, b, group[s.second]);
  }
}
