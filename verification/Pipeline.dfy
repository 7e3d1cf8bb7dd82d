/** The hybrid pipeline (correlation/pipeline.py): deterministic joins first, the LLM on what they leave unlinked. */
module Pipeline {
  import opened Options
  import opened Collections
  import opened Selections
  import opened StableSorting
  import opened Schema
  import opened Deterministic
  import opened Semantic
  import opened IncidentGraph
  import opened DeterministicExtent

  datatype Stats = Stats(totalEvents: nat, deterministicEdges: nat, unlinked: nat, semanticEdges: nat, totalEdges: nat)

  function Unlinked(events: seq<LogEvent>, linked: set<EventId>): seq<LogEvent> {
    if events == [] then []
    else
      Unlinked(events[..|events| - 1], linked)
      + if events[|events| - 1].id in linked then [] else [events[|events| - 1]]
  }

  function SecondStage(events: seq<LogEvent>, useLlm: bool, settings: Settings, llm: Llm): seq<CorrelationEdge>
    requires settings.maxBatch >= 1
  {
    var unlinked := Unlinked(events, Endpoints(DeterministicEdges(events, settings.window)));
    if useLlm && unlinked != [] then SemanticEdges(unlinked, settings, llm) else []
  }

  function PipelineEdges(events: seq<LogEvent>, useLlm: bool, settings: Settings, llm: Llm): seq<CorrelationEdge>
    requires settings.maxBatch >= 1
  {
    DeterministicEdges(events, settings.window) + SecondStage(events, useLlm, settings, llm)
  }

  /** What an observer is told during a run; the second stage is entered only when something is left for it. */
  function RunNotices(events: seq<LogEvent>, useLlm: bool, settings: Settings, llm: Llm): seq<Notice>
    requires settings.maxBatch >= 1
  {
    var unlinked := Unlinked(events, Endpoints(DeterministicEdges(events, settings.window)));
    if useLlm && unlinked != [] then Notices(unlinked, settings, llm) else []
  }

  function UnlessIn(linked: set<EventId>): LogEvent -> Option<LogEvent> {
    (e: LogEvent) => if e.id in linked then None else Some(e)
  }

  /** `rest` are the events whose id is not in `linked`, each once and in order. */
  ghost predicate IsLeftOver(events: seq<LogEvent>, linked: set<EventId>, rest: seq<LogEvent>) {
    exists at :: Yields(UnlessIn(linked), events, rest, at)
  }

  lemma {:induction false} UnlinkedYields(events: seq<LogEvent>, linked: set<EventId>) returns (at: seq<nat>)
    ensures Yields(UnlessIn(linked), events, Unlinked(events, linked), at)
  {
    if events == [] {
      at := [];
    } else {
      var init := events[..|events| - 1];
      at := UnlinkedYields(init, linked);
      at := YieldsLast(UnlessIn(linked), events, Unlinked(init, linked), at);
    }
  }

  /** The part of the result that the second stage drew. */
  function Semantics(edges: seq<CorrelationEdge>, stats: Stats): seq<CorrelationEdge>
    requires stats.deterministicEdges <= |edges|
  {
    edges[stats.deterministicEdges..]
  }

  method RunCorrelation(events: seq<LogEvent>, useLlm: bool, settings: Settings, llm: Llm, observer: SemanticObserver?)
    returns (edges: seq<CorrelationEdge>, stats: Stats, ghost unlinked: seq<LogEvent>, ghost sites: seq<Site>)
    requires settings.maxBatch >= 1 && (observer != null ==> observer.Consistent())
    modifies observer
    ensures edges == PipelineEdges(events, useLlm, settings, llm)
    ensures observer != null ==>
      observer.log == old(observer.log) + RunNotices(events, useLlm, settings, llm) && observer.Consistent()
    ensures stats.totalEvents == |events|
    ensures stats.deterministicEdges + stats.semanticEdges == stats.totalEdges == |edges|
    ensures IsLeftOver(events, Endpoints(DeterministicEdges(events, settings.window)), unlinked)
    ensures stats.unlinked == |unlinked|
    ensures !useLlm ==> stats.semanticEdges == 0
    ensures useLlm ==> DrawnInOrder(Buckets(unlinked, settings.bucket), settings, llm, Semantics(edges, stats), sites)
    ensures forall x ::
        (x in edges && x.relation == SemanticSimilarity)
        <==> (useLlm && IsAnswer(Buckets(unlinked, settings.bucket), settings, llm, x))
    ensures forall i :: 0 <= i < |edges| ==> (edges[i].relation == IdMatch <==> i < stats.deterministicEdges)
  {
    var deterministic, linked := DeterministicCorrelate(events, settings);
    var rest := Unlinked(events, linked);
    unlinked := rest;
    var at := UnlinkedYields(events, linked);
    var semantic: seq<CorrelationEdge> := [];
    sites := AnswersDrawEdges(rest, settings, llm);
    if useLlm && rest != [] {
      var agent := new SemanticCorrelationAgent(llm, observer);
      semantic, sites := agent.Correlate(rest, settings);
    }
    edges := deterministic + semantic;
    stats := Stats(|events|, |deterministic|, |rest|, |semantic|, |edges|);
    assert Semantics(edges, stats) == semantic;
    StagesInTurn(events, useLlm, settings, llm);
  }

  /** The observer hears of the second stage bucket by bucket and chunk by chunk, and of nothing when there is none. */
  lemma RunIsTold(events: seq<LogEvent>, useLlm: bool, settings: Settings, llm: Llm) returns (at: seq<Place>)
    requires settings.maxBatch >= 1
    ensures var rest := Unlinked(events, Endpoints(DeterministicEdges(events, settings.window)));
      if useLlm && |rest| >= 2
      then ToldInOrder(Buckets(rest, settings.bucket), settings.maxBatch, llm,
                       RunNotices(events, useLlm, settings, llm), at)
      else RunNotices(events, useLlm, settings, llm) == []
  {
    at := ObserverIsTold(Unlinked(events, Endpoints(DeterministicEdges(events, settings.window))), settings, llm);
  }

  lemma NothingLeftNoEdges(settings: Settings, llm: Llm)
    requires settings.maxBatch >= 1
    ensures SemanticEdges([], settings, llm) == []
  {
  }

  /** The result is the identifier matches and behind them, if the LLM is to be used, what it proposes. */
  lemma StagesInTurn(events: seq<LogEvent>, useLlm: bool, settings: Settings, llm: Llm)
    requires settings.maxBatch >= 1
    ensures var det, edges := DeterministicEdges(events, settings.window), PipelineEdges(events, useLlm, settings, llm);
      (forall i :: 0 <= i < |edges| ==> (edges[i].relation == IdMatch <==> i < |det|))
      && forall x ::
        (x in edges && x.relation == SemanticSimilarity)
        <==> (useLlm && IsAnswer(Buckets(Unlinked(events, Endpoints(det)), settings.bucket), settings, llm, x))
  {
    var det, sem := DeterministicEdges(events, settings.window), SecondStage(events, useLlm, settings, llm);
    var edges, rest := PipelineEdges(events, useLlm, settings, llm), Unlinked(events, Endpoints(det));
    DeterministicAreIdMatch(events, settings.window);
    SecondStageSpec(events, useLlm, settings, llm);
    SemanticEdgesMean(rest, settings, llm);
    NothingLeftNoEdges(settings, llm);
    forall i | 0 <= i < |edges|
      ensures edges[i].relation == IdMatch <==> i < |det|
    {
      if i < |det| {
        assert edges[i] in det;
      } else {
        assert edges[i] in sem;
      }
    }
    assert forall x :: x in edges <==> x in det || x in sem;
    assert sem == if useLlm then SemanticEdges(rest, settings, llm) else [];
  }

  lemma DeterministicAreIdMatch(events: seq<LogEvent>, window: int)
    ensures forall x :: x in DeterministicEdges(events, window) ==> x.relation == IdMatch
  {
    forall x | x in DeterministicEdges(events, window)
      ensures x.relation == IdMatch
    {
      StageDraws(events, window, x);
    }
  }

  // ---- Where semantic edges come from ----

  lemma {:induction false} AcceptedSpec(links: seq<ProposedLink>, valid: set<EventId>, minConfidence: real,
      x: CorrelationEdge)
    ensures x in AcceptedEdges(links, valid, minConfidence)
      <==> exists link :: link in links && Accepts(link, valid, minConfidence) && x == SemanticEdge(link)
  {
    if links == [] {
    } else {
      var init, last := links[..|links| - 1], links[|links| - 1];
      AcceptedSpec(init, valid, minConfidence, x);
      assert forall link :: link in links <==> link in init || link == last;
    }
  }

  /** A semantic edge joins two different events of one chunk that the LLM answered for. */
  ghost predicate DrawnFrom(x: CorrelationEdge, n: Notice, minConfidence: real) {
    n.OnRawResult? && x.relation == SemanticSimilarity && x.confidence >= minConfidence
    && x.source != x.target && x.source in Ids(n.events) && x.target in Ids(n.events)
  }

  lemma {:induction false} EdgeHasNotice(notices: seq<Notice>, minConfidence: real, x: CorrelationEdge) returns (k: nat)
    requires x in EdgesOf(notices, minConfidence)
    ensures k < |notices| && DrawnFrom(x, notices[k], minConfidence)
  {
    if x in NoticeEdges(notices[0], minConfidence) {
      AcceptedSpec(notices[0].links, IdSet(notices[0].events), minConfidence, x);
      k := 0;
    } else {
      k := EdgeHasNotice(notices[1..], minConfidence, x);
      k := k + 1;
    }
  }

  lemma {:induction false} UnlinkedSpec(events: seq<LogEvent>, linked: set<EventId>)
    ensures forall e :: e in Unlinked(events, linked) <==> e in events && e.id !in linked
    ensures DistinctIds(events) ==> DistinctIds(Unlinked(events, linked))
  {
    if events == [] {
    } else {
      var init, last := events[..|events| - 1], events[|events| - 1];
      UnlinkedSpec(init, linked);
      assert events == init + [last];
      if DistinctIds(events) {
        var rest := Unlinked(init, linked);
        forall i | 0 <= i < |rest|
          ensures rest[i].id != last.id
        {
          assert rest[i] in init;
        }
      }
    }
  }

  lemma {:induction false} ToldSliceIds(notices: seq<Notice>, k: nat, e: LogEvent)
    requires k < |notices| && e in notices[k].events
    ensures e in Flatten(Told(notices))
  {
    FlattenMembers(Told(notices), e);
    assert e in Told(notices)[k];
  }

  lemma NoticesTellUnlinked(unlinked: seq<LogEvent>, settings: Settings, llm: Llm, k: nat, e: LogEvent)
    requires settings.maxBatch >= 1 && k < |Notices(unlinked, settings, llm)|
    requires e in Notices(unlinked, settings, llm)[k].events
    ensures e in unlinked
  {
    EveryEventIsToldOnce(unlinked, settings, llm);
    ToldSliceIds(Notices(unlinked, settings, llm), k, e);
    StableSortSpec(Timestamp, unlinked);
    MultisetMembers(StableSort(Timestamp, unlinked), unlinked);
  }

  lemma SecondStageSpec(events: seq<LogEvent>, useLlm: bool, settings: Settings, llm: Llm)
    requires settings.maxBatch >= 1
    ensures var linked := Endpoints(DeterministicEdges(events, settings.window));
      forall x :: x in SecondStage(events, useLlm, settings, llm) ==>
        x.relation == SemanticSimilarity && x.confidence >= settings.minConfidence && x.source != x.target
        && x.source in Ids(Unlinked(events, linked)) && x.target in Ids(Unlinked(events, linked))
  {
    var unlinked := Unlinked(events, Endpoints(DeterministicEdges(events, settings.window)));
    forall x | x in SecondStage(events, useLlm, settings, llm)
      ensures x.relation == SemanticSimilarity && x.confidence >= settings.minConfidence && x.source != x.target
      ensures x.source in Ids(unlinked) && x.target in Ids(unlinked)
    {
      var notices := Notices(unlinked, settings, llm);
      var k := EdgeHasNotice(notices, settings.minConfidence, x);
      var a :| a in notices[k].events && a.id == x.source;
      var b :| b in notices[k].events && b.id == x.target;
      NoticesTellUnlinked(unlinked, settings, llm, k, a);
      NoticesTellUnlinked(unlinked, settings, llm, k, b);
    }
  }

  // ---- Hybrid separation ----

  lemma StagesAreSeparate(events: seq<LogEvent>, useLlm: bool, settings: Settings, llm: Llm)
    requires settings.maxBatch >= 1 && DistinctIds(events)
    ensures var det, sem := DeterministicEdges(events, settings.window), SecondStage(events, useLlm, settings, llm);
      Endpoints(det) <= Ids(events) && Within(Endpoints(det), LinksOf(det))
      && Within(Ids(events) - Endpoints(det), LinksOf(sem))
  {
    var det, sem := DeterministicEdges(events, settings.window), SecondStage(events, useLlm, settings, llm);
    LinkedWithinEvents(events, settings.window);
    SecondStageSpec(events, useLlm, settings, llm);
    UnlinkedSpec(events, Endpoints(det));
    forall a, b | (a, b) in LinksOf(sem)
      ensures a in Ids(events) - Endpoints(det) && b in Ids(events) - Endpoints(det)
    {
      var x :| x in sem && a == x.source && b == x.target;
    }
  }

  lemma LinksOfConcat(a: seq<CorrelationEdge>, b: seq<CorrelationEdge>)
    ensures LinksOf(a + b) == LinksOf(a) + LinksOf(b)
  {
    forall l | l in LinksOf(a) + LinksOf(b)
      ensures l in LinksOf(a + b)
    {
      if l in LinksOf(a) {
        var x :| x in a && l == (x.source, x.target);
        assert x in a + b;
      } else {
        var x :| x in b && l == (x.source, x.target);
        assert x in a + b;
      }
    }
  }

  /** Whatever the LLM answers, the incidents of a run are the deterministic incidents over the linked events plus the
      semantic incidents over the others; neither stage merges or splits an incident of the other. */
  lemma HybridSeparation(events: seq<LogEvent>, useLlm: bool, settings: Settings, llm: Llm)
    requires settings.maxBatch >= 1 && DistinctIds(events)
    ensures var det, sem := DeterministicEdges(events, settings.window), SecondStage(events, useLlm, settings, llm);
      var linked := Endpoints(det);
      Incidents(Ids(events), LinksOf(PipelineEdges(events, useLlm, settings, llm)))
      == Incidents(linked, LinksOf(det)) + Incidents(Ids(events) - linked, LinksOf(sem))
      && Incidents(linked, LinksOf(det)) !! Incidents(Ids(events) - linked, LinksOf(sem))
  {
    var det, sem := DeterministicEdges(events, settings.window), SecondStage(events, useLlm, settings, llm);
    var linked := Endpoints(det);
    StagesAreSeparate(events, useLlm, settings, llm);
    LinksOfConcat(det, sem);
    SeparateUnion(linked, LinksOf(det), Ids(events) - linked, LinksOf(sem));
    assert linked + (Ids(events) - linked) == Ids(events);
  }

  /** No incident holds both an identifier match and a semantic link. */
  lemma NoMixedIncident(events: seq<LogEvent>, useLlm: bool, settings: Settings, llm: Llm, c: set<EventId>,
      x: CorrelationEdge, y: CorrelationEdge)
    requires settings.maxBatch >= 1 && DistinctIds(events)
    requires var edges := PipelineEdges(events, useLlm, settings, llm);
      c in Incidents(Ids(events), LinksOf(edges)) && x in edges && y in edges
    requires x.relation == IdMatch && y.relation == SemanticSimilarity
    ensures (x.source !in c && x.target !in c) || (y.source !in c && y.target !in c)
  {
    var det, sem := DeterministicEdges(events, settings.window), SecondStage(events, useLlm, settings, llm);
    var linked := Endpoints(det);
    HybridSeparation(events, useLlm, settings, llm);
    StagesAreSeparate(events, useLlm, settings, llm);
    SecondStageSpec(events, useLlm, settings, llm);
    DeterministicAreIdMatch(events, settings.window);
    assert (x.source, x.target) in LinksOf(det) && (y.source, y.target) in LinksOf(sem);
    IncidentsAreNonEmpty(linked, LinksOf(det));
    IncidentsAreNonEmpty(Ids(events) - linked, LinksOf(sem));
  }

  // ---- How far a semantic incident reaches ----

  lemma {:induction false} NoticesStayInBuckets(buckets: seq<seq<LogEvent>>, size: int, llm: Llm, k: nat)
    returns (b: nat)
    requires size >= 1 && k < |AllNotices(buckets, size, llm)|
    ensures b < |buckets|
    ensures var n := AllNotices(buckets, size, llm)[k];
      (forall e :: e in n.events ==> e in buckets[b]) && (!n.OnSkip? ==> |n.events| <= size)
  {
    var here := BucketNotices(buckets[0], size, llm);
    if k < |here| {
      b := 0;
      NoticeOfBucket(buckets[0], size, llm, k);
    } else {
      b := NoticesStayInBuckets(buckets[1..], size, llm, k - |here|);
      b := b + 1;
    }
  }

  lemma NoticeOfBucket(bucket: seq<LogEvent>, size: int, llm: Llm, k: nat)
    requires size >= 1 && k < |BucketNotices(bucket, size, llm)|
    ensures var n := BucketNotices(bucket, size, llm)[k];
      (forall e :: e in n.events ==> e in bucket) && (!n.OnSkip? ==> |n.events| <= size)
  {
    var notices := BucketNotices(bucket, size, llm);
    if Eligible(bucket) {
      var chunks := Chunks(bucket, size);
      ChunksTile(bucket, size);
      ChunkNoticesTile(chunks, llm);
      assert notices[k].events == Told(notices)[k] == chunks[k];
      assert chunks[k] in chunks;
      forall e | e in notices[k].events
        ensures e in bucket
      {
        FlattenMembers(chunks, e);
      }
    }
  }

  /** Distinct ids put every event into one hook call only. */
  lemma ToldTwiceIsSame(notices: seq<Notice>, i: nat, j: nat, a: LogEvent, b: LogEvent)
    requires DistinctIds(Flatten(Told(notices)))
    requires i < j < |notices| && a in notices[i].events && b in notices[j].events
    ensures a.id != b.id
  {
    var told := Told(notices);
    FlattenAt(told, i);
    FlattenMembers(told[i + 1..], b);
    assert told[i + 1..][j - i - 1] == notices[j].events;
    var before := Flatten(told[..i]);
    var p :| 0 <= p < |told[i]| && told[i][p] == a;
    var q :| 0 <= q < |Flatten(told[i + 1..])| && Flatten(told[i + 1..])[q] == b;
    assert Flatten(told)[|before| + p] == a;
    assert Flatten(told)[|before| + |told[i]| + q] == b;
  }

  lemma ChunkIsClosed(notices: seq<Notice>, minConfidence: real, k: nat)
    requires DistinctIds(Flatten(Told(notices))) && k < |notices|
    ensures ClosedUnder(Ids(notices[k].events), LinksOf(EdgesOf(notices, minConfidence)))
  {
    var links := LinksOf(EdgesOf(notices, minConfidence));
    forall a, b | a in Ids(notices[k].events) && Adjacent(links, a, b)
      ensures b in Ids(notices[k].events)
    {
      var x :| x in EdgesOf(notices, minConfidence)
        && ((x.source == a && x.target == b) || (x.source == b && x.target == a));
      var m := EdgeHasNotice(notices, minConfidence, x);
      var e :| e in notices[k].events && e.id == a;
      var f :| f in notices[m].events && f.id == a;
      if m < k {
        ToldTwiceIsSame(notices, m, k, f, e);
      } else if k < m {
        ToldTwiceIsSame(notices, k, m, e, f);
      }
    }
  }

  lemma {:induction false} IdsCardinality(events: seq<LogEvent>)
    ensures |Ids(events)| <= |events|
  {
    if events == [] {
    } else {
      IdsCardinality(events[1..]);
      assert events == [events[0]] + events[1..];
      assert Ids(events) == {events[0].id} + Ids(events[1..]);
    }
  }

  ghost predicate IncidentSpans(events: seq<LogEvent>, c: set<EventId>, width: int) {
    forall a, b :: a in events && b in events && a.id in c && b.id in c ==> a.timestamp - b.timestamp <= width
  }

  lemma SemanticComponentInChunk(unlinked: seq<LogEvent>, settings: Settings, llm: Llm, c: set<EventId>,
      x: CorrelationEdge)
    returns (k: nat)
    requires settings.maxBatch >= 1 && DistinctIds(unlinked)
    requires x in SemanticEdges(unlinked, settings, llm) && x.source in c
    requires c in Incidents(Ids(unlinked), LinksOf(SemanticEdges(unlinked, settings, llm)))
    ensures k < |Notices(unlinked, settings, llm)| && Notices(unlinked, settings, llm)[k].OnRawResult?
    ensures c <= Ids(Notices(unlinked, settings, llm)[k].events)
  {
    var notices := Notices(unlinked, settings, llm);
    var links := LinksOf(EdgesOf(notices, settings.minConfidence));
    k := EdgeHasNotice(notices, settings.minConfidence, x);
    EveryEventIsToldOnce(unlinked, settings, llm);
    StableSortSpec(Timestamp, unlinked);
    RearrangedIds(unlinked, StableSort(Timestamp, unlinked));
    ChunkIsClosed(notices, settings.minConfidence, k);
    var a :| a in Ids(unlinked) && c == Component(Ids(unlinked), links, a);
    forall b | b in c
      ensures b in Ids(notices[k].events)
    {
      ConnectedSymmetric(links, a, x.source);
      ConnectedTransitive(links, x.source, a, b);
      ClosedSetTraps(Ids(notices[k].events), links, x.source, b);
    }
  }

  lemma ChunkSpans(unlinked: seq<LogEvent>, settings: Settings, llm: Llm, k: nat)
    requires settings.maxBatch >= 1 && settings.bucket >= 0 && k < |Notices(unlinked, settings, llm)|
    ensures var n := Notices(unlinked, settings, llm)[k];
      Spans(n.events, settings.bucket) && (!n.OnSkip? ==> |n.events| <= settings.maxBatch)
  {
    var buckets := Buckets(unlinked, settings.bucket);
    StableSortSpec(Timestamp, unlinked);
    BucketsAreNarrow(StableSort(Timestamp, unlinked), 0, settings.bucket);
    var b := NoticesStayInBuckets(buckets, settings.maxBatch, llm, k);
    assert buckets[b] in buckets;
  }

  /** Whatever the LLM proposes, an incident with a semantic link lies inside one chunk, so it has at most `maxBatch`
      events, and they span at most one bucket width. */
  lemma SemanticIncidentExtent(events: seq<LogEvent>, useLlm: bool, settings: Settings, llm: Llm, c: set<EventId>,
      x: CorrelationEdge)
    requires settings.maxBatch >= 1 && DistinctIds(events)
    requires var edges := PipelineEdges(events, useLlm, settings, llm);
      c in Incidents(Ids(events), LinksOf(edges)) && x in edges
    requires x.relation == SemanticSimilarity && x.source in c
    ensures |c| <= settings.maxBatch
    ensures IncidentSpans(events, c, settings.bucket)
  {
    var det, sem := DeterministicEdges(events, settings.window), SecondStage(events, useLlm, settings, llm);
    var linked := Endpoints(det);
    var unlinked := Unlinked(events, linked);
    DeterministicAreIdMatch(events, settings.window);
    StagesAreSeparate(events, useLlm, settings, llm);
    HybridSeparation(events, useLlm, settings, llm);
    IncidentsAreNonEmpty(linked, LinksOf(det));
    assert (x.source, x.target) in LinksOf(sem);
    assert c in Incidents(Ids(events) - linked, LinksOf(sem));
    UnlinkedSpec(events, linked);
    assert Ids(events) - linked == Ids(unlinked);
    if settings.bucket < 0 {
      NegativeWidthNeverAsks(unlinked, settings, llm);
    }
    var k := SemanticComponentInChunk(unlinked, settings, llm, c, x);
    var chunk := Notices(unlinked, settings, llm)[k].events;
    ChunkSpans(unlinked, settings, llm, k);
    IdsCardinality(chunk);
    SubsetCardinality(c, Ids(chunk));
    forall a, b | a in events && b in events && a.id in c && b.id in c
      ensures a.timestamp - b.timestamp <= settings.bucket
    {
      var a' :| a' in chunk && a'.id == a.id;
      var b' :| b' in chunk && b'.id == b.id;
      NoticesTellUnlinked(unlinked, settings, llm, k, a');
      NoticesTellUnlinked(unlinked, settings, llm, k, b');
      SameIdSameEvent(events, a, a');
      SameIdSameEvent(events, b, b');
    }
  }

  /** An incident of the pipeline that no semantic link touches spans at most (n - 1) windows, n being its size. */
  lemma PureIncidentExtent(events: seq<LogEvent>, useLlm: bool, settings: Settings, llm: Llm, c: set<EventId>,
      a: LogEvent, b: LogEvent)
    requires settings.maxBatch >= 1 && DistinctIds(events) && a in events && b in events
    requires var edges := PipelineEdges(events, useLlm, settings, llm);
      c in Incidents(Ids(events), LinksOf(edges))
      && forall x :: x in edges && x.relation == SemanticSimilarity ==> x.source !in c && x.target !in c
    requires a.id in c && b.id in c
    ensures Abs(a.timestamp - b.timestamp) <= (|c| - 1) * settings.window
  {
    var det, sem := DeterministicEdges(events, settings.window), SecondStage(events, useLlm, settings, llm);
    var linked, rest := Endpoints(det), Ids(events) - Endpoints(det);
    HybridSeparation(events, useLlm, settings, llm);
    StagesAreSeparate(events, useLlm, settings, llm);
    SecondStageSpec(events, useLlm, settings, llm);
    if c in Incidents(rest, LinksOf(sem)) {
      forall u, v | (u, v) in LinksOf(sem)
        ensures u !in c && v !in c
      {
        var x :| x in sem && u == x.source && v == x.target;
        assert x in PipelineEdges(events, useLlm, settings, llm);
      }
      LinklessComponent(rest, LinksOf(sem), c);
    }
    SeparateUnion(linked, LinksOf(det), rest, {});
    assert linked + rest == Ids(events) && LinksOf(det) + {} == LinksOf(det);
    DeterministicIncidentExtent(events, settings.window, c, a, b);
  }
}
