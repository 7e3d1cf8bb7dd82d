/** The LLM fallback (correlation/langchain_agents.py). The model is an arbitrary function from the chunk it is shown
    to an error or to a list of proposed links; nothing is assumed about its ids or confidences. */
module Semantic {
  import opened Options
  import opened Collections
  import opened Selections
  import opened StableSorting
  import opened Schema

  datatype ProposedLink = ProposedLink(source: EventId, target: EventId, confidence: real, rationale: string)

  datatype LlmOutcome = Raised | Answered(links: seq<ProposedLink>)

  type Llm = seq<LogEvent> -> LlmOutcome

  datatype SkipReason = BucketSizeLt2 | SingleSourceSystem

  /** One call of an observer hook. */
  datatype Notice =
    | OnSkip(events: seq<LogEvent>, reason: SkipReason)
    | OnRawResult(events: seq<LogEvent>, links: seq<ProposedLink>)
    | OnError(events: seq<LogEvent>)

  // ---- Time buckets ----

  /** The first position from `i` on whose event is more than `bucket` ticks after `start`, or the end. */
  function Reach(s: seq<LogEvent>, start: int, i: nat, bucket: int): (end: nat)
    requires i <= |s|
    ensures i <= end <= |s|
    decreases |s| - i
  {
    if i == |s| || s[i].timestamp - start > bucket then i else Reach(s, start, i + 1, bucket)
  }

  /** Cuts a time-sorted sequence greedily: each bucket takes every event within reach of its first one. */
  function BucketsFrom(s: seq<LogEvent>, at: nat, bucket: int): seq<seq<LogEvent>>
    requires at <= |s|
    decreases |s| - at
  {
    if at == |s| then []
    else
      var end := Reach(s, s[at].timestamp, at + 1, bucket);
      [s[at..end]] + BucketsFrom(s, end, bucket)
  }

  /** The positions at which those buckets start. */
  function StartsFrom(s: seq<LogEvent>, at: nat, bucket: int): seq<nat>
    requires at <= |s|
    decreases |s| - at
  {
    if at == |s| then [] else [at] + StartsFrom(s, Reach(s, s[at].timestamp, at + 1, bucket), bucket)
  }

  function Buckets(events: seq<LogEvent>, bucket: int): seq<seq<LogEvent>> {
    BucketsFrom(StableSort(Timestamp, events), 0, bucket)
  }

  /** `buckets` are closed, and the open bucket holds the events from `at` up to `i`. */
  ghost predicate OpenBucket(s: seq<LogEvent>, bucket: int, buckets: seq<seq<LogEvent>>, at: nat, i: nat) {
    at < i <= |s|
    && Reach(s, s[at].timestamp, at + 1, bucket) == Reach(s, s[at].timestamp, i, bucket)
    && BucketsFrom(s, 0, bucket) == buckets + BucketsFrom(s, at, bucket)
  }

  lemma OpenBucketCloses(s: seq<LogEvent>, bucket: int, buckets: seq<seq<LogEvent>>, at: nat, i: nat)
    requires OpenBucket(s, bucket, buckets, at, i)
    requires i < |s| ==> s[i].timestamp - s[at].timestamp > bucket
    ensures i < |s| ==> OpenBucket(s, bucket, buckets + [s[at..i]], i, i + 1)
    ensures i == |s| ==> BucketsFrom(s, 0, bucket) == buckets + [s[at..i]]
  {
    ConcatAssoc(buckets, [s[at..i]], BucketsFrom(s, i, bucket));
  }

  method BucketByTime(events: seq<LogEvent>, bucket: int) returns (buckets: seq<seq<LogEvent>>)
    ensures buckets == Buckets(events, bucket)
  {
    if events == [] {
      return [];
    }
    var sorted := StableSort(Timestamp, events);
    assert |sorted| == |events| by {
      StableSortSpec(Timestamp, events);
    }
    buckets := [];
    var current := [sorted[0]];
    var start := sorted[0].timestamp;
    ghost var at := 0;
    for i := 1 to |sorted|
      invariant OpenBucket(sorted, bucket, buckets, at, i)
      invariant current == sorted[at..i] && start == sorted[at].timestamp
    {
      var event := sorted[i];
      if event.timestamp - start <= bucket {
        SliceSnoc(sorted, at, i);
        current := current + [event];
      } else {
        OpenBucketCloses(sorted, bucket, buckets, at, i);
        buckets := buckets + [current];
        current := [event];
        start := event.timestamp;
        at := i;
      }
    }
    OpenBucketCloses(sorted, bucket, buckets, at, |sorted|);
    buckets := buckets + [current];
  }

  ghost predicate Spans(events: seq<LogEvent>, width: int) {
    forall a, b :: a in events && b in events ==> a.timestamp - b.timestamp <= width
  }

  lemma {:induction false} BucketsTile(s: seq<LogEvent>, at: nat, bucket: int)
    requires at <= |s|
    ensures Flatten(BucketsFrom(s, at, bucket)) == s[at..]
    decreases |s| - at
  {
    if at == |s| {
    } else {
      var end := Reach(s, s[at].timestamp, at + 1, bucket);
      BucketsTile(s, end, bucket);
      var rest := BucketsFrom(s, end, bucket);
      assert ([s[at..end]] + rest)[1..] == rest;
      assert s[at..] == s[at..end] + s[end..];
    }
  }

  lemma {:induction false} ReachSpec(s: seq<LogEvent>, start: int, i: nat, bucket: int)
    requires i <= |s|
    ensures var end := Reach(s, start, i, bucket);
      (forall k :: i <= k < end ==> s[k].timestamp - start <= bucket)
      && (end < |s| ==> s[end].timestamp - start > bucket)
    decreases |s| - i
  {
    if i == |s| || s[i].timestamp - start > bucket {
    } else {
      ReachSpec(s, start, i + 1, bucket);
    }
  }

  lemma FirstBucketIsNarrow(s: seq<LogEvent>, at: nat, bucket: int)
    requires at < |s| && Sorted(Timestamp, s) && bucket >= 0
    ensures Spans(s[at..Reach(s, s[at].timestamp, at + 1, bucket)], bucket)
  {
    var end := Reach(s, s[at].timestamp, at + 1, bucket);
    ReachSpec(s, s[at].timestamp, at + 1, bucket);
    forall x, y | x in s[at..end] && y in s[at..end]
      ensures x.timestamp - y.timestamp <= bucket
    {
      var i :| at <= i < end && s[i] == x;
      var j :| at <= j < end && s[j] == y;
      assert j == at || Timestamp(s[at]) <= Timestamp(s[j]);
    }
  }

  lemma {:induction false} BucketsAreNarrow(s: seq<LogEvent>, at: nat, bucket: int)
    requires at <= |s| && Sorted(Timestamp, s) && bucket >= 0
    ensures forall b :: b in BucketsFrom(s, at, bucket) ==> Spans(b, bucket)
    decreases |s| - at
  {
    if at == |s| {
    } else {
      FirstBucketIsNarrow(s, at, bucket);
      BucketsAreNarrow(s, Reach(s, s[at].timestamp, at + 1, bucket), bucket);
    }
  }

  lemma {:induction false} BucketsMatchStarts(s: seq<LogEvent>, at: nat, bucket: int)
    requires at <= |s|
    ensures var buckets, starts := BucketsFrom(s, at, bucket), StartsFrom(s, at, bucket);
      |buckets| == |starts|
      && forall j :: 0 <= j < |buckets| ==> |buckets[j]| > 0 && at <= starts[j] < |s| && buckets[j][0] == s[starts[j]]
    decreases |s| - at
  {
    if at == |s| {
    } else {
      BucketsMatchStarts(s, Reach(s, s[at].timestamp, at + 1, bucket), bucket);
    }
  }

  ghost predicate Apart(s: seq<LogEvent>, starts: seq<nat>, bucket: int)
    requires forall j :: 0 <= j < |starts| ==> starts[j] < |s|
  {
    forall i, j :: 0 <= i < j < |starts| ==> s[starts[j]].timestamp - s[starts[i]].timestamp > bucket
  }

  /** Any two buckets start more than a bucket width apart. */
  lemma {:induction false} StartsAreApart(s: seq<LogEvent>, at: nat, bucket: int)
    requires at <= |s| && Sorted(Timestamp, s)
    ensures forall j :: 0 <= j < |StartsFrom(s, at, bucket)| ==> at <= StartsFrom(s, at, bucket)[j] < |s|
    ensures Apart(s, StartsFrom(s, at, bucket), bucket)
    decreases |s| - at
  {
    if at == |s| {
    } else {
      var end := Reach(s, s[at].timestamp, at + 1, bucket);
      StartsAreApart(s, end, bucket);
      ReachSpec(s, s[at].timestamp, at + 1, bucket);
      var rest := StartsFrom(s, end, bucket);
      forall j | 0 <= j < |rest|
        ensures s[rest[j]].timestamp - s[at].timestamp > bucket
      {
        assert end <= rest[j] < |s|;
        assert end == rest[j] || Timestamp(s[end]) <= Timestamp(s[rest[j]]);
      }
    }
  }

  lemma {:induction false} ApartSpread(s: seq<LogEvent>, starts: seq<nat>, bucket: int, j: nat)
    requires forall k :: 0 <= k < |starts| ==> starts[k] < |s|
    requires Apart(s, starts, bucket) && 0 < j < |starts|
    ensures s[starts[j]].timestamp - s[starts[0]].timestamp > j * bucket
  {
    if j == 1 {
    } else {
      ApartSpread(s, starts, bucket, j - 1);
      assert j * bucket == (j - 1) * bucket + bucket;
    }
  }

  /** `group[i]` is the group that event `i` is put in; no group holds events more than `bucket` apart. */
  ghost predicate FitsInGroups(s: seq<LogEvent>, group: seq<nat>, groups: nat, bucket: int) {
    |group| == |s|
    && (forall i :: 0 <= i < |s| ==> group[i] < groups)
    && (forall i, j :: 0 <= i < |s| && 0 <= j < |s| && group[i] == group[j] ==>
          s[i].timestamp - s[j].timestamp <= bucket)
  }

  /** No way of grouping the events into groups of span at most `bucket` needs fewer groups. */
  lemma GreedyIsOptimal(s: seq<LogEvent>, bucket: int, group: seq<nat>, groups: nat)
    requires Sorted(Timestamp, s)
    requires FitsInGroups(s, group, groups, bucket)
    ensures |BucketsFrom(s, 0, bucket)| <= groups
  {
    BucketsMatchStarts(s, 0, bucket);
    StartsAreApart(s, 0, bucket);
    var starts := StartsFrom(s, 0, bucket);
    var used := seq(|starts|, j requires 0 <= j < |starts| => group[starts[j]]);
    assert forall x :: x in used ==> x in Below(groups);
    PigeonHole(used, Below(groups));
  }

  /** The bucketing tiles the stable time order with non-empty narrow buckets, and with as few of them as possible. */
  lemma BucketingIsSoundAndOptimal(events: seq<LogEvent>, bucket: int, group: seq<nat>, groups: nat)
    requires bucket >= 0
    requires FitsInGroups(StableSort(Timestamp, events), group, groups, bucket)
    ensures Flatten(Buckets(events, bucket)) == StableSort(Timestamp, events)
    ensures forall b :: b in Buckets(events, bucket) ==> Spans(b, bucket)
    ensures forall i :: 0 <= i < |Buckets(events, bucket)| ==> |Buckets(events, bucket)[i]| > 0
    ensures |Buckets(events, bucket)| <= groups
  {
    var s := StableSort(Timestamp, events);
    StableSortSpec(Timestamp, events);
    BucketsTile(s, 0, bucket);
    assert s[0..] == s;
    BucketsAreNarrow(s, 0, bucket);
    BucketsMatchStarts(s, 0, bucket);
    GreedyIsOptimal(s, bucket, group, groups);
  }

  // ---- Chunks ----

  function Chunks(bucket: seq<LogEvent>, size: int): seq<seq<LogEvent>>
    requires size >= 1
  {
    if bucket == [] then []
    else if |bucket| <= size then [bucket]
    else [bucket[..size]] + Chunks(bucket[size..], size)
  }

  function Sources(events: seq<LogEvent>): set<SourceSystem> {
    set e | e in events :: e.source
  }

  predicate Eligible(bucket: seq<LogEvent>) {
    |bucket| >= 2 && |Sources(bucket)| >= 2
  }

  function SemanticEdge(link: ProposedLink): CorrelationEdge {
    CorrelationEdge(link.source, link.target, SemanticSimilarity, link.confidence, link.rationale)
  }

  predicate Accepts(link: ProposedLink, valid: set<EventId>, minConfidence: real) {
    link.source in valid && link.target in valid && link.source != link.target && link.confidence >= minConfidence
  }

  function AcceptedEdges(links: seq<ProposedLink>, valid: set<EventId>, minConfidence: real): seq<CorrelationEdge> {
    if links == [] then []
    else
      AcceptedEdges(links[..|links| - 1], valid, minConfidence)
      + if Accepts(links[|links| - 1], valid, minConfidence) then [SemanticEdge(links[|links| - 1])] else []
  }

  function ChunkNotice(chunk: seq<LogEvent>, llm: Llm): Notice {
    match llm(chunk)
    case Raised => OnError(chunk)
    case Answered(links) => OnRawResult(chunk, links)
  }

  function ChunkNotices(chunks: seq<seq<LogEvent>>, llm: Llm): seq<Notice> {
    if chunks == [] then [] else [ChunkNotice(chunks[0], llm)] + ChunkNotices(chunks[1..], llm)
  }

  function BucketNotices(bucket: seq<LogEvent>, size: int, llm: Llm): seq<Notice>
    requires size >= 1
  {
    if |bucket| < 2 then [OnSkip(bucket, BucketSizeLt2)]
    else if |Sources(bucket)| < 2 then [OnSkip(bucket, SingleSourceSystem)]
    else ChunkNotices(Chunks(bucket, size), llm)
  }

  function AllNotices(buckets: seq<seq<LogEvent>>, size: int, llm: Llm): seq<Notice>
    requires size >= 1
  {
    if buckets == [] then [] else BucketNotices(buckets[0], size, llm) + AllNotices(buckets[1..], size, llm)
  }

  /** Everything the stage tells its observer about a list of unlinked events. */
  function Notices(unlinked: seq<LogEvent>, settings: Settings, llm: Llm): seq<Notice>
    requires settings.maxBatch >= 1
  {
    if |unlinked| < 2 then [] else AllNotices(Buckets(unlinked, settings.bucket), settings.maxBatch, llm)
  }

  function IdSet(events: seq<LogEvent>): set<EventId> {
    set e | e in events :: e.id
  }

  /** The edges drawn from one hook call: only an answered chunk yields any. */
  function NoticeEdges(n: Notice, minConfidence: real): seq<CorrelationEdge> {
    if n.OnRawResult? then AcceptedEdges(n.links, IdSet(n.events), minConfidence) else []
  }

  function EdgesOf(notices: seq<Notice>, minConfidence: real): seq<CorrelationEdge> {
    if notices == [] then [] else NoticeEdges(notices[0], minConfidence) + EdgesOf(notices[1..], minConfidence)
  }

  function SemanticEdges(unlinked: seq<LogEvent>, settings: Settings, llm: Llm): seq<CorrelationEdge>
    requires settings.maxBatch >= 1
  {
    EdgesOf(Notices(unlinked, settings, llm), settings.minConfidence)
  }

  // ---- The program ----

  /** The links of one answer whose confidence is too low for an edge. */
  function LowLinks(links: seq<ProposedLink>, minConfidence: real): seq<ProposedLink> {
    if links == [] then []
    else
      LowLinks(links[..|links| - 1], minConfidence)
      + if links[|links| - 1].confidence < minConfidence then [links[|links| - 1]] else []
  }

  function LowLinksOf(n: Notice, minConfidence: real): seq<ProposedLink> {
    if n.OnRawResult? then LowLinks(n.links, minConfidence) else []
  }

  function AllLowLinks(log: seq<Notice>, minConfidence: real): seq<ProposedLink> {
    if log == [] then []
    else AllLowLinks(log[..|log| - 1], minConfidence) + LowLinksOf(log[|log| - 1], minConfidence)
  }

  /** The observer that records every hook call, and on the side the links below the confidence threshold. */
  class SemanticObserver {
    const minConfidence: real
    var log: seq<Notice>
    var subThreshold: seq<ProposedLink>

    ghost predicate Consistent()
      reads this
    {
      subThreshold == AllLowLinks(log, minConfidence)
    }

    constructor (minConfidence: real)
      ensures this.minConfidence == minConfidence && log == [] && Consistent()
    {
      this.minConfidence := minConfidence;
      log, subThreshold := [], [];
    }

    method Record(n: Notice)
      requires Consistent()
      modifies this
      ensures log == old(log) + [n] && Consistent()
    {
      assert (log + [n])[..|log|] == log;
      log := log + [n];
      if n.OnRawResult? {
        RecordLow(n.links);
      }
    }

    method RecordLow(links: seq<ProposedLink>)
      modifies this`subThreshold
      ensures subThreshold == old(subThreshold) + LowLinks(links, minConfidence)
    {
      for i := 0 to |links|
        invariant subThreshold == old(subThreshold) + LowLinks(links[..i], minConfidence)
      {
        assert links[..i + 1][..i] == links[..i];
        if links[i].confidence < minConfidence {
          subThreshold := subThreshold + [links[i]];
        }
      }
      assert links[..|links|] == links;
    }
  }

  lemma {:induction false} LowLinksMeans(links: seq<ProposedLink>, minConfidence: real, l: ProposedLink)
    ensures l in LowLinks(links, minConfidence) <==> l in links && l.confidence < minConfidence
  {
    if links == [] {
    } else {
      LowLinksMeans(links[..|links| - 1], minConfidence, l);
      assert links == links[..|links| - 1] + [links[|links| - 1]];
    }
  }

  function IfLow(minConfidence: real): ProposedLink -> Option<ProposedLink> {
    (l: ProposedLink) => if l.confidence < minConfidence then Some(l) else None
  }

  lemma {:induction false} LowLinksYield(links: seq<ProposedLink>, minConfidence: real) returns (at: seq<nat>)
    ensures Yields(IfLow(minConfidence), links, LowLinks(links, minConfidence), at)
  {
    if links == [] {
      at := [];
    } else {
      var init := links[..|links| - 1];
      at := LowLinksYield(init, minConfidence);
      at := YieldsLast(IfLow(minConfidence), links, LowLinks(init, minConfidence), at);
    }
  }

  function LinksIn(n: Notice): seq<ProposedLink> {
    if n.OnRawResult? then n.links else []
  }

  function AnswersIn(log: seq<Notice>): seq<seq<ProposedLink>> {
    seq(|log|, i requires 0 <= i < |log| => LinksIn(log[i]))
  }

  /** All links the observer was told of, in the order of the calls. */
  function LinksTold(log: seq<Notice>): seq<ProposedLink> {
    Flatten(AnswersIn(log))
  }

  lemma LinksToldLast(log: seq<Notice>)
    requires log != []
    ensures LinksTold(log) == LinksTold(log[..|log| - 1]) + LinksIn(log[|log| - 1])
  {
    FlattenSnoc(AnswersIn(log[..|log| - 1]), LinksIn(log[|log| - 1]));
    assert AnswersIn(log) == AnswersIn(log[..|log| - 1]) + [LinksIn(log[|log| - 1])];
  }

  lemma {:induction false} LowLinksConcat(a: seq<ProposedLink>, b: seq<ProposedLink>, minConfidence: real)
    ensures LowLinks(a + b, minConfidence) == LowLinks(a, minConfidence) + LowLinks(b, minConfidence)
    decreases |b|
  {
    if b == [] {
      assert a + b == a;
    } else {
      assert (a + b)[..|a + b| - 1] == a + b[..|b| - 1];
      LowLinksConcat(a, b[..|b| - 1], minConfidence);
    }
  }

  lemma {:induction false} AllLowLinksAre(log: seq<Notice>, minConfidence: real)
    ensures AllLowLinks(log, minConfidence) == LowLinks(LinksTold(log), minConfidence)
  {
    if log == [] {
    } else {
      var init, last := log[..|log| - 1], log[|log| - 1];
      AllLowLinksAre(init, minConfidence);
      LinksToldLast(log);
      LowLinksConcat(LinksTold(init), LinksIn(last), minConfidence);
    }
  }

  /** The side list holds, in the order of the calls and of the answers, every link told that is below the threshold. */
  lemma SubThresholdYields(log: seq<Notice>, minConfidence: real) returns (at: seq<nat>)
    ensures Yields(IfLow(minConfidence), LinksTold(log), AllLowLinks(log, minConfidence), at)
  {
    AllLowLinksAre(log, minConfidence);
    at := LowLinksYield(LinksTold(log), minConfidence);
  }

  lemma {:induction false} AllLowLinksMeans(log: seq<Notice>, minConfidence: real, l: ProposedLink)
    ensures l in AllLowLinks(log, minConfidence)
      <==> exists n :: n in log && n.OnRawResult? && l in n.links && l.confidence < minConfidence
  {
    if log == [] {
    } else {
      var init, last := log[..|log| - 1], log[|log| - 1];
      AllLowLinksMeans(init, minConfidence, l);
      if last.OnRawResult? {
        LowLinksMeans(last.links, minConfidence, l);
      }
      assert log == init + [last];
    }
  }

  class SemanticCorrelationAgent {
    const llm: Llm
    const observer: SemanticObserver?

    constructor (llm: Llm, observer: SemanticObserver?)
      ensures this.llm == llm && this.observer == observer
    {
      this.llm := llm;
      this.observer := observer;
    }

    /** The observer, if there is one, has recorded `told` after `before`. */
    ghost predicate Heard(before: seq<Notice>, told: seq<Notice>)
      reads observer
    {
      observer != null ==> observer.log == before + told && observer.Consistent()
    }

    ghost function Log(): seq<Notice>
      reads observer
    {
      if observer == null then [] else observer.log
    }

    ghost predicate Ready()
      reads observer
    {
      observer != null ==> observer.Consistent()
    }

    method Notify(n: Notice)
      requires Ready()
      modifies observer
      ensures Heard(old(Log()), [n])
    {
      if observer != null {
        observer.Record(n);
      }
    }

    method CorrelateChunk(chunk: seq<LogEvent>, settings: Settings) returns (edges: seq<CorrelationEdge>)
      requires Ready()
      modifies observer
      ensures edges == NoticeEdges(ChunkNotice(chunk, llm), settings.minConfidence)
      ensures forall x :: x in edges <==> Proposes(llm, chunk, settings.minConfidence, x)
      ensures Heard(old(Log()), [ChunkNotice(chunk, llm)])
    {
      forall x
        ensures x in NoticeEdges(ChunkNotice(chunk, llm), settings.minConfidence)
          <==> Proposes(llm, chunk, settings.minConfidence, x)
      {
        ChunkDraws(chunk, llm, settings.minConfidence, x);
      }
      var valid := IdSet(chunk);
      var outcome := llm(chunk);
      if outcome.Raised? {
        Notify(OnError(chunk));
        return [];
      }
      Notify(OnRawResult(chunk, outcome.links));
      edges := [];
      var links := outcome.links;
      for i := 0 to |links|
        invariant edges == AcceptedEdges(links[..i], valid, settings.minConfidence)
      {
        var link := links[i];
        assert links[..i + 1][..i] == links[..i];
        if link.source !in valid || link.target !in valid {
          continue;
        }
        if link.source == link.target {
          continue;
        }
        if link.confidence < settings.minConfidence {
          continue;
        }
        edges := edges + [SemanticEdge(link)];
      }
      assert links[..|links|] == links;
    }

    /** The chunk loop over one bucket. */
    method CorrelateBucket(bucket: seq<LogEvent>, settings: Settings) returns (edges: seq<CorrelationEdge>)
      requires settings.maxBatch >= 1 && Ready()
      modifies observer
      ensures edges == EdgesOf(ChunkNotices(Chunks(bucket, settings.maxBatch), llm), settings.minConfidence)
      ensures forall x ::
          x in edges
          <==> exists c :: c in Chunks(bucket, settings.maxBatch) && Proposes(llm, c, settings.minConfidence, x)
      ensures Heard(old(Log()), ChunkNotices(Chunks(bucket, settings.maxBatch), llm))
    {
      edges := [];
      ghost var before, told := Log(), [];
      ghost var all := ChunkNotices(Chunks(bucket, settings.maxBatch), llm);
      ghost var rest := all;
      var start := 0;
      assert bucket[0..] == bucket;
      while start < |bucket|
        invariant 0 <= start
        invariant Heard(before, told)
        invariant all == told + rest && rest == LaterChunks(bucket, start, settings.maxBatch, llm)
        invariant edges == EdgesOf(told, settings.minConfidence)
        decreases |bucket| - start
      {
        var chunk := bucket[start..ChunkEnd(bucket, start, settings.maxBatch)];
        ghost var n := ChunkNotice(chunk, llm);
        ghost var later := LaterChunks(bucket, start + settings.maxBatch, settings.maxBatch, llm);
        ChunkIsNext(bucket, start, settings, llm, told, chunk);
        ConcatAssoc(before, told, [n]);
        var more := CorrelateChunk(chunk, settings);
        edges := edges + more;
        told, rest := told + [n], later;
        start := start + settings.maxBatch;
      }
      assert told + [] == told;
      BucketDraws(Chunks(bucket, settings.maxBatch), llm, settings.minConfidence);
    }

    method Correlate(unlinked: seq<LogEvent>, settings: Settings)
      returns (edges: seq<CorrelationEdge>, ghost sites: seq<Site>)
      requires settings.maxBatch >= 1 && Ready()
      modifies observer
      ensures edges == SemanticEdges(unlinked, settings, llm)
      ensures DrawnInOrder(Buckets(unlinked, settings.bucket), settings, llm, edges, sites)
      ensures forall x :: x in edges <==> IsAnswer(Buckets(unlinked, settings.bucket), settings, llm, x)
      ensures Heard(old(Log()), Notices(unlinked, settings, llm))
    {
      edges := [];
      sites := AnswersDrawEdges(unlinked, settings, llm);
      SemanticEdgesMean(unlinked, settings, llm);
      if |unlinked| < 2 {
        return;
      }
      var buckets := BucketByTime(unlinked, settings.bucket);
      ghost var before := Log();
      ghost var told: seq<Notice> := [];
      for i := 0 to |buckets|
        invariant edges == EdgesOf(told, settings.minConfidence)
        invariant Heard(before, told)
        invariant AllNotices(buckets, settings.maxBatch, llm) == told + AllNotices(buckets[i..], settings.maxBatch, llm)
      {
        var bucket := buckets[i];
        ghost var step := BucketNotices(bucket, settings.maxBatch, llm);
        assert buckets[i..][1..] == buckets[i + 1..];
        ConcatAssoc(told, step, AllNotices(buckets[i + 1..], settings.maxBatch, llm));
        EdgesOfConcat(told, step, settings.minConfidence);
        ConcatAssoc(before, told, step);
        if |bucket| < 2 {
          Notify(OnSkip(bucket, BucketSizeLt2));
        } else if |Sources(bucket)| < 2 {
          Notify(OnSkip(bucket, SingleSourceSystem));
        } else {
          var more := CorrelateBucket(bucket, settings);
          edges := edges + more;
        }
        told := told + step;
      }
      assert told + [] == told;
    }
  }

  /** What the chunks from position `start` on will tell. */
  ghost function LaterChunks(bucket: seq<LogEvent>, start: nat, size: int, llm: Llm): seq<Notice>
    requires size >= 1
  {
    if start < |bucket| then ChunkNotices(Chunks(bucket[start..], size), llm) else []
  }

  /** A Python slice stops at the end of the list. */
  function ChunkEnd(bucket: seq<LogEvent>, start: nat, size: int): int {
    if start + size <= |bucket| then start + size else |bucket|
  }

  lemma NextChunk(bucket: seq<LogEvent>, start: nat, size: int, llm: Llm)
    requires size >= 1 && start < |bucket|
    ensures LaterChunks(bucket, start, size, llm)
      == [ChunkNotice(bucket[start..ChunkEnd(bucket, start, size)], llm)] + LaterChunks(bucket, start + size, size, llm)
  {
    var rest := bucket[start..];
    if |rest| <= size {
      var whole := Chunks(rest, size);
      assert whole[1..] == [];
      assert ChunkNotices(whole, llm) == [ChunkNotice(rest, llm)] + ChunkNotices(whole[1..], llm);
      assert bucket[start..|bucket|] == rest;
    } else {
      assert rest[..size] == bucket[start..start + size] && rest[size..] == bucket[start + size..];
      assert ([rest[..size]] + Chunks(rest[size..], size))[1..] == Chunks(rest[size..], size);
    }
  }

  lemma ChunkIsNext(bucket: seq<LogEvent>, start: nat, settings: Settings, llm: Llm, told: seq<Notice>,
      chunk: seq<LogEvent>)
    requires settings.maxBatch >= 1 && start < |bucket|
    requires chunk == bucket[start..ChunkEnd(bucket, start, settings.maxBatch)]
    ensures var n := ChunkNotice(chunk, llm);
      told + LaterChunks(bucket, start, settings.maxBatch, llm)
      == (told + [n]) + LaterChunks(bucket, start + settings.maxBatch, settings.maxBatch, llm)
      && EdgesOf(told + [n], settings.minConfidence)
         == EdgesOf(told, settings.minConfidence) + NoticeEdges(n, settings.minConfidence)
  {
    var n := ChunkNotice(chunk, llm);
    NextChunk(bucket, start, settings.maxBatch, llm);
    ConcatAssoc(told, [n], LaterChunks(bucket, start + settings.maxBatch, settings.maxBatch, llm));
    EdgesOfSnoc(told, n, settings.minConfidence);
  }

  lemma EdgesOfSnoc(a: seq<Notice>, n: Notice, minConfidence: real)
    ensures EdgesOf(a + [n], minConfidence) == EdgesOf(a, minConfidence) + NoticeEdges(n, minConfidence)
  {
    EdgesOfConcat(a, [n], minConfidence);
    assert EdgesOf([n], minConfidence) == NoticeEdges(n, minConfidence);
  }

  lemma {:induction false} EdgesOfConcat(a: seq<Notice>, b: seq<Notice>, minConfidence: real)
    ensures EdgesOf(a + b, minConfidence) == EdgesOf(a, minConfidence) + EdgesOf(b, minConfidence)
  {
    if a == [] {
      assert a + b == b;
    } else {
      assert (a + b)[1..] == a[1..] + b;
      EdgesOfConcat(a[1..], b, minConfidence);
    }
  }

  // ---- Which edges the answers draw ----

  ghost predicate HasId(events: seq<LogEvent>, id: EventId) {
    exists e :: e in events && e.id == id
  }

  ghost predicate MixesSources(events: seq<LogEvent>) {
    exists a, b :: a in events && b in events && a.source != b.source
  }

  /** A proposed link that the agent draws: between two different events it showed, and confident enough. */
  ghost predicate Joins(link: ProposedLink, chunk: seq<LogEvent>, minConfidence: real) {
    HasId(chunk, link.source) && HasId(chunk, link.target) && link.source != link.target
    && link.confidence >= minConfidence
  }

  /** `x` is `link` as an edge. */
  ghost predicate Becomes(link: ProposedLink, x: CorrelationEdge) {
    x.source == link.source && x.target == link.target && x.relation == SemanticSimilarity
    && x.confidence == link.confidence && x.matchedOn == link.rationale
  }

  /** The LLM answers for `chunk`, and one of its links draws `x`. */
  ghost predicate Proposes(llm: Llm, chunk: seq<LogEvent>, minConfidence: real, x: CorrelationEdge) {
    llm(chunk).Answered?
    && exists link :: link in llm(chunk).links && Joins(link, chunk, minConfidence) && Becomes(link, x)
  }

  lemma JoinsIsAccepts(link: ProposedLink, chunk: seq<LogEvent>, minConfidence: real)
    ensures Accepts(link, IdSet(chunk), minConfidence) <==> Joins(link, chunk, minConfidence)
  {
  }

  lemma EligibleMeans(bucket: seq<LogEvent>)
    ensures Eligible(bucket) <==> MixesSources(bucket)
  {
    if MixesSources(bucket) {
      var a, b :| a in bucket && b in bucket && a.source != b.source;
      SubsetCardinality({a.source, b.source}, Sources(bucket));
      var i :| 0 <= i < |bucket| && bucket[i] == a;
      var j :| 0 <= j < |bucket| && bucket[j] == b;
      assert i != j;
    } else if |Sources(bucket)| >= 2 {
      var a :| a in bucket;
      assert forall e :: e in bucket ==> e.source == a.source;
      SubsetCardinality(Sources(bucket), {a.source});
    }
  }

  /** The edge of a link of an answer for `chunk`, if it draws one. */
  function EdgeFor(chunk: seq<LogEvent>, minConfidence: real): ProposedLink -> Option<CorrelationEdge> {
    (link: ProposedLink) => if Accepts(link, IdSet(chunk), minConfidence) then Some(SemanticEdge(link)) else None
  }

  /** The positions of the links that draw edges. */
  ghost function Drawing(links: seq<ProposedLink>, chunk: seq<LogEvent>, minConfidence: real): seq<nat> {
    if links == [] then []
    else
      Drawing(links[..|links| - 1], chunk, minConfidence)
      + if Accepts(links[|links| - 1], IdSet(chunk), minConfidence) then [|links| - 1] else []
  }

  lemma {:induction false} AcceptedYields(links: seq<ProposedLink>, chunk: seq<LogEvent>, minConfidence: real)
    ensures Yields(EdgeFor(chunk, minConfidence), links, AcceptedEdges(links, IdSet(chunk), minConfidence),
                   Drawing(links, chunk, minConfidence))
  {
    if links == [] {
    } else {
      var init, last := links[..|links| - 1], links[|links| - 1];
      AcceptedYields(init, chunk, minConfidence);
      YieldsSnoc(EdgeFor(chunk, minConfidence), init, AcceptedEdges(init, IdSet(chunk), minConfidence),
                 Drawing(init, chunk, minConfidence), last);
      assert links == init + [last];
    }
  }

  /** One chunk: its edges are the links that join two of its events, as they come in the answer. */
  lemma ChunkDraws(chunk: seq<LogEvent>, llm: Llm, minConfidence: real, x: CorrelationEdge)
    ensures x in NoticeEdges(ChunkNotice(chunk, llm), minConfidence) <==> Proposes(llm, chunk, minConfidence, x)
  {
    if llm(chunk).Answered? {
      var links, out := llm(chunk).links, NoticeEdges(ChunkNotice(chunk, llm), minConfidence);
      var at := Drawing(links, chunk, minConfidence);
      AcceptedYields(links, chunk, minConfidence);
      if x in out {
        var k :| 0 <= k < |out| && out[k] == x;
        JoinsIsAccepts(links[at[k]], chunk, minConfidence);
        assert Becomes(links[at[k]], x);
      }
      if Proposes(llm, chunk, minConfidence, x) {
        var link :| link in links && Joins(link, chunk, minConfidence) && Becomes(link, x);
        JoinsIsAccepts(link, chunk, minConfidence);
        var i: nat :| i < |links| && links[i] == link;
        assert EdgeFor(chunk, minConfidence)(links[i]) == Some(x);
        assert i in at;
      }
    }
  }

  lemma {:induction false} ChunksDraw(chunks: seq<seq<LogEvent>>, llm: Llm, minConfidence: real, x: CorrelationEdge)
    ensures x in EdgesOf(ChunkNotices(chunks, llm), minConfidence)
      <==> exists c :: c in chunks && Proposes(llm, c, minConfidence, x)
  {
    if chunks == [] {
    } else {
      ChunkDraws(chunks[0], llm, minConfidence, x);
      ChunksDraw(chunks[1..], llm, minConfidence, x);
      assert chunks == [chunks[0]] + chunks[1..];
    }
  }

  lemma BucketDraws(chunks: seq<seq<LogEvent>>, llm: Llm, minConfidence: real)
    ensures forall x ::
        x in EdgesOf(ChunkNotices(chunks, llm), minConfidence)
        <==> exists c :: c in chunks && Proposes(llm, c, minConfidence, x)
  {
    forall x
      ensures x in EdgesOf(ChunkNotices(chunks, llm), minConfidence)
        <==> exists c :: c in chunks && Proposes(llm, c, minConfidence, x)
    {
      ChunksDraw(chunks, llm, minConfidence, x);
    }
  }

  // ---- Where each notice and each edge stands ----

  ghost function NoticePieces(buckets: seq<seq<LogEvent>>, size: int, llm: Llm): seq<seq<Notice>>
    requires size >= 1
  {
    seq(|buckets|, i requires 0 <= i < |buckets| => BucketNotices(buckets[i], size, llm))
  }

  ghost function EdgePieces(notices: seq<Notice>, minConfidence: real): seq<seq<CorrelationEdge>> {
    seq(|notices|, i requires 0 <= i < |notices| => NoticeEdges(notices[i], minConfidence))
  }

  lemma {:induction false} NoticesAreFlat(buckets: seq<seq<LogEvent>>, size: int, llm: Llm)
    requires size >= 1
    ensures AllNotices(buckets, size, llm) == Flatten(NoticePieces(buckets, size, llm))
  {
    if buckets == [] {
    } else {
      NoticesAreFlat(buckets[1..], size, llm);
      assert NoticePieces(buckets, size, llm)[1..] == NoticePieces(buckets[1..], size, llm);
    }
  }

  lemma {:induction false} EdgesAreFlat(notices: seq<Notice>, minConfidence: real)
    ensures EdgesOf(notices, minConfidence) == Flatten(EdgePieces(notices, minConfidence))
  {
    if notices == [] {
    } else {
      EdgesAreFlat(notices[1..], minConfidence);
      assert EdgePieces(notices, minConfidence)[1..] == EdgePieces(notices[1..], minConfidence);
    }
  }

  /** The j-th thing told about a bucket: a skipped bucket is told once and whole, with the reason; of any other bucket
      each chunk is told in turn, with the links of its answer. */
  ghost predicate ToldOf(bucket: seq<LogEvent>, size: int, llm: Llm, j: nat, n: Notice)
    requires size >= 1
  {
    if |bucket| < 2 then j == 0 && n == OnSkip(bucket, BucketSizeLt2)
    else if !MixesSources(bucket) then j == 0 && n == OnSkip(bucket, SingleSourceSystem)
    else
      j < |Chunks(bucket, size)|
      && var chunk := Chunks(bucket, size)[j];
        n == if llm(chunk).Raised? then OnError(chunk) else OnRawResult(chunk, llm(chunk).links)
  }

  ghost predicate IsTold(bucket: seq<LogEvent>, size: int, j: nat)
    requires size >= 1
  {
    if |bucket| < 2 || !MixesSources(bucket) then j == 0 else j < |Chunks(bucket, size)|
  }

  lemma {:induction false} ChunkNoticesAt(chunks: seq<seq<LogEvent>>, llm: Llm, j: nat)
    ensures |ChunkNotices(chunks, llm)| == |chunks|
    ensures j < |chunks| ==> ChunkNotices(chunks, llm)[j] == ChunkNotice(chunks[j], llm)
  {
    if chunks == [] {
    } else {
      ChunkNoticesAt(chunks[1..], llm, if j == 0 then 0 else j - 1);
    }
  }

  lemma BucketTells(bucket: seq<LogEvent>, size: int, llm: Llm, j: nat)
    requires size >= 1
    ensures j < |BucketNotices(bucket, size, llm)| <==> IsTold(bucket, size, j)
    ensures IsTold(bucket, size, j) ==> ToldOf(bucket, size, llm, j, BucketNotices(bucket, size, llm)[j])
  {
    EligibleMeans(bucket);
    if Eligible(bucket) {
      ChunkNoticesAt(Chunks(bucket, size), llm, j);
    }
  }

  /** What the observer is told, in order: bucket by bucket, and chunk by chunk inside a bucket. */
  ghost predicate ToldInOrder(buckets: seq<seq<LogEvent>>, size: int, llm: Llm, notices: seq<Notice>, at: seq<Place>)
    requires size >= 1
  {
    |at| == |notices|
    && (forall k :: 0 <= k < |at| ==>
          at[k].piece < |buckets| && ToldOf(buckets[at[k].piece], size, llm, at[k].index, notices[k]))
    && (forall p: Place :: p.piece < |buckets| && IsTold(buckets[p.piece], size, p.index) ==> p in at)
    && forall i, j :: 0 <= i < j < |at| ==> Earlier(at[i], at[j])
  }

  lemma NoticesInOrder(buckets: seq<seq<LogEvent>>, size: int, llm: Llm) returns (at: seq<Place>)
    requires size >= 1
    ensures ToldInOrder(buckets, size, llm, AllNotices(buckets, size, llm), at)
  {
    var pieces, notices := NoticePieces(buckets, size, llm), AllNotices(buckets, size, llm);
    at := FlattenGoesThrough(pieces);
    NoticesAreFlat(buckets, size, llm);
    forall k | 0 <= k < |at|
      ensures at[k].piece < |buckets| && ToldOf(buckets[at[k].piece], size, llm, at[k].index, notices[k])
    {
      assert IsPlaceOf(pieces, at[k], notices[k]);
      BucketTells(buckets[at[k].piece], size, llm, at[k].index);
    }
    forall p: Place | p.piece < |buckets| && IsTold(buckets[p.piece], size, p.index)
      ensures p in at
    {
      BucketTells(buckets[p.piece], size, llm, p.index);
    }
  }

  /** Fewer than two events are not looked at, and the observer hears nothing. */
  lemma ObserverIsTold(unlinked: seq<LogEvent>, settings: Settings, llm: Llm) returns (at: seq<Place>)
    requires settings.maxBatch >= 1
    ensures |unlinked| < 2 ==> Notices(unlinked, settings, llm) == []
    ensures |unlinked| >= 2 ==>
      ToldInOrder(Buckets(unlinked, settings.bucket), settings.maxBatch, llm, Notices(unlinked, settings, llm), at)
  {
    if |unlinked| >= 2 {
      at := NoticesInOrder(Buckets(unlinked, settings.bucket), settings.maxBatch, llm);
    } else {
      at := [];
    }
  }

  /** Where an edge comes from: a link of the answer for a chunk of a bucket. */
  datatype Site = Site(bucket: nat, chunk: nat, link: nat)

  ghost predicate SiteBefore(s: Site, t: Site) {
    Earlier(Place(s.bucket, s.chunk), Place(t.bucket, t.chunk))
    || (s.bucket == t.bucket && s.chunk == t.chunk && s.link < t.link)
  }

  ghost predicate IsAnswered(buckets: seq<seq<LogEvent>>, size: int, llm: Llm, s: Site)
    requires size >= 1
  {
    s.bucket < |buckets| && MixesSources(buckets[s.bucket]) && s.chunk < |Chunks(buckets[s.bucket], size)|
    && var outcome := llm(Chunks(buckets[s.bucket], size)[s.chunk]);
      outcome.Answered? && s.link < |outcome.links|
  }

  ghost function ChunkAt(buckets: seq<seq<LogEvent>>, size: int, llm: Llm, s: Site): seq<LogEvent>
    requires size >= 1 && IsAnswered(buckets, size, llm, s)
  {
    Chunks(buckets[s.bucket], size)[s.chunk]
  }

  ghost function LinkAt(buckets: seq<seq<LogEvent>>, size: int, llm: Llm, s: Site): ProposedLink
    requires size >= 1 && IsAnswered(buckets, size, llm, s)
  {
    llm(ChunkAt(buckets, size, llm, s)).links[s.link]
  }

  ghost predicate IsSite(buckets: seq<seq<LogEvent>>, settings: Settings, llm: Llm, s: Site)
    requires settings.maxBatch >= 1
  {
    IsAnswered(buckets, settings.maxBatch, llm, s)
    && Joins(LinkAt(buckets, settings.maxBatch, llm, s), ChunkAt(buckets, settings.maxBatch, llm, s),
             settings.minConfidence)
  }

  /** One edge for every link that joins two events of the chunk it was proposed for, in the order of the buckets, the
      chunks and the answers, and no other edge. Nothing is left out because it was drawn before. */
  ghost predicate DrawnInOrder(buckets: seq<seq<LogEvent>>, settings: Settings, llm: Llm, edges: seq<CorrelationEdge>,
      sites: seq<Site>)
    requires settings.maxBatch >= 1
  {
    |sites| == |edges|
    && (forall k :: 0 <= k < |sites| ==>
          IsSite(buckets, settings, llm, sites[k])
          && Becomes(LinkAt(buckets, settings.maxBatch, llm, sites[k]), edges[k]))
    && (forall s: Site :: IsSite(buckets, settings, llm, s) ==> s in sites)
    && forall i, j :: 0 <= i < j < |sites| ==> SiteBefore(sites[i], sites[j])
  }

  ghost function SiteOf(at: seq<Place>, notices: seq<Notice>, minConfidence: real, p: Place): Site
    requires |at| == |notices| && IsEdgePlace(notices, minConfidence, p)
  {
    AcceptedYields(notices[p.piece].links, notices[p.piece].events, minConfidence);
    Site(at[p.piece].piece, at[p.piece].index,
         Drawing(notices[p.piece].links, notices[p.piece].events, minConfidence)[p.index])
  }

  ghost predicate IsEdgePlace(notices: seq<Notice>, minConfidence: real, p: Place) {
    p.piece < |notices| && p.index < |NoticeEdges(notices[p.piece], minConfidence)|
  }

  lemma PlaceIsSite(buckets: seq<seq<LogEvent>>, settings: Settings, llm: Llm, notices: seq<Notice>, at: seq<Place>,
      p: Place)
    requires settings.maxBatch >= 1 && ToldInOrder(buckets, settings.maxBatch, llm, notices, at)
    requires IsEdgePlace(notices, settings.minConfidence, p)
    ensures var s := SiteOf(at, notices, settings.minConfidence, p);
      IsSite(buckets, settings, llm, s)
      && Becomes(LinkAt(buckets, settings.maxBatch, llm, s),
                 NoticeEdges(notices[p.piece], settings.minConfidence)[p.index])
  {
    var n, s := notices[p.piece], SiteOf(at, notices, settings.minConfidence, p);
    assert ToldOf(buckets[s.bucket], settings.maxBatch, llm, s.chunk, n);
    AcceptedYields(n.links, n.events, settings.minConfidence);
    assert EdgeFor(n.events, settings.minConfidence)(n.links[s.link]).Some?;
    JoinsIsAccepts(n.links[s.link], n.events, settings.minConfidence);
  }

  lemma SiteHasPlace(buckets: seq<seq<LogEvent>>, settings: Settings, llm: Llm, notices: seq<Notice>, at: seq<Place>,
      s: Site) returns (p: Place)
    requires settings.maxBatch >= 1 && ToldInOrder(buckets, settings.maxBatch, llm, notices, at)
    requires IsSite(buckets, settings, llm, s)
    ensures IsEdgePlace(notices, settings.minConfidence, p) && SiteOf(at, notices, settings.minConfidence, p) == s
  {
    var here, c := Place(s.bucket, s.chunk), ChunkAt(buckets, settings.maxBatch, llm, s);
    EligibleMeans(buckets[s.bucket]);
    assert here in at;
    var k: nat :| k < |at| && at[k] == here;
    var n := notices[k];
    assert n == OnRawResult(c, llm(c).links);
    AcceptedYields(n.links, n.events, settings.minConfidence);
    JoinsIsAccepts(n.links[s.link], n.events, settings.minConfidence);
    assert EdgeFor(n.events, settings.minConfidence)(n.links[s.link]).Some?;
    var drawing := Drawing(n.links, n.events, settings.minConfidence);
    var i: nat :| i < |drawing| && drawing[i] == s.link;
    p := Place(k, i);
  }

  lemma SitesInOrder(buckets: seq<seq<LogEvent>>, settings: Settings, llm: Llm, notices: seq<Notice>, at: seq<Place>,
      p: Place, q: Place)
    requires settings.maxBatch >= 1 && ToldInOrder(buckets, settings.maxBatch, llm, notices, at)
    requires IsEdgePlace(notices, settings.minConfidence, p) && IsEdgePlace(notices, settings.minConfidence, q)
    requires Earlier(p, q)
    ensures SiteBefore(SiteOf(at, notices, settings.minConfidence, p), SiteOf(at, notices, settings.minConfidence, q))
  {
    if p.piece == q.piece {
      AcceptedYields(notices[p.piece].links, notices[p.piece].events, settings.minConfidence);
    } else {
      assert Earlier(at[p.piece], at[q.piece]);
    }
  }

  ghost function SitesOf(at: seq<Place>, notices: seq<Notice>, minConfidence: real, places: seq<Place>): seq<Site>
    requires |at| == |notices| && forall k :: 0 <= k < |places| ==> IsEdgePlace(notices, minConfidence, places[k])
  {
    seq(|places|, k requires 0 <= k < |places| => SiteOf(at, notices, minConfidence, places[k]))
  }

  lemma EdgePlacesAre(notices: seq<Notice>, minConfidence: real, edges: seq<CorrelationEdge>, places: seq<Place>)
    requires GoesThrough(EdgePieces(notices, minConfidence), edges, places)
    ensures |places| == |edges|
    ensures forall k :: 0 <= k < |places| ==>
      IsEdgePlace(notices, minConfidence, places[k])
      && NoticeEdges(notices[places[k].piece], minConfidence)[places[k].index] == edges[k]
    ensures forall p :: IsEdgePlace(notices, minConfidence, p) ==> p in places
  {
    var pieces := EdgePieces(notices, minConfidence);
    assert forall k :: 0 <= k < |places| ==> IsPlaceOf(pieces, places[k], edges[k]);
  }

  lemma SiteIsListed(buckets: seq<seq<LogEvent>>, settings: Settings, llm: Llm, notices: seq<Notice>, at: seq<Place>,
      places: seq<Place>, s: Site)
    requires settings.maxBatch >= 1 && ToldInOrder(buckets, settings.maxBatch, llm, notices, at)
    requires forall k :: 0 <= k < |places| ==> IsEdgePlace(notices, settings.minConfidence, places[k])
    requires forall p :: IsEdgePlace(notices, settings.minConfidence, p) ==> p in places
    requires IsSite(buckets, settings, llm, s)
    ensures s in SitesOf(at, notices, settings.minConfidence, places)
  {
    var p := SiteHasPlace(buckets, settings, llm, notices, at, s);
    assert p in places;
    var k :| 0 <= k < |places| && places[k] == p;
    assert SitesOf(at, notices, settings.minConfidence, places)[k] == s;
  }

  lemma PlacesAreSites(buckets: seq<seq<LogEvent>>, settings: Settings, llm: Llm, notices: seq<Notice>, at: seq<Place>,
      edges: seq<CorrelationEdge>, places: seq<Place>) returns (sites: seq<Site>)
    requires settings.maxBatch >= 1 && ToldInOrder(buckets, settings.maxBatch, llm, notices, at)
    requires GoesThrough(EdgePieces(notices, settings.minConfidence), edges, places)
    ensures DrawnInOrder(buckets, settings, llm, edges, sites)
  {
    EdgePlacesAre(notices, settings.minConfidence, edges, places);
    sites := SitesOf(at, notices, settings.minConfidence, places);
    forall k | 0 <= k < |sites|
      ensures IsSite(buckets, settings, llm, sites[k])
      ensures Becomes(LinkAt(buckets, settings.maxBatch, llm, sites[k]), edges[k])
    {
      PlaceIsSite(buckets, settings, llm, notices, at, places[k]);
    }
    forall s: Site | IsSite(buckets, settings, llm, s)
      ensures s in sites
    {
      SiteIsListed(buckets, settings, llm, notices, at, places, s);
    }
    forall i, j | 0 <= i < j < |sites|
      ensures SiteBefore(sites[i], sites[j])
    {
      SitesInOrder(buckets, settings, llm, notices, at, places[i], places[j]);
    }
  }

  lemma EdgesInOrder(buckets: seq<seq<LogEvent>>, settings: Settings, llm: Llm) returns (sites: seq<Site>)
    requires settings.maxBatch >= 1
    ensures DrawnInOrder(buckets, settings, llm,
                         EdgesOf(AllNotices(buckets, settings.maxBatch, llm), settings.minConfidence), sites)
  {
    var notices := AllNotices(buckets, settings.maxBatch, llm);
    var at := NoticesInOrder(buckets, settings.maxBatch, llm);
    var places := FlattenGoesThrough(EdgePieces(notices, settings.minConfidence));
    EdgesAreFlat(notices, settings.minConfidence);
    sites := PlacesAreSites(buckets, settings, llm, notices, at, EdgesOf(notices, settings.minConfidence), places);
  }

  /** Whatever the LLM answers: the edges of the stage are the links that join two different events of the chunk they
      were proposed for with enough confidence, one edge each, in order. */
  lemma AnswersDrawEdges(unlinked: seq<LogEvent>, settings: Settings, llm: Llm) returns (sites: seq<Site>)
    requires settings.maxBatch >= 1
    ensures DrawnInOrder(Buckets(unlinked, settings.bucket), settings, llm, SemanticEdges(unlinked, settings, llm),
                         sites)
  {
    var buckets := Buckets(unlinked, settings.bucket);
    if |unlinked| >= 2 {
      sites := EdgesInOrder(buckets, settings, llm);
    } else {
      sites := [];
      forall s: Site
        ensures !IsSite(buckets, settings, llm, s)
      {
        if IsSite(buckets, settings, llm, s) {
          MixedNeedsTwo(unlinked, settings.bucket, s.bucket);
        }
      }
    }
  }

  lemma MixedNeedsTwo(unlinked: seq<LogEvent>, bucket: int, b: nat)
    requires b < |Buckets(unlinked, bucket)| && MixesSources(Buckets(unlinked, bucket)[b])
    ensures |unlinked| >= 2
  {
    var buckets, s := Buckets(unlinked, bucket), StableSort(Timestamp, unlinked);
    var x: LogEvent, y: LogEvent :| x in buckets[b] && y in buckets[b] && x.source != y.source;
    FlattenMembers(buckets, x);
    FlattenMembers(buckets, y);
    BucketsTile(s, 0, bucket);
    StableSortSpec(Timestamp, unlinked);
    assert x in s && y in s;
  }

  /** Some bucket with two sources has a chunk for which the LLM answers with a link that draws `x`. */
  ghost predicate IsAnswer(buckets: seq<seq<LogEvent>>, settings: Settings, llm: Llm, x: CorrelationEdge)
    requires settings.maxBatch >= 1
  {
    exists b, c ::
      b in buckets && MixesSources(b)
      && c in Chunks(b, settings.maxBatch) && Proposes(llm, c, settings.minConfidence, x)
  }

  lemma SiteIsAnswer(buckets: seq<seq<LogEvent>>, settings: Settings, llm: Llm, s: Site, x: CorrelationEdge)
    requires settings.maxBatch >= 1 && IsSite(buckets, settings, llm, s)
    requires Becomes(LinkAt(buckets, settings.maxBatch, llm, s), x)
    ensures IsAnswer(buckets, settings, llm, x)
  {
    var b, c := buckets[s.bucket], ChunkAt(buckets, settings.maxBatch, llm, s);
    assert LinkAt(buckets, settings.maxBatch, llm, s) in llm(c).links;
    assert Proposes(llm, c, settings.minConfidence, x);
  }

  lemma AnswerHasSite(buckets: seq<seq<LogEvent>>, settings: Settings, llm: Llm, x: CorrelationEdge)
    returns (s: Site)
    requires settings.maxBatch >= 1 && IsAnswer(buckets, settings, llm, x)
    ensures IsSite(buckets, settings, llm, s) && Becomes(LinkAt(buckets, settings.maxBatch, llm, s), x)
  {
    var b: seq<LogEvent>, c: seq<LogEvent> :| b in buckets && MixesSources(b) && c in Chunks(b, settings.maxBatch)
      && Proposes(llm, c, settings.minConfidence, x);
    var link: ProposedLink :| link in llm(c).links && Joins(link, c, settings.minConfidence) && Becomes(link, x);
    var i: nat :| i < |buckets| && buckets[i] == b;
    var j: nat :| j < |Chunks(b, settings.maxBatch)| && Chunks(b, settings.maxBatch)[j] == c;
    var l: nat :| l < |llm(c).links| && llm(c).links[l] == link;
    s := Site(i, j, l);
  }

  lemma DrawnIsAnswer(buckets: seq<seq<LogEvent>>, settings: Settings, llm: Llm, edges: seq<CorrelationEdge>,
      sites: seq<Site>, x: CorrelationEdge)
    requires settings.maxBatch >= 1 && DrawnInOrder(buckets, settings, llm, edges, sites) && x in edges
    ensures IsAnswer(buckets, settings, llm, x)
  {
    var k :| 0 <= k < |edges| && edges[k] == x;
    SiteIsAnswer(buckets, settings, llm, sites[k], x);
  }

  lemma AnswerIsDrawn(buckets: seq<seq<LogEvent>>, settings: Settings, llm: Llm, edges: seq<CorrelationEdge>,
      sites: seq<Site>, x: CorrelationEdge)
    requires settings.maxBatch >= 1 && DrawnInOrder(buckets, settings, llm, edges, sites)
    requires IsAnswer(buckets, settings, llm, x)
    ensures x in edges
  {
    var s := AnswerHasSite(buckets, settings, llm, x);
    assert s in sites;
    var k :| 0 <= k < |sites| && sites[k] == s;
    SameLinkSameEdge(LinkAt(buckets, settings.maxBatch, llm, s), edges[k], x);
  }

  lemma SameLinkSameEdge(link: ProposedLink, x: CorrelationEdge, y: CorrelationEdge)
    requires Becomes(link, x) && Becomes(link, y)
    ensures x == y
  {
  }

  /** An edge is drawn exactly when the LLM proposes it, confidently enough, for some chunk that it is shown. */
  lemma SemanticEdgesMean(unlinked: seq<LogEvent>, settings: Settings, llm: Llm)
    requires settings.maxBatch >= 1
    ensures forall x ::
        x in SemanticEdges(unlinked, settings, llm) <==> IsAnswer(Buckets(unlinked, settings.bucket), settings, llm, x)
  {
    var buckets, edges := Buckets(unlinked, settings.bucket), SemanticEdges(unlinked, settings, llm);
    var sites := AnswersDrawEdges(unlinked, settings, llm);
    forall x
      ensures x in edges <==> IsAnswer(buckets, settings, llm, x)
    {
      if x in edges {
        DrawnIsAnswer(buckets, settings, llm, edges, sites, x);
      }
      if IsAnswer(buckets, settings, llm, x) {
        AnswerIsDrawn(buckets, settings, llm, edges, sites, x);
      }
    }
  }

  lemma NextStart(k: nat, size: int)
    requires size >= 1 && k >= 1
    ensures k * size == (k - 1) * size + size && k * size >= size
  {
    assert (k - 1) * size >= 0;
  }

  lemma ChunkOfRest(bucket: seq<LogEvent>, size: int, at: nat)
    requires 1 <= size < |bucket| && at < |bucket| - size
    ensures bucket[size..][at..ChunkEnd(bucket[size..], at, size)]
      == bucket[at + size..ChunkEnd(bucket, at + size, size)]
  {
  }

  /** A bucket is cut every `size` events. */
  lemma {:induction false} ChunksAt(bucket: seq<LogEvent>, size: int, k: nat, start: nat)
    requires size >= 1 && start == k * size
    ensures k < |Chunks(bucket, size)| <==> start < |bucket|
    ensures start < |bucket| ==> Chunks(bucket, size)[k] == bucket[start..ChunkEnd(bucket, start, size)]
    decreases k
  {
    if k >= 1 {
      NextStart(k, size);
      if |bucket| > size {
        ChunksAt(bucket[size..], size, k - 1, start - size);
        if start < |bucket| {
          ChunkOfRest(bucket, size, start - size);
        }
      }
    }
  }

  // ---- Accounting ----

  function Told(notices: seq<Notice>): seq<seq<LogEvent>> {
    seq(|notices|, i requires 0 <= i < |notices| => notices[i].events)
  }

  function Calls(notices: seq<Notice>): nat {
    if notices == [] then 0 else (if notices[0].OnSkip? then 0 else 1) + Calls(notices[1..])
  }

  lemma ToldConcat(a: seq<Notice>, b: seq<Notice>)
    ensures Told(a + b) == Told(a) + Told(b)
  {
  }

  lemma {:induction false} CallsConcat(a: seq<Notice>, b: seq<Notice>)
    ensures Calls(a + b) == Calls(a) + Calls(b)
  {
    if a == [] {
      assert a + b == b;
    } else {
      assert (a + b)[1..] == a[1..] + b;
      CallsConcat(a[1..], b);
    }
  }

  lemma {:induction false} ChunksTile(bucket: seq<LogEvent>, size: int)
    requires size >= 1
    ensures Flatten(Chunks(bucket, size)) == bucket
    ensures forall c :: c in Chunks(bucket, size) ==> 1 <= |c| <= size
  {
    if bucket == [] {
    } else if |bucket| <= size {
      assert [bucket][1..] == [];
    } else {
      ChunksTile(bucket[size..], size);
      var rest := Chunks(bucket[size..], size);
      assert ([bucket[..size]] + rest)[1..] == rest;
      assert bucket == bucket[..size] + bucket[size..];
    }
  }

  lemma {:induction false} ChunkCount(bucket: seq<LogEvent>, size: int)
    requires size >= 1 && bucket != []
    ensures WithinBudget(size, |Chunks(bucket, size)|, 1, |bucket|)
  {
    if |bucket| <= size {
    } else {
      var rest := Chunks(bucket[size..], size);
      ChunkCount(bucket[size..], size);
      assert |Chunks(bucket, size)| == 1 + |rest|;
      assert size * |rest| == size * (|rest| - 1) + size;
    }
  }

  lemma QuotientBound(m: int, x: int, y: int)
    requires m >= 1 && m * x <= y
    ensures x <= y / m
  {
    var q := y / m;
    assert y < m * q + m == m * (q + 1);
    assert x >= q + 1 ==> m * x >= m * (q + 1);
  }

  lemma {:induction false} ChunkNoticesTile(chunks: seq<seq<LogEvent>>, llm: Llm)
    ensures Told(ChunkNotices(chunks, llm)) == chunks
    ensures Calls(ChunkNotices(chunks, llm)) == |chunks|
    ensures forall n :: n in ChunkNotices(chunks, llm) ==> !n.OnSkip?
  {
    if chunks == [] {
    } else {
      ChunkNoticesTile(chunks[1..], llm);
      ToldConcat([ChunkNotice(chunks[0], llm)], ChunkNotices(chunks[1..], llm));
      assert Told([ChunkNotice(chunks[0], llm)]) == [chunks[0]];
    }
  }

  lemma BucketNoticesTile(bucket: seq<LogEvent>, size: int, llm: Llm)
    requires size >= 1 && bucket != []
    ensures Flatten(Told(BucketNotices(bucket, size, llm))) == bucket
    ensures Calls(BucketNotices(bucket, size, llm)) == if Eligible(bucket) then |Chunks(bucket, size)| else 0
  {
    ChunksTile(bucket, size);
    ChunkNoticesTile(Chunks(bucket, size), llm);
    var notices := BucketNotices(bucket, size, llm);
    if !Eligible(bucket) {
      assert Told(notices) == [bucket];
      assert [bucket][1..] == [];
    }
  }

  /** `calls` LLM calls fit k buckets that hold n events. */
  ghost predicate WithinBudget(size: int, calls: int, k: int, n: int) {
    size * (calls - k) <= n - k
  }

  lemma BudgetsAdd(size: int, calls: int, k: int, n: int, calls': int, k': int, n': int)
    requires WithinBudget(size, calls, k, n) && WithinBudget(size, calls', k', n')
    ensures WithinBudget(size, calls + calls', k + k', n + n')
  {
    assert size * (calls + calls' - (k + k')) == size * (calls - k) + size * (calls' - k');
  }

  lemma BudgetBound(size: int, calls: int, k: int, n: int)
    requires size >= 1 && WithinBudget(size, calls, k, n)
    ensures calls <= k + (n - k) / size
  {
    QuotientBound(size, calls - k, n - k);
  }

  /** The number of buckets that reach the LLM, and the number of events in them. */
  function EligibleCount(buckets: seq<seq<LogEvent>>): nat {
    if buckets == [] then 0 else (if Eligible(buckets[0]) then 1 else 0) + EligibleCount(buckets[1..])
  }

  function EligibleEvents(buckets: seq<seq<LogEvent>>): nat {
    if buckets == [] then 0 else (if Eligible(buckets[0]) then |buckets[0]| else 0) + EligibleEvents(buckets[1..])
  }

  lemma {:induction false} AllNoticesTile(buckets: seq<seq<LogEvent>>, size: int, llm: Llm)
    requires size >= 1
    requires forall i :: 0 <= i < |buckets| ==> |buckets[i]| > 0
    ensures Flatten(Told(AllNotices(buckets, size, llm))) == Flatten(buckets)
  {
    if buckets == [] {
    } else {
      var here, later := BucketNotices(buckets[0], size, llm), AllNotices(buckets[1..], size, llm);
      BucketNoticesTile(buckets[0], size, llm);
      AllNoticesTile(buckets[1..], size, llm);
      ToldConcat(here, later);
      FlattenConcat(Told(here), Told(later));
    }
  }

  lemma CallsOfAll(buckets: seq<seq<LogEvent>>, size: int, llm: Llm)
    requires size >= 1 && buckets != []
    ensures Calls(AllNotices(buckets, size, llm))
      == Calls(BucketNotices(buckets[0], size, llm)) + Calls(AllNotices(buckets[1..], size, llm))
  {
    CallsConcat(BucketNotices(buckets[0], size, llm), AllNotices(buckets[1..], size, llm));
  }

  /** The chunks cut from the eligible buckets. */
  function ChunkTotal(buckets: seq<seq<LogEvent>>, size: int): nat
    requires size >= 1
  {
    if buckets == [] then 0
    else (if Eligible(buckets[0]) then |Chunks(buckets[0], size)| else 0) + ChunkTotal(buckets[1..], size)
  }

  /** One LLM call per chunk of an eligible bucket. */
  lemma {:induction false} CallsAreChunks(buckets: seq<seq<LogEvent>>, size: int, llm: Llm)
    requires size >= 1
    requires forall i :: 0 <= i < |buckets| ==> |buckets[i]| > 0
    ensures Calls(AllNotices(buckets, size, llm)) == ChunkTotal(buckets, size)
  {
    if buckets == [] {
    } else {
      CallsOfAll(buckets, size, llm);
      BucketNoticesTile(buckets[0], size, llm);
      CallsAreChunks(buckets[1..], size, llm);
    }
  }

  lemma {:induction false} ChunksWithinBudget(buckets: seq<seq<LogEvent>>, size: int)
    requires size >= 1
    ensures WithinBudget(size, ChunkTotal(buckets, size), EligibleCount(buckets), EligibleEvents(buckets))
  {
    if buckets == [] {
    } else {
      var b, rest := buckets[0], buckets[1..];
      ChunksWithinBudget(rest, size);
      if Eligible(b) {
        ChunkCount(b, size);
        BudgetsAdd(size, |Chunks(b, size)|, 1, |b|, ChunkTotal(rest, size), EligibleCount(rest), EligibleEvents(rest));
      }
    }
  }

  /** The hooks partition the unlinked events: told one after another, the events they are told about are the unlinked
      events in stable time order. */
  lemma EveryEventIsToldOnce(unlinked: seq<LogEvent>, settings: Settings, llm: Llm)
    requires settings.maxBatch >= 1 && |unlinked| >= 2
    ensures Flatten(Told(Notices(unlinked, settings, llm))) == StableSort(Timestamp, unlinked)
  {
    var s := StableSort(Timestamp, unlinked);
    var buckets := Buckets(unlinked, settings.bucket);
    BucketsTile(s, 0, settings.bucket);
    BucketsMatchStarts(s, 0, settings.bucket);
    AllNoticesTile(buckets, settings.maxBatch, llm);
    assert s[0..] == s;
    assert Notices(unlinked, settings, llm) == AllNotices(buckets, settings.maxBatch, llm);
  }

  lemma CallsWithinBudget(buckets: seq<seq<LogEvent>>, size: int, llm: Llm)
    requires size >= 1 && forall i :: 0 <= i < |buckets| ==> |buckets[i]| > 0
    ensures WithinBudget(size, Calls(AllNotices(buckets, size, llm)), EligibleCount(buckets), EligibleEvents(buckets))
  {
    CallsAreChunks(buckets, size, llm);
    ChunksWithinBudget(buckets, size);
  }

  lemma BucketsAreNonEmpty(unlinked: seq<LogEvent>, bucket: int)
    ensures forall i :: 0 <= i < |Buckets(unlinked, bucket)| ==> |Buckets(unlinked, bucket)[i]| > 0
  {
    BucketsMatchStarts(StableSort(Timestamp, unlinked), 0, bucket);
  }

  lemma CallsOfBuckets(buckets: seq<seq<LogEvent>>, size: int, llm: Llm)
    requires size >= 1 && forall i :: 0 <= i < |buckets| ==> |buckets[i]| > 0
    ensures var k, n := EligibleCount(buckets), EligibleEvents(buckets);
      k <= n && Calls(AllNotices(buckets, size, llm)) <= k + (n - k) / size
  {
    CallsWithinBudget(buckets, size, llm);
    EligibleHaveEvents(buckets);
    var calls := Calls(AllNotices(buckets, size, llm));
    BudgetBound(size, calls, EligibleCount(buckets), EligibleEvents(buckets));
  }

  /** With k eligible buckets that hold n events, the LLM is called at most k + floor((n - k) / maxBatch) times. */
  lemma CallsAreBounded(unlinked: seq<LogEvent>, settings: Settings, llm: Llm)
    requires settings.maxBatch >= 1 && |unlinked| >= 2
    ensures var buckets := Buckets(unlinked, settings.bucket);
      var k, n := EligibleCount(buckets), EligibleEvents(buckets);
      k <= n && Calls(Notices(unlinked, settings, llm)) <= k + (n - k) / settings.maxBatch
  {
    var buckets := Buckets(unlinked, settings.bucket);
    BucketsAreNonEmpty(unlinked, settings.bucket);
    CallsOfBuckets(buckets, settings.maxBatch, llm);
    assert Notices(unlinked, settings, llm) == AllNotices(buckets, settings.maxBatch, llm);
  }

  lemma BucketCountFitsTime(s: seq<LogEvent>, bucket: int)
    requires Sorted(Timestamp, s) && |BucketsFrom(s, 0, bucket)| >= 2
    ensures FitsTime(|BucketsFrom(s, 0, bucket)|, bucket, s)
  {
    var starts := StartsFrom(s, 0, bucket);
    BucketsMatchStarts(s, 0, bucket);
    StartsAreApart(s, 0, bucket);
    var last := starts[|starts| - 1];
    assert starts[0] == 0;
    assert s[last].timestamp - s[starts[0]].timestamp > (|starts| - 1) * bucket by {
      ApartSpread(s, starts, bucket, |starts| - 1);
    }
    assert last == |s| - 1 || Timestamp(s[last]) <= Timestamp(s[|s| - 1]);
  }

  /** `n` groups leave `n - 1` gaps of the given width within the time that `sorted` spans. */
  ghost predicate FitsTime(n: nat, width: int, sorted: seq<LogEvent>) {
    sorted != [] && (n - 1) * width < sorted[|sorted| - 1].timestamp - sorted[0].timestamp
  }

  lemma FewerFitTime(n: nat, more: nat, width: int, sorted: seq<LogEvent>)
    requires n <= more && width >= 0 && FitsTime(more, width, sorted)
    ensures FitsTime(n, width, sorted)
  {
    assert (more - 1) * width == (n - 1) * width + (more - n) * width;
  }

  /** The number of buckets, and so of eligible ones, is bounded by the time the events span. */
  lemma BucketsAreBounded(unlinked: seq<LogEvent>, bucket: int)
    ensures var buckets, sorted := Buckets(unlinked, bucket), StableSort(Timestamp, unlinked);
      EligibleCount(buckets) <= |buckets|
      && (|buckets| >= 2 ==> FitsTime(|buckets|, bucket, sorted))
      && (EligibleCount(buckets) >= 2 && bucket >= 0 ==> FitsTime(EligibleCount(buckets), bucket, sorted))
  {
    var buckets, sorted := Buckets(unlinked, bucket), StableSort(Timestamp, unlinked);
    StableSortSpec(Timestamp, unlinked);
    EligibleAreFewer(buckets);
    if |buckets| >= 2 {
      BucketCountFitsTime(sorted, bucket);
      if bucket >= 0 {
        FewerFitTime(EligibleCount(buckets), |buckets|, bucket, sorted);
      }
    }
  }

  // ---- When the LLM is not asked ----

  lemma {:induction false} NoneEligibleNoEdges(buckets: seq<seq<LogEvent>>, size: int, llm: Llm, minConfidence: real)
    requires size >= 1 && forall b :: b in buckets ==> !Eligible(b)
    ensures EdgesOf(AllNotices(buckets, size, llm), minConfidence) == []
  {
    if buckets == [] {
    } else {
      var here := BucketNotices(buckets[0], size, llm);
      assert buckets[0] in buckets;
      EdgesOfConcat(here, AllNotices(buckets[1..], size, llm), minConfidence);
      NoneEligibleNoEdges(buckets[1..], size, llm, minConfidence);
      assert |here| == 1 && here[0].OnSkip? && here[1..] == [];
    }
  }

  /** Events of a single source are never linked by the LLM, whatever it would answer. */
  lemma SingleSourceNeverAsks(unlinked: seq<LogEvent>, source: SourceSystem, settings: Settings, llm: Llm)
    requires settings.maxBatch >= 1 && forall e :: e in unlinked ==> e.source == source
    ensures SemanticEdges(unlinked, settings, llm) == []
  {
    var s, buckets := StableSort(Timestamp, unlinked), Buckets(unlinked, settings.bucket);
    StableSortSpec(Timestamp, unlinked);
    MultisetMembers(s, unlinked);
    BucketsTile(s, 0, settings.bucket);
    forall b | b in buckets
      ensures !Eligible(b)
    {
      var i :| 0 <= i < |buckets| && buckets[i] == b;
      forall e | e in b
        ensures e.source == source
      {
        FlattenMembers(buckets, e);
        assert e in s[0..];
      }
      SubsetCardinality(Sources(b), {source});
    }
    NoneEligibleNoEdges(buckets, settings.maxBatch, llm, settings.minConfidence);
  }

  lemma {:induction false} NegativeWidthSeparates(s: seq<LogEvent>, at: nat, bucket: int)
    requires at <= |s| && Sorted(Timestamp, s) && bucket < 0
    ensures forall b :: b in BucketsFrom(s, at, bucket) ==> |b| == 1
    decreases |s| - at
  {
    if at == |s| {
    } else {
      assert at + 1 < |s| ==> Timestamp(s[at]) <= Timestamp(s[at + 1]);
      NegativeWidthSeparates(s, at + 1, bucket);
    }
  }

  /** With a negative bucket width every bucket is a single event, so the LLM is never asked. */
  lemma NegativeWidthNeverAsks(unlinked: seq<LogEvent>, settings: Settings, llm: Llm)
    requires settings.maxBatch >= 1 && settings.bucket < 0
    ensures SemanticEdges(unlinked, settings, llm) == []
  {
    StableSortSpec(Timestamp, unlinked);
    NegativeWidthSeparates(StableSort(Timestamp, unlinked), 0, settings.bucket);
    NoneEligibleNoEdges(Buckets(unlinked, settings.bucket), settings.maxBatch, llm, settings.minConfidence);
  }

  lemma {:induction false} EligibleHaveEvents(buckets: seq<seq<LogEvent>>)
    ensures EligibleCount(buckets) <= EligibleEvents(buckets)
  {
    if buckets == [] {
    } else {
      EligibleHaveEvents(buckets[1..]);
    }
  }

  function IfEligible(): seq<LogEvent> -> Option<seq<LogEvent>> {
    (b: seq<LogEvent>) => if Eligible(b) then Some(b) else None
  }

  /** Both counts are those of the buckets that are eligible. */
  lemma {:induction false} EligibleCounts(buckets: seq<seq<LogEvent>>)
    returns (eligible: seq<seq<LogEvent>>, at: seq<nat>)
    ensures Yields(IfEligible(), buckets, eligible, at)
    ensures EligibleCount(buckets) == |eligible| && EligibleEvents(buckets) == |Flatten(eligible)|
  {
    if buckets == [] {
      eligible, at := [], [];
    } else {
      var init, last := buckets[..|buckets| - 1], buckets[|buckets| - 1];
      eligible, at := EligibleCounts(init);
      YieldsSnoc(IfEligible(), init, eligible, at, last);
      EligibleSnoc(init, last);
      FlattenSnoc(eligible, last);
      assert buckets == init + [last];
      if Eligible(last) {
        eligible, at := eligible + [last], at + [|init|];
      }
    }
  }

  lemma {:induction false} EligibleSnoc(buckets: seq<seq<LogEvent>>, b: seq<LogEvent>)
    ensures EligibleCount(buckets + [b]) == EligibleCount(buckets) + if Eligible(b) then 1 else 0
    ensures EligibleEvents(buckets + [b]) == EligibleEvents(buckets) + if Eligible(b) then |b| else 0
  {
    if buckets == [] {
      assert (buckets + [b])[1..] == [];
    } else {
      assert (buckets + [b])[1..] == buckets[1..] + [b];
      EligibleSnoc(buckets[1..], b);
    }
  }

  lemma {:induction false} EligibleAreFewer(buckets: seq<seq<LogEvent>>)
    ensures EligibleCount(buckets) <= |buckets|
  {
    if buckets == [] {
    } else {
      EligibleAreFewer(buckets[1..]);
    }
  }
}
