/** Generator, extractor and pipeline together: what becomes of the messages of a run in correlated mode. */
module GeneratorIncidents {
  import opened Options
  import opened StableSorting
  import opened Schema
  import opened Deterministic
  import opened Semantic
  import opened IncidentGraph
  import opened Pipeline
  import opened SharedIdentifier
  import opened Identifiers
  import opened Composer
  import opened Fields
  import opened RoundTrip

  /** Events that share an identifier and come close enough one after another are one incident of the whole pipeline,
      whatever the LLM would say. */
  lemma SharedIdentifierIsOneIncident(events: seq<LogEvent>, kv: IdKey, useLlm: bool, settings: Settings, llm: Llm)
    requires settings.maxBatch >= 1 && DistinctIds(events) && AllCarry(events, kv) && events != []
    requires GapsFit(events, settings.window)
    ensures Incidents(Ids(events), LinksOf(PipelineEdges(events, useLlm, settings, llm))) == {Ids(events)}
  {
    var det := DeterministicEdges(events, settings.window);
    FittingGapsMakeOneIncident(events, kv, settings.window);
    LinksOfConcat(det, SecondStage(events, useLlm, settings, llm));
    SortedEvents(events);
    var root := StableSort(Timestamp, events)[0];
    assert root in StableSort(Timestamp, events);
    var all := LinksOf(PipelineEdges(events, useLlm, settings, llm));
    forall b | b in Ids(events)
      ensures Connected(all, root.id, b)
    {
      SameIncidentIffConnected(Ids(events), LinksOf(det), root.id, b);
      ConnectedMonotone(LinksOf(det), all, root.id, b);
    }
    OneComponent(Ids(events), all, root.id);
  }

  /** `e` was normalised from a message composed from these parts. */
  ghost predicate ComposedFrom(e: LogEvent, base: string, v: Values, errorCode: Option<string>) {
    e.source == CloudWatch
    && e.message == ComposeText(base, v, errorCode, true, false) && e.identifiers == Extract(e.message)
  }

  /** The message of `e` was composed with this alias of `k`, and the alias is not pre-empted in it. */
  ghost predicate ComposedWith(e: LogEvent, k: Key, alias: string) {
    exists base, v, errorCode ::
      ComposedFrom(e, base, v, errorCode) && NotPreempted(k, base, v, errorCode)
      && Alias(k, v, errorCode) == Some(alias)
  }

  lemma ComposedCarriesAlias(e: LogEvent, k: Key, alias: string)
    requires k != ErrorCode && ComposedWith(e, k, alias)
    ensures Has(e, (Name(k), alias))
  {
    var base, v, errorCode :|
      ComposedFrom(e, base, v, errorCode) && NotPreempted(k, base, v, errorCode)
      && Alias(k, v, errorCode) == Some(alias);
    AliasLaw(k, base, v, errorCode);
    ExtractSpec(e.message, k);
  }

  ghost predicate OneIncident(events: seq<LogEvent>, edges: seq<CorrelationEdge>) {
    Incidents(Ids(events), LinksOf(edges)) == {Ids(events)}
  }

  /** All events of the generator come from one source, so the LLM adds nothing to what the first stage links. */
  lemma GeneratorEdgesAreDeterministic(events: seq<LogEvent>, useLlm: bool, settings: Settings, llm: Llm)
    requires settings.maxBatch >= 1 && forall e :: e in events ==> e.source == CloudWatch
    ensures PipelineEdges(events, useLlm, settings, llm) == DeterministicEdges(events, settings.window)
  {
    var det := DeterministicEdges(events, settings.window);
    var unlinked := Unlinked(events, Endpoints(det));
    UnlinkedSpec(events, Endpoints(det));
    SingleSourceNeverAsks(unlinked, CloudWatch, settings, llm);
    assert det + [] == det;
  }

  /** Correlated mode: events composed with one and the same alias under some key, in messages that do not pre-empt it,
      form a single incident exactly when no two neighbours in time are more than a window apart. */
  lemma CorrelatedModeIsOneIncident(events: seq<LogEvent>, k: Key, alias: string, useLlm: bool, settings: Settings,
      llm: Llm)
    requires settings.maxBatch >= 1 && DistinctIds(events) && events != []
    requires k != ErrorCode && forall e :: e in events ==> ComposedWith(e, k, alias)
    ensures OneIncident(events, PipelineEdges(events, useLlm, settings, llm)) <==> GapsFit(events, settings.window)
  {
    forall e | e in events
      ensures Has(e, (Name(k), alias)) && e.source == CloudWatch
    {
      ComposedCarriesAlias(e, k, alias);
    }
    SingleIncidentIffGapsFit(events, (Name(k), alias), settings.window);
    GeneratorEdgesAreDeterministic(events, useLlm, settings, llm);
  }

  /** Whatever the messages are, a gap wider than the window keeps the events of a generator from being one incident. */
  lemma WideGapAlwaysSplits(events: seq<LogEvent>, useLlm: bool, settings: Settings, llm: Llm)
    requires settings.maxBatch >= 1 && DistinctIds(events) && !GapsFit(events, settings.window)
    requires forall e :: e in events ==> e.source == CloudWatch
    ensures !OneIncident(events, PipelineEdges(events, useLlm, settings, llm))
  {
    GeneratorEdgesAreDeterministic(events, useLlm, settings, llm);
    OneIncidentNeedsFittingGaps(events, settings.window);
  }

  // ---- Two events that are not one incident ----

  const PLAIN := "xxxxxxxx"

  const PLAIN_VALUES := Values(Some(PLAIN), Some(PLAIN), Some(PLAIN))

  lemma PlainIsUnexposed(k: Key)
    ensures Unexposed(k, PLAIN)
  {
    assert LacksLetters(k, PLAIN);
    LackingIsUnexposed(k, PLAIN);
  }

  /** There are clean messages. */
  lemma PlainMessageIsClean()
    ensures Clean(PLAIN, PLAIN_VALUES, None)
  {
    WellFormedIsOwnAlias(PLAIN, false);
    WellFormedIsOwnAlias(PLAIN, true);
    forall k
      ensures Unexposed(k, PLAIN)
    {
      PlainIsUnexposed(k);
    }
  }

  /** An event whose message was composed and is read back without fault. */
  lemma SomePlainEvent(id: EventId, time: int) returns (e: LogEvent)
    ensures e.id == id && e.timestamp == time && e.source == CloudWatch && ComposedWith(e, TraceId, PLAIN)
  {
    var message := ComposeText(PLAIN, PLAIN_VALUES, None, true, false);
    e := LogEvent(id, CloudWatch, time, message, Extract(message));
    PlainMessageIsClean();
    CleanHoldsNothing(TraceId, PLAIN, PLAIN_VALUES, None);
    WellFormedIsOwnAlias(PLAIN, false);
    assert ComposedFrom(e, PLAIN, PLAIN_VALUES, None);
  }

  lemma LatePairIsApart(a: LogEvent, b: LogEvent, useLlm: bool, settings: Settings, llm: Llm)
    requires settings.maxBatch >= 1 && settings.window >= 0
    requires a.id != b.id && a.source == b.source == CloudWatch && b.timestamp - a.timestamp > settings.window
    ensures DistinctIds([a, b]) && !OneIncident([a, b], PipelineEdges([a, b], useLlm, settings, llm))
  {
    var events := [a, b];
    assert Sorted(Timestamp, events);
    SortedIsFixpoint(Timestamp, events);
    assert events[1].timestamp - events[0].timestamp > settings.window;
    WideGapAlwaysSplits(events, useLlm, settings, llm);
  }

  /** Two messages composed with the same values and read back without fault are not one incident when they come one
      tick more than a window apart. */
  lemma LateMessageIsApart(useLlm: bool, settings: Settings, llm: Llm) returns (a: LogEvent, b: LogEvent)
    requires settings.maxBatch >= 1 && settings.window >= 0
    ensures b.timestamp - a.timestamp == settings.window + 1
    ensures DistinctIds([a, b]) && ComposedWith(a, TraceId, PLAIN) && ComposedWith(b, TraceId, PLAIN)
    ensures !OneIncident([a, b], PipelineEdges([a, b], useLlm, settings, llm))
  {
    a := SomePlainEvent("a", 0);
    b := SomePlainEvent("b", settings.window + 1);
    assert a.id[0] != b.id[0];
    LatePairIsApart(a, b, useLlm, settings, llm);
  }
}
