/** The scorer (harness/scoring.py) applied to what the pipeline returns. */
module PipelineScores {
  import opened OrderedDicts
  import opened Schema
  import opened Deterministic
  import opened Semantic
  import opened IncidentGraph
  import opened Pipeline
  import opened Scoring
  import opened ScoringTheorems
  import opened ScoreFigures

  /** Whatever the LLM proposes, the pipeline's edges agree. */
  lemma PipelineRelationsAgree(events: seq<LogEvent>, useLlm: bool, settings: Settings, llm: Llm)
    requires settings.maxBatch >= 1 && DistinctIds(events)
    ensures RelationsAgree(PipelineEdges(events, useLlm, settings, llm))
  {
    var det, sem := DeterministicEdges(events, settings.window), SecondStage(events, useLlm, settings, llm);
    DeterministicAreIdMatch(events, settings.window);
    SecondStageSpec(events, useLlm, settings, llm);
    StagesAreSeparate(events, useLlm, settings, llm);
    forall x, y | x in det && y in sem
      ensures EdgePair(x) != EdgePair(y)
    {
      assert (x.source, x.target) in LinksOf(det) && (y.source, y.target) in LinksOf(sem);
      PairKeyIsUnordered(x.source, x.target, y.source, y.target);
    }
  }

  /** Scoring is well defined on pipeline output: the last-wins table of observed pairs loses nothing, so no reordering
      of the edges changes the score, the incidents or, but for its order, the contamination. */
  lemma ScoreIsOrderFree(events: seq<LogEvent>, useLlm: bool, settings: Settings, llm: Llm, other: seq<CorrelationEdge>,
      anchors: Anchors, expected: Expected, mode: EdgeScoring)
    requires settings.maxBatch >= 1 && DistinctIds(events)
    requires multiset(other) == multiset(PipelineEdges(events, useLlm, settings, llm))
    ensures var edges := PipelineEdges(events, useLlm, settings, llm);
      ScoreEdges(other, anchors, expected, mode) == ScoreEdges(edges, anchors, expected, mode)
      && ComponentsOf(events, other) == ComponentsOf(events, edges)
      && multiset(Contamination(other, StepIndex(Items(anchors))))
        == multiset(Contamination(edges, StepIndex(Items(anchors))))
  {
    var edges := PipelineEdges(events, useLlm, settings, llm);
    PipelineRelationsAgree(events, useLlm, settings, llm);
    ReorderedScore(events, edges, other, anchors, expected, mode);
    ReorderedContamination(edges, other, StepIndex(Items(anchors)));
  }

  /** On pipeline output a pair is a stage mismatch if and only if it is rightly found, but by an edge of another
      relation than the last expected edge of the pair has. */
  lemma PipelineMismatch(events: seq<LogEvent>, useLlm: bool, settings: Settings, llm: Llm, anchors: Anchors,
      expected: Expected, mode: EdgeScoring, pair: StepPair)
    requires settings.maxBatch >= 1 && DistinctIds(events)
    ensures var edges, index := PipelineEdges(events, useLlm, settings, llm), StepIndex(Items(anchors));
      var s := ScoreEdges(edges, anchors, expected, mode);
      pair in s.stageMismatches
      <==> pair in s.truePositives
           && exists x, l: nat ::
                x in edges && Shows(x, index, pair) && LastNaming(expected.edges, pair, l)
                && x.relation != expected.edges[l].relation
  {
    PipelineRelationsAgree(events, useLlm, settings, llm);
    MismatchOfAgreeing(PipelineEdges(events, useLlm, settings, llm), anchors, expected, mode, pair);
  }

  /** The scorer and the store see the same incidents in a run. */
  lemma ScorerSeesPipelineIncidents(events: seq<LogEvent>, useLlm: bool, settings: Settings, llm: Llm)
    requires settings.maxBatch >= 1 && DistinctIds(events)
    ensures var edges := PipelineEdges(events, useLlm, settings, llm);
      GraphNodes(events, edges) == Ids(events)
      && ComponentsOf(events, edges).Values == Incidents(Ids(events), LinksOf(edges))
  {
    var det, sem := DeterministicEdges(events, settings.window), SecondStage(events, useLlm, settings, llm);
    var edges := PipelineEdges(events, useLlm, settings, llm);
    StagesAreSeparate(events, useLlm, settings, llm);
    forall id | id in Endpoints(edges)
      ensures id in Ids(events)
    {
      var x :| x in edges && (x.source == id || x.target == id);
      if x in det {
        assert (x.source, x.target) in LinksOf(det);
      } else {
        assert (x.source, x.target) in LinksOf(sem);
      }
    }
    assert GraphNodes(events, edges) == Ids(events);
    TableHoldsIncidents(events, edges);
  }
}
