# Log intelligence: a verified model

The repository gathers log lines from several systems, turns them into events, links the events that belong to one
incident, stores the links, and measures itself against scenarios whose answers are known. A companion program in Java
writes log messages for it to read. This project models the logic of that chain and proves what it promises.

- **Correlation.** `Deterministic` is the inverted-index join on shared identifiers, `Semantic` the bucketing, batching
  and filtering around the LLM, `Pipeline` the two stages together, and `IncidentGraph` connected components with an
  explicit breadth-first search; `DeterministicOrder` says which shared identifier an edge names and in what order the
  edges come, and `DeterministicExtent` bounds how far in time an incident can reach. The LLM is an arbitrary function
  from a chunk of events to an error or to any list of links, with any ids and any confidence; every theorem holds for
  all such functions. `SharedIdentifier` says exactly when events that share an identifier form one incident.
- **Store.** `Store` is insert-if-absent into two tables with the foreign key, and the incident list; `History` is any
  number of runs one after another, and `MainRun` one run from records to incidents.
- **Log reading.** `LogLines` groups lines into entries, `TomcatExtractor` and `PostgresExtractor` are the two parsers
  built on it, `PostgresHeader` the header line in full, and `Normalizer` the window filter and the sort.
- **Harness.** `Collector` is the polling loop, `Scoring` anchor resolution, edge scores and incident judgements, with
  `CollectedAnchors`, `ScoreFigures` and `ScoringTheorems` about them and `PipelineScores` about the scorer on pipeline
  output.
- **Generator.** `Composer` prints a message, `Identifiers` is the extractor's five patterns, `IdentifierSearch` says
  what a search finds in any text, and `Tokens`, `Fields` and `RoundTrip` say exactly when the second undoes the first;
  `AliasLeaks` has the values for which it does not. `GeneratorIncidents` carries this on to incidents. `CorrelationConfig` is the cached fallback that threads race for.
- **View.** `GraphBuilder` restricts the graph to one incident.

A loop of the source is a method here, proved equal to a function of its inputs; the theorems are lemmas about those
functions, so they hold of what the methods return. `Selections` says from outside, by positions, what it means to keep
some elements of a list, to sort them stably and to put lists one after another; each such function is tied to it.

## Reading the model

- Times are integers (ticks of the clock) and confidences are reals.
- An LLM may answer the same question differently twice, yet as a function of the chunk it loses nothing: ids are
  distinct, so no chunk occurs twice in a run, and each run of a history has an LLM of its own.
- Event ids are uuid4, so `DistinctIds` is assumed of the events of one run. Edges get theirs when they are stored.
- `maxBatch` is `SEMANTIC_MAX_BATCH_SIZE` and is at least 1. With 0 Python's `range` raises, and a negative value makes no
  chunk at all.
- A line of a log or of a file holds no newline, which is how lines are told apart; `LogLines.AllPlain` says so where a
  theorem needs it.
- A dictionary is an `OrderedDict`, a map together with the order in which its keys were first inserted. A set of Python
  whose order the source then fixes by sorting, as in the lists of a score, is a set.
- Sorting is a stable insertion sort. `StableSorting.StableSortUnique` shows that any stable sort gives the same result.
- `MainRun.RunOnce` and `Collector.Collect` receive extraction results, dates and clocks as parameters.

## Where the code and its documentation differ

- `RandomLogValues.java:212-219` says that the sanitised tokens `trace_id`, `request_id`, `user_id` and `service_name`
  always parse. They do not: behind a user name that ends in `svc`, as in ` username=jdoe-svc componentId=orders`, the
  service name that is read is `componentId` (`AliasLeaks.SvcSuffixLeaks`), and for every such user name it is the same
  for all components (`AliasLeaks.SvcSuffixHidesComponent`). Likewise a component id that ends in `status` makes an error
  code be read that nobody wrote (`AliasLeaks.StatusSuffixLeaks`). `RoundTrip.AliasLaw` says what is extracted for every
  input, and `RoundTrip.RoundTripIffNotPreempted` exactly when that is what was meant, field by field.
- `cloudwatch-log-generator/README.md:87-88` says that every event of a task in correlated mode links into a single
  incident. Two events more than the deterministic window apart do not (`GeneratorIncidents.LateMessageIsApart`). As long
  as some alias they all have is not pre-empted in any message, the events are a single incident if and only if no two
  neighbours in time are more than a window apart (`GeneratorIncidents.CorrelatedModeIsOneIncident`).
- The design table quoted in `scenarios/README.md:141-144` expects an incident that both stages merged. No run produces
  one, whatever the LLM answers (`Pipeline.NoMixedIncident`), which is what lines 146-152 of that file argue.

## Model

| member | source | states |
|---|---|---|
| OrderedDicts.ItemsAreDistinct | correlation/deterministic.py:31-34 | A dictionary yields every key once, so no identifier of an event is entered in the index twice |
| Schema.PairKeyIsUnordered | correlation/deterministic.py:44 | Sorting two ids gives the same key exactly for the same unordered pair |
| StableSorting.StableSortSpec | correlation/deterministic.py:39 | Sorting by time orders the events, keeps them all, and keeps the order of events with equal times |
| StableSorting.StableSortUnique | normalization/normalizer.py:214 | There is one stable sorted arrangement of a sequence, so the sorting algorithm is immaterial |
| Selections.SortPositions | normalization/normalizer.py:214 | Sorting by a key rearranges positions: the result lists every position once, by key and, at equal keys, in input order |
| Selections.FlattenGoesThrough | main.py:49-56 | Putting pieces one after another lists every element of every piece once, piece by piece and in order |
| Deterministic.AddToIndex | correlation/deterministic.py:33-34 | Entering one event keeps the index exact: its keys are all identifiers seen, in the order first seen, and each lists the events that carry it |
| Deterministic.BuildIndex | correlation/deterministic.py:30-34 | The index holds, under each identifier, exactly the events that carry it, in input order |
| Deterministic.LinkRow | correlation/deterministic.py:40-58 | The pairs of one event with the later ones of its group: those outside the window or seen before are passed over, the others add an edge, its two ends and its pair |
| Deterministic.LinkGroup | correlation/deterministic.py:39-58 | The same for every pair of one time-sorted group, in combination order |
| Deterministic.LinkIndexed | correlation/deterministic.py:36-40 | A group is sorted stably by time before its pairs are visited, and a group of fewer than two events adds nothing |
| Deterministic.LinkGroups | correlation/deterministic.py:36-58 | The groups are visited in the order of the index, each with exactly its members |
| Deterministic.DeterministicCorrelate | correlation/deterministic.py:23-60 | The stage returns the first edge drawn for every pair, and as linked ids exactly the edges' endpoints |
| Deterministic.StageStaysInStep | correlation/deterministic.py:26-28 | At the end the linked ids are the ends of the edges, the seen pairs are their pairs, and no pair has two edges |
| Deterministic.StageDraws | correlation/deterministic.py:36-56 | Every edge joins two positions of one group within the window, and every such pair of positions has an edge |
| Deterministic.EdgesAreSound | correlation/deterministic.py:36-56 | Every edge joins two different events that carry the identifier it names, no more than a window apart, the earlier one as source, with confidence 1 |
| Deterministic.EdgesAreComplete | correlation/deterministic.py:36-56 | Two events that share an identifier and lie within the window are linked, whatever other groups and pairs there are |
| Deterministic.IndexRefinesAllPairs | correlation/deterministic.py:23-60 | The index, the window filter and the deduplication link exactly the pairs that an all-pairs comparison links, each once |
| Deterministic.LinkedExactly | correlation/deterministic.py:57-60 | An event is in the linked ids if and only if it shares an identifier within the window with another event |
| Deterministic.LinkedWithinEvents | correlation/deterministic.py:57-60 | Only ids of the input events are linked |
| Deterministic.InputOrderIsImmaterial | correlation/deterministic.py:23-60 | Any reordering of the input gives the same linked pairs and the same linked ids |
| DeterministicOrder.FirstSeenListsFirsts | correlation/deterministic.py:30-34 | The index lists each identifier once, in the order in which they are first met |
| DeterministicOrder.OccurrencesGoThrough | correlation/deterministic.py:31-33 | Identifiers are met event by event and, for one event, in the order of its own mapping |
| DeterministicOrder.MembersYield | correlation/deterministic.py:31-34 | Under an identifier stand the events that carry it, each once and in input order |
| DeterministicOrder.StageTakesFirsts | correlation/deterministic.py:36-58 | Every two events that are paired under some identifier have one edge, drawn at the first of their pairings, and the edges come in the order of the index and of the positions in each sorted group |
| DeterministicOrder.MatchedOnIsFirst | correlation/deterministic.py:44-55 | An edge names the first identifier of the index that both its events carry |
| IncidentGraph.SameIncidentIffConnected | storage/relationship_store.py:103-110 | Two nodes are in one incident if and only if a path of links joins them |
| IncidentGraph.IncidentsPartition | storage/relationship_store.py:103-110 | The incidents are non-empty, disjoint, and together hold every node |
| IncidentGraph.SeparateUnion | correlation/pipeline.py:34 | Two graphs on separate nodes put side by side have exactly the incidents of the one and of the other |
| IncidentGraph.BreadthFirst | storage/relationship_store.py:110 | A worklist search from a node returns exactly the nodes a path reaches |
| IncidentGraph.ConnectedComponents | storage/relationship_store.py:110 | One search per unseen node yields every incident once |
| Semantic.BucketByTime | correlation/langchain_agents.py:220-238 | The loop cuts the stable time order where an event is more than the width after the first of the open bucket |
| Semantic.BucketsTile | correlation/langchain_agents.py:226-238 | The buckets one after another are the time-sorted events |
| Semantic.BucketsAreNarrow | correlation/langchain_agents.py:231-232 | No bucket holds events more than the width apart |
| Semantic.StartsAreApart | correlation/langchain_agents.py:231-236 | Any two buckets start more than the width apart |
| Semantic.GreedyIsOptimal | correlation/langchain_agents.py:220-238 | No assignment of the events to groups that each span at most the width, contiguous or not, has fewer groups |
| Semantic.BucketingIsSoundAndOptimal | correlation/langchain_agents.py:220-238 | The buckets of any input tile its stable time order, are non-empty and narrow, and are as few as any such grouping |
| Semantic.SemanticObserver.constructor | harness/observer.py:33-38 | A recording observer starts with nothing recorded |
| Semantic.SemanticObserver.Record | harness/observer.py:40-57 | A hook call is appended to what was recorded, and the links below the threshold stay exactly those of all answers recorded |
| Semantic.SemanticObserver.RecordLow | harness/observer.py:45-54 | Of one answer exactly the links below the threshold are appended, in order |
| Semantic.AllLowLinksMeans | harness/observer.py:43-54 | A link is on the side list if and only if some recorded answer proposed it with a confidence below the threshold |
| Semantic.SubThresholdYields | harness/observer.py:43-54 | The side list holds every link told that is below the threshold, once for each time it was told, in the order of the calls and the answers |
| Semantic.SemanticCorrelationAgent.constructor | correlation/langchain_agents.py:246-252 | The agent keeps its LLM and its observer, which may be absent |
| Semantic.SemanticCorrelationAgent.Notify | correlation/langchain_agents.py:266-274 | An observer, if there is one, is told exactly one more thing |
| Semantic.SemanticCorrelationAgent.CorrelateChunk | correlation/langchain_agents.py:281-312 | One chunk makes one hook call, an answer or an error; an edge is drawn if and only if the LLM answers with a link between two different ids of the chunk whose confidence reaches the threshold, and it has that link's ends, confidence and rationale |
| Semantic.SemanticCorrelationAgent.CorrelateBucket | correlation/langchain_agents.py:276-278 | The batch loop tells of the chunks of the bucket in order, and an edge is returned if and only if some chunk of the bucket is answered with such a link |
| Semantic.SemanticCorrelationAgent.Correlate | correlation/langchain_agents.py:254-279 | Observed or not, an edge is returned if and only if some bucket with two sources has a chunk for which the LLM answers with such a link, one edge for every such link, in the order of the buckets, the chunks and the answers; an observer's log grows by exactly the notices of the stage |
| Semantic.SemanticEdgesMean | correlation/langchain_agents.py:254-312 | The same as a law of the stage for every LLM: what is drawn is exactly what is proposed, confidently enough, for a chunk that is shown |
| Semantic.AnswersDrawEdges | correlation/langchain_agents.py:254-312 | One edge per accepted link, listed by bucket, chunk and place in the answer; a link proposed twice gives two edges |
| Semantic.ObserverIsTold | correlation/langchain_agents.py:254-293 | A skipped bucket is told once and whole with the reason that applies; of any other each chunk is told in turn, with the answer's links, or as an error if the LLM raised; of fewer than two events nothing is told |
| Semantic.EligibleMeans | correlation/langchain_agents.py:265-275 | A bucket reaches the LLM if and only if two of its events differ in source |
| Semantic.ChunksTile | correlation/langchain_agents.py:276-277 | Chunks are non-empty, have at most the batch size, and one after another are the bucket |
| Semantic.ChunksAt | correlation/langchain_agents.py:276-277 | Chunk k is the slice of the bucket from k times the batch size on, and there is one while that is inside the bucket |
| Semantic.EveryEventIsToldOnce | correlation/langchain_agents.py:254-293 | With two or more unlinked events, the buckets skipped and the chunks answered or failed are together the events in time order, each event once |
| Semantic.CallsAreChunks | correlation/langchain_agents.py:264-278 | The LLM is called once per chunk of an eligible bucket and never otherwise |
| Semantic.SingleSourceNeverAsks | correlation/langchain_agents.py:269-275 | Events of one source system get no semantic edge, whatever the LLM would answer |
| Semantic.NegativeWidthNeverAsks | correlation/langchain_agents.py:231-268 | With a negative bucket width there is no semantic edge either |
| Semantic.CallsAreBounded | correlation/langchain_agents.py:254-278 | With k eligible buckets of n events there are at most k + (n - k) / batch size LLM calls |
| Semantic.EligibleCounts | correlation/langchain_agents.py:264-275 | The two numbers of that bound count the buckets that mix sources, and the events in them |
| Semantic.BucketsAreBounded | correlation/langchain_agents.py:220-238 | Of k >= 2 buckets, and of k >= 2 eligible ones, (k - 1) times the width is below the time the events span |
| Pipeline.RunCorrelation | correlation/pipeline.py:20-43 | Deterministic edges come first and are exactly the identifier matches; a semantic edge is in the result if and only if the LLM is to be used and answers with it for a chunk of the events left unlinked, one edge per accepted link and in order; without the LLM there is none; the statistics count both stages and the events left between them |
| Pipeline.UnlinkedYields | correlation/pipeline.py:25 | Left for the second stage are the events that are an end of no deterministic edge, each once and in input order |
| Pipeline.RunIsTold | correlation/pipeline.py:27-32 | An observer hears of those events bucket by bucket and chunk by chunk, and of nothing when the LLM is off or fewer than two are left |
| Pipeline.SecondStageSpec | correlation/pipeline.py:25-32 | Semantic edges join two different events that the first stage left unlinked, with enough confidence |
| Pipeline.StagesAreSeparate | correlation/pipeline.py:24-32 | Links of the first stage stay among the linked events, links of the second among the others |
| Pipeline.HybridSeparation | correlation/pipeline.py:24-34 | For every LLM, the incidents of a run are those of the first stage over the linked events and those of the second over the rest, and no set is both |
| Pipeline.NoMixedIncident | scenarios/README.md:146-152 | No incident touches both an identifier match and a semantic link |
| Pipeline.ChunkIsClosed | correlation/langchain_agents.py:281-300 | No accepted link leaves the chunk it was proposed for |
| Pipeline.SemanticIncidentExtent | correlation/langchain_agents.py:220-312 | For any settings, an incident with a semantic link has at most the batch size of events, and they lie within one bucket width |
| DeterministicExtent.DeterministicIncidentExtent | correlation/deterministic.py:40-43 | An incident of n identifier-matched events spans at most n - 1 windows |
| Pipeline.PureIncidentExtent | correlation/pipeline.py:24-34 | So does every incident of the whole pipeline that no semantic link touches |
| SharedIdentifier.EarlyIsClosed | correlation/deterministic.py:41-43 | A gap wider than the window in the time order lets no link across |
| SharedIdentifier.OneIncidentNeedsFittingGaps | correlation/deterministic.py:41-43 | Whatever identifiers they carry, events with a gap wider than the window are not one incident |
| SharedIdentifier.SingleIncidentIffGapsFit | correlation/deterministic.py:23-60 | Events that share an identifier form a single incident if and only if no two neighbours in time are more than a window apart |
| GeneratorIncidents.SharedIdentifierIsOneIncident | correlation/pipeline.py:24-34 | In that case they are one incident of the whole pipeline for every LLM |
| SharedIdentifier.ExtentIsAttained | correlation/deterministic.py:40-43 | For every n some n events form an incident that spans exactly n - 1 windows, so no constant bounds an incident's duration |
| Store.InsertEventsSpec | storage/relationship_store.py:47-50 | Saving events changes no stored row, and adds exactly the new ids, each with a row that was given |
| Store.InsertEdgesSpec | storage/relationship_store.py:68-71 | Saving edges changes no stored row, and adds exactly the new ids, each with a row that was given |
| Store.SavingAgainIsNoOp | storage/relationship_store.py:47-71 | Saving the same rows again leaves both tables as they are |
| Store.SavesNeverDisconnect | storage/relationship_store.py:53-72 | Events that are connected stay connected after any save |
| Store.RelationshipStore.constructor | storage/schema.sql:6-30 | A new store is empty |
| Store.RelationshipStore.SaveEvents | storage/relationship_store.py:30-51 | The event table becomes the old one with every absent id inserted; the edges stay |
| Store.RelationshipStore.SaveEdges | storage/relationship_store.py:53-72 | The absent edges are inserted, or none at all when one of them would break the foreign key |
| Store.RelationshipStore.LoadGraph | storage/relationship_store.py:74-100 | The graph has every stored event as node and, between two nodes, the data of one of the stored edges joining them, whatever order the rows come in |
| Store.GraphIncidents | storage/relationship_store.py:91-99 | Collapsing parallel and reversed edges into one graph edge changes no incident |
| Store.TimesSpec | storage/relationship_store.py:113-121 | First and last of the sorted times are the earliest and the latest time in the component |
| Store.RelationshipStore.Summarise | storage/relationship_store.py:111-123 | A summary has its component's events and size; a source system is named if and only if a stored event of the component has it; first and last time are the earliest and the latest of the component |
| Store.RelationshipStore.SummariseAll | storage/relationship_store.py:109-123 | One summary per component, in component order and numbered in that order |
| Store.RelationshipStore.ListIncidents | storage/relationship_store.py:102-125 | The listed incidents are exactly the components, each once, largest first and by number among equals, and their counts add up to the number of stored events |
| History.InsertFreshEdges | storage/relationship_store.py:68-71 | Edges under fresh ids add exactly their own links to the stored ones |
| History.StepSpec | main.py:56-67 | A run keeps the foreign key and every row, and the incidents become the old ones and the run's own, none in common |
| History.StepRows | main.py:63-64 | A run stores each of its events under its id and each edge of the run with all its fields under its own id, keeps every old row, and stores nothing else |
| History.HistoryIsSafe | main.py:41-67 | So does any sequence of runs with fresh ids: the incidents are the disjoint union of those before and each single run's own, and no later run merges, splits or changes one |
| History.Persist | main.py:63-67 | With events saved before edges the save succeeds, and the incidents listed are the old ones and the run's own |
| MainRun.Ingest | main.py:49-56 | Normalisation is of all extractors' records one after another |
| MainRun.StampedIsFresh | models/schema.py:47 | A supply of ids that never repeats nor hits a stored id makes a run fresh |
| MainRun.StampedComeFrom | main.py:49-61 | The events of a run correspond one to one to the extracted records that are accepted with a time in [lo, hi), each with its record's source, time, message and identifiers, in order of time and then of extraction |
| MainRun.RunOnce | main.py:41-67 | From records to incidents: the rows added are one event for each accepted record in the time range and one edge for each edge of the pipeline on them, with their fields and the ids supplied, and nothing else; the list is the old incidents and the run's own |
| LogLines.EntriesTileTheLog | extraction/db_log_extractor.py:233-245 | From the first header on every line is in exactly one entry, each entry starts with its only header, and before it there is no header |
| LogLines.GroupsGrow | harness/collector.py:4-11 | When a log grows by whole lines its earlier entries keep their lines and the last can only be continued |
| LogLines.SplitOfJoin | extraction/tomcat_extractor.py:93 | Joining lines at newlines and splitting the text again gives the lines back, when there is one and none holds a newline |
| LogLines.JoinOfSplit | extraction/db_log_extractor.py:226-229 | Splitting any text at its newlines and joining the parts gives the text back |
| TomcatExtractor.Feed | extraction/tomcat_extractor.py:94-123 | One line keeps the state exact: closed records of all entries before, and the open entry with its lines so far up to the cap |
| TomcatExtractor.ExtractFile | extraction/tomcat_extractor.py:81-129 | The loop with its final flush returns one record per headless line and one per entry, and they tile the file |
| TomcatExtractor.HeaderStarts | extraction/tomcat_extractor.py:41-43 | A header is a line that starts with a date and a time in one of the two formats, character by character |
| TomcatExtractor.RecordsTileTheFile | extraction/tomcat_extractor.py:81-129 | After the headless records the line ranges are contiguous, disjoint, ascending and end at the last line; the text of each record splits into its header and the first 499 non-blank lines behind it up to the next header, in order |
| TomcatExtractor.HeadlessHas | extraction/tomcat_extractor.py:112-123 | Every non-blank line before the first header is a record of its own |
| TomcatExtractor.HeadlessAre | extraction/tomcat_extractor.py:112-123 | And a headless record is nothing but such a line, with its line number |
| TomcatExtractor.HeadlessInOrder | extraction/tomcat_extractor.py:112-123 | Headless records come in line order, so no line has two |
| TomcatExtractor.RecordsGrow | harness/collector.py:4-11 | Parsing a longer file keeps every earlier record, and only the last can gain lines |
| PostgresHeader.HeaderIsRead | extraction/db_log_extractor.py:163-165 | A header written in the log's prefix format is recognised, and its time, zone, process id, level and text are read back |
| PostgresHeader.HeaderTextIsRead | extraction/db_log_extractor.py:163-165 | The same when the white space behind the colon is another one or missing |
| PostgresHeader.HeaderMeans | extraction/db_log_extractor.py:163-165 | Conversely a recognised line is a header written from exactly the parts read, with at most one white space behind the colon |
| PostgresHeader.TimestampMeans | extraction/db_log_extractor.py:163-165 | The timestamp of a header is a date and a time with milliseconds, character by character |
| PostgresExtractor.ParseLog | extraction/db_log_extractor.py:212-247 | The loop with its final flush returns one record per header, with the lines up to the next header |
| PostgresExtractor.RestIsRead | extraction/db_log_extractor.py:233-244 | Putting an entry in front of a log puts its record in front of the log's records |
| PostgresExtractor.LogRoundTrip | extraction/db_log_extractor.py:163-247 | Writing any entries whose continuation lines are no headers and parsing the text gives the entries back |
| PostgresExtractor.NothingIsLost | extraction/db_log_extractor.py:233-247 | For any text the records' message lines are the text from the first header on, with the prefixes taken off the headers |
| PostgresExtractor.MessageSplits | extraction/db_log_extractor.py:226-229 | The message of a record splits at newlines into the text of its header line and its continuation lines |
| PostgresExtractor.EntriesGrow | harness/collector.py:4-11 | Parsing a longer log keeps every earlier record, and only the last message can gain lines |
| Normalizer.Normalize | normalization/normalizer.py:191-216 | The result is the stable time order of the events that a normaliser produced inside the window |
| Normalizer.NormalizedMembers | normalization/normalizer.py:196-214 | It is sorted by time and holds exactly the events kept |
| Normalizer.NormalizedYields | normalization/normalizer.py:191-216 | There is one event for every record that a normaliser accepts with a time inside the window, in order of time and, at equal times, of the records |
| Normalizer.FindTimestampSpec | normalization/normalizer.py:75-79 | The timestamp of a Tomcat record is the text that the pattern covers at the leftmost position where one fits |
| Normalizer.NormalizedRecordSpec | normalization/normalizer.py:73-178 | A record becomes an event of its own source, text and time, with the identifiers found in that text, and none only when no time can be read |
| Normalizer.WindowSplits | normalization/normalizer.py:191-216 | Normalising [s, e) is normalising [s, m) and then [m, e), as sequences |
| Normalizer.TimestampStays | normalization/normalizer.py:75-79 | Lines appended to a record with a header do not change the timestamp found in it |
| Normalizer.ContinuedEvent | normalization/normalizer.py:73-178 | A continued record gives an event of the same source and time whose message only got longer |
| Scenario.ContainsGrows | harness/collector.py:54-55 | A selector that matches a message matches its continuations |
| Scenario.ContainsMeans | harness/collector.py:54-55 | A message contains a needle if and only if the needle stands at some position of it |
| Scenario.SelectsMeans | harness/collector.py:54-55 | A selector takes a message of its source in which its needle stands somewhere |
| Collector.TomcatRecordStays | harness/collector.py:59 | Every record of the Tomcat files is still there, perhaps continued, when the files have grown |
| Collector.PostgresRecordStays | harness/collector.py:60 | Every record of the Postgres log is still there, perhaps continued, when the log has grown |
| Collector.FoundStays | harness/collector.py:54-61 | A step found in the logs is found after they have grown |
| Collector.MissingYields | harness/collector.py:54-61 | Missing are exactly the ids of the steps that emit and that no event matches, in step order |
| Collector.ExtractedYields | harness/collector.py:57-61 | One event is extracted for every record of a Tomcat file or of the Postgres log that is normalised to a time from the start of the run on, in order of time |
| Collector.NothingEarlier | harness/collector.py:57-61 | No extracted event is before the start of the run |
| Collector.Collect | harness/collector.py:64-90 | It returns one extraction after the first poll that missed no anchor, or raises past the deadline with exactly the steps missing at the last poll; every earlier poll missed an anchor before the deadline, so there are at most ceil(timeout / interval) + 1 polls |
| Collector.CollectedAnchorsAreFound | harness/collector.py:71-90 | With growing logs every anchor has a match in the events returned after the settle pass |
| CollectedAnchors.UnresolvedIsAmbiguous | harness/scoring.py:36-40 | After a successful collection a step is unresolved only because it selects two events at different positions |
| CollectedAnchors.CollectAndResolve | harness/cli.py:69-82 | From logs that only grow, a case times out with the missing steps, or else every step that emits selects an event, is anchored to it when it selects no other, and is unresolved exactly when it selects two; the events are the collected ones, each with an id of its own |
| Scoring.ResolveAnchors | harness/scoring.py:25-41 | The loop anchors a step to the only event it selects and lists it as unresolved when it emits and selects none or two |
| Scoring.ResolutionIsExact | harness/scoring.py:25-41 | With distinct step ids a step is anchored if and only if there is one position whose event it selects, to that event, and unresolved if and only if it emits and selects no position or two |
| Scoring.ResolutionByEvent | harness/scoring.py:25-41 | In terms of the events, whose ids are distinct: anchored to e if and only if e is given, the step selects it and selects no other event; unresolved if and only if the step emits and selects no event or two different ones |
| Scoring.UnresolvedYields | harness/scoring.py:31-41 | The unresolved steps are listed in step order, each once |
| Scoring.AnchoredYields | harness/scoring.py:31-41 | The anchors are in step order |
| Scoring.MatchCount | harness/scoring.py:36-37 | The number of matches is 1 exactly when one position is selected, 0 exactly when none is and more exactly when two are |
| Scoring.NodeOrder | harness/scoring.py:177-181 | The scorer's graph has every event and every end of an edge as node |
| Scoring.ComponentsByEvent | harness/scoring.py:177-187 | Every node of the graph, and nothing else, is mapped to the set of nodes connected to it |
| Scoring.ScoreIncidents | harness/scoring.py:174-223 | Each expected incident is judged, in order, on the connected components of the graph of the events and edges given |
| Scoring.Score | harness/scoring.py:71-171 | The loop over the edges yields the observed pairs, last relation winning, and the contamination in edge order; from them come the edge scores, and the incidents are judged on the components |
| ScoringTheorems.ObservedSpec | harness/scoring.py:97-105 | A pair of steps is observed exactly when an edge joins their anchors, with the relation of one such edge |
| ScoringTheorems.ContaminationSpec | harness/scoring.py:106-109 | Contamination is exactly the edges with one anchored end, anchor first |
| PipelineScores.PipelineRelationsAgree | correlation/pipeline.py:24-34 | For every LLM, two pipeline edges between the same events have the same relation, even when the LLM repeats a pair |
| ScoringTheorems.SamePairSameEvents | harness/scoring.py:88 | Edges that show the same pair of steps join the same two events, also when two steps share an anchor |
| PipelineScores.ScoreIsOrderFree | harness/scoring.py:97-155 | Any reordering of a pipeline's edges leaves every part of the edge score and the components unchanged, and the contamination up to its order |
| PipelineScores.ScorerSeesPipelineIncidents | harness/scoring.py:177-187 | On pipeline output the scorer's nodes are the events, and the components it finds are exactly the incidents of the run |
| ScoreFigures.PairsMean | harness/scoring.py:114-143 | A pair is a true positive if and only if an expected edge names it and an edge shows it, a false negative if named and not shown, and so on for false positives, and forbidden and observed if and only if it is forbidden and some edge shows it |
| ScoreFigures.MismatchMeans | harness/scoring.py:145-149 | A pair is a stage mismatch if and only if it is a true positive and the last edge showing it has another relation than the last expected edge naming it |
| ScoreFigures.MismatchOfAgreeing | harness/scoring.py:145-149 | When the edges of a pair agree on the relation, any edge showing the pair decides |
| PipelineScores.PipelineMismatch | harness/scoring.py:145-149 | On pipeline output a pair is a stage mismatch if and only if it is a true positive and some edge showing it has another relation than the last expected edge naming it |
| ScoreFigures.ContaminationYields | harness/scoring.py:106-109 | Every edge with one anchored end is listed once, in edge order, with the anchored end first |
| ScoreFigures.FiguresMean | harness/scoring.py:128-155 | Precision times the number of pairs found, and recall times the number of pairs expected, is the number of true positives; a figure is undefined, and then 1, exactly when there is nothing to divide by |
| ScoreFigures.WithinMeans | harness/scoring.py:78-87 | Two steps are inside one expected incident if and only if the last grouped incident listing the one and the last listing the other have the same members |
| ScoreFigures.JudgementMeans | harness/scoring.py:190-223 | A judgement repeats the members and the expectation; with a member that has no anchor it is ungrouped and without size; otherwise it has the size of the one component holding every anchor, if there is one, and is grouped when several members share one component or a lone one has company in its own |
| ScoringTheorems.PerfectScores | harness/scoring.py:114-155 | Recall is 1 exactly when nothing expected is missing, precision exactly when nothing wrong is observed, undefined cases included |
| ScoringTheorems.RelaxedModeForgives | harness/scoring.py:78-87 | The relaxed mode drops exactly the false positives inside an expected group that are not forbidden; precision can only rise and nothing else changes |
| ScoringTheorems.GroupedIffConnected | harness/scoring.py:190-213 | An expected incident of two or more anchored members is reported grouped if and only if edges connect every two of them |
| ScoringTheorems.IsolatedIffLinkless | harness/scoring.py:200-211 | A lone member is reported isolated, with component size 1, if and only if no edge joins its event to another event |
| ScoringTheorems.EdgeScoreImpliesGrouping | harness/scoring.py:174-223 | With no false negative, an expected incident of two or more anchored members that expected edges connect is reported grouped |
| ScoringTheorems.EdgeAtAnchorIsExpected | harness/scoring.py:97-143 | With no false positive and no contamination, every edge at an anchor is an expected one |
| ScoringTheorems.LoneStepIsIsolated | harness/scoring.py:204-211 | In exact mode with distinct anchors, no false positive and no contamination, a step without expected edges is reported isolated |
| Identifiers.ExtractIdentifiers | normalization/normalizer.py:39-47 | The loop over the five patterns fills the dictionary in pattern order |
| Identifiers.ExtractSpec | normalization/normalizer.py:39-47 | A key is found if and only if its pattern matches somewhere, with the leftmost match's value |
| Identifiers.SearchMeans | config.py:57-63 | What is found is written in the text as a keyword in any case, separators, and a value as long as the class allows, and no earlier position matches |
| IdentifierSearch.SearchIff | config.py:57-63 | A search finds a value if and only if the text has, at some position and at none before it, a keyword, separators and that value in full length; what stands at one position is one value only |
| IdentifierSearch.ExtractIff | normalization/normalizer.py:39-47 | The extracted dictionary has a value under a name if and only if the pattern of that name denotes it first in the text |
| IdentifierSearch.ExtractedInOrder | normalization/normalizer.py:39-47 | The names found come in the order of the patterns, each once |
| Identifiers.MatchWordExtend | config.py:57-63 | Appending text that starts with no letter, digit, underscore or hyphen changes no keyword match |
| Identifiers.UnexposedNoSearch | config.py:57-63 | A text in which no keyword is followed by a separator or the end has no match |
| Identifiers.UnexposedJoin | config.py:57-63 | Joining such texts at a character no keyword contains creates no keyword |
| Composer.Sanitize | cloudwatch-log-generator/src/main/java/com/coderoad/logs/generator/RandomLogValues.java:220-229 | Replacing, then padding in a loop to eight characters |
| Composer.AliasIsWellFormed | cloudwatch-log-generator/src/main/java/com/coderoad/logs/generator/RandomLogValues.java:212-229 | An alias of any value, null included, has at least eight characters, all allowed |
| Composer.AliasAt | cloudwatch-log-generator/src/main/java/com/coderoad/logs/generator/RandomLogValues.java:220-229 | Character by character an alias is the value with a hyphen for what is not allowed, filled up to eight characters with zeros |
| Composer.WellFormedIsOwnAlias | cloudwatch-log-generator/src/main/java/com/coderoad/logs/generator/RandomLogValues.java:220-229 | A well-formed value is its own alias, so sanitising twice is sanitising once |
| Composer.Compose | cloudwatch-log-generator/src/main/java/com/coderoad/logs/generator/LogEventComposer.java:23-64 | Appending piece by piece yields the narrative, the verbatim fields, the alias block and the error code, or the narrative alone |
| Tokens.TokenLaw | config.py:57-63 | Wherever a keyword token stands, the search returns what the text ahead of its '=' already holds, and otherwise the token's whole value |
| Fields.FieldsLaw | config.py:57-63 | In a text with any number of tokens the first field decides that holds anything, each field being read only up to the key behind it; when none does, the token meant for the identifier decides |
| Fields.KeywordSuffixHolds | config.py:57-63 | A field that ends in a keyword holds something, and the key behind it if it has word characters only |
| Tokens.BareWordIsSilent | config.py:57-63 | A keyword-free text followed by a bare key holds nothing |
| RoundTrip.MessageIsWritten | cloudwatch-log-generator/src/main/java/com/coderoad/logs/generator/LogEventComposer.java:39-63 | The message is the base text and the tokens of the verbatim fields, the error code, the aliases and the error code again |
| RoundTrip.PlainMessageIsWritten | cloudwatch-log-generator/src/main/java/com/coderoad/logs/generator/LogEventComposer.java:30-47 | Without aliases the message is the base text and the tokens of the verbatim fields and the error code; an identifier-free message is the base text alone |
| RoundTrip.AliasLaw | cloudwatch-log-generator/src/main/java/com/coderoad/logs/generator/LogEventComposer.java:39-61 | For every input, what is extracted under a key is what the first field ahead of its token holds that holds anything, and otherwise the sanitised value |
| RoundTrip.RoundTripIffNotPreempted | cloudwatch-log-generator/src/main/java/com/coderoad/logs/generator/LogEventComposer.java:39-63 | For every input, the extractor returns exactly the meant identifiers if and only if an error code is well formed and, key by key, the first field that holds anything holds the meant value, no field holding an error code when there is none |
| RoundTrip.CleanMessagesRoundTrip | cloudwatch-log-generator/src/main/java/com/coderoad/logs/generator/LogEventComposer.java:39-63 | With keyword-free parts and a well-formed error code, exactly the sanitised transaction id (twice), user and component, and the error code if there is one, are read back |
| RoundTrip.IdentifierFreeIsNarrative | cloudwatch-log-generator/src/main/java/com/coderoad/logs/generator/LogEventComposer.java:30-37 | An identifier-free message of a keyword-free narrative yields no identifier at all, whatever the other settings |
| AliasLeaks.SvcSuffixHidesComponent | cloudwatch-log-generator/src/main/java/com/coderoad/logs/generator/RandomLogValues.java:212-219 | For any user name ending in "svc" one service name is read for all component ids and error codes, so at most one component's alias is read back |
| AliasLeaks.SvcSuffixLeaks | cloudwatch-log-generator/src/main/java/com/coderoad/logs/generator/RandomLogValues.java:212-219 | When such a user name has word characters only and nothing ahead of it holds a service name, "componentId" is read as the service name |
| AliasLeaks.StatusSuffixLeaks | cloudwatch-log-generator/src/main/java/com/coderoad/logs/generator/LogEventComposer.java:39-46 | For any component id ending in "status" an error code is read that does not depend on the code there is, so the round trip fails without a code and for all codes but one |
| AliasLeaks.StatusSuffixReadsKey | cloudwatch-log-generator/src/main/java/com/coderoad/logs/generator/LogEventComposer.java:39-46 | In the plain case the code read is "errorCode" when there is a code and "trace_id" when there is none |
| GeneratorIncidents.ComposedCarriesAlias | cloudwatch-log-generator/src/main/java/com/coderoad/logs/generator/LogEventComposer.java:48-56 | An event of a composed message carries every alias that is not pre-empted in it |
| GeneratorIncidents.GeneratorEdgesAreDeterministic | correlation/langchain_agents.py:269-275 | Events of the generator come from one source, so for every LLM the pipeline only draws deterministic edges |
| GeneratorIncidents.CorrelatedModeIsOneIncident | cloudwatch-log-generator/README.md:85-88 | For every LLM, events composed with one alias that no message pre-empts are a single incident of the pipeline if and only if neighbours in time are within the window |
| GeneratorIncidents.WideGapAlwaysSplits | cloudwatch-log-generator/README.md:85-88 | Whatever their messages are, events of the generator with a wider gap are not a single incident |
| GeneratorIncidents.LateMessageIsApart | cloudwatch-log-generator/README.md:85-88 | Two messages composed with the same values, read back without fault and one tick more than a window apart, are not a single incident |
| CorrelationConfig.StepKeepsConsistency | cloudwatch-log-generator/src/main/java/com/coderoad/logs/config/CorrelationConfig.java:92-97 | No step of any thread breaks: nothing is returned before the cache is set, everything returned is what it holds, and it holds a supplied value |
| CorrelationConfig.AllReturnsAgree | cloudwatch-log-generator/src/main/java/com/coderoad/logs/config/CorrelationConfig.java:92-97 | For any number of threads and any interleaving with failed swaps, all returned values are the same one, which the supplier made |
| CorrelationConfig.CacheIsStable | cloudwatch-log-generator/src/main/java/com/coderoad/logs/config/CorrelationConfig.java:92-97 | Once set, the cache never changes |
| CorrelationConfig.SupplierMayRunTwice | cloudwatch-log-generator/src/main/java/com/coderoad/logs/config/CorrelationConfig.java:96 | Two threads can both run the supplier, and the loser returns the winner's value |
| GraphBuilder.BuildGraphJson | visualization/graph_builder.py:118-133 | The nodes in the given set and the edges with both ends in it, in graph order; all of them without a set |
| GraphBuilder.ViewShows | visualization/graph_builder.py:118-133 | A view lists, in graph order and once each, the nodes asked for and the edges with both ends among them, and everything when nothing is asked for |
| GraphBuilder.IncidentViewsLoseNothing | visualization/graph_builder.py:118-133 | The views of all incidents of one snapshot together show every node and every edge of the graph exactly once |

## Left out

- Prompts, providers and the text sent to the LLM; the rationale an edge carries is the link's own text.
- Cloud, database and HTTP clients, SQL itself, the web page, the command line: input, output and user interface.
- Read errors and encodings: a file or log is a list of lines without their line ends, and reading it succeeds. During one
  `collect` the set of Tomcat files is fixed, and logs are neither rotated nor written in parts of a line.
- Regular expressions and dates in general: headers and the five identifier patterns are modelled in ASCII, and a date
  parser is an arbitrary function of the matched text.
- Fields that only travel along: level, host, origin and ingestion time of an event, the creation time of an edge.
- Normalisers of the sources the harness does not read; `Normalizer.Normalize` takes any normaliser.
- The order of `graph.edges` and which end of an undirected edge comes first.
- The order in which a database returns rows: `IsGraphOf` admits every order, so incident numbers depend on it and
  nothing else does.
- First and last time of an incident are compared as times; the program compares their ISO strings in one time zone.
- The display attributes of nodes and edges, such as colours and sizes.
- A configured, non-blank value of the generator's configuration, which `resolve` returns before it looks at the cache.
- `min_confidence` of an expected edge, which the scorer never reads.
- Rounding and NaN in confidences and scores.
- Random value pools and synthetic exceptions of the generator.
- Collector.Collect: with an interval of 0 it is the clock alone that brings the deadline, so the clock is asked to reach
  it; a negative interval, which makes `time.sleep` raise, is not modelled.
- GeneratorIncidents.CorrelatedModeIsOneIncident: asks for an alias that is pre-empted in no message. When each alias is
  pre-empted somewhere, what is read instead decides which events link, and only GeneratorIncidents.WideGapAlwaysSplits
  is promised.
- RoundTrip.CleanMessagesRoundTrip: is one way; the exact condition is RoundTrip.RoundTripIffNotPreempted.
