/** Anchor resolution on what the collector returned: the only way to fail is an ambiguous selector. */
module CollectedAnchors {
  import opened Schema
  import opened Scenario
  import opened Normalizer
  import opened Collector
  import opened Scoring

  /** Collected events with the ids they were given when they were normalised. */
  function Stamped(newId: nat -> EventId, bodies: seq<EventBody>): seq<LogEvent> {
    seq(|bodies|, i requires 0 <= i < |bodies| => Stamp(newId(i), bodies[i]))
  }

  /** Every body has become an event with an id of its own, at the same place. */
  ghost predicate AreStamped(events: seq<LogEvent>, newId: nat -> EventId, bodies: seq<EventBody>) {
    |events| == |bodies|
    && forall i :: 0 <= i < |bodies| ==>
      events[i] == LogEvent(newId(i), bodies[i].source, bodies[i].timestamp, bodies[i].message, bodies[i].identifiers)
  }

  lemma FoundIsSelected(step: Step, newId: nat -> EventId, bodies: seq<EventBody>)
    requires Found(step, bodies)
    ensures !SelectsNone(step, Stamped(newId, bodies))
  {
    var b :| b in bodies && Selects(step.emits.value, b.source, b.message);
    var i: nat :| i < |bodies| && bodies[i] == b;
    assert Stamped(newId, bodies)[i] == Stamp(newId(i), b);
    assert SelectedAt(step, Stamped(newId, bodies), i);
  }

  /** A case either times out with the steps that never landed, or has its steps resolved. */
  datatype CaseOutcome =
    | Timeout(missing: seq<string>)
    | Resolved(events: seq<LogEvent>, anchors: Anchors, unresolved: seq<string>)

  /** Logs only grow from one extraction to the next. */
  ghost predicate AlwaysGrow(snaps: nat -> Snapshot) {
    forall k: nat :: GrowAt(snaps, k)
  }

  ghost predicate GrowAt(snaps: nat -> Snapshot, k: nat) {
    Grown(snaps(k), snaps(k + 1))
  }

  /** Every step that emits selects an event; it is anchored to it when it selects no other, and unresolved when it
      selects two. */
  ghost predicate OnlyAmbiguous(steps: seq<Step>, events: seq<LogEvent>, anchors: Anchors, unresolved: seq<string>) {
    forall s :: s in steps && s.emits.Some? ==>
      !SelectsNone(s, events)
      && (s.id in unresolved <==> SelectsTwo(s, events))
      && forall i: nat :: OnlyAt(s, events, i) ==> s.id in anchors.values && anchors.values[s.id] == events[i]
  }

  lemma FoundAreOnlyAmbiguous(steps: seq<Step>, bodies: seq<EventBody>, newId: nat -> EventId)
    requires DistinctSteps(steps) && AllFound(steps, bodies)
    ensures var events := Stamped(newId, bodies);
      OnlyAmbiguous(steps, events, Anchored(steps, events), Unresolved(steps, events))
  {
    var events := Stamped(newId, bodies);
    forall s | s in steps && s.emits.Some?
      ensures !SelectsNone(s, events)
      ensures Resolves(s, events, Anchored(steps, events), Unresolved(steps, events))
    {
      FoundIsSelected(s, newId, bodies);
      ResolutionIsExact(steps, events, s);
    }
  }

  ghost predicate AllFound(steps: seq<Step>, bodies: seq<EventBody>) {
    forall s :: s in steps && s.emits.Some? ==> Found(s, bodies)
  }

  /** Extraction k reads the logs as they are at that moment. */
  ghost predicate Extracts(extract: nat -> seq<EventBody>, snaps: nat -> Snapshot, runStart: int, parse: DateParser) {
    forall k: nat :: ExtractsAt(extract, snaps, runStart, parse, k)
  }

  ghost predicate ExtractsAt(extract: nat -> seq<EventBody>, snaps: nat -> Snapshot, runStart: int, parse: DateParser,
      k: nat)
  {
    extract(k) == ExtractAll(snaps(k), runStart, parse)
  }

  /** Once no anchor is missing, the next extraction still finds them all. */
  lemma NextFindsAll(steps: seq<Step>, extract: nat -> seq<EventBody>, snaps: nat -> Snapshot, runStart: int,
      parse: DateParser, k: nat)
    requires Extracts(extract, snaps, runStart, parse) && AlwaysGrow(snaps) && Missing(steps, extract(k)) == []
    ensures AllFound(steps, extract(k + 1))
  {
    assert GrowAt(snaps, k);
    assert ExtractsAt(extract, snaps, runStart, parse, k) && ExtractsAt(extract, snaps, runStart, parse, k + 1);
    CollectedAnchorsAreFound(steps, runStart, parse, snaps(k), snaps(k + 1));
  }

  /** After a successful collection an unresolved step selects two events. */
  lemma UnresolvedIsAmbiguous(steps: seq<Step>, extract: nat -> seq<EventBody>, snaps: nat -> Snapshot, runStart: int,
      parse: DateParser, newId: nat -> EventId, k: nat, s: Step)
    requires DistinctSteps(steps) && s in steps
    requires Extracts(extract, snaps, runStart, parse) && AlwaysGrow(snaps) && Missing(steps, extract(k)) == []
    requires s.id in Unresolved(steps, Stamped(newId, extract(k + 1)))
    ensures s.emits.Some? && SelectsTwo(s, Stamped(newId, extract(k + 1)))
  {
    NextFindsAll(steps, extract, snaps, runStart, parse, k);
    ResolutionIsExact(steps, Stamped(newId, extract(k + 1)), s);
    FoundIsSelected(s, newId, extract(k + 1));
  }

  /** Collects the events of a case from logs that only grow, and resolves its steps. */
  method CollectAndResolve(steps: seq<Step>, timeout: int, interval: nat, extract: nat -> seq<EventBody>,
      clock: nat -> int, newId: nat -> EventId, ghost snaps: nat -> Snapshot, ghost runStart: int,
      ghost parse: DateParser)
    returns (outcome: CaseOutcome, polls: nat)
    requires DistinctSteps(steps) && AlwaysGrow(snaps) && Extracts(extract, snaps, runStart, parse)
    requires SleepsLast(clock, interval) && (interval == 0 ==> DeadlineComes(clock, timeout))
    ensures polls >= 1
    ensures outcome.Timeout? ==> outcome.missing == Missing(steps, extract(polls - 1)) && outcome.missing != []
    ensures outcome.Resolved? ==>
      AreStamped(outcome.events, newId, extract(polls))
      && outcome.anchors == Anchored(steps, outcome.events)
      && outcome.unresolved == Unresolved(steps, outcome.events)
      && OnlyAmbiguous(steps, outcome.events, outcome.anchors, outcome.unresolved)
  {
    var collected;
    collected, polls := Collect(steps, timeout, interval, extract, clock);
    if collected.TimedOut? {
      return Timeout(collected.missing), polls;
    }
    NextFindsAll(steps, extract, snaps, runStart, parse, polls - 1);
    var events := Stamped(newId, collected.events);
    var anchors, unresolved := ResolveAnchors(events, steps);
    FoundAreOnlyAmbiguous(steps, collected.events, newId);
    outcome := Resolved(events, anchors, unresolved);
  }
}
