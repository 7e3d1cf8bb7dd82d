/** The harness's poll-until-anchors-resolve loop (harness/collector.py). */
module Collector {
  import opened Options
  import opened Collections
  import opened Selections
  import opened Schema
  import opened Scenario
  import TomcatExtractor
  import PostgresHeader
  import PostgresExtractor
  import opened Normalizer

  /** What the two sources hold at one moment: the Tomcat files, and the Postgres log. */
  datatype Snapshot = Snapshot(tomcat: seq<seq<string>>, postgres: seq<string>)

  function TomcatRecords(files: seq<seq<string>>): seq<RawRecord> {
    if files == [] then []
    else
      var records := TomcatExtractor.Records(files[0]);
      seq(|records|, i requires 0 <= i < |records| => FromTomcat(records[i])) + TomcatRecords(files[1..])
  }

  function PostgresRecords(lines: seq<string>): seq<RawRecord> {
    var entries := PostgresExtractor.Entries(PostgresHeader.ParseHeader, lines);
    seq(|entries|, i requires 0 <= i < |entries| => FromPostgres(entries[i]))
  }

  function AllRecords(s: Snapshot): seq<RawRecord> {
    TomcatRecords(s.tomcat) + PostgresRecords(s.postgres)
  }

  function ExtractAll(s: Snapshot, runStart: int, parse: DateParser): seq<EventBody> {
    Normalized(HarnessNormalizer(parse), AllRecords(s), Some(runStart), None)
  }

  predicate Found(step: Step, events: seq<EventBody>) {
    step.emits.Some? && exists e :: e in events && Selects(step.emits.value, e.source, e.message)
  }

  /** The ids of the anchor steps that no event matches, in step order. */
  function Missing(steps: seq<Step>, events: seq<EventBody>): seq<string> {
    if steps == [] then []
    else
      (if steps[0].emits.Some? && !Found(steps[0], events) then [steps[0].id] else []) + Missing(steps[1..], events)
  }

  lemma {:induction false} MissingNone(steps: seq<Step>, events: seq<EventBody>)
    ensures Missing(steps, events) == [] <==> forall s :: s in steps && s.emits.Some? ==> Found(s, events)
  {
    if steps == [] {
    } else {
      MissingNone(steps[1..], events);
      assert steps == [steps[0]] + steps[1..];
    }
  }

  /** What a step that nothing matches contributes to the list of missing ones. */
  function Awaited(events: seq<EventBody>): Step -> Option<string> {
    (s: Step) => if s.emits.Some? && !Found(s, events) then Some(s.id) else None
  }

  /** Missing are exactly the ids of the steps that emit and that no event matches, in step order. */
  lemma {:induction false} MissingYields(steps: seq<Step>, events: seq<EventBody>) returns (at: seq<nat>)
    ensures Yields(Awaited(events), steps, Missing(steps, events), at)
    decreases |steps|
  {
    if steps == [] {
      at := [];
    } else {
      var init, last := steps[..|steps| - 1], steps[|steps| - 1];
      at := MissingYields(init, events);
      YieldsSnoc(Awaited(events), init, Missing(init, events), at, last);
      assert init + [last] == steps;
      MissingConcat(init, [last], events);
      assert Missing([last], events) == if Awaited(events)(last).Some? then [last.id] else [];
      at := if Awaited(events)(last).Some? then at + [|init|] else at;
    }
  }

  lemma {:induction false} MissingConcat(a: seq<Step>, b: seq<Step>, events: seq<EventBody>)
    ensures Missing(a + b, events) == Missing(a, events) + Missing(b, events)
  {
    if a == [] {
      assert a + b == b;
    } else {
      assert (a + b)[1..] == a[1..] + b;
      MissingConcat(a[1..], b, events);
    }
  }

  // ---- What is extracted ----

  /** The records file by file, those of the Postgres log last. */
  ghost predicate RecordsBySource(s: Snapshot, pieces: seq<seq<RawRecord>>) {
    |pieces| == |s.tomcat| + 1
    && (forall i :: 0 <= i < |s.tomcat| ==> WrapTomcat(TomcatExtractor.Records(s.tomcat[i]), pieces[i]))
    && WrapPostgres(PostgresExtractor.Entries(PostgresHeader.ParseHeader, s.postgres), pieces[|s.tomcat|])
  }

  ghost predicate WrapTomcat(records: seq<TomcatExtractor.Record>, piece: seq<RawRecord>) {
    |piece| == |records| && forall k :: 0 <= k < |records| ==> piece[k] == FromTomcat(records[k])
  }

  ghost predicate WrapPostgres(entries: seq<PostgresExtractor.Entry>, piece: seq<RawRecord>) {
    |piece| == |entries| && forall k :: 0 <= k < |entries| ==> piece[k] == FromPostgres(entries[k])
  }

  lemma {:induction false} TomcatRecordsAre(files: seq<seq<string>>) returns (pieces: seq<seq<RawRecord>>)
    ensures |pieces| == |files| && TomcatRecords(files) == Flatten(pieces)
    ensures forall i :: 0 <= i < |files| ==> WrapTomcat(TomcatExtractor.Records(files[i]), pieces[i])
  {
    if files == [] {
      pieces := [];
    } else {
      var records := TomcatExtractor.Records(files[0]);
      var rest := TomcatRecordsAre(files[1..]);
      var first := seq(|records|, i requires 0 <= i < |records| => FromTomcat(records[i]));
      pieces := [first] + rest;
      assert pieces[1..] == rest;
      forall i | 0 <= i < |files|
        ensures WrapTomcat(TomcatExtractor.Records(files[i]), pieces[i])
      {
        assert i > 0 ==> files[i] == files[1..][i - 1];
      }
    }
  }

  /** One event for every record of a Tomcat file or the Postgres log that is normalised to a time from the start of the
      run on, in order of time. */
  lemma ExtractedYields(s: Snapshot, runStart: int, parse: DateParser)
    returns (pieces: seq<seq<RawRecord>>, at: seq<nat>)
    ensures RecordsBySource(s, pieces)
    ensures YieldsByKey(BodyTime, Accepted(HarnessNormalizer(parse), Some(runStart), None), Flatten(pieces),
                        ExtractAll(s, runStart, parse), at)
  {
    var tomcat := TomcatRecordsAre(s.tomcat);
    pieces := tomcat + [PostgresRecords(s.postgres)];
    FlattenSnoc(tomcat, PostgresRecords(s.postgres));
    at := NormalizedYields(HarnessNormalizer(parse), AllRecords(s), Some(runStart), None);
  }

  /** Nothing that is extracted happened before the run started. */
  lemma NothingEarlier(s: Snapshot, runStart: int, parse: DateParser, e: EventBody)
    requires e in ExtractAll(s, runStart, parse)
    ensures e.timestamp >= runStart
  {
    NormalizedMembers(HarnessNormalizer(parse), AllRecords(s), Some(runStart), None);
    KeptInWindow(HarnessNormalizer(parse), AllRecords(s), Some(runStart), None, e);
  }

  // ---- Growing logs ----

  /** Logs only grow, by whole lines. */
  ghost predicate Grown(a: Snapshot, b: Snapshot) {
    |a.tomcat| == |b.tomcat| && (forall i :: 0 <= i < |a.tomcat| ==> a.tomcat[i] <= b.tomcat[i])
    && a.postgres <= b.postgres
  }

  lemma {:induction false} TomcatRecordStays(a: seq<seq<string>>, b: seq<seq<string>>, r: RawRecord)
    returns (later: RawRecord)
    requires |a| == |b| && forall i :: 0 <= i < |a| ==> a[i] <= b[i]
    requires r in TomcatRecords(a)
    ensures later in TomcatRecords(b) && Continues(r, later)
    decreases |a|
  {
    var old_, new_ := TomcatExtractor.Records(a[0]), TomcatExtractor.Records(b[0]);
    TomcatExtractor.RecordsGrow(a[0], b[0]);
    if k :| 0 <= k < |old_| && r == FromTomcat(old_[k]) {
      later := FromTomcat(new_[k]);
      assert later == TomcatRecords(b)[k];
    } else {
      later := TomcatRecordStays(a[1..], b[1..], r);
    }
  }

  lemma PostgresRecordStays(a: seq<string>, b: seq<string>, r: RawRecord) returns (later: RawRecord)
    requires a <= b && r in PostgresRecords(a)
    ensures later in PostgresRecords(b) && Continues(r, later)
  {
    var old_ := PostgresExtractor.Entries(PostgresHeader.ParseHeader, a);
    var new_ := PostgresExtractor.Entries(PostgresHeader.ParseHeader, b);
    PostgresExtractor.EntriesGrow(PostgresHeader.ParseHeader, a, b);
    var k :| 0 <= k < |old_| && r == FromPostgres(old_[k]);
    later := FromPostgres(new_[k]);
    assert later == PostgresRecords(b)[k];
  }

  lemma RecordStays(a: Snapshot, b: Snapshot, r: RawRecord) returns (later: RawRecord)
    requires Grown(a, b) && r in AllRecords(a)
    ensures later in AllRecords(b) && Continues(r, later)
  {
    if r in TomcatRecords(a.tomcat) {
      later := TomcatRecordStays(a.tomcat, b.tomcat, r);
    } else {
      later := PostgresRecordStays(a.postgres, b.postgres, r);
    }
  }

  /** An anchor found in the logs is still found after they have grown. */
  lemma FoundStays(a: Snapshot, b: Snapshot, runStart: int, parse: DateParser, step: Step)
    requires Grown(a, b) && Found(step, ExtractAll(a, runStart, parse))
    ensures Found(step, ExtractAll(b, runStart, parse))
  {
    var n := HarnessNormalizer(parse);
    NormalizedMembers(n, AllRecords(a), Some(runStart), None);
    NormalizedMembers(n, AllRecords(b), Some(runStart), None);
    var e :| e in ExtractAll(a, runStart, parse) && Selects(step.emits.value, e.source, e.message);
    KeptInWindow(n, AllRecords(a), Some(runStart), None, e);
    var r :| r in AllRecords(a) && n(r) == Some(e);
    var later := RecordStays(a, b, r);
    ContinuedEvent(parse, r, later);
    KeptHas(n, AllRecords(b), Some(runStart), None, later);
    var f := n(later).value;
    ContainsGrows(step.emits.value.messageContains, e.message, f.message);
    assert f in ExtractAll(b, runStart, parse);
  }

  // ---- The polling loop ----

  datatype Outcome = Collected(events: seq<EventBody>) | TimedOut(missing: seq<string>)

  ghost predicate SleepLasts(clock: nat -> int, interval: nat, k: nat) {
    clock(k) + interval <= clock(k + 1)
  }

  /** `clock(0)` is the monotonic clock before the loop and `clock(k + 1)` its reading at the deadline check of poll k;
      between two checks lies a sleep of at least `interval`. */
  ghost predicate SleepsLast(clock: nat -> int, interval: nat) {
    clock(0) <= clock(1) && forall k: nat :: k >= 1 ==> SleepLasts(clock, interval, k)
  }

  lemma {:induction false} ClockAdvances(clock: nat -> int, interval: nat, k: nat)
    requires SleepsLast(clock, interval)
    ensures clock(k + 1) >= clock(0) + k * interval
  {
    if k == 0 {
    } else {
      ClockAdvances(clock, interval, k - 1);
      assert SleepLasts(clock, interval, k);
      assert k * interval == (k - 1) * interval + interval;
    }
  }

  lemma {:induction false} ClockNeverGoesBack(clock: nat -> int, interval: nat, k: nat, l: nat)
    requires SleepsLast(clock, interval) && k <= l
    ensures clock(k) <= clock(l)
  {
    if k == l {
    } else {
      ClockNeverGoesBack(clock, interval, k, l - 1);
      assert l - 1 >= 1 ==> SleepLasts(clock, interval, l - 1);
    }
  }

  /** The deadline is passed at some check; without sleeping that is up to the clock alone. */
  ghost predicate DeadlineComes(clock: nat -> int, timeout: int) {
    exists k: nat :: clock(k) >= clock(0) + timeout
  }

  lemma SleepingBringsDeadline(clock: nat -> int, interval: nat, timeout: int)
    requires interval > 0 && SleepsLast(clock, interval)
    ensures DeadlineComes(clock, timeout)
  {
    if timeout <= 0 {
      assert clock(0) >= clock(0) + timeout;
    } else {
      ClockAdvances(clock, interval, timeout);
      assert timeout * interval >= timeout;
      assert clock(timeout + 1) >= clock(0) + timeout;
    }
  }

  /** Poll k missed an anchor before the deadline. */
  ghost predicate InVain(steps: seq<Step>, extract: nat -> seq<EventBody>, clock: nat -> int, timeout: int, k: nat) {
    Missing(steps, extract(k)) != [] && clock(k + 1) < clock(0) + timeout
  }

  /** `extract(k)` is what `extract_all` returns at poll k. Returns the events of one more extraction after the first
      poll at which every anchor was found, or the anchors that were missing at the last poll. There are at most
      ceil(timeout / interval) + 1 polls. */
  method Collect(steps: seq<Step>, timeout: int, interval: nat, extract: nat -> seq<EventBody>, clock: nat -> int)
    returns (outcome: Outcome, polls: nat)
    requires SleepsLast(clock, interval) && (interval == 0 ==> DeadlineComes(clock, timeout))
    ensures polls >= 1 && (polls >= 2 ==> (polls - 2) * interval < timeout)
    ensures forall k: nat :: k < polls - 1 ==> InVain(steps, extract, clock, timeout, k)
    ensures outcome.Collected? ==> Missing(steps, extract(polls - 1)) == [] && outcome.events == extract(polls)
    ensures outcome.TimedOut? ==>
      outcome.missing == Missing(steps, extract(polls - 1)) && outcome.missing != []
      && clock(polls) >= clock(0) + timeout
  {
    var deadline := clock(0) + timeout;
    if interval > 0 {
      SleepingBringsDeadline(clock, interval, timeout);
    }
    ghost var last: nat :| clock(last) >= deadline;
    polls := 0;
    while true
      invariant forall k: nat :: k < polls ==> InVain(steps, extract, clock, timeout, k)
      invariant polls >= 1 ==> clock(polls) < deadline
      invariant polls <= last
      decreases last - polls
    {
      var events := extract(polls);
      var missing := Missing(steps, events);
      if missing == [] {
        break;
      }
      if clock(polls + 1) >= deadline {
        PollsFitTime(clock, interval, polls + 1, timeout);
        return TimedOut(missing), polls + 1;
      }
      if polls + 1 >= last {
        ClockNeverGoesBack(clock, interval, last, polls + 1);
      }
      polls := polls + 1;
    }
    polls := polls + 1;
    PollsFitTime(clock, interval, polls, timeout);
    outcome := Collected(extract(polls));
  }

  lemma PollsFitTime(clock: nat -> int, interval: nat, polls: nat, timeout: int)
    requires SleepsLast(clock, interval) && (polls >= 2 ==> clock(polls - 1) < clock(0) + timeout)
    ensures polls >= 2 ==> (polls - 2) * interval < timeout
  {
    if polls >= 2 {
      ClockAdvances(clock, interval, polls - 2);
    }
  }

  /** When the logs only grow between the last poll and the settle pass, every anchor still has a match in what
      `Collect` returns. */
  lemma CollectedAnchorsAreFound(steps: seq<Step>, runStart: int, parse: DateParser, last: Snapshot, settled: Snapshot)
    requires Grown(last, settled) && Missing(steps, ExtractAll(last, runStart, parse)) == []
    ensures forall s :: s in steps && s.emits.Some? ==> Found(s, ExtractAll(settled, runStart, parse))
    ensures Missing(steps, ExtractAll(settled, runStart, parse)) == []
  {
    MissingNone(steps, ExtractAll(last, runStart, parse));
    forall s | s in steps && s.emits.Some?
      ensures Found(s, ExtractAll(settled, runStart, parse))
    {
      FoundStays(last, settled, runStart, parse, s);
    }
    MissingNone(steps, ExtractAll(settled, runStart, parse));
  }
}
