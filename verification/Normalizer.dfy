/** Normalisation (normalization/normalizer.py): raw records to events in a time window, in stable time order. */
module Normalizer {
  import opened Options
  import opened Collections
  import opened OrderedDicts
  import opened StableSorting
  import opened Selections
  import opened Schema
  import opened Identifiers
  import opened LogLines
  import TomcatExtractor
  import PostgresExtractor

  /** A normalised event without its id, which is a fresh uuid4 every time. */
  datatype EventBody = EventBody(
    source: SourceSystem, timestamp: int, message: string, identifiers: OrderedDict<string, string>)

  function BodyTime(b: EventBody): int {
    b.timestamp
  }

  function Stamp(id: EventId, b: EventBody): LogEvent {
    LogEvent(id, b.source, b.timestamp, b.message, b.identifiers)
  }

  /** [lo, hi), either bound being optional. */
  predicate InWindow(t: int, lo: Option<int>, hi: Option<int>) {
    (lo.Some? ==> lo.value <= t) && (hi.Some? ==> t < hi.value)
  }

  /** The events of the records that a normaliser accepts and the window admits, in record order. */
  function Kept<R>(normalizer: R -> Option<EventBody>, records: seq<R>, lo: Option<int>,
      hi: Option<int>): seq<EventBody> {
    if records == [] then []
    else
      var event := normalizer(records[|records| - 1]);
      Kept(normalizer, records[..|records| - 1], lo, hi)
      + if event.Some? && InWindow(event.value.timestamp, lo, hi) then [event.value] else []
  }

  function Normalized<R>(normalizer: R -> Option<EventBody>, records: seq<R>, lo: Option<int>, hi: Option<int>)
    : seq<EventBody>
  {
    StableSort(BodyTime, Kept(normalizer, records, lo, hi))
  }

  method Normalize<R>(normalizer: R -> Option<EventBody>, records: seq<R>, lo: Option<int>, hi: Option<int>)
    returns (events: seq<EventBody>)
    ensures events == Normalized(normalizer, records, lo, hi)
  {
    events := [];
    for i := 0 to |records|
      invariant events == Kept(normalizer, records[..i], lo, hi)
    {
      assert records[..i + 1][..i] == records[..i];
      var event := normalizer(records[i]);
      if event.None? {
        continue;
      }
      if lo.Some? && event.value.timestamp < lo.value {
        continue;
      }
      if hi.Some? && event.value.timestamp >= hi.value {
        continue;
      }
      events := events + [event.value];
    }
    assert records[..|records|] == records;
    events := StableSort(BodyTime, events);
  }

  // ---- Which events there are, and in which order ----

  /** What a record gives for a window: the event its normaliser makes of it, if that lies inside. */
  function Accepted<R>(normalizer: R -> Option<EventBody>, lo: Option<int>, hi: Option<int>): R -> Option<EventBody> {
    (r: R) => if normalizer(r).Some? && InWindow(normalizer(r).value.timestamp, lo, hi) then normalizer(r) else None
  }

  lemma {:induction false} KeptYields<R>(normalizer: R -> Option<EventBody>, records: seq<R>, lo: Option<int>,
      hi: Option<int>) returns (at: seq<nat>)
    ensures Yields(Accepted(normalizer, lo, hi), records, Kept(normalizer, records, lo, hi), at)
  {
    var f := Accepted(normalizer, lo, hi);
    if records == [] {
      at := [];
    } else {
      var init := records[..|records| - 1];
      at := KeptYields(normalizer, init, lo, hi);
      at := YieldsLast(f, records, Kept(normalizer, init, lo, hi), at);
    }
  }

  /** One event for every record that is accepted with a time inside the window, in order of time, and in record order
      at equal times. */
  lemma NormalizedYields<R>(normalizer: R -> Option<EventBody>, records: seq<R>, lo: Option<int>, hi: Option<int>)
    returns (at: seq<nat>)
    ensures YieldsByKey(BodyTime, Accepted(normalizer, lo, hi), records, Normalized(normalizer, records, lo, hi), at)
  {
    var kept := KeptYields(normalizer, records, lo, hi);
    at := SortedYields(BodyTime, Accepted(normalizer, lo, hi), records, Kept(normalizer, records, lo, hi), kept);
  }

  // ---- Splitting a window ----

  lemma {:induction false} KeptWithKey<R>(normalizer: R -> Option<EventBody>, records: seq<R>, lo: Option<int>,
      hi: Option<int>,
      k: int)
    ensures WithKey(BodyTime, k, Kept(normalizer, records, lo, hi))
      == if InWindow(k, lo, hi) then WithKey(BodyTime, k, Kept(normalizer, records, None, None)) else []
  {
    if records == [] {
    } else {
      var init := records[..|records| - 1];
      var event := normalizer(records[|records| - 1]);
      KeptWithKey(normalizer, init, lo, hi, k);
      KeptWithKey(normalizer, init, None, None, k);
      var all := if event.Some? then [event.value] else [];
      var some := if event.Some? && InWindow(event.value.timestamp, lo, hi) then all else [];
      assert WithKey(BodyTime, k, all) == if event.Some? && event.value.timestamp == k then all else [];
      WithKeyConcat(BodyTime, k, Kept(normalizer, init, lo, hi), some);
      WithKeyConcat(BodyTime, k, Kept(normalizer, init, None, None), all);
    }
  }

  lemma {:induction false} KeptInWindow<R>(normalizer: R -> Option<EventBody>, records: seq<R>, lo: Option<int>,
      hi: Option<int>,
      b: EventBody)
    requires b in Kept(normalizer, records, lo, hi)
    ensures InWindow(b.timestamp, lo, hi) && exists r :: r in records && normalizer(r) == Some(b)
  {
    var init, last := records[..|records| - 1], records[|records| - 1];
    if b in Kept(normalizer, init, lo, hi) {
      KeptInWindow(normalizer, init, lo, hi, b);
      var r :| r in init && normalizer(r) == Some(b);
      assert r in records;
    } else {
      assert last in records && normalizer(last) == Some(b);
    }
  }

  lemma {:induction false} KeptHas<R>(normalizer: R -> Option<EventBody>, records: seq<R>, lo: Option<int>,
      hi: Option<int>, r: R)
    requires r in records && normalizer(r).Some? && InWindow(normalizer(r).value.timestamp, lo, hi)
    ensures normalizer(r).value in Kept(normalizer, records, lo, hi)
  {
    var init := records[..|records| - 1];
    if r != records[|records| - 1] {
      assert r in init;
      KeptHas(normalizer, init, lo, hi, r);
    }
  }

  lemma NormalizedMembers<R>(normalizer: R -> Option<EventBody>, records: seq<R>, lo: Option<int>, hi: Option<int>)
    ensures Sorted(BodyTime, Normalized(normalizer, records, lo, hi))
    ensures forall b :: b in Normalized(normalizer, records, lo, hi) <==> b in Kept(normalizer, records, lo, hi)
  {
    var kept := Kept(normalizer, records, lo, hi);
    StableSortSpec(BodyTime, kept);
    MultisetMembers(StableSort(BodyTime, kept), kept);
  }

  /** Every event of the earlier window comes before every event of the later one. */
  lemma PartsAreOrdered<R>(normalizer: R -> Option<EventBody>, records: seq<R>, lo: Option<int>, mid: int,
      hi: Option<int>)
    ensures Sorted(BodyTime, Normalized(normalizer, records, lo, Some(mid))
                             + Normalized(normalizer, records, Some(mid), hi))
  {
    var a, b := Normalized(normalizer, records, lo, Some(mid)), Normalized(normalizer, records, Some(mid), hi);
    NormalizedMembers(normalizer, records, lo, Some(mid));
    NormalizedMembers(normalizer, records, Some(mid), hi);
    forall i, j | 0 <= i < |a| && 0 <= j < |b|
      ensures BodyTime(a[i]) <= BodyTime(b[j])
    {
      assert a[i] in a && b[j] in b;
      KeptInWindow(normalizer, records, lo, Some(mid), a[i]);
      KeptInWindow(normalizer, records, Some(mid), hi, b[j]);
    }
  }

  /** Normalising a window is normalising its two halves one after the other, as sequences. */
  lemma WindowSplits<R>(normalizer: R -> Option<EventBody>, records: seq<R>, lo: Option<int>, mid: int, hi: Option<int>)
    requires (lo.Some? ==> lo.value <= mid) && (hi.Some? ==> mid <= hi.value)
    ensures Normalized(normalizer, records, lo, hi)
      == Normalized(normalizer, records, lo, Some(mid)) + Normalized(normalizer, records, Some(mid), hi)
  {
    var a, b := Normalized(normalizer, records, lo, Some(mid)), Normalized(normalizer, records, Some(mid), hi);
    var whole := Normalized(normalizer, records, lo, hi);
    StableSortSpec(BodyTime, Kept(normalizer, records, lo, hi));
    StableSortSpec(BodyTime, Kept(normalizer, records, lo, Some(mid)));
    StableSortSpec(BodyTime, Kept(normalizer, records, Some(mid), hi));
    PartsAreOrdered(normalizer, records, lo, mid, hi);
    forall k
      ensures WithKey(BodyTime, k, whole) == WithKey(BodyTime, k, a + b)
    {
      WithKeyConcat(BodyTime, k, a, b);
      KeptWithKey(normalizer, records, lo, hi, k);
      KeptWithKey(normalizer, records, lo, Some(mid), k);
      KeptWithKey(normalizer, records, Some(mid), hi, k);
    }
    StableSortUnique(BodyTime, whole, a + b);
  }

  // ---- The two sources the harness reads ----

  datatype RawRecord = FromTomcat(record: TomcatExtractor.Record) | FromPostgres(entry: PostgresExtractor.Entry)

  /** The leftmost timestamp in a Tomcat record. */
  function FindTimestamp(s: string): Option<string> {
    if Fits(TomcatExtractor.JULI, s) then Some(s[..|TomcatExtractor.JULI|])
    else if Fits(TomcatExtractor.ISO, s) then Some(s[..|TomcatExtractor.ISO|])
    else if s == [] then None
    else FindTimestamp(s[1..])
  }

  predicate TimestampAt(s: string) {
    Fits(TomcatExtractor.JULI, s) || Fits(TomcatExtractor.ISO, s)
  }

  /** The timestamp is the text that the pattern covers at the leftmost position where one fits, the one with
      milliseconds being tried first. */
  lemma {:induction false} FindTimestampSpec(s: string) returns (at: nat)
    ensures FindTimestamp(s).None? <==> forall i :: 0 <= i <= |s| ==> !TimestampAt(s[i..])
    ensures FindTimestamp(s).Some? ==>
      at <= |s| && TimestampAt(s[at..]) && (forall i :: 0 <= i < at ==> !TimestampAt(s[i..]))
      && var n := if Fits(TomcatExtractor.JULI, s[at..]) then |TomcatExtractor.JULI| else |TomcatExtractor.ISO|;
         n <= |s[at..]| && FindTimestamp(s).value == s[at..][..n]
  {
    assert s[0..] == s;
    if TimestampAt(s) || s == [] {
      at := 0;
    } else {
      var rest := FindTimestampSpec(s[1..]);
      at := rest + 1;
      forall i | 0 <= i <= |s|
        ensures i >= 1 ==> s[i..] == s[1..][i - 1..]
      {
      }
      forall j | 0 <= j < |s|
        ensures s[1..][j..] == s[j + 1..]
      {
      }
    }
  }

  /** dateutil's parser is any function from the timestamp text to an instant or to a failure. */
  type DateParser = string -> Option<int>

  function NormalizeRecord(parse: DateParser, r: RawRecord): Option<EventBody> {
    match r
    case FromTomcat(record) =>
      var ts := FindTimestamp(record.line);
      if ts.None? || parse(ts.value).None? then None
      else Some(EventBody(Tomcat, parse(ts.value).value, record.line, Extract(record.line)))
    case FromPostgres(entry) =>
      var t, message := parse(entry.meta.ts + " " + entry.meta.tz), PostgresExtractor.Message(entry);
      if t.None? then None else Some(EventBody(Postgres, t.value, message, Extract(message)))
  }

  /** The text and the instant that a record stands for. */
  ghost predicate Tells(parse: DateParser, r: RawRecord, e: EventBody) {
    match r
    case FromTomcat(record) =>
      e.source == Tomcat && e.message == record.line
      && FindTimestamp(record.line).Some? && parse(FindTimestamp(record.line).value) == Some(e.timestamp)
    case FromPostgres(entry) =>
      e.source == Postgres && (entry.lines != [] && AllPlain(entry.lines) ==> Split(e.message) == entry.lines)
      && e.message == Join(entry.lines) && parse(entry.meta.ts + " " + entry.meta.tz) == Some(e.timestamp)
  }

  /** A record becomes an event of its source, with its text, its time and the identifiers found in that text; it
      becomes none only if no time can be read. */
  lemma NormalizedRecordSpec(parse: DateParser, r: RawRecord)
    ensures forall e :: NormalizeRecord(parse, r) == Some(e) ==>
      Tells(parse, r, e) && e.identifiers == Extract(e.message)
    ensures NormalizeRecord(parse, r).None? ==> forall e :: !Tells(parse, r, e)
  {
    match r {
      case FromTomcat(record) =>
      case FromPostgres(entry) =>
        if entry.lines != [] && AllPlain(entry.lines) {
          SplitOfJoin(entry.lines);
        }
    }
  }

  function HarnessNormalizer(parse: DateParser): RawRecord -> Option<EventBody> {
    (r: RawRecord) => NormalizeRecord(parse, r)
  }

  /** `later` was parsed from the same entry of a log that has grown since. */
  ghost predicate Continues(r: RawRecord, later: RawRecord) {
    match (r, later)
    case (FromTomcat(a), FromTomcat(b)) => TomcatExtractor.Continues(a, b)
    case (FromPostgres(a), FromPostgres(b)) => PostgresExtractor.Continues(a, b)
    case _ => false
  }

  lemma TimestampStays(s: string, t: string)
    requires s <= t && TomcatExtractor.Header(s)
    ensures FindTimestamp(s) == FindTimestamp(t)
  {
    FitsGrows(TomcatExtractor.JULI, s, t);
    FitsGrows(TomcatExtractor.ISO, s, t);
    if Fits(TomcatExtractor.JULI, s) {
      assert s[..|TomcatExtractor.JULI|] == t[..|TomcatExtractor.JULI|];
    } else {
      assert FitsChar(TomcatExtractor.ISO[2], s[2]) && !FitsChar(TomcatExtractor.JULI[2], t[2]);
      assert s[..|TomcatExtractor.ISO|] == t[..|TomcatExtractor.ISO|];
    }
  }

  /** A continued record gives an event of the same source and time, whose message only got longer. */
  lemma ContinuedEvent(parse: DateParser, r: RawRecord, later: RawRecord)
    requires Continues(r, later) && NormalizeRecord(parse, r).Some?
    ensures NormalizeRecord(parse, later).Some?
    ensures var a, b := NormalizeRecord(parse, r).value, NormalizeRecord(parse, later).value;
      b.source == a.source && b.timestamp == a.timestamp && a.message <= b.message
  {
    match (r, later) {
      case (FromTomcat(a), FromTomcat(b)) =>
        if a != b {
          TimestampStays(a.line, b.line);
        }
      case (FromPostgres(a), FromPostgres(b)) =>
        JoinGrows(a.lines, b.lines);
      case _ =>
    }
  }
}
