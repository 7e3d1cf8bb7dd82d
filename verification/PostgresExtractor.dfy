/** Postgres server-log grouping (extraction/db_log_extractor.py), on the lines of the log. */
module PostgresExtractor {
  import opened Options
  import opened Collections
  import opened LogLines
  import opened PostgresHeader

  /** Reads a header line; the program uses `ParseHeader`. */
  type Reader = string -> Option<HeaderLine>

  function IsHeader(read: Reader): string -> bool {
    (line: string) => read(line).Some?
  }

  /** A record: the metadata of its header, and the lines of its message. */
  datatype Entry = Entry(meta: Meta, lines: seq<string>)

  function Message(e: Entry): string {
    Join(e.lines)
  }

  ghost predicate AllEntries(read: Reader, groups: seq<Group>, lines: seq<string>) {
    forall k :: 0 <= k < |groups| ==> groups[k].start < groups[k].end <= |lines| && read(lines[groups[k].start]).Some?
  }

  function EntryOf(read: Reader, lines: seq<string>, g: Group): Entry
    requires g.start < g.end <= |lines| && read(lines[g.start]).Some?
  {
    var h := read(lines[g.start]).value;
    Entry(h.meta, [h.rest] + lines[g.start + 1..g.end])
  }

  function EntriesOf(read: Reader, lines: seq<string>, groups: seq<Group>): seq<Entry>
    requires AllEntries(read, groups, lines)
  {
    seq(|groups|, k requires 0 <= k < |groups| => EntryOf(read, lines, groups[k]))
  }

  lemma GroupsAreEntries(read: Reader, lines: seq<string>, at: nat)
    requires at <= |lines| && (at < |lines| ==> read(lines[at]).Some?)
    ensures AllEntries(read, GroupsFrom(IsHeader(read), lines, at), lines)
  {
    var groups := GroupsFrom(IsHeader(read), lines, at);
    GroupsTile(IsHeader(read), lines, at);
    forall k | 0 <= k < |groups|
      ensures groups[k].start < groups[k].end <= |lines| && read(lines[groups[k].start]).Some?
    {
      assert groups[k] in groups;
      assert IsEntry(IsHeader(read), lines, groups[k]);
    }
  }

  /** The records from a header on. */
  function EntriesFrom(read: Reader, lines: seq<string>, at: nat): seq<Entry>
    requires at <= |lines| && (at < |lines| ==> read(lines[at]).Some?)
  {
    GroupsAreEntries(read, lines, at);
    EntriesOf(read, lines, GroupsFrom(IsHeader(read), lines, at))
  }

  /** The records of a log. */
  function Entries(read: Reader, lines: seq<string>): seq<Entry> {
    NextHeaderSpec(IsHeader(read), lines, 0);
    EntriesFrom(read, lines, NextHeader(IsHeader(read), lines, 0))
  }

  // ---- The program ----

  /** After `i` lines: the closed records, and the open entry that started at line `start`. */
  ghost predicate Parsing(read: Reader, lines: seq<string>, i: nat, records: seq<Entry>, open: Option<Entry>,
      start: nat) {
    i <= |lines|
    && if open.None? then
      NextHeader(IsHeader(read), lines, 0) >= i && records == []
    else
      start < i && read(lines[start]).Some? && open.value == EntryOf(read, lines, Group(start, i))
      && NextHeader(IsHeader(read), lines, start + 1) == NextHeader(IsHeader(read), lines, i)
      && DoneBefore(read, lines, records, start)
  }

  ghost predicate DoneBefore(read: Reader, lines: seq<string>, records: seq<Entry>, start: nat)
    requires start <= |lines|
  {
    (start < |lines| ==> read(lines[start]).Some?)
    && Entries(read, lines) == records + EntriesFrom(read, lines, start)
  }

  function Flushed(records: seq<Entry>, open: Option<Entry>): seq<Entry> {
    if open.None? then records else records + [open.value]
  }

  /** The entry at a header, and then the entries from the next header on. */
  lemma EntriesStep(read: Reader, lines: seq<string>, at: nat)
    requires at < |lines| && read(lines[at]).Some?
    ensures var end := NextHeader(IsHeader(read), lines, at + 1);
      at < end <= |lines| && (end < |lines| ==> read(lines[end]).Some?)
      && (forall k :: at < k < end ==> read(lines[k]).None?)
      && EntriesFrom(read, lines, at) == [EntryOf(read, lines, Group(at, end))] + EntriesFrom(read, lines, end)
  {
    var end := NextHeader(IsHeader(read), lines, at + 1);
    NextHeaderSpec(IsHeader(read), lines, at + 1);
    GroupsAreEntries(read, lines, end);
    assert forall k :: at < k < end ==> !IsHeader(read)(lines[k]);
  }

  lemma CloseEntry(read: Reader, lines: seq<string>, i: nat, records: seq<Entry>, start: nat)
    requires start < i <= |lines| && read(lines[start]).Some? && NextHeader(IsHeader(read), lines, start + 1) == i
    requires DoneBefore(read, lines, records, start)
    ensures DoneBefore(read, lines, records + [EntryOf(read, lines, Group(start, i))], i)
  {
    EntriesStep(read, lines, start);
    ConcatAssoc(records, [EntryOf(read, lines, Group(start, i))], EntriesFrom(read, lines, i));
  }

  lemma FlushOpen(read: Reader, lines: seq<string>, i: nat, records: seq<Entry>, open: Option<Entry>, start: nat)
    requires Parsing(read, lines, i, records, open, start) && (i < |lines| ==> read(lines[i]).Some?)
    ensures DoneBefore(read, lines, Flushed(records, open), i)
  {
    if open.None? {
      NextHeaderSpec(IsHeader(read), lines, 0);
    } else {
      CloseEntry(read, lines, i, records, start);
    }
  }

  lemma ContinueOpen(read: Reader, lines: seq<string>, i: nat, records: seq<Entry>, open: Option<Entry>, start: nat)
    requires Parsing(read, lines, i, records, open, start) && i < |lines| && read(lines[i]).None?
    ensures Parsing(read, lines, i + 1, records,
                    if open.None? then None else Some(open.value.(lines := open.value.lines + [lines[i]])), start)
  {
    if open.None? {
      NextHeaderSpec(IsHeader(read), lines, 0);
    } else {
      SliceSnoc(lines, start + 1, i);
      ConcatAssoc([read(lines[start]).value.rest], lines[start + 1..i], [lines[i]]);
    }
  }

  method ParseLog(read: Reader, lines: seq<string>) returns (records: seq<Entry>)
    ensures records == Entries(read, lines)
  {
    records := [];
    var open: Option<Entry> := None;
    ghost var start := 0;
    for i := 0 to |lines|
      invariant Parsing(read, lines, i, records, open, start)
    {
      var header := read(lines[i]);
      if header.Some? {
        FlushOpen(read, lines, i, records, open, start);
        records := Flushed(records, open);
        open := Some(Entry(header.value.meta, [header.value.rest]));
        start := i;
        assert lines[i + 1..i + 1] == [];
      } else {
        ContinueOpen(read, lines, i, records, open, start);
        if open.Some? {
          open := Some(open.value.(lines := open.value.lines + [lines[i]]));
        }
      }
    }
    FlushOpen(read, lines, |lines|, records, open, start);
    records := Flushed(records, open);
    assert records + [] == records;
  }

  // ---- Round trip ----

  ghost predicate WellFormed(read: Reader, e: Entry) {
    e.lines != [] && read(WriteHeader(e.meta, e.lines[0])) == Some(HeaderLine(e.meta, e.lines[0]))
    && forall k :: 1 <= k < |e.lines| ==> read(e.lines[k]).None?
  }

  ghost predicate AllWellFormed(read: Reader, entries: seq<Entry>) {
    forall k :: 0 <= k < |entries| ==> WellFormed(read, entries[k])
  }

  ghost function WriteEntry(e: Entry): seq<string>
    requires e.lines != []
  {
    [WriteHeader(e.meta, e.lines[0])] + e.lines[1..]
  }

  ghost function WriteLog(read: Reader, entries: seq<Entry>): seq<string>
    requires AllWellFormed(read, entries)
  {
    if entries == [] then [] else WriteEntry(entries[0]) + WriteLog(read, entries[1..])
  }

  /** Groups of a suffix, seen from the whole log. */
  lemma {:induction false} NextHeaderShift(isHeader: string -> bool, pre: seq<string>, lines: seq<string>, i: nat)
    requires i <= |lines|
    ensures NextHeader(isHeader, pre + lines, |pre| + i) == |pre| + NextHeader(isHeader, lines, i)
    decreases |lines| - i
  {
    if i == |lines| || isHeader(lines[i]) {
    } else {
      NextHeaderShift(isHeader, pre, lines, i + 1);
    }
  }

  lemma EntryShift(read: Reader, pre: seq<string>, lines: seq<string>, at: nat, end: nat)
    requires at < end <= |lines| && read(lines[at]).Some?
    ensures EntryOf(read, pre + lines, Group(|pre| + at, |pre| + end)) == EntryOf(read, lines, Group(at, end))
  {
    assert (pre + lines)[|pre| + at + 1..|pre| + end] == lines[at + 1..end];
  }

  /** The step at a header, seen from a longer log that ends in this one. */
  lemma StepShift(read: Reader, pre: seq<string>, lines: seq<string>, at: nat)
    requires at < |lines| && read(lines[at]).Some?
    ensures var end := NextHeader(IsHeader(read), lines, at + 1);
      at < end <= |lines| && (end < |lines| ==> read(lines[end]).Some?)
      && EntriesFrom(read, pre + lines, |pre| + at)
        == [EntryOf(read, lines, Group(at, end))] + EntriesFrom(read, pre + lines, |pre| + end)
  {
    NextHeaderSpec(IsHeader(read), lines, at + 1);
    NextHeaderShift(IsHeader(read), pre, lines, at + 1);
    EntriesStep(read, pre + lines, |pre| + at);
    EntryShift(read, pre, lines, at, NextHeader(IsHeader(read), lines, at + 1));
  }

  lemma {:induction false} EntriesShift(read: Reader, pre: seq<string>, lines: seq<string>, at: nat)
    requires at <= |lines| && (at < |lines| ==> read(lines[at]).Some?)
    ensures EntriesFrom(read, pre + lines, |pre| + at) == EntriesFrom(read, lines, at)
    decreases |lines| - at
  {
    if at == |lines| {
    } else {
      EntriesStep(read, lines, at);
      StepShift(read, pre, lines, at);
      EntriesShift(read, pre, lines, NextHeader(IsHeader(read), lines, at + 1));
    }
  }

  lemma FirstEntryIsRead(read: Reader, e: Entry, rest: seq<string>)
    requires WellFormed(read, e) && (rest != [] ==> read(rest[0]).Some?)
    ensures var lines := WriteEntry(e) + rest;
      read(lines[0]).Some? && NextHeader(IsHeader(read), lines, 1) == |e.lines|
      && EntryOf(read, lines, Group(0, |e.lines|)) == e
  {
    var lines := WriteEntry(e) + rest;
    forall k | 1 <= k < |e.lines|
      ensures read(lines[k]).None?
    {
      assert lines[k] == e.lines[k];
    }
    NoHeaderBetween(IsHeader(read), lines, 1, |e.lines|);
    assert |e.lines| < |lines| ==> lines[|e.lines|] == rest[0];
    assert lines[1..|e.lines|] == e.lines[1..];
    assert [e.lines[0]] + e.lines[1..] == e.lines;
  }

  lemma {:induction false} WrittenLogIsRead(read: Reader, entries: seq<Entry>)
    requires AllWellFormed(read, entries)
    ensures Entries(read, WriteLog(read, entries)) == entries
  {
    if entries == [] {
    } else {
      var e, rest, lines := entries[0], WriteLog(read, entries[1..]), WriteLog(read, entries);
      assert WellFormed(read, e);
      WrittenLogIsRead(read, entries[1..]);
      FirstEntryIsRead(read, e, rest);
      RestIsRead(read, e, rest);
    }
  }

  /** The first entry, and then whatever the rest of the log gives. */
  lemma RestIsRead(read: Reader, e: Entry, rest: seq<string>)
    requires WellFormed(read, e) && (rest != [] ==> read(rest[0]).Some?)
    ensures Entries(read, WriteEntry(e) + rest) == [e] + Entries(read, rest)
  {
    var lines := WriteEntry(e) + rest;
    FirstEntryIsRead(read, e, rest);
    EntriesShift(read, WriteEntry(e), rest, 0);
    EntriesStep(read, lines, 0);
    assert NextHeader(IsHeader(read), lines, 0) == 0;
    assert NextHeader(IsHeader(read), rest, 0) == 0;
  }

  /** Parsing a written log gives back its entries, as long as no continuation line looks like a header. */
  lemma LogRoundTrip(entries: seq<Entry>)
    requires forall e :: e in entries ==>
      WellFormedMeta(e.meta) && e.lines != [] && forall k :: 1 <= k < |e.lines| ==> ParseHeader(e.lines[k]).None?
    ensures AllWellFormed(ParseHeader, entries) && Entries(ParseHeader, WriteLog(ParseHeader, entries)) == entries
  {
    forall k | 0 <= k < |entries|
      ensures WellFormed(ParseHeader, entries[k])
    {
      assert entries[k] in entries;
      HeaderIsRead(entries[k].meta, entries[k].lines[0]);
    }
    WrittenLogIsRead(ParseHeader, entries);
  }

  // ---- Growing logs ----

  /** `later` is the same entry, possibly with more lines. */
  ghost predicate Continues(e: Entry, later: Entry) {
    later.meta == e.meta && e.lines != [] && e.lines <= later.lines
  }

  ghost predicate EntriesKeptIn(old_: seq<Entry>, new_: seq<Entry>) {
    |old_| <= |new_|
    && forall k :: 0 <= k < |old_| ==> Continues(old_[k], new_[k]) && (k < |old_| - 1 ==> new_[k] == old_[k])
  }

  lemma GroupEntriesGrow(read: Reader, lines: seq<string>, more: seq<string>, groups: seq<Group>, groups': seq<Group>)
    requires lines <= more && AllEntries(read, groups, lines) && AllEntries(read, groups', more)
    requires EntriesKept(groups, groups')
    ensures EntriesKeptIn(EntriesOf(read, lines, groups), EntriesOf(read, more, groups'))
  {
    forall k | 0 <= k < |groups|
      ensures Continues(EntryOf(read, lines, groups[k]), EntryOf(read, more, groups'[k]))
      ensures k < |groups| - 1 ==> EntryOf(read, more, groups'[k]) == EntryOf(read, lines, groups[k])
    {
      var g, h := groups[k], groups'[k];
      assert lines[g.start] == more[h.start];
      assert lines[g.start + 1..g.end] <= more[h.start + 1..h.end];
    }
  }

  /** Parsing a longer log keeps every earlier record, and can only extend the last one's message. */
  lemma EntriesGrow(read: Reader, lines: seq<string>, more: seq<string>)
    requires lines <= more
    ensures EntriesKeptIn(Entries(read, lines), Entries(read, more))
  {
    var first := NextHeader(IsHeader(read), lines, 0);
    NextHeaderSpec(IsHeader(read), lines, 0);
    NextHeaderSpec(IsHeader(read), more, 0);
    NextHeaderGrows(IsHeader(read), lines, more, 0);
    GroupsAreEntries(read, lines, first);
    GroupsAreEntries(read, more, NextHeader(IsHeader(read), more, 0));
    if first < |lines| {
      GroupsGrow(IsHeader(read), lines, more, first);
      GroupEntriesGrow(read, lines, more, Groups(IsHeader(read), lines), Groups(IsHeader(read), more));
    }
  }

  // ---- Nothing is lost ----

  ghost function MessageLines(entries: seq<Entry>): seq<string> {
    if entries == [] then [] else entries[0].lines + MessageLines(entries[1..])
  }

  /** The lines of a log with every header line replaced by the message text it carries. */
  ghost function TextLines(read: Reader, lines: seq<string>): seq<string> {
    seq(|lines|, k requires 0 <= k < |lines| => if read(lines[k]).Some? then read(lines[k]).value.rest else lines[k])
  }

  lemma {:induction false} GroupsLoseNothing(read: Reader, lines: seq<string>, at: nat)
    requires at <= |lines| && (at < |lines| ==> read(lines[at]).Some?)
    ensures MessageLines(EntriesFrom(read, lines, at)) == TextLines(read, lines)[at..]
    decreases |lines| - at
  {
    if at == |lines| {
    } else {
      var end := NextHeader(IsHeader(read), lines, at + 1);
      EntriesStep(read, lines, at);
      GroupsLoseNothing(read, lines, end);
      var e, later := EntryOf(read, lines, Group(at, end)), EntriesFrom(read, lines, end);
      assert ([e] + later)[1..] == later;
      EntryText(read, lines, at, end);
    }
  }

  lemma EntryText(read: Reader, lines: seq<string>, at: nat, end: nat)
    requires at < end <= |lines| && read(lines[at]).Some? && forall k :: at < k < end ==> read(lines[k]).None?
    ensures TextLines(read, lines)[at..] == EntryOf(read, lines, Group(at, end)).lines + TextLines(read, lines)[end..]
  {
  }

  /** For any log, the message lines of the records, one after another, are the lines from the first header on, with the
      prefix taken off the header lines. */
  lemma NothingIsLost(read: Reader, lines: seq<string>)
    ensures MessageLines(Entries(read, lines)) == TextLines(read, lines)[NextHeader(IsHeader(read), lines, 0)..]
    ensures forall k :: 0 <= k < NextHeader(IsHeader(read), lines, 0) ==> read(lines[k]).None?
  {
    NextHeaderSpec(IsHeader(read), lines, 0);
    GroupsLoseNothing(read, lines, NextHeader(IsHeader(read), lines, 0));
  }

  // ---- Messages ----

  lemma EntryIsPlain(lines: seq<string>, at: nat, end: nat)
    requires at < end <= |lines| && ParseHeader(lines[at]).Some? && AllPlain(lines)
    ensures var e := EntryOf(ParseHeader, lines, Group(at, end)); e.lines != [] && AllPlain(e.lines)
  {
    var gap := HeaderMeans(lines[at]);
    var h := ParseHeader(lines[at]).value;
    assert lines[at] in lines;
    RestIsPlain(h.meta, gap, h.rest);
    PlainBehind(h.rest, lines, at + 1, end);
  }

  lemma PlainBehind(rest: string, lines: seq<string>, lo: nat, hi: nat)
    requires lo <= hi <= |lines| && NoNewline(rest) && AllPlain(lines)
    ensures AllPlain([rest] + lines[lo..hi])
  {
    assert forall l :: l in lines[lo..hi] ==> l in lines;
  }

  lemma {:induction false} LinesArePlain(lines: seq<string>, at: nat, e: Entry)
    requires at <= |lines| && (at < |lines| ==> ParseHeader(lines[at]).Some?) && AllPlain(lines)
    requires e in EntriesFrom(ParseHeader, lines, at)
    ensures e.lines != [] && AllPlain(e.lines)
    decreases |lines| - at
  {
    if at == |lines| {
    } else {
      var end := NextHeader(IsHeader(ParseHeader), lines, at + 1);
      EntriesStep(ParseHeader, lines, at);
      EntryIsPlain(lines, at, end);
      if e != EntryOf(ParseHeader, lines, Group(at, end)) {
        LinesArePlain(lines, end, e);
      }
    }
  }

  /** The message of a record splits into the text of its header and its continuation lines. */
  lemma MessageSplits(lines: seq<string>, e: Entry)
    requires AllPlain(lines) && e in Entries(ParseHeader, lines)
    ensures Split(Message(e)) == e.lines
  {
    NextHeaderSpec(IsHeader(ParseHeader), lines, 0);
    LinesArePlain(lines, NextHeader(IsHeader(ParseHeader), lines, 0), e);
    SplitOfJoin(e.lines);
  }
}
