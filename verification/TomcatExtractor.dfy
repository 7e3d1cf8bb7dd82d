/** Tomcat line grouping (extraction/tomcat_extractor.py). Lines come without their final newline. */
module TomcatExtractor {
  import opened Collections
  import opened Options
  import opened Selections
  import opened LogLines

  const JULI := "99-AAA-9999 99:99:99.999"
  const ISO := "9999-99-99 99:99:99"
  const MAX_LINES_PER_ENTRY := 500

  predicate Header(line: string) {
    Fits(JULI, line) || Fits(ISO, line)
  }

  predicate Blank(line: string) {
    forall i :: 0 <= i < |line| ==> Space(line[i])
  }

  /** 31-Jan-2026 10:00:00.000 */
  ghost predicate StartsJuli(s: string) {
    |s| >= 24 && DigitsAt(s, 0, 2) && s[2] == '-' && LettersAt(s, 3, 6) && s[6] == '-' && DigitsAt(s, 7, 11)
    && s[11] == ' ' && DigitsAt(s, 12, 14) && s[14] == ':' && DigitsAt(s, 15, 17) && s[17] == ':' && DigitsAt(s, 18, 20)
    && s[20] == '.' && DigitsAt(s, 21, 24)
  }

  lemma JuliMeans(line: string)
    ensures Fits(JULI, line) <==> StartsJuli(line)
  {
  }

  lemma IsoMeans(line: string)
    ensures Fits(ISO, line) <==> StartsIso(line)
  {
  }

  /** A header is a line that starts with a date and a time in one of two formats. */
  lemma HeaderStarts(line: string)
    ensures Header(line) <==> StartsJuli(line) || StartsIso(line)
  {
    JuliMeans(line);
    IsoMeans(line);
  }

  /** Where a record comes from: a single line, or a range of lines; lines count from 1. */
  datatype Origin = AtLine(number: nat) | Lines(first: nat, last: nat)

  datatype Record = Record(origin: Origin, line: string)

  function NonBlank(lines: seq<string>): seq<string> {
    if lines == [] then []
    else NonBlank(lines[..|lines| - 1]) + if Blank(lines[|lines| - 1]) then [] else [lines[|lines| - 1]]
  }

  function Capped(lines: seq<string>): seq<string> {
    if |lines| <= MAX_LINES_PER_ENTRY then lines else lines[..MAX_LINES_PER_ENTRY]
  }

  /** The lines stitched together for an entry: its header and the non-blank lines after it, up to the cap. */
  function EntryLines(lines: seq<string>, start: nat, end: nat): seq<string>
    requires start < end <= |lines|
  {
    Capped([lines[start]] + NonBlank(lines[start + 1..end]))
  }

  function EntryRecord(lines: seq<string>, g: Group): Record
    requires g.start < g.end <= |lines|
  {
    Record(Lines(g.start + 1, g.end), Join(EntryLines(lines, g.start, g.end)))
  }

  /** Before the first header every non-blank line is its own record. */
  function Headless(lines: seq<string>, end: nat): seq<Record>
    requires end <= |lines|
  {
    if end == 0 then []
    else Headless(lines, end - 1) + if Blank(lines[end - 1]) then [] else [Record(AtLine(end), lines[end - 1])]
  }

  ghost predicate InFile(groups: seq<Group>, lines: seq<string>) {
    forall k :: 0 <= k < |groups| ==> groups[k].start < groups[k].end <= |lines|
  }

  function EntryRecords(lines: seq<string>, groups: seq<Group>): seq<Record>
    requires InFile(groups, lines)
  {
    seq(|groups|, k requires 0 <= k < |groups| => EntryRecord(lines, groups[k]))
  }

  lemma {:induction false} GroupsInFile(lines: seq<string>, at: nat)
    requires at <= |lines|
    ensures InFile(GroupsFrom(Header, lines, at), lines)
    decreases |lines| - at
  {
    if at == |lines| {
    } else {
      GroupsInFile(lines, NextHeader(Header, lines, at + 1));
    }
  }

  /** The records of a file. */
  function Records(lines: seq<string>): seq<Record> {
    GroupsInFile(lines, NextHeader(Header, lines, 0));
    Headless(lines, NextHeader(Header, lines, 0)) + EntryRecords(lines, Groups(Header, lines))
  }

  lemma HeaderIsNotBlank(line: string)
    requires Header(line)
    ensures !Blank(line)
  {
    assert Digit(line[0]) by {
      if Fits(JULI, line) {
        assert FitsChar(JULI[0], line[0]);
      } else {
        assert FitsChar(ISO[0], line[0]);
      }
    }
  }

  // ---- The program ----

  /** What the loop has done after `i` lines. `entry` is the open entry, started at line `start` (0-based). */
  ghost predicate Grouping(lines: seq<string>, i: nat, records: seq<Record>, entry: seq<string>, start: nat) {
    i <= |lines|
    && if entry == [] then
      NextHeader(Header, lines, 0) >= i && records == Headless(lines, i)
    else
      start < i && Header(lines[start]) && entry == EntryLines(lines, start, i)
      && NextHeader(Header, lines, start + 1) == NextHeader(Header, lines, i)
      && NextHeader(Header, lines, 0) <= start
      && DoneBefore(lines, records, start)
  }

  /** `records` are those of the file up to the entry that starts at `start`. */
  ghost predicate DoneBefore(lines: seq<string>, records: seq<Record>, start: nat)
    requires start <= |lines|
  {
    InFile(GroupsFrom(Header, lines, start), lines)
    && Records(lines) == records + EntryRecords(lines, GroupsFrom(Header, lines, start))
  }

  function Flushed(records: seq<Record>, entry: seq<string>, start: nat, endLine: nat): seq<Record> {
    if entry == [] then records else records + [Record(Lines(start + 1, endLine), Join(entry))]
  }

  lemma ContinueEntry(lines: seq<string>, i: nat, records: seq<Record>, entry: seq<string>, start: nat)
    requires Grouping(lines, i, records, entry, start) && i < |lines| && !Header(lines[i]) && entry != []
    ensures Grouping(lines, i + 1, records,
                     if Blank(lines[i]) || |entry| >= MAX_LINES_PER_ENTRY then entry else entry + [lines[i]], start)
  {
    SliceSnoc(lines, start + 1, i);
    var stitched := [lines[start]] + NonBlank(lines[start + 1..i]);
    if !Blank(lines[i]) {
      ConcatAssoc([lines[start]], NonBlank(lines[start + 1..i]), [lines[i]]);
      assert Capped(stitched + [lines[i]])
        == if |Capped(stitched)| >= MAX_LINES_PER_ENTRY then Capped(stitched) else Capped(stitched) + [lines[i]];
    }
  }

  lemma SkipOrSingle(lines: seq<string>, i: nat, records: seq<Record>, start: nat)
    requires Grouping(lines, i, records, [], start) && i < |lines| && !Header(lines[i])
    ensures Grouping(lines, i + 1,
                     if Blank(lines[i]) then records else records + [Record(AtLine(i + 1), lines[i])], [], start)
  {
    NextHeaderSpec(Header, lines, 0);
  }

  lemma EntryRecordsCons(lines: seq<string>, g: Group, rest: seq<Group>)
    requires g.start < g.end <= |lines| && InFile(rest, lines)
    ensures InFile([g] + rest, lines)
    ensures EntryRecords(lines, [g] + rest) == [EntryRecord(lines, g)] + EntryRecords(lines, rest)
  {
    var all := [g] + rest;
    forall k | 0 <= k < |all|
      ensures EntryRecords(lines, all)[k] == ([EntryRecord(lines, g)] + EntryRecords(lines, rest))[k]
    {
      assert all[k] == if k == 0 then g else rest[k - 1];
    }
  }

  lemma RecordsStep(lines: seq<string>, start: nat, i: nat)
    requires start < i <= |lines| && NextHeader(Header, lines, start + 1) == i
    ensures InFile(GroupsFrom(Header, lines, i), lines) && InFile(GroupsFrom(Header, lines, start), lines)
    ensures EntryRecords(lines, GroupsFrom(Header, lines, start))
      == [EntryRecord(lines, Group(start, i))] + EntryRecords(lines, GroupsFrom(Header, lines, i))
  {
    GroupsInFile(lines, i);
    EntryRecordsCons(lines, Group(start, i), GroupsFrom(Header, lines, i));
  }

  lemma OneMoreDone(lines: seq<string>, records: seq<Record>, start: nat, i: nat, r: Record)
    requires start <= |lines| && i <= |lines| && DoneBefore(lines, records, start)
    requires InFile(GroupsFrom(Header, lines, i), lines)
    requires EntryRecords(lines, GroupsFrom(Header, lines, start))
      == [r] + EntryRecords(lines, GroupsFrom(Header, lines, i))
    ensures DoneBefore(lines, records + [r], i)
  {
    ConcatAssoc(records, [r], EntryRecords(lines, GroupsFrom(Header, lines, i)));
  }

  lemma CloseEntry(lines: seq<string>, i: nat, records: seq<Record>, entry: seq<string>, start: nat)
    requires start < i <= |lines| && NextHeader(Header, lines, start + 1) == i
    requires entry == EntryLines(lines, start, i) && DoneBefore(lines, records, start)
    ensures DoneBefore(lines, records + [Record(Lines(start + 1, i), Join(entry))], i)
  {
    var r := Record(Lines(start + 1, i), Join(entry));
    assert EntryRecord(lines, Group(start, i)) == r;
    RecordsStep(lines, start, i);
    OneMoreDone(lines, records, start, i, r);
  }

  lemma CloseHeadless(lines: seq<string>, i: nat)
    requires i <= |lines| && NextHeader(Header, lines, 0) == i
    ensures DoneBefore(lines, Headless(lines, i), i)
  {
    GroupsInFile(lines, i);
  }

  lemma FlushEntry(lines: seq<string>, i: nat, records: seq<Record>, entry: seq<string>, start: nat)
    requires Grouping(lines, i, records, entry, start)
    requires i < |lines| ==> Header(lines[i])
    ensures DoneBefore(lines, Flushed(records, entry, start, i), i)
    ensures NextHeader(Header, lines, 0) <= i
  {
    if entry == [] {
      NextHeaderSpec(Header, lines, 0);
      CloseHeadless(lines, i);
    } else {
      CloseEntry(lines, i, records, entry, start);
    }
  }

  lemma OpenEntry(lines: seq<string>, i: nat, records: seq<Record>)
    requires i < |lines| && Header(lines[i]) && DoneBefore(lines, records, i) && NextHeader(Header, lines, 0) <= i
    ensures Grouping(lines, i + 1, records, [lines[i]], i)
  {
    assert lines[i + 1..i + 1] == [];
    assert [lines[i]] + NonBlank([]) == [lines[i]];
  }

  /** The body of the loop, for line `i`. */
  method Feed(lines: seq<string>, i: nat, records0: seq<Record>, entry0: seq<string>, start0: nat)
    returns (records: seq<Record>, entry: seq<string>, start: nat)
    requires i < |lines| && Grouping(lines, i, records0, entry0, start0)
    ensures Grouping(lines, i + 1, records, entry, start)
  {
    records, entry, start := records0, entry0, start0;
    var line := lines[i];
    if Header(line) {
      HeaderIsNotBlank(line);
    } else if entry != [] {
      ContinueEntry(lines, i, records, entry, start);
    } else {
      SkipOrSingle(lines, i, records, start);
    }
    if Blank(line) {
      return;
    }
    if Header(line) {
      FlushEntry(lines, i, records, entry, start);
      records := Flushed(records, entry, start, i);
      OpenEntry(lines, i, records);
      entry := [line];
      start := i;
    } else if entry != [] {
      if |entry| < MAX_LINES_PER_ENTRY {
        entry := entry + [line];
      }
    } else {
      records := records + [Record(AtLine(i + 1), line)];
    }
  }

  method ExtractFile(lines: seq<string>) returns (records: seq<Record>)
    ensures records == Records(lines) && TilesFile(records, lines)
  {
    records := [];
    var entry: seq<string> := [];
    var start := 0;
    for i := 0 to |lines|
      invariant Grouping(lines, i, records, entry, start)
    {
      records, entry, start := Feed(lines, i, records, entry, start);
    }
    FlushEntry(lines, |lines|, records, entry, start);
    records := Flushed(records, entry, start, |lines|);
    assert records + [] == records;
    RecordsTileTheFile(lines);
  }

  // ---- What the records are ----

  lemma {:induction false} HeadlessHas(lines: seq<string>, end: nat, i: nat)
    requires i < end <= |lines| && !Blank(lines[i])
    ensures Record(AtLine(i + 1), lines[i]) in Headless(lines, end)
  {
    if i == end - 1 {
    } else {
      HeadlessHas(lines, end - 1, i);
    }
  }

  lemma {:induction false} HeadlessAre(lines: seq<string>, end: nat, r: Record)
    requires end <= |lines| && r in Headless(lines, end)
    ensures r.origin.AtLine? && 1 <= r.origin.number <= end && r.line == lines[r.origin.number - 1] && !Blank(r.line)
  {
    if r in Headless(lines, end - 1) {
      HeadlessAre(lines, end - 1, r);
    }
  }

  /** Headless records come in line order, so no line has two. */
  ghost predicate InLineOrder(records: seq<Record>) {
    forall i, j :: 0 <= i < j < |records| ==> FirstLine(records[i]) < FirstLine(records[j])
  }

  function FirstLine(r: Record): nat {
    match r.origin
    case AtLine(number) => number
    case Lines(first, _) => first
  }

  lemma {:induction false} HeadlessInOrder(lines: seq<string>, end: nat)
    requires end <= |lines|
    ensures InLineOrder(Headless(lines, end))
  {
    if end == 0 {
    } else {
      var init := Headless(lines, end - 1);
      HeadlessInOrder(lines, end - 1);
      forall i | 0 <= i < |init|
        ensures FirstLine(init[i]) < end
      {
        HeadlessAre(lines, end - 1, init[i]);
      }
    }
  }

  /** The line ranges of the entry records tile the file from its first header on to its last line. */
  ghost predicate RangesTile(records: seq<Record>, at: nat, end: nat) {
    if records == [] then at == end
    else
      records[0].origin.Lines? && records[0].origin.first == at + 1 && at < records[0].origin.last <= end
      && RangesTile(records[1..], records[0].origin.last, end)
  }

  lemma {:induction false} TilesGiveRanges(lines: seq<string>, groups: seq<Group>, at: nat, end: nat)
    requires InFile(groups, lines) && Tiles(groups, at, end)
    ensures RangesTile(EntryRecords(lines, groups), at, end)
    decreases |groups|
  {
    if groups == [] {
    } else {
      TilesGiveRanges(lines, groups[1..], groups[0].end, end);
      assert EntryRecords(lines, groups)[1..] == EntryRecords(lines, groups[1..]);
    }
  }

  /** A line of an entry is kept unless it is blank. */
  function Kept(): string -> Option<string> {
    (line: string) => if Blank(line) then None else Some(line)
  }

  lemma {:induction false} NonBlankYields(lines: seq<string>) returns (at: seq<nat>)
    ensures Yields(Kept(), lines, NonBlank(lines), at)
  {
    if lines == [] {
      at := [];
    } else {
      var init := lines[..|lines| - 1];
      at := NonBlankYields(init);
      at := YieldsLast(Kept(), lines, NonBlank(init), at);
    }
  }

  /** `kept` are the first `n` positions from `lo` up to `hi` whose line is not blank, or all of them if there are
      fewer. */
  ghost predicate FirstNonBlank(lines: seq<string>, lo: nat, hi: nat, n: nat, kept: seq<nat>)
    requires hi <= |lines|
  {
    Increasing(kept) && |kept| <= n
    && (forall k :: 0 <= k < |kept| ==> lo <= kept[k] < hi && !Blank(lines[kept[k]]))
    && forall i: nat :: lo <= i < hi && !Blank(lines[i]) ==> i in kept || (|kept| == n && AllBelow(kept, i))
  }

  ghost predicate AllBelow(kept: seq<nat>, i: nat) {
    forall k :: 0 <= k < |kept| ==> kept[k] < i
  }

  function LinesAt(lines: seq<string>, at: seq<nat>): seq<string>
    requires forall k :: 0 <= k < |at| ==> at[k] < |lines|
  {
    seq(|at|, k requires 0 <= k < |at| => lines[at[k]])
  }

  /** An entry is its header and the first 499 non-blank lines behind it, up to the next header. */
  ghost predicate IsGrouped(lines: seq<string>, r: Record) {
    r.origin.Lines?
    && 1 <= r.origin.first <= r.origin.last <= |lines|
    && Header(lines[r.origin.first - 1])
    && (forall k :: r.origin.first <= k < r.origin.last ==> !Header(lines[k]))
    && exists kept ::
         FirstNonBlank(lines, r.origin.first, r.origin.last, MAX_LINES_PER_ENTRY - 1, kept)
         && HasText(r.line, [lines[r.origin.first - 1]] + LinesAt(lines, kept))
  }

  /** The text consists of these lines, and splits into them again. */
  ghost predicate HasText(text: string, lines: seq<string>) {
    text == Join(lines) && (lines != [] && AllPlain(lines) ==> Split(text) == lines)
  }

  lemma JoinHasText(lines: seq<string>)
    ensures HasText(Join(lines), lines)
  {
    if lines != [] && AllPlain(lines) {
      SplitOfJoin(lines);
    }
  }

  /** The first `n` of the positions `at`, counted from `lo`. */
  function Shifted(lo: nat, at: seq<nat>, n: nat): seq<nat>
    requires n <= |at|
  {
    seq(n, k requires 0 <= k < n => lo + at[k])
  }

  /** A line that is kept is among the first `n`, or behind all of them. */
  lemma KeptIsCounted(src: seq<string>, out: seq<string>, at: seq<nat>, lo: nat, n: nat, i: nat)
    requires Yields(Kept(), src, out, at) && n <= |at| && lo <= i < lo + |src| && !Blank(src[i - lo])
    ensures i in Shifted(lo, at, n) || (n < |at| && AllBelow(Shifted(lo, at, n), i))
  {
    assert Kept()(src[i - lo]).Some?;
    var k :| 0 <= k < |at| && at[k] == i - lo;
    if k < n {
      assert Shifted(lo, at, n)[k] == i;
    } else {
      assert forall l :: 0 <= l < n ==> at[l] < at[k];
    }
  }

  lemma ShiftedAreKept(lines: seq<string>, lo: nat, hi: nat, src: seq<string>, out: seq<string>, at: seq<nat>, n: nat)
    requires lo <= hi <= |lines| && src == lines[lo..hi] && Yields(Kept(), src, out, at) && n <= |at|
    ensures Increasing(Shifted(lo, at, n))
    ensures forall k :: 0 <= k < n ==>
      lo <= Shifted(lo, at, n)[k] < hi && !Blank(lines[Shifted(lo, at, n)[k]])
  {
    forall k | 0 <= k < n
      ensures at[k] < |src| && !Blank(lines[lo + at[k]])
    {
      assert Kept()(src[at[k]]).Some?;
      assert src[at[k]] == lines[lo + at[k]];
    }
  }

  lemma ShiftedAreFirst(lines: seq<string>, lo: nat, hi: nat, at: seq<nat>, n: nat, cap: nat)
    requires lo <= hi <= |lines| && Yields(Kept(), lines[lo..hi], NonBlank(lines[lo..hi]), at)
    requires n == if |at| < cap then |at| else cap
    ensures FirstNonBlank(lines, lo, hi, cap, Shifted(lo, at, n))
  {
    var src, out, kept := lines[lo..hi], NonBlank(lines[lo..hi]), Shifted(lo, at, n);
    ShiftedAreKept(lines, lo, hi, src, out, at, n);
    forall i: nat | lo <= i < hi && !Blank(lines[i])
      ensures i in kept || (|kept| == cap && AllBelow(kept, i))
    {
      assert src[i - lo] == lines[i];
      KeptIsCounted(src, out, at, lo, n, i);
    }
  }

  lemma ShiftedLines(lines: seq<string>, lo: nat, hi: nat, at: seq<nat>, n: nat)
    requires lo <= hi <= |lines| && Yields(Kept(), lines[lo..hi], NonBlank(lines[lo..hi]), at) && n <= |at|
    ensures forall k :: 0 <= k < n ==> Shifted(lo, at, n)[k] < |lines|
    ensures LinesAt(lines, Shifted(lo, at, n)) == NonBlank(lines[lo..hi])[..n]
  {
    forall k | 0 <= k < n
      ensures lines[lo + at[k]] == NonBlank(lines[lo..hi])[k]
    {
      assert lines[lo..hi][at[k]] == lines[lo + at[k]];
    }
  }

  lemma CapBehindHeader(header: string, body: seq<string>, n: nat)
    requires n == if |body| < MAX_LINES_PER_ENTRY - 1 then |body| else MAX_LINES_PER_ENTRY - 1
    ensures Capped([header] + body) == [header] + body[..n]
  {
  }

  lemma EntryLinesSpec(lines: seq<string>, start: nat, end: nat) returns (kept: seq<nat>)
    requires start < end <= |lines|
    ensures FirstNonBlank(lines, start + 1, end, MAX_LINES_PER_ENTRY - 1, kept)
    ensures EntryLines(lines, start, end) == [lines[start]] + LinesAt(lines, kept)
  {
    var body := lines[start + 1..end];
    var at := NonBlankYields(body);
    var n := if |at| < MAX_LINES_PER_ENTRY - 1 then |at| else MAX_LINES_PER_ENTRY - 1;
    kept := Shifted(start + 1, at, n);
    ShiftedAreFirst(lines, start + 1, end, at, n, MAX_LINES_PER_ENTRY - 1);
    ShiftedLines(lines, start + 1, end, at, n);
    CapBehindHeader(lines[start], NonBlank(body), n);
  }

  lemma EntryIsGrouped(lines: seq<string>, g: Group)
    requires g.start < g.end <= |lines| && IsEntry(Header, lines, g)
    ensures IsGrouped(lines, EntryRecord(lines, g))
  {
    var kept := EntryLinesSpec(lines, g.start, g.end);
    JoinHasText([lines[g.start]] + LinesAt(lines, kept));
  }

  lemma EntriesAreGrouped(lines: seq<string>, groups: seq<Group>)
    requires InFile(groups, lines) && forall g :: g in groups ==> IsEntry(Header, lines, g)
    ensures forall r :: r in EntryRecords(lines, groups) ==> IsGrouped(lines, r)
  {
    forall k | 0 <= k < |groups|
      ensures IsGrouped(lines, EntryRecords(lines, groups)[k])
    {
      EntryIsGrouped(lines, groups[k]);
    }
  }

  /** Headless records in line order, and then the entries. */
  ghost predicate TilesFile(records: seq<Record>, lines: seq<string>) {
    var first := NextHeader(Header, lines, 0);
    InLineOrder(Headless(lines, first))
    && exists entries ::
         records == Headless(lines, first) + entries
         && RangesTile(entries, first, |lines|)
         && forall r :: r in entries ==> IsGrouped(lines, r)
  }

  /** Tiling: the file's records are one per non-blank line before the first header, and then entries whose line ranges
      are contiguous, disjoint, ascending and end at the last line; each entry is a header with the lines it owns. */
  lemma RecordsTileTheFile(lines: seq<string>)
    ensures TilesFile(Records(lines), lines)
  {
    var first := NextHeader(Header, lines, 0);
    var groups := Groups(Header, lines);
    HeadlessInOrder(lines, first);
    EntriesTileTheLog(Header, lines);
    GroupsInFile(lines, first);
    TilesGiveRanges(lines, groups, first, |lines|);
    EntriesAreGrouped(lines, groups);
    assert Records(lines) == Headless(lines, first) + EntryRecords(lines, groups);
  }

  // ---- Growing files ----

  /** `later` is the same record, possibly with its text continued. */
  ghost predicate Continues(r: Record, later: Record) {
    r == later
    || (r.origin.Lines? && later.origin.Lines? && later.origin.first == r.origin.first
        && r.origin.last <= later.origin.last && r.line <= later.line && Header(r.line))
  }

  lemma {:induction false} NonBlankGrows(lines: seq<string>, more: seq<string>)
    requires lines <= more
    ensures NonBlank(lines) <= NonBlank(more)
    decreases |more|
  {
    if |more| == |lines| {
      assert more == lines;
    } else {
      NonBlankGrows(lines, more[..|more| - 1]);
    }
  }

  lemma {:induction false} HeadlessGrows(lines: seq<string>, more: seq<string>, a: nat, b: nat)
    requires lines <= more && a <= b && a <= |lines| && b <= |more|
    ensures Headless(lines, a) <= Headless(more, b)
    decreases b
  {
    if a < b {
      HeadlessGrows(lines, more, a, b - 1);
    } else if a > 0 {
      HeadlessSame(lines, more, a);
    }
  }

  lemma {:induction false} HeadlessSame(lines: seq<string>, more: seq<string>, a: nat)
    requires lines <= more && a <= |lines|
    ensures Headless(lines, a) == Headless(more, a)
  {
    if a == 0 {
    } else {
      HeadlessSame(lines, more, a - 1);
    }
  }

  lemma EntryGrows(lines: seq<string>, more: seq<string>, g: Group, h: Group)
    requires lines <= more && g.start == h.start && g.start < g.end <= |lines| && g.end <= h.end <= |more|
    requires Header(lines[g.start])
    ensures Continues(EntryRecord(lines, g), EntryRecord(more, h))
  {
    var a, b := lines[g.start + 1..g.end], more[h.start + 1..h.end];
    assert a <= b;
    NonBlankGrows(a, b);
    var x, y := EntryLines(lines, g.start, g.end), EntryLines(more, h.start, h.end);
    assert x <= y;
    JoinGrows(x, y);
    JoinStartsWithFirst(x);
    assert x[0] == lines[g.start];
    FitsGrows(JULI, x[0], Join(x));
    FitsGrows(ISO, x[0], Join(x));
  }

  /** Parsing a longer file keeps every earlier record, and can only continue the last one. */
  ghost predicate RecordsKept(old_: seq<Record>, new_: seq<Record>) {
    |old_| <= |new_|
    && forall k :: 0 <= k < |old_| ==> Continues(old_[k], new_[k]) && (k < |old_| - 1 ==> new_[k] == old_[k])
  }

  lemma RecordsGrow(lines: seq<string>, more: seq<string>)
    requires lines <= more
    ensures RecordsKept(Records(lines), Records(more))
  {
    var first, first' := NextHeader(Header, lines, 0), NextHeader(Header, more, 0);
    NextHeaderGrows(Header, lines, more, 0);
    GroupsInFile(lines, first);
    GroupsInFile(more, first');
    HeadlessGrows(lines, more, first, first');
    if first < |lines| {
      GroupsGrow(Header, lines, more, first);
      EntriesTileTheLog(Header, lines);
      EntryRecordsGrow(lines, more, Groups(Header, lines), Groups(Header, more));
      HeadlessSame(lines, more, first);
    }
  }

  lemma EntryRecordsGrow(lines: seq<string>, more: seq<string>, groups: seq<Group>, groups': seq<Group>)
    requires lines <= more && InFile(groups, lines) && InFile(groups', more) && EntriesKept(groups, groups')
    requires forall g :: g in groups ==> IsEntry(Header, lines, g)
    ensures RecordsKept(EntryRecords(lines, groups), EntryRecords(more, groups'))
  {
    forall k | 0 <= k < |groups|
      ensures Continues(EntryRecord(lines, groups[k]), EntryRecord(more, groups'[k]))
      ensures k < |groups| - 1 ==> EntryRecord(more, groups'[k]) == EntryRecord(lines, groups[k])
    {
      assert IsEntry(Header, lines, groups[k]);
      EntryGrows(lines, more, groups[k], groups'[k]);
      if k < |groups| - 1 {
        assert lines[groups[k].start + 1..groups[k].end] == more[groups[k].start + 1..groups[k].end];
      }
    }
  }
}
