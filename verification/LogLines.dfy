/** Grouping the lines of a log into entries: an entry runs from one header line to the next. */
module LogLines {

  /** The first header at or after line `i`, or the end. */
  function NextHeader(isHeader: string -> bool, lines: seq<string>, i: nat): (end: nat)
    requires i <= |lines|
    ensures i <= end <= |lines|
    decreases |lines| - i
  {
    if i == |lines| || isHeader(lines[i]) then i else NextHeader(isHeader, lines, i + 1)
  }

  /** Lines `start` up to `end` (0-based, end excluded) make one entry. */
  datatype Group = Group(start: nat, end: nat)

  function GroupsFrom(isHeader: string -> bool, lines: seq<string>, at: nat): seq<Group>
    requires at <= |lines|
    decreases |lines| - at
  {
    if at == |lines| then []
    else
      var end := NextHeader(isHeader, lines, at + 1);
      [Group(at, end)] + GroupsFrom(isHeader, lines, end)
  }

  /** The entries of a log; the lines before the first header belong to none. */
  function Groups(isHeader: string -> bool, lines: seq<string>): seq<Group> {
    GroupsFrom(isHeader, lines, NextHeader(isHeader, lines, 0))
  }

  lemma {:induction false} NextHeaderSpec(isHeader: string -> bool, lines: seq<string>, i: nat)
    requires i <= |lines|
    ensures var end := NextHeader(isHeader, lines, i);
      (forall k :: i <= k < end ==> !isHeader(lines[k])) && (end < |lines| ==> isHeader(lines[end]))
    decreases |lines| - i
  {
    if i == |lines| || isHeader(lines[i]) {
    } else {
      NextHeaderSpec(isHeader, lines, i + 1);
    }
  }

  lemma {:induction false} NoHeaderBetween(isHeader: string -> bool, lines: seq<string>, i: nat, j: nat)
    requires i <= j <= |lines| && forall k :: i <= k < j ==> !isHeader(lines[k])
    ensures NextHeader(isHeader, lines, i) == NextHeader(isHeader, lines, j)
    decreases j - i
  {
    if i == j {
    } else {
      NoHeaderBetween(isHeader, lines, i + 1, j);
    }
  }

  /** A group starts with a header and holds no other. */
  ghost predicate IsEntry(isHeader: string -> bool, lines: seq<string>, g: Group) {
    g.start < g.end <= |lines| && isHeader(lines[g.start])
    && forall k :: g.start < k < g.end ==> !isHeader(lines[k])
  }

  /** The entries tile the log from line `at` to its end: contiguous, disjoint, in order. */
  ghost predicate Tiles(groups: seq<Group>, at: nat, end: nat) {
    if groups == [] then at == end
    else groups[0].start == at && at < groups[0].end <= end && Tiles(groups[1..], groups[0].end, end)
  }

  lemma {:induction false} GroupsTile(isHeader: string -> bool, lines: seq<string>, at: nat)
    requires at <= |lines| && (at < |lines| ==> isHeader(lines[at]))
    ensures Tiles(GroupsFrom(isHeader, lines, at), at, |lines|)
    ensures forall g :: g in GroupsFrom(isHeader, lines, at) ==> IsEntry(isHeader, lines, g)
    decreases |lines| - at
  {
    if at == |lines| {
    } else {
      NextHeaderSpec(isHeader, lines, at + 1);
      GroupsTile(isHeader, lines, NextHeader(isHeader, lines, at + 1));
    }
  }

  /** From the first header on, every line of the log is in exactly one entry, and every entry starts with its only
      header; before it there is no header. */
  lemma EntriesTileTheLog(isHeader: string -> bool, lines: seq<string>)
    ensures var first := NextHeader(isHeader, lines, 0);
      (forall k :: 0 <= k < first ==> !isHeader(lines[k]))
      && Tiles(Groups(isHeader, lines), first, |lines|)
      && forall g :: g in Groups(isHeader, lines) ==> IsEntry(isHeader, lines, g)
  {
    NextHeaderSpec(isHeader, lines, 0);
    GroupsTile(isHeader, lines, NextHeader(isHeader, lines, 0));
  }

  // ---- Growing logs ----

  lemma {:induction false} NextHeaderGrows(isHeader: string -> bool, lines: seq<string>, more: seq<string>, i: nat)
    requires i <= |lines| && lines <= more
    ensures NextHeader(isHeader, lines, i) <= NextHeader(isHeader, more, i)
    ensures NextHeader(isHeader, lines, i) < |lines| ==> NextHeader(isHeader, lines, i) == NextHeader(isHeader, more, i)
    decreases |lines| - i
  {
    if i == |lines| || isHeader(lines[i]) {
    } else {
      NextHeaderGrows(isHeader, lines, more, i + 1);
    }
  }

  /** When a log grows, its earlier entries stay, and its last one can only be continued. */
  ghost predicate EntriesKept(old_: seq<Group>, new_: seq<Group>) {
    |old_| <= |new_|
    && forall k :: 0 <= k < |old_| ==>
      new_[k].start == old_[k].start && old_[k].end <= new_[k].end && (k < |old_| - 1 ==> new_[k] == old_[k])
  }

  lemma {:induction false} GroupsGrow(isHeader: string -> bool, lines: seq<string>, more: seq<string>, at: nat)
    requires at <= |lines| && lines <= more
    ensures EntriesKept(GroupsFrom(isHeader, lines, at), GroupsFrom(isHeader, more, at))
    decreases |lines| - at
  {
    if at == |lines| {
    } else {
      var end := NextHeader(isHeader, lines, at + 1);
      NextHeaderGrows(isHeader, lines, more, at + 1);
      if end < |lines| {
        GroupsGrow(isHeader, lines, more, end);
        var a, b := GroupsFrom(isHeader, lines, end), GroupsFrom(isHeader, more, end);
        assert GroupsFrom(isHeader, lines, at) == [Group(at, end)] + a;
        assert GroupsFrom(isHeader, more, at) == [Group(at, end)] + b;
        assert a != [];
      }
    }
  }

  // ---- Text ----

  /** "\n".join(lines) */
  function Join(lines: seq<string>): string {
    if lines == [] then ""
    else if |lines| == 1 then lines[0]
    else Join(lines[..|lines| - 1]) + "\n" + lines[|lines| - 1]
  }

  lemma {:induction false} JoinGrows(lines: seq<string>, more: seq<string>)
    requires lines <= more && lines != []
    ensures Join(lines) <= Join(more)
    decreases |more|
  {
    if |more| == |lines| {
      assert more == lines;
    } else {
      var init := more[..|more| - 1];
      JoinGrows(lines, init);
      assert Join(more) == Join(init) + ("\n" + more[|more| - 1]);
    }
  }

  lemma JoinStartsWithFirst(lines: seq<string>)
    requires lines != []
    ensures lines[0] <= Join(lines)
  {
    JoinGrows(lines[..1], lines);
  }

  predicate NoNewline(s: string) {
    forall i :: 0 <= i < |s| ==> s[i] != '\n'
  }

  ghost predicate AllPlain(lines: seq<string>) {
    forall l :: l in lines ==> NoNewline(l)
  }

  /** text.split("\n") */
  function Split(s: string): (parts: seq<string>)
    ensures parts != []
  {
    if s == [] then [""]
    else
      var parts, c := Split(s[..|s| - 1]), s[|s| - 1];
      if c == '\n' then parts + [""] else parts[..|parts| - 1] + [parts[|parts| - 1] + [c]]
  }

  /** Text without a newline only makes the last part longer. */
  lemma {:induction false} SplitAppend(s: string, t: string)
    requires NoNewline(t)
    ensures Split(s + t) == Split(s)[..|Split(s)| - 1] + [Split(s)[|Split(s)| - 1] + t]
  {
    var parts := Split(s);
    if t == [] {
      assert s + t == s && parts[|parts| - 1] + t == parts[|parts| - 1];
    } else {
      var init, c := t[..|t| - 1], t[|t| - 1];
      SplitAppend(s, init);
      assert (s + t)[..|s + t| - 1] == s + init && (s + t)[|s + t| - 1] == c;
      assert parts[|parts| - 1] + t == parts[|parts| - 1] + init + [c];
    }
  }

  /** Joined lines are split into the same lines again. */
  lemma {:induction false} SplitOfJoin(lines: seq<string>)
    requires lines != [] && AllPlain(lines)
    ensures Split(Join(lines)) == lines
  {
    var init, last := lines[..|lines| - 1], lines[|lines| - 1];
    assert last in lines && lines == init + [last];
    if init == [] {
      assert "" + last == last;
      SplitAppend("", last);
    } else {
      SplitOfJoin(init);
      var s := Join(init) + "\n";
      assert s[..|s| - 1] == Join(init);
      assert Split(s) == init + [""];
      SplitAppend(s, last);
      assert "" + last == last;
    }
  }

  lemma {:induction false} SplitIsPlain(s: string)
    ensures AllPlain(Split(s))
  {
    if s == [] {
    } else {
      var parts := Split(s[..|s| - 1]);
      SplitIsPlain(s[..|s| - 1]);
      assert parts[|parts| - 1] in parts;
    }
  }

  /** A text is its parts joined again. */
  lemma {:induction false} JoinOfSplit(s: string)
    ensures Join(Split(s)) == s
  {
    if s == [] {
    } else {
      var init, c := s[..|s| - 1], s[|s| - 1];
      var parts := Split(init);
      JoinOfSplit(init);
      assert s == init + [c];
      if c == '\n' {
        JoinSnoc(parts, "");
      } else {
        JoinExtend(parts[..|parts| - 1], parts[|parts| - 1], c);
        assert parts == parts[..|parts| - 1] + [parts[|parts| - 1]];
      }
    }
  }

  lemma JoinExtend(most: seq<string>, last: string, c: char)
    ensures Join(most + [last + [c]]) == Join(most + [last]) + [c]
  {
    if most != [] {
      JoinSnoc(most, last);
      JoinSnoc(most, last + [c]);
    }
  }

  lemma JoinSnoc(lines: seq<string>, last: string)
    requires lines != []
    ensures Join(lines + [last]) == Join(lines) + "\n" + last
  {
    assert (lines + [last])[..|lines|] == lines;
  }

  predicate Digit(c: char) {
    '0' <= c <= '9'
  }

  predicate Letter(c: char) {
    'a' <= c <= 'z' || 'A' <= c <= 'Z'
  }

  /** str.isspace on ASCII */
  predicate Space(c: char) {
    c == ' ' || 9 <= c as int <= 13 || 28 <= c as int <= 31
  }

  /** A fixed-width pattern: '9' stands for a digit, 'A' for a letter, and any other character for itself. */
  predicate FitsChar(p: char, c: char) {
    if p == '9' then Digit(c) else if p == 'A' then Letter(c) else c == p
  }

  /** The pattern matches at the start of the text. */
  predicate Fits(pattern: string, s: string) {
    |pattern| <= |s| && forall i :: 0 <= i < |pattern| ==> FitsChar(pattern[i], s[i])
  }

  ghost predicate DigitsAt(s: string, lo: nat, hi: nat) {
    hi <= |s| && forall i :: lo <= i < hi ==> '0' <= s[i] <= '9'
  }

  ghost predicate LettersAt(s: string, lo: nat, hi: nat) {
    hi <= |s| && forall i :: lo <= i < hi ==> 'a' <= s[i] <= 'z' || 'A' <= s[i] <= 'Z'
  }

  /** 2026-01-31 10:00:00 */
  ghost predicate StartsIso(s: string) {
    |s| >= 19 && DigitsAt(s, 0, 4) && s[4] == '-' && DigitsAt(s, 5, 7) && s[7] == '-' && DigitsAt(s, 8, 10)
    && s[10] == ' ' && DigitsAt(s, 11, 13) && s[13] == ':' && DigitsAt(s, 14, 16) && s[16] == ':' && DigitsAt(s, 17, 19)
  }

  lemma FitsGrows(pattern: string, s: string, t: string)
    requires s <= t
    ensures Fits(pattern, s) ==> Fits(pattern, t)
    ensures |pattern| <= |s| ==> (Fits(pattern, s) <==> Fits(pattern, t))
  {
  }
}
