/** The header line of a Postgres server log (extraction/db_log_extractor.py), and how Postgres writes it. */
module PostgresHeader {
  import opened Options
  import opened LogLines

  const TIMESTAMP := "9999-99-99 99:99:99.999"

  /** The parts of a header line in front of the message text. */
  datatype Meta = Meta(ts: string, tz: string, pid: string, level: string)

  datatype HeaderLine = HeaderLine(meta: Meta, rest: string)

  predicate NonSpace(c: char) {
    !Space(c)
  }

  predicate Upper(c: char) {
    'A' <= c <= 'Z'
  }

  /** Length of the longest leading run of characters of a class. */
  function Run(p: char -> bool, s: string): (n: nat)
    ensures n <= |s|
  {
    if s == [] || !p(s[0]) then 0 else 1 + Run(p, s[1..])
  }

  /** `+` on a class: the run must not be empty. What follows a run in the pattern is never in its class, so a shorter
      run could not match either. */
  function Plus(p: char -> bool, s: string): Option<(string, string)> {
    var n := Run(p, s);
    if n == 0 then None else Some((s[..n], s[n..]))
  }

  function Expect(literal: string, s: string): Option<string> {
    if literal <= s then Some(s[|literal|..]) else None
  }

  /** LEVEL: with at most one white space behind the colon. */
  function ParseLevel(s: string): Option<(string, string)> {
    var level := Plus(Upper, s);
    if level.None? then None
    else
      var rest := Expect(":", level.value.1);
      if rest.None? then None
      else Some((level.value.0, if rest.value != [] && Space(rest.value[0]) then rest.value[1..] else rest.value))
  }

  /** "tz [pid] " */
  function ParseTzPid(s: string): Option<(string, string, string)> {
    var tz := Plus(NonSpace, s);
    if tz.None? then None
    else
      var open := Expect(" [", tz.value.1);
      if open.None? then None
      else
        var pid := Plus(Digit, open.value);
        if pid.None? then None
        else
          var close := Expect("] ", pid.value.1);
          if close.None? then None else Some((tz.value.0, pid.value.0, close.value))
  }

  function ParseHeader(line: string): Option<HeaderLine> {
    if !Fits(TIMESTAMP, line) then None
    else
      var blank := Expect(" ", line[|TIMESTAMP|..]);
      if blank.None? then None
      else
        var tzPid := ParseTzPid(blank.value);
        if tzPid.None? then None
        else
          var level := ParseLevel(tzPid.value.2);
          if level.None? then None
          else
            Some(HeaderLine(Meta(line[..|TIMESTAMP|], tzPid.value.0, tzPid.value.1, level.value.0), level.value.1))
  }

  // ---- Reading back what was written ----

  ghost predicate WellFormedMeta(m: Meta) {
    |m.ts| == |TIMESTAMP| && Fits(TIMESTAMP, m.ts)
    && m.tz != [] && (forall c :: c in m.tz ==> NonSpace(c))
    && m.pid != [] && (forall c :: c in m.pid ==> Digit(c))
    && m.level != [] && (forall c :: c in m.level ==> Upper(c))
  }

  /** At most one white space stands between the colon and the text. */
  ghost predicate Gap(gap: string, rest: string) {
    (|gap| == 1 && Space(gap[0])) || (gap == "" && (rest != [] ==> !Space(rest[0])))
  }

  /** A header line with its parts, whatever stands behind the colon. */
  function HeaderText(m: Meta, gap: string, rest: string): string {
    m.ts + (" " + (m.tz + (" [" + (m.pid + ("] " + (m.level + (":" + (gap + rest))))))))
  }

  /** 2026-01-31 10:00:00.000 */
  lemma TimestampMeans(s: string)
    ensures Fits(TIMESTAMP, s) <==> StartsIso(s) && |s| >= 23 && s[19] == '.' && DigitsAt(s, 20, 23)
  {
  }

  /** How Postgres writes a header line under the prefix '%m [%p] '. */
  function WriteHeader(m: Meta, rest: string): string {
    HeaderText(m, " ", rest)
  }

  lemma {:induction false} RunOf(p: char -> bool, s: string, t: string)
    requires (forall c :: c in s ==> p(c)) && (t == [] || !p(t[0]))
    ensures Run(p, s + t) == |s|
  {
    if s == [] {
      assert s + t == t;
    } else {
      assert s[0] in s && (s + t)[1..] == s[1..] + t;
      RunOf(p, s[1..], t);
    }
  }

  lemma PlusOf(p: char -> bool, s: string, t: string)
    requires s != [] && (forall c :: c in s ==> p(c)) && (t == [] || !p(t[0]))
    ensures Plus(p, s + t) == Some((s, t))
  {
    RunOf(p, s, t);
    assert (s + t)[..|s|] == s && (s + t)[|s|..] == t;
  }

  lemma LevelIsRead(level: string, gap: string, rest: string)
    requires level != [] && (forall c :: c in level ==> Upper(c)) && Gap(gap, rest)
    ensures ParseLevel(level + (":" + (gap + rest))) == Some((level, rest))
  {
    PlusOf(Upper, level, ":" + (gap + rest));
    assert (":" + (gap + rest))[1..] == gap + rest;
    if gap == "" {
      assert gap + rest == rest;
    } else {
      assert (gap + rest)[1..] == rest;
    }
  }

  lemma TzPidIsRead(tz: string, pid: string, rest: string)
    requires tz != [] && (forall c :: c in tz ==> NonSpace(c)) && pid != [] && (forall c :: c in pid ==> Digit(c))
    ensures ParseTzPid(tz + (" [" + (pid + ("] " + rest)))) == Some((tz, pid, rest))
  {
    PlusOf(NonSpace, tz, " [" + (pid + ("] " + rest)));
    PlusOf(Digit, pid, "] " + rest);
  }

  lemma CutBehind(a: string, b: string)
    ensures a <= a + b && (a + b)[..|a|] == a && (a + b)[|a|..] == b
  {
  }

  lemma HeaderTextIsRead(m: Meta, gap: string, rest: string)
    requires WellFormedMeta(m) && Gap(gap, rest)
    ensures ParseHeader(HeaderText(m, gap, rest)) == Some(HeaderLine(m, rest))
  {
    var tail := m.level + (":" + (gap + rest));
    var line := HeaderText(m, gap, rest);
    FitsGrows(TIMESTAMP, m.ts, line);
    CutBehind(m.ts, " " + (m.tz + (" [" + (m.pid + ("] " + tail)))));
    CutBehind(" ", m.tz + (" [" + (m.pid + ("] " + tail))));
    TzPidIsRead(m.tz, m.pid, tail);
    LevelIsRead(m.level, gap, rest);
  }

  lemma HeaderIsRead(m: Meta, rest: string)
    requires WellFormedMeta(m)
    ensures ParseHeader(WriteHeader(m, rest)) == Some(HeaderLine(m, rest))
  {
    HeaderTextIsRead(m, " ", rest);
  }

  // ---- What is read was written like that ----

  lemma {:induction false} RunIsClass(p: char -> bool, s: string)
    ensures forall c :: c in s[..Run(p, s)] ==> p(c)
  {
    if s == [] || !p(s[0]) {
    } else {
      RunIsClass(p, s[1..]);
      assert s[..Run(p, s)] == [s[0]] + s[1..][..Run(p, s[1..])];
    }
  }

  lemma PlusMeans(p: char -> bool, s: string)
    requires Plus(p, s).Some?
    ensures var (run, tail) := Plus(p, s).value; s == run + tail && run != [] && forall c :: c in run ==> p(c)
  {
    RunIsClass(p, s);
  }

  lemma ExpectMeans(literal: string, s: string)
    requires Expect(literal, s).Some?
    ensures s == literal + Expect(literal, s).value
  {
  }

  lemma LevelMeans(s: string) returns (gap: string)
    requires ParseLevel(s).Some?
    ensures var (level, rest) := ParseLevel(s).value;
      s == level + (":" + (gap + rest)) && Gap(gap, rest) && level != [] && forall c :: c in level ==> Upper(c)
  {
    var (level, a) := Plus(Upper, s).value;
    PlusMeans(Upper, s);
    ExpectMeans(":", a);
    var tail := Expect(":", a).value;
    gap := if tail != [] && Space(tail[0]) then [tail[0]] else "";
    assert tail == gap + ParseLevel(s).value.1;
  }

  lemma TzPidMeans(s: string)
    requires ParseTzPid(s).Some?
    ensures var (tz, pid, rest) := ParseTzPid(s).value;
      s == tz + (" [" + (pid + ("] " + rest)))
      && tz != [] && (forall c :: c in tz ==> NonSpace(c)) && pid != [] && forall c :: c in pid ==> Digit(c)
  {
    var (tz, a) := Plus(NonSpace, s).value;
    PlusMeans(NonSpace, s);
    ExpectMeans(" [", a);
    var b := Expect(" [", a).value;
    var (pid, c) := Plus(Digit, b).value;
    PlusMeans(Digit, b);
    ExpectMeans("] ", c);
  }

  /** A line is read as a header only if it is one, and its parts are the parts of the line. */
  lemma HeaderMeans(line: string) returns (gap: string)
    requires ParseHeader(line).Some?
    ensures var h := ParseHeader(line).value;
      WellFormedMeta(h.meta) && Gap(gap, h.rest) && line == HeaderText(h.meta, gap, h.rest)
  {
    var ts, a := line[..|TIMESTAMP|], line[|TIMESTAMP|..];
    assert line == ts + a;
    ExpectMeans(" ", a);
    FitsGrows(TIMESTAMP, ts, line);
    var body := Expect(" ", a).value;
    TzPidMeans(body);
    gap := LevelMeans(ParseTzPid(body).value.2);
  }

  lemma PlainTail(a: string, b: string)
    requires NoNewline(a + b)
    ensures NoNewline(b)
  {
    forall i | 0 <= i < |b|
      ensures b[i] != '\n'
    {
      assert (a + b)[|a| + i] == b[i];
    }
  }

  /** The text behind a header is the end of its line. */
  lemma RestIsPlain(m: Meta, gap: string, rest: string)
    requires NoNewline(HeaderText(m, gap, rest))
    ensures NoNewline(rest)
  {
    var level := m.level + (":" + (gap + rest));
    var pid := m.pid + ("] " + level);
    var tz := m.tz + (" [" + pid);
    PlainTail(m.ts, " " + tz);
    PlainTail(" ", tz);
    PlainTail(m.tz, " [" + pid);
    PlainTail(" [", pid);
    PlainTail(m.pid, "] " + level);
    PlainTail("] ", level);
    PlainTail(m.level, ":" + (gap + rest));
    PlainTail(":", gap + rest);
    PlainTail(gap, rest);
  }
}
