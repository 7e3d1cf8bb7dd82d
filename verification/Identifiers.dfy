/** Identifier extraction (normalization/normalizer.py, patterns of config.py), on ASCII text. */
module Identifiers {
  import opened Options
  import opened Collections
  import opened OrderedDicts

  datatype Key = RequestId | TraceId | UserId | ErrorCode | ServiceName

  /** The keys in the order of CORRELATION_KEY_PATTERNS. */
  const KEYS: seq<Key> := [RequestId, TraceId, UserId, ErrorCode, ServiceName]

  function Name(k: Key): string {
    match k
    case RequestId => "request_id"
    case TraceId => "trace_id"
    case UserId => "user_id"
    case ErrorCode => "error_code"
    case ServiceName => "service_name"
  }

  /** The keyword alternatives of a pattern, in order; '?' stands for an optional underscore or hyphen. */
  function Words(k: Key): seq<string> {
    match k
    case RequestId => ["request?id", "req?id", "x-request-id"]
    case TraceId => ["trace?id", "x-b3-traceid", "x-amzn-trace-id"]
    case UserId => ["user?id", "uid"]
    case ErrorCode => ["error?code", "err?code", "status"]
    case ServiceName => ["service?name", "svc"]
  }

  function MinLength(k: Key): nat {
    match k
    case RequestId => 8
    case TraceId => 8
    case UserId => 3
    case ErrorCode => 2
    case ServiceName => 2
  }

  predicate Alphanumeric(c: char) {
    'a' <= c <= 'z' || 'A' <= c <= 'Z' || '0' <= c <= '9'
  }

  /** The capture class of a pattern; matching ignores case, so [A-Z] also takes lower-case letters. */
  predicate InClass(k: Key, c: char) {
    Alphanumeric(c) || c == '-' || (k == ErrorCode && c == '_') || (k == ServiceName && (c == '_' || c == '.'))
  }

  /** [=:\s] */
  predicate Separator(c: char) {
    c == '=' || c == ':' || c == ' ' || 9 <= c as int <= 13 || 28 <= c as int <= 31
  }

  function Lower(c: char): char {
    if 'A' <= c <= 'Z' then ((c as int) + 32) as char else c
  }

  /** What is left of `s` behind the keyword `w`, trying to take an optional joint before leaving it out. */
  function MatchWord(w: string, s: string): Option<string>
    decreases |w|
  {
    if w == [] then Some(s)
    else if w[0] == '?' then
      var taken := if s != [] && (s[0] == '_' || s[0] == '-') then MatchWord(w[1..], s[1..]) else None;
      if taken.Some? then taken else MatchWord(w[1..], s)
    else if s != [] && Lower(s[0]) == w[0] then MatchWord(w[1..], s[1..])
    else None
  }

  /** Length of the longest leading run of separators; no separator is in a capture class, so the pattern has to take
      the whole run. */
  function SeparatorRun(s: string): (n: nat)
    ensures n <= |s|
  {
    if s == [] || !Separator(s[0]) then 0 else 1 + SeparatorRun(s[1..])
  }

  function ClassRun(k: Key, s: string): (n: nat)
    ensures n <= |s|
  {
    if s == [] || !InClass(k, s[0]) then 0 else 1 + ClassRun(k, s[1..])
  }

  /** The rest of the pattern behind a keyword: at least one separator, then a long enough value. */
  function Capture(k: Key, s: string): Option<string> {
    var n := SeparatorRun(s);
    var m := ClassRun(k, s[n..]);
    if n >= 1 && m >= MinLength(k) then Some(s[n..][..m]) else None
  }

  function MatchFrom(k: Key, words: seq<string>, s: string): Option<string> {
    if words == [] then None
    else
      var rest := MatchWord(words[0], s);
      var value := if rest.Some? then Capture(k, rest.value) else None;
      if value.Some? then value else MatchFrom(k, words[1..], s)
  }

  /** The leftmost position at which one of the keywords starts a match. */
  function SearchFrom(k: Key, words: seq<string>, s: string): Option<string>
    decreases |s|
  {
    if MatchFrom(k, words, s).Some? then MatchFrom(k, words, s)
    else if s == [] then None
    else SearchFrom(k, words, s[1..])
  }

  /** pattern.search */
  function Search(k: Key, s: string): Option<string> {
    SearchFrom(k, Words(k), s)
  }

  function ExtractUpTo(text: string, n: nat): OrderedDict<string, string>
    requires n <= |KEYS|
  {
    if n == 0 then Empty()
    else
      var found := Search(KEYS[n - 1], text);
      if found.Some? then Put(ExtractUpTo(text, n - 1), Name(KEYS[n - 1]), found.value) else ExtractUpTo(text, n - 1)
  }

  function Extract(text: string): OrderedDict<string, string> {
    ExtractUpTo(text, |KEYS|)
  }

  method ExtractIdentifiers(text: string) returns (found: OrderedDict<string, string>)
    ensures found == Extract(text)
  {
    found := Empty();
    for i := 0 to |KEYS|
      invariant found == ExtractUpTo(text, i)
    {
      var m := Search(KEYS[i], text);
      if m.Some? {
        found := Put(found, Name(KEYS[i]), m.value);
      }
    }
  }

  lemma {:induction false} ExtractUpToSpec(text: string, n: nat, k: Key)
    requires n <= |KEYS|
    ensures Name(k) in ExtractUpTo(text, n).values <==> k in KEYS[..n] && Search(k, text).Some?
    ensures Name(k) in ExtractUpTo(text, n).values ==> ExtractUpTo(text, n).values[Name(k)] == Search(k, text).value
  {
    if n == 0 {
    } else {
      ExtractUpToSpec(text, n - 1, k);
      assert KEYS[..n] == KEYS[..n - 1] + [KEYS[n - 1]];
      NamesDiffer(k, KEYS[n - 1]);
      KeysDiffer();
    }
  }

  lemma NamesDiffer(k: Key, other: Key)
    ensures Name(k) == Name(other) <==> k == other
  {
    assert Name(k)[0] == Name(other)[0] ==> k == other;
  }

  lemma KeysDiffer()
    ensures forall i, j :: 0 <= i < j < |KEYS| ==> KEYS[i] != KEYS[j]
  {
  }

  lemma {:induction false} ExtractOnlyKeys(text: string, n: nat, name: string)
    requires n <= |KEYS|
    ensures name in ExtractUpTo(text, n).values ==> exists k :: Name(k) == name
  {
    if n == 0 {
    } else {
      ExtractOnlyKeys(text, n - 1, name);
    }
  }

  /** The extracted dictionary holds, under each of the five names, the leftmost match of its pattern, and nothing
      else. */
  lemma ExtractSpec(text: string, k: Key)
    ensures Name(k) in Extract(text).values <==> Search(k, text).Some?
    ensures Name(k) in Extract(text).values ==> Extract(text).values[Name(k)] == Search(k, text).value
  {
    ExtractUpToSpec(text, |KEYS|, k);
    assert k == KEYS[if k == RequestId then 0 else if k == TraceId then 1 else if k == UserId then 2
                     else if k == ErrorCode then 3 else 4];
  }

  // ---- What a match means ----

  /** `kw` is one way of writing the keyword `w`. */
  ghost predicate Spells(w: string, kw: string)
    decreases |w|
  {
    if w == [] then kw == []
    else if w[0] == '?' then
      Spells(w[1..], kw) || (kw != [] && (kw[0] == '_' || kw[0] == '-') && Spells(w[1..], kw[1..]))
    else kw != [] && Lower(kw[0]) == w[0] && Spells(w[1..], kw[1..])
  }

  lemma {:induction false} MatchWordMeans(w: string, s: string) returns (kw: string)
    requires MatchWord(w, s).Some?
    ensures s == kw + MatchWord(w, s).value && Spells(w, kw)
    decreases |w|
  {
    if w == [] {
      kw := [];
    } else if w[0] == '?' && !(s != [] && (s[0] == '_' || s[0] == '-') && MatchWord(w[1..], s[1..]).Some?) {
      kw := MatchWordMeans(w[1..], s);
    } else {
      kw := MatchWordMeans(w[1..], s[1..]);
      kw := [s[0]] + kw;
      assert kw[1..] + MatchWord(w, s).value == s[1..];
    }
  }

  /** `s` starts with a keyword of `k`, separators, and the value `v`, which is as long as it can be. */
  ghost predicate Denotes(k: Key, s: string, v: string) {
    exists w, kw, seps, tail :: w in Words(k) && Parses(k, s, v, w, kw, seps, tail)
  }

  ghost predicate Parses(k: Key, s: string, v: string, w: string, kw: string, seps: string, tail: string) {
    s == kw + seps + v + tail
    && Spells(w, kw)
    && seps != [] && (forall c :: c in seps ==> Separator(c))
    && |v| >= MinLength(k) && (forall c :: c in v ==> InClass(k, c))
    && (tail != [] ==> !InClass(k, tail[0]))
  }

  lemma {:induction false} SeparatorRunSpec(s: string)
    ensures forall c :: c in s[..SeparatorRun(s)] ==> Separator(c)
  {
    if s == [] || !Separator(s[0]) {
    } else {
      SeparatorRunSpec(s[1..]);
      assert s[..SeparatorRun(s)] == [s[0]] + s[1..][..SeparatorRun(s[1..])];
    }
  }

  lemma {:induction false} ClassRunSpec(k: Key, s: string)
    ensures forall c :: c in s[..ClassRun(k, s)] ==> InClass(k, c)
    ensures ClassRun(k, s) < |s| ==> !InClass(k, s[ClassRun(k, s)])
  {
    if s == [] || !InClass(k, s[0]) {
    } else {
      ClassRunSpec(k, s[1..]);
      assert s[..ClassRun(k, s)] == [s[0]] + s[1..][..ClassRun(k, s[1..])];
    }
  }

  lemma CaptureParses(k: Key, w: string, kw: string, r: string) returns (seps: string, tail: string)
    requires Spells(w, kw) && Capture(k, r).Some?
    ensures Parses(k, kw + r, Capture(k, r).value, w, kw, seps, tail)
  {
    var n := SeparatorRun(r);
    var m := ClassRun(k, r[n..]);
    seps, tail := r[..n], r[n..][m..];
    var v := r[n..][..m];
    SeparatorRunSpec(r);
    ClassRunSpec(k, r[n..]);
    assert r == seps + (v + tail);
    ConcatAssoc(kw, seps, v + tail);
    ConcatAssoc(kw + seps, v, tail);
  }

  lemma {:induction false} MatchFromMeans(k: Key, words: seq<string>, s: string)
    requires forall w :: w in words ==> w in Words(k)
    requires MatchFrom(k, words, s).Some?
    ensures Denotes(k, s, MatchFrom(k, words, s).value)
  {
    var rest := MatchWord(words[0], s);
    if rest.Some? && Capture(k, rest.value).Some? {
      var kw := MatchWordMeans(words[0], s);
      var seps, tail := CaptureParses(k, words[0], kw, rest.value);
    } else {
      MatchFromMeans(k, words[1..], s);
    }
  }

  ghost predicate FoundAt(k: Key, words: seq<string>, s: string, v: string, at: nat) {
    at <= |s| && Denotes(k, s[at..], v) && forall i :: 0 <= i < at ==> MatchFrom(k, words, s[i..]).None?
  }

  lemma FoundLater(k: Key, words: seq<string>, s: string, v: string, at: nat)
    requires s != [] && MatchFrom(k, words, s).None? && FoundAt(k, words, s[1..], v, at)
    ensures FoundAt(k, words, s, v, at + 1)
  {
    assert s[1..][at..] == s[at + 1..];
    forall i | 0 <= i < at + 1
      ensures MatchFrom(k, words, s[i..]).None?
    {
      if i == 0 {
        assert s[0..] == s;
      } else {
        assert s[1..][i - 1..] == s[i..];
      }
    }
  }

  lemma {:induction false} SearchFromMeans(k: Key, words: seq<string>, s: string) returns (at: nat)
    requires forall w :: w in words ==> w in Words(k)
    requires SearchFrom(k, words, s).Some?
    ensures FoundAt(k, words, s, SearchFrom(k, words, s).value, at)
    decreases |s|
  {
    if MatchFrom(k, words, s).Some? {
      at := 0;
      assert s[0..] == s;
      MatchFromMeans(k, words, s);
    } else {
      at := SearchFromMeans(k, words, s[1..]);
      FoundLater(k, words, s, SearchFrom(k, words, s).value, at);
      at := at + 1;
    }
  }

  /** A search result is written in the text behind a keyword and separators, and nothing matches further left. */
  lemma SearchMeans(k: Key, s: string) returns (at: nat)
    requires Search(k, s).Some?
    ensures at <= |s| && Denotes(k, s[at..], Search(k, s).value)
    ensures forall i :: 0 <= i < at ==> MatchFrom(k, Words(k), s[i..]).None?
  {
    at := SearchFromMeans(k, Words(k), s);
  }

  // ---- Where a match cannot be ----

  predicate WordChar(c: char) {
    Alphanumeric(c) || c == '-' || c == '_'
  }

  predicate AllWordChars(s: string) {
    forall i :: 0 <= i < |s| ==> WordChar(s[i])
  }

  /** Templates use word characters and '?' only, and start with a letter. */
  ghost predicate ProperWord(w: string) {
    (forall c :: c in w ==> c == '?' || WordChar(c)) && w != [] && 'a' <= w[0] <= 'z'
  }

  lemma WordsAreProper(k: Key)
    ensures forall w :: w in Words(k) ==> ProperWord(w)
  {
  }

  /** Appending text that no keyword can run into does not change how a keyword matches. */
  lemma {:induction false} MatchWordExtend(w: string, s: string, t: string)
    requires forall c :: c in w ==> c == '?' || WordChar(c)
    requires t != [] && !WordChar(t[0])
    ensures MatchWord(w, s + t) == if MatchWord(w, s).Some? then Some(MatchWord(w, s).value + t) else None
    decreases |w|
  {
    if w == [] {
    } else {
      assert forall c :: c in w[1..] ==> c in w;
      MatchWordExtend(w[1..], s, t);
      if s == [] {
        assert s + t == t;
        assert w[0] in w;
      } else {
        assert (s + t)[1..] == s[1..] + t;
        MatchWordExtend(w[1..], s[1..], t);
      }
    }
  }

  /** No keyword of `k` in `s` is followed by a separator or by the end of `s`. */
  predicate Unexposed(k: Key, s: string) {
    AllUnexposed(Words(k), s)
  }

  predicate AllUnexposed(words: seq<string>, s: string)
    decreases |s|
  {
    s == [] || (NoneExposed(words, s) && AllUnexposed(words, s[1..]))
  }

  predicate NoneExposed(words: seq<string>, s: string) {
    words == []
    || (NotExposed(MatchWord(words[0], s)) && NoneExposed(words[1..], s))
  }

  predicate NotExposed(rest: Option<string>) {
    rest.Some? ==> rest.value != [] && !Separator(rest.value[0])
  }

  lemma {:induction false} NoneExposedNoMatch(k: Key, words: seq<string>, s: string)
    requires NoneExposed(words, s)
    ensures MatchFrom(k, words, s) == None
  {
    if words == [] {
    } else {
      NoneExposedNoMatch(k, words[1..], s);
    }
  }

  lemma {:induction false} EmptyNoMatch(words: seq<string>)
    requires forall w :: w in words ==> ProperWord(w)
    ensures NoneExposed(words, [])
  {
    if words == [] {
    } else {
      assert ProperWord(words[0]);
      EmptyNoMatch(words[1..]);
    }
  }

  lemma {:induction false} AllUnexposedNoSearch(k: Key, words: seq<string>, s: string)
    requires forall w :: w in words ==> ProperWord(w)
    requires AllUnexposed(words, s)
    ensures SearchFrom(k, words, s) == None
    decreases |s|
  {
    if s == [] {
      EmptyNoMatch(words);
      NoneExposedNoMatch(k, words, []);
    } else {
      NoneExposedNoMatch(k, words, s);
      AllUnexposedNoSearch(k, words, s[1..]);
    }
  }

  lemma UnexposedNoSearch(k: Key, s: string)
    requires Unexposed(k, s)
    ensures Search(k, s) == None
  {
    WordsAreProper(k);
    AllUnexposedNoSearch(k, Words(k), s);
  }

  lemma {:induction false} NoneExposedExtend(words: seq<string>, s: string, t: string)
    requires forall w :: w in words ==> ProperWord(w)
    requires t != [] && !WordChar(t[0]) && s != []
    requires NoneExposed(words, s)
    ensures NoneExposed(words, s + t)
  {
    if words == [] {
    } else {
      assert ProperWord(words[0]);
      MatchWordExtend(words[0], s, t);
      NoneExposedExtend(words[1..], s, t);
    }
  }

  lemma {:induction false} BreakStartsNoWord(words: seq<string>, s: string)
    requires forall w :: w in words ==> ProperWord(w)
    requires s != [] && !WordChar(s[0])
    ensures NoneExposed(words, s)
  {
    if words == [] {
    } else {
      assert ProperWord(words[0]);
      BreakStartsNoWord(words[1..], s);
    }
  }

  lemma UnexposedBreak(k: Key, c: char, b: string)
    requires !WordChar(c) && Unexposed(k, b)
    ensures Unexposed(k, [c] + b)
  {
    WordsAreProper(k);
    BreakStartsNoWord(Words(k), [c] + b);
    assert ([c] + b)[1..] == b;
  }

  lemma {:induction false} AllUnexposedJoin(words: seq<string>, a: string, t: string)
    requires forall w :: w in words ==> ProperWord(w)
    requires AllUnexposed(words, a) && AllUnexposed(words, t) && t != [] && !WordChar(t[0])
    ensures AllUnexposed(words, a + t)
    decreases |a|
  {
    if a == [] {
      assert a + t == t;
    } else {
      AllUnexposedJoin(words, a[1..], t);
      NoneExposedExtend(words, a, t);
      assert (a + t)[1..] == a[1..] + t;
    }
  }

  /** Unexposed pieces make an unexposed text when the second starts with a character that no keyword contains. */
  lemma UnexposedJoin(k: Key, a: string, t: string)
    requires Unexposed(k, a) && Unexposed(k, t) && t != [] && !WordChar(t[0])
    ensures Unexposed(k, a + t)
  {
    WordsAreProper(k);
    AllUnexposedJoin(Words(k), a, t);
  }
}
