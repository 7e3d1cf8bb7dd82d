/** What `pattern.search` finds, from the text alone (normalization/normalizer.py, patterns of config.py). */
module IdentifierSearch {
  import opened Options
  import opened Collections
  import opened Selections
  import opened Identifiers

  /** A joint is never the last character of a template, and a letter follows it. */
  ghost predicate JointsInside(w: string) {
    forall i :: 0 <= i < |w| && w[i] == '?' ==> i + 1 < |w| && 'a' <= w[i + 1] <= 'z'
  }

  lemma RequestJoints()
    ensures JointsInside("request?id") && JointsInside("req?id") && JointsInside("x-request-id")
  {
  }

  lemma TraceJoints()
    ensures JointsInside("trace?id") && JointsInside("x-b3-traceid") && JointsInside("x-amzn-trace-id")
  {
  }

  lemma UserJoints()
    ensures JointsInside("user?id") && JointsInside("uid")
  {
  }

  lemma ErrorJoints()
    ensures JointsInside("error?code") && JointsInside("err?code") && JointsInside("status")
  {
  }

  lemma ServiceJoints()
    ensures JointsInside("service?name") && JointsInside("svc")
  {
  }

  lemma WordsHaveJointsInside(k: Key)
    ensures forall w :: w in Words(k) ==> JointsInside(w)
  {
    match k
    case RequestId => RequestJoints();
    case TraceId => TraceJoints();
    case UserId => UserJoints();
    case ErrorCode => ErrorJoints();
    case ServiceName => ServiceJoints();
  }

  lemma JointsInsideTail(w: string)
    requires JointsInside(w) && w != []
    ensures JointsInside(w[1..])
  {
    forall i | 0 <= i < |w[1..]| && w[1..][i] == '?'
      ensures i + 1 < |w[1..]| && 'a' <= w[1..][i + 1] <= 'z'
    {
      assert w[i + 1] == '?';
    }
  }

  /** However a keyword is written, matching takes all of it and no more. */
  lemma {:induction false} MatchWordTakes(w: string, kw: string, rest: string)
    requires JointsInside(w) && Spells(w, kw)
    ensures MatchWord(w, kw + rest) == Some(rest)
    decreases |w|
  {
    if w == [] {
      assert kw + rest == rest;
    } else {
      JointsInsideTail(w);
      if w[0] == '?' && Spells(w[1..], kw) {
        assert w[1] != '?' && kw != [] && Lower(kw[0]) == w[1];
        assert (kw + rest)[0] == kw[0];
        MatchWordTakes(w[1..], kw, rest);
      } else {
        assert (kw + rest)[1..] == kw[1..] + rest;
        MatchWordTakes(w[1..], kw[1..], rest);
      }
    }
  }

  lemma {:induction false} SpellingHasNoSeparator(w: string, kw: string)
    requires Spells(w, kw) && forall c :: c in w ==> c == '?' || WordChar(c)
    ensures forall i :: 0 <= i < |kw| ==> !Separator(kw[i])
    decreases |w|
  {
    if w == [] {
    } else if w[0] == '?' && Spells(w[1..], kw) {
      SpellingHasNoSeparator(w[1..], kw);
    } else {
      assert w[0] in w;
      SpellingHasNoSeparator(w[1..], kw[1..]);
    }
  }

  lemma {:induction false} SeparatorRunIs(seps: string, s: string)
    requires (forall c :: c in seps ==> Separator(c)) && (s != [] ==> !Separator(s[0]))
    ensures SeparatorRun(seps + s) == |seps|
  {
    if seps == [] {
      assert seps + s == s;
    } else {
      assert (seps + s)[1..] == seps[1..] + s;
      SeparatorRunIs(seps[1..], s);
    }
  }

  lemma {:induction false} ClassRunIs(k: Key, v: string, s: string)
    requires (forall c :: c in v ==> InClass(k, c)) && (s != [] ==> !InClass(k, s[0]))
    ensures ClassRun(k, v + s) == |v|
  {
    if v == [] {
      assert v + s == s;
    } else {
      assert (v + s)[1..] == v[1..] + s;
      ClassRunIs(k, v[1..], s);
    }
  }

  lemma CaptureTakes(k: Key, seps: string, v: string, tail: string)
    requires seps != [] && (forall c :: c in seps ==> Separator(c))
    requires |v| >= MinLength(k) && (forall c :: c in v ==> InClass(k, c)) && (tail != [] ==> !InClass(k, tail[0]))
    ensures Capture(k, seps + (v + tail)) == Some(v)
  {
    assert v[0] in v;
    SeparatorRunIs(seps, v + tail);
    ClassRunIs(k, v, tail);
    assert (seps + (v + tail))[|seps|..] == v + tail;
    assert (v + tail)[..|v|] == v;
  }

  lemma ParsesIsTaken(k: Key, s: string, v: string, w: string, kw: string, seps: string, tail: string)
    requires w in Words(k) && Parses(k, s, v, w, kw, seps, tail)
    ensures MatchWord(w, s) == Some(seps + (v + tail)) && Capture(k, seps + (v + tail)) == Some(v)
  {
    WordsHaveJointsInside(k);
    ConcatAssoc(kw + seps, v, tail);
    ConcatAssoc(kw, seps, v + tail);
    MatchWordTakes(w, kw, seps + (v + tail));
    CaptureTakes(k, seps, v, tail);
  }

  lemma {:induction false} MatchFromFinds(k: Key, words: seq<string>, s: string, w: string)
    requires w in words && MatchWord(w, s).Some? && Capture(k, MatchWord(w, s).value).Some?
    ensures MatchFrom(k, words, s).Some?
  {
    if w != words[0] {
      assert words == [words[0]] + words[1..];
      MatchFromFinds(k, words[1..], s, w);
    }
  }

  lemma DenotedIsMatched(k: Key, s: string, v: string)
    requires Denotes(k, s, v)
    ensures MatchFrom(k, Words(k), s).Some?
  {
    var w, kw, seps, tail :| w in Words(k) && Parses(k, s, v, w, kw, seps, tail);
    ParsesIsTaken(k, s, v, w, kw, seps, tail);
    MatchFromFinds(k, Words(k), s, w);
  }

  /** The keyword ends where the first separator is. */
  lemma KeywordEndsAtSeparator(k: Key, s: string, v: string, w: string, kw: string, seps: string, tail: string)
    requires w in Words(k) && Parses(k, s, v, w, kw, seps, tail)
    ensures |kw| < |s| && s[..|kw|] == kw && Separator(s[|kw|]) && s[|kw|..] == seps + (v + tail)
    ensures forall i :: 0 <= i < |kw| ==> !Separator(s[i])
  {
    WordsAreProper(k);
    SpellingHasNoSeparator(w, kw);
    ConcatAssoc(kw + seps, v, tail);
    ConcatAssoc(kw, seps, v + tail);
    assert s == kw + (seps + (v + tail));
    assert s[|kw|] == seps[0];
    assert seps[0] in seps;
  }

  lemma DenotesOne(k: Key, s: string, v: string, u: string)
    requires Denotes(k, s, v) && Denotes(k, s, u)
    ensures v == u
  {
    var w, kw, seps, tail :| w in Words(k) && Parses(k, s, v, w, kw, seps, tail);
    var w', kw', seps', tail' :| w' in Words(k) && Parses(k, s, u, w', kw', seps', tail');
    KeywordEndsAtSeparator(k, s, v, w, kw, seps, tail);
    KeywordEndsAtSeparator(k, s, u, w', kw', seps', tail');
    assert |kw| == |kw'|;
    ParsesIsTaken(k, s, v, w, kw, seps, tail);
    ParsesIsTaken(k, s, u, w', kw', seps', tail');
  }

  /** At one position the pattern matches exactly what the text there denotes. */
  lemma MatchedIffDenoted(k: Key, s: string, v: string)
    ensures MatchFrom(k, Words(k), s) == Some(v) <==> Denotes(k, s, v)
  {
    if MatchFrom(k, Words(k), s).Some? {
      MatchFromMeans(k, Words(k), s);
    }
    if Denotes(k, s, v) {
      DenotedIsMatched(k, s, v);
      DenotesOne(k, s, v, MatchFrom(k, Words(k), s).value);
    }
  }

  /** `v` is denoted at position `at`, and nothing is denoted further left. */
  ghost predicate FirstDenoted(k: Key, s: string, v: string, at: nat) {
    at <= |s| && Denotes(k, s[at..], v) && forall i, u :: 0 <= i < at ==> !Denotes(k, s[i..], u)
  }

  lemma {:induction false} SearchReaches(k: Key, s: string, at: nat)
    requires at <= |s| && MatchFrom(k, Words(k), s[at..]).Some?
    requires forall i :: 0 <= i < at ==> MatchFrom(k, Words(k), s[i..]).None?
    ensures Search(k, s) == MatchFrom(k, Words(k), s[at..])
    decreases |s|
  {
    assert s[0..] == s;
    if at > 0 {
      assert s[1..][at - 1..] == s[at..];
      forall i | 0 <= i < at - 1
        ensures MatchFrom(k, Words(k), s[1..][i..]).None?
      {
        assert s[1..][i..] == s[i + 1..];
      }
      SearchReaches(k, s[1..], at - 1);
    }
  }

  /** A search finds a value exactly when the text denotes it further left than any other. */
  lemma SearchIff(k: Key, s: string, v: string)
    ensures Search(k, s) == Some(v) <==> exists at: nat :: FirstDenoted(k, s, v, at)
  {
    if Search(k, s) == Some(v) {
      var at := SearchMeans(k, s);
      forall i, u | 0 <= i < at
        ensures !Denotes(k, s[i..], u)
      {
        MatchedIffDenoted(k, s[i..], u);
      }
      assert FirstDenoted(k, s, v, at);
    }
    if at: nat :| FirstDenoted(k, s, v, at) {
      MatchedIffDenoted(k, s[at..], v);
      forall i | 0 <= i < at
        ensures MatchFrom(k, Words(k), s[i..]).None?
      {
        if MatchFrom(k, Words(k), s[i..]).Some? {
          MatchedIffDenoted(k, s[i..], MatchFrom(k, Words(k), s[i..]).value);
        }
      }
      SearchReaches(k, s, at);
    }
  }

  /** The identifiers of a text: under each name what its pattern denotes first, and nothing under any other name. */
  lemma ExtractIff(text: string, name: string, v: string)
    ensures (name in Extract(text).values && Extract(text).values[name] == v)
      <==> exists k: Key, at: nat :: Name(k) == name && FirstDenoted(k, text, v, at)
  {
    if name in Extract(text).values && Extract(text).values[name] == v {
      ExtractOnlyKeys(text, |KEYS|, name);
      var k :| Name(k) == name;
      ExtractSpec(text, k);
      SearchIff(k, text, v);
    }
    if k: Key, at: nat :| Name(k) == name && FirstDenoted(k, text, v, at) {
      SearchIff(k, text, v);
      ExtractSpec(text, k);
    }
  }

  function NameIfFound(text: string): Key -> Option<string> {
    (k: Key) => if Search(k, text).Some? then Some(Name(k)) else None
  }

  lemma {:induction false} ExtractedUpTo(text: string, n: nat) returns (at: seq<nat>)
    requires n <= |KEYS|
    ensures Yields(NameIfFound(text), KEYS[..n], ExtractUpTo(text, n).keys, at)
  {
    if n == 0 {
      at := [];
    } else {
      var k := KEYS[n - 1];
      at := ExtractedUpTo(text, n - 1);
      ExtractUpToSpec(text, n - 1, k);
      KeysDiffer();
      assert KEYS[..n][..|KEYS[..n]| - 1] == KEYS[..n - 1];
      at := YieldsLast(NameIfFound(text), KEYS[..n], ExtractUpTo(text, n - 1).keys, at);
    }
  }

  /** The names found come in the order of the patterns, each once. */
  lemma ExtractedInOrder(text: string) returns (at: seq<nat>)
    ensures Yields(NameIfFound(text), KEYS, Extract(text).keys, at)
  {
    at := ExtractedUpTo(text, |KEYS|);
    assert KEYS[..|KEYS|] == KEYS;
  }
}
