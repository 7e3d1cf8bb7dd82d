/** How one " key=value" token in the middle of a text is read back. */
module Tokens {
  import opened Options
  import opened Collections
  import opened Identifiers
  import opened Composer

  lemma {:induction false} SeparatorRunStops(r: string, t: string)
    requires r != [] && !Separator(r[|r| - 1])
    ensures SeparatorRun(r + t) == SeparatorRun(r) < |r|
  {
    if !Separator(r[0]) {
    } else {
      assert (r + t)[1..] == r[1..] + t;
      SeparatorRunStops(r[1..], t);
    }
  }

  lemma {:induction false} ClassRunStops(k: Key, r: string, t: string)
    requires t == [] || !InClass(k, t[0])
    ensures ClassRun(k, r + t) == ClassRun(k, r)
  {
    if r == [] {
      assert r + t == t;
    } else if InClass(k, r[0]) {
      assert (r + t)[1..] == r[1..] + t;
      ClassRunStops(k, r[1..], t);
    }
  }

  lemma CaptureStops(k: Key, r: string, t: string)
    requires r != [] && !Separator(r[|r| - 1])
    requires t != [] && !InClass(k, t[0])
    ensures Capture(k, r + t) == Capture(k, r)
  {
    var n := SeparatorRun(r);
    SeparatorRunStops(r, t);
    assert (r + t)[n..] == r[n..] + t;
    ClassRunStops(k, r[n..], t);
    assert (r[n..] + t)[..ClassRun(k, r[n..])] == r[n..][..ClassRun(k, r[n..])];
  }

  /** A keyword only consumes word characters. */
  lemma {:induction false} MatchWordConsumes(w: string, s: string) returns (n: nat)
    requires forall c :: c in w ==> c == '?' || WordChar(c)
    requires MatchWord(w, s).Some?
    ensures n <= |s| && MatchWord(w, s).value == s[n..] && forall i :: 0 <= i < n ==> WordChar(s[i])
    decreases |w|
  {
    if w == [] {
      n := 0;
    } else {
      assert forall c :: c in w[1..] ==> c in w;
      assert w[0] in w;
      if w[0] == '?' && !(s != [] && (s[0] == '_' || s[0] == '-') && MatchWord(w[1..], s[1..]).Some?) {
        n := MatchWordConsumes(w[1..], s);
      } else {
        n := MatchWordConsumes(w[1..], s[1..]);
        assert forall i :: 0 < i < n + 1 ==> s[i] == s[1..][i - 1];
        n := n + 1;
      }
    }
  }

  /** In front of a keyword the text ahead of its '=' decides, as long as a blank separates the two. */
  lemma {:induction false} MatchFromStops(k: Key, words: seq<string>, lead: string, word: string, t: string)
    requires forall w :: w in words ==> ProperWord(w)
    requires lead != [] && lead[|lead| - 1] == ' ' && word != [] && AllWordChars(word)
    requires t != [] && t[0] == '='
    ensures MatchFrom(k, words, lead + word + t) == MatchFrom(k, words, lead + word)
  {
    if words == [] {
    } else {
      var s := lead + word;
      assert ProperWord(words[0]);
      MatchWordExtend(words[0], s, t);
      if MatchWord(words[0], s).Some? {
        var n := MatchWordConsumes(words[0], s);
        assert s[|lead| - 1] == ' ';
        assert s[|s| - 1] == word[|word| - 1];
        CaptureStops(k, s[n..], t);
      }
      MatchFromStops(k, words[1..], lead, word, t);
    }
  }

  /** At the keyword itself the token's value is captured. */
  lemma {:induction false} MatchFromToken(k: Key, words: seq<string>, word: string, t: string, j: nat)
    requires forall w :: w in words ==> ProperWord(w)
    requires AllWordChars(word) && t != [] && !WordChar(t[0])
    requires j < |words| && MatchWord(words[j], word) == Some([])
    requires Capture(k, t).Some?
    ensures MatchFrom(k, words, word + t) == Capture(k, t)
  {
    assert ProperWord(words[0]);
    MatchWordExtend(words[0], word, t);
    var rest := MatchWord(words[0], word);
    if rest == Some([]) {
      assert [] + t == t;
    } else {
      if rest.Some? {
        var n := MatchWordConsumes(words[0], word);
        assert (rest.value + t)[0] == word[n];
        assert SeparatorRun(rest.value + t) == 0;
      }
      MatchFromToken(k, words[1..], word, t, j - 1);
    }
  }

  lemma {:induction false} NoSeparatorNoMatch(k: Key, words: seq<string>, s: string)
    requires forall w :: w in words ==> ProperWord(w)
    requires AllWordChars(s)
    ensures MatchFrom(k, words, s) == None
  {
    if words == [] {
    } else {
      assert ProperWord(words[0]);
      if MatchWord(words[0], s).Some? {
        var n := MatchWordConsumes(words[0], s);
        assert n < |s| ==> s[n..][0] == s[n];
        assert SeparatorRun(s[n..]) == 0;
      }
      NoSeparatorNoMatch(k, words[1..], s);
    }
  }

  lemma {:induction false} NoSeparatorNoSearch(k: Key, words: seq<string>, s: string)
    requires forall w :: w in words ==> ProperWord(w)
    requires AllWordChars(s)
    ensures SearchFrom(k, words, s) == None
    decreases |s|
  {
    NoSeparatorNoMatch(k, words, s);
    if s != [] {
      NoSeparatorNoSearch(k, words, s[1..]);
    }
  }

  /** A match anywhere in a text makes the search succeed. */
  lemma {:induction false} SearchFinds(k: Key, words: seq<string>, a: string, t: string)
    requires MatchFrom(k, words, t).Some?
    ensures SearchFrom(k, words, a + t).Some?
    decreases |a|
  {
    if a == [] {
      assert a + t == t;
    } else {
      assert (a + t)[1..] == a[1..] + t;
      SearchFinds(k, words, a[1..], t);
    }
  }

  function OrElse(a: Option<string>, b: string): Option<string> {
    if a.Some? then a else Some(b)
  }

  /** `word` is a spelling of one of the keywords of `k`. */
  predicate KeywordOf(k: Key, word: string) {
    AllWordChars(word) && word != [] && exists j :: 0 <= j < |Words(k)| && MatchWord(Words(k)[j], word) == Some([])
  }

  predicate GoodValue(k: Key, value: string) {
    |value| >= MinLength(k) && forall c :: c in value ==> InClass(k, c)
  }

  lemma {:induction false} WholeClassRun(k: Key, v: string)
    requires forall c :: c in v ==> InClass(k, c)
    ensures ClassRun(k, v) == |v|
  {
    if v == [] {
    } else {
      assert v[0] in v;
      WholeClassRun(k, v[1..]);
    }
  }

  lemma TokenCapture(k: Key, value: string, after: string)
    requires GoodValue(k, value) && (after == [] || !InClass(k, after[0]))
    ensures Capture(k, "=" + value + after) == Some(value)
  {
    var t := "=" + value + after;
    assert t[1..] == value + after;
    assert value[0] in value && (value + after)[0] == value[0];
    assert SeparatorRun(value + after) == 0;
    assert SeparatorRun(t) == 1;
    ClassRunStops(k, value, after);
    WholeClassRun(k, value);
    assert (value + after)[..|value|] == value;
  }

  lemma {:induction false} SearchUpToToken(k: Key, words: seq<string>, lead: string, word: string, t: string, j: nat)
    requires forall w :: w in words ==> ProperWord(w)
    requires AllWordChars(word) && word != [] && j < |words| && MatchWord(words[j], word) == Some([])
    requires t != [] && t[0] == '=' && Capture(k, t).Some?
    requires lead != [] ==> lead[|lead| - 1] == ' '
    ensures SearchFrom(k, words, lead + word + t) == OrElse(SearchFrom(k, words, lead + word), Capture(k, t).value)
    decreases |lead|
  {
    if lead == [] {
      MatchFromToken(k, words, word, t, j);
      NoSeparatorNoSearch(k, words, word);
      assert lead + word + t == word + t && lead + word == word;
    } else {
      MatchFromStops(k, words, lead, word, t);
      TailOfSum(lead, word, t);
      SearchUpToToken(k, words, lead[1..], word, t, j);
    }
  }

  lemma TailOfSum(a: string, b: string, c: string)
    requires a != []
    ensures (a + b + c)[1..] == a[1..] + b + c
    ensures (a + b)[1..] == a[1..] + b
  {
  }

  lemma TokenSplit(before: string, word: string, value: string, after: string)
    ensures before + Token(word, value) + after == (before + " ") + word + ("=" + value + after)
  {
    ConcatAssoc(before, " " + word, "=" + value);
    assert Token(word, value) == (" " + word) + ("=" + value);
    ConcatAssoc(before, " ", word);
    ConcatAssoc(before + " " + word, "=" + value, after);
  }

  /** Wherever a token " word=value" stands, the search returns what it finds ahead of the '=', or else the value. */
  lemma TokenLaw(k: Key, before: string, word: string, value: string, after: string)
    requires KeywordOf(k, word) && GoodValue(k, value) && (after == [] || !InClass(k, after[0]))
    ensures Search(k, before + Token(word, value) + after) == OrElse(Search(k, before + " " + word), value)
  {
    TokenCapture(k, value, after);
    WordsAreProper(k);
    var j :| 0 <= j < |Words(k)| && MatchWord(Words(k)[j], word) == Some([]);
    SearchUpToToken(k, Words(k), before + " ", word, "=" + value + after, j);
    TokenSplit(before, word, value, after);
  }

  /** Literal characters of a template match themselves, in either case. */
  lemma {:induction false} LiteralPrefix(w: string, s: string, w': string, s': string)
    requires |w| == |s| && forall i :: 0 <= i < |w| ==> w[i] != '?' && Lower(s[i]) == w[i]
    ensures MatchWord(w + w', s + s') == MatchWord(w', s')
  {
    if w == [] {
      assert w + w' == w' && s + s' == s';
    } else {
      assert (w + w')[1..] == w[1..] + w' && (s + s')[1..] == s[1..] + s';
      LiteralPrefix(w[1..], s[1..], w', s');
    }
  }

  /** A keyword with an optional joint is matched with the joint and without it. */
  lemma JointKeyword(w: string, s: string, w': string, s': string)
    requires |w| == |s| && forall i :: 0 <= i < |w| ==> w[i] != '?' && Lower(s[i]) == w[i]
    requires |w'| == |s'| && forall i :: 0 <= i < |w'| ==> w'[i] != '?' && Lower(s'[i]) == w'[i]
    requires s' != [] && s'[0] != '_' && s'[0] != '-'
    ensures MatchWord(w + "?" + w', s + "_" + s') == Some([])
    ensures MatchWord(w + "?" + w', s + s') == Some([])
  {
    LiteralPrefix(w', s', "", "");
    assert w' + "" == w' && s' + "" == s';
    LiteralPrefix(w, s, "?" + w', "_" + s');
    LiteralPrefix(w, s, "?" + w', s');
    ConcatAssoc(w, "?", w');
    ConcatAssoc(s, "_", s');
    assert ("?" + w')[1..] == w' && ("_" + s')[1..] == s';
  }

  // ---- Texts in which a keyword cannot occur ----

  predicate Lacks(s: string, c: char) {
    forall i :: 0 <= i < |s| ==> Lower(s[i]) != c
  }

  lemma {:induction false} LackingNoMatch(w: string, s: string, c: char)
    requires c in w && c != '?' && Lacks(s, c)
    ensures MatchWord(w, s) == None
    decreases |w|
  {
    if w[0] == c {
    } else {
      assert c in w[1..];
      LackingNoMatch(w[1..], s, c);
      if s != [] {
        LackingNoMatch(w[1..], s[1..], c);
      }
    }
  }

  lemma {:induction false} LackingNoneExposed(words: seq<string>, s: string, letters: string)
    requires |letters| == |words|
    requires forall j :: 0 <= j < |words| ==> letters[j] in words[j] && letters[j] != '?' && Lacks(s, letters[j])
    ensures NoneExposed(words, s)
  {
    if words == [] {
    } else {
      LackingNoMatch(words[0], s, letters[0]);
      LackingNoneExposed(words[1..], s, letters[1..]);
    }
  }

  lemma {:induction false} LackingUnexposed(words: seq<string>, s: string, letters: string)
    requires |letters| == |words|
    requires forall j :: 0 <= j < |words| ==> letters[j] in words[j] && letters[j] != '?' && Lacks(s, letters[j])
    ensures AllUnexposed(words, s)
    decreases |s|
  {
    if s == [] {
    } else {
      LackingNoneExposed(words, s, letters);
      LackingUnexposed(words, s[1..], letters);
    }
  }

  /** A text that lacks a letter of every keyword contains no keyword. */
  lemma LackingLetters(k: Key, s: string, letters: string)
    requires |letters| == |Words(k)|
    requires forall j :: 0 <= j < |Words(k)| ==>
      letters[j] in Words(k)[j] && letters[j] != '?' && Lacks(s, letters[j])
    ensures Unexposed(k, s)
  {
    LackingUnexposed(Words(k), s, letters);
  }

  predicate LacksBigram(s: string, c: char, d: char) {
    forall i :: 0 <= i < |s| - 1 && Lower(s[i]) == c ==> Lower(s[i + 1]) != d
  }

  predicate BigramMissing(w: string, s: string) {
    |w| >= 2 && w[0] != '?' && w[1] != '?' && LacksBigram(s, w[0], w[1])
  }

  lemma {:induction false} BigramNoneExposed(words: seq<string>, s: string)
    requires forall j :: 0 <= j < |words| ==> BigramMissing(words[j], s)
    ensures NoneExposed(words, s)
  {
    if words == [] {
    } else {
      var w := words[0];
      assert BigramMissing(w, s);
      assert MatchWord(w, s) == None by {
        if |s| >= 2 && Lower(s[0]) == w[0] {
          assert Lower(s[0 + 1]) != w[1];
        }
      }
      BigramNoneExposed(words[1..], s);
    }
  }

  lemma {:induction false} BigramUnexposed(words: seq<string>, s: string)
    requires forall j :: 0 <= j < |words| ==> BigramMissing(words[j], s)
    ensures AllUnexposed(words, s)
    decreases |s|
  {
    if s == [] {
    } else {
      BigramNoneExposed(words, s);
      forall j | 0 <= j < |words|
        ensures BigramMissing(words[j], s[1..])
      {
        assert BigramMissing(words[j], s);
      }
      BigramUnexposed(words, s[1..]);
    }
  }

  /** "user_id" and "uid" start with these pairs of letters. */
  lemma UserIdNeedsUsOrUi(s: string)
    requires LacksBigram(s, 'u', 's') && LacksBigram(s, 'u', 'i')
    ensures Unexposed(UserId, s)
  {
    BigramUnexposed(Words(UserId), s);
  }

  lemma RequestIdNeedsQ(s: string)
    requires Lacks(s, 'q')
    ensures Unexposed(RequestId, s)
  {
    LackingLetters(RequestId, s, "qqq");
  }

  lemma TraceIdNeedsAT(s: string)
    requires Lacks(s, 'a') || Lacks(s, 't')
    ensures Unexposed(TraceId, s)
  {
    LackingLetters(TraceId, s, if Lacks(s, 'a') then "aaa" else "ttt");
  }

  lemma UserIdNeedsUI(s: string)
    requires Lacks(s, 'u') || Lacks(s, 'i')
    ensures Unexposed(UserId, s)
  {
    LackingLetters(UserId, s, if Lacks(s, 'u') then "uu" else "ii");
  }

  lemma ServiceNameNeedsV(s: string)
    requires Lacks(s, 'v')
    ensures Unexposed(ServiceName, s)
  {
    LackingLetters(ServiceName, s, "vv");
  }

  lemma {:induction false} SilentAhead(k: Key, words: seq<string>, a: string, t: string)
    requires forall w :: w in words ==> ProperWord(w)
    requires AllUnexposed(words, a) && t != [] && !WordChar(t[0]) && SearchFrom(k, words, t) == None
    ensures SearchFrom(k, words, a + t) == None
    decreases |a|
  {
    if a == [] {
      assert a + t == t;
    } else {
      NoneExposedExtend(words, a, t);
      NoneExposedNoMatch(k, words, a + t);
      assert (a + t)[1..] == a[1..] + t;
      SilentAhead(k, words, a[1..], t);
    }
  }

  /** Nothing is found in an unexposed text followed by a bare word. */
  lemma BareWordIsSilent(k: Key, before: string, word: string)
    requires Unexposed(k, before) && AllWordChars(word)
    ensures Search(k, before + " " + word) == None
  {
    var t := " " + word;
    WordsAreProper(k);
    BreakStartsNoWord(Words(k), t);
    NoneExposedNoMatch(k, Words(k), t);
    NoSeparatorNoSearch(k, Words(k), word);
    assert t[1..] == word;
    SilentAhead(k, Words(k), before, t);
    assert before + " " + word == before + t;
  }
}
