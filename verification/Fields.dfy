/** How a text that ends in " key=value" tokens is read, field by field. */
module Fields {
  import opened Options
  import opened Collections
  import opened Identifiers
  import opened Composer
  import opened Tokens

  /** What the key of a token in a message stands for. */
  datatype Slot = TrxId | Username | ComponentId | ErrorCodeField | Identifier(k: Key)

  function KeyOf(l: Slot): string {
    match l
    case TrxId => "trxId"
    case Username => "username"
    case ComponentId => "componentId"
    case ErrorCodeField => "errorCode"
    case Identifier(k) => Name(k)
  }

  /** The tokens that are meant to carry the identifier of `k`. */
  predicate Carries(k: Key, l: Slot) {
    l == Identifier(k) || (l == ErrorCodeField && k == ErrorCode)
  }

  /** What a pair of `append` calls adds to a message. */
  datatype Field = Field(slot: Slot, value: string)

  function TokenOf(f: Field): string {
    Token(KeyOf(f.slot), f.value)
  }

  /** A text and the tokens appended to it. */
  function Written(head: string, fields: seq<Field>): string {
    if fields == [] then head
    else
      Written(head, fields[..|fields| - 1]) + TokenOf(fields[|fields| - 1])
  }

  lemma WrittenSnoc(head: string, fields: seq<Field>, f: Field)
    ensures Written(head, fields + [f]) == Written(head, fields) + TokenOf(f)
  {
    assert (fields + [f])[..|fields|] == fields;
  }

  lemma {:induction false} WrittenBehind(a: string, b: string, fields: seq<Field>)
    ensures Written(a + b, fields) == a + Written(b, fields)
  {
    if fields == [] {
    } else {
      WrittenBehind(a, b, fields[..|fields| - 1]);
    }
  }

  lemma TokenBehind(head: string, key: string, value: string)
    ensures head + Token(key, value) == head + " " + key + "=" + value
  {
  }

  lemma {:induction false} WrittenCons(head: string, fields: seq<Field>)
    requires fields != []
    ensures Written(head, fields) == head + " " + KeyOf(fields[0].slot) + "=" + Written(fields[0].value, fields[1..])
  {
    var f, rest := fields[0], fields[1..];
    var key := KeyOf(f.slot);
    var lead := head + " " + key + "=";
    if |fields| == 1 {
      assert Written(head, fields[..0]) == head;
      TokenBehind(head, key, f.value);
    } else {
      var init, last := fields[..|fields| - 1], fields[|fields| - 1];
      var body, token := Written(f.value, init[1..]), TokenOf(last);
      WrittenCons(head, init);
      assert init[1..] == rest[..|rest| - 1] && rest[|rest| - 1] == last;
      assert Written(f.value, rest) == body + token;
      assert init[0] == f && Written(head, init) == lead + body;
      ConcatAssoc(lead, body, token);
    }
  }

  /** What the fields ahead of the token for `k` hold under `k`, the first one winning; each field is read as far as the
      key behind it, and all of them are read when no token is meant for `k`. */
  function HeldAhead(k: Key, field: string, rest: seq<Field>): Option<string>
    decreases |rest|
  {
    if rest == [] then Search(k, field)
    else
      var held := Search(k, field + " " + KeyOf(rest[0].slot));
      if held.Some? || Carries(k, rest[0].slot) then held else HeldAhead(k, rest[0].value, rest[1..])
  }

  /** The value of the first token meant for `k`. */
  function ValueFor(k: Key, fields: seq<Field>): Option<string>
    decreases |fields|
  {
    if fields == [] then None
    else if Carries(k, fields[0].slot) then Some(fields[0].value)
    else ValueFor(k, fields[1..])
  }

  // ---- Every key is a keyword of the identifier it carries, and exposes no other ----

  ghost predicate Fits(k: Key, key: string, carries: bool) {
    key != [] && AllWordChars(key) && if carries then KeywordOf(k, key) else Unexposed(k, key)
  }

  lemma TraceIdKeyword()
    ensures KeywordOf(TraceId, "trace_id")
  {
    JointKeyword("trace", "trace", "id", "id");
    assert "trace" + "?" + "id" == Words(TraceId)[0] && "trace" + "_" + "id" == "trace_id";
  }

  lemma RequestIdKeyword()
    ensures KeywordOf(RequestId, "request_id")
  {
    JointKeyword("request", "request", "id", "id");
    assert "request" + "?" + "id" == Words(RequestId)[0] && "request" + "_" + "id" == "request_id";
  }

  lemma UserIdKeyword()
    ensures KeywordOf(UserId, "user_id")
  {
    JointKeyword("user", "user", "id", "id");
    assert "user" + "?" + "id" == Words(UserId)[0] && "user" + "_" + "id" == "user_id";
  }

  lemma ServiceNameKeyword()
    ensures KeywordOf(ServiceName, "service_name")
  {
    JointKeyword("service", "service", "name", "name");
    assert "service" + "?" + "name" == Words(ServiceName)[0] && "service" + "_" + "name" == "service_name";
  }

  lemma ErrorCodeKeyword()
    ensures KeywordOf(ErrorCode, "errorCode")
  {
    JointKeyword("error", "error", "code", "Code");
    assert "error" + "?" + "code" == Words(ErrorCode)[0] && "error" + "Code" == "errorCode";
  }

  lemma ErrorCodeAliasKeyword()
    ensures KeywordOf(ErrorCode, "error_code")
  {
    JointKeyword("error", "error", "code", "code");
    assert "error" + "?" + "code" == Words(ErrorCode)[0] && "error" + "_" + "code" == "error_code";
  }

  /** Letters or pairs of letters that every keyword of `k` needs are missing from `key`. */
  predicate LacksLetters(k: Key, key: string) {
    match k
    case RequestId => Lacks(key, 'q')
    case TraceId => Lacks(key, 'a') || Lacks(key, 't')
    case UserId => Lacks(key, 'u') || Lacks(key, 'i') || (LacksBigram(key, 'u', 's') && LacksBigram(key, 'u', 'i'))
    case ErrorCode => (Lacks(key, 'o') || Lacks(key, 'r')) && (Lacks(key, 'a') || Lacks(key, 't') || Lacks(key, 's'))
    case ServiceName => Lacks(key, 'v')
  }

  lemma LackingIsUnexposed(k: Key, key: string)
    requires LacksLetters(k, key)
    ensures Unexposed(k, key)
  {
    match k {
      case RequestId => RequestIdNeedsQ(key);
      case TraceId => TraceIdNeedsAT(key);
      case UserId =>
        if Lacks(key, 'u') || Lacks(key, 'i') {
          UserIdNeedsUI(key);
        } else {
          UserIdNeedsUsOrUi(key);
        }
      case ErrorCode =>
        LackingLetters(k, key, (if Lacks(key, 'o') then "oo" else "rr")
                               + (if Lacks(key, 'a') then "a" else if Lacks(key, 't') then "t" else "s"));
      case ServiceName => ServiceNameNeedsV(key);
    }
  }

  lemma HiddenFits(k: Key, key: string)
    requires key != [] && AllWordChars(key) && LacksLetters(k, key)
    ensures Fits(k, key, false)
  {
    LackingIsUnexposed(k, key);
  }

  lemma TrxIdFits(k: Key, key: string)
    requires key == "trxId"
    ensures Fits(k, key, false)
  {
    HiddenFits(k, key);
  }

  lemma UsernameFits(k: Key, key: string)
    requires key == "username"
    ensures Fits(k, key, false)
  {
    HiddenFits(k, key);
  }

  lemma ComponentIdFits(k: Key, key: string)
    requires key == "componentId"
    ensures Fits(k, key, false)
  {
    HiddenFits(k, key);
  }

  lemma ErrorCodeFieldFits(k: Key, key: string)
    requires key == "errorCode"
    ensures Fits(k, key, k == ErrorCode)
  {
    if k == ErrorCode {
      ErrorCodeKeyword();
    } else {
      HiddenFits(k, key);
    }
  }

  lemma TraceIdFits(k: Key, key: string)
    requires key == "trace_id"
    ensures Fits(k, key, k == TraceId)
  {
    if k == TraceId {
      TraceIdKeyword();
    } else {
      HiddenFits(k, key);
    }
  }

  lemma RequestIdFits(k: Key, key: string)
    requires key == "request_id"
    ensures Fits(k, key, k == RequestId)
  {
    if k == RequestId {
      RequestIdKeyword();
    } else {
      HiddenFits(k, key);
    }
  }

  lemma UserIdFits(k: Key, key: string)
    requires key == "user_id"
    ensures Fits(k, key, k == UserId)
  {
    if k == UserId {
      UserIdKeyword();
    } else {
      HiddenFits(k, key);
    }
  }

  lemma ServiceNameFits(k: Key, key: string)
    requires key == "service_name"
    ensures Fits(k, key, k == ServiceName)
  {
    if k == ServiceName {
      ServiceNameKeyword();
    } else {
      HiddenFits(k, key);
    }
  }

  lemma ErrorCodeFits(k: Key, key: string)
    requires key == "error_code"
    ensures Fits(k, key, k == ErrorCode)
  {
    if k == ErrorCode {
      ErrorCodeAliasKeyword();
    } else {
      HiddenFits(k, key);
    }
  }

  lemma KeyFits(k: Key, l: Slot)
    ensures Fits(k, KeyOf(l), Carries(k, l))
  {
    match l {
      case TrxId => TrxIdFits(k, KeyOf(l));
      case Username => UsernameFits(k, KeyOf(l));
      case ComponentId => ComponentIdFits(k, KeyOf(l));
      case ErrorCodeField => ErrorCodeFieldFits(k, KeyOf(l));
      case Identifier(own) => IdentifierFits(k, own);
    }
  }

  lemma IdentifierFits(k: Key, own: Key)
    ensures Fits(k, Name(own), k == own)
  {
    match own {
      case RequestId => RequestIdFits(k, Name(own));
      case TraceId => TraceIdFits(k, Name(own));
      case UserId => UserIdFits(k, Name(own));
      case ErrorCode => ErrorCodeFits(k, Name(own));
      case ServiceName => ServiceNameFits(k, Name(own));
    }
  }

  // ---- Reading field by field ----

  lemma {:induction false} SearchUpToKey(k: Key, words: seq<string>, lead: string, key: string, t: string)
    requires forall w :: w in words ==> ProperWord(w)
    requires AllWordChars(key) && key != []
    requires lead != [] ==> lead[|lead| - 1] == ' '
    ensures var held := SearchFrom(k, words, lead + key);
      held.Some? ==> SearchFrom(k, words, lead + key + "=" + t) == held
    decreases |lead|
  {
    if lead == [] {
      assert lead + key == key;
      NoSeparatorNoSearch(k, words, key);
    } else {
      MatchFromStops(k, words, lead, key, "=" + t);
      ConcatAssoc(lead + key, "=", t);
      TailOfSum(lead, key, "=" + t);
      ConcatAssoc(lead[1..] + key, "=", t);
      SearchUpToKey(k, words, lead[1..], key, t);
    }
  }

  /** Behind a key that exposes nothing the search starts again. */
  lemma {:induction false} SearchBeyondKey(k: Key, words: seq<string>, lead: string, key: string, t: string)
    requires forall w :: w in words ==> ProperWord(w)
    requires AllWordChars(key) && AllUnexposed(words, key) && SearchFrom(k, words, lead + key) == None
    requires lead != [] ==> lead[|lead| - 1] == ' ' && key != []
    ensures SearchFrom(k, words, lead + key + "=" + t) == SearchFrom(k, words, t)
    decreases |lead| + |key|
  {
    if lead != [] {
      MatchFromStops(k, words, lead, key, "=" + t);
      ConcatAssoc(lead + key, "=", t);
      TailOfSum(lead, key, "=" + t);
      ConcatAssoc(lead[1..] + key, "=", t);
      SearchBeyondKey(k, words, lead[1..], key, t);
    } else if key != [] {
      assert lead + key == key;
      NoneExposedExtend(words, key, "=" + t);
      NoneExposedNoMatch(k, words, key + ("=" + t));
      ConcatAssoc(key, "=", t);
      NoSeparatorNoSearch(k, words, key[1..]);
      assert (key + "=" + t)[1..] == lead + key[1..] + "=" + t && lead + key[1..] == key[1..];
      SearchBeyondKey(k, words, lead, key[1..], t);
    } else {
      var s := "=" + t;
      assert lead + key + "=" + t == s && s[1..] == t;
      BreakStartsNoWord(words, s);
      NoneExposedNoMatch(k, words, s);
    }
  }

  lemma HeldIsFound(k: Key, field: string, key: string, t: string)
    requires key != [] && AllWordChars(key) && Search(k, field + " " + key).Some?
    ensures Search(k, field + " " + key + "=" + t) == Search(k, field + " " + key)
  {
    WordsAreProper(k);
    SearchUpToKey(k, Words(k), field + " ", key, t);
  }

  lemma NothingHeld(k: Key, field: string, key: string, t: string)
    requires key != [] && AllWordChars(key) && Unexposed(k, key) && Search(k, field + " " + key) == None
    ensures Search(k, field + " " + key + "=" + t) == Search(k, t)
  {
    WordsAreProper(k);
    SearchBeyondKey(k, Words(k), field + " ", key, t);
  }

  lemma WrittenStops(k: Key, value: string, rest: seq<Field>) returns (after: string)
    ensures Written(value, rest) == value + after && (after == [] || !InClass(k, after[0]))
  {
    after := Written("", rest);
    assert value + "" == value;
    WrittenBehind(value, "", rest);
    if rest != [] {
      WrittenCons("", rest);
      assert after[0] == ' ';
    }
  }

  lemma OwnToken(k: Key, field: string, own: Field, rest: seq<Field>)
    requires Carries(k, own.slot) && GoodValue(k, own.value)
    ensures Search(k, Written(field, [own] + rest)) == OrElse(Search(k, field + " " + KeyOf(own.slot)), own.value)
  {
    var key := KeyOf(own.slot);
    KeyFits(k, own.slot);
    var after := WrittenStops(k, own.value, rest);
    WrittenCons(field, [own] + rest);
    assert ([own] + rest)[1..] == rest;
    TokenLaw(k, field, key, own.value, after);
    ConcatAssoc(field + " " + key + "=", own.value, after);
    TokenSplit(field, key, own.value, after);
    ConcatAssoc(field + " " + key, "=", own.value + after);
    ConcatAssoc("=", own.value, after);
  }

  /** The first field that holds anything under `k` decides; when none does, it is the token meant for `k`. */
  lemma {:induction false} FieldsLaw(k: Key, field: string, rest: seq<Field>)
    requires HeldAhead(k, field, rest) == None && ValueFor(k, rest).Some? ==> GoodValue(k, ValueFor(k, rest).value)
    ensures var held := HeldAhead(k, field, rest);
      Search(k, Written(field, rest)) == if held.Some? then held else ValueFor(k, rest)
    decreases |rest|
  {
    if rest == [] {
    } else {
      var f, later := rest[0], rest[1..];
      var key := KeyOf(f.slot);
      KeyFits(k, f.slot);
      WrittenCons(field, rest);
      if Search(k, field + " " + key).Some? {
        HeldIsFound(k, field, key, Written(f.value, later));
      } else if Carries(k, f.slot) {
        assert rest == [f] + later;
        OwnToken(k, field, f, later);
      } else {
        NothingHeld(k, field, key, Written(f.value, later));
        FieldsLaw(k, f.value, later);
      }
    }
  }

  /** Nothing is held by fields that expose no keyword. */
  lemma {:induction false} UnexposedHoldNothing(k: Key, field: string, rest: seq<Field>)
    requires Unexposed(k, field) && forall f :: f in rest ==> Unexposed(k, f.value)
    ensures HeldAhead(k, field, rest) == None
    decreases |rest|
  {
    if rest == [] {
      UnexposedNoSearch(k, field);
    } else {
      KeyFits(k, rest[0].slot);
      BareWordIsSilent(k, field, KeyOf(rest[0].slot));
      assert rest[0] in rest && forall f :: f in rest[1..] ==> f in rest;
      UnexposedHoldNothing(k, rest[0].value, rest[1..]);
    }
  }

  // ---- Fields that end in a keyword ----

  /** From a run of word characters a keyword can only reach the separators behind it. */
  lemma {:induction false} MatchFromRun(k: Key, words: seq<string>, s: string, t: string)
    requires forall w :: w in words ==> ProperWord(w)
    requires AllWordChars(s) && t != [] && !WordChar(t[0])
    ensures MatchFrom(k, words, s + t) == None || MatchFrom(k, words, s + t) == Capture(k, t)
  {
    if words == [] {
    } else {
      assert ProperWord(words[0]);
      MatchWordExtend(words[0], s, t);
      var rest := MatchWord(words[0], s);
      if rest.Some? {
        var n := MatchWordConsumes(words[0], s);
        if n == |s| {
          assert rest.value + t == t;
        } else {
          assert (rest.value + t)[0] == s[n];
          assert SeparatorRun(rest.value + t) == 0;
        }
      }
      MatchFromRun(k, words[1..], s, t);
    }
  }

  lemma {:induction false} SearchFromRun(k: Key, words: seq<string>, stem: string, word: string, t: string)
    requires forall w :: w in words ==> ProperWord(w)
    requires AllWordChars(stem) && AllWordChars(word) && t != [] && !WordChar(t[0])
    requires MatchFrom(k, words, word + t) == Capture(k, t) && Capture(k, t).Some?
    ensures SearchFrom(k, words, stem + word + t) == Capture(k, t)
    decreases |stem|
  {
    if stem == [] {
      assert stem + word + t == word + t;
    } else {
      MatchFromRun(k, words, stem + word, t);
      TailOfSum(stem, word, t);
      SearchFromRun(k, words, stem[1..], word, t);
    }
  }

  lemma BareKeyCapture(k: Key, key: string)
    requires GoodValue(k, key) && AllWordChars(key)
    ensures Capture(k, " " + key) == Some(key)
  {
    var t := " " + key;
    assert t[1..] == key;
    assert SeparatorRun(key) == 0;
    WholeClassRun(k, key);
    assert key[..|key|] == key;
  }

  /** A field that ends in a keyword holds something; if it has word characters only, it holds the key behind it. */
  lemma KeywordSuffixHolds(k: Key, stem: string, word: string, key: string)
    requires KeywordOf(k, word) && GoodValue(k, key) && AllWordChars(key)
    ensures Search(k, stem + word + " " + key).Some?
    ensures AllWordChars(stem) ==> Search(k, stem + word + " " + key) == Some(key)
  {
    var t := " " + key;
    BareKeyCapture(k, key);
    WordsAreProper(k);
    var j :| 0 <= j < |Words(k)| && MatchWord(Words(k)[j], word) == Some([]);
    MatchFromToken(k, Words(k), word, t, j);
    ConcatAssoc(stem, word, t);
    ConcatAssoc(stem + word, " ", key);
    SearchFinds(k, Words(k), stem, word + t);
    if AllWordChars(stem) {
      SearchFromRun(k, Words(k), stem, word, t);
    }
  }
}
