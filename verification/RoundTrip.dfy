/** What the extractor reads back from what the generator printed. */
module RoundTrip {
  import opened Options
  import opened Identifiers
  import opened Composer
  import opened Tokens
  import opened Fields

  // ---- The fields of a message ----

  /** The verbatim fields. */
  function VerbatimFields(v: Values): seq<Field> {
    [Field(TrxId, Verbatim(v.trxId)), Field(Username, Verbatim(v.username)),
     Field(ComponentId, Verbatim(v.componentId))]
  }

  /** The aliases that every message with aliases has. */
  function AliasFields(v: Values): seq<Field> {
    [Field(Identifier(TraceId), v.TrxAlias()), Field(Identifier(RequestId), v.TrxAlias()),
     Field(Identifier(UserId), v.UserAlias()), Field(Identifier(ServiceName), v.ComponentAlias())]
  }

  /** A token for the error code, under its own key or its alias, if there is one. */
  function CodeField(slot: Slot, errorCode: Option<string>): seq<Field> {
    if errorCode.Some? then [Field(slot, errorCode.value)] else []
  }

  /** The tokens of a message with aliases, in order. */
  function MessageFields(v: Values, errorCode: Option<string>): seq<Field> {
    VerbatimFields(v) + CodeField(ErrorCodeField, errorCode) + AliasFields(v)
    + CodeField(Identifier(ErrorCode), errorCode)
  }

  lemma WrittenCode(head: string, fields: seq<Field>, slot: Slot, errorCode: Option<string>)
    ensures Written(head, fields + CodeField(slot, errorCode))
      == Written(head, fields) + if errorCode.Some? then Token(KeyOf(slot), errorCode.value) else ""
  {
    if errorCode.Some? {
      WrittenSnoc(head, fields, CodeField(slot, errorCode)[0]);
    } else {
      assert fields + [] == fields && Written(head, fields) + "" == Written(head, fields);
    }
  }

  lemma ThreeAreWritten(head: string, a: Field, b: Field, c: Field)
    ensures Written(head, [a, b, c]) == head + TokenOf(a) + TokenOf(b) + TokenOf(c)
  {
    WrittenSnoc(head, [], a);
    WrittenSnoc(head, [a], b);
    WrittenSnoc(head, [a, b], c);
    assert [] + [a] == [a] && [a] + [b] == [a, b] && [a, b] + [c] == [a, b, c];
  }

  lemma VerbatimAreWritten(base: string, v: Values)
    ensures Written(base + " |", VerbatimFields(v)) == Primary(base, v)
  {
    var all := VerbatimFields(v);
    ThreeAreWritten(base + " |", all[0], all[1], all[2]);
  }

  lemma FourAreWritten(head: string, fields: seq<Field>, a: Field, b: Field, c: Field, d: Field)
    ensures Written(head, fields + [a, b, c, d])
      == Written(head, fields) + TokenOf(a) + TokenOf(b) + TokenOf(c) + TokenOf(d)
  {
    WrittenSnoc(head, fields, a);
    WrittenSnoc(head, fields + [a], b);
    WrittenSnoc(head, fields + [a] + [b], c);
    WrittenSnoc(head, fields + [a] + [b] + [c], d);
    assert fields + [a, b, c, d] == fields + [a] + [b] + [c] + [d];
  }

  lemma AliasesAreWritten(head: string, fields: seq<Field>, v: Values)
    ensures Written(head, fields + AliasFields(v))
      == Written(head, fields) + Token("trace_id", v.TrxAlias()) + Token("request_id", v.TrxAlias())
         + Token("user_id", v.UserAlias()) + Token("service_name", v.ComponentAlias())
  {
    var all := AliasFields(v);
    FourAreWritten(head, fields, all[0], all[1], all[2], all[3]);
  }

  /** `compose` writes these fields behind the base message. */
  lemma MessageIsWritten(base: string, v: Values, errorCode: Option<string>)
    ensures ComposeText(base, v, errorCode, true, false) == Written(base + " |", MessageFields(v, errorCode))
  {
    var head, fields := base + " |", VerbatimFields(v) + CodeField(ErrorCodeField, errorCode);
    VerbatimAreWritten(base, v);
    WrittenCode(head, VerbatimFields(v), ErrorCodeField, errorCode);
    AliasesAreWritten(head, fields, v);
    WrittenCode(head, fields + AliasFields(v), Identifier(ErrorCode), errorCode);
  }

  /** Without aliases the message ends ahead of them, and without identifiers it is the base text alone. */
  lemma PlainMessageIsWritten(base: string, v: Values, errorCode: Option<string>, aliases: bool)
    ensures ComposeText(base, v, errorCode, false, false)
      == Written(base + " |", VerbatimFields(v) + CodeField(ErrorCodeField, errorCode))
    ensures ComposeText(base, v, errorCode, aliases, true) == base
  {
    VerbatimAreWritten(base, v);
    WrittenCode(base + " |", VerbatimFields(v), ErrorCodeField, errorCode);
  }

  /** The value meant for `k`; there is none for an absent error code. */
  function Alias(k: Key, v: Values, errorCode: Option<string>): Option<string> {
    match k
    case TraceId => Some(v.TrxAlias())
    case RequestId => Some(v.TrxAlias())
    case UserId => Some(v.UserAlias())
    case ServiceName => Some(v.ComponentAlias())
    case ErrorCode => errorCode
  }

  // ---- The alias law, for all inputs ----

  lemma AliasIsGood(k: Key, v: Values, errorCode: Option<string>)
    requires k == ErrorCode ==> errorCode.Some? && GoodValue(ErrorCode, errorCode.value)
    ensures Alias(k, v, errorCode).Some? && GoodValue(k, Alias(k, v, errorCode).value)
  {
    AliasIsWellFormed(v.trxId, false);
    AliasIsWellFormed(v.username, false);
    AliasIsWellFormed(v.componentId, true);
  }

  /** What the fields ahead of the token for `k` hold under `k`. */
  function Held(k: Key, base: string, v: Values, errorCode: Option<string>): Option<string> {
    HeldAhead(k, base + " |", MessageFields(v, errorCode))
  }

  lemma {:induction false} ValueBehind(k: Key, a: seq<Field>, b: seq<Field>)
    ensures ValueFor(k, a + b) == if ValueFor(k, a).Some? then ValueFor(k, a) else ValueFor(k, b)
    decreases |a|
  {
    if a == [] {
      assert a + b == b;
    } else {
      assert (a + b)[1..] == a[1..] + b;
      ValueBehind(k, a[1..], b);
    }
  }

  lemma ValueOfOne(k: Key, f: Field, rest: seq<Field>)
    ensures ValueFor(k, [f] + rest) == if Carries(k, f.slot) then Some(f.value) else ValueFor(k, rest)
  {
    assert ([f] + rest)[1..] == rest;
  }

  lemma VerbatimCarryNothing(k: Key, v: Values)
    ensures ValueFor(k, VerbatimFields(v)) == None
  {
    var all := VerbatimFields(v);
    ValueOfOne(k, all[2], []);
    ValueOfOne(k, all[1], all[2..]);
    ValueOfOne(k, all[0], all[1..]);
    assert all == [all[0]] + all[1..] && all[1..] == [all[1]] + all[2..] && all[2..] == [all[2]] + [];
  }

  lemma AliasesCarry(k: Key, v: Values)
    ensures ValueFor(k, AliasFields(v)) == if k == ErrorCode then None else Alias(k, v, None)
  {
    var all := AliasFields(v);
    ValueOfOne(k, all[3], []);
    ValueOfOne(k, all[2], all[3..]);
    ValueOfOne(k, all[1], all[2..]);
    ValueOfOne(k, all[0], all[1..]);
    assert all == [all[0]] + all[1..] && all[1..] == [all[1]] + all[2..] && all[2..] == [all[2]] + all[3..];
    assert all[3..] == [all[3]] + [];
  }

  lemma CodeCarries(k: Key, slot: Slot, errorCode: Option<string>)
    requires slot == ErrorCodeField || slot == Identifier(ErrorCode)
    ensures ValueFor(k, CodeField(slot, errorCode)) == if k == ErrorCode then errorCode else None
  {
    if errorCode.Some? {
      var f := CodeField(slot, errorCode)[0];
      ValueOfOne(k, f, []);
      assert [f] + [] == [f];
    }
  }

  lemma AliasIsCarried(k: Key, v: Values, errorCode: Option<string>)
    ensures ValueFor(k, MessageFields(v, errorCode)) == Alias(k, v, errorCode)
  {
    var a, b := VerbatimFields(v), CodeField(ErrorCodeField, errorCode);
    var c, d := AliasFields(v), CodeField(Identifier(ErrorCode), errorCode);
    ValueBehind(k, a + b + c, d);
    ValueBehind(k, a + b, c);
    ValueBehind(k, a, b);
    VerbatimCarryNothing(k, v);
    CodeCarries(k, ErrorCodeField, errorCode);
    CodeCarries(k, Identifier(ErrorCode), errorCode);
    AliasesCarry(k, v);
  }

  /** For every input: what is extracted under a key is what the first field ahead of the alias token holds that holds
      anything, and otherwise the alias. */
  lemma AliasLaw(k: Key, base: string, v: Values, errorCode: Option<string>)
    requires Held(k, base, v, errorCode) == None && k == ErrorCode && errorCode.Some? ==>
      GoodValue(ErrorCode, errorCode.value)
    ensures var held := Held(k, base, v, errorCode);
      Search(k, ComposeText(base, v, errorCode, true, false)) == if held.Some? then held else Alias(k, v, errorCode)
  {
    MessageIsWritten(base, v, errorCode);
    AliasIsCarried(k, v, errorCode);
    if Held(k, base, v, errorCode) == None && Alias(k, v, errorCode).Some? {
      AliasIsGood(k, v, errorCode);
    }
    FieldsLaw(k, base + " |", MessageFields(v, errorCode));
  }

  /** The dictionary a reader of the message should get. */
  function Expected(v: Values, errorCode: Option<string>): map<string, string> {
    var ids := map["request_id" := v.TrxAlias(), "trace_id" := v.TrxAlias(), "user_id" := v.UserAlias(),
                   "service_name" := v.ComponentAlias()];
    if errorCode.Some? then ids["error_code" := errorCode.value] else ids
  }

  /** The alias of `k` is not pre-empted: the first field ahead of its token that holds anything holds the same value.
      Under an error code that is absent, no field holds anything. */
  predicate NotPreempted(k: Key, base: string, v: Values, errorCode: Option<string>) {
    var held := Held(k, base, v, errorCode);
    held.None? || held == Alias(k, v, errorCode)
  }

  lemma ExpectedUnderName(k: Key, v: Values, errorCode: Option<string>)
    ensures Name(k) in Expected(v, errorCode) <==> Alias(k, v, errorCode).Some?
    ensures Name(k) in Expected(v, errorCode) ==> Expected(v, errorCode)[Name(k)] == Alias(k, v, errorCode).value
  {
  }

  lemma OnlyFiveNames(text: string, v: Values, errorCode: Option<string>, name: string) returns (k: Key)
    requires name in Extract(text).values || name in Expected(v, errorCode)
    ensures name == Name(k)
  {
    if name in Extract(text).values {
      ExtractOnlyKeys(text, |KEYS|, name);
      k :| Name(k) == name;
    } else {
      k :| Name(k) == name;
    }
  }

  /** Only well-formed values are ever found. */
  lemma FoundIsGood(k: Key, text: string)
    requires Search(k, text).Some?
    ensures GoodValue(k, Search(k, text).value)
  {
    var at := SearchMeans(k, text);
  }

  lemma RoundTripOfGoodCode(base: string, v: Values, errorCode: Option<string>)
    requires errorCode.Some? ==> GoodValue(ErrorCode, errorCode.value)
    ensures Extract(ComposeText(base, v, errorCode, true, false)).values == Expected(v, errorCode)
      <==> forall k :: NotPreempted(k, base, v, errorCode)
  {
    var text := ComposeText(base, v, errorCode, true, false);
    forall k
      ensures Name(k) in Extract(text).values <==> Search(k, text).Some?
      ensures Name(k) in Extract(text).values ==> Extract(text).values[Name(k)] == Search(k, text).value
      ensures NotPreempted(k, base, v, errorCode) <==> Search(k, text) == Alias(k, v, errorCode)
      ensures Name(k) in Expected(v, errorCode) <==> Alias(k, v, errorCode).Some?
      ensures Name(k) in Expected(v, errorCode) ==> Expected(v, errorCode)[Name(k)] == Alias(k, v, errorCode).value
    {
      ExtractSpec(text, k);
      AliasLaw(k, base, v, errorCode);
      ExpectedUnderName(k, v, errorCode);
    }
    SameUnderNames(text, v, errorCode);
  }

  /** The extractor reads back exactly what the generator meant if and only if any error code is well formed and, under
      every key, the first field that holds anything holds what was meant. */
  lemma RoundTripIffNotPreempted(base: string, v: Values, errorCode: Option<string>)
    ensures Extract(ComposeText(base, v, errorCode, true, false)).values == Expected(v, errorCode)
      <==> ((errorCode.Some? ==> GoodValue(ErrorCode, errorCode.value))
            && forall k :: NotPreempted(k, base, v, errorCode))
  {
    var text := ComposeText(base, v, errorCode, true, false);
    if errorCode.Some? && !GoodValue(ErrorCode, errorCode.value) {
      ExtractSpec(text, ErrorCode);
      ExpectedUnderName(ErrorCode, v, errorCode);
      if Search(ErrorCode, text).Some? {
        FoundIsGood(ErrorCode, text);
      }
    } else {
      RoundTripOfGoodCode(base, v, errorCode);
    }
  }

  lemma SameUnderNames(text: string, v: Values, errorCode: Option<string>)
    requires forall k :: Name(k) in Extract(text).values <==> Search(k, text).Some?
    requires forall k :: Name(k) in Extract(text).values ==> Extract(text).values[Name(k)] == Search(k, text).value
    requires forall k :: Name(k) in Expected(v, errorCode) <==> Alias(k, v, errorCode).Some?
    requires forall k :: Name(k) in Expected(v, errorCode) ==>
      Expected(v, errorCode)[Name(k)] == Alias(k, v, errorCode).value
    ensures Extract(text).values == Expected(v, errorCode)
      <==> forall k :: Search(k, text) == Alias(k, v, errorCode)
  {
    var found, expected := Extract(text).values, Expected(v, errorCode);
    if forall k :: Search(k, text) == Alias(k, v, errorCode) {
      forall name | name in found || name in expected
        ensures name in found && name in expected && found[name] == expected[name]
      {
        var k := OnlyFiveNames(text, v, errorCode, name);
        assert Search(k, text) == Alias(k, v, errorCode);
      }
    }
    if found == expected {
      forall k
        ensures Search(k, text) == Alias(k, v, errorCode)
      {
        assert Name(k) in found <==> Name(k) in expected;
      }
    }
  }

  // ---- When nothing is pre-empted ----

  /** No part of the message exposes an identifier keyword. */
  ghost predicate Clean(base: string, v: Values, errorCode: Option<string>) {
    forall k ::
      Unexposed(k, base)
      && Unexposed(k, Verbatim(v.trxId)) && Unexposed(k, Verbatim(v.username)) && Unexposed(k, Verbatim(v.componentId))
      && Unexposed(k, v.TrxAlias()) && Unexposed(k, v.UserAlias()) && Unexposed(k, v.ComponentAlias())
      && (errorCode.Some? ==> Unexposed(k, errorCode.value))
  }

  lemma BarIsUnexposed(k: Key)
    ensures Unexposed(k, "|")
  {
    WordsAreProper(k);
    EmptyNoMatch(Words(k));
    BreakStartsNoWord(Words(k), "|");
    assert "|"[1..] == "";
  }

  ghost predicate ValuesUnexposed(k: Key, fields: seq<Field>) {
    forall f :: f in fields ==> Unexposed(k, f.value)
  }

  lemma CleanVerbatim(k: Key, v: Values)
    requires Unexposed(k, Verbatim(v.trxId)) && Unexposed(k, Verbatim(v.username))
    requires Unexposed(k, Verbatim(v.componentId))
    ensures ValuesUnexposed(k, VerbatimFields(v))
  {
  }

  lemma CleanAliases(k: Key, v: Values)
    requires Unexposed(k, v.TrxAlias()) && Unexposed(k, v.UserAlias()) && Unexposed(k, v.ComponentAlias())
    ensures ValuesUnexposed(k, AliasFields(v))
  {
  }

  lemma CleanValues(k: Key, base: string, v: Values, errorCode: Option<string>)
    requires Clean(base, v, errorCode)
    ensures ValuesUnexposed(k, MessageFields(v, errorCode))
  {
    CleanVerbatim(k, v);
    CleanAliases(k, v);
    assert ValuesUnexposed(k, CodeField(ErrorCodeField, errorCode));
    assert ValuesUnexposed(k, CodeField(Identifier(ErrorCode), errorCode));
  }

  lemma HeadIsUnexposed(k: Key, base: string)
    requires Unexposed(k, base)
    ensures Unexposed(k, base + " |")
  {
    BarIsUnexposed(k);
    UnexposedBreak(k, ' ', "|");
    assert [' '] + "|" == " |";
    UnexposedJoin(k, base, " |");
  }

  /** In a clean message no field holds anything. */
  lemma CleanHoldsNothing(k: Key, base: string, v: Values, errorCode: Option<string>)
    requires Clean(base, v, errorCode)
    ensures Held(k, base, v, errorCode) == None
  {
    HeadIsUnexposed(k, base);
    CleanValues(k, base, v, errorCode);
    UnexposedHoldNothing(k, base + " |", MessageFields(v, errorCode));
  }

  /** The round trip: when no part of the message exposes an identifier keyword and an error code is well formed, the
      extractor returns exactly the sanitised values, and the error code if there is one. */
  lemma CleanMessagesRoundTrip(base: string, v: Values, errorCode: Option<string>)
    requires Clean(base, v, errorCode)
    requires errorCode.Some? ==> GoodValue(ErrorCode, errorCode.value)
    ensures Extract(ComposeText(base, v, errorCode, true, false)).values == Expected(v, errorCode)
  {
    forall k
      ensures NotPreempted(k, base, v, errorCode)
    {
      CleanHoldsNothing(k, base, v, errorCode);
    }
    RoundTripIffNotPreempted(base, v, errorCode);
  }

  /** An identifier-free message carries an identifier only if its narrative does. */
  lemma IdentifierFreeIsNarrative(base: string, v: Values, errorCode: Option<string>, aliases: bool)
    requires forall k :: Unexposed(k, base)
    ensures Extract(ComposeText(base, v, errorCode, aliases, true)).values == map[]
  {
    forall name | name in Extract(base).values
      ensures false
    {
      ExtractOnlyKeys(base, |KEYS|, name);
      var k :| Name(k) == name;
      ExtractSpec(base, k);
      UnexposedNoSearch(k, base);
    }
  }
}
