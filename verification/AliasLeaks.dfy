/** Configured values whose aliases are not read back, although sanitising makes every alias well formed. */
module AliasLeaks {
  import opened Options
  import opened Collections
  import opened Identifiers
  import opened Composer
  import opened Tokens
  import opened Fields
  import opened RoundTrip

  function Either(a: Option<string>, b: Option<string>): Option<string> {
    if a.Some? then a else b
  }

  lemma HeldCons(k: Key, field: string, f: Field, rest: seq<Field>)
    requires !Carries(k, f.slot)
    ensures HeldAhead(k, field, [f] + rest)
      == Either(Search(k, field + " " + KeyOf(f.slot)), HeldAhead(k, f.value, rest))
  {
    assert ([f] + rest)[1..] == rest;
  }

  function HeldFirst(k: Key, base: string, v: Values): Option<string> {
    Either(Search(k, base + " |" + " " + "trxId"), Search(k, Verbatim(v.trxId) + " " + "username"))
  }

  /** What the fields ahead of the component id hold; neither the component id nor an error code matters. */
  function HeldEarly(k: Key, base: string, v: Values): Option<string> {
    Either(HeldFirst(k, base, v), Search(k, Verbatim(v.username) + " " + "componentId"))
  }

  function LaterFields(v: Values, errorCode: Option<string>): seq<Field> {
    CodeField(ErrorCodeField, errorCode) + AliasFields(v) + CodeField(Identifier(ErrorCode), errorCode)
  }

  lemma FieldsInTurn(v: Values, errorCode: Option<string>)
    ensures var all := VerbatimFields(v);
      MessageFields(v, errorCode) == [all[0]] + ([all[1]] + ([all[2]] + LaterFields(v, errorCode)))
  {
    var code, aliases := CodeField(ErrorCodeField, errorCode), AliasFields(v);
    var last := CodeField(Identifier(ErrorCode), errorCode);
    ConcatAssoc(VerbatimFields(v), code, aliases);
    ConcatAssoc(VerbatimFields(v), code + aliases, last);
  }

  lemma HeldStartsEarly(k: Key, base: string, v: Values, errorCode: Option<string>)
    ensures Held(k, base, v, errorCode)
      == Either(HeldEarly(k, base, v), HeldAhead(k, Verbatim(v.componentId), LaterFields(v, errorCode)))
  {
    var all, later := VerbatimFields(v), LaterFields(v, errorCode);
    HeldCons(k, Verbatim(v.username), all[2], later);
    HeldCons(k, Verbatim(v.trxId), all[1], [all[2]] + later);
    HeldCons(k, base + " |", all[0], [all[1]] + ([all[2]] + later));
    FieldsInTurn(v, errorCode);
  }

  lemma FirstHoldNothing(k: Key, base: string, v: Values)
    requires Unexposed(k, base) && Unexposed(k, Verbatim(v.trxId))
    ensures HeldFirst(k, base, v) == None
  {
    HeadIsUnexposed(k, base);
    BareWordIsSilent(k, base + " |", "trxId");
    BareWordIsSilent(k, Verbatim(v.trxId), "username");
  }

  lemma EarlyHoldsNothing(k: Key, base: string, v: Values)
    requires Unexposed(k, base) && Unexposed(k, Verbatim(v.trxId)) && Unexposed(k, Verbatim(v.username))
    ensures HeldEarly(k, base, v) == None
  {
    FirstHoldNothing(k, base, v);
    BareWordIsSilent(k, Verbatim(v.username), "componentId");
  }

  lemma SvcKeyword()
    ensures KeywordOf(ServiceName, "svc")
  {
    LiteralPrefix("svc", "svc", "", "");
    assert "svc" + "" == Words(ServiceName)[1];
  }

  lemma SvcFieldHolds(stem: string)
    ensures Search(ServiceName, stem + "svc" + " " + "componentId").Some?
    ensures AllWordChars(stem) ==> Search(ServiceName, stem + "svc" + " " + "componentId") == Some("componentId")
  {
    SvcKeyword();
    KeywordSuffixHolds(ServiceName, stem, "svc", "componentId");
  }

  /** A user name that ends in "svc" fixes the service name that is read: whatever the component id is, and whatever
      error code there is, the message yields the same service name, so the alias of at most one component is read
      back. */
  lemma SvcSuffixHidesComponent(base: string, v: Values, stem: string) returns (read: string)
    requires v.username == Some(stem + "svc")
    ensures forall c: Option<string>, e: Option<string> ::
      Search(ServiceName, ComposeText(base, v.(componentId := c), e, true, false)) == Some(read)
  {
    SvcFieldHolds(stem);
    read := HeldEarly(ServiceName, base, v).value;
    forall c: Option<string>, e: Option<string>
      ensures Search(ServiceName, ComposeText(base, v.(componentId := c), e, true, false)) == Some(read)
    {
      HeldStartsEarly(ServiceName, base, v.(componentId := c), e);
      AliasLaw(ServiceName, base, v.(componentId := c), e);
    }
  }

  /** Sanitising does not make the service name alias parse for every configured value: behind a user name of word
      characters that ends in "svc", the service name that is read is the key "componentId". */
  lemma SvcSuffixLeaks(base: string, v: Values, stem: string, errorCode: Option<string>)
    requires v.username == Some(stem + "svc") && AllWordChars(stem)
    requires Unexposed(ServiceName, base) && Unexposed(ServiceName, Verbatim(v.trxId))
    ensures Search(ServiceName, ComposeText(base, v, errorCode, true, false)) == Some("componentId")
    ensures v.ComponentAlias() != "componentId" ==>
      Extract(ComposeText(base, v, errorCode, true, false)).values != Expected(v, errorCode)
  {
    var text := ComposeText(base, v, errorCode, true, false);
    SvcFieldHolds(stem);
    FirstHoldNothing(ServiceName, base, v);
    HeldStartsEarly(ServiceName, base, v, errorCode);
    AliasLaw(ServiceName, base, v, errorCode);
    ExtractSpec(text, ServiceName);
    ExpectedUnderName(ServiceName, v, errorCode);
  }

  lemma StatusKeyword()
    ensures KeywordOf(ErrorCode, "status")
  {
    LiteralPrefix("status", "status", "", "");
    assert "status" + "" == Words(ErrorCode)[2];
  }

  /** The key behind the component id. */
  function NextKey(errorCode: Option<string>): string {
    if errorCode.Some? then "errorCode" else "trace_id"
  }

  lemma StatusFieldReads(stem: string, errorCode: Option<string>)
    ensures var held := Search(ErrorCode, stem + "status" + " " + NextKey(errorCode));
      held.Some? && (AllWordChars(stem) ==> held == Some(NextKey(errorCode)))
  {
    StatusKeyword();
    KeywordSuffixHolds(ErrorCode, stem, "status", NextKey(errorCode));
  }

  lemma StatusFieldHolds(stem: string, v: Values, errorCode: Option<string>)
    ensures var held := Search(ErrorCode, stem + "status" + " " + NextKey(errorCode));
      held.Some? && HeldAhead(ErrorCode, stem + "status", LaterFields(v, errorCode)) == held
  {
    StatusFieldReads(stem, errorCode);
    var later := LaterFields(v, errorCode);
    assert KeyOf(later[0].slot) == NextKey(errorCode);
  }

  /** What is read as error code when the component id ends in "status"; it does not depend on which code there is. */
  function ReadBehindStatus(base: string, v: Values, stem: string, errorCode: Option<string>): Option<string> {
    Either(HeldEarly(ErrorCode, base, v), Search(ErrorCode, stem + "status" + " " + NextKey(errorCode)))
  }

  /** A component id that ends in "status" makes an error code be read that nobody wrote. Without a code that breaks the
      round trip; with one, every message yields the same value, so at most one code is read back. */
  lemma StatusSuffixLeaks(base: string, v: Values, stem: string, errorCode: Option<string>)
    requires v.componentId == Some(stem + "status")
    ensures var text, read := ComposeText(base, v, errorCode, true, false), ReadBehindStatus(base, v, stem, errorCode);
      read.Some? && Search(ErrorCode, text) == read
      && (read != errorCode ==> Extract(text).values != Expected(v, errorCode))
    ensures forall c, d :: ReadBehindStatus(base, v, stem, Some(c)) == ReadBehindStatus(base, v, stem, Some(d))
  {
    var text := ComposeText(base, v, errorCode, true, false);
    StatusFieldHolds(stem, v, errorCode);
    HeldStartsEarly(ErrorCode, base, v, errorCode);
    AliasLaw(ErrorCode, base, v, errorCode);
    ExtractSpec(text, ErrorCode);
    ExpectedUnderName(ErrorCode, v, errorCode);
  }

  /** In the plain case the key behind the component id is read: "errorCode" with a code, "trace_id" without. */
  lemma StatusSuffixReadsKey(base: string, v: Values, stem: string, errorCode: Option<string>)
    requires v.componentId == Some(stem + "status") && AllWordChars(stem) && Unexposed(ErrorCode, base)
    requires Unexposed(ErrorCode, Verbatim(v.trxId)) && Unexposed(ErrorCode, Verbatim(v.username))
    ensures Search(ErrorCode, ComposeText(base, v, errorCode, true, false)) == Some(NextKey(errorCode))
  {
    StatusSuffixLeaks(base, v, stem, errorCode);
    StatusFieldReads(stem, errorCode);
    EarlyHoldsNothing(ErrorCode, base, v);
  }
}
