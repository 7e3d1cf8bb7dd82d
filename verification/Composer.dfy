/** The generator's side: LogEventComposer.compose and RandomLogValues.sanitizeForAlias. */
module Composer {
  import opened Options
  import opened Identifiers

  /** StringBuilder.append writes a null reference as these four letters. */
  function Verbatim(value: Option<string>): string {
    if value.Some? then value.value else "null"
  }

  predicate Allowed(c: char, allowDotUnderscore: bool) {
    Alphanumeric(c) || c == '-' || (allowDotUnderscore && (c == '_' || c == '.'))
  }

  function Cleaned(s: string, allowDotUnderscore: bool): string {
    seq(|s|, i requires 0 <= i < |s| => if Allowed(s[i], allowDotUnderscore) then s[i] else '-')
  }

  function Padded(s: string): string
    decreases 8 - |s|
  {
    if |s| >= 8 then s else Padded(s + ['0'])
  }

  function SanitizeForAlias(value: Option<string>, allowDotUnderscore: bool): string {
    Padded(Cleaned(if value.Some? then value.value else "", allowDotUnderscore))
  }

  method Sanitize(value: Option<string>, allowDotUnderscore: bool) returns (padded: string)
    ensures padded == SanitizeForAlias(value, allowDotUnderscore)
  {
    var source := if value.Some? then value.value else "";
    padded := Cleaned(source, allowDotUnderscore);
    while |padded| < 8
      invariant Padded(padded) == SanitizeForAlias(value, allowDotUnderscore)
      decreases 8 - |padded|
    {
      padded := padded + ['0'];
    }
  }

  lemma {:induction false} PaddedSpec(s: string)
    ensures |Padded(s)| == (if |s| < 8 then 8 else |s|) && s <= Padded(s)
    ensures forall i :: |s| <= i < |Padded(s)| ==> Padded(s)[i] == '0'
    ensures |s| >= 8 ==> Padded(s) == s
    decreases 8 - |s|
  {
    if |s| >= 8 {
    } else {
      PaddedSpec(s + ['0']);
    }
  }

  /** An alias is long enough and consists of allowed characters only. */
  lemma AliasIsWellFormed(value: Option<string>, allowDotUnderscore: bool)
    ensures var alias := SanitizeForAlias(value, allowDotUnderscore);
      |alias| >= 8 && forall c :: c in alias ==> Allowed(c, allowDotUnderscore)
  {
    var cleaned := Cleaned(if value.Some? then value.value else "", allowDotUnderscore);
    PaddedSpec(cleaned);
  }

  /** An alias is the value with '-' for every character that is not allowed, filled up to eight with '0'; no value at
      all counts as an empty one. */
  lemma AliasAt(value: Option<string>, allowDotUnderscore: bool, i: nat)
    requires i < |SanitizeForAlias(value, allowDotUnderscore)|
    ensures var alias, n := SanitizeForAlias(value, allowDotUnderscore), if value.Some? then |value.value| else 0;
      |alias| == (if n < 8 then 8 else n)
      && alias[i] == if i >= n then '0'
                     else if Allowed(value.value[i], allowDotUnderscore) then value.value[i] else '-'
  {
    PaddedSpec(Cleaned(if value.Some? then value.value else "", allowDotUnderscore));
  }

  /** A value that is already well formed is its own alias, so sanitising twice is sanitising once. */
  lemma WellFormedIsOwnAlias(s: string, allowDotUnderscore: bool)
    requires |s| >= 8 && forall c :: c in s ==> Allowed(c, allowDotUnderscore)
    ensures SanitizeForAlias(Some(s), allowDotUnderscore) == s
  {
    PaddedSpec(s);
    assert Cleaned(s, allowDotUnderscore) == s;
  }

  /** One " key=value" token, as a pair of `append` calls writes it. */
  function Token(key: string, value: string): string {
    " " + key + "=" + value
  }

  datatype Values = Values(trxId: Option<string>, username: Option<string>, componentId: Option<string>) {
    function TrxAlias(): string { SanitizeForAlias(trxId, false) }
    function UserAlias(): string { SanitizeForAlias(username, false) }
    function ComponentAlias(): string { SanitizeForAlias(componentId, true) }
  }

  /** The part of a message that comes before any error code. */
  function Primary(base: string, v: Values): string {
    base + " |" + Token("trxId", Verbatim(v.trxId)) + Token("username", Verbatim(v.username))
    + Token("componentId", Verbatim(v.componentId))
  }

  function WithError(base: string, v: Values, errorCode: Option<string>): string {
    Primary(base, v) + if errorCode.Some? then Token("errorCode", errorCode.value) else ""
  }

  function ComposeText(base: string, v: Values, errorCode: Option<string>, aliases: bool,
      identifierFree: bool): string {
    if identifierFree then base
    else if !aliases then WithError(base, v, errorCode)
    else
      WithError(base, v, errorCode)
      + Token("trace_id", v.TrxAlias()) + Token("request_id", v.TrxAlias())
      + Token("user_id", v.UserAlias()) + Token("service_name", v.ComponentAlias())
      + if errorCode.Some? then Token("error_code", errorCode.value) else ""
  }

  method Compose(base: string, v: Values, errorCode: Option<string>, aliases: bool, identifierFree: bool)
    returns (message: string)
    ensures message == ComposeText(base, v, errorCode, aliases, identifierFree)
  {
    if identifierFree {
      return base;
    }
    message := base + " |" + Token("trxId", Verbatim(v.trxId));
    message := message + Token("username", Verbatim(v.username));
    message := message + Token("componentId", Verbatim(v.componentId));
    if errorCode.Some? {
      message := message + Token("errorCode", errorCode.value);
    } else {
      assert message + "" == message;
    }
    if aliases {
      var trxAlias := Sanitize(v.trxId, false);
      var usernameAlias := Sanitize(v.username, false);
      var componentAlias := Sanitize(v.componentId, true);
      message := message + Token("trace_id", trxAlias) + Token("request_id", trxAlias);
      message := message + Token("user_id", usernameAlias) + Token("service_name", componentAlias);
      if errorCode.Some? {
        message := message + Token("error_code", errorCode.value);
      } else {
        assert message + "" == message;
      }
    }
  }
}
