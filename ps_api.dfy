/**
 * The tier table and the `POST /check_password` handler of `ps_api.py`: resolve the
 * caller's key, consume one unit of its monthly quota, validate the password field,
 * and evaluate the password.
 *
 * The HTTP layer is reduced to its inputs (the `X-API-Key` header and the body's
 * `password` field) and the status of its response; an exception the handler lets
 * escape becomes `ServerError`, the status 500 the web framework answers with.
 */
module PsApi {
  import opened Wrappers
  import opened Text
  import opened UsageTracker
  import opened Strength
  import opened ApiKeys

  /** The monthly number of admissions each tier allows (ps_api.py:23-28). */
  const TierQuota: map<string, nat> :=
    map["free" := 100, "pro" := 50000, "ultra" := 100000, "mega" := 5000000]

  /** The limit string for a quota of `n`, as ps_api.py:24-27 spell them: `"<n> per month"`. */
  function LimitText(n: nat): string {
    IntToString(n) + " per month"
  }

  /** The `free` tier's limit string is the source's. */
  lemma FreeLimitSpelling()
    ensures LimitText(100) == "100 per month"
  {
    OneThenZeros();
  }

  /** The `pro` tier's limit string is the source's. */
  lemma ProLimitSpelling()
    ensures LimitText(50000) == "50000 per month"
  {
    FiveThenZeros();
    assert DecimalString(50000) == "50000";
  }

  /** The `ultra` tier's limit string is the source's. */
  lemma UltraLimitSpelling()
    ensures LimitText(100000) == "100000 per month"
  {
    OneThenZeros();
    assert DecimalString(100000) == "100000";
  }

  /** The `mega` tier's limit string is the source's. */
  lemma MegaLimitSpelling()
    ensures LimitText(5000000) == "5000000 per month"
  {
    FiveThenZeros();
    assert DecimalString(5000000) == "5000000";
  }

  /** The decimal forms of 100 and 100000. */
  lemma OneThenZeros()
    ensures DecimalString(100) == "100"
    ensures DecimalString(100000) == "100000"
  {
    AppendZero(1);
    AppendZero(10);
    assert DecimalString(100) == "100";
    AppendZero(100);
    AppendZero(1000);
    AppendZero(10000);
  }

  /** The decimal forms of 50000 and 5000000. */
  lemma FiveThenZeros()
    ensures DecimalString(50000) == "50000"
    ensures DecimalString(5000000) == "5000000"
  {
    AppendZero(5);
    AppendZero(50);
    AppendZero(500);
    AppendZero(5000);
    assert DecimalString(50000) == "50000";
    AppendZero(50000);
    AppendZero(500000);
  }

  /** `TIER_LIMITS`: each tier's limit as the string the tracker parses. */
  const TierLimits: map<string, string> := map t | t in TierQuota :: LimitText(TierQuota[t])

  /** The tiers a key may be given are exactly the tiers with a limit. */
  lemma ValidTiersHaveLimits()
    ensures forall t :: t in ValidTiers <==> t in TierLimits
  {
  }

  /** Each tier's limit string reads as that tier's quota. */
  lemma TierLimitsParse(tier: string)
    requires tier in TierLimits
    ensures LookupLimit(TierLimits, tier) == Limit(TierQuota[tier])
  {
    ParseLimitLeadingInteger(TierQuota[tier], " per month");
  }

  /** `get_tier_from_key(api_key)`: `API_KEYS.get(api_key)`. */
  function GetTierFromKey(apiKeys: map<string, string>, apiKey: string): (r: Option<string>)
    ensures r.Some? <==> apiKey in apiKeys
    ensures r.Some? ==> r.value == apiKeys[apiKey]
  {
    if apiKey in apiKeys then Some(apiKeys[apiKey]) else None
  }

  /** In a store whose tiers are all valid, a known key's tier has a limit. */
  lemma KnownKeyTierHasLimit(apiKeys: map<string, string>, apiKey: string)
    requires TiersValid(apiKeys)
    requires GetTierFromKey(apiKeys, apiKey).Some?
    ensures GetTierFromKey(apiKeys, apiKey).value in TierLimits
  {
    ValidTiersHaveLimits();
  }

  /** `{key: TIER_LIMITS[val] for key, val in API_KEYS.items()}` over a tier table, or
      `None` where a stored tier has no limit and the lookup raises `KeyError`. */
  function LimitsTable(tierLimits: map<string, string>, apiKeys: map<string, string>): (r: Option<map<string, string>>)
    ensures r.Some? <==> forall k :: k in apiKeys ==> apiKeys[k] in tierLimits
    ensures r.Some? ==> r.value.Keys == apiKeys.Keys
  {
    if forall k :: k in apiKeys ==> apiKeys[k] in tierLimits then
      Some(map k | k in apiKeys :: tierLimits[apiKeys[k]])
    else
      None
  }

  /** A tier table that gives every valid tier its quota, as `TierLimits` does. */
  ghost predicate QuotaTable(tierLimits: map<string, string>) {
    forall t :: t in ValidTiers ==> t in tierLimits && LookupLimit(tierLimits, t) == Limit(TierQuota[t])
  }

  /** `TIER_LIMITS` gives every valid tier its quota. */
  lemma TierLimitsIsQuotaTable()
    ensures QuotaTable(TierLimits)
  {
    forall t | t in ValidTiers
      ensures t in TierLimits && LookupLimit(TierLimits, t) == Limit(TierQuota[t])
    {
      TierLimitsParse(t);
    }
  }

  /** With such a table, a store whose tiers are all valid gives a total limits table,
      in which every key's limit is its tier's quota. */
  lemma ValidStoreLimits(tierLimits: map<string, string>, apiKeys: map<string, string>, apiKey: string)
    requires QuotaTable(tierLimits)
    requires TiersValid(apiKeys)
    requires apiKey in apiKeys
    ensures LimitsTable(tierLimits, apiKeys).Some?
    ensures LookupLimit(LimitsTable(tierLimits, apiKeys).value, apiKey) == Limit(TierQuota[apiKeys[apiKey]])
  {
    var tier := apiKeys[apiKey];
    assert LookupLimit(tierLimits, tier) == Limit(TierQuota[tier]);
  }

  /** A single bad tier anywhere in the store makes the table raise, for every caller. */
  lemma BadTierBreaksTable(apiKeys: map<string, string>, other: string)
    requires other in apiKeys && apiKeys[other] !in TierLimits
    ensures LimitsTable(TierLimits, apiKeys).None?
  {
  }

  /** The request body as the handler reads its `password` field: no field (or no body,
      or a falsy JSON value such as `{}`, `[]`, `0` or `""`), a value that is not a string,
      a string, or a truthy JSON value that is not an object, on which `data.get` raises. */
  datatype PasswordField = Absent | NotAString | Str(s: string) | NotAnObject

  datatype Response = Unauthorized | QuotaExceeded | BadRequest | ServerError | Success(report: Report)

  function StatusCode(r: Response): int {
    match r
    case Unauthorized => 401
    case QuotaExceeded => 429
    case BadRequest => 400
    case ServerError => 500
    case Success(_) => 200
  }

  /** The header names a stored key. */
  predicate Authorized(apiKey: Option<string>, apiKeys: map<string, string>) {
    apiKey.Some? && apiKey.value != "" && apiKey.value in apiKeys
  }

  /** The record the tracker stores when it admits `key` this month. */
  function Charged(usage: map<string, UsageRecord>, key: string, month: string): map<string, UsageRecord> {
    usage[key := UsageRecord(month, EffectiveCount(usage, key, month) + 1)]
  }

  /** A non-empty string, the only password field that passes ps_api.py:138. */
  predicate ValidPassword(password: PasswordField) {
    password.Str? && password.s != ""
  }

  /** The handler's answer once the quota check has given its verdict (ps_api.py:132-142):
      429 on denial, then the body is read, then 400 for a bad password field, then the
      evaluation. */
  function AfterQuota(verdict: Verdict, password: PasswordField, digestSuffix: string,
                      reply: BreachReply): (r: Response)
    ensures r.QuotaExceeded? <==> verdict.Deny?
    ensures r.BadRequest? <==> verdict.Admit? && !ValidPassword(password) && !password.NotAnObject?
    ensures r.Success? ==> verdict.Admit? && ValidPassword(password)
                           && Evaluate(password.s, MatchBreach(digestSuffix, reply)) == Some(r.report)
    ensures r.ServerError? ==> verdict.Fault? || password.NotAnObject?
                               || MatchBreach(digestSuffix, reply) == Malformed
    ensures !r.Unauthorized?
  {
    if verdict.Deny? then QuotaExceeded
    else if verdict.Fault? then ServerError
    else if password.NotAnObject? then ServerError
    else if !ValidPassword(password) then BadRequest
    else
      match Evaluate(password.s, MatchBreach(digestSuffix, reply))
      case None => ServerError
      case Some(report) => Success(report)
  }

  /**
   * `check_password()` (ps_api.py:126-142) as a function of the tier table, the request,
   * the key table, the usage table, the month, the password's digest suffix and the
   * breach service's reply: the response and the usage table afterwards. Authorization
   * comes first and consumes nothing; the quota check comes next and consumes one unit
   * on admission; the password is validated only after that.
   */
  function Handle(tierLimits: map<string, string>, apiKey: Option<string>, password: PasswordField,
                  apiKeys: map<string, string>, usage: map<string, UsageRecord>, month: string,
                  digestSuffix: string, reply: BreachReply): (r: (Response, map<string, UsageRecord>))
    ensures r.0.Unauthorized? <==> !Authorized(apiKey, apiKeys)
    ensures r.0.Unauthorized? || r.0.QuotaExceeded? ==> r.1 == usage
    ensures r.1 == usage || (Authorized(apiKey, apiKeys) && r.1 == Charged(usage, apiKey.value, month))
  {
    if !Authorized(apiKey, apiKeys) then (Unauthorized, usage)
    else
      match LimitsTable(tierLimits, apiKeys)
      case None => (ServerError, usage)
      case Some(limits) =>
        var consumed := Consume(usage, apiKey.value, month, limits);
        (AfterQuota(consumed.0, password, digestSuffix, reply), consumed.1)
  }

  /** A 400 or a 200 is answered only after a unit was consumed: the first for a missing
      or empty password, the second with the password's evaluation. */
  lemma ChargedOutcomes(tierLimits: map<string, string>, apiKey: Option<string>, password: PasswordField,
                        apiKeys: map<string, string>, usage: map<string, UsageRecord>, month: string,
                        digestSuffix: string, reply: BreachReply)
    ensures var r := Handle(tierLimits, apiKey, password, apiKeys, usage, month, digestSuffix, reply);
            (r.0.BadRequest? ==> !ValidPassword(password) && r.1 == Charged(usage, apiKey.value, month))
            && (r.0.Success? ==> ValidPassword(password)
                                 && Evaluate(password.s, MatchBreach(digestSuffix, reply)) == Some(r.0.report)
                                 && r.1 == Charged(usage, apiKey.value, month))
  {
    var r := Handle(tierLimits, apiKey, password, apiKeys, usage, month, digestSuffix, reply);
    if r.0.BadRequest? || r.0.Success? {
      var limits := LimitsTable(tierLimits, apiKeys).value;
      var consumed := Consume(usage, apiKey.value, month, limits);
      assert r.0 == AfterQuota(consumed.0, password, digestSuffix, reply);
      assert consumed.0.Admit?;
    }
  }

  /**
   * With a valid key store and a known key: the request is refused with 429 exactly
   * when this month's effective count has reached the tier's quota, and a 500 can only
   * come from a body that is not an object or a malformed breach reply.
   */
  lemma HandleWithValidStore(tierLimits: map<string, string>, apiKey: string, password: PasswordField, apiKeys: map<string, string>,
                             usage: map<string, UsageRecord>, month: string, digestSuffix: string,
                             reply: BreachReply)
    requires QuotaTable(tierLimits) && TiersValid(apiKeys)
    requires apiKey != "" && apiKey in apiKeys
    ensures var r := Handle(tierLimits, Some(apiKey), password, apiKeys, usage, month, digestSuffix, reply);
            (r.0.QuotaExceeded? <==> EffectiveCount(usage, apiKey, month) >= TierQuota[apiKeys[apiKey]])
            && (r.0.ServerError? ==> password.NotAnObject? || MatchBreach(digestSuffix, reply) == Malformed)
  {
    ValidStoreLimits(tierLimits, apiKeys, apiKey);
  }

  /** A request with a missing or bad password still uses up one unit of the quota. */
  lemma BadRequestConsumesUnit(tierLimits: map<string, string>, apiKey: string, apiKeys: map<string, string>,
                               usage: map<string, UsageRecord>, month: string, digestSuffix: string,
                               reply: BreachReply)
    requires QuotaTable(tierLimits) && TiersValid(apiKeys)
    requires apiKey != "" && apiKey in apiKeys
    requires EffectiveCount(usage, apiKey, month) < TierQuota[apiKeys[apiKey]]
    ensures var r := Handle(tierLimits, Some(apiKey), Absent, apiKeys, usage, month, digestSuffix, reply);
            r.0.BadRequest? && r.1 == Charged(usage, apiKey, month)
            && r.1[apiKey].count == EffectiveCount(usage, apiKey, month) + 1
  {
    ValidStoreLimits(tierLimits, apiKeys, apiKey);
  }

  /** The handler run against the tracker object, as the service runs it. */
  method CheckPassword(tracker: Tracker, apiKeys: map<string, string>, apiKey: Option<string>,
                       password: PasswordField, currentMonth: string, digestSuffix: string,
                       reply: BreachReply) returns (response: Response)
    modifies tracker
    ensures (response, tracker.usage)
         == Handle(TierLimits, apiKey, password, apiKeys, old(tracker.usage), currentMonth, digestSuffix, reply)
  {
    if apiKey.None? || apiKey.value == "" || apiKey.value !in apiKeys {
      return Unauthorized;
    }
    var limits := LimitsTable(TierLimits, apiKeys);
    if limits.None? {
      return ServerError;
    }
    var verdict := tracker.IsWithinLimit(apiKey.value, currentMonth, limits.value);
    if verdict.Deny? {
      return QuotaExceeded;
    }
    if verdict.Fault? {
      return ServerError;
    }
    if password.NotAnObject? {
      return ServerError;
    }
    if !(password.Str? && password.s != "") {
      return BadRequest;
    }
    var breach := IsPasswordPwned(digestSuffix, reply);
    var report := Evaluate(password.s, breach);
    if report.None? {
      return ServerError;
    }
    return Success(report.value);
  }
}
