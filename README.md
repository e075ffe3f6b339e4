# Password-Strength-API in Dafny

A model of the Password-Strength-API service, with proofs about it. The service is a small web
service with one endpoint, `POST /check_password`. A caller presents an API key in the
`X-API-Key` header. The key's tier (`free`, `pro`, `ultra`, `mega`) fixes a monthly quota of
requests. Each admitted request consumes one unit of the quota. The service then scores the
password in the request body and looks it up in a breach database. A console tool adds keys
to the key store and deletes them from it.

The model has six modules:

- `UsageTracker` (`usage_tracker.dfy`) models the monthly usage table and `is_within_limit`.
  The table is the `usage` field of a `Tracker` object. Its `IsWithinLimit` method is proved
  equal to the specification function `Consume`. The lemmas about `Consume` give the quota's
  guarantees: exactly the remaining number of calls is admitted, a record from an earlier
  month counts as zero, a denial writes nothing, and only the caller's record changes.
- `Strength` (`strength.dfy`) models the scoring of a password:
  - the five checks, the advice for each failed check, the breach penalty, the clamp and the
    rating;
  - the alphabet size that the entropy estimate is built on;
  - the loop that matches the breach service's reply lines against a digest suffix. The
    imperative version is `IsPasswordPwned`; its specification is the recursive
    `MatchLines`.
- `ApiKeys` (`api_keys.dfy`) models the key store as the `keys` field of a `KeyManager`, with
  `AddKey` and `DeleteKey`. Both keep every stored tier valid.
- `PsApi` (`ps_api.dfy`) models the rest of the endpoint:
  - the tier table, the key lookup, and the per-key limits table built from the store;
  - the handler `check_password`. It is modelled both as the function `Handle` and as the
    method `CheckPassword`, which drives a `Tracker`.
- `Text` (`text.dfy`) holds the parts of Python's `str` and `int` that the service relies
  on, on ASCII text: `strip`, `lower`, `split()[0]`, `int(...)`, `str(int)` and substring
  search.
- `Wrappers` (`wrappers.dfy`) holds `Option`.

Exceptions that the source lets escape are explicit values in the model:

- `Verdict.Fault`: the limit string cannot be read.
- `Breach.Malformed`: a reply line without exactly one `:`, or a count that `int` rejects.
- `LimitsTable` returning `None`: a stored tier has no limit.
- `PasswordField.NotAnObject`: a truthy JSON value that is not an object, on which `data.get`
  raises. A falsy value (`0`, `false`, `""`, `[]`) reads as no password and gets a 400.

At the endpoint each of these becomes `Response.ServerError`, the status 500 that the web
framework answers with.

Four behaviours of the code that the model keeps:

- The quota unit is consumed before the password field is validated. A request with a
  missing password therefore costs one unit and is answered with 400.
- Only a breach-service status other than 200 is a soft failure (not pwned, count 0). A
  malformed reply line raises.
- The special characters of the entropy estimate are a different set from those of the
  score: 30 characters, counted as a class of 32.
- The limits table is built from every stored key on every request. One stored key with an
  unknown tier therefore makes every authorized request fail with 500.

## Model

| member | source | states |
|---|---|---|
| UsageTracker.ParseLimit | usage_tracker.py:35 | a limit is read exactly when the string has a first token that `int` accepts, and it is the value `int` gives that token; otherwise reading it raises |
| UsageTracker.LookupLimit | usage_tracker.py:31-33 | the key has no limit exactly when it is absent from the limits table or its limit string is empty |
| UsageTracker.ParseLimitLeadingInteger | usage_tracker.py:35 | a limit string made of an integer followed by whitespace-separated words reads as that integer |
| UsageTracker.Consume | usage_tracker.py:21-42 | the call admits exactly when a limit exists and this month's count is below it, and raises exactly when the limit string cannot be read; only an admission writes, it stores this month's count plus one, and the stored count never exceeds the limit |
| UsageTracker.ConsumeTouchesOnlyKey | usage_tracker.py:39-41 | a call adds no key other than the caller's and leaves every other record as it was |
| UsageTracker.StaleRecordIgnored | usage_tracker.py:24-28 | a record from another month gives the same verdict as no record at all, whatever its count |
| UsageTracker.ExactlyRemainingAdmissions | usage_tracker.py:36-42 | from a count `c` at most the limit `L`, exactly `L - c` calls in a row are admitted, the next one is denied, and the count then stands at `L` |
| UsageTracker.DenialIsStable | usage_tracker.py:32-37 | once a call is denied, every later call in the same month is denied and the table stays unchanged |
| UsageTracker.Tracker.IsWithinLimit | usage_tracker.py:21-42 | the verdict and the new usage table are those of `Consume` on the old table |
| Strength.Assess | ps_api.py:79-102 | the score is the number of passed checks (0 to 5), and the feedback holds the advice of exactly the failed checks, in check order |
| Strength.PatternFailsCheck | ps_api.py:99-102 | a password holding `1234`, `password` or `qwerty` anywhere fails the pattern check |
| Strength.Clamp | ps_api.py:109 | the score is forced into 0..5 and a score already in range is kept |
| Strength.RatingOf | ps_api.py:110 | Weak exactly for scores up to 2, Moderate exactly for 3, Strong exactly from 4 |
| Strength.CharsetSize | ps_api.py:51-57 | the alphabet size is between 1 and 94; it is 1 exactly when no character class occurs and 94 exactly when all four occur |
| Strength.CharsetGrows | ps_api.py:52-57 | appending characters never shrinks the alphabet size |
| Strength.SpecialSetsDiffer | ps_api.py:56 | the score's special characters (ps_api.py:95) are a proper part of the estimate's, and `^` is one the score does not count |
| Strength.SpecialCheckWidensAlphabet | ps_api.py:56 | a password that passes the score's special-character check (ps_api.py:95) always draws from the class of 32, so its alphabet size is at least 32 |
| Strength.SplitColonExactlyOne | ps_api.py:45 | unpacking `line.split(':')` into two parts succeeds exactly when the line holds one `:`, and then splits the line around it |
| Strength.NotFoundIffAllMiss | ps_api.py:44-48 | the loop ends with `(False, 0)` exactly when every line is well formed and names another digest suffix |
| Strength.FoundIsFirstHit | ps_api.py:44-47 | a reported count comes from the first line the loop does not skip; that line names the suffix and carries that count |
| Strength.MalformedIsFirstBadLine | ps_api.py:44-47 | the loop raises only on the first line it does not skip, which is malformed or names the suffix with an unreadable count |
| Strength.MissSkips | ps_api.py:44-46 | after a well-formed line naming another suffix, the outcome is that of the remaining lines |
| Strength.IsPasswordPwned | ps_api.py:41-48 | the loop returns the outcome of `MatchBreach`: unavailable on a status other than 200, otherwise the first matching line's count, not found, or malformed |
| Strength.Evaluate | ps_api.py:104-122 | a malformed reply raises. Otherwise the score is the passed-check count, one less (never below 0) when breached, and the rating follows the score. The feedback is the failed checks' advice, followed by the breach advice when breached. The pwned flag and count follow the lookup (count 0 when not found). The alphabet size is `CharsetSize` |
| Strength.LowerCaseWordIsWeak | ps_api.py:83-110 | a password of lower-case letters alone scores at most 2 and is rated Weak, whatever the breach lookup says |
| PsApi.FreeLimitSpelling | ps_api.py:24 | the `free` tier's limit string is `100 per month` |
| PsApi.ProLimitSpelling | ps_api.py:25 | the `pro` tier's limit string is `50000 per month` |
| PsApi.UltraLimitSpelling | ps_api.py:26 | the `ultra` tier's limit string is `100000 per month` |
| PsApi.MegaLimitSpelling | ps_api.py:27 | the `mega` tier's limit string is `5000000 per month` |
| PsApi.ValidTiersHaveLimits | ps_api.py:23-28 | the tiers with a limit are exactly the tiers a key may be given (api_keys.py:6) |
| PsApi.TierLimitsParse | ps_api.py:23-28 | each tier's limit string reads, through the tracker's parsing, as that tier's quota |
| PsApi.TierLimitsIsQuotaTable | ps_api.py:23-28 | the tier table gives every valid tier its quota |
| PsApi.GetTierFromKey | ps_api.py:31-32 | the tier is found exactly for a stored key, and it is the stored tier |
| PsApi.KnownKeyTierHasLimit | ps_api.py:31-32 | in a store whose tiers are all valid, a known key's tier has a limit |
| PsApi.LimitsTable | ps_api.py:132 | the per-key limits table exists exactly when every stored tier has a limit, and then it covers exactly the stored keys |
| PsApi.ValidStoreLimits | ps_api.py:132 | with a store whose tiers are all valid, the limits table exists and each key's limit is its tier's quota |
| PsApi.BadTierBreaksTable | ps_api.py:132 | one stored key with an unknown tier makes the table fail for every caller |
| PsApi.AfterQuota | ps_api.py:132-142 | 429 exactly on denial. 400 exactly when admitted with a missing, empty or non-string password. 200 only when admitted with a non-empty password, carrying its evaluation. 500 only when the limit is unreadable, the body is not an object, or the breach reply is malformed. Never 401 |
| PsApi.Handle | ps_api.py:126-142 | 401 exactly when the key header is missing, empty or unknown. A 401 or a 429 leaves the usage table unchanged. Otherwise the table is either unchanged or charged one unit for the caller this month |
| PsApi.ChargedOutcomes | ps_api.py:132-141 | a 400 means an invalid password field and a charged unit; a 200 means a valid password, its evaluation, and a charged unit |
| PsApi.HandleWithValidStore | ps_api.py:126-142 | with a valid store and a known key, 429 is answered exactly when this month's count has reached the tier's quota, and a 500 only comes from a body that is not an object or a malformed breach reply |
| PsApi.BadRequestConsumesUnit | ps_api.py:132-139 | under the quota, a request without a password is answered 400 and still raises the caller's count by one |
| PsApi.CheckPassword | ps_api.py:126-142 | the response and the tracker's new usage table are those of `Handle` on the old table, with the service's tier table |
| ApiKeys.NormalizeTier | api_keys.py:26 | the normalized tier is as long as the stripped input, has no surrounding whitespace and has no upper-case letter |
| ApiKeys.NormalizeTierAcceptsPadding | api_keys.py:26-27 | a valid tier typed in any letter case (e.g. ` FrEe `) and with any surrounding whitespace is accepted as that tier |
| ApiKeys.KeyManager.AddKey | api_keys.py:25-35 | a key is added exactly when the normalized tier is valid; the new key maps to that tier, nothing else changes, and a store with valid tiers stays valid |
| ApiKeys.KeyManager.DeleteKey | api_keys.py:38-46 | the stripped key is deleted exactly when it is present, nothing else changes, and a store with valid tiers stays valid |
| Text.Strip | api_keys.py:39 | `strip()` neither lengthens the text nor leaves whitespace at either end |
| Text.StripRemovesOnlySpace | api_keys.py:39 | what `strip()` keeps is the contiguous piece of the text between the leading and the trailing whitespace |
| Text.StripKeepsCore | api_keys.py:39 | whitespace around a text that neither starts nor ends with whitespace is exactly what `strip()` removes |
| Text.Lower | ps_api.py:99 | `lower()` keeps the length, maps each upper-case letter to its lower-case letter, and leaves every other character unchanged |
| Text.FirstToken | usage_tracker.py:35 | `split()[0]` raises exactly when the text is all whitespace; otherwise the token is non-empty and holds no whitespace |
| Text.FirstTokenPosition | usage_tracker.py:35 | the first token starts where the leading whitespace ends and is followed by the end of the text or by whitespace |
| Text.ParseIntOfIntToString | usage_tracker.py:35 | `int(str(n)) == n` for every integer `n` |
| Text.DigitsValueOfDecimal | usage_tracker.py:35 | the digits of `str(n)` read back as `n` |
| Text.ParseIntReadsSignedDigits | usage_tracker.py:35 | `int` reads surrounding whitespace, an optional `+` or `-` and a run of digits (leading zeros allowed) as the signed value of the digits |
| Text.ParseIntRejectsOtherCharacters | usage_tracker.py:35 | `int` raises when the stripped text holds a character that is neither a digit nor a leading sign |
| Text.Contains | ps_api.py:99 | `pattern in s` holds exactly when the pattern occurs in `s` at some offset |

## Left out

- Files: `load_usage`, `save_usage`, `load_keys`, `save_keys` and the loading of `API_KEYS`
  at start-up are left out. The files are the fields `Tracker.usage` and `KeyManager.keys`
  (and the parameter `apiKeys`). A missing or corrupt file is not modelled.
- Concurrency: concurrent requests, and the lost updates that unlocked read-modify-write of
  the usage file allows, are not modelled. Each call is atomic.
- Clock: `get_current_month` reads the clock, so the month is a parameter.
- Breach lookup: the SHA-1 digest and the HTTP request to the breach service are
  computations and I/O outside the model. The digest suffix and the reply are parameters.
  The reply's status and its text split into lines are given directly, so `splitlines` is
  not modelled. An exception raised by the HTTP client itself is not modelled.
- Entropy: `calculate_entropy`'s logarithm and rounding, and `estimate_crack_time`, are
  floating-point arithmetic. `Report` keeps the alphabet size they are computed from but
  has neither the entropy nor the crack-time text.
- Web framework: only the status code and the evaluation report of a response are
  modelled, not its JSON body. CORS and routing are left out. A body that is not valid JSON,
  or is sent with another content type, makes `request.get_json()` at ps_api.py:135 fail.
  The framework then answers 400 or 415, depending on its version. This happens after
  `is_within_limit` has charged the unit, as for a missing password. The model has no case
  for such a body.
- Key management: `generate_api_key` uses a random source, so the new key is the `newKey`
  parameter. `list_keys`, `menu` and the printed messages are console I/O and are left out.
- Unicode: the model is ASCII only. Python's `isspace`, `lower` and `\d` also accept
  non-ASCII characters.
- Text.ParseInt: does not accept the underscores that Python's `int` allows between digits
  (`"1_000"`); such a limit string or breach count reads as unreadable here.
- Integers are unbounded on both sides, as in Python, so there is no wrap-around to model.
