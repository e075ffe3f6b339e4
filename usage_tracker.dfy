/**
 * The monthly usage counter of `usage_tracker.py`: a table from API key to
 * `{month, count}` that `is_within_limit` reads, checks against the key's
 * monthly limit, and writes back with the count raised by one on admission.
 *
 * The persisted JSON file becomes the field `Tracker.usage`; the wall clock
 * becomes the `month` parameter (a `YYYY-MM` string).
 */
module UsageTracker {
  import opened Wrappers
  import opened Text

  /** One row of the usage table. Counts come from a file, so nothing bounds them. */
  datatype UsageRecord = UsageRecord(month: string, count: int)

  /** What `is_within_limit` does: return True, return False, or raise while reading the limit. */
  datatype Verdict = Admit | Deny | Fault

  /** The limit for a key: absent or empty (the call returns False), unreadable
      (`split()[0]` or `int` raises), or a number. */
  datatype LimitLookup = NoLimit | BadLimit | Limit(n: int)

  /** `int(limit_str.split()[0])` on a non-empty limit string. */
  function ParseLimit(limitStr: string): (r: LimitLookup)
    ensures !r.NoLimit?
    ensures r.Limit? <==> FirstToken(limitStr).Some? && ParseInt(FirstToken(limitStr).value).Some?
    ensures r.Limit? ==> r.n == ParseInt(FirstToken(limitStr).value).value
  {
    match FirstToken(limitStr)
    case None => BadLimit
    case Some(token) =>
      match ParseInt(token)
      case None => BadLimit
      case Some(n) => Limit(n)
  }

  /** `tier_limits.get(api_key)`, the emptiness test, then `ParseLimit`. */
  function LookupLimit(limits: map<string, string>, key: string): (r: LimitLookup)
    ensures r.NoLimit? <==> key !in limits || limits[key] == ""
  {
    if key !in limits || limits[key] == "" then NoLimit else ParseLimit(limits[key])
  }

  /** The limit is the leading integer of the limit string, whatever words follow it. */
  lemma ParseLimitLeadingInteger(n: int, rest: string)
    requires rest == [] || IsSpace(rest[0])
    ensures ParseLimit(IntToString(n) + rest) == Limit(n)
  {
    var s := IntToString(n);
    var t := FirstToken(s + rest);
    assert !IsSpace(s[0]);
    assert StripLeft(s + rest) == s + rest;
    var m := if n < 0 then -n else n;
    assert forall i :: 0 <= i < |s| ==> !IsSpace(s[i]) by {
      forall i | 0 <= i < |s| ensures !IsSpace(s[i]) {
        if n < 0 && i > 0 { assert s[i] == DecimalString(m)[i - 1]; }
      }
    }
    TakeWordOfWord(s, rest);
    ParseIntOfIntToString(n);
  }

  /** A word followed by whitespace or nothing is what `TakeWord` takes. */
  lemma {:induction false} TakeWordOfWord(w: string, rest: string)
    requires NoSpace(w)
    requires rest == [] || IsSpace(rest[0])
    ensures TakeWord(w + rest) == w
  {
    if w != [] {
      assert (w + rest)[1..] == w[1..] + rest;
      TakeWordOfWord(w[1..], rest);
    }
  }

  /** The count the tracker compares with the limit: the stored count when the key
      has a record for this month, and 0 for a missing key or a record from another
      month. */
  function EffectiveCount(usage: map<string, UsageRecord>, key: string, month: string): int {
    if key in usage && usage[key].month == month then usage[key].count else 0
  }

  /**
   * One call of `is_within_limit`, as a function of the stored table: the verdict
   * and the table as it is afterwards. Only an admission writes, and it writes
   * only this key's record.
   */
  function Consume(usage: map<string, UsageRecord>, key: string, month: string,
                   limits: map<string, string>): (r: (Verdict, map<string, UsageRecord>))
    ensures r.0 == Admit <==> LookupLimit(limits, key).Limit?
                              && EffectiveCount(usage, key, month) < LookupLimit(limits, key).n
    ensures r.0 == Fault <==> LookupLimit(limits, key).BadLimit?
    ensures r.0 != Admit ==> r.1 == usage
    ensures r.0 == Admit ==> r.1 == usage[key := UsageRecord(month, EffectiveCount(usage, key, month) + 1)]
                             && r.1[key].count <= LookupLimit(limits, key).n
  {
    var c := EffectiveCount(usage, key, month);
    match LookupLimit(limits, key)
    case NoLimit => (Deny, usage)
    case BadLimit => (Fault, usage)
    case Limit(n) =>
      if c >= n then (Deny, usage) else (Admit, usage[key := UsageRecord(month, c + 1)])
  }

  /** A call changes no record but the caller's, and adds no key but the caller's. */
  lemma ConsumeTouchesOnlyKey(usage: map<string, UsageRecord>, key: string, month: string,
                              limits: map<string, string>)
    ensures var r := Consume(usage, key, month, limits);
            r.1.Keys <= usage.Keys + {key}
            && forall k :: k in usage && k != key ==> k in r.1 && r.1[k] == usage[k]
  {
  }

  /** A stored record from another month counts as zero, whatever its count was. */
  lemma StaleRecordIgnored(usage: map<string, UsageRecord>, key: string, month: string,
                           limits: map<string, string>, old_count: int, stale: string)
    requires stale != month
    ensures Consume(usage[key := UsageRecord(stale, old_count)], key, month, limits).0
         == Consume(usage - {key}, key, month, limits).0
  {
  }

  /** `n` calls in a row for one key within one month: their verdicts and the final table. */
  function Repeat(usage: map<string, UsageRecord>, key: string, month: string,
                  limits: map<string, string>, n: nat): (r: (seq<Verdict>, map<string, UsageRecord>))
    ensures |r.0| == n
    decreases n
  {
    if n == 0 then ([], usage)
    else
      var first := Consume(usage, key, month, limits);
      var rest := Repeat(first.1, key, month, limits, n - 1);
      ([first.0] + rest.0, rest.1)
  }

  function Repeated(v: Verdict, n: nat): (r: seq<Verdict>)
    ensures |r| == n && forall i :: 0 <= i < n ==> r[i] == v
  {
    if n == 0 then [] else [v] + Repeated(v, n - 1)
  }

  /**
   * Starting from an effective count `c` no larger than the limit `L`, exactly `L - c`
   * calls in a row are admitted and the next is denied; the count then stands at `L`.
   */
  lemma {:induction false} ExactlyRemainingAdmissions(usage: map<string, UsageRecord>, key: string,
                                                      month: string, limits: map<string, string>)
    requires LookupLimit(limits, key).Limit?
    requires EffectiveCount(usage, key, month) <= LookupLimit(limits, key).n
    ensures var remaining := LookupLimit(limits, key).n - EffectiveCount(usage, key, month);
            var r := Repeat(usage, key, month, limits, remaining + 1);
            r.0 == Repeated(Admit, remaining) + [Deny]
            && EffectiveCount(r.1, key, month) == LookupLimit(limits, key).n
    decreases LookupLimit(limits, key).n - EffectiveCount(usage, key, month)
  {
    var limit := LookupLimit(limits, key).n;
    var c := EffectiveCount(usage, key, month);
    var first := Consume(usage, key, month, limits);
    if c == limit {
      assert first == (Deny, usage);
      var one := Repeat(usage, key, month, limits, 1);
      assert one.0 == [Deny] + Repeat(usage, key, month, limits, 0).0;
      assert one.1 == usage;
    } else {
      assert first.0 == Admit;
      assert EffectiveCount(first.1, key, month) == c + 1;
      ExactlyRemainingAdmissions(first.1, key, month, limits);
    }
  }

  /** Once a call is denied nothing was written, so every later call is denied too. */
  lemma {:induction false} DenialIsStable(usage: map<string, UsageRecord>, key: string, month: string,
                                          limits: map<string, string>, n: nat)
    requires Consume(usage, key, month, limits).0 == Deny
    ensures Repeat(usage, key, month, limits, n) == (Repeated(Deny, n), usage)
  {
    if n > 0 {
      DenialIsStable(usage, key, month, limits, n - 1);
    }
  }

  /** The persisted usage table and the operation that reads and updates it. */
  class Tracker {
    /** The contents of the usage file. */
    var usage: map<string, UsageRecord>

    constructor (stored: map<string, UsageRecord>)
      ensures usage == stored
    {
      usage := stored;
    }

    /** `is_within_limit(api_key, tier_limits)` in month `currentMonth`. */
    method IsWithinLimit(apiKey: string, currentMonth: string, tierLimits: map<string, string>)
      returns (v: Verdict)
      modifies this
      ensures (v, usage) == Consume(old(usage), apiKey, currentMonth, tierLimits)
    {
      var table := usage;
      var keyUsage := if apiKey in table then table[apiKey] else UsageRecord(currentMonth, 0);
      if keyUsage.month != currentMonth {
        keyUsage := UsageRecord(currentMonth, 0);
      }
      if apiKey !in tierLimits || tierLimits[apiKey] == "" {
        return Deny;
      }
      var limit := ParseLimit(tierLimits[apiKey]);
      if limit.BadLimit? {
        return Fault;
      }
      if keyUsage.count >= limit.n {
        return Deny;
      }
      keyUsage := keyUsage.(count := keyUsage.count + 1);
      table := table[apiKey := keyUsage];
      usage := table;
      return Admit;
    }
  }
}
