/**
 * Password scoring from `ps_api.py`: the five checks with their advice, the breach
 * penalty, the clamp and rating, the character-class part of the entropy estimate,
 * and the matching of the breach service's reply lines against a digest suffix.
 *
 * Passwords are ASCII strings. The SHA-1 digest and the HTTP request to the breach
 * service are not part of this model: the digest suffix and the service's status code
 * and reply lines are inputs.
 */
module Strength {
  import opened Wrappers
  import opened Text

  /** The special characters the score looks for (ps_api.py:95). */
  const ScoreSpecials: set<char> := {'@', '$', '!', '%', '*', '#', '?', '&'}

  /** The special characters the entropy estimate looks for (ps_api.py:56): 30 characters,
      a different set from `ScoreSpecials`, counted as a class of 32. */
  const EntropySpecials: set<char> :=
    {'!', '@', '#', '$', '%', '^', '&', '*', '(', ')', '_', '+', '-', '=', '[', ']',
     '{', '}', ';', '\'', '\\', ':', '"', '|', '<', ',', '.', '/', '>', '?'}

  predicate HasUpper(s: string) {
    exists i :: 0 <= i < |s| && IsUpper(s[i])
  }

  predicate HasLower(s: string) {
    exists i :: 0 <= i < |s| && IsLower(s[i])
  }

  predicate HasDigit(s: string) {
    exists i :: 0 <= i < |s| && IsDigit(s[i])
  }

  predicate HasAnyOf(s: string, chars: set<char>) {
    exists i :: 0 <= i < |s| && s[i] in chars
  }

  /** Case-insensitive search for the three common patterns. */
  predicate HasCommonPattern(s: string) {
    var lowered := Lower(s);
    Contains(lowered, "1234") || Contains(lowered, "password") || Contains(lowered, "qwerty")
  }

  const LengthAdvice: string := "Make your password at least 8 characters long."
  const CaseAdvice: string := "Use both uppercase and lowercase letters."
  const DigitAdvice: string := "Include at least one number."
  const SpecialAdvice: string := "Include at least one special character like @$!%*#?&"
  const PatternAdvice: string := "Avoid common patterns like '1234' or 'password'."

  /** The advice for each check, in check order. */
  const Advice: seq<string> := [LengthAdvice, CaseAdvice, DigitAdvice, SpecialAdvice, PatternAdvice]

  function BreachAdvice(count: int): string {
    "This password has been found in data breaches " + IntToString(count) + " times. Avoid using it."
  }

  /** Which of the five checks the password passes, in check order. */
  function Checks(p: string): (r: seq<bool>)
    ensures |r| == 5
  {
    [|p| >= 8, HasUpper(p) && HasLower(p), HasDigit(p), HasAnyOf(p, ScoreSpecials), !HasCommonPattern(p)]
  }

  /** The number of passed checks. */
  function CountPassed(checks: seq<bool>): (r: nat)
    ensures r <= |checks|
  {
    if checks == [] then 0
    else CountPassed(checks[..|checks| - 1]) + if checks[|checks| - 1] then 1 else 0
  }

  /** The advice of the failed checks, in check order. */
  function FailedAdvice(checks: seq<bool>, advice: seq<string>): (r: seq<string>)
    requires |checks| == |advice|
    ensures |r| == |checks| - CountPassed(checks)
  {
    if checks == [] then []
    else
      var front := FailedAdvice(checks[..|checks| - 1], advice[..|advice| - 1]);
      if checks[|checks| - 1] then front else front + [advice[|advice| - 1]]
  }

  /** The running `score` and `feedback` of `check_password_strength`. */
  datatype Assessment = Assessment(score: int, feedback: seq<string>)

  /** One `if ...: score += 1 else: feedback.append(...)` step. */
  function Step(a: Assessment, passed: bool, advice: string): Assessment {
    if passed then a.(score := a.score + 1) else a.(feedback := a.feedback + [advice])
  }

  /**
   * The five checks run one after the other (ps_api.py:80-102). The score is the
   * number of passed checks and the feedback holds the advice of exactly the failed
   * ones, in check order.
   */
  function Assess(p: string): (r: Assessment)
    ensures r.score == CountPassed(Checks(p))
    ensures r.feedback == FailedAdvice(Checks(p), Advice)
    ensures 0 <= r.score <= 5 && |r.feedback| == 5 - r.score
  {
    var a := Assessment(0, []);
    var a := Step(a, |p| >= 8, LengthAdvice);
    var a := Step(a, HasUpper(p) && HasLower(p), CaseAdvice);
    var a := Step(a, HasDigit(p), DigitAdvice);
    var a := Step(a, HasAnyOf(p, ScoreSpecials), SpecialAdvice);
    var a := Step(a, !HasCommonPattern(p), PatternAdvice);
    FiveSteps(Checks(p), Advice);
    a
  }

  /** Five steps over any five outcomes count the passes and collect the failures' advice. */
  lemma FiveSteps(c: seq<bool>, adv: seq<string>)
    requires |c| == 5 && |adv| == 5
    ensures var a := Assessment(0, []);
            var a := Step(a, c[0], adv[0]);
            var a := Step(a, c[1], adv[1]);
            var a := Step(a, c[2], adv[2]);
            var a := Step(a, c[3], adv[3]);
            var a := Step(a, c[4], adv[4]);
            a == Assessment(CountPassed(c), FailedAdvice(c, adv))
  {
    var a0 := Assessment(0, []);
    assert c[..0] == [] && adv[..0] == [];
    StepExtends(c, adv, a0, 0);
    var a1 := Step(a0, c[0], adv[0]);
    StepExtends(c, adv, a1, 1);
    var a2 := Step(a1, c[1], adv[1]);
    StepExtends(c, adv, a2, 2);
    var a3 := Step(a2, c[2], adv[2]);
    StepExtends(c, adv, a3, 3);
    var a4 := Step(a3, c[3], adv[3]);
    StepExtends(c, adv, a4, 4);
    assert c[..5] == c && adv[..5] == adv;
  }

  /** A step on check `k` turns the assessment of the first `k` checks into that of
      the first `k + 1`. */
  lemma StepExtends(c: seq<bool>, adv: seq<string>, a: Assessment, k: nat)
    requires |c| == |adv| && k < |c|
    requires a == Assessment(CountPassed(c[..k]), FailedAdvice(c[..k], adv[..k]))
    ensures Step(a, c[k], adv[k]) == Assessment(CountPassed(c[..k + 1]), FailedAdvice(c[..k + 1], adv[..k + 1]))
  {
    assert c[..k + 1][..k] == c[..k];
    assert adv[..k + 1][..k] == adv[..k];
  }

  /** `max(0, min(score, 5))`. */
  function Clamp(score: int): (r: int)
    ensures 0 <= r <= 5
    ensures 0 <= score <= 5 ==> r == score
    ensures score < 0 ==> r == 0
    ensures score > 5 ==> r == 5
  {
    if score < 0 then 0 else if score > 5 then 5 else score
  }

  datatype Rating = Weak | Moderate | Strong

  /** The rating expression of ps_api.py:110. */
  function RatingOf(score: int): (r: Rating)
    ensures r == Weak <==> score <= 2
    ensures r == Moderate <==> score == 3
    ensures r == Strong <==> score >= 4
  {
    if score <= 2 then Weak else if score == 3 then Moderate else Strong
  }

  /** The size of the alphabet the password draws from, as `calculate_entropy` counts
      it before taking the logarithm: 26, 26, 10 and 32 for lower-case letters,
      upper-case letters, digits and `EntropySpecials`, and at least 1. */
  function CharsetSize(p: string): (r: nat)
    ensures 1 <= r <= 94
    ensures r == 1 <==> !HasLower(p) && !HasUpper(p) && !HasDigit(p) && !HasAnyOf(p, EntropySpecials)
    ensures r == 94 <==> HasLower(p) && HasUpper(p) && HasDigit(p) && HasAnyOf(p, EntropySpecials)
  {
    var charsets := 0;
    var charsets := charsets + if HasLower(p) then 26 else 0;
    var charsets := charsets + if HasUpper(p) then 26 else 0;
    var charsets := charsets + if HasDigit(p) then 10 else 0;
    var charsets := charsets + if HasAnyOf(p, EntropySpecials) then 32 else 0;
    if charsets > 1 then charsets else 1
  }

  /** Appending characters never shrinks the alphabet. */
  lemma CharsetGrows(p: string, q: string)
    ensures CharsetSize(p) <= CharsetSize(p + q)
  {
    var pq := p + q;
    assert forall i :: 0 <= i < |p| ==> pq[i] == p[i];
    if HasLower(p) { var i :| 0 <= i < |p| && IsLower(p[i]); assert IsLower(pq[i]); }
    if HasUpper(p) { var i :| 0 <= i < |p| && IsUpper(p[i]); assert IsUpper(pq[i]); }
    if HasDigit(p) { var i :| 0 <= i < |p| && IsDigit(p[i]); assert IsDigit(pq[i]); }
    if HasAnyOf(p, EntropySpecials) {
      var i :| 0 <= i < |p| && p[i] in EntropySpecials;
      assert pq[i] in EntropySpecials;
    }
  }

  /** The score's special characters are a proper part of the entropy estimate's:
      `^` counts for the estimate's class but not for the special-character check. */
  lemma SpecialSetsDiffer()
    ensures ScoreSpecials < EntropySpecials
    ensures '^' in EntropySpecials - ScoreSpecials
  {
  }

  /** A password passing the special-character check always draws from the class of 32. */
  lemma SpecialCheckWidensAlphabet(p: string)
    requires Checks(p)[3]
    ensures HasAnyOf(p, EntropySpecials) && CharsetSize(p) >= 32
  {
    SpecialSetsDiffer();
    var i :| 0 <= i < |p| && p[i] in ScoreSpecials;
    assert p[i] in EntropySpecials;
  }

  /** What `is_password_pwned` returns: `(True, n)`, `(False, 0)` and `(False, None)`,
      or `Malformed` where it raises (a line without exactly one `:`, or a count
      `int` cannot read). */
  datatype Breach = Found(count: int) | NotFound | Unavailable | Malformed

  /** The breach service's answer: an HTTP status and the reply text's lines. */
  datatype BreachReply = BreachReply(status: int, lines: seq<string>)

  /** `hash_suffix, count = line.split(':')`, or `None` where the unpacking raises. */
  function SplitColon(line: string): (r: Option<(string, string)>)
  {
    if ':' !in line then None
    else
      var i := FirstColon(line);
      if ':' in line[i + 1..] then None else Some((line[..i], line[i + 1..]))
  }

  /** The unpacking succeeds exactly when the line holds one `:`, and then splits the
      line around it. */
  lemma SplitColonExactlyOne(line: string)
    ensures SplitColon(line).Some? <==> multiset(line)[':'] == 1
    ensures SplitColon(line).Some? ==>
              var (before, after) := SplitColon(line).value;
              line == before + ":" + after && ':' !in before && ':' !in after
  {
    if ':' in line {
      var i := FirstColon(line);
      var before, after := line[..i], line[i + 1..];
      assert line == before + [':'] + after;
      assert multiset(line)[':'] == multiset(before)[':'] + 1 + multiset(after)[':'];
    }
  }

  function FirstColon(s: string): (i: nat)
    requires ':' in s
    ensures i < |s| && s[i] == ':' && ':' !in s[..i]
  {
    if s[0] == ':' then 0 else FirstColon(s[1..]) + 1
  }

  /** The line names the digest suffix. */
  predicate Hits(line: string, suffix: string) {
    SplitColon(line).Some? && SplitColon(line).value.0 == suffix
  }

  /** The line is well formed and names another digest. */
  predicate Misses(line: string, suffix: string) {
    SplitColon(line).Some? && SplitColon(line).value.0 != suffix
  }

  /** Every line before `i` is a well-formed miss, so the loop reaches line `i`. */
  predicate Reaches(lines: seq<string>, suffix: string, i: int) {
    0 <= i < |lines| && forall j :: 0 <= j < i ==> Misses(lines[j], suffix)
  }

  /** The `for line in hashes` loop of ps_api.py:44-48. */
  function MatchLines(suffix: string, lines: seq<string>): Breach
  {
    if lines == [] then NotFound
    else
      match SplitColon(lines[0])
      case None => Malformed
      case Some((hashSuffix, count)) =>
        if hashSuffix == suffix then
          match ParseInt(count)
          case Some(n) => Found(n)
          case None => Malformed
        else MatchLines(suffix, lines[1..])
  }

  /** `is_password_pwned` after the request: a non-200 status gives up softly. */
  function MatchBreach(suffix: string, reply: BreachReply): Breach {
    if reply.status != 200 then Unavailable else MatchLines(suffix, reply.lines)
  }

  /** After a well-formed miss on the first line, the outcome is that of the rest. */
  lemma MissSkips(suffix: string, lines: seq<string>)
    requires lines != [] && Misses(lines[0], suffix)
    ensures MatchLines(suffix, lines) == MatchLines(suffix, lines[1..])
    ensures forall i :: Reaches(lines[1..], suffix, i) ==> Reaches(lines, suffix, i + 1)
  {
    forall i | Reaches(lines[1..], suffix, i) ensures Reaches(lines, suffix, i + 1) {
      assert forall j :: 1 <= j <= i ==> lines[j] == lines[1..][j - 1];
    }
  }

  /** The loop finds nothing exactly when every line is a well-formed miss. */
  lemma {:induction false} NotFoundIffAllMiss(suffix: string, lines: seq<string>)
    ensures MatchLines(suffix, lines) == NotFound <==> forall j :: 0 <= j < |lines| ==> Misses(lines[j], suffix)
  {
    if lines != [] && Misses(lines[0], suffix) {
      MissSkips(suffix, lines);
      NotFoundIffAllMiss(suffix, lines[1..]);
      assert forall j :: 1 <= j < |lines| ==> lines[1..][j - 1] == lines[j];
    }
  }

  /** A reported count comes from the first line the loop does not skip, which names
      the digest suffix. */
  lemma {:induction false} FoundIsFirstHit(suffix: string, lines: seq<string>)
    requires MatchLines(suffix, lines).Found?
    ensures exists i :: Reaches(lines, suffix, i) && Hits(lines[i], suffix)
                        && ParseInt(SplitColon(lines[i]).value.1) == Some(MatchLines(suffix, lines).count)
  {
    assert Reaches(lines, suffix, 0);
    if Misses(lines[0], suffix) {
      MissSkips(suffix, lines);
      FoundIsFirstHit(suffix, lines[1..]);
      var i :| Reaches(lines[1..], suffix, i) && Hits(lines[1..][i], suffix)
               && ParseInt(SplitColon(lines[1..][i]).value.1) == Some(MatchLines(suffix, lines).count);
      assert lines[1..][i] == lines[i + 1];
    }
  }

  /** The loop raises on the first line it does not skip when that line is malformed or
      its count is unreadable. */
  lemma {:induction false} MalformedIsFirstBadLine(suffix: string, lines: seq<string>)
    requires MatchLines(suffix, lines) == Malformed
    ensures exists i :: Reaches(lines, suffix, i) && !Misses(lines[i], suffix)
                        && (Hits(lines[i], suffix) ==> ParseInt(SplitColon(lines[i]).value.1).None?)
  {
    assert Reaches(lines, suffix, 0);
    if Misses(lines[0], suffix) {
      MissSkips(suffix, lines);
      MalformedIsFirstBadLine(suffix, lines[1..]);
      var i :| Reaches(lines[1..], suffix, i) && !Misses(lines[1..][i], suffix)
               && (Hits(lines[1..][i], suffix) ==> ParseInt(SplitColon(lines[1..][i]).value.1).None?);
      assert lines[1..][i] == lines[i + 1];
    }
  }

  /** `is_password_pwned(password)` once the digest suffix is known and the reply has arrived. */
  method IsPasswordPwned(suffix: string, reply: BreachReply) returns (b: Breach)
    ensures b == MatchBreach(suffix, reply)
  {
    if reply.status != 200 {
      return Unavailable;
    }
    var hashes := reply.lines;
    var i := 0;
    while i < |hashes|
      invariant 0 <= i <= |hashes|
      invariant MatchLines(suffix, hashes[i..]) == MatchLines(suffix, hashes)
    {
      assert hashes[i..][1..] == hashes[i + 1..];
      var parts := SplitColon(hashes[i]);
      if parts.None? {
        return Malformed;
      }
      var (hashSuffix, count) := parts.value;
      if hashSuffix == suffix {
        var n := ParseInt(count);
        if n.None? {
          return Malformed;
        }
        return Found(n.value);
      }
      i := i + 1;
    }
    assert hashes[i..] == [];
    return NotFound;
  }

  /** The fields of the evaluation result that this model computes; the entropy in bits
      and the crack-time text are left out, the alphabet size is kept. */
  datatype Report = Report(score: int, rating: Rating, feedback: seq<string>,
                           pwned: bool, pwnedCount: int, charsetSize: nat)

  /**
   * `check_password_strength(password)` given the breach lookup's outcome; `None`
   * where the lookup raised. The score is the number of passed checks, one less when
   * breached, clamped to 0..5; the feedback is the failed checks' advice, followed by
   * the breach advice when breached.
   */
  function Evaluate(p: string, breach: Breach): (r: Option<Report>)
    ensures r.None? <==> breach == Malformed
    ensures r.Some? ==> 0 <= r.value.score <= 5
    ensures r.Some? ==> (r.value.rating == Weak <==> r.value.score <= 2)
                        && (r.value.rating == Moderate <==> r.value.score == 3)
                        && (r.value.rating == Strong <==> r.value.score >= 4)
    ensures r.Some? ==> r.value.pwned == breach.Found?
    ensures r.Some? ==> r.value.pwnedCount == if breach.Found? then breach.count else 0
    ensures r.Some? && !breach.Found? ==>
              r.value.score == CountPassed(Checks(p)) && r.value.feedback == FailedAdvice(Checks(p), Advice)
    ensures r.Some? && breach.Found? ==>
              r.value.score == (if CountPassed(Checks(p)) == 0 then 0 else CountPassed(Checks(p)) - 1)
              && r.value.feedback == FailedAdvice(Checks(p), Advice) + [BreachAdvice(breach.count)]
    ensures r.Some? ==> r.value.charsetSize == CharsetSize(p) && |r.value.feedback| >= 5 - r.value.score
  {
    if breach == Malformed then None
    else
      var a := Assess(p);
      var pwned := breach.Found?;
      var a := if pwned then Assessment(a.score - 1, a.feedback + [BreachAdvice(breach.count)]) else a;
      var score := Clamp(a.score);
      Some(Report(score, RatingOf(score), a.feedback, pwned, if pwned then breach.count else 0, CharsetSize(p)))
  }

  /** Lower-casing leaves the patterns, which hold no upper-case letter, where they are:
      a password holding one of them as written fails the pattern check. */
  lemma PatternFailsCheck(p: string, pattern: string, k: int)
    requires pattern == "1234" || pattern == "password" || pattern == "qwerty"
    requires OccursAt(p, pattern, k)
    ensures !Checks(p)[4]
  {
    assert forall j :: 0 <= j < |pattern| ==> !IsUpper(pattern[j]);
    var l := Lower(p);
    forall i | k <= i < k + |pattern|
      ensures l[i] == p[i]
    {
      assert p[i] == pattern[i - k];
    }
    assert l[k..k + |pattern|] == p[k..k + |pattern|];
    assert OccursAt(l, pattern, k);
  }

  /** A string of lower-case letters has no upper-case letter, digit or scored special
      character, and is its own lower-case form. */
  lemma {:induction false} LowerLettersFailClassChecks(s: string)
    requires LettersOnlyLower(s)
    ensures !HasUpper(s) && !HasDigit(s) && !HasAnyOf(s, ScoreSpecials) && Lower(s) == s
  {
    if s != [] {
      LowerLettersFailClassChecks(s[1..]);
      assert forall i :: 1 <= i < |s| ==> s[i] == s[1..][i - 1];
    }
  }

  function Ind(b: bool): nat {
    if b then 1 else 0
  }

  /** The score counts the passed checks whatever their positions. */
  lemma CountPassedFive(c: seq<bool>)
    requires |c| == 5
    ensures CountPassed(c) == Ind(c[0]) + Ind(c[1]) + Ind(c[2]) + Ind(c[3]) + Ind(c[4])
  {
    assert c[..4][..3] == c[..3];
    assert c[..3][..2] == c[..2];
    assert c[..2][..1] == c[..1];
    assert c[..1][..0] == [];
  }

  /** A password of lower-case letters alone passes at most the length and pattern
      checks, so it is rated Weak whatever the breach lookup says. */
  lemma LowerCaseWordIsWeak(p: string, breach: Breach)
    requires LettersOnlyLower(p) && breach != Malformed
    ensures Evaluate(p, breach).value.score <= 2
    ensures Evaluate(p, breach).value.rating == Weak
  {
    LowerLettersFailClassChecks(p);
    CountPassedFive(Checks(p));
  }
}
