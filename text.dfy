/**
 * The small part of Python's `str` and `int` behaviour that the service relies on,
 * restricted to ASCII text: `isspace`, `strip`, `lower`, `split()[0]`, `int(...)`,
 * `str(int)` and the substring test `pattern in s`.
 */
module Text {
  import opened Wrappers

  /** Python's `str.isspace()` on ASCII: tab, line feed, vertical tab, form feed,
      carriage return, the four separators 0x1C..0x1F and space. */
  predicate IsSpace(c: char) {
    9 <= c as int <= 13 || 28 <= c as int <= 32
  }

  predicate IsDigit(c: char) {
    '0' <= c <= '9'
  }

  predicate IsUpper(c: char) {
    'A' <= c <= 'Z'
  }

  predicate IsLower(c: char) {
    'a' <= c <= 'z'
  }

  predicate AllDigits(s: string) {
    forall i :: 0 <= i < |s| ==> IsDigit(s[i])
  }

  predicate NoSpace(s: string) {
    forall i :: 0 <= i < |s| ==> !IsSpace(s[i])
  }

  /** `p` sits in `s` at offset `k`. */
  predicate OccursAt(s: string, p: string, k: int) {
    0 <= k && k + |p| <= |s| && s[k..k + |p|] == p
  }

  /** The number of whitespace characters `s` starts with. */
  function LeadingSpace(s: string): (n: nat)
    ensures n <= |s|
    ensures forall i :: 0 <= i < n ==> IsSpace(s[i])
    ensures n == |s| || !IsSpace(s[n])
  {
    if |s| > 0 && IsSpace(s[0]) then 1 + LeadingSpace(s[1..]) else 0
  }

  /** The number of whitespace characters `s` ends with. */
  function TrailingSpace(s: string): (n: nat)
    ensures n <= |s|
    ensures forall i :: |s| - n <= i < |s| ==> IsSpace(s[i])
    ensures n == |s| || !IsSpace(s[|s| - n - 1])
  {
    if |s| > 0 && IsSpace(s[|s| - 1]) then 1 + TrailingSpace(s[..|s| - 1]) else 0
  }

  /** `s.lstrip()`: drops the leading whitespace and nothing else. */
  function StripLeft(s: string): (r: string)
    ensures r == [] || !IsSpace(r[0])
  {
    s[LeadingSpace(s)..]
  }

  /** `s.rstrip()`: drops the trailing whitespace and nothing else. */
  function StripRight(s: string): (r: string)
    ensures r == [] || !IsSpace(r[|r| - 1])
  {
    s[..|s| - TrailingSpace(s)]
  }

  /** `s.strip()`: whitespace removed from both ends. */
  function Strip(s: string): (r: string)
    ensures |r| <= |s|
    ensures r == [] || (!IsSpace(r[0]) && !IsSpace(r[|r| - 1]))
  {
    var t := StripLeft(s);
    assert t == [] || !IsSpace(t[0]);
    var r := StripRight(t);
    assert r != [] ==> r[0] == t[0];
    r
  }

  /** What `Strip` removes is whitespace, and what it keeps is the piece of `s` that
      starts where the leading whitespace ends. */
  lemma StripRemovesOnlySpace(s: string)
    ensures var k := LeadingSpace(s);
            OccursAt(s, Strip(s), k) && (forall i :: 0 <= i < k ==> IsSpace(s[i]))
            && (forall i :: k + |Strip(s)| <= i < |s| ==> IsSpace(s[i]))
  {
    var k := LeadingSpace(s);
    var t := StripLeft(s);
    var n := TrailingSpace(t);
    assert t == s[k..];
    assert Strip(s) == t[..|t| - n];
    assert t[..|t| - n] == s[k..|s| - n];
    forall i | |s| - n <= i < |s|
      ensures IsSpace(s[i])
    {
      assert s[i] == t[i - k];
    }
  }

  /** A string that neither starts nor ends with whitespace is its own strip. */
  lemma {:induction false} StripTrimmed(s: string)
    requires s == [] || (!IsSpace(s[0]) && !IsSpace(s[|s| - 1]))
    ensures Strip(s) == s
  {
  }

  /** Whitespace around a word without whitespace at its ends is what `Strip` removes. */
  lemma {:induction false} StripKeepsCore(before: string, core: string, after: string)
    requires core != [] && !IsSpace(core[0]) && !IsSpace(core[|core| - 1])
    requires forall i :: 0 <= i < |before| ==> IsSpace(before[i])
    requires forall i :: 0 <= i < |after| ==> IsSpace(after[i])
    ensures Strip(before + core + after) == core
  {
    StripLeftDrops(before, core + after);
    assert before + core + after == before + (core + after);
    StripRightDrops(core, after);
  }

  lemma {:induction false} StripLeftDrops(before: string, rest: string)
    requires rest != [] && !IsSpace(rest[0])
    requires forall i :: 0 <= i < |before| ==> IsSpace(before[i])
    ensures StripLeft(before + rest) == rest
  {
    if before != [] {
      assert (before + rest)[1..] == before[1..] + rest;
      StripLeftDrops(before[1..], rest);
    }
  }

  lemma {:induction false} StripRightDrops(core: string, after: string)
    requires core != [] && !IsSpace(core[|core| - 1])
    requires forall i :: 0 <= i < |after| ==> IsSpace(after[i])
    ensures StripRight(core + after) == core
  {
    if after != [] {
      assert (core + after)[..|core + after| - 1] == core + after[..|after| - 1];
      StripRightDrops(core, after[..|after| - 1]);
    }
  }

  function LowerChar(c: char): char {
    if IsUpper(c) then (c as int + 32) as char else c
  }

  /** `s.lower()` on ASCII: upper-case letters become lower-case, everything else stays. */
  function Lower(s: string): (r: string)
    ensures |r| == |s|
    ensures forall i :: 0 <= i < |s| ==> !IsUpper(r[i])
    ensures forall i :: 0 <= i < |s| && !IsUpper(s[i]) ==> r[i] == s[i]
    ensures forall i :: 0 <= i < |s| && IsUpper(s[i]) ==> IsLower(r[i]) && r[i] as int == s[i] as int + 32
  {
    if s == [] then [] else [LowerChar(s[0])] + Lower(s[1..])
  }

  /** Every character is a lower-case letter. */
  predicate LettersOnlyLower(s: string) {
    s == [] || (IsLower(s[0]) && LettersOnlyLower(s[1..]))
  }

  /** A whitespace-free word that is the lower-case form of `typed` is what stripping
      and lower-casing make of `typed` with whitespace around it. */
  lemma LowerOfPadded(word: string, typed: string, before: string, after: string)
    requires word != [] && NoSpace(word) && Lower(typed) == word
    requires forall i :: 0 <= i < |before| ==> IsSpace(before[i])
    requires forall i :: 0 <= i < |after| ==> IsSpace(after[i])
    ensures Lower(Strip(before + typed + after)) == word
  {
    assert !IsSpace(word[0]) && !IsSpace(word[|word| - 1]);
    StripKeepsCore(before, typed, after);
  }

  /** A word of lower-case letters has no whitespace and is its own lower-case form. */
  lemma {:induction false} LowerWordUnchanged(s: string)
    requires LettersOnlyLower(s)
    ensures NoSpace(s) && Lower(s) == s
  {
    if s != [] {
      LowerWordUnchanged(s[1..]);
      assert forall i :: 1 <= i < |s| ==> s[i] == s[1..][i - 1];
    }
  }

  /** The longest prefix of `s` without whitespace. */
  function TakeWord(s: string): (r: string)
    ensures |r| <= |s| && r == s[..|r|] && NoSpace(r)
    ensures |r| == |s| || IsSpace(s[|r|])
  {
    if s == [] || IsSpace(s[0]) then [] else [s[0]] + TakeWord(s[1..])
  }

  /** `s.split()[0]`, or `None` where Python raises `IndexError` (no token at all). */
  function FirstToken(s: string): (r: Option<string>)
    ensures r.None? <==> forall i :: 0 <= i < |s| ==> IsSpace(s[i])
    ensures r.Some? ==> |r.value| > 0 && NoSpace(r.value)
  {
    var k := LeadingSpace(s);
    if k == |s| then None
    else
      assert s[k..][0] == s[k];
      Some(TakeWord(s[k..]))
  }

  /** The first token starts where the leading whitespace ends, and is followed by the
      end of `s` or by whitespace. */
  lemma FirstTokenPosition(s: string)
    requires FirstToken(s).Some?
    ensures var w, k := FirstToken(s).value, LeadingSpace(s);
            OccursAt(s, w, k) && (forall i :: 0 <= i < k ==> IsSpace(s[i]))
            && (k + |w| == |s| || IsSpace(s[k + |w|]))
  {
    var k := LeadingSpace(s);
    var t := s[k..];
    var w := TakeWord(t);
    assert w == s[k..k + |w|];
    assert k + |w| < |s| ==> s[k + |w|] == t[|w|];
  }

  function DigitValue(c: char): nat
    requires IsDigit(c)
  {
    c as int - '0' as int
  }

  function DigitChar(d: nat): (c: char)
    requires d < 10
    ensures IsDigit(c) && DigitValue(c) == d
  {
    ('0' as int + d) as char
  }

  /** The value of a run of decimal digits, read most significant first. */
  function DigitsValue(d: string): nat
    requires AllDigits(d)
  {
    if d == [] then 0 else DigitsValue(d[..|d| - 1]) * 10 + DigitValue(d[|d| - 1])
  }

  /** `str(n)` for a non-negative integer: no sign, no leading zero. */
  function DecimalString(n: nat): (r: string)
    ensures |r| > 0 && AllDigits(r)
    ensures r[0] != '0' || n == 0
  {
    if n < 10 then [DigitChar(n)] else DecimalString(n / 10) + [DigitChar(n % 10)]
  }

  /** Multiplying a positive number by ten appends a `0` to its decimal form. */
  lemma AppendZero(n: nat)
    requires n > 0
    ensures DecimalString(n * 10) == DecimalString(n) + "0"
  {
    assert (n * 10) / 10 == n && (n * 10) % 10 == 0;
  }

  /** `str(n)` for any integer. */
  function IntToString(n: int): (r: string)
    ensures |r| > 0
  {
    if n < 0 then "-" + DecimalString(-n) else DecimalString(n)
  }

  /** Unsigned decimal digits, or `None` when the text is empty or holds another character. */
  function ParseUnsigned(d: string): (r: Option<nat>)
    ensures r.Some? <==> |d| > 0 && AllDigits(d)
  {
    if |d| > 0 && AllDigits(d) then Some(DigitsValue(d)) else None
  }

  /** Python's `int(s)` on ASCII text: surrounding whitespace, an optional sign and at
      least one decimal digit; `None` where Python raises `ValueError`. */
  function ParseInt(s: string): (r: Option<int>)
    ensures r.Some? ==> |Strip(s)| > 0
  {
    var t := Strip(s);
    if |t| > 0 && t[0] == '-' then
      match ParseUnsigned(t[1..])
      case Some(n) => Some(-(n as int))
      case None => None
    else if |t| > 0 && t[0] == '+' then
      ParseUnsigned(t[1..])
    else
      ParseUnsigned(t)
  }

  /** Reading digits back gives the number that was written. */
  lemma {:induction false} DigitsValueOfDecimal(n: nat)
    ensures DigitsValue(DecimalString(n)) == n
  {
    var d := DecimalString(n);
    if n >= 10 {
      DigitsValueOfDecimal(n / 10);
      assert d[..|d| - 1] == DecimalString(n / 10);
    }
  }

  /** `int(str(n)) == n` for every integer `n`. */
  lemma ParseIntOfIntToString(n: int)
    ensures ParseInt(IntToString(n)) == Some(n)
  {
    var s := IntToString(n);
    var m := if n < 0 then -n else n;
    var d := DecimalString(m);
    assert !IsSpace(d[0]) && !IsSpace(d[|d| - 1]);
    StripTrimmed(s);
    DigitsValueOfDecimal(m);
    if n < 0 {
      assert s[1..] == d;
    }
  }

  /** `int` reads surrounding whitespace, an optional sign and a run of digits (leading
      zeros included) as the signed value of the digits. */
  lemma ParseIntReadsSignedDigits(before: string, sign: string, digits: string, after: string)
    requires forall i :: 0 <= i < |before| ==> IsSpace(before[i])
    requires forall i :: 0 <= i < |after| ==> IsSpace(after[i])
    requires sign == "" || sign == "+" || sign == "-"
    requires |digits| > 0 && AllDigits(digits)
    ensures ParseInt(before + (sign + digits) + after)
         == Some(if sign == "-" then -(DigitsValue(digits) as int) else DigitsValue(digits))
  {
    SignedDigitsTrimmed(sign, digits);
    StripKeepsCore(before, sign + digits, after);
    ParseIntOfTrimmed(before + (sign + digits) + after, sign, digits);
  }

  /** A sign and digits neither start nor end with whitespace. */
  lemma SignedDigitsTrimmed(sign: string, digits: string)
    requires sign == "" || sign == "+" || sign == "-"
    requires |digits| > 0 && AllDigits(digits)
    ensures var core := sign + digits;
            core != [] && !IsSpace(core[0]) && !IsSpace(core[|core| - 1])
  {
    var core := sign + digits;
    assert core[|core| - 1] == digits[|digits| - 1];
    assert core[0] == if sign == "" then digits[0] else sign[0];
  }

  /** `ParseInt` on a text whose stripped form is a sign and digits. */
  lemma ParseIntOfTrimmed(s: string, sign: string, digits: string)
    requires sign == "" || sign == "+" || sign == "-"
    requires |digits| > 0 && AllDigits(digits)
    requires Strip(s) == sign + digits
    ensures ParseInt(s) == Some(if sign == "-" then -(DigitsValue(digits) as int) else DigitsValue(digits))
  {
    var t := Strip(s);
    if sign == "" {
      assert t == digits && IsDigit(t[0]);
    } else {
      assert t[0] == sign[0] && t[1..] == digits;
    }
  }

  /** `int` rejects a stripped text holding a character other than a digit, except for a
      sign in front. */
  lemma ParseIntRejectsOtherCharacters(s: string, i: int)
    requires 0 <= i < |Strip(s)| && !IsDigit(Strip(s)[i])
    requires i > 0 || (Strip(s)[0] != '-' && Strip(s)[0] != '+')
    ensures ParseInt(s).None?
  {
    var t := Strip(s);
    if i > 0 && (t[0] == '-' || t[0] == '+') {
      assert t[1..][i - 1] == t[i];
    }
  }

  /** An occurrence in `s` is one at its start or one in `s[1..]`, shifted by one. */
  lemma ContainsShift(s: string, p: string)
    requires |s| > 0
    ensures (exists k :: OccursAt(s, p, k)) <==> OccursAt(s, p, 0) || exists k :: OccursAt(s[1..], p, k)
  {
    if k :| OccursAt(s, p, k) {
      if k > 0 {
        assert s[1..][k - 1..k - 1 + |p|] == s[k..k + |p|];
        assert OccursAt(s[1..], p, k - 1);
      }
    }
    if k :| OccursAt(s[1..], p, k) {
      assert s[1..][k..k + |p|] == s[k + 1..k + 1 + |p|];
      assert OccursAt(s, p, k + 1);
    }
  }

  /** `p in s` on strings: `p` occurs as a contiguous piece of `s`. */
  function Contains(s: string, p: string): (r: bool)
    ensures r <==> exists k :: OccursAt(s, p, k)
  {
    if |s| < |p| then false
    else if p == s[..|p|] then (assert OccursAt(s, p, 0); true)
    else
      var r := Contains(s[1..], p);
      assert !OccursAt(s, p, 0);
      ContainsShift(s, p);
      r
  }

}
