/** Phone number validation and carrier classification (`validatePhoneNumber`).

    The number is reduced to its ASCII digits and tested against four
    carrier patterns in a fixed order: Orange, MTN, Nexttel, Camtel. The
    Orange and MTN patterns are anchored only at the end of the number, so
    they look at its last nine digits whatever comes before; the Nexttel and
    Camtel patterns are anchored at both ends and need exactly nine digits.
    No country code is stripped. */
module Phone {
  import opened Text

  datatype Operator = Orange | MTN | Nexttel | Camtel | Unknown {
    /** The label stored in a contact and compared with the operator filter. */
    function Name(): string {
      match this
      case Orange => "Orange"
      case MTN => "MTN"
      case Nexttel => "Nexttel"
      case Camtel => "Camtel"
      case Unknown => "Unknown"
    }
  }

  /** The `{ isValid, operator }` pair the validator returns. */
  datatype Verdict = Verdict(isValid: bool, operator: Operator)

  // ---------------------------------------------------------------------
  // Digit extraction
  // ---------------------------------------------------------------------

  /** Removing every character that is not an ASCII digit. */
  function DigitsOf(s: string): (r: string)
    ensures AllDigits(r)
    ensures |r| <= |s|
  {
    if |s| == 0 then ""
    else if IsDigit(s[0]) then [s[0]] + DigitsOf(s[1..])
    else DigitsOf(s[1..])
  }

  /** A digit-only string is left as it is, so extracting digits twice is
      extracting them once. */
  lemma {:induction false} DigitsOfDigits(d: string)
    requires AllDigits(d)
    ensures DigitsOf(d) == d
  {
    if |d| > 0 {
      DigitsOfDigits(d[1..]);
      assert d == [d[0]] + d[1..];
    }
  }

  /** A string without digits contributes nothing. */
  lemma {:induction false} DigitsOfNoDigits(s: string)
    requires forall i | 0 <= i < |s| :: !IsDigit(s[i])
    ensures DigitsOf(s) == ""
  {
    if |s| > 0 {
      DigitsOfNoDigits(s[1..]);
    }
  }

  /** Digit extraction distributes over concatenation. */
  lemma {:induction false} DigitsOfAppend(a: string, b: string)
    ensures DigitsOf(a + b) == DigitsOf(a) + DigitsOf(b)
  {
    if |a| > 0 {
      assert (a + b)[1..] == a[1..] + b;
      DigitsOfAppend(a[1..], b);
    } else {
      assert a + b == b;
    }
  }

  // ---------------------------------------------------------------------
  // The carrier patterns as data
  // ---------------------------------------------------------------------

  /** A bracket expression holding one character range; a literal character
      is the range from it to itself. */
  datatype CharClass = Range(lo: char, hi: char)

  /** A regular expression made of alternatives, each a fixed sequence of
      character classes followed by an end anchor, with an optional start
      anchor on the whole expression. All four carrier patterns have this
      shape. */
  datatype Pattern = Pattern(anchoredAtStart: bool, alternatives: seq<seq<CharClass>>)

  predicate InClass(c: char, k: CharClass) {
    k.lo <= c <= k.hi
  }

  /** The alternative matches all of `w`. */
  predicate MatchesExactly(alt: seq<CharClass>, w: string) {
    |w| == |alt| && forall i | 0 <= i < |w| :: InClass(w[i], alt[i])
  }

  /** Some alternative matches all of `w`. */
  predicate MatchesSome(alts: seq<seq<CharClass>>, w: string) {
    exists k | 0 <= k < |alts| :: MatchesExactly(alts[k], w)
  }

  /** `RegExp.prototype.test`: some alternative matches a piece of `s` that
      ends where `s` ends and, when the pattern is anchored at the start,
      begins where `s` begins. */
  predicate Test(p: Pattern, s: string) {
    exists start | 0 <= start <= |s| ::
      (p.anchoredAtStart ==> start == 0) && MatchesSome(p.alternatives, s[start..])
  }

  const Digit := Range('0', '9')

  function Lit(c: char): CharClass {
    Range(c, c)
  }

  /** `[0-9]{n}`, equivalently `\d{n}`. */
  function DigitRun(n: nat): seq<CharClass> {
    seq(n, _ => Digit)
  }

  /** Orange: 65 then 5-9, or 69, or 68 then 5-9, then digits up to nine in
      all, at the end of the number. */
  const OrangePattern := Pattern(false, [
    [Lit('6'), Lit('5'), Range('5', '9')] + DigitRun(6),
    [Lit('6'), Lit('9')] + DigitRun(7),
    [Lit('6'), Lit('8'), Range('5', '9')] + DigitRun(6)])

  /** MTN: 65 then 0-4, or 67, or 680, or 68 then 1-4, then digits up to
      nine in all, at the end of the number. */
  const MtnPattern := Pattern(false, [
    [Lit('6'), Lit('5'), Range('0', '4')] + DigitRun(6),
    [Lit('6'), Lit('7')] + DigitRun(7),
    [Lit('6'), Lit('8'), Lit('0')] + DigitRun(6),
    [Lit('6'), Lit('8'), Range('1', '4')] + DigitRun(6)])

  /** Nexttel: the whole number is 66 followed by seven digits. */
  const NexttelPattern := Pattern(true, [[Lit('6'), Lit('6')] + DigitRun(7)])

  /** Camtel: the whole number is 2 followed by eight digits. */
  const CamtelPattern := Pattern(true, [[Lit('2')] + DigitRun(8)])

  // ---------------------------------------------------------------------
  // The validator
  // ---------------------------------------------------------------------

  /** The carrier tests of the validator, in the order it makes them. */
  function Classify(digits: string): Verdict {
    if Test(OrangePattern, digits) then Verdict(true, Orange)
    else if Test(MtnPattern, digits) then Verdict(true, MTN)
    else if Test(NexttelPattern, digits) then Verdict(true, Nexttel)
    else if Test(CamtelPattern, digits) then Verdict(true, Camtel)
    else Verdict(false, Unknown)
  }

  /** `validatePhoneNumber(phone)`. It is total: every string gets a
      verdict, and a number is valid exactly when it has a carrier. */
  function Validate(phone: string): (v: Verdict)
    ensures v.isValid <==> v.operator != Unknown
    ensures v.isValid <==> v.operator.Name() in {"Orange", "MTN", "Nexttel", "Camtel"}
    ensures !v.isValid <==> v.operator.Name() == "Unknown"
  {
    Classify(DigitsOf(phone))
  }

  // ---------------------------------------------------------------------
  // Closed forms of the patterns on digit strings
  // ---------------------------------------------------------------------

  function Last9(s: string): string
    requires |s| >= 9
  {
    s[|s| - 9..]
  }

  /** The leading digits the Orange alternatives accept. */
  predicate OrangeLead(t: string)
    requires |t| >= 3
  {
    t[0] == '6' && (t[1] == '9' || ((t[1] == '5' || t[1] == '8') && '5' <= t[2] <= '9'))
  }

  /** The leading digits the MTN alternatives accept (680 and 68[1-4]
      together are 68[0-4]). */
  predicate MtnLead(t: string)
    requires |t| >= 3
  {
    t[0] == '6' && (t[1] == '7' || ((t[1] == '5' || t[1] == '8') && '0' <= t[2] <= '4'))
  }

  predicate IsOrange(d: string) {
    |d| >= 9 && OrangeLead(Last9(d))
  }

  predicate IsMtn(d: string) {
    |d| >= 9 && MtnLead(Last9(d))
  }

  predicate IsNexttel(d: string) {
    |d| == 9 && d[0] == '6' && d[1] == '6'
  }

  predicate IsCamtel(d: string) {
    |d| == 9 && d[0] == '2'
  }

  /** A pattern whose alternatives all have length `len` matches exactly
      when the last `len` characters match one of them (and, if anchored at
      the start, there are no others). */
  lemma TestFixedLength(p: Pattern, s: string, len: nat)
    requires forall k | 0 <= k < |p.alternatives| :: |p.alternatives[k]| == len
    ensures Test(p, s) <==>
              && |s| >= len
              && (p.anchoredAtStart ==> |s| == len)
              && MatchesSome(p.alternatives, s[|s| - len..])
  {
    if Test(p, s) {
      var start :| 0 <= start <= |s| && (p.anchoredAtStart ==> start == 0)
                   && MatchesSome(p.alternatives, s[start..]);
      var k :| 0 <= k < |p.alternatives| && MatchesExactly(p.alternatives[k], s[start..]);
      assert start == |s| - len;
    }
    if |s| >= len && (p.anchoredAtStart ==> |s| == len) && MatchesSome(p.alternatives, s[|s| - len..]) {
      assert 0 <= |s| - len <= |s|;
    }
  }

  /** On digits, a trailing run of `\d` matches anything of the right
      length, so only the leading classes decide. */
  lemma MatchesWithDigitRun(heads: seq<CharClass>, n: nat, w: string)
    requires AllDigits(w)
    ensures MatchesExactly(heads + DigitRun(n), w) <==>
              |w| == |heads| + n && MatchesExactly(heads, w[..|heads|])
  {
    var alt := heads + DigitRun(n);
    if |w| == |heads| + n && MatchesExactly(heads, w[..|heads|]) {
      forall i | 0 <= i < |w|
        ensures InClass(w[i], alt[i])
      {
        if i < |heads| {
          assert w[..|heads|][i] == w[i];
        } else {
          assert alt[i] == Digit;
        }
      }
    }
    if MatchesExactly(alt, w) {
      forall i | 0 <= i < |heads|
        ensures InClass(w[..|heads|][i], heads[i])
      {
        assert alt[i] == heads[i];
      }
    }
  }

  /** An alternative of one leading class and a digit run, on nine digits. */
  lemma Lead1(a: CharClass, n: nat, w: string)
    requires AllDigits(w) && |w| == 1 + n
    ensures MatchesExactly([a] + DigitRun(n), w) <==> InClass(w[0], a)
  {
    MatchesWithDigitRun([a], n, w);
    assert w[..1][0] == w[0];
  }

  /** An alternative of two leading classes and a digit run. */
  lemma Lead2(a: CharClass, b: CharClass, n: nat, w: string)
    requires AllDigits(w) && |w| == 2 + n
    ensures MatchesExactly([a, b] + DigitRun(n), w) <==> InClass(w[0], a) && InClass(w[1], b)
  {
    MatchesWithDigitRun([a, b], n, w);
    var h := w[..2];
    assert h[0] == w[0] && h[1] == w[1];
    if InClass(w[0], a) && InClass(w[1], b) {
      forall i | 0 <= i < 2 ensures InClass(h[i], [a, b][i]) {
      }
    }
  }

  /** An alternative of three leading classes and a digit run. */
  lemma Lead3(a: CharClass, b: CharClass, c: CharClass, n: nat, w: string)
    requires AllDigits(w) && |w| == 3 + n
    ensures MatchesExactly([a, b, c] + DigitRun(n), w) <==>
              InClass(w[0], a) && InClass(w[1], b) && InClass(w[2], c)
  {
    MatchesWithDigitRun([a, b, c], n, w);
    var h := w[..3];
    assert h[0] == w[0] && h[1] == w[1] && h[2] == w[2];
    if InClass(w[0], a) && InClass(w[1], b) && InClass(w[2], c) {
      forall i | 0 <= i < 3 ensures InClass(h[i], [a, b, c][i]) {
      }
    }
  }

  lemma SomeOf1(alts: seq<seq<CharClass>>, w: string)
    requires |alts| == 1
    ensures MatchesSome(alts, w) <==> MatchesExactly(alts[0], w)
  {
  }

  lemma SomeOf3(alts: seq<seq<CharClass>>, w: string)
    requires |alts| == 3
    ensures MatchesSome(alts, w) <==>
              MatchesExactly(alts[0], w) || MatchesExactly(alts[1], w) || MatchesExactly(alts[2], w)
  {
    if MatchesSome(alts, w) {
      var k :| 0 <= k < |alts| && MatchesExactly(alts[k], w);
      assert k == 0 || k == 1 || k == 2;
    }
  }

  lemma SomeOf4(alts: seq<seq<CharClass>>, w: string)
    requires |alts| == 4
    ensures MatchesSome(alts, w) <==>
              || MatchesExactly(alts[0], w) || MatchesExactly(alts[1], w)
              || MatchesExactly(alts[2], w) || MatchesExactly(alts[3], w)
  {
    if MatchesSome(alts, w) {
      var k :| 0 <= k < |alts| && MatchesExactly(alts[k], w);
      assert k == 0 || k == 1 || k == 2 || k == 3;
    }
  }

  /** The Orange alternatives on nine digits are the Orange leads. */
  lemma OrangeAlternatives(t: string)
    requires AllDigits(t) && |t| == 9
    ensures MatchesSome(OrangePattern.alternatives, t) <==> OrangeLead(t)
  {
    var alts := OrangePattern.alternatives;
    SomeOf3(alts, t);
    Lead3(Lit('6'), Lit('5'), Range('5', '9'), 6, t);
    Lead2(Lit('6'), Lit('9'), 7, t);
    Lead3(Lit('6'), Lit('8'), Range('5', '9'), 6, t);
  }

  lemma OrangeTestIff(d: string)
    requires AllDigits(d)
    ensures Test(OrangePattern, d) <==> IsOrange(d)
  {
    TestFixedLength(OrangePattern, d, 9);
    if |d| >= 9 {
      OrangeAlternatives(Last9(d));
    }
  }

  /** The MTN alternatives on nine digits are the MTN leads. */
  lemma MtnAlternatives(t: string)
    requires AllDigits(t) && |t| == 9
    ensures MatchesSome(MtnPattern.alternatives, t) <==> MtnLead(t)
  {
    var alts := MtnPattern.alternatives;
    SomeOf4(alts, t);
    Lead3(Lit('6'), Lit('5'), Range('0', '4'), 6, t);
    Lead2(Lit('6'), Lit('7'), 7, t);
    Lead3(Lit('6'), Lit('8'), Lit('0'), 6, t);
    Lead3(Lit('6'), Lit('8'), Range('1', '4'), 6, t);
  }

  lemma MtnTestIff(d: string)
    requires AllDigits(d)
    ensures Test(MtnPattern, d) <==> IsMtn(d)
  {
    TestFixedLength(MtnPattern, d, 9);
    if |d| >= 9 {
      MtnAlternatives(Last9(d));
    }
  }

  lemma NexttelTestIff(d: string)
    requires AllDigits(d)
    ensures Test(NexttelPattern, d) <==> IsNexttel(d)
  {
    TestFixedLength(NexttelPattern, d, 9);
    if |d| == 9 {
      assert d[|d| - 9..] == d;
      SomeOf1(NexttelPattern.alternatives, d);
      Lead2(Lit('6'), Lit('6'), 7, d);
    }
  }

  lemma CamtelTestIff(d: string)
    requires AllDigits(d)
    ensures Test(CamtelPattern, d) <==> IsCamtel(d)
  {
    TestFixedLength(CamtelPattern, d, 9);
    if |d| == 9 {
      assert d[|d| - 9..] == d;
      SomeOf1(CamtelPattern.alternatives, d);
      Lead1(Lit('2'), 8, d);
    }
  }

  /** All four closed forms at once. */
  lemma PatternsOnDigits(d: string)
    requires AllDigits(d)
    ensures Test(OrangePattern, d) <==> IsOrange(d)
    ensures Test(MtnPattern, d) <==> IsMtn(d)
    ensures Test(NexttelPattern, d) <==> IsNexttel(d)
    ensures Test(CamtelPattern, d) <==> IsCamtel(d)
  {
    OrangeTestIff(d);
    MtnTestIff(d);
    NexttelTestIff(d);
    CamtelTestIff(d);
  }

  /** The verdict read off the closed forms: a reference definition of the
      validator on digit strings that does not mention the patterns. */
  function ClassifyClosed(d: string): Verdict {
    if IsOrange(d) then Verdict(true, Orange)
    else if IsMtn(d) then Verdict(true, MTN)
    else if IsNexttel(d) then Verdict(true, Nexttel)
    else if IsCamtel(d) then Verdict(true, Camtel)
    else Verdict(false, Unknown)
  }

  /** On digit strings the pattern-based classifier and the closed-form
      reference agree. */
  lemma ClassifyClosedForm(d: string)
    requires AllDigits(d)
    ensures Classify(d) == ClassifyClosed(d)
  {
    PatternsOnDigits(d);
  }

  /** `Validate` through the reference definition. */
  lemma ValidateClosedForm(phone: string)
    ensures Validate(phone) == ClassifyClosed(DigitsOf(phone))
  {
    ClassifyClosedForm(DigitsOf(phone));
  }

  // ---------------------------------------------------------------------
  // Properties of the validator
  // ---------------------------------------------------------------------

  /** Only the ASCII digits of a phone number matter: validating its digits
      alone gives the same verdict, and digit extraction is idempotent. */
  lemma OnlyDigitsMatter(phone: string)
    ensures DigitsOf(DigitsOf(phone)) == DigitsOf(phone)
    ensures Validate(DigitsOf(phone)) == Validate(phone)
  {
    DigitsOfDigits(DigitsOf(phone));
  }

  /** The four patterns are pairwise disjoint on digit strings: at most one
      of them matches. */
  lemma PatternsDisjoint(d: string)
    requires AllDigits(d)
    ensures !(Test(OrangePattern, d) && Test(MtnPattern, d))
    ensures !(Test(OrangePattern, d) && Test(NexttelPattern, d))
    ensures !(Test(OrangePattern, d) && Test(CamtelPattern, d))
    ensures !(Test(MtnPattern, d) && Test(NexttelPattern, d))
    ensures !(Test(MtnPattern, d) && Test(CamtelPattern, d))
    ensures !(Test(NexttelPattern, d) && Test(CamtelPattern, d))
  {
    PatternsOnDigits(d);
    if |d| == 9 {
      assert Last9(d) == d;
    }
  }

  /** The pattern that identifies each carrier. */
  function PatternOf(op: Operator): Pattern
    requires op != Unknown
  {
    match op
    case Orange => OrangePattern
    case MTN => MtnPattern
    case Nexttel => NexttelPattern
    case Camtel => CamtelPattern
  }

  /** A number is given a carrier exactly when that carrier's pattern
      matches its digits, and is invalid exactly when no pattern does. */
  lemma ValidateExact(phone: string, op: Operator)
    requires op != Unknown
    ensures Validate(phone).operator == op <==> Test(PatternOf(op), DigitsOf(phone))
    ensures Validate(phone).operator == Unknown <==>
              && !Test(OrangePattern, DigitsOf(phone))
              && !Test(MtnPattern, DigitsOf(phone))
              && !Test(NexttelPattern, DigitsOf(phone))
              && !Test(CamtelPattern, DigitsOf(phone))
  {
    PatternsDisjoint(DigitsOf(phone));
  }

  /** The same tests made in the opposite order. */
  function ClassifyReversed(digits: string): Verdict {
    if Test(CamtelPattern, digits) then Verdict(true, Camtel)
    else if Test(NexttelPattern, digits) then Verdict(true, Nexttel)
    else if Test(MtnPattern, digits) then Verdict(true, MTN)
    else if Test(OrangePattern, digits) then Verdict(true, Orange)
    else Verdict(false, Unknown)
  }

  /** Because the patterns are disjoint, the order of the tests never
      changes the verdict. */
  lemma CheckOrderIrrelevant(phone: string)
    ensures Validate(phone) == ClassifyReversed(DigitsOf(phone))
  {
    PatternsDisjoint(DigitsOf(phone));
  }

  /** A number with fewer than nine digits is invalid. */
  lemma ShortNumbersInvalid(phone: string)
    requires |DigitsOf(phone)| < 9
    ensures Validate(phone) == Verdict(false, Unknown)
  {
    PatternsOnDigits(DigitsOf(phone));
  }

  /** Orange and MTN look only at the last nine digits: putting anything,
      such as the country code 237, in front of an Orange or MTN number
      leaves its verdict unchanged. */
  lemma PrefixKeepsOrangeMtn(prefix: string, phone: string)
    requires Validate(phone).operator == Orange || Validate(phone).operator == MTN
    ensures Validate(prefix + phone) == Validate(phone)
  {
    var d := DigitsOf(phone);
    var e := DigitsOf(prefix + phone);
    DigitsOfAppend(prefix, phone);
    PatternsOnDigits(d);
    PatternsOnDigits(e);
    assert Last9(e) == Last9(d);
  }

  /** Nexttel and Camtel need exactly nine digits, so the same numbers
      written with the country code 237 in front are invalid. */
  lemma CountryCodeBreaksNexttelCamtel(phone: string)
    requires Validate(phone).operator == Nexttel || Validate(phone).operator == Camtel
    ensures Validate("237" + phone) == Verdict(false, Unknown)
  {
    var d := DigitsOf(phone);
    var e := DigitsOf("237" + phone);
    assert e == "237" + d by {
      DigitsOfAppend("237", phone);
      assert AllDigits("237");
      DigitsOfDigits("237");
    }
    assert IsNexttel(d) || IsCamtel(d) by {
      ValidateClosedForm(phone);
    }
    assert Last9(e) == d;
    assert ClassifyClosed(e) == Verdict(false, Unknown);
    ValidateClosedForm("237" + phone);
  }
}
