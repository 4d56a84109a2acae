/** The JavaScript string operations the application relies on:
    `trim`, `toLowerCase`, `split`, `startsWith`, `endsWith`, `replace`
    with a string pattern, and number-to-string conversion. */
module Text {
  import opened Results

  // ---------------------------------------------------------------------
  // trim
  // ---------------------------------------------------------------------

  /** The characters `String.prototype.trim` removes: the ECMAScript
      WhiteSpace characters (tab, vertical tab, form feed, space, no-break
      space, byte order mark and the Space_Separator category) and the
      LineTerminator characters. */
  predicate IsJsSpace(c: char) {
    || c == '\U{0009}' || c == '\U{000B}' || c == '\U{000C}' || c == ' '
    || c == '\U{00A0}' || c == '\U{FEFF}' || c == '\U{1680}'
    || ('\U{2000}' <= c <= '\U{200A}')
    || c == '\U{202F}' || c == '\U{205F}' || c == '\U{3000}'
    || c == '\n' || c == '\r' || c == '\U{2028}' || c == '\U{2029}'
  }

  predicate AllSpace(s: string) {
    forall i | 0 <= i < |s| :: IsJsSpace(s[i])
  }

  /** Neither end of `s` is a trimmable character. */
  predicate Trimmed(s: string) {
    s == [] || (!IsJsSpace(s[0]) && !IsJsSpace(s[|s| - 1]))
  }

  /** How many trimmable characters `s` starts with. */
  function LeadingSpaces(s: string): (n: nat)
    ensures n <= |s| && AllSpace(s[..n])
    ensures n < |s| ==> !IsJsSpace(s[n])
  {
    if |s| > 0 && IsJsSpace(s[0]) then
      var n := 1 + LeadingSpaces(s[1..]);
      assert s[..n] == [s[0]] + s[1..][..n - 1];
      n
    else
      0
  }

  /** How many trimmable characters `s` ends with. */
  function TrailingSpaces(s: string): (n: nat)
    ensures n <= |s| && AllSpace(s[|s| - n..])
    ensures n < |s| ==> !IsJsSpace(s[|s| - n - 1])
  {
    if |s| > 0 && IsJsSpace(s[|s| - 1]) then
      var n := 1 + TrailingSpaces(s[..|s| - 1]);
      assert s[|s| - n..] == s[..|s| - 1][|s| - n..] + [s[|s| - 1]];
      n
    else
      0
  }

  /** `s.trim()`: what remains once the trimmable characters at both ends
      are removed. */
  function Trim(s: string): (r: string)
    ensures Trimmed(r) && |r| <= |s|
  {
    var t := s[LeadingSpaces(s)..];
    t[..|t| - TrailingSpaces(t)]
  }

  /** The trimmed string is the middle slice of `s`, with only trimmable
      characters on either side of it. */
  lemma TrimIsSlice(s: string) returns (a: nat)
    ensures a + |Trim(s)| <= |s| && s[a..a + |Trim(s)|] == Trim(s)
    ensures AllSpace(s[..a]) && AllSpace(s[a + |Trim(s)|..])
  {
    a := LeadingSpaces(s);
    var t := s[a..];
    var r := Trim(s);
    assert r == t[..|t| - TrailingSpaces(t)];
    assert s[a..a + |r|] == r;
    assert s[a + |r|..] == t[|t| - TrailingSpaces(t)..];
  }

  /** Trimming only removes characters, so a property every character of
      `s` has holds for every character of the result. */
  lemma TrimKeepsNoUpper(s: string)
    requires forall i | 0 <= i < |s| :: !IsUpperAscii(s[i])
    ensures forall i | 0 <= i < |Trim(s)| :: !IsUpperAscii(Trim(s)[i])
  {
    var r := Trim(s);
    var a := TrimIsSlice(s);
    forall i | 0 <= i < |r|
      ensures !IsUpperAscii(r[i])
    {
      assert r[i] == s[a..a + |r|][i];
    }
  }

  /** A line is blank for the importer exactly when it consists of
      trimmable characters only. */
  lemma TrimEmptyIffAllSpace(s: string)
    ensures Trim(s) == [] <==> AllSpace(s)
  {
    var a := TrimIsSlice(s);
    if AllSpace(s) {
      AllSpaceLeading(s);
    }
    if Trim(s) == [] {
      assert s == s[..a] + s[a..];
    }
  }

  lemma {:induction false} AllSpaceLeading(s: string)
    requires AllSpace(s)
    ensures LeadingSpaces(s) == |s|
  {
    if |s| > 0 {
      AllSpaceLeading(s[1..]);
    }
  }

  /** Trimming twice is trimming once. */
  lemma TrimIdempotent(s: string)
    ensures Trim(Trim(s)) == Trim(s)
  {
    var r := Trim(s);
    assert LeadingSpaces(r) == 0;
    assert r[0..] == r;
    assert TrailingSpaces(r) == 0;
  }

  // ---------------------------------------------------------------------
  // toLowerCase
  // ---------------------------------------------------------------------

  predicate IsUpperAscii(c: char) {
    'A' <= c <= 'Z'
  }

  function LowerChar(c: char): (d: char)
    ensures !IsUpperAscii(d)
    ensures IsUpperAscii(c) ==> d as int == c as int + 32
    ensures !IsUpperAscii(c) ==> d == c
  {
    if IsUpperAscii(c) then (c as int + 32) as char else c
  }

  /** `s.toLowerCase()` on the ASCII letters. */
  function Lower(s: string): (r: string)
    ensures |r| == |s|
    ensures forall i | 0 <= i < |s| :: r[i] == LowerChar(s[i])
  {
    seq(|s|, i requires 0 <= i < |s| => LowerChar(s[i]))
  }

  /** Lower-casing leaves no upper-case ASCII letter, so doing it twice is
      doing it once. */
  lemma LowerIdempotent(s: string)
    ensures forall i | 0 <= i < |Lower(s)| :: !IsUpperAscii(Lower(s)[i])
    ensures Lower(Lower(s)) == Lower(s)
  {
  }

  // ---------------------------------------------------------------------
  // split and join
  // ---------------------------------------------------------------------

  /** `parts.join(sep)`. */
  function Join(parts: seq<string>, sep: char): string
  {
    if |parts| == 0 then ""
    else if |parts| == 1 then parts[0]
    else Join(parts[..|parts| - 1], sep) + [sep] + parts[|parts| - 1]
  }

  /** `s.split(sep)` for a one-character separator, read from the end: a
      separator opens a new empty piece, any other character extends the
      last piece. */
  function Split(s: string, sep: char): (parts: seq<string>)
    ensures |parts| >= 1
  {
    if |s| == 0 then [""]
    else
      var rest := Split(s[..|s| - 1], sep);
      var c := s[|s| - 1];
      if c == sep then rest + [""]
      else rest[..|rest| - 1] + [rest[|rest| - 1] + [c]]
  }

  /** No piece contains the separator. */
  lemma {:induction false} SplitPiecesHaveNoSeparator(s: string, sep: char)
    ensures forall k | 0 <= k < |Split(s, sep)| :: sep !in Split(s, sep)[k]
  {
    if |s| > 0 {
      SplitPiecesHaveNoSeparator(s[..|s| - 1], sep);
    }
  }

  /** Joining one more piece adds a separator and the piece. */
  lemma JoinSnoc(parts: seq<string>, last: string, sep: char)
    requires |parts| >= 1
    ensures Join(parts + [last], sep) == Join(parts, sep) + [sep] + last
  {
    assert (parts + [last])[..|parts|] == parts;
  }

  /** Extending the last piece extends the joined string. */
  lemma JoinExtendLast(parts: seq<string>, c: char, sep: char)
    requires |parts| >= 1
    ensures Join(parts[..|parts| - 1] + [parts[|parts| - 1] + [c]], sep) == Join(parts, sep) + [c]
  {
    var n := |parts|;
    if n > 1 {
      JoinSnoc(parts[..n - 1], parts[n - 1] + [c], sep);
    }
  }

  /** Joining the pieces with the separator gives the string back. */
  lemma {:induction false} JoinSplit(s: string, sep: char)
    ensures Join(Split(s, sep), sep) == s
  {
    if |s| > 0 {
      var p := s[..|s| - 1];
      var c := s[|s| - 1];
      var rest := Split(p, sep);
      JoinSplit(p, sep);
      assert s == p + [c];
      if c == sep {
        JoinSnoc(rest, "", sep);
      } else {
        JoinExtendLast(rest, c, sep);
      }
    }
  }

  /** A trailing separator adds one empty piece at the end. */
  lemma SplitTrailingSeparator(s: string, sep: char)
    ensures Split(s + [sep], sep) == Split(s, sep) + [""]
  {
    assert (s + [sep])[..|s|] == s;
  }

  /** Splitting after a separator: the pieces of the text before it, then
      a last piece without separators. */
  lemma {:induction false} SplitAfterSeparator(x: string, sep: char, b: string)
    requires sep !in b
    ensures Split(x + [sep] + b, sep) == Split(x, sep) + [b]
  {
    if |b| == 0 {
      assert x + [sep] + b == x + [sep];
    } else {
      var b' := b[..|b| - 1];
      var t := x + [sep] + b;
      assert t[..|t| - 1] == x + [sep] + b';
      SplitAfterSeparator(x, sep, b');
      var r := Split(x, sep) + [b'];
      assert r[..|r| - 1] == Split(x, sep);
      assert b == b' + [b[|b| - 1]];
    }
  }

  /** Splitting a piece without separators gives that piece. */
  lemma {:induction false} SplitNoSeparator(b: string, sep: char)
    requires sep !in b
    ensures Split(b, sep) == [b]
  {
    if |b| > 0 {
      var b' := b[..|b| - 1];
      SplitNoSeparator(b', sep);
      assert b == b' + [b[|b| - 1]];
    }
  }

  /** Splitting undoes joining, for pieces that do not contain the
      separator. */
  lemma {:induction false} SplitJoin(parts: seq<string>, sep: char)
    requires |parts| >= 1
    requires forall k | 0 <= k < |parts| :: sep !in parts[k]
    ensures Split(Join(parts, sep), sep) == parts
  {
    var n := |parts|;
    if n == 1 {
      SplitNoSeparator(parts[0], sep);
    } else {
      var front := parts[..n - 1];
      SplitJoin(front, sep);
      SplitAfterSeparator(Join(front, sep), sep, parts[n - 1]);
      assert parts == front + [parts[n - 1]];
    }
  }

  // ---------------------------------------------------------------------
  // prefixes, suffixes and replace
  // ---------------------------------------------------------------------

  /** `s.startsWith(prefix)`. */
  predicate StartsWith(s: string, prefix: string) {
    |prefix| <= |s| && s[..|prefix|] == prefix
  }

  /** `s.endsWith(suffix)`. */
  predicate EndsWith(s: string, suffix: string) {
    |suffix| <= |s| && s[|s| - |suffix|..] == suffix
  }

  predicate OccursAt(s: string, pat: string, i: int) {
    0 <= i && i + |pat| <= |s| && s[i..i + |pat|] == pat
  }

  function FindFrom(s: string, pat: string, from: nat): (r: Option<nat>)
    ensures r.Some? ==> from <= r.value && OccursAt(s, pat, r.value)
    ensures r.Some? ==> forall j | from <= j < r.value :: !OccursAt(s, pat, j)
    ensures r.None? ==> forall j | from <= j :: !OccursAt(s, pat, j)
    decreases |s| - from
  {
    if from + |pat| > |s| then None
    else if s[from..from + |pat|] == pat then Some(from)
    else FindFrom(s, pat, from + 1)
  }

  /** The search `s.replace(pat, rep)` makes with a string pattern, as an
      option: the first position where `pat` occurs. */
  function FindFirst(s: string, pat: string): (r: Option<nat>)
    ensures r.Some? ==> OccursAt(s, pat, r.value)
    ensures r.Some? ==> forall j | 0 <= j < r.value :: !OccursAt(s, pat, j)
    ensures r.None? ==> forall j :: !OccursAt(s, pat, j)
  {
    FindFrom(s, pat, 0)
  }

  /** `s.replace(pat, rep)` with a string pattern: only the first
      occurrence is replaced (`$` patterns in `rep` are not interpreted). */
  function ReplaceFirst(s: string, pat: string, rep: string): string
  {
    match FindFirst(s, pat)
    case None => s
    case Some(i) => s[..i] + rep + s[i + |pat|..]
  }

  /** What `replace` does with a string pattern: nothing when the pattern
      does not occur; otherwise the first occurrence becomes `rep`, the
      text before and after it is kept, and so every later occurrence
      survives, shifted by the change in length. */
  lemma ReplaceFirstOnlyFirst(s: string, pat: string, rep: string, j: int)
    ensures FindFirst(s, pat).None? ==> ReplaceFirst(s, pat, rep) == s
    ensures OccursAt(s, pat, j) ==> FindFirst(s, pat).Some? && FindFirst(s, pat).value <= j
    ensures FindFirst(s, pat).Some? ==>
              var i := FindFirst(s, pat).value;
              var r := ReplaceFirst(s, pat, rep);
              && |r| == |s| - |pat| + |rep|
              && r[..i] == s[..i]
              && r[i..i + |rep|] == rep
              && r[i + |rep|..] == s[i + |pat|..]
              && (OccursAt(s, pat, j) && i + |pat| <= j ==> OccursAt(r, pat, j - |pat| + |rep|))
  {
    if FindFirst(s, pat).Some? {
      var i := FindFirst(s, pat).value;
      var r := ReplaceFirst(s, pat, rep);
      var tail := s[i + |pat|..];
      assert r == s[..i] + rep + tail;
      assert r[..i] == s[..i];
      assert r[i..i + |rep|] == rep;
      assert r[i + |rep|..] == tail;
      if OccursAt(s, pat, j) && i + |pat| <= j {
        var k := j - |pat| + |rep|;
        assert r[k..k + |pat|] == tail[j - i - |pat|..j - i] == s[j..j + |pat|];
      }
    }
  }

  // ---------------------------------------------------------------------
  // number to string
  // ---------------------------------------------------------------------

  predicate IsDigit(c: char) {
    '0' <= c <= '9'
  }

  predicate AllDigits(s: string) {
    forall i | 0 <= i < |s| :: IsDigit(s[i])
  }

  function DigitChar(d: int): (c: char)
    requires 0 <= d < 10
    ensures IsDigit(c) && c as int - '0' as int == d
  {
    ('0' as int + d) as char
  }

  /** The value of a string of decimal digits. */
  function DecimalValue(s: string): int
    requires AllDigits(s)
  {
    if |s| == 0 then 0
    else DecimalValue(s[..|s| - 1]) * 10 + (s[|s| - 1] as int - '0' as int)
  }

  /** The decimal notation of `n`, without leading zeros. */
  function NatToString(n: nat): (r: string)
    ensures |r| >= 1 && AllDigits(r)
    ensures r[0] == '0' ==> n == 0
  {
    if n < 10 then [DigitChar(n)]
    else NatToString(n / 10) + [DigitChar(n % 10)]
  }

  /** Reading the notation back gives the number. */
  lemma {:induction false} NatToStringRoundTrip(n: nat)
    ensures DecimalValue(NatToString(n)) == n
  {
    if n >= 10 {
      var r := NatToString(n);
      assert r[..|r| - 1] == NatToString(n / 10);
      NatToStringRoundTrip(n / 10);
    }
  }

  /** `String(n)` for an integer `n`. */
  function IntToString(n: int): (r: string)
    ensures n < 0 <==> (|r| > 0 && r[0] == '-')
  {
    if n < 0 then "-" + NatToString(-n) else NatToString(n)
  }
}
