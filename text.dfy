/**
 * The JavaScript string operations the core relies on, written out over
 * `seq<char>`: the `\s` character class (which is also what `trim` removes),
 * ASCII case mapping, trimming, prefix and substring tests, `split(/\s+/)`,
 * `join`, decimal formatting of numbers and `parseInt(_, 10)`.
 */
module Text {
  import opened Wrappers

  /** `\s` in a JavaScript regular expression: WhiteSpace and LineTerminator. */
  predicate IsSpace(c: char) {
    || c == ' ' || c == '\t' || c == '\n' || c == '\r' || c == '\U{000B}' || c == '\U{000C}'
    || c == '\U{00A0}' || c == '\U{1680}' || ('\U{2000}' <= c <= '\U{200A}')
    || c == '\U{2028}' || c == '\U{2029}' || c == '\U{202F}' || c == '\U{205F}'
    || c == '\U{3000}' || c == '\U{FEFF}'
  }

  predicate IsDigit(c: char) { '0' <= c <= '9' }
  predicate IsLetter(c: char) { 'A' <= c <= 'Z' || 'a' <= c <= 'z' }
  predicate IsAlnum(c: char) { IsLetter(c) || IsDigit(c) }
  /** `[A-Za-z\s]` */
  predicate IsLetterOrSpace(c: char) { IsLetter(c) || IsSpace(c) }

  predicate AllSpace(s: string) { forall i | 0 <= i < |s| :: IsSpace(s[i]) }
  predicate AllDigits(s: string) { forall i | 0 <= i < |s| :: IsDigit(s[i]) }
  predicate AllAlnum(s: string) { forall i | 0 <= i < |s| :: IsAlnum(s[i]) }
  predicate AllLetterOrSpace(s: string) { forall i | 0 <= i < |s| :: IsLetterOrSpace(s[i]) }
  predicate NoSpace(s: string) { forall i | 0 <= i < |s| :: !IsSpace(s[i]) }
  predicate HasNonSpace(s: string) { exists i | 0 <= i < |s| :: !IsSpace(s[i]) }

  /** A non-empty run of decimal digits, as `\d+` matches. */
  predicate IsDigitRun(s: string) { |s| > 0 && AllDigits(s) }

  // ---------------------------------------------------------------- case

  function LowerChar(c: char): char {
    if 'A' <= c <= 'Z' then (c as int + 32) as char else c
  }

  function UpperChar(c: char): char {
    if 'a' <= c <= 'z' then (c as int - 32) as char else c
  }

  /** `toLowerCase`, on ASCII letters. */
  function Lower(s: string): (r: string)
    ensures |r| == |s|
    ensures forall i | 0 <= i < |s| :: r[i] == LowerChar(s[i])
  {
    seq(|s|, i requires 0 <= i < |s| => LowerChar(s[i]))
  }

  /** `toUpperCase`, on ASCII letters. */
  function Upper(s: string): (r: string)
    ensures |r| == |s|
    ensures forall i | 0 <= i < |s| :: r[i] == UpperChar(s[i])
  {
    seq(|s|, i requires 0 <= i < |s| => UpperChar(s[i]))
  }

  /** Upper-casing twice is upper-casing once, and leaves no lower-case ASCII letter. */
  lemma UpperTwice(s: string)
    ensures Upper(Upper(s)) == Upper(s)
    ensures forall i | 0 <= i < |s| :: !('a' <= Upper(s)[i] <= 'z')
  {
    assert forall i | 0 <= i < |s| :: Upper(Upper(s))[i] == Upper(s)[i];
  }

  // ---------------------------------------------------------------- scanning

  /** The end of the run of whitespace that starts at `i`. */
  function SkipSpaces(s: string, i: nat): (j: nat)
    requires i <= |s|
    ensures i <= j <= |s|
    ensures forall k | i <= k < j :: IsSpace(s[k])
    ensures j < |s| ==> !IsSpace(s[j])
    decreases |s| - i
  {
    if i < |s| && IsSpace(s[i]) then SkipSpaces(s, i + 1) else i
  }

  /** The end of the run of digits that starts at `i`. */
  function SkipDigits(s: string, i: nat): (j: nat)
    requires i <= |s|
    ensures i <= j <= |s|
    ensures forall k | i <= k < j :: IsDigit(s[k])
    ensures j < |s| ==> !IsDigit(s[j])
    decreases |s| - i
  {
    if i < |s| && IsDigit(s[i]) then SkipDigits(s, i + 1) else i
  }

  /** The end of the run of `[A-Za-z\s]` that starts at `i`. */
  function SkipLettersOrSpaces(s: string, i: nat): (j: nat)
    requires i <= |s|
    ensures i <= j <= |s|
    ensures forall k | i <= k < j :: IsLetterOrSpace(s[k])
    ensures j < |s| ==> !IsLetterOrSpace(s[j])
    decreases |s| - i
  {
    if i < |s| && IsLetterOrSpace(s[i]) then SkipLettersOrSpaces(s, i + 1) else i
  }

  /** The end of the run of `[A-Za-z0-9]` that starts at `i`. */
  function SkipAlnum(s: string, i: nat): (j: nat)
    requires i <= |s|
    ensures i <= j <= |s|
    ensures forall k | i <= k < j :: IsAlnum(s[k])
    ensures j < |s| ==> !IsAlnum(s[j])
    decreases |s| - i
  {
    if i < |s| && IsAlnum(s[i]) then SkipAlnum(s, i + 1) else i
  }

  /** The first whitespace character at or after `i`, or `|s|`. */
  function FindSpace(s: string, i: nat): (j: nat)
    requires i <= |s|
    ensures i <= j <= |s|
    ensures forall k | i <= k < j :: !IsSpace(s[k])
    ensures j < |s| ==> IsSpace(s[j])
    decreases |s| - i
  {
    if i < |s| && !IsSpace(s[i]) then FindSpace(s, i + 1) else i
  }

  /** The first occurrence of `c` at or after `i`, or `|s|`. */
  function FindChar(s: string, c: char, i: nat): (j: nat)
    requires i <= |s|
    ensures i <= j <= |s|
    ensures forall k | i <= k < j :: s[k] != c
    ensures j < |s| ==> s[j] == c
    decreases |s| - i
  {
    if i < |s| && s[i] != c then FindChar(s, c, i + 1) else i
  }

  /** A scanner stops exactly at the end of a run that is known. */
  lemma SkipSpacesAt(s: string, i: nat, j: nat)
    requires i <= j <= |s|
    requires forall k | i <= k < j :: IsSpace(s[k])
    requires j < |s| ==> !IsSpace(s[j])
    ensures SkipSpaces(s, i) == j
  {
  }

  lemma FindCharAt(s: string, c: char, i: nat, j: nat)
    requires i <= j <= |s|
    requires forall k | i <= k < j :: s[k] != c
    requires j < |s| ==> s[j] == c
    ensures FindChar(s, c, i) == j
  {
  }

  lemma FindSpaceAt(s: string, i: nat, j: nat)
    requires i <= j <= |s|
    requires forall k | i <= k < j :: !IsSpace(s[k])
    requires j < |s| ==> IsSpace(s[j])
    ensures FindSpace(s, i) == j
  { }

  lemma SkipDigitsAt(s: string, i: nat, j: nat)
    requires i <= j <= |s|
    requires forall k | i <= k < j :: IsDigit(s[k])
    requires j < |s| ==> !IsDigit(s[j])
    ensures SkipDigits(s, i) == j
  {
  }

  lemma SkipLettersOrSpacesAt(s: string, i: nat, j: nat)
    requires i <= j <= |s|
    requires forall k | i <= k < j :: IsLetterOrSpace(s[k])
    requires j < |s| ==> !IsLetterOrSpace(s[j])
    ensures SkipLettersOrSpaces(s, i) == j
  {
  }

  lemma SkipAlnumAt(s: string, i: nat, j: nat)
    requires i <= j <= |s|
    requires forall k | i <= k < j :: IsAlnum(s[k])
    requires j < |s| ==> !IsAlnum(s[j])
    ensures SkipAlnum(s, i) == j
  {
  }

  // ---------------------------------------------------------------- trimming

  /** Where the trailing run of whitespace of `s` starts. */
  function TrailingSpaceStart(s: string): (j: nat)
    ensures j <= |s|
    ensures forall k | j <= k < |s| :: IsSpace(s[k])
    ensures j > 0 ==> !IsSpace(s[j - 1])
    decreases |s|
  {
    if |s| > 0 && IsSpace(s[|s| - 1]) then TrailingSpaceStart(s[..|s| - 1]) else |s|
  }

  /** `trimStart` */
  function TrimStart(s: string): (r: string)
    ensures r == s[SkipSpaces(s, 0)..]
    ensures r == [] || !IsSpace(r[0])
  {
    s[SkipSpaces(s, 0)..]
  }

  /** `trimEnd` */
  function TrimEnd(s: string): (r: string)
    ensures r == s[..TrailingSpaceStart(s)]
    ensures r == [] || !IsSpace(r[|r| - 1])
  {
    s[..TrailingSpaceStart(s)]
  }

  predicate IsTrimmed(s: string) {
    s == [] || (!IsSpace(s[0]) && !IsSpace(s[|s| - 1]))
  }

  /** `trim`: `s` without its leading and trailing whitespace. */
  function Trim(s: string): (r: string)
    ensures IsTrimmed(r)
    ensures SkipSpaces(s, 0) + |r| <= |s|
    ensures r == s[SkipSpaces(s, 0)..SkipSpaces(s, 0) + |r|]
    ensures AllSpace(s[SkipSpaces(s, 0) + |r|..])
    ensures r == [] <==> !HasNonSpace(s)
  {
    var a := SkipSpaces(s, 0);
    var r := TrimEnd(s[a..]);
    TrimFacts(s, a, r);
    r
  }

  lemma TrimFacts(s: string, a: nat, r: string)
    requires a == SkipSpaces(s, 0) && r == TrimEnd(s[a..])
    ensures a + |r| <= |s| && r == s[a..a + |r|]
    ensures AllSpace(s[a + |r|..])
    ensures r == [] <==> !HasNonSpace(s)
  {
    var t := s[a..];
    var j := TrailingSpaceStart(t);
    assert r == s[a..a + j];
    TrimRest(s, a, j);
    if r != [] {
      assert s[a + j - 1] == r[|r| - 1];
    } else {
      TrimAllSpace(s, a);
    }
  }

  lemma TrimRest(s: string, a: nat, j: nat)
    requires a <= |s| && j == TrailingSpaceStart(s[a..])
    ensures AllSpace(s[a + j..])
  {
    var t := s[a..];
    var rest := s[a + j..];
    forall k | 0 <= k < |rest| ensures IsSpace(rest[k]) {
      assert rest[k] == t[j + k];
    }
  }

  lemma TrimAllSpace(s: string, a: nat)
    requires a == SkipSpaces(s, 0) && TrailingSpaceStart(s[a..]) == 0
    ensures !HasNonSpace(s)
  {
    var t := s[a..];
    assert AllSpace(s[..a]);
    assert s == s[..a] + t;
    AllSpaceConcat(s[..a], t);
  }

  lemma AllSpaceConcat(x: string, y: string)
    requires AllSpace(x) && AllSpace(y)
    ensures AllSpace(x + y)
  {
    forall i | 0 <= i < |x + y| ensures IsSpace((x + y)[i]) {
      if i < |x| { assert (x + y)[i] == x[i]; } else { assert (x + y)[i] == y[i - |x|]; }
    }
  }

  lemma TrimOfTrimmed(s: string)
    requires IsTrimmed(s)
    ensures Trim(s) == s
  {
    assert SkipSpaces(s, 0) == 0;
  }

  // ---------------------------------------------------------------- tests on strings

  /** `startsWith` */
  predicate StartsWith(s: string, p: string) { |p| <= |s| && s[..|p|] == p }

  /** `endsWith` */
  predicate EndsWith(s: string, p: string) { |p| <= |s| && s[|s| - |p|..] == p }

  /** `includes` */
  predicate Contains(s: string, p: string) {
    exists i | 0 <= i <= |s| :: OccursAt(s, p, i)
  }

  predicate OccursAt(s: string, p: string, i: int) {
    0 <= i && i + |p| <= |s| && s[i..i + |p|] == p
  }

  lemma StartsWithConcat(p: string, q: string)
    ensures StartsWith(p + q, p)
  {
    assert (p + q)[..|p|] == p;
  }

  // ---------------------------------------------------------------- split and join

  /** `split(/\s+/)` */
  function SplitSpaces(s: string): (parts: seq<string>)
    ensures |parts| >= 1
    ensures parts[0] == s[..FindSpace(s, 0)]
    ensures |parts| == 1 <==> FindSpace(s, 0) == |s|
    ensures forall k | 0 <= k < |parts| :: NoSpace(parts[k])
    decreases |s|
  {
    var i := FindSpace(s, 0);
    if i == |s| then [s]
    else
      var j := SkipSpaces(s, i);
      [s[..i]] + SplitSpaces(s[j..])
  }

  /** A word, one space and a text that does not start with a space split into the word and the text's parts. */
  lemma SplitStep(w: string, t: string)
    requires NoSpace(w) && (t == [] || !IsSpace(t[0]))
    ensures SplitSpaces(w + " " + t) == [w] + SplitSpaces(t)
  {
    var s := w + " " + t;
    assert s[..|w|] == w;
    FindSpaceAt(s, 0, |w|);
    SkipSpacesAt(s, |w|, |w| + 1);
    assert s[|w| + 1..] == t;
  }

  /** `split(c)` for a one-character separator. */
  function SplitOn(s: string, c: char): (parts: seq<string>)
    ensures |parts| >= 1
    ensures parts[0] == s[..FindChar(s, c, 0)]
    ensures |parts| == 1 <==> FindChar(s, c, 0) == |s|
    ensures forall k | 0 <= k < |parts| :: c !in parts[k]
    ensures Join(parts, [c]) == s
    decreases |s|
  {
    var i := FindChar(s, c, 0);
    if i == |s| then [s]
    else
      var rest := SplitOn(s[i + 1..], c);
      var parts := [s[..i]] + rest;
      assert parts[1..] == rest;
      assert s == s[..i] + [c] + s[i + 1..];
      parts
  }

  /** `parts.join(sep)` */
  function Join(parts: seq<string>, sep: string): string
    decreases |parts|
  {
    if |parts| == 0 then ""
    else if |parts| == 1 then parts[0]
    else parts[0] + sep + Join(parts[1..], sep)
  }

  /** Words without whitespace, joined by one space, split back into the same words. */
  lemma {:induction false} SplitJoin(ws: seq<string>)
    requires |ws| >= 1
    requires forall k | 0 <= k < |ws| :: |ws[k]| > 0 && NoSpace(ws[k])
    ensures SplitSpaces(Join(ws, " ")) == ws
    decreases |ws|
  {
    if |ws| > 1 {
      var rest := Join(ws[1..], " ");
      var s := ws[0] + " " + rest;
      assert Join(ws, " ") == s;
      assert s[..|ws[0]|] == ws[0];
      JoinStart(ws[1..]);
      FindSpaceAt(s, 0, |ws[0]|);
      SkipSpacesAt(s, |ws[0]|, |ws[0]| + 1);
      assert s[|ws[0]| + 1..] == rest;
      SplitJoin(ws[1..]);
      assert ws == [ws[0]] + ws[1..];
    } else {
      FindSpaceAt(ws[0], 0, |ws[0]|);
    }
  }

  lemma {:induction false} JoinStart(ws: seq<string>)
    requires |ws| >= 1 && |ws[0]| > 0 && NoSpace(ws[0])
    ensures |Join(ws, " ")| > 0 && Join(ws, " ")[0] == ws[0][0]
  {
  }

  // ---------------------------------------------------------------- replacements

  /** `replace(/[_-]/g, " ")` */
  function UnderscoresToSpaces(s: string): (r: string)
    ensures |r| == |s|
  {
    seq(|s|, i requires 0 <= i < |s| => if s[i] == '_' || s[i] == '-' then ' ' else s[i])
  }

  /** `replace(/\s+/g, "-")`: every run of whitespace becomes one hyphen. */
  function HyphenateSpaces(s: string): (r: string)
    ensures NoSpace(r)
    decreases |s|
  {
    if s == [] then []
    else if IsSpace(s[0]) then "-" + HyphenateSpaces(s[SkipSpaces(s, 0)..])
    else [s[0]] + HyphenateSpaces(s[1..])
  }

  /** `replace(/\s+/g, "")` */
  function RemoveSpaces(s: string): (r: string)
    ensures NoSpace(r)
    ensures |r| <= |s|
    decreases |s|
  {
    if s == [] then []
    else if IsSpace(s[0]) then RemoveSpaces(s[1..])
    else [s[0]] + RemoveSpaces(s[1..])
  }

  /** `substring(0, n)` */
  function Take(s: string, n: nat): (r: string)
    ensures |r| == if n < |s| then n else |s|
  {
    if n < |s| then s[..n] else s
  }

  /** `name.split(".")[0]`: everything before the first dot. */
  function Stem(name: string): string {
    name[..FindChar(name, '.', 0)]
  }

  // ---------------------------------------------------------------- numbers

  function DigitChar(d: nat): char
    requires d < 10
  {
    ('0' as int + d) as char
  }

  /** The decimal form of `n`, what `${n}` prints for a non-negative integer. */
  function NatToString(n: nat): (r: string)
    ensures IsDigitRun(r)
    decreases n
  {
    if n < 10 then [DigitChar(n)] else NatToString(n / 10) + [DigitChar(n % 10)]
  }

  /** What `${i}` prints for an integer. */
  function IntToString(i: int): string {
    if i < 0 then "-" + NatToString(-i) else NatToString(i)
  }

  /** What `${n}` prints for a number `parseInt` produced; `NaN` for none. */
  function NumberText(n: Option<int>): string {
    if n.Some? then IntToString(n.value) else "NaN"
  }

  /** The value of a string of decimal digits. */
  function DigitsValue(s: string): nat
    requires AllDigits(s)
    decreases |s|
  {
    if s == [] then 0
    else DigitsValue(s[..|s| - 1]) * 10 + (s[|s| - 1] as int - '0' as int)
  }

  /** Reading back the decimal form of `n` gives `n`. */
  lemma {:induction false} DigitsOfNat(n: nat)
    ensures DigitsValue(NatToString(n)) == n
    decreases n
  {
    if n >= 10 {
      var x := NatToString(n / 10);
      var s := x + [DigitChar(n % 10)];
      assert s[..|s| - 1] == x;
      DigitsOfNat(n / 10);
    }
  }

  /**
   * `parseInt(s, 10)`: leading whitespace is skipped, then an optional sign,
   * then the longest run of digits; `None` stands for `NaN` (no digits).
   */
  function ParseInt(s: string): Option<int> {
    var a := SkipSpaces(s, 0);
    var negative := a < |s| && s[a] == '-';
    var b := if a < |s| && (s[a] == '-' || s[a] == '+') then a + 1 else a;
    var e := SkipDigits(s, b);
    if e == b then None
    else
      var v: int := DigitsValue(s[b..e]);
      var n: int := if negative then -v else v;
      Some(n)
  }
}
