/**
  The Python `str` operations the handlers rely on: `strip()`, `find`,
  `split(sep)`, `sep.join(parts)`, `replace(old, new)`, the case folding a
  case-insensitive `LIKE` applies, and `int(text)` for decimal text.
*/
module PyStr {
  import opened Outcomes

  /** `str.isspace()` of one character. */
  predicate IsSpace(c: char) {
    || '\t' <= c <= '\r'
    || '\U{1C}' <= c <= '\U{1F}'
    || c == ' ' || c == '\U{85}' || c == '\U{A0}' || c == '\U{1680}'
    || '\U{2000}' <= c <= '\U{200A}'
    || c == '\U{2028}' || c == '\U{2029}' || c == '\U{202F}' || c == '\U{205F}' || c == '\U{3000}'
  }

  /** The end of the whitespace run that starts at `i`. */
  function SpaceRunEnd(s: string, i: nat): (j: nat)
    requires i <= |s|
    ensures i <= j <= |s|
    ensures forall k | i <= k < j :: IsSpace(s[k])
    ensures j == |s| || !IsSpace(s[j])
    decreases |s| - i
  {
    if i < |s| && IsSpace(s[i]) then SpaceRunEnd(s, i + 1) else i
  }

  /** The start of the whitespace run that ends at `j`. */
  function SpaceRunStart(s: string, j: nat): (i: nat)
    requires j <= |s|
    ensures i <= j
    ensures forall k | i <= k < j :: IsSpace(s[k])
    ensures i == 0 || !IsSpace(s[i - 1])
    decreases j
  {
    if j > 0 && IsSpace(s[j - 1]) then SpaceRunStart(s, j - 1) else j
  }

  /** `s.lstrip()`: drops leading whitespace. */
  function LStrip(s: string): (r: string)
    ensures |r| <= |s| && r == s[|s| - |r|..]
    ensures forall k | 0 <= k < |s| - |r| :: IsSpace(s[k])
    ensures r == [] || !IsSpace(r[0])
  {
    s[SpaceRunEnd(s, 0)..]
  }

  /** `s.rstrip()`: drops trailing whitespace. */
  function RStrip(s: string): (r: string)
    ensures |r| <= |s| && r == s[..|r|]
    ensures forall k | |r| <= k < |s| :: IsSpace(s[k])
    ensures r == [] || !IsSpace(r[|r| - 1])
  {
    s[..SpaceRunStart(s, |s|)]
  }

  /** Whether `r` is `s` with whitespace runs at both ends removed and no more. */
  predicate StrippedAt(s: string, r: string, start: nat) {
    && start + |r| <= |s|
    && r == s[start..start + |r|]
    && (forall k | 0 <= k < start :: IsSpace(s[k]))
    && (forall k | start + |r| <= k < |s| :: IsSpace(s[k]))
    && (r == [] || (!IsSpace(r[0]) && !IsSpace(r[|r| - 1])))
  }

  /** `s.strip()`. */
  function Strip(s: string): (r: string)
    ensures StrippedAt(s, r, |s| - |LStrip(s)|)
  {
    var l := LStrip(s);
    var r := RStrip(l);
    StripComposed(s, l, r, |s| - |l|);
    r
  }

  /** Removing a leading run, then a trailing run of what is left, strips both ends. */
  lemma {:induction false} StripComposed(s: string, l: string, r: string, start: nat)
    requires start + |l| == |s| && l == s[start..]
    requires forall k | 0 <= k < start :: IsSpace(s[k])
    requires l == [] || !IsSpace(l[0])
    requires |r| <= |l| && r == l[..|r|]
    requires forall k | |r| <= k < |l| :: IsSpace(l[k])
    requires r == [] || !IsSpace(r[|r| - 1])
    ensures StrippedAt(s, r, start)
  {
    assert s[start..][..|r|] == s[start..start + |r|];
    forall k | start + |r| <= k < |s| ensures IsSpace(s[k]) {
      assert s[k] == l[k - start];
    }
    assert r == [] || r[0] == l[0];
  }

  /** Stripping twice is stripping once. */
  lemma {:induction false} StripIdempotent(s: string)
    ensures Strip(Strip(s)) == Strip(s)
  {
    StripUnchanged(Strip(s));
  }

  predicate OccursAt(s: string, pat: string, j: int) {
    0 <= j && j + |pat| <= |s| && s[j..j + |pat|] == pat
  }

  /** The index of the leftmost occurrence of `pat` in `s` (`s.find(pat)`). */
  function Find(s: string, pat: string): (r: Option<nat>)
    ensures r.Some? ==> OccursAt(s, pat, r.value)
    ensures r.Some? ==> forall j | 0 <= j < r.value :: !OccursAt(s, pat, j)
    ensures r.None? ==> forall j | 0 <= j <= |s| - |pat| :: !OccursAt(s, pat, j)
    decreases |s|
  {
    if |s| < |pat| then None
    else if s[..|pat|] == pat then Some(0)
    else
      var rest := Find(s[1..], pat);
      assert forall j | 1 <= j <= |s| - |pat| :: OccursAt(s, pat, j) == OccursAt(s[1..], pat, j - 1) by {
        forall j | 1 <= j <= |s| - |pat| ensures OccursAt(s, pat, j) == OccursAt(s[1..], pat, j - 1) {
          var here, there := s[j..j + |pat|], s[1..][j - 1..j - 1 + |pat|];
          assert forall m | 0 <= m < |pat| :: here[m] == there[m];
          assert here == there;
        }
      }
      match rest
      case None => None
      case Some(i) => Some(i + 1)
  }

  /** An occurrence of `pat` in a prefix of `s` is an occurrence in `s`. */
  lemma {:induction false} OccursInPrefix(s: string, pat: string, n: nat, j: int)
    requires n <= |s| && OccursAt(s[..n], pat, j)
    ensures OccursAt(s, pat, j)
  {
    assert s[..n][j..j + |pat|] == s[j..j + |pat|];
  }

  /** `s.split(sep)`: the pieces between leftmost non-overlapping occurrences of `sep`. */
  function SplitOn(s: string, sep: string): (parts: seq<string>)
    requires |sep| > 0
    ensures |parts| >= 1
    ensures forall p | p in parts :: Find(p, sep).None?
    decreases |s|
  {
    match Find(s, sep)
    case None => [s]
    case Some(i) =>
      var head := s[..i];
      if Find(head, sep).Some? then
        OccursInPrefix(s, sep, i, Find(head, sep).value);
        assert false;
        [s]
      else
        [head] + SplitOn(s[i + |sep|..], sep)
  }

  /** `sep.join(parts)`. */
  function Join(sep: string, parts: seq<string>): string
    decreases |parts|
  {
    if |parts| == 0 then ""
    else if |parts| == 1 then parts[0]
    else parts[0] + sep + Join(sep, parts[1..])
  }

  /** Joining what `split` cut yields the original text. */
  lemma {:induction false} JoinSplit(s: string, sep: string)
    requires |sep| > 0
    ensures Join(sep, SplitOn(s, sep)) == s
    decreases |s|
  {
    match Find(s, sep)
    case None =>
    case Some(i) =>
      var rest := s[i + |sep|..];
      var parts := SplitOn(s, sep);
      assert Find(s[..i], sep).None? by {
        if Find(s[..i], sep).Some? {
          OccursInPrefix(s, sep, i, Find(s[..i], sep).value);
        }
      }
      assert parts == [s[..i]] + SplitOn(rest, sep);
      assert parts[1..] == SplitOn(rest, sep);
      JoinSplit(rest, sep);
      assert Join(sep, parts) == s[..i] + sep + rest;
      assert s == s[..i] + sep + rest by {
        assert s[i..i + |sep|] == sep;
      }
  }

  /**
    When the first character of `sep` occurs in no part, splitting the
    joined text gives the parts back.
  */
  lemma {:induction false} SplitJoin(parts: seq<string>, sep: string)
    requires |sep| > 0 && |parts| >= 1
    requires forall p | p in parts :: sep[0] !in p
    ensures SplitOn(Join(sep, parts), sep) == parts
    decreases |parts|
  {
    var p := parts[0];
    if |parts| == 1 {
      NotOccurring(p, sep);
    } else {
      var rest := Join(sep, parts[1..]);
      var s := p + sep + rest;
      assert OccursAt(s, sep, |p|) by {
        assert s[|p|..|p| + |sep|] == sep;
      }
      forall j | 0 <= j < |p| ensures !OccursAt(s, sep, j) {
        assert s[j] == p[j] && p[j] in p;
        assert s[j] != sep[0];
      }
      assert Find(s, sep) == Some(|p|);
      assert s[..|p|] == p;
      assert s[|p| + |sep|..] == rest;
      assert forall q | q in parts[1..] :: q in parts;
      SplitJoin(parts[1..], sep);
    }
  }

  /** Text without the first character of `sep` holds no occurrence of `sep`. */
  lemma {:induction false} NotOccurring(p: string, sep: string)
    requires |sep| > 0 && sep[0] !in p
    ensures Find(p, sep).None?
  {
  }

  /** A one-character separator that `find` does not find is absent. */
  lemma {:induction false} FindNoneChar(p: string, c: char)
    requires Find(p, [c]).None?
    ensures c !in p
  {
    if c in p {
      var j :| 0 <= j < |p| && p[j] == c;
      assert p[j..j + 1] == [c];
      assert OccursAt(p, [c], j);
    }
  }

  /** `s.replace(target, replacement)` for a non-empty `target`: one left-to-right pass. */
  function Replace(s: string, target: string, replacement: string): (r: string)
    requires |target| > 0
    ensures Find(s, target).None? ==> r == s
    ensures |replacement| <= |target| ==> |r| <= |s|
  {
    var parts := SplitOn(s, target);
    assert |replacement| <= |target| ==> |Join(replacement, parts)| <= |s| by {
      if |replacement| <= |target| {
        JoinSplit(s, target);
        JoinShorter(parts, replacement, target);
      }
    }
    Join(replacement, parts)
  }

  /** Joining with a shorter separator gives a text no longer. */
  lemma {:induction false} JoinShorter(parts: seq<string>, short: string, long: string)
    requires |short| <= |long|
    ensures |Join(short, parts)| <= |Join(long, parts)|
    decreases |parts|
  {
    if |parts| > 1 {
      JoinShorter(parts[1..], short, long);
    }
  }

  /** Text without the searched substring is left as it is. */
  lemma {:induction false} ReplaceAbsent(s: string, target: string, replacement: string)
    requires |target| > 0 && Find(s, target).None?
    ensures Replace(s, target, replacement) == s
  {
  }

  /**
    Replacing the separator of parts that do not contain its first
    character re-joins those parts with the replacement.
  */
  lemma {:induction false} ReplaceSeparator(parts: seq<string>, target: string, replacement: string)
    requires |target| > 0 && |parts| >= 1
    requires forall p | p in parts :: target[0] !in p
    ensures Replace(Join(target, parts), target, replacement) == Join(replacement, parts)
  {
    SplitJoin(parts, target);
  }

  /** Case folding of a case-insensitive match: ASCII and Russian letters. */
  function LowerChar(c: char): char {
    if 'A' <= c <= 'Z' then (c as int + 32) as char
    else if '\U{0410}' <= c <= '\U{042F}' then (c as int + 32) as char
    else if c == '\U{0401}' then '\U{0451}'
    else c
  }

  function Lower(s: string): (r: string)
    ensures |r| == |s|
    ensures forall i | 0 <= i < |s| :: r[i] == LowerChar(s[i])
  {
    seq(|s|, i requires 0 <= i < |s| => LowerChar(s[i]))
  }

  /** Folding twice is folding once. */
  lemma {:induction false} LowerIdempotent(s: string)
    ensures Lower(Lower(s)) == Lower(s)
  {
    assert forall i | 0 <= i < |s| :: LowerChar(LowerChar(s[i])) == LowerChar(s[i]);
  }

  /** `needle` occurs in `hay` ignoring case (`icontains`). */
  predicate ContainsIgnoreCase(hay: string, needle: string) {
    Find(Lower(hay), Lower(needle)).Some?
  }

  /** The match ignores the case of both sides. */
  lemma {:induction false} ContainsIgnoresCase(hay: string, needle: string)
    ensures ContainsIgnoreCase(Lower(hay), needle) == ContainsIgnoreCase(hay, needle)
    ensures ContainsIgnoreCase(hay, Lower(needle)) == ContainsIgnoreCase(hay, needle)
  {
    LowerIdempotent(hay);
    LowerIdempotent(needle);
  }

  /** Every text contains itself, whatever the case. */
  lemma {:induction false} ContainsItself(hay: string)
    ensures ContainsIgnoreCase(hay, hay)
  {
    var l := Lower(hay);
    assert OccursAt(l, l, 0) by {
      assert l[0..|l|] == l;
    }
  }

  predicate IsDigit(c: char) {
    '0' <= c <= '9'
  }

  /** Python's decimal literal body: digits, single underscores allowed between digits. */
  predicate DigitGroups(d: string) {
    && |d| > 0
    && IsDigit(d[0])
    && IsDigit(d[|d| - 1])
    && forall i | 0 <= i < |d| :: IsDigit(d[i]) || (d[i] == '_' && i + 1 < |d| && IsDigit(d[i + 1]))
  }

  /** The value of decimal digits, ignoring underscores. */
  function DigitsValue(d: string): nat
    decreases |d|
  {
    if |d| == 0 then 0
    else
      var last := d[|d| - 1];
      if IsDigit(last) then DigitsValue(d[..|d| - 1]) * 10 + (last as int - '0' as int)
      else DigitsValue(d[..|d| - 1])
  }

  /** `int(text)`: surrounding whitespace, an optional sign, decimal digits. */
  function ParseInt(s: string): (r: Option<int>)
    ensures |Strip(s)| == 0 ==> r.None?
    ensures r.Some? && r.value < 0 ==> Strip(s)[0] == '-'
  {
    ParseStripped(Strip(s))
  }

  /** `int(text)` once the whitespace is gone. */
  function ParseStripped(t: string): Option<int> {
    if |t| == 0 then None
    else
      var negative := t[0] == '-';
      var digits := if t[0] == '-' || t[0] == '+' then t[1..] else t;
      if !DigitGroups(digits) then None
      else if negative then Some(-(DigitsValue(digits) as int))
      else Some(DigitsValue(digits))
  }

  function DigitChar(n: nat): char
    requires n < 10
  {
    ('0' as int + n) as char
  }

  /** `str(n)` for a natural number. */
  function Decimal(n: nat): (d: string)
    ensures |d| > 0
    ensures forall i | 0 <= i < |d| :: IsDigit(d[i])
    decreases n
  {
    if n < 10 then [DigitChar(n)] else Decimal(n / 10) + [DigitChar(n % 10)]
  }

  lemma {:induction false} DecimalValue(n: nat)
    ensures DigitsValue(Decimal(n)) == n
    decreases n
  {
    var d := Decimal(n);
    if n < 10 {
      assert d[..|d| - 1] == [];
    } else {
      DecimalValue(n / 10);
      assert d[..|d| - 1] == Decimal(n / 10);
    }
  }

  /** Text that neither starts nor ends with whitespace is its own strip. */
  lemma {:induction false} StripUnchanged(s: string)
    requires s == [] || (!IsSpace(s[0]) && !IsSpace(s[|s| - 1]))
    ensures Strip(s) == s
  {
    assert LStrip(s) == s;
    assert RStrip(s) == s;
  }

  /** `int(str(n)) == n`. */
  lemma {:induction false} ParseDecimal(n: nat)
    ensures ParseInt(Decimal(n)) == Some(n)
  {
    var d := Decimal(n);
    DecimalValue(n);
    StripUnchanged(d);
    assert DigitGroups(d);
  }

  /** A minus sign before decimal digits negates their value. */
  lemma {:induction false} ParseNegative(d: string)
    requires DigitGroups(d)
    ensures ParseInt("-" + d) == Some(-(DigitsValue(d) as int))
  {
    var m := "-" + d;
    assert m[|m| - 1] == d[|d| - 1];
    StripUnchanged(m);
    assert m[0] == '-' && m[1..] == d;
  }

  /** Text holding a letter is never an integer. */
  lemma {:induction false} ParseRejectsLetter(s: string, i: nat)
    requires i < |s| && ('a' <= s[i] <= 'z' || 'A' <= s[i] <= 'Z')
    ensures ParseInt(s) == None
  {
    var t := Strip(s);
    var start := |s| - |LStrip(s)|;
    assert start <= i < start + |t| && t[i - start] == s[i] by {
      assert StrippedAt(s, t, start);
    }
    LetterNotParsed(t, i - start);
  }

  /** Stripped text holding a letter is not a signed run of digit groups. */
  lemma {:induction false} LetterNotParsed(t: string, j: nat)
    requires j < |t| && ('a' <= t[j] <= 'z' || 'A' <= t[j] <= 'Z')
    ensures ParseStripped(t) == None
  {
    var signed := t[0] == '-' || t[0] == '+';
    var digits := if signed then t[1..] else t;
    var k := if signed then j - 1 else j;
    assert 0 <= k < |digits| && digits[k] == t[j];
    assert !DigitGroups(digits) by {
      assert !IsDigit(digits[k]) && digits[k] != '_';
    }
  }

}
