/** The handful of Python `str` operations the tools rely on, stated over
    `seq<char>`: `strip`/`lstrip`/`rstrip`, `lower`, `startswith`, `in`,
    `replace`, `split("\n")`, `join`, `rfind`, slicing with a possibly
    negative bound, and `str(n)` for natural numbers.

    Whitespace is the set Python's `str.isspace()` accepts; `\w` is taken
    to be ASCII letters, digits and underscore; `lower()` folds ASCII only. */
module Text {

  /** Python's `str.isspace()` for one character. */
  predicate IsSpace(c: char) {
    || c == ' '
    || ('\t' <= c <= '\r')
    || ('\U{1C}' <= c <= '\U{1F}')
    || c == '\U{85}' || c == '\U{A0}' || c == '\U{1680}'
    || ('\U{2000}' <= c <= '\U{200A}')
    || c == '\U{2028}' || c == '\U{2029}' || c == '\U{202F}' || c == '\U{205F}' || c == '\U{3000}'
  }

  /** `\w` in the source's regular expressions (ASCII approximation). */
  predicate IsWordChar(c: char) {
    ('a' <= c <= 'z') || ('A' <= c <= 'Z') || ('0' <= c <= '9') || c == '_'
  }

  predicate IsDigit(c: char) { '0' <= c <= '9' }

  /** `[\w.\-]` in the source's regular expressions. */
  predicate IsNameChar(c: char) { IsWordChar(c) || c == '.' || c == '-' }

  /** True when neither end of `s` is whitespace. */
  predicate Trimmed(s: string) {
    |s| > 0 ==> !IsSpace(s[0]) && !IsSpace(s[|s| - 1])
  }

  /** Python's `s.lstrip()`. That the result is a suffix of `s` is
      `LStripSuffix`. */
  function LStrip(s: string): (r: string)
    ensures |r| <= |s|
    ensures |r| > 0 ==> !IsSpace(r[0])
    ensures forall i :: 0 <= i < |s| - |r| ==> IsSpace(s[i])
  {
    if |s| > 0 && IsSpace(s[0]) then LStrip(s[1..]) else s
  }

  /** Python's `s.rstrip()`. That the result is a prefix of `s` is
      `RStripPrefix`. */
  function RStrip(s: string): (r: string)
    ensures |r| <= |s|
    ensures |r| > 0 ==> !IsSpace(r[|r| - 1])
    ensures forall i :: |r| <= i < |s| ==> IsSpace(s[i])
  {
    if |s| > 0 && IsSpace(s[|s| - 1]) then RStrip(s[..|s| - 1]) else s
  }

  lemma {:induction false} LStripSuffix(s: string)
    ensures LStrip(s) == s[|s| - |LStrip(s)|..]
    decreases |s|
  {
    if |s| > 0 && IsSpace(s[0]) {
      LStripSuffix(s[1..]);
    }
  }

  lemma {:induction false} RStripPrefix(s: string)
    ensures RStrip(s) == s[..|RStrip(s)|]
    decreases |s|
  {
    if |s| > 0 && IsSpace(s[|s| - 1]) {
      RStripPrefix(s[..|s| - 1]);
    }
  }

  /** Python's `s.strip()`: no whitespace at either end, everything cut
      away being whitespace; `StripIsSlice` places the result inside `s`. */
  function Strip(s: string): (r: string)
    ensures Trimmed(r)
    ensures |s| > 0 && !IsSpace(s[0]) && !IsSpace(s[|s| - 1]) ==> r == s
    ensures r == [] <==> forall i :: 0 <= i < |s| ==> IsSpace(s[i])
  {
    StripParts(s);
    RStrip(LStrip(s))
  }

  lemma StripParts(s: string)
    ensures Trimmed(RStrip(LStrip(s)))
    ensures RStrip(LStrip(s)) == [] ==> forall i :: 0 <= i < |s| ==> IsSpace(s[i])
    ensures |s| > 0 && !IsSpace(s[0]) && !IsSpace(s[|s| - 1]) ==> RStrip(LStrip(s)) == s
    ensures (forall i :: 0 <= i < |s| ==> IsSpace(s[i])) ==> RStrip(LStrip(s)) == []
  {
    StripTrimmed(s);
    StripEmptyAllSpace(s);
    AllSpaceStripEmpty(s);
    if |s| > 0 && !IsSpace(s[0]) && !IsSpace(s[|s| - 1]) {
      LStripNoLeadingSpace(s);
      RStripNoTrailingSpace(s);
    }
  }

  lemma StripTrimmed(s: string)
    ensures Trimmed(RStrip(LStrip(s)))
  {
    var l := LStrip(s);
    RStripPrefix(l);
    var r := RStrip(l);
    if |r| > 0 {
      assert r[0] == l[0];
    }
  }

  lemma StripEmptyAllSpace(s: string)
    ensures RStrip(LStrip(s)) == [] ==> forall i :: 0 <= i < |s| ==> IsSpace(s[i])
  {
    var l := LStrip(s);
    if |l| > 0 && RStrip(l) == [] {
      assert false;
    }
  }

  lemma AllSpaceStripEmpty(s: string)
    ensures (forall i :: 0 <= i < |s| ==> IsSpace(s[i])) ==> LStrip(s) == []
  {
    if forall i :: 0 <= i < |s| ==> IsSpace(s[i]) {
      var l := LStrip(s);
      LStripSuffix(s);
      if |l| > 0 {
        assert false;
      }
    }
  }

  /** The stripped text is the slice of `s` after its leading whitespace. */
  lemma StripSlice(s: string)
    ensures SliceAt(s, |s| - |LStrip(s)|, Strip(s))
  {
    var l := LStrip(s);
    var r := RStrip(l);
    LStripSuffix(s);
    RStripPrefix(l);
    assert r == s[|s| - |l|..][..|r|];
  }

  /** A character absent from `s` is absent from its stripped form. */
  lemma StripKeepsAbsent(s: string, c: char)
    requires c !in s
    ensures c !in Strip(s)
  {
    StripSlice(s);
    var k := |s| - |LStrip(s)|;
    var w := s[k..k + |Strip(s)|];
    assert Strip(s) == w;
    forall i | 0 <= i < |w|
      ensures w[i] != c
    {
      assert w[i] == s[k + i];
    }
  }

  lemma StripIsSlice(s: string)
    ensures exists k :: SliceAt(s, k, Strip(s))
  {
    StripSlice(s);
  }

  lemma {:induction false} LStripNoLeadingSpace(s: string)
    requires |s| > 0 ==> !IsSpace(s[0])
    ensures LStrip(s) == s
  {
  }

  lemma {:induction false} RStripNoTrailingSpace(s: string)
    requires |s| > 0 ==> !IsSpace(s[|s| - 1])
    ensures RStrip(s) == s
  {
  }

  /** Stripping twice is stripping once. */
  lemma StripIdempotent(s: string)
    ensures Strip(Strip(s)) == Strip(s)
  {
  }

  /** A prefix with no whitespace at either end survives stripping of a
      text that does not begin with whitespace. */
  lemma PrefixSurvivesStrip(p: string, s: string)
    requires |p| > 0 && !IsSpace(p[0]) && !IsSpace(p[|p| - 1]) && p <= s
    ensures p <= Strip(s)
  {
    LStripNoLeadingSpace(s);
    var r := RStrip(s);
    RStripPrefix(s);
    assert s[|p| - 1] == p[|p| - 1];
    assert |p| <= |r|;
    assert r == s[..|r|];
  }

  function LowerChar(c: char): char {
    if 'A' <= c <= 'Z' then (c as int - 'A' as int + 'a' as int) as char else c
  }

  /** Python's `s.lower()` on ASCII letters; other characters unchanged. */
  function Lower(s: string): (r: string)
    ensures |r| == |s|
  {
    seq(|s|, i requires 0 <= i < |s| => LowerChar(s[i]))
  }

  lemma LowerKeepsSpace(s: string)
    ensures forall i :: 0 <= i < |s| ==> (IsSpace(Lower(s)[i]) <==> IsSpace(s[i]))
  {
  }

  /** Lower-casing twice is lower-casing once. */
  lemma LowerIdempotent(s: string)
    ensures Lower(Lower(s)) == Lower(s)
  {
  }

  lemma {:induction false} LStripLower(s: string)
    ensures LStrip(Lower(s)) == Lower(LStrip(s))
    decreases |s|
  {
    LowerKeepsSpace(s);
    if |s| > 0 && IsSpace(s[0]) {
      assert Lower(s)[1..] == Lower(s[1..]);
      LStripLower(s[1..]);
    }
  }

  lemma {:induction false} RStripLower(s: string)
    ensures RStrip(Lower(s)) == Lower(RStrip(s))
    decreases |s|
  {
    LowerKeepsSpace(s);
    if |s| > 0 && IsSpace(s[|s| - 1]) {
      assert Lower(s)[..|s| - 1] == Lower(s[..|s| - 1]);
      RStripLower(s[..|s| - 1]);
    }
  }

  /** Stripping and lower-casing commute: `lower` never makes or unmakes
      whitespace. */
  lemma StripLower(s: string)
    ensures Strip(Lower(s)) == Lower(Strip(s))
  {
    LStripLower(s);
    RStripLower(LStrip(s));
  }

  /** `sub` occurs in `s` starting at index `k`. */
  predicate SliceAt(s: string, k: int, sub: string) {
    0 <= k <= |s| - |sub| && s[k..k + |sub|] == sub
  }

  /** Two adjacent occurrences make one occurrence of the concatenation. */
  lemma SliceConcat(s: string, k: int, a: string, b: string)
    requires SliceAt(s, k, a) && SliceAt(s, k + |a|, b)
    ensures SliceAt(s, k, a + b)
  {
    assert s[k..k + |a| + |b|] == s[k..k + |a|] + s[k + |a|..k + |a| + |b|];
  }

  /** Python's `sub in s`. */
  predicate Contains(s: string, sub: string) {
    exists i :: 0 <= i <= |s| - |sub| && SliceAt(s, i, sub)
  }

  /** `c in s` for a single character. */
  lemma ContainsChar(s: string, c: char)
    ensures Contains(s, [c]) <==> c in s
  {
    if c in s {
      var i :| 0 <= i < |s| && s[i] == c;
      assert SliceAt(s, i, [c]);
    }
    if Contains(s, [c]) {
      var i :| 0 <= i <= |s| - 1 && SliceAt(s, i, [c]);
      assert s[i..i + 1] == [c];
      assert s[i] == c;
    }
  }

  /** Index of the first occurrence of `sub` in `s`, or -1 (Python's
      `s.find(sub)`). */
  function FindSub(s: string, sub: string): (r: int)
    ensures r == -1 || 0 <= r <= |s| - |sub|
    ensures r >= 0 ==> SliceAt(s, r, sub) && forall j :: 0 <= j < r ==> !SliceAt(s, j, sub)
    ensures r == -1 <==> !Contains(s, sub)
    decreases |s|
  {
    if |s| < |sub| then -1
    else if s[..|sub|] == sub then 0
    else
      var k := FindSub(s[1..], sub);
      FindSubShift(s, sub, k);
      if k == -1 then -1 else k + 1
  }

  lemma FindSubShift(s: string, sub: string, k: int)
    requires |s| >= |sub| && s[..|sub|] != sub
    requires -1 <= k <= |s| - 1 - |sub|
    requires k >= 0 ==> SliceAt(s[1..], k, sub) && forall j :: 0 <= j < k ==> !SliceAt(s[1..], j, sub)
    requires k == -1 <==> !Contains(s[1..], sub)
    ensures k >= 0 ==> SliceAt(s, k + 1, sub) && forall j :: 0 <= j < k + 1 ==> !SliceAt(s, j, sub)
    ensures k == -1 <==> !Contains(s, sub)
  {
    forall j | 0 <= j <= |s| - |sub|
      ensures SliceAt(s, j, sub) <==> (j == 0 && s[..|sub|] == sub) || (j > 0 && SliceAt(s[1..], j - 1, sub))
    {
      if j > 0 {
        assert s[1..][j - 1..j - 1 + |sub|] == s[j..j + |sub|];
      } else {
        assert s[0..|sub|] == s[..|sub|];
      }
    }
    if Contains(s, sub) {
      var j :| 0 <= j <= |s| - |sub| && SliceAt(s, j, sub);
      assert j > 0;
      assert SliceAt(s[1..], j - 1, sub);
    }
    if k >= 0 {
      assert SliceAt(s, k + 1, sub);
    }
  }

  /** Python's `s.replace(pat, rep)`: every leftmost non-overlapping
      occurrence of a non-empty `pat` replaced, scanning left to right. */
  function Replace(s: string, pat: string, rep: string): (r: string)
    requires |pat| > 0
    decreases |s|
  {
    if |s| < |pat| then s
    else if s[..|pat|] == pat then rep + Replace(s[|pat|..], pat, rep)
    else [s[0]] + Replace(s[1..], pat, rep)
  }

  /** Replacing a pattern that does not occur changes nothing. */
  lemma {:induction false} ReplaceAbsent(s: string, pat: string, rep: string)
    requires |pat| > 0 && !Contains(s, pat)
    ensures Replace(s, pat, rep) == s
    decreases |s|
  {
    if |s| >= |pat| {
      assert !SliceAt(s, 0, pat);
      assert s[0..|pat|] == s[..|pat|];
      assert !Contains(s[1..], pat) by {
        if Contains(s[1..], pat) {
          var i :| 0 <= i <= |s[1..]| - |pat| && SliceAt(s[1..], i, pat);
          assert s[1..][i..i + |pat|] == s[i + 1..i + 1 + |pat|];
          assert SliceAt(s, i + 1, pat);
        }
      }
      ReplaceAbsent(s[1..], pat, rep);
    }
  }

  /** Deleting a pattern leaves only characters of the text. */
  lemma {:induction false} ReplaceDeletes(s: string, pat: string, c: char)
    requires |pat| > 0
    ensures c in Replace(s, pat, "") ==> c in s
    decreases |s|
  {
    if |s| >= |pat| {
      if s[..|pat|] == pat {
        ReplaceDeletes(s[|pat|..], pat, c);
        assert "" + Replace(s[|pat|..], pat, "") == Replace(s[|pat|..], pat, "");
        if c in Replace(s[|pat|..], pat, "") {
          var j :| 0 <= j < |s[|pat|..]| && s[|pat|..][j] == c;
          assert s[|pat| + j] == c;
        }
      } else {
        ReplaceDeletes(s[1..], pat, c);
        if c in Replace(s[1..], pat, "") {
          var j :| 0 <= j < |s[1..]| && s[1..][j] == c;
          assert s[1 + j] == c;
        }
      }
    }
  }

  /** Deleting a pattern never makes the text longer. */
  lemma {:induction false} ReplaceEmptyShrinks(s: string, pat: string)
    requires |pat| > 0
    ensures |Replace(s, pat, "")| <= |s|
    decreases |s|
  {
    if |s| >= |pat| {
      if s[..|pat|] == pat {
        ReplaceEmptyShrinks(s[|pat|..], pat);
      } else {
        ReplaceEmptyShrinks(s[1..], pat);
      }
    }
  }

  /** Each pattern of `pats` deleted in turn, as a chain of
      `s.replace(pat, "")` calls does. */
  function RemoveAll(s: string, pats: seq<string>): (r: string)
    requires forall k :: 0 <= k < |pats| ==> |pats[k]| > 0
    ensures |r| <= |s|
    decreases |pats|
  {
    if |pats| == 0 then s
    else
      ReplaceEmptyShrinks(s, pats[0]);
      RemoveAll(Replace(s, pats[0], ""), pats[1..])
  }

  /** Text in which no pattern occurs passes through unchanged. */
  lemma {:induction false} RemoveAllAbsent(s: string, pats: seq<string>)
    requires forall k :: 0 <= k < |pats| ==> |pats[k]| > 0 && !Contains(s, pats[k])
    ensures RemoveAll(s, pats) == s
    decreases |pats|
  {
    if |pats| > 0 {
      ReplaceAbsent(s, pats[0], "");
      RemoveAllAbsent(s, pats[1..]);
    }
  }

  /** Python's `sep.join(parts)`. */
  function Join(sep: string, parts: seq<string>): string
    decreases |parts|
  {
    if |parts| == 0 then ""
    else if |parts| == 1 then parts[0]
    else parts[0] + sep + Join(sep, parts[1..])
  }

  /** A join begins with its first piece. */
  lemma JoinStartsWithFirst(sep: string, parts: seq<string>)
    requires |parts| > 0
    ensures parts[0] <= Join(sep, parts)
  {
  }

  lemma JoinAppend(sep: string, parts: seq<string>, last: string)
    requires |parts| > 0
    ensures Join(sep, parts + [last]) == Join(sep, parts) + sep + last
    decreases |parts|
  {
    if |parts| == 1 {
      assert parts + [last] == [parts[0], last];
    } else {
      assert (parts + [last])[1..] == parts[1..] + [last];
      JoinAppend(sep, parts[1..], last);
    }
  }

  /** Index of the first `c` in `s`, or -1 (Python's `s.find(c)`). */
  function FindChar(s: string, c: char): (r: int)
    ensures -1 <= r < |s|
    ensures r >= 0 ==> s[r] == c && c !in s[..r]
    ensures r == -1 ==> c !in s
  {
    if |s| == 0 then -1
    else if s[0] == c then 0
    else
      var k := FindChar(s[1..], c);
      if k == -1 then -1 else k + 1
  }

  /** Index of the last `c` in `s`, or -1 (Python's `s.rfind(c)`). */
  function RFindChar(s: string, c: char): (r: int)
    ensures -1 <= r < |s|
    ensures r >= 0 ==> s[r] == c && c !in s[r + 1..]
    ensures r == -1 ==> c !in s
  {
    if |s| == 0 then -1
    else if s[|s| - 1] == c then |s| - 1
    else RFindChar(s[..|s| - 1], c)
  }

  /** Python's `s.split(c)` for a one-character separator. */
  function Split(s: string, c: char): (r: seq<string>)
    ensures |r| > 0
    ensures forall k :: 0 <= k < |r| ==> c !in r[k]
    decreases |s|
  {
    var i := FindChar(s, c);
    if i == -1 then [s] else [s[..i]] + Split(s[i + 1..], c)
  }

  /** Splitting on a character and joining with it gives back the text. */
  lemma {:induction false} JoinSplit(s: string, c: char)
    ensures Join([c], Split(s, c)) == s
    decreases |s|
  {
    var i := FindChar(s, c);
    if i != -1 {
      JoinSplit(s[i + 1..], c);
      assert s == s[..i] + [c] + s[i + 1..];
    }
  }

  /** Python's `s[:k]`: a negative `k` counts from the end. */
  function PyPrefix<T>(s: seq<T>, k: int): (r: seq<T>)
    ensures r <= s
    ensures 0 <= k <= |s| ==> |r| == k
    ensures k >= |s| ==> r == s
    ensures k < 0 ==> |r| == if |s| + k > 0 then |s| + k else 0
  {
    if k >= |s| then s
    else if k >= 0 then s[..k]
    else if |s| + k > 0 then s[..|s| + k]
    else []
  }

  /** `c * n` for a one-character string (empty when `n <= 0`). */
  function Repeat(c: char, n: int): (r: string)
    ensures |r| == if n > 0 then n else 0
    ensures forall i :: 0 <= i < |r| ==> r[i] == c
    decreases n
  {
    if n <= 0 then [] else [c] + Repeat(c, n - 1)
  }

  function DigitChar(d: nat): char
    requires d < 10
  {
    ('0' as int + d) as char
  }

  /** Python's `str(n)` for a natural number. */
  function NatToString(n: nat): (r: string)
    ensures |r| > 0 && forall i :: 0 <= i < |r| ==> IsDigit(r[i])
    decreases n
  {
    if n < 10 then [DigitChar(n)] else NatToString(n / 10) + [DigitChar(n % 10)]
  }

  function IntToString(n: int): string {
    if n < 0 then "-" + NatToString(-n) else NatToString(n)
  }

  function Min(a: int, b: int): int { if a <= b then a else b }

  function Max(a: int, b: int): int { if a >= b then a else b }
}
