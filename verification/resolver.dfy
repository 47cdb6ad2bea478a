/** The keyword resolver (codewiki_mcp/resolver.py): recognising a bare
    product keyword, reading star counts, turning scraped search links and
    GitHub API items into search results, and choosing one repository.

    The browser scrape, the GitHub request and the user prompt are
    parameters: the scraped links as (href, text) pairs, the decoded API
    items, the search results each source produced, and what the
    elicitation returned. */
module Resolver {
  import opened Wrappers
  import opened Text
  import Config
  import Types

  // ----- is_bare_keyword -------------------------------------------------

  /** `^[\w][\w.\-]*$`. */
  predicate KeywordPattern(v: string) {
    |v| > 0 && IsWordChar(v[0]) && forall i :: 0 <= i < |v| ==> IsNameChar(v[i])
  }

  /** `is_bare_keyword`. The separate test for "/" is subsumed by the
      pattern, so the verdict is: non-blank, not starting with "http", and
      of the keyword shape, all after trimming. */
  function IsBareKeyword(value: string): (r: bool)
    ensures r <==> Strip(value) != [] && !("http" <= Strip(value)) && KeywordPattern(Strip(value))
    ensures r ==> '/' !in Strip(value)
  {
    var v := Strip(value);
    if v == [] || '/' in v || "http" <= v then false else KeywordPattern(v)
  }

  /** "vue" is a keyword; "httpie", "vuejs/vue" and a blank are not. */
  lemma BareKeywordExamples()
    ensures IsBareKeyword("vue")
    ensures !IsBareKeyword("httpie") && !IsBareKeyword("vuejs/vue") && !IsBareKeyword("  ")
  {
    assert Strip("vue") == "vue";
    assert Strip("httpie") == "httpie";
    assert "http" <= "httpie";
    assert Strip("vuejs/vue") == "vuejs/vue";
    assert !IsNameChar("vuejs/vue"[5]);
  }

  // ----- float() and _parse_stars -----------------------------------------

  function Pow10(n: nat): (r: nat)
    ensures r > 0
  {
    if n == 0 then 1 else 10 * Pow10(n - 1)
  }

  /** `n` followed by `e` zeros. */
  function Shift(n: nat, e: nat): nat {
    if e == 0 then n else 10 * Shift(n, e - 1)
  }

  lemma {:induction false} ShiftIs(n: nat, e: nat)
    ensures Shift(n, e) == n * Pow10(e)
    decreases e
  {
    if e > 0 {
      ShiftIs(n, e - 1);
    }
  }

  lemma {:induction false} Pow10Add(a: nat, b: nat)
    ensures Pow10(a + b) == Pow10(a) * Pow10(b)
    decreases a
  {
    if a > 0 {
      Pow10Add(a - 1, b);
    }
  }

  lemma {:induction false} Pow10Monotone(a: nat, b: nat)
    requires a <= b
    ensures Pow10(a) <= Pow10(b)
    decreases b
  {
    if a < b {
      Pow10Monotone(a, b - 1);
    }
  }

  lemma Pow10Six()
    ensures Pow10(6) == 1000000
  {
    assert Pow10(3) == 1000;
    Pow10Add(3, 3);
  }

  /** What Python's `float()` reads, taken exactly: a finite value
      `num / den`, an infinity, or NaN. */
  datatype FloatValue = Finite(num: int, den: nat) | Infinity | NotANumber

  /** An optional digit part (empty, or digits with single underscores
      between them). */
  predicate OptDigits(s: string) {
    s == [] || Config.IsDigitPart(s)
  }

  /** The mantissa of a decimal literal, as its digits read as an integer
      and the count of digits after the point. */
  function Mantissa(m: string): (r: Option<(nat, nat)>)
  {
    var dot := FindChar(m, '.');
    if dot == -1 then
      if Config.IsDigitPart(m) then Some((Config.DigitsValue(m), 0)) else None
    else
      var ip := m[..dot];
      var fp := m[dot + 1..];
      if OptDigits(ip) && OptDigits(fp) && (ip != [] || fp != []) then
        Some((Shift(Config.DigitsValue(ip), Config.DigitCount(fp)) + Config.DigitsValue(fp), Config.DigitCount(fp)))
      else None
  }

  /** The first `e` or `E`, or -1. */
  function FindExp(s: string): (r: int)
    ensures -1 <= r < |s|
    ensures r >= 0 ==> s[r] == 'e' || s[r] == 'E'
    ensures r == -1 ==> 'e' !in s && 'E' !in s
  {
    var e := FindChar(s, 'e');
    var big := FindChar(s, 'E');
    if e == -1 then big else if big == -1 then e else Min(e, big)
  }

  /** A signed exponent. */
  function Exponent(s: string): Option<int> {
    if |s| > 0 && (s[0] == '+' || s[0] == '-') then
      if Config.IsDigitPart(s[1..]) then
        var v: int := Config.DigitsValue(s[1..]);
        Some(if s[0] == '-' then -v else v)
      else None
    else if Config.IsDigitPart(s) then Some(Config.DigitsValue(s))
    else None
  }

  /** An unsigned decimal literal: mantissa, then an optional exponent. */
  function Unsigned(b: string): Option<FloatValue> {
    var e := FindExp(b);
    var m := Mantissa(if e == -1 then b else b[..e]);
    var x := if e == -1 then Some(0) else Exponent(b[e + 1..]);
    if m.None? || x.None? then None
    else
      var (n, k) := m.value;
      var ex := x.value;
      if ex >= k then Some(Finite(Shift(n, ex - k), 1)) else Some(Finite(n, Pow10(k - ex)))
  }

  /** The text without its leading sign, if it has one. */
  function Unsign(t: string): (b: string)
    ensures b == t || (|t| > 0 && b == t[1..])
  {
    if |t| > 0 && (t[0] == '+' || t[0] == '-') then t[1..] else t
  }

  /** The exact value a text spells under the grammar of Python's
      `float(s)`; `None` where `float()` raises ValueError. Only a text
      spelling "inf" or "infinity" is an infinity here. */
  function Literal(s: string): (r: Option<FloatValue>)
    ensures r == Some(Infinity) ==> 'i' in s || 'I' in s
    ensures r.Some? && r.value.Finite? ==> r.value.den > 0
  {
    var t := Strip(s);
    var neg := |t| > 0 && t[0] == '-';
    var b := Unsign(t);
    var w := Lower(b);
    if w == "inf" || w == "infinity" then
      assert w[0] == 'i' && w[0] == LowerChar(b[0]);
      LetterFromStripped(s, b);
      Some(Infinity)
    else if w == "nan" then Some(NotANumber)
    else
      match Unsigned(b)
      case None => None
      case Some(Finite(n, d)) => Some(Finite(if neg then -n else n, d))
      case Some(v) => Some(v)
  }

  /** The least magnitude that a correctly rounded conversion to a
      double turns into an infinity: 2^1024 - 2^970, halfway between the
      largest double and 2^1024. */
  const FLOAT_LIMIT: nat := 179769313486231580793728971405303415079934132710037826936173778980444968292764750946649017977587207096330286416692887910946555547851940402630657488671505820681908902000708383676273854845817711531764475730270069855571366959622842914819860834936475292719074168444365510704342711559699508093042880177904174497792

  function Abs(n: int): nat {
    if n < 0 then -n else n
  }

  /** `num / den` lies beyond the double range, so that `float()`, or a
      float product, rounds it to an infinity. */
  predicate Overflows(num: int, den: nat) {
    Abs(num) >= FLOAT_LIMIT * den
  }

  /** Python's `float(s)`: the exact value of the text, or an infinity
      where that value is beyond the double range. */
  function ParseFloat(s: string): (r: Option<FloatValue>)
    ensures r.Some? <==> Literal(s).Some?
    ensures r.Some? && r.value.Finite? ==> r == Literal(s) && !Overflows(r.value.num, r.value.den)
    ensures r == Some(Infinity) ==>
      'i' in s || 'I' in s || (Literal(s).Some? && Literal(s).value.Finite? && Overflows(Literal(s).value.num, Literal(s).value.den))
    ensures r == Some(NotANumber) <==> Literal(s) == Some(NotANumber)
  {
    match Literal(s)
    case Some(Finite(n, d)) => if Overflows(n, d) then Some(Infinity) else Some(Finite(n, d))
    case v => v
  }

  /** 10^306 is inside the double range. */
  lemma Pow10Limit()
    ensures Pow10(306) < FLOAT_LIMIT
  {
    Pow10Six();
    Pow10Add(6, 6);
    Pow10Add(12, 6);
    assert Pow10(18) == 1000000000000000000;
    Pow10Add(18, 18);
    assert Pow10(36) == 1000000000000000000000000000000000000;
    Pow10Add(36, 36);
    assert Pow10(72) == 1000000000000000000000000000000000000000000000000000000000000000000000000;
    Pow10Add(72, 72);
    assert Pow10(144) == 1000000000000000000000000000000000000000000000000000000000000000000000000000000000000000000000000000000000000000000000000000000000000000000000000;
    Pow10Add(144, 144);
    assert Pow10(288) == 1000000000000000000000000000000000000000000000000000000000000000000000000000000000000000000000000000000000000000000000000000000000000000000000000000000000000000000000000000000000000000000000000000000000000000000000000000000000000000000000000000000000000000000000000000000000000000000000000;
    Pow10Add(288, 18);
  }

  /** The digits of a text, read as a number, stay below 10 to the count
      of digits. */
  lemma {:induction false} DigitsBelow(s: string)
    ensures Config.DigitsValue(s) < Pow10(Config.DigitCount(s)) && Config.DigitCount(s) <= |s|
    decreases |s|
  {
    if |s| > 0 {
      DigitsBelow(s[..|s| - 1]);
    }
  }

  /** Digits before the point shifted past those after it stay below the
      product of the two powers. */
  lemma ShiftedBelow(vi: nat, vf: nat, pi: nat, pf: nat)
    requires vi < pi && vf < pf
    ensures vi * pf + vf < pi * pf
  {
    assert (vi + 1) * pf <= pi * pf;
  }

  /** A mantissa's digits are fewer than its characters. */
  lemma MantissaBelow(m: string)
    requires Mantissa(m).Some?
    ensures Mantissa(m).value.0 < Pow10(|m|)
  {
    var dot := FindChar(m, '.');
    if dot == -1 {
      DigitsBelow(m);
      Pow10Monotone(Config.DigitCount(m), |m|);
    } else {
      var ip := m[..dot];
      var fp := m[dot + 1..];
      MantissaSplit(m);
      DigitsBelow(ip);
      DigitsBelow(fp);
      PointBelow(Config.DigitsValue(ip), Config.DigitsValue(fp), Config.DigitCount(ip), Config.DigitCount(fp), |m|);
    }
  }

  /** A mantissa with a point: the digits before it shifted past those
      after it. */
  lemma MantissaSplit(m: string)
    requires FindChar(m, '.') >= 0 && Mantissa(m).Some?
    ensures var dot := FindChar(m, '.');
      Mantissa(m).value.0
        == Shift(Config.DigitsValue(m[..dot]), Config.DigitCount(m[dot + 1..])) + Config.DigitsValue(m[dot + 1..])
  {
  }

  /** Digits before and after a point, fewer than the characters, stay
      below 10 to the number of characters. */
  lemma PointBelow(vi: nat, vf: nat, ci: nat, cf: nat, len: nat)
    requires vi < Pow10(ci) && vf < Pow10(cf) && ci + cf <= len
    ensures Shift(vi, cf) + vf < Pow10(len)
  {
    ShiftIs(vi, cf);
    Pow10Add(ci, cf);
    ShiftedBelow(vi, vf, Pow10(ci), Pow10(cf));
    Pow10Monotone(ci + cf, len);
  }

  /** A literal with no exponent is below 10 to its length. */
  lemma UnsignedBelow(b: string)
    requires 'e' !in b && 'E' !in b && Unsigned(b).Some? && Unsigned(b).value.Finite?
    ensures Unsigned(b).value.num < Pow10(|b|) && Unsigned(b).value.den > 0
  {
    assert FindExp(b) == -1;
    UnsignedNoExponent(b);
    MantissaBelow(b);
  }

  /** Without an exponent, a literal is its mantissa over 10 to the count
      of digits after the point. */
  lemma UnsignedNoExponent(b: string)
    requires FindExp(b) == -1 && Mantissa(b).Some?
    ensures Unsigned(b) == Some(Finite(Mantissa(b).value.0, Pow10(Mantissa(b).value.1)))
  {
    var (n, k) := Mantissa(b).value;
    if k == 0 {
      assert Shift(n, 0) == n && Pow10(0) == 1;
    }
  }

  /** A text with no exponent spells a value below 10 to its length. */
  lemma LiteralBelow(s: string)
    requires 'e' !in s && 'E' !in s && Literal(s).Some? && Literal(s).value.Finite?
    ensures Abs(Literal(s).value.num) < Pow10(|s|)
  {
    var b := Unsign(Strip(s));
    UnsignKeepsAbsent(s, 'e');
    UnsignKeepsAbsent(s, 'E');
    LiteralFinite(s);
    UnsignedBelow(b);
    Pow10Monotone(|b|, |s|);
  }

  /** The sign-less stripped text is no longer than the text, and holds
      none of the characters the text lacks. */
  lemma UnsignKeepsAbsent(s: string, c: char)
    requires c !in s
    ensures c !in Unsign(Strip(s)) && |Unsign(Strip(s))| <= |s|
  {
    var t := Strip(s);
    StripSlice(s);
    StripKeepsAbsent(s, c);
    var b := Unsign(t);
    if b != t {
      assert forall i :: 0 <= i < |b| ==> b[i] == t[i + 1];
    }
  }


  /** A finite literal is its unsigned part's value, with the sign. */
  lemma LiteralFinite(s: string)
    requires Literal(s).Some? && Literal(s).value.Finite?
    ensures var b := Unsign(Strip(s));
      && Unsigned(b).Some? && Unsigned(b).value.Finite?
      && Abs(Literal(s).value.num) == Unsigned(b).value.num
  {
    var t := Strip(s);
    var b := Unsign(t);
    var w := Lower(b);
    assert !(w == "inf" || w == "infinity") && w != "nan";
    assert Unsigned(b).Some? && Unsigned(b).value.Finite?;
    var n := Unsigned(b).value.num;
    assert Literal(s).value.num == if |t| > 0 && t[0] == '-' then -n else n;
  }

  /** The first character of the (sign-less) stripped text is a character
      of the text; when it lower-cases to 'i', the text holds 'i' or 'I'. */
  lemma LetterFromStripped(s: string, b: string)
    requires var t := Strip(s); b == t || (|t| > 0 && b == t[1..])
    requires |b| > 0 && LowerChar(b[0]) == 'i'
    ensures 'i' in s || 'I' in s
  {
    var t := Strip(s);
    if b == t {
      StripCharIn(s, 0);
    } else {
      StripCharIn(s, 1);
    }
  }


  /** `int(x * scale)` for `x = float(...)`: truncation toward zero of the
      exact product. `None` where `int()` raises OverflowError, on an
      infinity or on a product beyond the double range; a ValueError (a
      NaN, or an unreadable text) gives 0, as `_parse_stars` catches it. */
  function Scaled(v: Option<FloatValue>, scale: nat): (r: Option<int>)
    ensures r.None? <==>
      v == Some(Infinity) || (v.Some? && v.value.Finite? && v.value.den > 0 && Overflows(v.value.num * scale, v.value.den))
    ensures r.Some? && (v.None? || v == Some(NotANumber)) ==> r.value == 0
    ensures r.Some? && v.Some? && v.value.Finite? && v.value.den > 0 ==>
      var x := v.value.num * scale;
      && Abs(r.value) * v.value.den <= Abs(x) < (Abs(r.value) + 1) * v.value.den
      && (r.value > 0 ==> x > 0) && (r.value < 0 ==> x < 0)
  {
    match v
    case None => Some(0)
    case Some(NotANumber) => Some(0)
    case Some(Infinity) => None
    case Some(Finite(n, d)) =>
      if d == 0 then Some(0)
      else if Overflows(n * scale, d) then None
      else Some(Truncate(n * scale, d))
  }

  /** Python's `int()` of the quotient `x / d`: it rounds toward zero. */
  function Truncate(x: int, d: nat): (q: int)
    requires d > 0
    ensures Abs(q) * d <= Abs(x) < (Abs(q) + 1) * d
    ensures (q > 0 ==> x > 0) && (q < 0 ==> x < 0)
  {
    var a := Abs(x);
    DivBounds(a, d);
    var q := a / d;
    if x >= 0 then q else -q
  }

  /** Integer division rounds down: `d * (x / d) <= x < d * (x / d + 1)`. */
  lemma DivBounds(x: nat, d: nat)
    requires d > 0
    ensures x / d >= 0 && (x / d) * d <= x < (x / d + 1) * d
    ensures x / d > 0 ==> x > 0
  {
    var q := x / d;
    assert x == d * q + x % d;
  }

  /** The star text trimmed, lower-cased and without commas. */
  function CleanStars(text: string): string {
    Replace(Lower(Strip(text)), ",", "")
  }

  /** The number part of a cleaned star text: without its final "k" or
      "m". */
  function StarNumber(t: string): (b: string)
    ensures b <= t
  {
    if |t| > 0 && (t[|t| - 1] == 'k' || t[|t| - 1] == 'm') then t[..|t| - 1] else t
  }

  /** What the final letter of a cleaned star text multiplies by. */
  function StarScale(t: string): (m: nat)
    ensures 1 <= m <= 1000000
  {
    if |t| > 0 && t[|t| - 1] == 'k' then 1000 else if |t| > 0 && t[|t| - 1] == 'm' then 1000000 else 1
  }

  /** The star text makes `_parse_stars` raise OverflowError: its number
      spells an infinity, or its exact value, scaled, is beyond the double
      range. */
  predicate StarsOverflow(text: string) {
    var t := CleanStars(text);
    match Literal(StarNumber(t))
    case Some(Infinity) => true
    case Some(Finite(n, d)) => Overflows(n * StarScale(t), d)
    case _ => false
  }

  /** `_parse_stars`: trimmed, lower-cased, commas dropped; empty gives 0;
      a trailing "k" or "m" scales by a thousand or a million. `None`
      stands for the OverflowError that escapes it. */
  function ParseStars(text: string): (r: Option<int>)
    ensures r.None? <==> StarsOverflow(text)
  {
    var t := CleanStars(text);
    if t == [] then
      assert Literal(StarNumber(t)).None? by { assert Mantissa([]).None?; }
      Some(0)
    else
      var b := StarNumber(t);
      var scale := StarScale(t);
      match Literal(b)
      case Some(Finite(n, d)) =>
        OverflowScaled(n, d, scale);
        Scaled(ParseFloat(b), scale)
      case _ => Scaled(ParseFloat(b), scale)
  }

  /** A value beyond the double range stays beyond it when scaled up. */
  lemma OverflowScaled(n: int, d: nat, scale: nat)
    requires scale >= 1
    ensures Overflows(n, d) ==> Overflows(n * scale, d)
  {
    AbsMul(n, scale);
    MulAtLeast(Abs(n), scale);
  }

  lemma AbsMul(n: int, m: nat)
    ensures Abs(n * m) == Abs(n) * m
  {
    if n < 0 {
      assert n * m == -(Abs(n) * m);
    }
  }

  lemma MulAtLeast(a: nat, m: nat)
    requires m >= 1
    ensures a * m >= a
  {
  }

  /** A value below 10^300, scaled by at most a million, is inside the
      double range. */
  lemma WithinRange(n: int, scale: nat, d: nat)
    requires Abs(n) < Pow10(300) && 1 <= scale <= 1000000 && d >= 1
    ensures !Overflows(n, d) && !Overflows(n * scale, d)
  {
    var p := Pow10(300);
    Pow10Limit();
    Pow10Add(300, 6);
    Pow10Six();
    AbsMul(n, scale);
    MulBelow(Abs(n), scale, p, 1000000);
    MulAtLeast(FLOAT_LIMIT, d);
    MulAtLeast(p, 1000000);
  }

  lemma MulBelow(a: nat, b: nat, c: nat, e: nat)
    requires a < c && b <= e
    ensures a * b < c * e || (b == 0 && a * b == 0)
  {
    if b > 0 {
      assert a * b <= a * e;
      assert a * e < c * e;
    }
  }

  /** A letter, in either case, in a prefix of the cleaned star text was
      in the raw text. */
  lemma LetterFromText(text: string, t: string, body: string, lo: char)
    requires t == CleanStars(text) && body <= t && 'a' <= lo <= 'z'
    ensures var up := (lo as int - 32) as char;
      lo in body || up in body ==> lo in text || up in text
  {
    var up := (lo as int - 32) as char;
    if lo in body || up in body {
      var c := if lo in body then lo else up;
      var l := Lower(Strip(text));
      ReplaceDeletes(l, ",", c);
      var j :| 0 <= j < |l| && l[j] == c;
      StripCharIn(text, j);
      var x := Strip(text)[j];
      assert LowerChar(x) == c;
      assert x == lo || x == up;
    }
  }

  /** Every character of the stripped text is a character of the text. */
  lemma StripCharIn(s: string, j: int)
    requires 0 <= j < |Strip(s)|
    ensures Strip(s)[j] in s
  {
    var k := |s| - |LStrip(s)|;
    assert 0 <= k + j < |s| && Strip(s)[j] == s[k + j] by {
      StripSlice(s);
      var w := s[k..k + |Strip(s)|];
      assert Strip(s) == w;
      assert w[j] == s[k + j];
    }
  }

  /** Characters a scraped star token is made of: `[\d,.]`. */
  predicate IsStarChar(c: char) {
    IsDigit(c) || c == ',' || c == '.'
  }

  /** A scraped star token (digits, commas and points, maybe ending in k,
      K, m or M) of at most 300 characters reads as a number: there
      `_parse_stars` never raises. */
  lemma StarTokenReads(tok: string)
    requires forall i :: 0 <= i < |tok| ==> IsStarChar(tok[i]) || (i == |tok| - 1 && tok[i] in "kKmM")
    requires |tok| <= 300
    ensures ParseStars(tok).Some?
  {
    forall j | 0 <= j < |tok|
      ensures tok[j] != 'i' && tok[j] != 'I' && tok[j] != 'e' && tok[j] != 'E'
    {
    }
    ShortStarsRead(tok);
  }

  /** A star text of at most 300 characters with no exponent and no
      infinity never makes `_parse_stars` raise: its number is below
      10^300, and a million times that is inside the double range. */
  /** The number part of such a star text keeps its bounds. */
  lemma ShortStarNumber(text: string)
    requires 'i' !in text && 'I' !in text && 'e' !in text && 'E' !in text && |text| <= 300
    ensures var b := StarNumber(CleanStars(text));
      'i' !in b && 'I' !in b && 'e' !in b && 'E' !in b && |b| <= 300
  {
    var t := CleanStars(text);
    var b := StarNumber(t);
    LetterFromText(text, t, b, 'i');
    LetterFromText(text, t, b, 'e');
    StripSlice(text);
    ReplaceEmptyShrinks(Lower(Strip(text)), ",");
  }

  lemma ShortStarsRead(text: string)
    requires 'i' !in text && 'I' !in text && 'e' !in text && 'E' !in text && |text| <= 300
    ensures ParseStars(text).Some?
  {
    var t := CleanStars(text);
    var b := StarNumber(t);
    ShortStarNumber(text);
    match Literal(b)
    case Some(Finite(n, d)) =>
      LiteralBelow(b);
      Pow10Monotone(|b|, 300);
      WithinRange(n, StarScale(t), d);
    case _ =>
  }

  /** A text of plain digits (and points) is its own cleaned form. */
  lemma CleanNumber(s: string)
    requires |s| > 0 && IsDigit(s[0]) && !IsSpace(s[|s| - 1])
    requires forall i :: 0 <= i < |s| ==> IsDigit(s[i]) || s[i] == '.' || s[i] == 'k'
    ensures Strip(s) == s && Lower(s) == s && Replace(Lower(Strip(s)), ",", "") == s
  {
    assert forall i :: 0 <= i < |s| ==> Lower(s)[i] == s[i];
    ContainsChar(s, ',');
    ReplaceAbsent(s, ",", "");
  }

  /** A run of plain digits holds no point, no exponent mark and no
      trailing scale letter. */
  lemma PlainDigits(s: string)
    requires |s| > 0 && forall i :: 0 <= i < |s| ==> IsDigit(s[i])
    ensures '.' !in s && 'e' !in s && 'E' !in s && Config.IsDigitPart(s)
    ensures Lower(s) == s && Strip(s) == s
  {
    forall j | 0 <= j < |s|
      ensures s[j] != '.' && s[j] != 'e' && s[j] != 'E' && Lower(s)[j] == s[j]
    {
      assert IsDigit(s[j]);
    }
    assert !IsSpace(s[0]) && !IsSpace(s[|s| - 1]) by {
      assert IsDigit(s[0]) && IsDigit(s[|s| - 1]);
    }
  }

  /** A text that starts with a digit and is its own stripped form reads
      as its unsigned literal. */
  lemma ParseFloatUnsigned(b: string)
    requires |b| > 0 && IsDigit(b[0]) && Strip(b) == b
    ensures Literal(b) == Unsigned(b)
  {
    var w := Lower(b);
    assert w[0] == LowerChar(b[0]) == b[0];
    assert w != "inf" && w != "infinity" && w != "nan" by {
      assert |w| > 0 && w[0] != 'i' && w[0] != 'n';
    }
  }

  /** Plain digits are a mantissa with nothing after the point. */
  lemma UnsignedDigits(s: string)
    requires |s| > 0 && forall i :: 0 <= i < |s| ==> IsDigit(s[i])
    ensures Unsigned(s) == Some(Finite(Config.DigitsValue(s), 1))
  {
    PlainDigits(s);
    ContainsChar(s, '.');
    assert FindExp(s) == -1;
    var v := Config.DigitsValue(s);
    assert Mantissa(s) == Some((v, 0));
    assert Pow10(0) == 1 && v * 1 == v;
  }

  /** A text that is its own cleaned form, ending in neither scale letter,
      reads as `float` of itself, unscaled. */
  lemma ParseStarsUnscaled(s: string)
    requires |s| > 0 && Replace(Lower(Strip(s)), ",", "") == s && s[|s| - 1] != 'k' && s[|s| - 1] != 'm'
    ensures ParseStars(s) == Scaled(ParseFloat(s), 1)
  {
  }

  /** Plain digits are their own cleaned star text, with no scale letter. */
  lemma DigitsUnscaled(s: string)
    requires |s| > 0 && forall i :: 0 <= i < |s| ==> IsDigit(s[i])
    ensures ParseStars(s) == Scaled(ParseFloat(s), 1)
  {
    PlainDigits(s);
    CleanNumber(s);
    assert IsDigit(s[|s| - 1]);
    ParseStarsUnscaled(s);
  }

  /** Plain digits spell the whole number they write; `float` reads it, or
      an infinity when it is beyond the double range. */
  lemma DigitsFloat(s: string)
    requires |s| > 0 && forall i :: 0 <= i < |s| ==> IsDigit(s[i])
    ensures Literal(s) == Some(Finite(Config.DigitsValue(s), 1))
    ensures ParseFloat(s) == if Config.DigitsValue(s) < FLOAT_LIMIT then Some(Finite(Config.DigitsValue(s), 1)) else Some(Infinity)
  {
    PlainDigits(s);
    UnsignedDigits(s);
    ParseFloatUnsigned(s);
  }

  /** Plain digits read as the number they spell while it is inside the
      double range; beyond it `float` gives an infinity and `int` raises. */
  lemma ParseStarsDigits(s: string)
    requires |s| > 0 && forall i :: 0 <= i < |s| ==> IsDigit(s[i])
    ensures ParseStars(s) == if Config.DigitsValue(s) < FLOAT_LIMIT then Some(Config.DigitsValue(s)) else None
  {
    DigitsUnscaled(s);
    DigitsFloat(s);
    if Config.DigitsValue(s) < FLOAT_LIMIT {
      ScaledWhole(Config.DigitsValue(s));
    }
  }

  /** A whole number inside the double range, unscaled, is itself. */
  lemma ScaledWhole(v: nat)
    requires v < FLOAT_LIMIT
    ensures Scaled(Some(Finite(v, 1)), 1) == Some(v)
  {
  }

  /** A whole number written out reads back as itself ("52" is 52), up to
      the double range. */
  lemma ParseStarsWhole(n: nat)
    ensures ParseStars(NatToString(n)) == if n < FLOAT_LIMIT then Some(n) else None
  {
    Config.NatToStringDigitPart(n);
    ParseStarsDigits(NatToString(n));
  }

  // ----- SearchResult and the scraped links -------------------------------

  /** One repository found by a search. */
  datatype SearchResult = SearchResult(owner: string, repo: string, description: string, stars: int, codewikiUrl: string)
  {
    /** `full_name`: "owner/repo". */
    function FullName(): string {
      owner + "/" + repo
    }
  }

  /** A result link of the search page: its `href` (empty when absent) and
      its inner text. */
  datatype Link = Link(href: string, text: string)

  const GITHUB_PREFIX := "github.com/"

  /** `github\.com/([\w.\-]+)/([\w.\-]+)` anchored at index `p`: owner and
      repository are the longest name runs around the slash. */
  function MatchAt(href: string, p: nat): (r: Option<(string, string)>)
    ensures r.Some? ==> SliceAt(href, p, GITHUB_PREFIX)
    ensures r.Some? ==> |r.value.0| > 0 && |r.value.1| > 0
    ensures r.Some? ==> '/' !in r.value.0 && '/' !in r.value.1
  {
    if !SliceAt(href, p, GITHUB_PREFIX) then None
    else
      var o := p + |GITHUB_PREFIX|;
      var n := Types.NameRun(href[o..]);
      if n == 0 || o + n >= |href| || href[o + n] != '/' then None
      else
        var q := o + n + 1;
        var m := Types.NameRun(href[q..]);
        if m == 0 then None
        else
          RunHasNoSlash(href, o);
          RunHasNoSlash(href, q);
          Some((href[o..o + n], href[q..q + m]))
  }

  /** A match at `p` is the text `github.com/owner/repo` there. */
  lemma MatchAtSlice(href: string, p: nat)
    requires MatchAt(href, p).Some?
    ensures var r := MatchAt(href, p).value;
      SliceAt(href, p, GITHUB_PREFIX + r.0 + "/" + r.1)
  {
    var o := p + |GITHUB_PREFIX|;
    var n := Types.NameRun(href[o..]);
    var m := Types.NameRun(href[o + n + 1..]);
    MatchSlice(href, p, n, m);
  }

  /** A name run starting at `o` holds no slash. */
  lemma RunHasNoSlash(href: string, o: nat)
    requires o <= |href|
    ensures o + Types.NameRun(href[o..]) <= |href|
    ensures '/' !in href[o..o + Types.NameRun(href[o..])]
  {
    var n := Types.NameRun(href[o..]);
    var run := href[o..o + n];
    forall i | 0 <= i < n ensures run[i] != '/' {
      assert run[i] == href[o..][i];
    }
  }

  /** The text a match at `p` covers: the prefix, the owner run, the slash
      and the repository run. */
  lemma MatchSlice(href: string, p: nat, n: nat, m: nat)
    requires SliceAt(href, p, GITHUB_PREFIX)
    requires p + |GITHUB_PREFIX| + n + 1 + m <= |href| && href[p + |GITHUB_PREFIX| + n] == '/'
    ensures var o := p + |GITHUB_PREFIX|;
      SliceAt(href, p, GITHUB_PREFIX + href[o..o + n] + "/" + href[o + n + 1..o + n + 1 + m])
  {
    var o := p + |GITHUB_PREFIX|;
    var q := o + n + 1;
    var owner, repo := href[o..o + n], href[q..q + m];
    assert SliceAt(href, o, owner);
    assert SliceAt(href, o + n, "/") by {
      assert href[o + n..o + n + 1] == [href[o + n]];
    }
    assert SliceAt(href, q, repo);
    SliceConcat(href, p, GITHUB_PREFIX, owner);
    SliceConcat(href, p, GITHUB_PREFIX + owner, "/");
    SliceConcat(href, p, GITHUB_PREFIX + owner + "/", repo);
  }

  /** `re.search` of that pattern from index `p` on: the leftmost match. */
  function GithubMatchFrom(href: string, p: nat): (r: Option<(string, string)>)
    ensures r.Some? ==> exists k :: p <= k <= |href| && MatchAt(href, k) == r
    ensures r.None? <==> forall k :: p <= k <= |href| ==> MatchAt(href, k).None?
    decreases |href| - p
  {
    if p > |href| then None
    else if MatchAt(href, p).Some? then MatchAt(href, p)
    else GithubMatchFrom(href, p + 1)
  }

  /** The (owner, repo) pair a result link points at, if any. */
  function GithubMatch(href: string): (r: Option<(string, string)>)
    ensures r.None? ==> forall k :: 0 <= k <= |href| ==> MatchAt(href, k).None?
  {
    GithubMatchFrom(href, 0)
  }

  /** A found pair occurs in the href as `github.com/owner/repo`. */
  lemma GithubMatchOccurs(href: string)
    requires GithubMatch(href).Some?
    ensures var r := GithubMatch(href).value;
      Contains(href, GITHUB_PREFIX + r.0 + "/" + r.1)
  {
    var k :| 0 <= k <= |href| && MatchAt(href, k) == GithubMatch(href);
    MatchAtSlice(href, k);
  }

  /** Length of the longest suffix of `[\d,.]` characters. */
  function StarRun(s: string): (n: nat)
    ensures n <= |s|
    ensures forall i :: |s| - n <= i < |s| ==> IsStarChar(s[i])
    ensures n < |s| ==> !IsStarChar(s[|s| - n - 1])
    decreases |s|
  {
    if |s| == 0 || !IsStarChar(s[|s| - 1]) then 0
    else
      var k := StarRun(s[..|s| - 1]);
      assert forall i :: |s| - 1 - k <= i < |s| - 1 ==> s[i] == s[..|s| - 1][i];
      k + 1
  }

  /** `([\d,.]+[kKmM]?)\s*$` searched in a stripped text: the longest run
      of star characters at the end, with the final scale letter if there
      is one. */
  function StarToken(t: string): (r: Option<string>)
    ensures r.Some? ==> 0 < |r.value| <= |t| && r.value == t[|t| - |r.value|..]
    ensures r.Some? ==> forall i :: 0 <= i < |r.value| ==>
      IsStarChar(r.value[i]) || (i == |r.value| - 1 && r.value[i] in "kKmM")
  {
    if |t| > 0 && t[|t| - 1] in "kKmM" then
      var body := t[..|t| - 1];
      var n := StarRun(body);
      if n == 0 then None
      else
        assert body[|body| - n..] + [t[|t| - 1]] == t[|t| - n - 1..];
        Some(body[|body| - n..] + [t[|t| - 1]])
    else
      var n := StarRun(t);
      if n == 0 then None else Some(t[|t| - n..])
  }

  /** The star count shown at the end of a link's (stripped) text; 0 when
      there is none, `None` when reading it raises. */
  function LinkStars(text: string): (r: Option<int>)
    ensures r.None? ==> StarToken(text).Some? && StarsOverflow(StarToken(text).value)
  {
    match StarToken(text)
    case None => Some(0)
    case Some(tok) => ParseStars(tok)
  }

  /** The result one link yields, before the duplicate check: skipped
      without a GitHub path, or when its star count raises (the loop's
      `except Exception`); otherwise the description is the stripped text
      cut to 200 characters, and a relative href is put behind the base
      address. */
  function ScrapedResult(l: Link, baseUrl: string): (r: Option<SearchResult>)
    ensures r.None? <==> GithubMatch(l.href).None? || LinkStars(Strip(l.text)).None?
    ensures r.Some? ==> (r.value.owner, r.value.repo) == GithubMatch(l.href).value
    ensures r.Some? ==> |r.value.description| <= 200 && r.value.description <= Strip(l.text)
    ensures r.Some? ==> r.value.codewikiUrl == if "http" <= l.href then l.href else baseUrl + l.href
  {
    match GithubMatch(l.href)
    case None => None
    case Some((owner, repo)) =>
      var text := Strip(l.text);
      var url := if "http" <= l.href then l.href else baseUrl + l.href;
      match LinkStars(text)
      case None => None
      case Some(stars) => Some(SearchResult(owner, repo, PyPrefix(text, 200), stars, url))
  }

  /** A link whose text has at most 300 characters is skipped only for
      want of a GitHub path: its star count always reads. */
  lemma ShortTextKept(l: Link, baseUrl: string)
    requires |l.text| <= 300
    ensures ScrapedResult(l, baseUrl).None? <==> GithubMatch(l.href).None?
  {
    var text := Strip(l.text);
    StripSlice(l.text);
    match StarToken(text)
    case None =>
    case Some(tok) => StarTokenReads(tok);
  }

  /** Some result in `rs` already names this owner and repository. */
  predicate HasPair(rs: seq<SearchResult>, owner: string, repo: string) {
    exists i :: 0 <= i < |rs| && rs[i].owner == owner && rs[i].repo == repo
  }

  /** No two results name the same owner and repository. */
  predicate DistinctPairs(rs: seq<SearchResult>) {
    forall i, j :: 0 <= i < j < |rs| ==> !(rs[i].owner == rs[j].owner && rs[i].repo == rs[j].repo)
  }

  /** What each link yields, in order. */
  function Scraped(links: seq<Link>, baseUrl: string): (r: seq<Option<SearchResult>>)
    ensures |r| == |links|
    ensures forall k :: 0 <= k < |links| ==> r[k] == ScrapedResult(links[k], baseUrl)
  {
    seq(|links|, k requires 0 <= k < |links| => ScrapedResult(links[k], baseUrl))
  }

  /** The duplicate check of the link loop: a yielded result whose pair is
      already present is skipped. */
  function Dedup(found: seq<Option<SearchResult>>): (r: seq<SearchResult>)
    ensures |r| <= |found|
    decreases |found|
  {
    if |found| == 0 then []
    else
      var acc := Dedup(found[..|found| - 1]);
      match found[|found| - 1]
      case None => acc
      case Some(sr) =>
        if HasPair(acc, sr.owner, sr.repo) then acc else acc + [sr]
  }

  /** The link loop of `_scrape_search_results`: each link's result, minus
      the repeated pairs. `ResultsDistinct`, `ResultsFromLinks` and
      `FirstOccurrenceKept` state what the results are. */
  function LinkResults(links: seq<Link>, baseUrl: string): (r: seq<SearchResult>)
    ensures |r| <= |links|
  {
    Dedup(Scraped(links, baseUrl))
  }

  lemma {:induction false} DedupDistinct(found: seq<Option<SearchResult>>)
    ensures DistinctPairs(Dedup(found))
    decreases |found|
  {
    if |found| > 0 {
      var acc := Dedup(found[..|found| - 1]);
      DedupDistinct(found[..|found| - 1]);
      match found[|found| - 1]
      case None =>
      case Some(sr) =>
        if !HasPair(acc, sr.owner, sr.repo) {
          AppendDistinct(acc, sr);
        }
    }
  }

  /** A result whose pair is new keeps the pairs distinct. */
  lemma AppendDistinct(acc: seq<SearchResult>, sr: SearchResult)
    requires DistinctPairs(acc) && !HasPair(acc, sr.owner, sr.repo)
    ensures DistinctPairs(acc + [sr])
  {
    var r := acc + [sr];
    forall i, j | 0 <= i < j < |r|
      ensures !(r[i].owner == r[j].owner && r[i].repo == r[j].repo)
    {
      assert r[i] == acc[i];
      if j == |acc| {
        assert r[j] == sr;
      } else {
        assert r[j] == acc[j];
      }
    }
  }

  lemma {:induction false} DedupFrom(found: seq<Option<SearchResult>>)
    ensures forall i :: 0 <= i < |Dedup(found)| ==> Some(Dedup(found)[i]) in found
    decreases |found|
  {
    if |found| > 0 {
      var prev := found[..|found| - 1];
      DedupFrom(prev);
      var r := Dedup(found);
      forall i | 0 <= i < |r|
        ensures Some(r[i]) in found
      {
        if i < |Dedup(prev)| {
          assert r[i] == Dedup(prev)[i];
          assert Some(r[i]) in prev;
        } else {
          assert found[|found| - 1] == Some(r[i]);
        }
      }
    }
  }

  /** A pair no yielded result names is not in the results. */
  lemma DedupNoPair(found: seq<Option<SearchResult>>, owner: string, repo: string)
    requires forall j :: 0 <= j < |found| && found[j].Some? ==>
      found[j].value.owner != owner || found[j].value.repo != repo
    ensures !HasPair(Dedup(found), owner, repo)
  {
    var r := Dedup(found);
    DedupFrom(found);
    forall i | 0 <= i < |r|
      ensures !(r[i].owner == owner && r[i].repo == repo)
    {
      var j :| 0 <= j < |found| && found[j] == Some(r[i]);
    }
  }

  lemma {:induction false} DedupFirstKept(found: seq<Option<SearchResult>>, k: nat, sr: SearchResult)
    requires k < |found| && found[k] == Some(sr)
    requires forall j :: 0 <= j < k && found[j].Some? ==>
      found[j].value.owner != sr.owner || found[j].value.repo != sr.repo
    ensures sr in Dedup(found)
    decreases |found|
  {
    var prev := found[..|found| - 1];
    assert forall j :: 0 <= j < |prev| ==> prev[j] == found[j];
    if k == |found| - 1 {
      DedupNoPair(prev, sr.owner, sr.repo);
    } else {
      DedupFirstKept(prev, k, sr);
    }
  }

  /** No two results name the same owner and repository. */
  lemma ResultsDistinct(links: seq<Link>, baseUrl: string)
    ensures DistinctPairs(LinkResults(links, baseUrl))
  {
    DedupDistinct(Scraped(links, baseUrl));
  }

  /** Every result is what some link yields; so its description is at
      most 200 characters. */
  lemma ResultsFromLinks(links: seq<Link>, baseUrl: string)
    ensures forall i :: 0 <= i < |LinkResults(links, baseUrl)| ==>
      exists k :: 0 <= k < |links| && ScrapedResult(links[k], baseUrl) == Some(LinkResults(links, baseUrl)[i])
    ensures forall i :: 0 <= i < |LinkResults(links, baseUrl)| ==> |LinkResults(links, baseUrl)[i].description| <= 200
  {
    var found := Scraped(links, baseUrl);
    var r := LinkResults(links, baseUrl);
    DedupFrom(found);
    forall i | 0 <= i < |r|
      ensures exists k :: 0 <= k < |links| && ScrapedResult(links[k], baseUrl) == Some(r[i])
      ensures |r[i].description| <= 200
    {
      var k :| 0 <= k < |found| && found[k] == Some(r[i]);
      assert ScrapedResult(links[k], baseUrl) == Some(r[i]);
    }
  }

  /** Results only name pairs some link named. */
  lemma PairFromLinks(links: seq<Link>, baseUrl: string, owner: string, repo: string)
    requires forall j :: 0 <= j < |links| && ScrapedResult(links[j], baseUrl).Some? ==>
      ScrapedResult(links[j], baseUrl).value.owner != owner || ScrapedResult(links[j], baseUrl).value.repo != repo
    ensures !HasPair(LinkResults(links, baseUrl), owner, repo)
  {
    var found := Scraped(links, baseUrl);
    forall j | 0 <= j < |found| && found[j].Some?
      ensures found[j].value.owner != owner || found[j].value.repo != repo
    {
      assert found[j] == ScrapedResult(links[j], baseUrl);
    }
    DedupNoPair(found, owner, repo);
  }

  /** A link whose pair no earlier link had is in the results, exactly as
      it reads: the first occurrence of a pair is the one kept. */
  lemma FirstOccurrenceKept(links: seq<Link>, baseUrl: string, k: nat, sr: SearchResult)
    requires k < |links| && ScrapedResult(links[k], baseUrl) == Some(sr)
    requires forall j :: 0 <= j < k && ScrapedResult(links[j], baseUrl).Some? ==>
      ScrapedResult(links[j], baseUrl).value.owner != sr.owner || ScrapedResult(links[j], baseUrl).value.repo != sr.repo
    ensures sr in LinkResults(links, baseUrl)
  {
    var found := Scraped(links, baseUrl);
    forall j | 0 <= j < k && found[j].Some?
      ensures found[j].value.owner != sr.owner || found[j].value.repo != sr.repo
    {
      assert found[j] == ScrapedResult(links[j], baseUrl);
    }
    DedupFirstKept(found, k, sr);
  }

  /** `any(r.owner == owner and r.repo == repo for r in results)`. */
  method FindPair(rs: seq<SearchResult>, owner: string, repo: string) returns (found: bool)
    ensures found == HasPair(rs, owner, repo)
  {
    var i := 0;
    while i < |rs|
      invariant 0 <= i <= |rs|
      invariant forall j :: 0 <= j < i ==> !(rs[j].owner == owner && rs[j].repo == repo)
    {
      if rs[i].owner == owner && rs[i].repo == repo {
        return true;
      }
      i := i + 1;
    }
    return false;
  }

  /** The link loop of `_scrape_search_results` over the scraped links. */
  method ScrapeLinks(links: seq<Link>, baseUrl: string) returns (results: seq<SearchResult>)
    ensures results == LinkResults(links, baseUrl)
  {
    results := [];
    var i := 0;
    while i < |links|
      invariant 0 <= i <= |links|
      invariant results == LinkResults(links[..i], baseUrl)
    {
      LinkResultsStep(links, baseUrl, i);
      var found := ScrapedResult(links[i], baseUrl);
      if found.Some? {
        var dup := FindPair(results, found.value.owner, found.value.repo);
        if !dup {
          results := results + [found.value];
        }
      }
      i := i + 1;
    }
    assert links[..|links|] == links;
  }

  /** One more link extends the results by what it yields, unless its pair
      is already there. */
  lemma LinkResultsStep(links: seq<Link>, baseUrl: string, i: nat)
    requires i < |links|
    ensures var acc := LinkResults(links[..i], baseUrl);
      LinkResults(links[..i + 1], baseUrl) ==
        match ScrapedResult(links[i], baseUrl)
        case None => acc
        case Some(sr) => if HasPair(acc, sr.owner, sr.repo) then acc else acc + [sr]
  {
    var found := Scraped(links[..i + 1], baseUrl);
    assert found[..i] == Scraped(links[..i], baseUrl);
    assert found[i] == ScrapedResult(links[i], baseUrl);
  }


  // ----- GitHub API items --------------------------------------------------

  /** A decoded item of the GitHub search answer: `full_name` ("" when
      absent), `description` (absent or null as `None`) and
      `stargazers_count` (0 when absent). */
  datatype GithubItem = GithubItem(fullName: string, description: Option<string>, stars: int)

  /** One item as a search result: skipped without a "/", otherwise split
      at the first "/". */
  function ItemResult(item: GithubItem, baseUrl: string): (r: Option<SearchResult>)
    ensures r.None? <==> '/' !in item.fullName
    ensures r.Some? ==> r.value.FullName() == item.fullName && '/' !in r.value.owner
    ensures r.Some? ==> |r.value.description| <= 200 && r.value.stars == item.stars
    ensures r.Some? ==> r.value.codewikiUrl == baseUrl + "/github.com/" + item.fullName
  {
    var name := item.fullName;
    var k := FindChar(name, '/');
    if k == -1 then None
    else
      var description := match item.description case None => "" case Some(d) => d;
      assert name[..k] + "/" + name[k + 1..] == name;
      Some(SearchResult(name[..k], name[k + 1..], PyPrefix(description, 200), item.stars,
                        baseUrl + "/github.com/" + name))
  }

  /** The items mapped in order, those without a "/" dropped.
      `ItemResultsKeepAll` and `ItemResultsFrom` state what the results
      are. */
  function ItemResults(items: seq<GithubItem>, baseUrl: string): (r: seq<SearchResult>)
    ensures |r| <= |items|
    decreases |items|
  {
    if |items| == 0 then []
    else
      var acc := ItemResults(items[..|items| - 1], baseUrl);
      match ItemResult(items[|items| - 1], baseUrl)
      case None => acc
      case Some(sr) => acc + [sr]
  }

  /** No item is lost when every name holds a "/". */
  lemma {:induction false} ItemResultsKeepAll(items: seq<GithubItem>, baseUrl: string)
    requires forall k :: 0 <= k < |items| ==> '/' in items[k].fullName
    ensures |ItemResults(items, baseUrl)| == |items|
    decreases |items|
  {
    if |items| > 0 {
      var prev := items[..|items| - 1];
      assert forall k :: 0 <= k < |prev| ==> prev[k] == items[k];
      ItemResultsKeepAll(prev, baseUrl);
      assert ItemResult(items[|items| - 1], baseUrl).Some?;
    }
  }

  /** Every result is what some item yields. */
  lemma {:induction false} ItemResultsFrom(items: seq<GithubItem>, baseUrl: string)
    ensures forall i :: 0 <= i < |ItemResults(items, baseUrl)| ==>
      exists k :: 0 <= k < |items| && ItemResult(items[k], baseUrl) == Some(ItemResults(items, baseUrl)[i])
    decreases |items|
  {
    var r := ItemResults(items, baseUrl);
    if |items| > 0 {
      var prev := items[..|items| - 1];
      var acc := ItemResults(prev, baseUrl);
      ItemResultsFrom(prev, baseUrl);
      forall i | 0 <= i < |r|
        ensures exists k :: 0 <= k < |items| && ItemResult(items[k], baseUrl) == Some(r[i])
      {
        if i < |acc| {
          assert r[i] == acc[i];
          var k :| 0 <= k < |prev| && ItemResult(prev[k], baseUrl) == Some(acc[i]);
          assert items[k] == prev[k];
        } else {
          var k := |items| - 1;
          assert ItemResult(items[k], baseUrl) == Some(r[i]);
        }
      }
    } else {
      assert |r| == 0;
    }
  }

  /** The first `maxResults` items (Python slicing), mapped. */
  function GithubResults(items: seq<GithubItem>, maxResults: int, baseUrl: string): (r: seq<SearchResult>)
    ensures maxResults >= 0 ==> |r| <= maxResults
  {
    ItemResults(PyPrefix(items, maxResults), baseUrl)
  }

  /** Each result names one of the items, with a description of at most
      200 characters. */
  lemma GithubResultsNames(items: seq<GithubItem>, maxResults: int, baseUrl: string)
    ensures var r := GithubResults(items, maxResults, baseUrl);
      forall i :: 0 <= i < |r| ==> r[i].FullName() in Fulls(items) && |r[i].description| <= 200
  {
    var top := PyPrefix(items, maxResults);
    var r := ItemResults(top, baseUrl);
    ItemResultsFrom(top, baseUrl);
    forall i | 0 <= i < |r|
      ensures r[i].FullName() in Fulls(items) && |r[i].description| <= 200
    {
      var k :| 0 <= k < |top| && ItemResult(top[k], baseUrl) == Some(r[i]);
      assert top[k] == items[k];
      assert Fulls(items)[k] == items[k].fullName;
    }
  }

  /** The `full_name` of every item. */
  function Fulls(items: seq<GithubItem>): (r: seq<string>)
    ensures |r| == |items| && forall k :: 0 <= k < |items| ==> r[k] == items[k].fullName
  {
    seq(|items|, k requires 0 <= k < |items| => items[k].fullName)
  }

  /** `_github_search` on the decoded answer: the first `maxResults` items
      go through the item loop. */
  method GithubSearchResults(items: seq<GithubItem>, maxResults: int, baseUrl: string) returns (results: seq<SearchResult>)
    ensures results == GithubResults(items, maxResults, baseUrl)
  {
    var top := PyPrefix(items, maxResults);
    results := MapItems(top, baseUrl);
  }

  /** The item loop of `_github_search`. */
  method MapItems(top: seq<GithubItem>, baseUrl: string) returns (results: seq<SearchResult>)
    ensures results == ItemResults(top, baseUrl)
  {
    results := [];
    var i := 0;
    while i < |top|
      invariant 0 <= i <= |top|
      invariant results == ItemResults(top[..i], baseUrl)
    {
      ItemResultsStep(top, baseUrl, i);
      results := AppendItem(results, top[i], baseUrl);
      i := i + 1;
    }
    assert top[..|top|] == top;
  }

  /** One pass of the item loop: the item's result appended, if any. */
  method AppendItem(results: seq<SearchResult>, item: GithubItem, baseUrl: string) returns (next: seq<SearchResult>)
    ensures next == match ItemResult(item, baseUrl)
      case None => results
      case Some(sr) => results + [sr]
  {
    var r := ItemResult(item, baseUrl);
    next := results;
    if r.Some? {
      next := results + [r.value];
    }
  }

  /** One more item extends the results by what it yields. */
  lemma ItemResultsStep(items: seq<GithubItem>, baseUrl: string, i: nat)
    requires i < |items|
    ensures ItemResults(items[..i + 1], baseUrl) ==
      match ItemResult(items[i], baseUrl)
      case None => ItemResults(items[..i], baseUrl)
      case Some(sr) => ItemResults(items[..i], baseUrl) + [sr]
  {
    assert items[..i + 1][..i] == items[..i];
  }

  // ----- _select_best_match --------------------------------------------------

  /** A list comprehension `[r for r in rs if p(r)]`. */
  function Filter(rs: seq<SearchResult>, p: SearchResult -> bool): (r: seq<SearchResult>)
    ensures |r| <= |rs|
    ensures forall x :: x in r ==> x in rs && p(x)
    ensures forall x :: x in rs && p(x) ==> x in r
    decreases |rs|
  {
    if |rs| == 0 then []
    else
      var prev := rs[..|rs| - 1];
      var acc := Filter(prev, p);
      assert forall x :: x in prev ==> x in rs;
      assert rs == prev + [rs[|rs| - 1]];
      if p(rs[|rs| - 1]) then acc + [rs[|rs| - 1]] else acc
  }

  /** `max(rs, key=lambda r: r.stars)`: Python keeps the first maximal
      element. */
  function MaxByStars(rs: seq<SearchResult>): (m: SearchResult)
    requires |rs| > 0
    ensures m in rs && forall x :: x in rs ==> x.stars <= m.stars
    decreases |rs|
  {
    if |rs| == 1 then rs[0]
    else
      var prev := rs[..|rs| - 1];
      var best := MaxByStars(prev);
      assert rs == prev + [rs[|rs| - 1]];
      if rs[|rs| - 1].stars > best.stars then rs[|rs| - 1] else best
  }

  /** `rs[i]` is the first element of highest stars among those with `p`. */
  predicate FirstBest(rs: seq<SearchResult>, p: SearchResult -> bool, i: int) {
    && 0 <= i < |rs| && p(rs[i])
    && (forall j :: 0 <= j < |rs| && p(rs[j]) ==> rs[j].stars <= rs[i].stars)
    && (forall j :: 0 <= j < i && p(rs[j]) ==> rs[j].stars < rs[i].stars)
  }

  /** An element at least as good as a later one keeps its place. */
  lemma FirstBestKeeps(rs: seq<SearchResult>, p: SearchResult -> bool, i: int)
    requires |rs| > 0 && FirstBest(rs[..|rs| - 1], p, i)
    requires p(rs[|rs| - 1]) ==> rs[|rs| - 1].stars <= rs[i].stars
    ensures FirstBest(rs, p, i)
  {
    var prev := rs[..|rs| - 1];
    assert forall j :: 0 <= j < |prev| ==> prev[j] == rs[j];
  }

  /** A later element better than every earlier one takes over. */
  lemma FirstBestTakes(rs: seq<SearchResult>, p: SearchResult -> bool, i: int)
    requires |rs| > 0 && FirstBest(rs[..|rs| - 1], p, i)
    requires p(rs[|rs| - 1]) && rs[|rs| - 1].stars > rs[i].stars
    ensures FirstBest(rs, p, |rs| - 1)
  {
    var prev := rs[..|rs| - 1];
    assert forall j :: 0 <= j < |prev| ==> prev[j] == rs[j];
  }

  /** Nothing passes a filter that no element satisfies. */
  lemma {:induction false} FilterNone(rs: seq<SearchResult>, p: SearchResult -> bool)
    requires forall x :: x in rs ==> !p(x)
    ensures Filter(rs, p) == []
    decreases |rs|
  {
    if |rs| > 0 {
      var prev := rs[..|rs| - 1];
      assert forall x :: x in prev ==> x in rs;
      FilterNone(prev, p);
    }
  }

  /** One more element after a prefix whose best is known. */
  lemma MaxOfFilterStep(rs: seq<SearchResult>, p: SearchResult -> bool, i: int)
    requires |rs| > 0
    requires FirstBest(rs[..|rs| - 1], p, i)
    requires |Filter(rs[..|rs| - 1], p)| > 0 && MaxByStars(Filter(rs[..|rs| - 1], p)) == rs[i]
    ensures |Filter(rs, p)| > 0
    ensures exists k :: FirstBest(rs, p, k) && MaxByStars(Filter(rs, p)) == rs[k]
  {
    var prev := rs[..|rs| - 1];
    var last := rs[|rs| - 1];
    var f := Filter(prev, p);
    assert prev[i] == rs[i];
    if p(last) {
      assert Filter(rs, p) == f + [last];
      assert (f + [last])[..|f|] == f;
      if last.stars > rs[i].stars {
        FirstBestTakes(rs, p, i);
        assert MaxByStars(Filter(rs, p)) == rs[|rs| - 1];
      } else {
        FirstBestKeeps(rs, p, i);
        assert MaxByStars(Filter(rs, p)) == rs[i];
      }
    } else {
      assert Filter(rs, p) == f;
      FirstBestKeeps(rs, p, i);
    }
  }

  /** The first element with `p` when no earlier one has it. */
  lemma MaxOfFilterFirst(rs: seq<SearchResult>, p: SearchResult -> bool)
    requires |rs| > 0 && p(rs[|rs| - 1]) && Filter(rs[..|rs| - 1], p) == []
    requires forall x :: x in rs[..|rs| - 1] ==> !p(x)
    ensures |Filter(rs, p)| > 0
    ensures FirstBest(rs, p, |rs| - 1) && MaxByStars(Filter(rs, p)) == rs[|rs| - 1]
  {
    var prev := rs[..|rs| - 1];
    assert forall j :: 0 <= j < |prev| ==> prev[j] == rs[j] && prev[j] in prev;
    assert Filter(rs, p) == [rs[|rs| - 1]];
  }

  /** Filtering and then taking the maximum picks, among the elements with
      `p`, the first of highest stars. */
  lemma {:induction false} MaxOfFilter(rs: seq<SearchResult>, p: SearchResult -> bool)
    requires exists x :: x in rs && p(x)
    ensures |Filter(rs, p)| > 0
    ensures exists i :: FirstBest(rs, p, i) && MaxByStars(Filter(rs, p)) == rs[i]
    decreases |rs|
  {
    var prev := rs[..|rs| - 1];
    if exists x :: x in prev && p(x) {
      MaxOfFilter(prev, p);
      var i :| FirstBest(prev, p, i) && MaxByStars(Filter(prev, p)) == prev[i];
      assert prev[i] == rs[i];
      MaxOfFilterStep(rs, p, i);
    } else {
      assert rs == prev + [rs[|rs| - 1]];
      FilterNone(prev, p);
      MaxOfFilterFirst(rs, p);
    }
  }

  /** Owner and repository both equal the keyword, ignoring case. */
  function Canonical(kw: string): SearchResult -> bool {
    (r: SearchResult) => Lower(r.owner) == kw && Lower(r.repo) == kw
  }

  /** The repository name equals the keyword, ignoring case. */
  function RepoIs(kw: string): SearchResult -> bool {
    (r: SearchResult) => Lower(r.repo) == kw
  }

  /** The owner contains the keyword, ignoring case. */
  function OwnerHas(kw: string): SearchResult -> bool {
    (r: SearchResult) => Contains(Lower(r.owner), kw)
  }

  /** The repository name contains the keyword, ignoring case. */
  function RepoHas(kw: string): SearchResult -> bool {
    (r: SearchResult) => Contains(Lower(r.repo), kw)
  }

  /** The keyword as `_select_best_match` compares it. */
  function Normalised(keyword: string): string {
    Strip(Lower(keyword))
  }

  /** `_select_best_match`: the canonical tier, then the exact repository
      name, then the owner containing the keyword (preferring, within it,
      an exact repository name), then the repository containing it, each
      by most stars; else the first result. */
  function SelectBestMatch(keyword: string, results: seq<SearchResult>): (r: Option<SearchResult>)
    ensures r.None? <==> |results| == 0
    ensures r.Some? ==> r.value in results
  {
    var kw := Normalised(keyword);
    if |results| == 0 then None
    else
      var canonical := Filter(results, Canonical(kw));
      if |canonical| > 0 then Some(MaxByStars(canonical))
      else
        var exactRepo := Filter(results, RepoIs(kw));
        if |exactRepo| > 0 then Some(MaxByStars(exactRepo))
        else
          var ownerMatch := Filter(results, OwnerHas(kw));
          if |ownerMatch| > 0 then
            var ownerAndRepo := Filter(ownerMatch, RepoIs(kw));
            if |ownerAndRepo| > 0 then Some(MaxByStars(ownerAndRepo))
            else Some(MaxByStars(ownerMatch))
          else
            var repoContains := Filter(results, RepoHas(kw));
            if |repoContains| > 0 then Some(MaxByStars(repoContains))
            else Some(results[0])
  }

  /** The owner tier's preference for an exact repository name never
      applies: such a result was already taken at the exact-name tier. */
  lemma OwnerAndRepoUnreachable(kw: string, results: seq<SearchResult>)
    requires Filter(results, RepoIs(kw)) == []
    ensures Filter(Filter(results, OwnerHas(kw)), RepoIs(kw)) == []
  {
    var owners := Filter(results, OwnerHas(kw));
    forall x | x in owners
      ensures !RepoIs(kw)(x)
    {
      assert x in results;
    }
    FilterNone(owners, RepoIs(kw));
  }

  /** No result has `p`. */
  predicate NoneHas(results: seq<SearchResult>, p: SearchResult -> bool) {
    forall x :: x in results ==> !p(x)
  }

  /** The tiers in order: the first tier some result belongs to decides,
      and within it the first result of most stars wins; with no tier
      populated, the first result. */
  lemma SelectBestMatchTiers(keyword: string, results: seq<SearchResult>)
    requires |results| > 0
    ensures var kw := Normalised(keyword); var r := SelectBestMatch(keyword, results);
      && (!NoneHas(results, Canonical(kw)) ==>
            exists i :: FirstBest(results, Canonical(kw), i) && r == Some(results[i]))
      && (NoneHas(results, Canonical(kw)) && !NoneHas(results, RepoIs(kw)) ==>
            exists i :: FirstBest(results, RepoIs(kw), i) && r == Some(results[i]))
      && (NoneHas(results, Canonical(kw)) && NoneHas(results, RepoIs(kw)) && !NoneHas(results, OwnerHas(kw)) ==>
            exists i :: FirstBest(results, OwnerHas(kw), i) && r == Some(results[i]))
      && ((NoneHas(results, Canonical(kw)) && NoneHas(results, RepoIs(kw)) && NoneHas(results, OwnerHas(kw))
            && !NoneHas(results, RepoHas(kw))) ==>
            exists i :: FirstBest(results, RepoHas(kw), i) && r == Some(results[i]))
      && ((NoneHas(results, Canonical(kw)) && NoneHas(results, RepoIs(kw)) && NoneHas(results, OwnerHas(kw))
            && NoneHas(results, RepoHas(kw))) ==> r == Some(results[0]))
  {
    var kw := Normalised(keyword);
    if !NoneHas(results, Canonical(kw)) {
      MaxOfFilter(results, Canonical(kw));
      return;
    }
    FilterNone(results, Canonical(kw));
    if !NoneHas(results, RepoIs(kw)) {
      MaxOfFilter(results, RepoIs(kw));
      return;
    }
    FilterNone(results, RepoIs(kw));
    if !NoneHas(results, OwnerHas(kw)) {
      MaxOfFilter(results, OwnerHas(kw));
      OwnerAndRepoUnreachable(kw, results);
      return;
    }
    FilterNone(results, OwnerHas(kw));
    if !NoneHas(results, RepoHas(kw)) {
      MaxOfFilter(results, RepoHas(kw));
      return;
    }
    FilterNone(results, RepoHas(kw));
  }

  // ----- resolve_keyword and the interactive flow -------------------------------

  /** `resolve_keyword` over the results the search produced: no results
      give (None, []); otherwise the best match's full name and all the
      results. */
  function ResolveKeyword(keyword: string, results: seq<SearchResult>): (r: (Option<string>, seq<SearchResult>))
    ensures r.1 == results
    ensures r.0.Some? <==> |results| > 0
    ensures r.0.Some? ==> exists i :: 0 <= i < |results| && r.0.value == results[i].FullName()
  {
    match SelectBestMatch(keyword, results)
    case None => (None, [])
    case Some(best) => (Some(best.FullName()), results)
  }

  /** Index of the first canonical result, as `_has_canonical_match`
      finds it. */
  function FirstCanonical(kw: string, results: seq<SearchResult>): (r: Option<nat>)
    ensures r.None? <==> NoneHas(results, Canonical(kw))
    ensures r.Some? ==> r.value < |results| && Canonical(kw)(results[r.value])
    ensures r.Some? ==> forall j :: 0 <= j < r.value ==> !Canonical(kw)(results[j])
    decreases |results|
  {
    if |results| == 0 then None
    else if Canonical(kw)(results[0]) then Some(0)
    else
      match FirstCanonical(kw, results[1..])
      case None =>
        assert forall x :: x in results ==> x == results[0] || x in results[1..];
        None
      case Some(k) =>
        assert forall j :: 1 <= j < k + 1 ==> results[j] == results[1..][j - 1];
        Some(k + 1)
  }

  /** `_has_canonical_match`: the first result whose owner and repository
      both equal the keyword (not the most starred one). */
  method HasCanonicalMatch(keyword: string, results: seq<SearchResult>) returns (r: Option<SearchResult>)
    ensures var k := FirstCanonical(Normalised(keyword), results);
      r == if k.None? then None else Some(results[k.value])
  {
    var kw := Strip(Lower(keyword));
    var i := 0;
    while i < |results|
      invariant 0 <= i <= |results|
      invariant forall j :: 0 <= j < i ==> !Canonical(kw)(results[j])
    {
      if Lower(results[i].owner) == kw && Lower(results[i].repo) == kw {
        assert Canonical(kw)(results[i]) && results[i] in results;
        return Some(results[i]);
      }
      i := i + 1;
    }
    return None;
  }

  /** The first canonical result and the best match may differ, but when a
      canonical result exists the best match is canonical too. */
  lemma CanonicalAgreesInTier(keyword: string, results: seq<SearchResult>)
    requires FirstCanonical(Normalised(keyword), results).Some?
    ensures SelectBestMatch(keyword, results).Some?
    ensures Canonical(Normalised(keyword))(SelectBestMatch(keyword, results).value)
  {
    var kw := Normalised(keyword);
    SelectBestMatchTiers(keyword, results);
  }

  const MAX_ELICITATION_CHOICES := 6

  /** The options offered to the user: the full names of the first six
      results. */
  function ChoiceOptions(results: seq<SearchResult>): (r: seq<string>)
    ensures |r| == Min(MAX_ELICITATION_CHOICES, |results|)
    ensures forall i :: 0 <= i < |r| ==> r[i] == results[i].FullName()
  {
    var top := PyPrefix(results, MAX_ELICITATION_CHOICES);
    seq(|top|, i requires 0 <= i < |top| => top[i].FullName())
  }

  /** What the elicitation produced, when a context was there to ask:
      an accepted choice, a decline or cancel, or an exception. */
  datatype Elicitation = Chose(selection: string) | Declined | Failed

  /** The outcome of a resolution: the chosen "owner/repo" and the results
      it was chosen from. */
  datatype Resolution = Resolution(selected: Option<string>, results: seq<SearchResult>)

  /** `resolve_keyword_interactive`. `codewiki` and `github` are what the
      two searches return (`github` is only consulted when `codewiki` is
      empty); `asked` is `None` without a context, else what the
      elicitation produced. */
  method ResolveKeywordInteractive(keyword: string, codewiki: seq<SearchResult>, github: seq<SearchResult>,
                                   asked: Option<Elicitation>) returns (r: Resolution)
    ensures r.results == if |codewiki| > 0 then codewiki else github
    ensures r.selected.None? <==> |r.results| == 0
    ensures |r.results| == 1 ==> r.selected == Some(r.results[0].FullName())
    ensures var k := FirstCanonical(Normalised(keyword), r.results);
      |r.results| > 1 && k.Some? ==> r.selected == Some(r.results[k.value].FullName())
    ensures var k := FirstCanonical(Normalised(keyword), r.results);
      |r.results| > 1 && k.None? && asked.Some? && asked.value.Chose? && asked.value.selection != [] ==>
        r.selected == Some(asked.value.selection)
    ensures var k := FirstCanonical(Normalised(keyword), r.results);
      |r.results| > 1 && k.None? && !(asked.Some? && asked.value.Chose? && asked.value.selection != []) ==>
        r.selected == Some(SelectBestMatch(keyword, r.results).value.FullName())
  {
    var results := codewiki;
    if |results| == 0 {
      results := github;
      if |results| == 0 {
        return Resolution(None, []);
      }
    }
    if |results| == 1 {
      return Resolution(Some(results[0].FullName()), results);
    }
    var canonical := HasCanonicalMatch(keyword, results);
    if canonical.Some? {
      return Resolution(Some(canonical.value.FullName()), results);
    }
    if asked.Some? {
      match asked.value
      case Chose(selected) =>
        if selected != [] {
          return Resolution(Some(selected), results);
        }
      case Declined =>
      case Failed =>
    }
    var best := SelectBestMatch(keyword, results);
    return Resolution(Some(best.value.FullName()), results);
  }

  /** Without a context, the interactive flow is `resolve_keyword` on the
      same results except where it short-circuits on one result or a
      canonical one. */
  method InteractiveWithoutContext(keyword: string, results: seq<SearchResult>) returns (r: Resolution)
    requires |results| > 0 && FirstCanonical(Normalised(keyword), results).None?
    ensures r.selected == ResolveKeyword(keyword, results).0 && r.results == results
  {
    r := ResolveKeywordInteractive(keyword, results, [], None);
    if |results| == 1 {
      SelectBestMatchTiers(keyword, results);
    }
  }
}
