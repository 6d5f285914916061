/**
 * The text helpers of helpers.py that read material parameters out of a
 * DXF text entity: `extract_value` (helpers.py:52-74), which splits a
 * number from its units with the regular expression
 * `^([\d\s,\.]+)(.*)$`, and `extract_parameters` (helpers.py:77-97), which
 * reads the `E`, `A` and `I` lines of a multi-line text.
 *
 * Python's `float` is modelled exactly on the strings it can be given
 * here (digits, dots and whitespace), as a `real`.
 */
module TextParse {
  import opened Wrappers

  /** The exceptions these helpers raise. */
  datatype ParseError = IndexError | ValueError

  // ---------------------------------------------------------------------
  // Characters
  // ---------------------------------------------------------------------

  /** ASCII whitespace as Python's `str.isspace` and `\s` see it: tab to carriage return, 0x1c to 0x1f, space. */
  predicate IsSpace(c: char) {
    var n := c as int;
    n == 32 || 9 <= n <= 13 || 28 <= n <= 31
  }

  predicate IsDigit(c: char) {
    '0' <= c <= '9'
  }

  /** The character class `[\d\s,\.]` of the number part. */
  predicate InNumberClass(c: char) {
    IsDigit(c) || IsSpace(c) || c == ',' || c == '.'
  }

  /** `s.replace(c, '')`. */
  function Remove(s: string, c: char): (r: string)
    ensures c !in r
    ensures |r| <= |s|
  {
    if s == [] then []
    else
      var init := Remove(s[..|s| - 1], c);
      if s[|s| - 1] == c then init else init + [s[|s| - 1]]
  }

  /** Removing characters commutes with concatenation. */
  lemma {:induction false} RemoveAppend(s: string, t: string, c: char)
    ensures Remove(s + t, c) == Remove(s, c) + Remove(t, c)
    decreases |t|
  {
    if t != [] {
      var n := |t| - 1;
      assert (s + t)[..|s + t| - 1] == s + t[..n];
      RemoveAppend(s, t[..n], c);
    } else {
      assert s + t == s;
    }
  }

  /** Removing a character that does not occur changes nothing. */
  lemma {:induction false} RemoveAbsent(s: string, c: char)
    requires c !in s
    ensures Remove(s, c) == s
    decreases |s|
  {
    if s != [] {
      var n := |s| - 1;
      assert c !in s[..n];
      RemoveAbsent(s[..n], c);
      assert s[..n] + [s[n]] == s;
    }
  }

  // ---------------------------------------------------------------------
  // str.strip
  // ---------------------------------------------------------------------

  /** `s.lstrip()`: the suffix of `s` left after dropping leading whitespace. */
  function StripStart(s: string): (r: string)
    ensures |r| <= |s| && r == s[|s| - |r|..]
    ensures forall i :: 0 <= i < |s| - |r| ==> IsSpace(s[i])
    ensures r == [] || !IsSpace(r[0])
  {
    if s != [] && IsSpace(s[0]) then StripStart(s[1..]) else s
  }

  /** `s.rstrip()`: the prefix of `s` left after dropping trailing whitespace. */
  function StripEnd(s: string): (r: string)
    ensures |r| <= |s| && r == s[..|r|]
    ensures forall i :: |r| <= i < |s| ==> IsSpace(s[i])
    ensures r == [] || !IsSpace(r[|r| - 1])
  {
    if s != [] && IsSpace(s[|s| - 1]) then StripEnd(s[..|s| - 1]) else s
  }

  /** `s.strip()`. */
  function Strip(s: string): (r: string)
    ensures |r| <= |s|
    ensures r == [] <==> forall i :: 0 <= i < |s| ==> IsSpace(s[i])
    ensures r != [] ==> !IsSpace(r[0]) && !IsSpace(r[|r| - 1])
  {
    var t := StripStart(s);
    var r := StripEnd(t);
    assert r != [] ==> r[0] == t[0];
    r
  }

  /** A string that neither starts nor ends with whitespace is its own strip. */
  lemma StripUnchanged(s: string)
    requires s != [] && !IsSpace(s[0]) && !IsSpace(s[|s| - 1])
    ensures Strip(s) == s
  {
  }

  // ---------------------------------------------------------------------
  // Python's float() on digits, dots and whitespace
  // ---------------------------------------------------------------------

  function DigitValue(c: char): nat
    requires IsDigit(c)
  {
    (c as int - '0' as int) as nat
  }

  /** The number a run of decimal digits denotes. */
  function DigitsValue(ds: string): (r: nat)
    requires forall i :: 0 <= i < |ds| ==> IsDigit(ds[i])
  {
    if ds == [] then 0 else DigitsValue(ds[..|ds| - 1]) * 10 + DigitValue(ds[|ds| - 1])
  }

  function Pow10(n: nat): (r: nat)
    ensures r >= 1
  {
    if n == 0 then 1 else 10 * Pow10(n - 1)
  }

  predicate AllDigits(s: string) {
    forall i :: 0 <= i < |s| ==> IsDigit(s[i])
  }

  /** Index of the first `.` in `s`, or `|s|` when there is none. */
  function DotIndex(s: string): (r: nat)
    ensures r <= |s|
    ensures forall i :: 0 <= i < r ==> s[i] != '.'
    ensures r < |s| ==> s[r] == '.'
  {
    if s == [] then 0
    else if s[0] == '.' then 0
    else 1 + DotIndex(s[1..])
  }

  /**
   * `float(t)` where `t` holds only digits, dots and whitespace: after
   * stripping, an integer part and an optional fraction after one dot,
   * with at least one digit in all; anything else is a `ValueError`.
   */
  function ParseFloat(t: string): (r: Result<real, ParseError>)
    ensures r.Ok? ==> r.value >= 0.0
  {
    var s := Strip(t);
    var d := DotIndex(s);
    var whole := s[..d];
    var frac := if d < |s| then s[d + 1..] else [];
    if AllDigits(whole) && AllDigits(frac) && |whole| + |frac| >= 1 then Ok(Decimal(whole, frac))
    else Err(ValueError)
  }

  /** The value of the decimal numeral `whole.frac`. */
  function Decimal(whole: string, frac: string): (r: real)
    requires AllDigits(whole) && AllDigits(frac)
    ensures r >= 0.0
  {
    var q := DigitsValue(frac) as real / Pow10(|frac|) as real;
    assert q >= 0.0 by { NonNegativeQuotient(DigitsValue(frac), Pow10(|frac|)); }
    DigitsValue(whole) as real + q
  }

  lemma NonNegativeQuotient(a: nat, b: nat)
    requires b >= 1
    ensures a as real / b as real >= 0.0
  {
  }

  /**
   * `float` reads a numeral of digits, a dot and digits as its decimal
   * value, whichever side of the dot is empty, as long as one is not.
   */
  lemma ParseFloatDecimal(whole: string, frac: string)
    requires AllDigits(whole) && AllDigits(frac) && |whole| + |frac| >= 1
    ensures ParseFloat(whole + "." + frac) == Ok(Decimal(whole, frac))
  {
    var s := whole + "." + frac;
    StripUnchanged(s);
    DotIndexAt(s, |whole|);
    assert s[..|whole|] == whole && s[|whole| + 1..] == frac;
  }

  /** The first dot of `s` is at `d` when `s[d]` is a dot and no earlier character is. */
  lemma DotIndexAt(s: string, d: nat)
    requires d < |s| && s[d] == '.' && forall i :: 0 <= i < d ==> s[i] != '.'
    ensures DotIndex(s) == d
  {
  }

  /**
   * Reference form of the numerals `float` accepts here: digits and at
   * most one dot, with at least one digit.
   */
  predicate IsNumeral(s: string) {
    && (forall i :: 0 <= i < |s| ==> IsDigit(s[i]) || s[i] == '.')
    && (forall i, j :: 0 <= i < j < |s| && s[i] == '.' ==> s[j] != '.')
    && (exists i :: 0 <= i < |s| && IsDigit(s[i]))
  }

  /** `float(t)` succeeds exactly when the stripped text is a numeral. */
  lemma ParseFloatSpec(t: string)
    ensures ParseFloat(t).Ok? <==> IsNumeral(Strip(t))
  {
    var s := Strip(t);
    var d := DotIndex(s);
    NumeralParts(s, d, s[..d], if d < |s| then s[d + 1..] else []);
  }

  /** Splitting at the first dot finds digits on both sides, one at least, exactly for a numeral. */
  lemma NumeralParts(s: string, d: nat, whole: string, frac: string)
    requires d == DotIndex(s) && whole == s[..d] && frac == (if d < |s| then s[d + 1..] else [])
    ensures AllDigits(whole) && AllDigits(frac) && |whole| + |frac| >= 1 <==> IsNumeral(s)
  {
    if AllDigits(whole) && AllDigits(frac) && |whole| + |frac| >= 1 {
      PartsMakeNumeral(s, d, whole, frac);
    }
    if IsNumeral(s) {
      var i :| 0 <= i < |s| && IsDigit(s[i]);
      if d < |s| {
        assert forall m :: 0 <= m < |frac| ==> frac[m] == s[d + 1 + m];
      }
    }
  }

  lemma PartsMakeNumeral(s: string, d: nat, whole: string, frac: string)
    requires d == DotIndex(s) && whole == s[..d] && frac == (if d < |s| then s[d + 1..] else [])
    requires AllDigits(whole) && AllDigits(frac) && |whole| + |frac| >= 1
    ensures IsNumeral(s)
  {
    forall i | 0 <= i < |s|
      ensures IsDigit(s[i]) || (i == d && s[i] == '.')
    {
      if i < d {
        assert s[i] == whole[i];
      } else if i > d {
        assert s[i] == frac[i - d - 1];
      }
    }
    if whole != [] {
      assert IsDigit(s[0]);
    } else {
      assert IsDigit(s[d + 1]);
    }
  }

  /** A number part with two dots is a `ValueError`. */
  lemma TwoDotsRejected(a: string, b: string, c: string)
    requires AllDigits(a) && AllDigits(b) && AllDigits(c)
    ensures ParseFloat(a + "." + b + "." + c) == Err(ValueError)
  {
    var s := a + "." + b + "." + c;
    StripUnchanged(s);
    ParseFloatSpec(s);
    assert s[|a|] == '.' && s[|a| + 1 + |b|] == '.';
  }

  /** A number part with whitespace between digits is a `ValueError`. */
  lemma InnerSpaceRejected(a: string, b: string)
    requires AllDigits(a) && AllDigits(b) && a != [] && b != []
    ensures ParseFloat(a + " " + b) == Err(ValueError)
  {
    var s := a + " " + b;
    StripUnchanged(s);
    ParseFloatSpec(s);
    assert s[|a|] == ' ';
  }

  // ---------------------------------------------------------------------
  // The pattern ^([\d\s,\.]+)(.*)$ under re.match
  // ---------------------------------------------------------------------

  /** Length of the longest prefix of `s[start..]` made of number characters. */
  function RunFrom(s: string, start: nat): (k: nat)
    requires start <= |s|
    ensures start <= k <= |s|
    ensures forall i :: start <= i < k ==> InNumberClass(s[i])
    ensures k < |s| ==> !InNumberClass(s[k])
    decreases |s| - start
  {
    if start == |s| || !InNumberClass(s[start]) then start else RunFrom(s, start + 1)
  }

  /**
   * The reference semantics of the pattern: group 1 is `s[..j]`, group 2
   * is `s[j..e]`, and `$` holds at `e`. `.` does not match a newline, and
   * `$` matches at the end or just before a newline that ends the string.
   */
  predicate Accepts(s: string, j: nat, e: nat) {
    && 1 <= j <= e <= |s|
    && (forall i :: 0 <= i < j ==> InNumberClass(s[i]))
    && (forall i :: j <= i < e ==> s[i] != '\n')
    && (e == |s| || (e == |s| - 1 && s[e] == '\n'))
  }

  /**
   * The split `re.match` finds, as the pair (end of group 1, end of group
   * 2): group 1 takes the whole run of number characters; the match fails
   * when a newline other than a final one follows the run.
   */
  function Match(s: string): (r: Option<(nat, nat)>)
    ensures r.Some? ==> Accepts(s, r.value.0, r.value.1)
  {
    var k := RunFrom(s, 0);
    if k == 0 then None
    else if exists i :: k <= i < |s| - 1 && s[i] == '\n' then None
    else if k < |s| && s[|s| - 1] == '\n' then Some((k, |s| - 1))
    else Some((k, |s|))
  }

  /**
   * `Match` is what backtracking finds: greedy group 1 is tried longest
   * first and greedy `.*` longest first, so the match is the accepted
   * split with the longest group 1 and then the longest group 2; and the
   * pattern fails exactly when no split is accepted.
   */
  lemma MatchIsGreedy(s: string)
    ensures Match(s).Some? ==> Accepts(s, Match(s).value.0, Match(s).value.1)
    ensures Match(s).Some? ==> forall j: nat, e: nat :: Accepts(s, j, e) ==>
      j < Match(s).value.0 || (j == Match(s).value.0 && e <= Match(s).value.1)
    ensures Match(s).None? ==> forall j: nat, e: nat :: !Accepts(s, j, e)
  {
    var k := RunFrom(s, 0);
    forall j: nat, e: nat | Accepts(s, j, e)
      ensures j <= k && Match(s).Some?
      ensures j == k ==> e <= Match(s).value.1
    {
      assert forall i :: k <= i < |s| - 1 ==> s[i] != '\n';
    }
  }

  // ---------------------------------------------------------------------
  // extract_value
  // ---------------------------------------------------------------------

  /**
   * `extract_value` (helpers.py:52-74): `None` when the pattern does not
   * match (the `(None, None)` of the source); otherwise the number part with
   * spaces and commas removed, read by `float` (an empty part reads as
   * 0.0), and the units, which are group 2.
   */
  function ExtractValue(s: string): (r: Result<Option<(real, string)>, ParseError>)
    ensures r == Ok(None) <==> Match(s).None?
    ensures r.Ok? && r.value.Some? ==> var (value, units) := r.value.value;
      && value >= 0.0
      && (units == [] || !InNumberClass(units[0]))
      && '\n' !in units
  {
    match Match(s)
    case None => Ok(None)
    case Some((j, e)) =>
      var units := s[j..e];
      assert units != [] ==> units[0] == s[j];
      var number := Remove(Remove(s[..j], ' '), ',');
      if number == [] then Ok(Some((0.0, units)))
      else
        match ParseFloat(number)
        case Err(_) => Err(ValueError)
        case Ok(value) => Ok(Some((value, units)))
  }

  /** The decimal digits of `n`, most significant first, without leading zeros. */
  function NatDigits(n: nat): (r: string)
    ensures |r| >= 1 && AllDigits(r)
  {
    var last := ['0' + (n % 10) as char];
    if n < 10 then last else NatDigits(n / 10) + last
  }

  /** Reading back the digits of `n` gives `n`. */
  lemma {:induction false} NatDigitsValue(n: nat)
    ensures DigitsValue(NatDigits(n)) == n
  {
    if n >= 10 {
      NatDigitsValue(n / 10);
      var ds := NatDigits(n);
      assert ds[..|ds| - 1] == NatDigits(n / 10);
    }
  }

  /** `float` reads the digits of `n` as `n`. */
  lemma ParseFloatNat(n: nat)
    ensures ParseFloat(NatDigits(n)) == Ok(n as real)
  {
    var ds := NatDigits(n);
    StripUnchanged(ds);
    assert DotIndex(ds) == |ds|;
    assert ds[..|ds|] == ds;
    NatDigitsValue(n);
  }

  /**
   * A number written as plain digits and followed by units that start
   * with a character outside the number class (and hold no newline) is
   * split back into that number and those units.
   */
  lemma ExtractValueRoundTrip(n: nat, units: string)
    requires units == [] || !InNumberClass(units[0])
    requires '\n' !in units
    ensures ExtractValue(NatDigits(n) + units) == Ok(Some((n as real, units)))
  {
    var ds := NatDigits(n);
    var s := ds + units;
    MatchNumberThenUnits(ds, units);
    assert s[..|ds|] == ds && s[|ds|..|s|] == units;
    RemoveAbsent(ds, ' ');
    RemoveAbsent(ds, ',');
    ParseFloatNat(n);
  }

  /** The run of number characters ends where they stop. */
  lemma RunPrefix(s: string, k: nat)
    requires k <= |s|
    requires forall i :: 0 <= i < k ==> InNumberClass(s[i])
    requires k == |s| || !InNumberClass(s[k])
    ensures RunFrom(s, 0) == k
  {
  }

  /** The pattern splits a run of number characters from units that hold no newline. */
  lemma MatchNumberThenUnits(number: string, units: string)
    requires number != [] && forall i :: 0 <= i < |number| ==> InNumberClass(number[i])
    requires units == [] || !InNumberClass(units[0])
    requires '\n' !in units
    ensures Match(number + units) == Some((|number|, |number + units|))
  {
    var s := number + units;
    RunPrefix(s, |number|);
    assert forall i :: |number| <= i < |s| ==> s[i] == units[i - |number|];
  }

  /**
   * Any run of number characters followed by units that start outside
   * the number class and hold no newline: the units come back unchanged;
   * the value is `float` of the run without spaces and commas, or 0.0 when
   * nothing is left; and the call fails exactly when what is left is not a
   * numeral.
   */
  lemma ExtractValueSplits(num: string, units: string)
    requires num != [] && forall i :: 0 <= i < |num| ==> InNumberClass(num[i])
    requires units == [] || !InNumberClass(units[0])
    requires '\n' !in units
    ensures var r := ExtractValue(num + units);
      var n := Remove(Remove(num, ' '), ',');
      && (r.Err? <==> n != [] && !IsNumeral(Strip(n)))
      && (r.Ok? ==> r.value.Some? && r.value.value.1 == units)
      && (n == [] ==> r == Ok(Some((0.0, units))))
      && (r.Ok? && n != [] ==> ParseFloat(n) == Ok(r.value.value.0))
  {
    var s := num + units;
    MatchNumberThenUnits(num, units);
    assert s[..|num|] == num && s[|num|..|s|] == units;
    ParseFloatSpec(Remove(Remove(num, ' '), ','));
  }

  /** A decimal numeral followed by units reads as its exact decimal value and those units. */
  lemma ExtractValueDecimal(whole: string, frac: string, units: string)
    requires AllDigits(whole) && AllDigits(frac) && |whole| + |frac| >= 1
    requires units == [] || !InNumberClass(units[0])
    requires '\n' !in units
    ensures ExtractValue(whole + "." + frac + units) == Ok(Some((Decimal(whole, frac), units)))
  {
    var num := whole + "." + frac;
    assert forall i :: 0 <= i < |num| ==> IsDigit(num[i]) || num[i] == '.' by {
      forall i | 0 <= i < |num| ensures IsDigit(num[i]) || num[i] == '.' {
        if i < |whole| { assert num[i] == whole[i]; }
        else if i > |whole| { assert num[i] == frac[i - |whole| - 1]; }
      }
    }
    assert ' ' !in num && ',' !in num;
    RemoveAbsent(num, ' ');
    RemoveAbsent(num, ',');
    assert Remove(Remove(num, ' '), ',') == num;
    ParseFloatDecimal(whole, frac);
    ParseFloatSpec(num);
    ExtractValueSplits(num, units);
    var r := ExtractValue(num + units);
    assert r.Ok?;
    assert r.value.value.0 == Decimal(whole, frac);
  }

  /** Worked case: no number at the start, no match. */
  lemma ExtractValueNoNumber()
    ensures ExtractValue("abc") == Ok(None)
  {
    assert RunFrom("abc", 0) == 0;
  }

  /** Worked case: a lone dot is not a number. */
  lemma ExtractValueLoneDot()
    ensures ExtractValue(".") == Err(ValueError)
  {
    MatchNumberThenUnits(".", "");
    assert "." + "" == ".";
    assert "."[..1] == ".";
    RemoveAbsent(".", ' ');
    RemoveAbsent(".", ',');
    LoneDotIsNotANumber();
  }

  lemma LoneDotIsNotANumber()
    ensures ParseFloat(".") == Err(ValueError)
  {
    ParseFloatNeedsDigit(".");
  }

  /** `float` rejects a string without a digit. */
  lemma ParseFloatNeedsDigit(t: string)
    requires forall i :: 0 <= i < |t| ==> !IsDigit(t[i])
    ensures ParseFloat(t) == Err(ValueError)
  {
    var t0 := StripStart(t);
    var s := StripEnd(t0);
    forall i | 0 <= i < |s|
      ensures !IsDigit(s[i])
    {
      assert s[i] == t0[i] == t[|t| - |t0| + i];
    }
    var d := DotIndex(s);
    if d > 0 {
      assert s[..d][0] == s[0];
    } else if d + 1 < |s| {
      assert s[d + 1..][0] == s[d + 1];
    }
  }

  /** Worked case: a number part of only separators reads as 0.0. */
  lemma ExtractValueOnlySeparators()
    ensures ExtractValue(", kN") == Ok(Some((0.0, "kN")))
  {
    MatchNumberThenUnits(", ", "kN");
    assert ", " + "kN" == ", kN";
    assert ", kN"[..2] == ", " && ", kN"[2..4] == "kN";
    assert Remove(", ", ' ') == ",";
    assert Remove(",", ',') == "";
  }

  /** Worked case: thousands separators are dropped before `float`. */
  lemma ExtractValueThousands()
    ensures ExtractValue("12,345.5mm") == Ok(Some((12345.5, "mm")))
  {
    MatchNumberThenUnits("12,345.5", "mm");
    assert "12,345.5" + "mm" == "12,345.5mm";
    assert "12,345.5mm"[..8] == "12,345.5" && "12,345.5mm"[8..10] == "mm";
    DropThousandsSeparator();
    ReadDecimal();
  }

  lemma DropThousandsSeparator()
    ensures Remove(Remove("12,345.5", ' '), ',') == "12345.5"
  {
    RemoveAbsent("12,345.5", ' ');
    RemoveOnce("12", ',', "345.5");
    assert "12" + [','] + "345.5" == "12,345.5";
    assert "12" + "345.5" == "12345.5";
  }

  /** Removing the one occurrence of `c` joins the two sides. */
  lemma RemoveOnce(a: string, c: char, b: string)
    requires c !in a && c !in b
    ensures Remove(a + [c] + b, c) == a + b
  {
    RemoveAppend(a + [c], b, c);
    RemoveAppend(a, [c], c);
    RemoveAbsent(a, c);
    RemoveAbsent(b, c);
    assert Remove([c], c) == [];
  }

  lemma ReadDecimal()
    ensures ParseFloat("12345.5") == Ok(12345.5)
  {
    ParseFloatDecimal("12345", "5");
    assert "12345" + "." + "5" == "12345.5";
    DecimalExample();
  }

  lemma DecimalExample()
    ensures Decimal("12345", "5") == 12345.5
  {
    TwelveThousand();
    DigitsValueAppend("", '5');
    assert "" + ['5'] == "5";
    assert Pow10(|"5"|) == 10;
  }

  lemma TwelveThousand()
    ensures DigitsValue("12345") == 12345
  {
    DigitsValueAppend("1", '2');
    assert "1" + ['2'] == "12";
    DigitsValueAppend("12", '3');
    assert "12" + ['3'] == "123";
    DigitsValueAppend("123", '4');
    assert "123" + ['4'] == "1234";
    DigitsValueAppend("1234", '5');
    assert "1234" + ['5'] == "12345";
  }

  /** Appending a digit shifts the value one decimal place. */
  lemma DigitsValueAppend(ds: string, c: char)
    requires AllDigits(ds) && IsDigit(c)
    ensures AllDigits(ds + [c])
    ensures DigitsValue(ds + [c]) == DigitsValue(ds) * 10 + DigitValue(c)
  {
    assert (ds + [c])[..|ds|] == ds;
  }

  // ---------------------------------------------------------------------
  // str.split on the DXF paragraph break
  // ---------------------------------------------------------------------

  /** The separator `'\P'` of the source: a backslash followed by `P`, the DXF paragraph break. */
  const Separator: string := ['\\', 'P']

  /** No separator occurs in `p`. */
  predicate SeparatorFree(p: string) {
    forall i :: 0 <= i < |p| - 1 ==> !(p[i] == '\\' && p[i + 1] == 'P')
  }

  /**
   * `s.split('\P')`: the pieces between the occurrences of the separator,
   * found from the left; there is always at least one piece, and no piece
   * contains the separator.
   */
  function Split(s: string): (r: seq<string>)
    ensures |r| >= 1
    ensures |r[0]| <= |s| && r[0] == s[..|r[0]|]
    ensures forall i :: 0 <= i < |r| ==> SeparatorFree(r[i])
    decreases |s|
  {
    if |s| >= 2 && s[0] == '\\' && s[1] == 'P' then [""] + Split(s[2..])
    else if s == [] then [""]
    else
      var rest := Split(s[1..]);
      var first := [s[0]] + rest[0];
      assert first == s[..|first|];
      assert forall i :: 1 <= i < |first| ==> first[i] == rest[0][i - 1];
      [first] + rest[1..]
  }

  /** `sep.join(parts)` for the separator. */
  function Join(parts: seq<string>): string
    requires |parts| >= 1
  {
    if |parts| == 1 then parts[0] else parts[0] + Separator + Join(parts[1..])
  }

  /** Joining the pieces of a split gives back the string. */
  lemma {:induction false} JoinSplit(s: string)
    ensures Join(Split(s)) == s
    decreases |s|
  {
    if |s| >= 2 && s[0] == '\\' && s[1] == 'P' {
      JoinSplit(s[2..]);
      var r := Split(s);
      assert r == [""] + Split(s[2..]);
      assert r[1..] == Split(s[2..]);
      assert Join(r) == "" + Separator + Join(r[1..]);
      assert Separator + s[2..] == s;
    } else if s != [] {
      JoinSplit(s[1..]);
      var rest := Split(s[1..]);
      assert Split(s) == [[s[0]] + rest[0]] + rest[1..];
      JoinFirstCons(s[0], rest);
      assert [s[0]] + s[1..] == s;
    }
  }

  /** Prepending a character to the first piece prepends it to the join. */
  lemma {:induction false} JoinFirstCons(c: char, parts: seq<string>)
    requires |parts| >= 1
    ensures Join([[c] + parts[0]] + parts[1..]) == [c] + Join(parts)
  {
    var q := [[c] + parts[0]] + parts[1..];
    assert |q| == |parts| && q[0] == [c] + parts[0] && q[1..] == parts[1..];
    if |parts| > 1 {
      var j := Join(parts[1..]);
      assert Join(q) == q[0] + Separator + j;
      assert Join(parts) == parts[0] + Separator + j;
      assert ([c] + parts[0]) + Separator + j == [c] + (parts[0] + Separator + j);
    } else {
      assert Join(q) == q[0] && Join(parts) == parts[0];
    }
  }

  /** Splitting a string whose first piece holds no separator yields that piece first. */
  lemma {:induction false} SplitAfterPiece(p: string, rest: string)
    requires SeparatorFree(p)
    ensures Split(p + Separator + rest) == [p] + Split(rest)
    decreases |p|
  {
    var s := p + Separator + rest;
    if p == [] {
      assert s == Separator + rest && s[2..] == rest;
    } else {
      assert SeparatorFree(p[1..]) by {
        assert forall i :: 0 <= i < |p| - 1 ==> p[1..][i] == p[i + 1];
      }
      SplitAfterPiece(p[1..], rest);
      assert s[1..] == p[1..] + Separator + rest;
      assert s[0] == p[0] && s[1] == (if |p| >= 2 then p[1] else '\\');
      SplitFirstChar(s);
      assert [p[0]] + p[1..] == p;
    }
  }

  /** A string that does not start with the separator gives its first character to the first piece. */
  lemma SplitFirstChar(s: string)
    requires s != [] && !(|s| >= 2 && s[0] == '\\' && s[1] == 'P')
    ensures Split(s) == [[s[0]] + Split(s[1..])[0]] + Split(s[1..])[1..]
  {
  }

  /** A string without the separator is a single piece. */
  lemma {:induction false} SplitWhole(p: string)
    requires SeparatorFree(p)
    ensures Split(p) == [p]
    decreases |p|
  {
    if p != [] {
      assert forall i :: 0 <= i < |p| - 1 ==> p[1..][i] == p[i + 1];
      SplitWhole(p[1..]);
      assert [p[0]] + p[1..] == p;
    }
  }

  /** Splitting the join of pieces that hold no separator gives back the pieces. */
  lemma {:induction false} SplitJoin(parts: seq<string>)
    requires |parts| >= 1
    requires forall i :: 0 <= i < |parts| ==> SeparatorFree(parts[i])
    ensures Split(Join(parts)) == parts
    decreases |parts|
  {
    if |parts| == 1 {
      SplitWhole(parts[0]);
    } else {
      SplitJoin(parts[1..]);
      SplitAfterPiece(parts[0], Join(parts[1..]));
    }
  }

  // ---------------------------------------------------------------------
  // extract_parameters
  // ---------------------------------------------------------------------

  /** The material parameters read from a text: modulus `E`, area `A`, moment of inertia `I`. */
  datatype Parameters = Parameters(e: real, a: real, i: real)

  /** The result dictionary while lines are read: a slot per parameter letter. */
  type Slots = map<char, Option<real>>

  /** `{'E': None, 'A': None, 'I': None}`. */
  const InitialSlots: Slots := map['E' := None, 'A' := None, 'I' := None]

  /** The lines of the text: colons and equals signs removed, then split at each paragraph break. */
  function Lines(input: string): (r: seq<string>)
    ensures |r| >= 1
  {
    Split(Remove(Remove(input, ':'), '='))
  }

  /** Every number held in a slot is non-negative: the number pattern has no sign. */
  predicate NonNegative(slots: Slots) {
    forall c :: c in slots && slots[c].Some? ==> slots[c].value >= 0.0
  }

  /**
   * One line: strip it; an empty line has no first character
   * (`IndexError`); a first character that is not a slot is a `ValueError`;
   * otherwise the rest is read by `extract_value` into that slot, `None`
   * when it holds no number.
   */
  function ReadLine(slots: Slots, line: string): (r: Result<Slots, ParseError>)
    requires NonNegative(slots)
    ensures r.Ok? ==> r.value.Keys == slots.Keys && NonNegative(r.value)
  {
    var l := Strip(line);
    if l == [] then Err(IndexError)
    else if l[0] !in slots then Err(ValueError)
    else
      match ExtractValue(l[1..])
      case Err(e) => Err(e)
      case Ok(None) => Ok(slots[l[0] := None])
      case Ok(Some((value, _))) => Ok(slots[l[0] := Some(value)])
  }

  /** The first loop of `extract_parameters`: the lines in order, stopping at the first exception. */
  function ReadLines(lines: seq<string>): (r: Result<Slots, ParseError>)
    ensures r.Ok? ==> r.value.Keys == InitialSlots.Keys && NonNegative(r.value)
  {
    if lines == [] then Ok(InitialSlots)
    else
      match ReadLines(lines[..|lines| - 1])
      case Err(e) => Err(e)
      case Ok(slots) => ReadLine(slots, lines[|lines| - 1])
  }

  /** Python truthiness of a slot: `None` and `0.0` are false. */
  predicate Truthy(v: Option<real>) {
    v.Some? && v.value != 0.0
  }

  /** `extract_parameters` (helpers.py:77-97): every slot must end up truthy. */
  function ParametersOf(input: string): (r: Result<Parameters, ParseError>)
    ensures r.Ok? ==> r.value.e > 0.0 && r.value.a > 0.0 && r.value.i > 0.0
  {
    match ReadLines(Lines(input))
    case Err(e) => Err(e)
    case Ok(slots) =>
      if Truthy(slots['E']) && Truthy(slots['A']) && Truthy(slots['I']) then
        Ok(Parameters(slots['E'].value, slots['A'].value, slots['I'].value))
      else
        Err(ValueError)
  }

  /** Once a prefix of the lines fails, reading fails with the same exception. */
  lemma {:induction false} ReadErrorSticks(lines: seq<string>, k: nat)
    requires k <= |lines| && ReadLines(lines[..k]).Err?
    ensures ReadLines(lines) == ReadLines(lines[..k])
    decreases |lines| - k
  {
    if k < |lines| {
      var n := |lines| - 1;
      assert lines[..n][..k] == lines[..k];
      ReadErrorSticks(lines[..n], k);
    } else {
      assert lines[..k] == lines;
    }
  }

  /** One pass of the first loop of `extract_parameters`. */
  method ReadOne(result: Slots, line: string) returns (r: Result<Slots, ParseError>)
    requires NonNegative(result)
    ensures r == ReadLine(result, line)
  {
    var stripped := Strip(line);
    if stripped == [] {
      return Err(IndexError);
    }
    if stripped[0] !in result {
      return Err(ValueError);
    }
    var extracted := ExtractValue(stripped[1..]);
    if extracted.Err? {
      return Err(extracted.error);
    }
    r := Ok(result[stripped[0] := if extracted.value.Some? then Some(extracted.value.value.0) else None]);
  }

  /** The second loop of `extract_parameters`: whether every value of the dictionary is truthy. */
  method AllTruthy(result: Slots) returns (ok: bool)
    requires result.Keys == InitialSlots.Keys
    ensures ok <==> Truthy(result['E']) && Truthy(result['A']) && Truthy(result['I'])
  {
    var letters := ['E', 'A', 'I'];
    for j := 0 to |letters|
      invariant forall m :: 0 <= m < j ==> Truthy(result[letters[m]])
    {
      if !Truthy(result[letters[j]]) {
        return false;
      }
    }
    assert letters[0] == 'E' && letters[1] == 'A' && letters[2] == 'I';
    return true;
  }

  /** The first loop of `extract_parameters`, over the lines in order. */
  method ReadAll(lines: seq<string>) returns (r: Result<Slots, ParseError>)
    ensures r == ReadLines(lines)
  {
    var result := InitialSlots;
    for k := 0 to |lines|
      invariant ReadLines(lines[..k]) == Ok(result)
    {
      assert lines[..k + 1][..k] == lines[..k];
      var next := ReadOne(result, lines[k]);
      if next.Err? {
        ReadErrorSticks(lines, k + 1);
        return next;
      }
      result := next.value;
    }
    assert lines[..|lines|] == lines;
    r := Ok(result);
  }

  /**
   * `extract_parameters`: read each line into its slot, then reject the
   * text unless every slot holds a truthy value.
   */
  method ExtractParameters(input: string) returns (r: Result<Parameters, ParseError>)
    ensures r == ParametersOf(input)
  {
    var read := ReadAll(Lines(input));
    if read.Err? {
      return Err(read.error);
    }
    var result := read.value;
    var ok := AllTruthy(result);
    if !ok {
      return Err(ValueError);
    }
    AcceptedSlots(input, result);
    r := Ok(Parameters(result['E'].value, result['A'].value, result['I'].value));
  }

  /** The number a stripped line writes into its slot: `None` unless its rest reads as a number. */
  function LineValue(l: string): Option<real>
    requires l != []
  {
    match ExtractValue(l[1..])
    case Ok(Some((value, _))) => Some(value)
    case _ => None
  }

  /**
   * Reference reading of one slot: scan the lines from the last one back
   * and take the first whose stripped text starts with the letter; `None`
   * when there is none.
   */
  function LastValue(lines: seq<string>, c: char): Option<real>
  {
    if lines == [] then None
    else
      var l := Strip(lines[|lines| - 1]);
      if l != [] && l[0] == c then LineValue(l) else LastValue(lines[..|lines| - 1], c)
  }

  /** When the lines read without an exception, each slot holds what the last line for its letter wrote. */
  lemma {:induction false} ReadLinesLastWins(lines: seq<string>, c: char)
    requires c in InitialSlots && ReadLines(lines).Ok?
    ensures ReadLines(lines).value[c] == LastValue(lines, c)
    decreases |lines|
  {
    if lines != [] {
      ReadLinesLastWins(lines[..|lines| - 1], c);
    }
  }

  /** A letter that starts no line leaves its slot empty, so the text is rejected. */
  lemma MissingLetterFails(input: string, c: char)
    requires c in InitialSlots
    requires forall k :: 0 <= k < |Lines(input)| ==> Strip(Lines(input)[k]) == [] || Strip(Lines(input)[k])[0] != c
    ensures ParametersOf(input).Err?
  {
    var lines := Lines(input);
    MissingLetterEmpty(lines, c);
    if ReadLines(lines).Ok? {
      RejectedSlots(input, ReadLines(lines).value, c);
    }
  }

  /** A letter that starts no line keeps its empty slot. */
  lemma MissingLetterEmpty(lines: seq<string>, c: char)
    requires c in InitialSlots
    requires forall k :: 0 <= k < |lines| ==> Strip(lines[k]) == [] || Strip(lines[k])[0] != c
    ensures ReadLines(lines).Ok? ==> ReadLines(lines).value[c] == None
  {
    if ReadLines(lines).Ok? {
      ReadLinesLastWins(lines, c);
      NoLineNoValue(lines, c);
    }
  }

  /** A slot that is `None` or `0.0` (falsy) makes the text rejected. */
  lemma RejectedSlots(input: string, slots: Slots, c: char)
    requires c in InitialSlots
    requires ReadLines(Lines(input)) == Ok(slots) && !Truthy(slots[c])
    ensures ParametersOf(input) == Err(ValueError)
  {
    assert c == 'E' || c == 'A' || c == 'I';
  }

  lemma {:induction false} NoLineNoValue(lines: seq<string>, c: char)
    requires forall k :: 0 <= k < |lines| ==> Strip(lines[k]) == [] || Strip(lines[k])[0] != c
    ensures LastValue(lines, c) == None
    decreases |lines|
  {
    if lines != [] {
      NoLineNoValue(lines[..|lines| - 1], c);
    }
  }

  /** An empty line, or one that starts with anything but a parameter letter, makes reading fail. */
  lemma BadLineFails(lines: seq<string>, k: nat)
    requires k < |lines|
    requires Strip(lines[k]) == [] || Strip(lines[k])[0] !in InitialSlots
    ensures ReadLines(lines).Err?
  {
    assert lines[..k + 1][..k] == lines[..k];
    ReadErrorSticks(lines, k + 1);
  }

  /**
   * When every line before `k` reads cleanly, line `k` decides which
   * exception escapes: `IndexError` for a blank line, `ValueError` for a
   * line whose first character names no parameter.
   */
  lemma FirstBadLineRaises(lines: seq<string>, k: nat)
    requires k < |lines| && ReadLines(lines[..k]).Ok?
    requires Strip(lines[k]) == [] || Strip(lines[k])[0] !in InitialSlots
    ensures ReadLines(lines) == Err(if Strip(lines[k]) == [] then IndexError else ValueError)
  {
    assert lines[..k + 1][..k] == lines[..k];
    assert lines[..k + 1][k] == lines[k];
    ReadErrorSticks(lines, k + 1);
  }

  // ---------------------------------------------------------------------
  // Writing parameters as text and reading them back
  // ---------------------------------------------------------------------

  /** The line `<letter>=<digits>`. */
  function ParameterLine(letter: char, digits: string): string {
    [letter, '='] + digits
  }

  /** A parameter text for whole numbers: the three lines joined by paragraph breaks. */
  function ParameterText(e: nat, a: nat, i: nat): string {
    Join([ParameterLine('E', NatDigits(e)), ParameterLine('A', NatDigits(a)), ParameterLine('I', NatDigits(i))])
  }

  /** Removing a character outside the separator commutes with joining. */
  lemma {:induction false} RemoveJoin(parts: seq<string>, c: char)
    requires |parts| >= 1 && c != '\\' && c != 'P'
    ensures Remove(Join(parts), c) == Join(seq(|parts|, k requires 0 <= k < |parts| => Remove(parts[k], c)))
    decreases |parts|
  {
    var removed := seq(|parts|, k requires 0 <= k < |parts| => Remove(parts[k], c));
    if |parts| > 1 {
      RemoveJoin(parts[1..], c);
      RemoveAppend(parts[0] + Separator, Join(parts[1..]), c);
      RemoveAppend(parts[0], Separator, c);
      RemoveAbsent(Separator, c);
      assert removed[1..] == seq(|parts| - 1, k requires 0 <= k < |parts| - 1 => Remove(parts[1..][k], c));
    }
  }

  /** A written line loses its equals sign. */
  lemma RemoveEquals(letter: char, digits: string)
    requires letter != '=' && AllDigits(digits)
    ensures Remove(ParameterLine(letter, digits), '=') == [letter] + digits
  {
    assert ParameterLine(letter, digits) == [letter] + ['='] + digits;
    assert '=' !in digits;
    RemoveOnce([letter], '=', digits);
  }

  /** How a line `<letter><digits of n>` is read. */
  lemma ReadParameterLine(slots: Slots, letter: char, n: nat)
    requires NonNegative(slots) && letter in slots && !IsSpace(letter)
    ensures ReadLine(slots, [letter] + NatDigits(n)) == Ok(slots[letter := Some(n as real)])
  {
    var ds := NatDigits(n);
    var l := [letter] + ds;
    StripUnchanged(l);
    assert l[1..] == ds + [];
    ExtractValueRoundTrip(n, []);
  }

  /** Removing colons and equals signs from a text written from three digit strings leaves the lines joined. */
  lemma PunctuationRemoved(de: string, da: string, di: string)
    requires AllDigits(de) && AllDigits(da) && AllDigits(di)
    ensures Remove(Remove(Join([ParameterLine('E', de), ParameterLine('A', da), ParameterLine('I', di)]), ':'), '=')
         == Join([['E'] + de, ['A'] + da, ['I'] + di])
  {
    var parts := [ParameterLine('E', de), ParameterLine('A', da), ParameterLine('I', di)];
    var text := Join(parts);
    JoinThree(parts[0], parts[1], parts[2]);
    assert ':' !in de && ':' !in da && ':' !in di;
    RemoveAbsent(text, ':');
    RemoveJoin(parts, '=');
    RemoveEquals('E', de);
    RemoveEquals('A', da);
    RemoveEquals('I', di);
    assert seq(3, k requires 0 <= k < 3 => Remove(parts[k], '=')) == [['E'] + de, ['A'] + da, ['I'] + di];
  }

  /** The lines of a text written from three digit strings, once colons and equals signs are gone. */
  lemma LinesOfLetters(de: string, da: string, di: string)
    requires AllDigits(de) && AllDigits(da) && AllDigits(di)
    ensures Lines(Join([ParameterLine('E', de), ParameterLine('A', da), ParameterLine('I', di)]))
         == [['E'] + de, ['A'] + da, ['I'] + di]
  {
    PunctuationRemoved(de, da, di);
    var lines := [['E'] + de, ['A'] + da, ['I'] + di];
    forall k | 0 <= k < 3
      ensures SeparatorFree(lines[k])
    {
      assert forall j :: 1 <= j < |lines[k]| ==> IsDigit(lines[k][j]);
    }
    SplitJoin(lines);
  }

  lemma JoinThree(x: string, y: string, z: string)
    ensures Join([x, y, z]) == x + Separator + (y + Separator + z)
  {
    assert [y, z][1..] == [z];
    assert Join([y, z]) == y + Separator + z;
    assert [x, y, z][1..] == [y, z];
  }

  /** Reading one more line continues from the slots read so far. */
  lemma ReadLinesSnoc(lines: seq<string>, line: string)
    ensures ReadLines(lines + [line]) ==
      match ReadLines(lines)
      case Err(e) => Err(e)
      case Ok(slots) => ReadLine(slots, line)
  {
    assert (lines + [line])[..|lines|] == lines;
  }

  /** Three lines are read one after the other. */
  lemma ReadThreeLines(l1: string, l2: string, l3: string)
    ensures ReadLines([l1, l2, l3]) ==
      match ReadLine(InitialSlots, l1)
      case Err(e) => Err(e)
      case Ok(s1) =>
        match ReadLine(s1, l2)
        case Err(e) => Err(e)
        case Ok(s2) => ReadLine(s2, l3)
  {
    ReadLinesSnoc([], l1);
    ReadLinesSnoc([l1], l2);
    ReadLinesSnoc([l1, l2], l3);
    assert [] + [l1] == [l1] && [l1] + [l2] == [l1, l2] && [l1, l2] + [l3] == [l1, l2, l3];
  }

  /** The three written lines fill `E`, `A` and `I` with the three numbers. */
  lemma ReadParameterText(e: nat, a: nat, i: nat)
    ensures var r := ReadLines(Lines(ParameterText(e, a, i)));
      r.Ok? && r.value['E'] == Some(e as real) && r.value['A'] == Some(a as real) && r.value['I'] == Some(i as real)
  {
    LinesOfLetters(NatDigits(e), NatDigits(a), NatDigits(i));
    var l1, l2, l3 := ['E'] + NatDigits(e), ['A'] + NatDigits(a), ['I'] + NatDigits(i);
    ReadThreeLines(l1, l2, l3);
    ReadParameterLine(InitialSlots, 'E', e);
    var s1 := ReadLine(InitialSlots, l1).value;
    ReadParameterLine(s1, 'A', a);
    var s2 := ReadLine(s1, l2).value;
    ReadParameterLine(s2, 'I', i);
    var s3 := ReadLine(s2, l3).value;
    assert Lines(ParameterText(e, a, i)) == [l1, l2, l3];
    assert ReadLines([l1, l2, l3]) == Ok(s3);
  }

  /** Parameters written as positive whole numbers are read back exactly. */
  lemma ParametersRoundTrip(e: nat, a: nat, i: nat)
    requires e >= 1 && a >= 1 && i >= 1
    ensures ParametersOf(ParameterText(e, a, i)) == Ok(Parameters(e as real, a as real, i as real))
  {
    ReadParameterText(e, a, i);
    AcceptedSlots(ParameterText(e, a, i), ReadLines(Lines(ParameterText(e, a, i))).value);
  }

  /** A parameter written as zero reads as `0.0`, which is falsy, so the text is rejected. */
  lemma ZeroParameterRejected(a: nat, i: nat)
    ensures ParametersOf(ParameterText(0, a, i)) == Err(ValueError)
  {
    ReadParameterText(0, a, i);
    var slots := ReadLines(Lines(ParameterText(0, a, i))).value;
    RejectedSlots(ParameterText(0, a, i), slots, 'E');
  }

  /** Slots that were all filled with non-zero numbers give the parameters. */
  lemma AcceptedSlots(input: string, slots: Slots)
    requires ReadLines(Lines(input)) == Ok(slots)
    requires Truthy(slots['E']) && Truthy(slots['A']) && Truthy(slots['I'])
    ensures ParametersOf(input) == Ok(Parameters(slots['E'].value, slots['A'].value, slots['I'].value))
  {
  }
}
