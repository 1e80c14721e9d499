/** Helpers shared by every part of the model: optional values, decimal digit
    strings, number-to-string conversion, left padding, the whitespace that
    JavaScript's trim() removes, JavaScript's parseInt, and the calendar rules
    used by the site (Gregorian leap years, days per month). */
module Common {

  datatype Option<+T> = None | Some(value: T) {
    function GetOr(default: T): T {
      match this
      case Some(v) => v
      case None => default
    }
  }

  /** A check that either passes or fails with a message (a thrown Error in the source). */
  datatype Outcome = Pass | Fail(error: string)

  // ---------------------------------------------------------------------------
  // Decimal digits

  predicate IsDigit(c: char) { '0' <= c <= '9' }

  predicate AllDigits(s: string) { forall i :: 0 <= i < |s| ==> IsDigit(s[i]) }

  function DigitValue(c: char): nat
    requires IsDigit(c)
  {
    c as int - '0' as int
  }

  function DigitChar(d: nat): (c: char)
    requires d < 10
    ensures IsDigit(c) && DigitValue(c) == d
  {
    ('0' as int + d) as char
  }

  /** The value of a string of decimal digits, most significant first (parseInt on such a string). */
  function DigitsValue(s: string): nat
    requires AllDigits(s)
  {
    if s == [] then 0 else DigitsValue(s[..|s| - 1]) * 10 + DigitValue(s[|s| - 1])
  }

  /** The decimal representation of n, as String(n) gives it. */
  function NatToString(n: nat): (r: string)
    ensures |r| > 0 && AllDigits(r)
    ensures DigitsValue(r) == n
    ensures r[0] == '0' ==> n == 0

  {
    if n < 10 then [DigitChar(n)]
    else
      var prefix := NatToString(n / 10);
      var r := prefix + [DigitChar(n % 10)];
      assert r[..|r| - 1] == prefix;
      r
  }

  /** String(i) for an integer. */
  function IntToString(i: int): string
  {
    if i < 0 then "-" + NatToString(-i) else NatToString(i)
  }

  /** String.prototype.padStart(width, c). */
  function PadStart(s: string, width: nat, c: char): (r: string)
    ensures |r| == if |s| >= width then |s| else width
    ensures r[|r| - |s|..] == s
    ensures forall i :: 0 <= i < |r| - |s| ==> r[i] == c
  {
    if |s| >= width then s else seq(width - |s|, _ => c) + s
  }

  /** Leading zeros do not change the value of a digit string. */
  lemma {:induction false} LeadingZerosValue(z: string, s: string)
    requires forall i :: 0 <= i < |z| ==> z[i] == '0'
    requires AllDigits(s)
    ensures AllDigits(z + s) && DigitsValue(z + s) == DigitsValue(s)
  {
    if s == [] {
      assert z + s == z;
      AllZerosValue(z);
    } else {
      var s' := s[..|s| - 1];
      assert (z + s)[..|z + s| - 1] == z + s';
      LeadingZerosValue(z, s');
    }
  }

  lemma {:induction false} AllZerosValue(z: string)
    requires forall i :: 0 <= i < |z| ==> z[i] == '0'
    ensures AllDigits(z) && DigitsValue(z) == 0
  {
    if z != [] {
      AllZerosValue(z[..|z| - 1]);
    }
  }

  /** A number written with at least `width` digits (String(n).padStart(width, "0")). */
  function PaddedNumber(n: nat, width: nat): (r: string)
    ensures AllDigits(r) && DigitsValue(r) == n && |r| >= width
  {
    var s := NatToString(n);
    if |s| >= width then s
    else
      var z := seq(width - |s|, _ => '0');
      LeadingZerosValue(z, s);
      PadStart(s, width, '0')
  }

  /** Zero-padding keeps distinct numbers distinct. */
  lemma PaddedNumberInjective(m: nat, n: nat, width: nat)
    requires PaddedNumber(m, width) == PaddedNumber(n, width)
    ensures m == n
  {
  }

  // ---------------------------------------------------------------------------
  // Strings

  function CharLength(c: char): nat
  {
    if c as int > 0xFFFF then 2 else 1
  }

  /** The JavaScript `length` of a string: the number of UTF-16 code units. */
  function JsLength(s: string): (n: nat)
    ensures n >= |s|
  {
    if s == [] then 0 else JsLength(s[..|s| - 1]) + CharLength(s[|s| - 1])
  }

  predicate StartsWith(s: string, prefix: string)
  {
    |prefix| <= |s| && s[..|prefix|] == prefix
  }

  /** A message with a tag in front of it. */
  function Tagged(tag: string, message: string): (r: string)
    ensures StartsWith(r, tag) && r[|tag|..] == message
  {
    var r := tag + message;
    assert r[..|tag|] == tag;
    r
  }

  /** The white space and line terminators that String.prototype.trim and parseInt skip. */
  predicate IsJsWhitespace(c: char)
  {
    c in JsWhitespace || ('\U{2000}' <= c <= '\U{200A}')
  }

  const JsWhitespace: set<char> := {'\t', '\n', '\U{B}', '\U{C}', '\r', ' ', '\U{A0}', '\U{1680}',
    '\U{2028}', '\U{2029}', '\U{202F}', '\U{205F}', '\U{3000}', '\U{FEFF}'}

  predicate IsBlank(s: string)
  {
    forall i :: 0 <= i < |s| ==> IsJsWhitespace(s[i])
  }

  /** String.prototype.trimStart; what it removes and keeps is TrimStartSpec. */
  function TrimStart(s: string): (r: string)
    ensures |r| <= |s|
  {
    if s != [] && IsJsWhitespace(s[0]) then TrimStart(s[1..]) else s
  }

  /** trimStart keeps a suffix that does not begin with white space and drops only
      white space. */
  lemma {:induction false} TrimStartSpec(s: string)
    ensures var r := TrimStart(s);
      && r == s[|s| - |r|..]
      && (r != [] ==> !IsJsWhitespace(r[0]))
      && IsBlank(s[..|s| - |r|])
  {
    if s != [] && IsJsWhitespace(s[0]) {
      TrimStartSpec(s[1..]);
      var r := TrimStart(s[1..]);
      assert s[1..][..|s| - 1 - |r|] == s[1..|s| - |r|];
    }
  }

  /** String.prototype.trimEnd; what it removes and keeps is TrimEndSpec. */
  function TrimEnd(s: string): (r: string)
    ensures |r| <= |s|
  {
    if s != [] && IsJsWhitespace(s[|s| - 1]) then TrimEnd(s[..|s| - 1]) else s
  }

  /** trimEnd keeps a prefix that does not end in white space and drops only white
      space. */
  lemma {:induction false} TrimEndSpec(s: string)
    ensures var r := TrimEnd(s);
      && r == s[..|r|]
      && (r != [] ==> !IsJsWhitespace(r[|r| - 1]))
      && IsBlank(s[|r|..])
  {
    if s != [] && IsJsWhitespace(s[|s| - 1]) {
      var t := s[..|s| - 1];
      TrimEndSpec(t);
      var r := TrimEnd(t);
      assert TrimEnd(s) == r;
      assert t[..|r|] == s[..|r|];
      assert s[|r|..] == t[|r|..] + [s[|s| - 1]];
    }
  }

  /** String.prototype.trim. */
  function JsTrim(s: string): string
  {
    TrimEnd(TrimStart(s))
  }

  /** trim() leaves nothing exactly when the string is all white space. */
  lemma TrimEmptyIffBlank(s: string)
    ensures JsTrim(s) == [] <==> IsBlank(s)
  {
    var t := TrimStart(s);
    BlankIffTrimStartEmpty(s);
    BlankIffTrimEndEmpty(t);
    TrimStartSpec(s);
    if IsBlank(t) {
      assert t == [] && s[..|s|] == s;
    }
  }

  lemma {:induction false} BlankIffTrimStartEmpty(s: string)
    ensures IsBlank(s) <==> TrimStart(s) == []
  {
    if s != [] && IsJsWhitespace(s[0]) {
      BlankIffTrimStartEmpty(s[1..]);
      assert IsBlank(s) <==> IsBlank(s[1..]);
    }
  }

  lemma {:induction false} BlankIffTrimEndEmpty(s: string)
    ensures IsBlank(s) <==> TrimEnd(s) == []
  {
    if s != [] && IsJsWhitespace(s[|s| - 1]) {
      BlankIffTrimEndEmpty(s[..|s| - 1]);
      assert IsBlank(s) <==> IsBlank(s[..|s| - 1]);
    }
  }

  /** The longest prefix of s made of decimal digits. */
  function DigitPrefix(s: string): (r: string)
    ensures |r| <= |s| && r == s[..|r|] && AllDigits(r)
    ensures |r| < |s| ==> !IsDigit(s[|r|])
  {
    if s != [] && IsDigit(s[0]) then
      var r := [s[0]] + DigitPrefix(s[1..]);
      assert r == s[..|r|];
      r
    else []
  }

  predicate IsHexDigit(c: char)
  {
    IsDigit(c) || 'a' <= c <= 'f' || 'A' <= c <= 'F'
  }

  function HexDigitValue(c: char): nat
    requires IsHexDigit(c)
  {
    if IsDigit(c) then DigitValue(c)
    else if 'a' <= c <= 'f' then c as int - 'a' as int + 10
    else c as int - 'A' as int + 10
  }

  function HexPrefix(s: string): (r: string)
    ensures |r| <= |s| && forall i :: 0 <= i < |r| ==> IsHexDigit(r[i])
  {
    if s != [] && IsHexDigit(s[0]) then [s[0]] + HexPrefix(s[1..]) else []
  }

  function HexValue(s: string): nat
    requires forall i :: 0 <= i < |s| ==> IsHexDigit(s[i])
  {
    if s == [] then 0 else HexValue(s[..|s| - 1]) * 16 + HexDigitValue(s[|s| - 1])
  }

  /** JavaScript's parseInt(s, 10) (when decimalOnly) or parseInt(s) (otherwise, where a
      "0x"/"0X" prefix selects base 16). None stands for NaN. Skips leading white space,
      takes one optional sign, then the longest run of digits of the base. */
  function ParseInt(s: string, decimalOnly: bool): Option<int>
  {
    var t := TrimStart(s);
    var negative := t != [] && t[0] == '-';
    var u := if t != [] && (t[0] == '-' || t[0] == '+') then t[1..] else t;
    if !decimalOnly && |u| >= 2 && u[0] == '0' && (u[1] == 'x' || u[1] == 'X') then
      var h := HexPrefix(u[2..]);
      var v: int := HexValue(h);
      if h == [] then None else Some(if negative then -v else v)
    else
      var d := DigitPrefix(u);
      var v: int := DigitsValue(d);
      if d == [] then None else Some(if negative then -v else v)
  }

  /** parseInt reads back what String(n) writes. */
  lemma ParseIntOfNatToString(n: nat, decimalOnly: bool)
    ensures ParseInt(NatToString(n), decimalOnly) == Some(n)
  {
    var s := NatToString(n);
    assert TrimStart(s) == s;
    DigitPrefixOfDigits(s);
  }

  /** parseInt of a non-empty string of decimal digits is its value. */
  lemma ParseIntOfDigits(s: string, decimalOnly: bool)
    requires s != [] && AllDigits(s)
    ensures ParseInt(s, decimalOnly) == Some(DigitsValue(s))
  {
    assert TrimStart(s) == s;
    DigitPrefixOfDigits(s);
  }

  lemma {:induction false} DigitPrefixOfDigits(s: string)
    requires AllDigits(s)
    ensures DigitPrefix(s) == s
  {
    if s != [] {
      DigitPrefixOfDigits(s[1..]);
    }
  }

  /** String.prototype.replace(pattern, "") with a string pattern: removes the first occurrence. */
  function RemoveFirst(s: string, pattern: string): (r: string)
    requires pattern != []
    ensures StartsWith(s, pattern) ==> r == s[|pattern|..]
    ensures |r| <= |s|
  {
    if |s| < |pattern| then s
    else if s[..|pattern|] == pattern then s[|pattern|..]
    else [s[0]] + RemoveFirst(s[1..], pattern)
  }

  /** Concatenates the strings of `lines` with `sep` between them (Array.prototype.join). */
  function Join(lines: seq<string>, sep: string): string
  {
    if lines == [] then ""
    else if |lines| == 1 then lines[0]
    else lines[0] + sep + Join(lines[1..], sep)
  }

  /** r is obtained from s by dropping elements: what remains keeps its relative order. */
  predicate SubsequenceOf<T(==)>(r: seq<T>, s: seq<T>)
  {
    if r == [] then true
    else if s == [] then false
    else if r[0] == s[0] then SubsequenceOf(r[1..], s[1..])
    else SubsequenceOf(r, s[1..])
  }

  /** Every element of a subsequence is an element of the whole. */
  lemma {:induction false} SubsequenceMembers<T>(r: seq<T>, s: seq<T>, x: T)
    requires SubsequenceOf(r, s) && x in r
    ensures x in s
    decreases |s|
  {
    if r[0] == s[0] {
      if x != r[0] {
        assert x in r[1..];
        SubsequenceMembers(r[1..], s[1..], x);
      }
    } else {
      SubsequenceMembers(r, s[1..], x);
    }
  }

  /** Every pair of s, taken in order, is related by rel. */
  ghost predicate Pairwise<T>(s: seq<T>, rel: (T, T) -> bool)
  {
    forall i, j :: 0 <= i < j < |s| ==> rel(s[i], s[j])
  }

  /** A subsequence keeps every in-order relation the whole has between its pairs. */
  lemma {:induction false} SubsequencePairwise<T>(r: seq<T>, s: seq<T>, rel: (T, T) -> bool)
    requires SubsequenceOf(r, s) && Pairwise(s, rel)
    ensures Pairwise(r, rel)
    decreases |s|
  {
    if r != [] {
      var tail := s[1..];
      assert Pairwise(tail, rel) by {
        forall i, j | 0 <= i < j < |tail|
          ensures rel(tail[i], tail[j])
        {
          assert tail[i] == s[i + 1] && tail[j] == s[j + 1];
        }
      }
      if r[0] == s[0] {
        SubsequencePairwise(r[1..], tail, rel);
        forall i, j | 0 <= i < j < |r|
          ensures rel(r[i], r[j])
        {
          if i == 0 {
            assert r[j] in r[1..];
            SubsequenceMembers(r[1..], tail, r[j]);
            var k :| 0 <= k < |tail| && tail[k] == r[j];
            assert s[k + 1] == r[j];
          } else {
            assert r[i] == r[1..][i - 1] && r[j] == r[1..][j - 1];
          }
        }
      } else {
        SubsequencePairwise(r, tail, rel);
      }
    }
  }

  lemma {:induction false} SubsequenceSkip<T>(r: seq<T>, s: seq<T>)
    requires s != [] && SubsequenceOf(r, s[1..])
    ensures SubsequenceOf(r, s)
    decreases |s|, 1
  {
    if r != [] && r[0] == s[0] {
      SubsequenceDropFirst(r, s[1..]);
    }
  }

  lemma {:induction false} SubsequenceDropFirst<T>(r: seq<T>, s: seq<T>)
    requires r != [] && SubsequenceOf(r, s)
    ensures SubsequenceOf(r[1..], s)
    decreases |s|, 2
  {
    if s != [] {
      if r[0] == s[0] {
        SubsequenceSkip(r[1..], s);
      } else {
        SubsequenceDropFirst(r, s[1..]);
        SubsequenceSkip(r[1..], s);
      }
    }
  }

  /** The elements of s in the opposite order. */
  function Reverse<T>(s: seq<T>): (r: seq<T>)
    ensures |r| == |s|
    ensures forall i :: 0 <= i < |s| ==> r[i] == s[|s| - 1 - i]
  {
    if s == [] then [] else Reverse(s[1..]) + [s[0]]
  }

  /** Array.prototype.filter: the elements of s that `keep` accepts, in order. */
  function Filter<T>(s: seq<T>, keep: T -> bool): (r: seq<T>)
    ensures |r| <= |s|
    ensures forall i :: 0 <= i < |r| ==> keep(r[i])
  {
    if s == [] then []
    else
      assert s == [s[0]] + s[1..];
      if keep(s[0]) then [s[0]] + Filter(s[1..], keep) else Filter(s[1..], keep)
  }

  /** The filtered sequence holds exactly the kept elements of the original. */
  lemma {:induction false} FilterContents<T>(s: seq<T>, keep: T -> bool)
    ensures forall i :: 0 <= i < |Filter(s, keep)| ==> Filter(s, keep)[i] in s
    ensures forall i :: 0 <= i < |s| && keep(s[i]) ==> s[i] in Filter(s, keep)
  {
    if s != [] {
      FilterContents(s[1..], keep);
      assert s == [s[0]] + s[1..];
      var r := Filter(s, keep);
      var t := Filter(s[1..], keep);
      assert r == if keep(s[0]) then [s[0]] + t else t;
      forall i | 0 <= i < |s| && keep(s[i])
        ensures s[i] in r
      {
        if i > 0 {
          assert s[i] == s[1..][i - 1];
        }
      }
    }
  }

  /** Filtering only drops elements: what remains keeps its relative order. */
  lemma {:induction false} FilterSubsequence<T>(s: seq<T>, keep: T -> bool)
    ensures SubsequenceOf(Filter(s, keep), s)
  {
    if s != [] {
      FilterSubsequence(s[1..], keep);
      var r := Filter(s, keep);
      if keep(s[0]) {
        assert r[0] == s[0] && r[1..] == Filter(s[1..], keep);
      } else if r != [] {
        assert keep(r[0]);
      }
    }
  }

  /** Filtering a sequence whose every element is kept changes nothing. */
  lemma {:induction false} FilterKeepsAll<T>(s: seq<T>, keep: T -> bool)
    ensures (forall i :: 0 <= i < |s| ==> keep(s[i])) ==> Filter(s, keep) == s
  {
    if s != [] && forall i :: 0 <= i < |s| ==> keep(s[i]) {
      FilterKeepsAll(s[1..], keep);
      assert s == [s[0]] + s[1..];
    }
  }

  /** A number with k decimal digits is written with k characters (k up to four). */
  lemma NatToStringLength(n: nat)
    ensures n < 10 ==> |NatToString(n)| == 1
    ensures 10 <= n < 100 ==> |NatToString(n)| == 2
    ensures 100 <= n < 1000 ==> |NatToString(n)| == 3
    ensures 1000 <= n < 10000 ==> |NatToString(n)| == 4
  {
    if n >= 10 {
      NatToStringStep(n);
      if n >= 100 {
        NatToStringStep(n / 10);
        if n >= 1000 {
          NatToStringStep(n / 100);
          assert n / 10 / 10 == n / 100;
          assert n / 100 / 10 == n / 1000;
        } else {
          assert n / 10 / 10 == n / 100;
        }
      }
    }
  }

  /** A number from 10000 on needs at least five digits. */
  lemma {:induction false} NatToStringLongAbove(n: nat)
    requires n >= 10000
    ensures |NatToString(n)| >= 5
  {
    NatToStringStep(n);
    if n / 10 >= 10000 {
      NatToStringLongAbove(n / 10);
    } else {
      NatToStringLength(n / 10);
    }
  }

  /** Zero-padding is padStart with '0' on the decimal digits. */
  lemma PaddedNumberIsPadStart(n: nat, width: nat)
    ensures PaddedNumber(n, width) == PadStart(NatToString(n), width, '0')
  {
  }

  /** From 1000 on, four-wide zero-padding changes nothing. */
  lemma PaddedFourFrom1000(n: nat)
    requires n >= 1000
    ensures PaddedNumber(n, 4) == NatToString(n)
  {
    if n < 10000 {
      NatToStringLength(n);
    } else {
      NatToStringLongAbove(n);
    }
  }

  lemma NatToStringStep(n: nat)
    requires n >= 10
    ensures |NatToString(n)| == |NatToString(n / 10)| + 1
  {
  }

  // ---------------------------------------------------------------------------
  // Math.max

  /** A result of Math.max over numbers that may be NaN: -Infinity for no
      arguments, NaN as soon as one argument is NaN. */
  datatype JsMax = NegInfinity | Finite(value: int) | NotANumber

  function MaxStep(m: JsMax, x: Option<int>): JsMax
  {
    match (m, x)
    case (NotANumber, _) => NotANumber
    case (_, None) => NotANumber
    case (NegInfinity, Some(v)) => Finite(v)
    case (Finite(a), Some(v)) => Finite(if v > a then v else a)
  }

  function MathMax(ns: seq<Option<int>>): JsMax
  {
    if ns == [] then NegInfinity else MaxStep(MathMax(ns[..|ns| - 1]), ns[|ns| - 1])
  }

  /** Math.max: -Infinity exactly for no numbers, NaN exactly when one is NaN,
      otherwise the largest number. */
  lemma {:induction false} MathMaxMeaning(ns: seq<Option<int>>)
    ensures MathMax(ns) == NegInfinity <==> ns == []
    ensures MathMax(ns) == NotANumber <==> exists i :: 0 <= i < |ns| && ns[i].None?
    ensures MathMax(ns).Finite? ==>
              && (forall i :: 0 <= i < |ns| ==> ns[i].Some? && ns[i].value <= MathMax(ns).value)
              && (exists i :: 0 <= i < |ns| && ns[i] == Some(MathMax(ns).value))
  {
    if ns != [] {
      var init := ns[..|ns| - 1];
      MathMaxMeaning(init);
      assert forall i :: 0 <= i < |init| ==> init[i] == ns[i];
      if MathMax(ns).Finite? && MathMax(init).Finite? {
        var i :| 0 <= i < |init| && init[i] == Some(MathMax(init).value);
        assert ns[i] == init[i];
      }
    }
  }

  // ---------------------------------------------------------------------------
  // Calendar

  /** The labels of a Japanese date: year (年), month (月), day (日). */
  const Nen := '\U{5E74}'
  const Gatsu := '\U{6708}'
  const Nichi := '\U{65E5}'

  /** The Gregorian leap-year rule. For negative years the truncating remainder of
      JavaScript and the Euclidean one here are zero together, so the rule agrees. */
  predicate IsLeapYear(year: int)
  {
    (year % 4 == 0 && year % 100 != 0) || year % 400 == 0
  }

  /** Number of days in `month` of `year`: 29/28 for February, 30 for April, June,
      September and November, 31 for every other month number. */
  function DaysInMonth(year: int, month: int): (d: int)
    ensures 28 <= d <= 31
    ensures month == 2 ==> (d == 29 <==> IsLeapYear(year))
  {
    if month == 2 then (if IsLeapYear(year) then 29 else 28)
    else if month == 4 || month == 6 || month == 9 || month == 11 then 30
    else 31
  }
}
