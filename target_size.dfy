/** parseTargetSize: reads a target size such as "1寸2分" (1 sun 2 bu, one bu being a
    tenth of a sun). Sizes are counted in tenths of a sun, so "1寸2分" is 12.

    The three regular expressions of the source are recognised by hand. Because
    neither 寸 nor 分 is a digit, every greedy digit group in these patterns can only
    end where the run of digits ends, so the matcher has no real choice besides the
    start position, and the leftmost start wins. */
module TargetSize {
  import opened Common

  const Sun: char := '\U{5BF8}'  // 寸
  const Bu: char := '\U{5206}'   // 分

  /** The end of the run of digits that starts at i. */
  function RunEnd(s: string, i: nat): (j: nat)
    requires i <= |s|
    ensures i <= j <= |s|
    ensures AllDigits(s[i..j])
    ensures j < |s| ==> !IsDigit(s[j])
    decreases |s| - i
  {
    if i < |s| && IsDigit(s[i]) then
      var j := RunEnd(s, i + 1);
      assert s[i..j] == [s[i]] + s[i + 1..j];
      j
    else i
  }

  // ---------------------------------------------------------------------------
  // What the regular expressions accept (reference definitions)

  /** /(\d+)寸(\d+)分/ can match s[p..r+1] with group 1 = s[p..q] and group 2 = s[q+1..r]. */
  ghost predicate CombinedMatch(s: string, p: nat, q: nat, r: nat)
  {
    p < q < r < |s| && q + 1 < r
    && AllDigits(s[p..q]) && s[q] == Sun && AllDigits(s[q + 1..r]) && s[r] == Bu
  }

  /** /(\d+)寸/ can match s[p..q+1] with group 1 = s[p..q]. */
  ghost predicate SunMatch(s: string, p: nat, q: nat)
  {
    p < q < |s| && AllDigits(s[p..q]) && s[q] == Sun
  }

  /** /^(\d+)分$/ matches s. */
  predicate BuOnlyMatch(s: string)
  {
    |s| >= 2 && AllDigits(s[..|s| - 1]) && s[|s| - 1] == Bu
  }

  // ---------------------------------------------------------------------------
  // The matcher

  /** Group values of /(\d+)寸(\d+)分/ when it matches starting at p. */
  function CombinedAt(s: string, p: nat): (m: Option<(nat, nat)>)
    requires p <= |s|
  {
    var q := RunEnd(s, p);
    if q == p || q == |s| || s[q] != Sun then None
    else
      var r := RunEnd(s, q + 1);
      if r == q + 1 || r == |s| || s[r] != Bu then None
      else Some((DigitsValue(s[p..q]), DigitsValue(s[q + 1..r])))
  }

  /** Value of group 1 of /(\d+)寸/ when it matches starting at p. */
  function SunAt(s: string, p: nat): (m: Option<nat>)
    requires p <= |s|
  {
    var q := RunEnd(s, p);
    if q == p || q == |s| || s[q] != Sun then None else Some(DigitsValue(s[p..q]))
  }

  /** A digit run is the only digit run ending before a non-digit. */
  lemma RunEndUnique(s: string, p: nat, q: nat)
    requires p <= q < |s| && AllDigits(s[p..q]) && !IsDigit(s[q])
    ensures RunEnd(s, p) == q
    decreases q - p
  {
    if p < q {
      assert s[p] == s[p..q][0];
      assert s[p + 1..q] == s[p..q][1..];
      RunEndUnique(s, p + 1, q);
    }
  }

  /** Every way the combined pattern can match at p is the one CombinedAt finds. */
  lemma CombinedAtExact(s: string, p: nat, q: nat, r: nat)
    requires CombinedMatch(s, p, q, r)
    ensures CombinedAt(s, p) == Some((DigitsValue(s[p..q]), DigitsValue(s[q + 1..r])))
  {
    RunEndUnique(s, p, q);
    RunEndUnique(s, q + 1, r);
  }

  /** CombinedAt finds a match only where the pattern matches. */
  lemma CombinedAtSound(s: string, p: nat)
    requires p <= |s| && CombinedAt(s, p).Some?
    ensures var q := RunEnd(s, p); var r := RunEnd(s, q + 1);
      CombinedMatch(s, p, q, r)
      && CombinedAt(s, p).value == (DigitsValue(s[p..q]), DigitsValue(s[q + 1..r]))
  {
  }

  lemma SunAtExact(s: string, p: nat, q: nat)
    requires SunMatch(s, p, q)
    ensures SunAt(s, p) == Some(DigitsValue(s[p..q]))
  {
    RunEndUnique(s, p, q);
  }

  lemma SunAtSound(s: string, p: nat)
    requires p <= |s| && SunAt(s, p).Some?
    ensures SunMatch(s, p, RunEnd(s, p))
  {
  }

  /** The leftmost combined match at or after p (String.prototype.match scans left to right). */
  function FirstCombined(s: string, p: nat): Option<(nat, nat)>
    requires p <= |s|
    decreases |s| - p
  {
    if CombinedAt(s, p).Some? then CombinedAt(s, p)
    else if p == |s| then None
    else FirstCombined(s, p + 1)
  }

  function FirstSun(s: string, p: nat): Option<nat>
    requires p <= |s|
    decreases |s| - p
  {
    if SunAt(s, p).Some? then SunAt(s, p)
    else if p == |s| then None
    else FirstSun(s, p + 1)
  }

  /** parseTargetSize, in tenths of a sun; None stands for null. */
  function ParseTargetSize(s: string): Option<nat>
  {
    var combined := FirstCombined(s, 0);
    if combined.Some? then Some(combined.value.0 * 10 + combined.value.1)
    else
      var single := FirstSun(s, 0);
      if single.Some? then Some(single.value * 10)
      else if BuOnlyMatch(s) then Some(DigitsValue(s[..|s| - 1]))
      else None
  }

  // ---------------------------------------------------------------------------
  // Properties

  /** The leftmost N寸M分 anywhere in the string gives N*10+M tenths. */
  lemma {:induction false} CombinedWins(s: string, p: nat, q: nat, r: nat)
    requires CombinedMatch(s, p, q, r)
    requires forall p': nat, q': nat, r': nat :: p' < p && CombinedMatch(s, p', q', r') ==> false
    ensures ParseTargetSize(s) == Some(DigitsValue(s[p..q]) * 10 + DigitsValue(s[q + 1..r]))
  {
    CombinedAtExact(s, p, q, r);
    NoCombinedBefore(s, p);
    FirstCombinedIs(s, 0, p);
  }

  /** No combined match starting before p: CombinedAt finds none there. */
  lemma NoCombinedBefore(s: string, p: nat)
    requires p <= |s|
    requires forall p': nat, q': nat, r': nat :: p' < p && CombinedMatch(s, p', q', r') ==> false
    ensures forall k :: 0 <= k < p ==> CombinedAt(s, k).None?
  {
    forall k | 0 <= k < p
      ensures CombinedAt(s, k).None?
    {
      if CombinedAt(s, k).Some? {
        CombinedAtSound(s, k);
      }
    }
  }

  lemma {:induction false} FirstCombinedIs(s: string, from: nat, p: nat)
    requires from <= p <= |s| && CombinedAt(s, p).Some?
    requires forall k :: from <= k < p ==> CombinedAt(s, k).None?
    ensures FirstCombined(s, from) == CombinedAt(s, p)
    decreases p - from
  {
    if from < p {
      FirstCombinedIs(s, from + 1, p);
    }
  }

  lemma {:induction false} FirstSunIs(s: string, from: nat, p: nat)
    requires from <= p <= |s| && SunAt(s, p).Some?
    requires forall k :: from <= k < p ==> SunAt(s, k).None?
    ensures FirstSun(s, from) == SunAt(s, p)
    decreases p - from
  {
    if from < p {
      FirstSunIs(s, from + 1, p);
    }
  }

  /** The scan finds nothing exactly when no start position at or after p matches. */
  lemma {:induction false} FirstCombinedNone(s: string, p: nat)
    requires p <= |s|
    ensures FirstCombined(s, p).None? <==> forall k :: p <= k <= |s| ==> CombinedAt(s, k).None?
    decreases |s| - p
  {
    if CombinedAt(s, p).None? && p < |s| {
      FirstCombinedNone(s, p + 1);
    }
  }

  lemma {:induction false} FirstSunNone(s: string, p: nat)
    requires p <= |s|
    ensures FirstSun(s, p).None? <==> forall k :: p <= k <= |s| ==> SunAt(s, k).None?
    decreases |s| - p
  {
    if SunAt(s, p).None? && p < |s| {
      FirstSunNone(s, p + 1);
    }
  }

  /** Without any N寸M分, the leftmost N寸 gives N*10 tenths. */
  lemma {:induction false} SunWins(s: string, p: nat, q: nat)
    requires forall p': nat, q': nat, r': nat :: CombinedMatch(s, p', q', r') ==> false
    requires SunMatch(s, p, q)
    requires forall p': nat, q': nat :: p' < p && SunMatch(s, p', q') ==> false
    ensures ParseTargetSize(s) == Some(DigitsValue(s[p..q]) * 10)
  {
    NoCombined(s);
    SunAtExact(s, p, q);
    forall k | 0 <= k < p
      ensures SunAt(s, k).None?
    {
      if SunAt(s, k).Some? {
        SunAtSound(s, k);
      }
    }
    FirstSunIs(s, 0, p);
  }

  lemma NoCombined(s: string)
    requires forall p': nat, q': nat, r': nat :: CombinedMatch(s, p', q', r') ==> false
    ensures FirstCombined(s, 0).None?
  {
    forall k | 0 <= k <= |s|
      ensures CombinedAt(s, k).None?
    {
      if CombinedAt(s, k).Some? {
        CombinedAtSound(s, k);
      }
    }
    FirstCombinedNone(s, 0);
  }

  /** Without N寸M分 or N寸, only a whole string "M分" gives a size (M tenths); anything
      else gives null. */
  lemma {:induction false} BuOnlyLast(s: string)
    requires forall p': nat, q': nat, r': nat :: CombinedMatch(s, p', q', r') ==> false
    requires forall p': nat, q': nat :: SunMatch(s, p', q') ==> false
    ensures ParseTargetSize(s).Some? <==> BuOnlyMatch(s)
    ensures BuOnlyMatch(s) ==> ParseTargetSize(s) == Some(DigitsValue(s[..|s| - 1]))
  {
    NoCombined(s);
    forall k | 0 <= k <= |s|
      ensures SunAt(s, k).None?
    {
      if SunAt(s, k).Some? {
        SunAtSound(s, k);
      }
    }
    FirstSunNone(s, 0);
  }

  /** A size in sun alone is a whole number of sun. */
  lemma SunOnlyIsWhole(s: string)
    requires FirstCombined(s, 0).None? && FirstSun(s, 0).Some?
    ensures ParseTargetSize(s).Some? && ParseTargetSize(s).value % 10 == 0
  {
  }

  /** The documented examples: "1寸2分" is 12 tenths, "2寸4分" 24, "1寸" 10, "8分" 8, "-" none. */
  lemma ExampleCombined()
    ensures ParseTargetSize("1\U{5BF8}2\U{5206}") == Some(12)
    ensures ParseTargetSize("2\U{5BF8}4\U{5206}") == Some(24)
  {
    ExampleCombinedAt("1\U{5BF8}2\U{5206}");
    ExampleCombinedAt("2\U{5BF8}4\U{5206}");
  }

  /** A four-character "N寸M分" with single digits N and M gives N*10+M tenths. */
  lemma ExampleCombinedAt(a: string)
    requires |a| == 4 && IsDigit(a[0]) && a[1] == Sun && IsDigit(a[2]) && a[3] == Bu
    ensures ParseTargetSize(a) == Some(DigitValue(a[0]) * 10 + DigitValue(a[2]))
  {
    assert a[0..1] == [a[0]] && a[2..3] == [a[2]];
    assert DigitsValue([a[0]]) == DigitsValue([a[0]][..0]) * 10 + DigitValue(a[0]);
    assert DigitsValue([a[2]]) == DigitsValue([a[2]][..0]) * 10 + DigitValue(a[2]);
    CombinedWins(a, 0, 1, 3);
  }

  lemma ExampleSunOnly()
    ensures ParseTargetSize("1\U{5BF8}") == Some(10)
  {
    var c := "1\U{5BF8}";
    assert RunEnd(c, 2) == 2 && RunEnd(c, 1) == 1 && RunEnd(c, 0) == 1;
    assert CombinedAt(c, 0).None? && CombinedAt(c, 1).None? && CombinedAt(c, 2).None?;
    assert c[0..1] == "1";
    assert SunAt(c, 0) == Some(1);
  }

  lemma ExampleBuOnly()
    ensures ParseTargetSize("8\U{5206}") == Some(8)
    ensures ParseTargetSize("-") == None
  {
    var d := "8\U{5206}";
    assert RunEnd(d, 2) == 2 && RunEnd(d, 1) == 1 && RunEnd(d, 0) == 1;
    assert SunAt(d, 0).None? && SunAt(d, 1).None? && SunAt(d, 2).None?;
    assert CombinedAt(d, 0).None? && CombinedAt(d, 1).None? && CombinedAt(d, 2).None?;
    assert d[..1] == "8";
    assert FirstCombined(d, 0).None? && FirstSun(d, 0).None? && BuOnlyMatch(d);
    assert DigitsValue(d[..1]) == DigitsValue(d[..1][..0]) * 10 + 8;
    var e := "-";
    assert RunEnd(e, 1) == 1 && RunEnd(e, 0) == 0;
    assert SunAt(e, 0).None? && SunAt(e, 1).None?;
    assert CombinedAt(e, 0).None? && CombinedAt(e, 1).None?;
  }
}
