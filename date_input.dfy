/** The admin date field (components/admin/DateInput.tsx): a Japanese date
    "YYYY年M月D日" edited as three digit-only boxes. It reads its value with an
    unanchored pattern match, validates the parts against the calendar, and hands
    back the date with unpadded numbers. */
module DateInput {
  import opened Common
  import SeisekiRoute

  /** The three boxes' texts. */
  datatype ParsedDate = ParsedDate(year: string, month: string, day: string)

  // ---------------------------------------------------------------------------
  // parseJapaneseDate: /(\d{4})年(\d{1,2})月(\d{1,2})日/, leftmost match

  /** One or two digits from q followed by `c`: the index of `c`. The regex is greedy,
      but at most one of the two lengths can be followed by a non-digit. */
  function DigitsThen(s: string, q: nat, c: char): (e: Option<nat>)
    requires !IsDigit(c)
    ensures e.Some? ==> q < e.value <= q + 2 && e.value < |s| && AllDigits(s[q..e.value]) && s[e.value] == c
    ensures e.None? ==> forall k :: q < k <= q + 2 && k < |s| ==> !(AllDigits(s[q..k]) && s[k] == c)
  {
    if q + 2 < |s| && IsDigit(s[q]) && IsDigit(s[q + 1]) && s[q + 2] == c then
      assert s[q..q + 2] == [s[q], s[q + 1]];
      Some(q + 2)
    else if q + 1 < |s| && IsDigit(s[q]) && s[q + 1] == c then
      assert s[q..q + 1] == [s[q]];
      Some(q + 1)
    else
      assert forall k :: q < k <= q + 2 && k < |s| ==> s[q..k][0] == s[q] && (k == q + 2 ==> s[q..k][1] == s[q + 1]);
      None
  }

  /** The match starting at p, as the three captured groups. */
  function DateMatchAt(s: string, p: nat): (g: Option<ParsedDate>)
  {
    if p + 4 < |s| && AllDigits(s[p..p + 4]) && s[p + 4] == Nen then
      match DigitsThen(s, p + 5, Gatsu)
      case None => None
      case Some(e) =>
        match DigitsThen(s, e + 1, Nichi)
        case None => None
        case Some(f) => Some(ParsedDate(s[p..p + 4], s[p + 5..e], s[e + 1..f]))
    else None
  }

  /** The pattern matches at p with groups y, m, d. */
  ghost predicate DateMatch(s: string, p: nat, y: string, m: string, d: string)
  {
    && |y| == 4 && 1 <= |m| <= 2 && 1 <= |d| <= 2
    && AllDigits(y) && AllDigits(m) && AllDigits(d)
    && p + |y| + |m| + |d| + 3 <= |s|
    && s[p..p + |y| + |m| + |d| + 3] == y + [Nen] + m + [Gatsu] + d + [Nichi]
  }

  /** Year digits and 年 at p, month digits up to the 月 at e, day digits up to the
      日 at f: a match of the pattern at p. */
  lemma DateMatchFromMarks(s: string, p: nat, e: nat, f: nat)
    requires p + 4 < |s| && AllDigits(s[p..p + 4]) && s[p + 4] == Nen
    requires p + 5 < e <= p + 7 && e < |s| && AllDigits(s[p + 5..e]) && s[e] == Gatsu
    requires e + 1 < f <= e + 3 && f < |s| && AllDigits(s[e + 1..f]) && s[f] == Nichi
    ensures DateMatch(s, p, s[p..p + 4], s[p + 5..e], s[e + 1..f])
  {
    SliceJoin(s, p, p + 4, p + 5);
    SliceJoin(s, p, p + 5, e);
    SliceJoin(s, p, e, e + 1);
    SliceJoin(s, p, e + 1, f);
    SliceJoin(s, p, f, f + 1);
    assert s[p + 4..p + 5] == [Nen];
    assert s[e..e + 1] == [Gatsu];
    assert s[f..f + 1] == [Nichi];
  }

  /** What the matcher at p finds is a match of the pattern there. */
  lemma DateMatchAtSound(s: string, p: nat)
    requires DateMatchAt(s, p).Some?
    ensures var g := DateMatchAt(s, p).value; DateMatch(s, p, g.year, g.month, g.day)
  {
    var e := DigitsThen(s, p + 5, Gatsu).value;
    var f := DigitsThen(s, e + 1, Nichi).value;
    assert DateMatchAt(s, p) == Some(ParsedDate(s[p..p + 4], s[p + 5..e], s[e + 1..f]));
    DateMatchFromMarks(s, p, e, f);
  }

  lemma SliceJoin(s: string, a: nat, b: nat, c: nat)
    requires a <= b <= c <= |s|
    ensures s[a..c] == s[a..b] + s[b..c]
  {
  }

  lemma SplitSlice(s: string, p: nat, a: string, b: string)
    requires p + |a| + |b| <= |s| && s[p..p + |a| + |b|] == a + b
    ensures s[p..p + |a|] == a && s[p + |a|..p + |a| + |b|] == b
  {
    assert s[p..p + |a|] == s[p..p + |a| + |b|][..|a|];
    assert s[p + |a|..p + |a| + |b|] == s[p..p + |a| + |b|][|a|..];
  }

  /** A match of the pattern at p, piece by piece. */
  lemma DateMatchPieces(s: string, p: nat, y: string, m: string, d: string)
    requires DateMatch(s, p, y, m, d)
    ensures s[p..p + 4] == y && s[p + 4] == Nen
    ensures s[p + 5..p + 5 + |m|] == m && s[p + 5 + |m|] == Gatsu
    ensures s[p + 6 + |m|..p + 6 + |m| + |d|] == d && s[p + 6 + |m| + |d|] == Nichi
  {
    var a1 := y + [Nen];
    var a2 := a1 + m;
    var a3 := a2 + [Gatsu];
    var a4 := a3 + d;
    SplitSlice(s, p, a4, [Nichi]);
    SplitSlice(s, p, a3, d);
    SplitSlice(s, p, a2, [Gatsu]);
    SplitSlice(s, p, a1, m);
    SplitSlice(s, p, y, [Nen]);
    assert s[p + 4..p + 5][0] == s[p + 4];
    assert s[p + 5 + |m|..p + 6 + |m|][0] == s[p + 5 + |m|];
    assert s[p + 6 + |m| + |d|..p + 7 + |m| + |d|][0] == s[p + 6 + |m| + |d|];
  }

  /** A match of the pattern at p is what the matcher finds there. */
  lemma DateMatchAtComplete(s: string, p: nat, y: string, m: string, d: string)
    requires DateMatch(s, p, y, m, d)
    ensures DateMatchAt(s, p) == Some(ParsedDate(y, m, d))
  {
    DateMatchPieces(s, p, y, m, d);
    var e := p + 5 + |m|;
    var f := e + 1 + |d|;
    assert DigitsThen(s, p + 5, Gatsu) == Some(e);
    assert DigitsThen(s, e + 1, Nichi) == Some(f);
  }

  /** The matcher at p finds exactly the match the pattern has there. */
  lemma DateMatchAtExact(s: string, p: nat, y: string, m: string, d: string)
    ensures DateMatchAt(s, p) == Some(ParsedDate(y, m, d)) <==> DateMatch(s, p, y, m, d)
  {
    if DateMatchAt(s, p) == Some(ParsedDate(y, m, d)) {
      DateMatchAtSound(s, p);
    }
    if DateMatch(s, p, y, m, d) {
      DateMatchAtComplete(s, p, y, m, d);
    }
  }

  /** The leftmost match at or after p. */
  function FirstDateMatch(s: string, p: nat): (g: Option<ParsedDate>)
    decreases |s| - p
    ensures g.None? <==> forall k: nat :: p <= k < |s| ==> DateMatchAt(s, k).None?
    ensures g.Some? ==> exists k: nat :: p <= k < |s| && DateMatchAt(s, k) == g
                                   && forall j: nat :: p <= j < k ==> DateMatchAt(s, j).None?
  {
    if p >= |s| then None
    else if DateMatchAt(s, p).Some? then DateMatchAt(s, p)
    else FirstDateMatch(s, p + 1)
  }

  /** parseJapaneseDate: the captured year, and month and day left-padded with "0" to
      two characters; three empty strings when nothing matches. */
  function ParseJapaneseDate(s: string): (r: ParsedDate)
    ensures AllDigits(r.year) && AllDigits(r.month) && AllDigits(r.day)
  {
    match FirstDateMatch(s, 0)
    case None => ParsedDate("", "", "")
    case Some(g) =>
      var r := ParsedDate(g.year, PadStart(g.month, 2, '0'), PadStart(g.day, 2, '0'));
      assert AllDigits(r.month) by { PadDigits(g.month); }
      assert AllDigits(r.day) by { PadDigits(g.day); }
      r
  }

  lemma PadDigits(s: string)
    requires AllDigits(s)
    ensures AllDigits(PadStart(s, 2, '0'))
  {
    var r := PadStart(s, 2, '0');
    forall i | 0 <= i < |r|
      ensures IsDigit(r[i])
    {
      if i >= |r| - |s| {
        assert r[i] == r[|r| - |s|..][i - (|r| - |s|)];
      }
    }
  }

  /** A value without any match reads as three empty boxes; with a match, the year box
      holds the four captured digits and month and day boxes two characters each. */
  lemma ParseJapaneseDateShape(s: string)
    ensures var r := ParseJapaneseDate(s);
      && (r.year == "" <==> forall k: nat :: k < |s| ==> DateMatchAt(s, k).None?)
      && (r.year == "" ==> r == ParsedDate("", "", ""))
      && (r.year != "" ==> (|r.year| == 4 && |r.month| == 2 && |r.day| == 2
            && exists k: nat, m: string, d: string :: (k < |s| && DateMatch(s, k, r.year, m, d)
                 && r.month == PadStart(m, 2, '0') && r.day == PadStart(d, 2, '0'))))
  {
    match FirstDateMatch(s, 0)
    case None =>
    case Some(g) =>
      var k: nat :| k < |s| && DateMatchAt(s, k) == Some(g);
      DateMatchAtExact(s, k, g.year, g.month, g.day);
  }

  // ---------------------------------------------------------------------------
  // validateAndUpdate

  /** The string handed back: the numbers without padding. */
  function FormatJapaneseDate(y: nat, m: nat, d: nat): string
  {
    NatToString(y) + [Nen] + NatToString(m) + [Gatsu] + NatToString(d) + [Nichi]
  }

  /** What validateAndUpdate does with three digit strings: hand a date back (the
      empty string when a part is missing) or set an error. */
  datatype DateVerdict = Emit(text: string) | Reject(error: string)

  function CheckDate(y: string, m: string, d: string): DateVerdict
    requires AllDigits(y) && AllDigits(m) && AllDigits(d)
  {
    if y == "" || m == "" || d == "" then Emit("")
    else
      var yearNum := DigitsValue(y);
      var monthNum := DigitsValue(m);
      var dayNum := DigitsValue(d);
      if monthNum < 1 || monthNum > 12 then Reject("Month must be between 1 and 12")
      else
        var maxDay := DaysInMonth(yearNum, monthNum);
        if dayNum < 1 || dayNum > maxDay then
          if monthNum == 2 then
            Reject("February " + NatToString(yearNum) + (if IsLeapYear(yearNum) then " has only 29 days" else " has only 28 days"))
          else Reject("This month has only " + NatToString(maxDay) + " days")
        else Emit(FormatJapaneseDate(yearNum, monthNum, dayNum))
  }

  /** An empty part hands back ""; otherwise a date is handed back exactly when the
      month is 1..12 and the day lies within that month of that year, and it is the
      three values written without padding. */
  lemma CheckDateMeaning(y: string, m: string, d: string)
    requires AllDigits(y) && AllDigits(m) && AllDigits(d)
    ensures y == "" || m == "" || d == "" ==> CheckDate(y, m, d) == Emit("")
    ensures y != "" && m != "" && d != "" ==>
      && (CheckDate(y, m, d).Emit? <==>
            1 <= DigitsValue(m) <= 12 && 1 <= DigitsValue(d) <= DaysInMonth(DigitsValue(y), DigitsValue(m)))
      && (CheckDate(y, m, d).Emit? ==>
            CheckDate(y, m, d).text == FormatJapaneseDate(DigitsValue(y), DigitsValue(m), DigitsValue(d)))
  {
  }

  /** A date handed back for a four-digit year reads back as the same year, month and
      day (the latter two padded), and passes the date check of the results endpoint. */
  lemma FormatParseRoundTrip(y: nat, m: nat, d: nat)
    requires 1000 <= y <= 9999 && 1 <= m <= 12 && 1 <= d <= 31
    ensures ParseJapaneseDate(FormatJapaneseDate(y, m, d))
      == ParsedDate(NatToString(y), PadStart(NatToString(m), 2, '0'), PadStart(NatToString(d), 2, '0'))
    ensures SeisekiRoute.IsJapaneseDate(FormatJapaneseDate(y, m, d))
  {
    var s := FormatJapaneseDate(y, m, d);
    var ys, ms, ds := NatToString(y), NatToString(m), NatToString(d);
    NatToStringLength(y);
    NatToStringLength(m);
    NatToStringLength(d);
    assert s[0..|ys| + |ms| + |ds| + 3] == s;
    DateMatchAtExact(s, 0, ys, ms, ds);
    assert DateMatchAt(s, 0) == Some(ParsedDate(ys, ms, ds));
    SeisekiRoute.IsJapaneseDateIff(s);
  }

  /** A month or day of one or two digits, padded to two, keeps its value. */
  lemma PaddedNatValue(n: nat)
    requires 1 <= n <= 99
    ensures DigitsValue(PadStart(NatToString(n), 2, '0')) == n
  {
    var ns := NatToString(n);
    NatToStringLength(n);
    var pn := PadStart(ns, 2, '0');
    assert pn == pn[..|pn| - |ns|] + ns;
    LeadingZerosValue(pn[..|pn| - |ns|], ns);
  }

  /** The parsed numbers are the original ones. */
  lemma FormatParseValues(y: nat, m: nat, d: nat)
    requires 1000 <= y <= 9999 && 1 <= m <= 12 && 1 <= d <= 31
    ensures var r := ParseJapaneseDate(FormatJapaneseDate(y, m, d));
      DigitsValue(r.year) == y && DigitsValue(r.month) == m && DigitsValue(r.day) == d
  {
    FormatParseRoundTrip(y, m, d);
    PaddedNatValue(m);
    PaddedNatValue(d);
  }

  /** "0999" reads as 999 and "01" as 1. */
  lemma LeadingZeroValues()
    ensures DigitsValue("0999") == 999 && DigitsValue("01") == 1
  {
    assert "0"[..0] == "" && "09"[..1] == "0" && "099"[..2] == "09" && "0999"[..3] == "099";
    assert "01"[..1] == "0";
    assert DigitsValue("0") == 0;
    assert DigitsValue("09") == 9;
    assert DigitsValue("099") == 99;
    assert DigitsValue("0999") == 999;
    assert DigitsValue("01") == 1;
  }

  /** The date handed back for year 999 has a three-digit year. */
  lemma ShortYearText()
    ensures FormatJapaneseDate(999, 1, 1) == "999" + [Nen] + "1" + [Gatsu] + "1" + [Nichi]
  {
    assert NatToString(999) == NatToString(99) + [DigitChar(9)];
    assert NatToString(99) == NatToString(9) + [DigitChar(9)];
  }

  /** A year typed with a leading zero loses it: "0999" gives "999年1月1日", which has
      no four-digit year, so the field cannot read back its own value and the results
      endpoint refuses it. */
  lemma LeadingZeroYearLost()
    ensures CheckDate("0999", "01", "01") == Emit(FormatJapaneseDate(999, 1, 1))
    ensures ParseJapaneseDate(FormatJapaneseDate(999, 1, 1)) == ParsedDate("", "", "")
    ensures !SeisekiRoute.IsJapaneseDate(FormatJapaneseDate(999, 1, 1))
  {
    LeadingZeroValues();
    ShortYearText();
    var s := FormatJapaneseDate(999, 1, 1);
    assert |s| == 8 && s[3] == Nen;
    assert forall k: nat :: k < |s| ==> DateMatchAt(s, k).None? by {
      forall k: nat | k < |s|
        ensures DateMatchAt(s, k).None?
      {
        if k + 4 < |s| {
          assert s[k + 4] != Nen;
        }
      }
    }
  }

  // ---------------------------------------------------------------------------
  // The change handlers

  /** replace(/[^0-9]/g, ""): the decimal digits of s, in order. */
  function KeepDigits(s: string): (r: string)
    ensures AllDigits(r) && |r| <= |s|
    ensures forall c :: c in r <==> c in s && IsDigit(c)
    ensures AllDigits(s) ==> r == s
    ensures SubsequenceOf(r, s)
  {
    FilterKeepsAll(s, IsDigit);
    FilterSubsequence(s, IsDigit);
    FilterContents(s, IsDigit);
    Filter(s, IsDigit)
  }

  /** The text a box keeps: its digits, cut to `width` characters. */
  function BoxText(raw: string, width: nat): (r: string)
    ensures AllDigits(r) && |r| <= width
    ensures |r| <= |KeepDigits(raw)| && r == KeepDigits(raw)[..|r|]
    ensures |KeepDigits(raw)| <= width ==> r == KeepDigits(raw)
  {
    var digits := KeepDigits(raw);
    if |digits| <= width then digits else digits[..width]
  }

  // ---------------------------------------------------------------------------
  // The component

  class DateField {
    var year: string
    var month: string
    var day: string
    var error: string

    /** The boxes hold digits only. */
    predicate Valid()
      reads this
    {
      AllDigits(year) && AllDigits(month) && AllDigits(day)
    }

    /** The initial state: the value parsed into the boxes, no error. */
    constructor (value: string)
      ensures ParsedDate(year, month, day) == ParseJapaneseDate(value) && error == ""
      ensures Valid()
    {
      var parsed := ParseJapaneseDate(value);
      year := parsed.year;
      month := parsed.month;
      day := parsed.day;
      error := "";
    }

    /** The effect run when the value changes from outside: the boxes follow it; the
        error is left as it is. */
    method SyncValue(value: string)
      modifies this
      ensures ParsedDate(year, month, day) == ParseJapaneseDate(value) && error == old(error)
      ensures Valid()
    {
      var parsed := ParseJapaneseDate(value);
      year := parsed.year;
      month := parsed.month;
      day := parsed.day;
    }

    /** validateAndUpdate: clears the error, then either hands a string back (the
        result; None when onChange is not called) or sets the error. */
    method ValidateAndUpdate(newYear: string, newMonth: string, newDay: string) returns (emitted: Option<string>)
      requires AllDigits(newYear) && AllDigits(newMonth) && AllDigits(newDay)
      modifies this`error
      ensures CheckDate(newYear, newMonth, newDay).Emit? ==>
        emitted == Some(CheckDate(newYear, newMonth, newDay).text) && error == ""
      ensures CheckDate(newYear, newMonth, newDay).Reject? ==>
        emitted == None && error == CheckDate(newYear, newMonth, newDay).error
    {
      error := "";
      if newYear == "" || newMonth == "" || newDay == "" {
        return Some("");
      }
      var yearNum := DigitsValue(newYear);
      var monthNum := DigitsValue(newMonth);
      var dayNum := DigitsValue(newDay);
      if monthNum < 1 || monthNum > 12 {
        error := "Month must be between 1 and 12";
        return None;
      }
      var maxDay := DaysInMonth(yearNum, monthNum);
      if dayNum < 1 || dayNum > maxDay {
        if monthNum == 2 {
          if IsLeapYear(yearNum) {
            error := "February " + NatToString(yearNum) + " has only 29 days";
          } else {
            error := "February " + NatToString(yearNum) + " has only 28 days";
          }
        } else {
          error := "This month has only " + NatToString(maxDay) + " days";
        }
        return None;
      }
      return Some(FormatJapaneseDate(yearNum, monthNum, dayNum));
    }

    /** handleYearChange: the year box keeps at most four digits, then the date is
        checked with the other two boxes as they are. */
    method HandleYearChange(raw: string) returns (emitted: Option<string>)
      requires Valid()
      modifies this
      ensures Valid()
      ensures year == BoxText(raw, 4) && month == old(month) && day == old(day)
      ensures CheckDate(year, month, day).Emit? ==> emitted == Some(CheckDate(year, month, day).text) && error == ""
      ensures CheckDate(year, month, day).Reject? ==> emitted == None && error == CheckDate(year, month, day).error
    {
      var newValue := BoxText(raw, 4);
      year := newValue;
      emitted := ValidateAndUpdate(newValue, month, day);
    }

    /** handleMonthChange: at most two digits. */
    method HandleMonthChange(raw: string) returns (emitted: Option<string>)
      requires Valid()
      modifies this
      ensures Valid()
      ensures month == BoxText(raw, 2) && year == old(year) && day == old(day)
      ensures CheckDate(year, month, day).Emit? ==> emitted == Some(CheckDate(year, month, day).text) && error == ""
      ensures CheckDate(year, month, day).Reject? ==> emitted == None && error == CheckDate(year, month, day).error
    {
      var newValue := BoxText(raw, 2);
      month := newValue;
      emitted := ValidateAndUpdate(year, newValue, day);
    }

    /** handleDayChange: at most two digits. */
    method HandleDayChange(raw: string) returns (emitted: Option<string>)
      requires Valid()
      modifies this
      ensures Valid()
      ensures day == BoxText(raw, 2) && year == old(year) && month == old(month)
      ensures CheckDate(year, month, day).Emit? ==> emitted == Some(CheckDate(year, month, day).text) && error == ""
      ensures CheckDate(year, month, day).Reject? ==> emitted == None && error == CheckDate(year, month, day).error
    {
      var newValue := BoxText(raw, 2);
      day := newValue;
      emitted := ValidateAndUpdate(year, month, newValue);
    }
  }
}
