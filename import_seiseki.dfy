/** The monthly import script (scripts/import-seiseki.ts): command-line parsing, the
    filter that turns table rows into entries, the placeholder dates it gives them,
    and the prepend that records the month in the archive index. The page download,
    HTML parsing and file writes are not modelled: rows arrive as their cells' texts
    and the index file as a value. */
module ImportSeiseki {
  import opened Common
  import opened Types
  import SeisekiStore
  import SeisekiCard
  import DateInput

  // ---------------------------------------------------------------------------
  // parseArgs

  /** fetch, file, year and month; None for null and for a NaN from parseInt. */
  datatype Options = Options(fetch: bool, file: Option<string>, year: Option<int>, month: Option<int>)

  const Initial := Options(false, None, None, None)

  const MissingPeriod := "Error: --year and --month are required"
  const MissingSource := "Error: Either --fetch or --file must be specified"

  /** The argument after position i exists and is not empty (a truthiness test). */
  predicate HasValue(args: seq<string>, i: nat)
  {
    i + 1 < |args| && args[i + 1] != ""
  }

  /** The options after reading the arguments from position i on. */
  function ParseFrom(args: seq<string>, i: nat, o: Options): Options
    decreases |args| - i
  {
    if i >= |args| then o
    else if args[i] == "--fetch" then ParseFrom(args, i + 1, o.(fetch := true))
    else if args[i] == "--file" && HasValue(args, i) then ParseFrom(args, i + 2, o.(file := Some(args[i + 1])))
    else if args[i] == "--year" && HasValue(args, i) then ParseFrom(args, i + 2, o.(year := ParseInt(args[i + 1], true)))
    else if args[i] == "--month" && HasValue(args, i) then ParseFrom(args, i + 2, o.(month := ParseInt(args[i + 1], true)))
    else ParseFrom(args, i + 1, o)
  }

  /** The options, or the message printed before exiting with status 1. */
  datatype ArgsResult = Parsed(options: Options) | ArgsError(message: string)

  /** A number that is present and not 0 (NaN is None). */
  predicate Truthy(x: Option<int>)
  {
    x.Some? && x.value != 0
  }

  /** The two checks after the loop. */
  function CheckOptions(o: Options): (r: ArgsResult)
    ensures r.Parsed? <==> Truthy(o.year) && Truthy(o.month) && (o.fetch || o.file.Some?)
    ensures r.Parsed? ==> r.options == o
    ensures !(Truthy(o.year) && Truthy(o.month)) ==> r == ArgsError(MissingPeriod)
    ensures Truthy(o.year) && Truthy(o.month) && !o.fetch && o.file.None? ==> r == ArgsError(MissingSource)
  {
    if !Truthy(o.year) || !Truthy(o.month) then ArgsError(MissingPeriod)
    else if !o.fetch && o.file.None? then ArgsError(MissingSource)
    else Parsed(o)
  }

  /** parseArgs: a walk over the arguments in which an option with a value consumes
      the next argument. */
  method ParseArgs(args: seq<string>) returns (r: ArgsResult)
    ensures r == CheckOptions(ParseFrom(args, 0, Initial))
  {
    var options := Initial;
    var i := 0;
    while i < |args|
      invariant i <= |args|
      invariant ParseFrom(args, 0, Initial) == ParseFrom(args, i, options)
      decreases |args| - i
    {
      if args[i] == "--fetch" {
        options := options.(fetch := true);
      } else if args[i] == "--file" && HasValue(args, i) {
        i := i + 1;
        options := options.(file := Some(args[i]));
      } else if args[i] == "--year" && HasValue(args, i) {
        i := i + 1;
        options := options.(year := ParseInt(args[i], true));
      } else if args[i] == "--month" && HasValue(args, i) {
        i := i + 1;
        options := options.(month := ParseInt(args[i], true));
      }
      i := i + 1;
    }
    r := CheckOptions(options);
  }

  /** Fetch is switched on only by a "--fetch" argument and never switched off. */
  lemma {:induction false} FetchOnlyFromFlag(args: seq<string>, i: nat, o: Options)
    ensures ParseFrom(args, i, o).fetch ==> o.fetch || exists k :: i <= k < |args| && args[k] == "--fetch"
    ensures o.fetch ==> ParseFrom(args, i, o).fetch
    decreases |args| - i
  {
    if i < |args| {
      if args[i] == "--fetch" {
        FetchOnlyFromFlag(args, i + 1, o.(fetch := true));
      } else if args[i] == "--file" && HasValue(args, i) {
        FetchOnlyFromFlag(args, i + 2, o.(file := Some(args[i + 1])));
      } else if args[i] == "--year" && HasValue(args, i) {
        FetchOnlyFromFlag(args, i + 2, o.(year := ParseInt(args[i + 1], true)));
      } else if args[i] == "--month" && HasValue(args, i) {
        FetchOnlyFromFlag(args, i + 2, o.(month := ParseInt(args[i + 1], true)));
      } else {
        FetchOnlyFromFlag(args, i + 1, o);
      }
    }
  }

  /** Both documented command lines are accepted for any year and month written in
      digits and not 0, and give exactly those options. */
  lemma UsageLinesAccepted(y: string, m: string, file: string)
    requires y != "" && AllDigits(y) && DigitsValue(y) != 0
    requires m != "" && AllDigits(m) && DigitsValue(m) != 0
    requires file != ""
    ensures CheckOptions(ParseFrom(["--fetch", "--year", y, "--month", m], 0, Initial))
      == Parsed(Options(true, None, Some(DigitsValue(y)), Some(DigitsValue(m))))
    ensures CheckOptions(ParseFrom(["--file", file, "--year", y, "--month", m], 0, Initial))
      == Parsed(Options(false, Some(file), Some(DigitsValue(y)), Some(DigitsValue(m))))
  {
    ParseIntOfDigits(y, true);
    ParseIntOfDigits(m, true);
    FlagsDiffer();
    var a := ["--fetch", "--year", y, "--month", m];
    var o1 := Initial.(fetch := true);
    var o2 := o1.(year := Some(DigitsValue(y)));
    var o3 := o2.(month := Some(DigitsValue(m)));
    assert ParseFrom(a, 0, Initial) == ParseFrom(a, 1, o1);
    assert ParseFrom(a, 1, o1) == ParseFrom(a, 3, o2);
    assert ParseFrom(a, 3, o2) == ParseFrom(a, 5, o3) == o3;
    var b := ["--file", file, "--year", y, "--month", m];
    var p1 := Initial.(file := Some(file));
    var p2 := p1.(year := Some(DigitsValue(y)));
    var p3 := p2.(month := Some(DigitsValue(m)));
    assert ParseFrom(b, 0, Initial) == ParseFrom(b, 2, p1);
    assert ParseFrom(b, 2, p1) == ParseFrom(b, 4, p2);
    assert ParseFrom(b, 4, p2) == ParseFrom(b, 6, p3) == p3;
  }

  /** The four option names are different strings. */
  lemma FlagsDiffer()
    ensures "--fetch" != "--file" && "--fetch" != "--year" && "--fetch" != "--month"
    ensures "--file" != "--year" && "--file" != "--month" && "--year" != "--month"
  {
    assert "--fetch"[3] == 'e' && "--file"[3] == 'i';
    assert "--fetch"[2] == 'f' && "--year"[2] == 'y' && "--month"[2] == 'm';
    assert "--file"[2] == 'f';
  }

  /** An option with nothing after it is ignored: a trailing "--year" leaves the year
      unset and the command is refused. */
  lemma TrailingFlagIgnored(m: string)
    ensures CheckOptions(ParseFrom(["--fetch", "--month", m, "--year"], 0, Initial)) == ArgsError(MissingPeriod)
  {
    FlagsDiffer();
    var a := ["--fetch", "--month", m, "--year"];
    var o1 := Initial.(fetch := true);
    var o2 := if m != "" then o1.(month := ParseInt(m, true)) else o1;
    assert ParseFrom(a, 0, Initial) == ParseFrom(a, 1, o1);
    if m != "" {
      assert ParseFrom(a, 1, o1) == ParseFrom(a, 3, o2);
    } else {
      assert ParseFrom(a, 1, o1) == ParseFrom(a, 2, o1);
      assert ParseFrom(a, 2, o1) == ParseFrom(a, 3, o1);
    }
    assert !HasValue(a, 3);
    assert ParseFrom(a, 3, o2) == ParseFrom(a, 4, o2) == o2;
  }

  // ---------------------------------------------------------------------------
  // Dates

  /** The month before: January goes back to December of the year before. */
  function PreviousMonth(year: int, month: int): (ym: YearMonth)
    ensures 1 <= month <= 12 ==> 1 <= ym.month <= 12 && Ordinal(ym.year, ym.month) == Ordinal(year, month) - 1
  {
    if month == 1 then YearMonth(year - 1, 12) else YearMonth(year, month - 1)
  }

  /** calculateUpdatedDate: the 24th of the month before, as YYYY-MM-24 (the year as
      JavaScript writes it, the month padded to two). */
  function CalculateUpdatedDate(year: int, month: int): string
  {
    var prev := PreviousMonth(year, month);
    SeisekiCard.DateText(IntToString(prev.year), PadStart(IntToString(prev.month), 2, '0'), "24")
  }

  /** For the months 1..12 of years 1001..9999 the updated date is the ISO date of
      the 24th of the month before. */
  lemma UpdatedDateIsIso(year: nat, month: nat)
    requires 1001 <= year <= 9999 && 1 <= month <= 12
    ensures var prev := PreviousMonth(year, month);
      CalculateUpdatedDate(year, month) == SeisekiCard.IsoDate(prev.year, prev.month, 24)
  {
    var prev := PreviousMonth(year, month);
    PaddedFourFrom1000(prev.year);
    PaddedNumberIsPadStart(prev.month, 2);
    TwoDigitLiterals();
  }

  /** The cards show that date as "M/24", M the month before. */
  lemma UpdatedDateShown(year: nat, month: nat)
    requires 1001 <= year <= 9999 && 1 <= month <= 12
    ensures SeisekiCard.FormatShortDate(CalculateUpdatedDate(year, month)) == NatToString(PreviousMonth(year, month).month) + "/24"
  {
    var prev := PreviousMonth(year, month);
    UpdatedDateIsIso(year, month);
    TwoDigitLiterals();
    SeisekiCard.FormatIsoDate(prev.year, prev.month, 24);
    SlashDay(NatToString(prev.month));
  }

  lemma SlashDay(a: string)
    ensures a + "/" + "24" == a + "/24"
  {
    assert "/" + "24" == "/24";
  }

  /** The two padded days the script writes. */
  lemma TwoDigitLiterals()
    ensures PaddedNumber(24, 2) == "24" && NatToString(24) == "24"
    ensures PaddedNumber(1, 2) == "01"
  {
    assert NatToString(2) == "2";
    assert NatToString(24) == NatToString(2) + [DigitChar(4)];
    assert NatToString(1) == "1";
  }

  /** The parts of an ISO date string. */
  function IsoYear(s: string): nat
    requires SeisekiCard.IsoDateShaped(s)
  {
    DigitsValue(s[..4])
  }

  function IsoMonth(s: string): nat
    requires SeisekiCard.IsoDateShaped(s)
  {
    DigitsValue(s[5..7])
  }

  function IsoDay(s: string): nat
    requires SeisekiCard.IsoDateShaped(s)
  {
    DigitsValue(s[8..])
  }

  /** An ISO date naming a day that exists: a month in 1..12 and a day within it. */
  predicate IsoDateValid(s: string)
  {
    && SeisekiCard.IsoDateShaped(s)
    && 1 <= IsoMonth(s) <= 12
    && 1 <= IsoDay(s) <= DaysInMonth(IsoYear(s), IsoMonth(s))
  }

  /** The month setMonth(getMonth() + 3) lands in from day `day` of month `m` (a
      month count): three months on, or one more when that month is shorter than
      the day, since Date rolls the surplus days into the following month. */
  function ShiftedMonth(m: int, day: int): YearMonth
  {
    var t := FromOrdinal(m + 3);
    if day <= DaysInMonth(t.year, t.month) then t else FromOrdinal(m + 4)
  }

  /** calculateExpiryDate: move the date three months on (with the day rolling over
      when the target month is too short), then to the first of that month. The
      date is read as the local date it names. A string that names no existing day
      is an invalid Date, whose parts print as NaN. */
  function CalculateExpiryDate(updatedDate: string): (r: string)
  {
    if IsoDateValid(updatedDate) then
      FirstOfMonthText(ShiftedMonth(Ordinal(IsoYear(updatedDate), IsoMonth(updatedDate)), IsoDay(updatedDate)))
    else "NaN-NaN-NaN"
  }

  /** The local date parts of the first of a month, written as the script does. */
  function FirstOfMonthText(ym: YearMonth): string
  {
    SeisekiCard.DateText(IntToString(ym.year), PadStart(IntToString(ym.month), 2, '0'), "01")
  }

  /** For years from 1000 on that is the ISO date of the first of the month. */
  lemma FirstOfMonthIso(ym: YearMonth)
    requires ym.year >= 1000 && 1 <= ym.month <= 12
    ensures FirstOfMonthText(ym) == SeisekiCard.IsoDate(ym.year, ym.month, 1)
  {
    PaddedFourFrom1000(ym.year);
    PaddedNumberIsPadStart(ym.month, 2);
    TwoDigitLiterals();
  }

  /** The parts of a written ISO date read back as the numbers written. */
  lemma IsoDateParts(year: nat, month: nat, day: nat)
    requires year < 10000 && month < 100 && day < 100
    ensures SeisekiCard.IsoDateShaped(SeisekiCard.IsoDate(year, month, day))
    ensures IsoYear(SeisekiCard.IsoDate(year, month, day)) == year
    ensures IsoMonth(SeisekiCard.IsoDate(year, month, day)) == month
    ensures IsoDay(SeisekiCard.IsoDate(year, month, day)) == day
  {
    SeisekiCard.IsoDateFields(year, month, day);
  }

  /** The expiry date of an existing day: the first of the month three months on
      when that month has the day, otherwise the first of the month after it. */
  lemma ExpiryOfIsoDate(year: nat, month: nat, day: nat, target: int)
    requires year < 10000 && 1 <= month <= 12 && 1 <= day <= DaysInMonth(year, month)
    requires target == Ordinal(year, month) + 3
    ensures day <= DaysInMonth(FromOrdinal(target).year, FromOrdinal(target).month) ==>
              CalculateExpiryDate(SeisekiCard.IsoDate(year, month, day)) == FirstOfMonthText(FromOrdinal(target))
    ensures day > DaysInMonth(FromOrdinal(target).year, FromOrdinal(target).month) ==>
              CalculateExpiryDate(SeisekiCard.IsoDate(year, month, day)) == FirstOfMonthText(FromOrdinal(target + 1))
    ensures day <= 28 ==> CalculateExpiryDate(SeisekiCard.IsoDate(year, month, day)) == FirstOfMonthText(FromOrdinal(target))
  {
    IsoDateParts(year, month, day);
    ExpiryOfParts(SeisekiCard.IsoDate(year, month, day), year, month, day);
    ShiftedMonthCases(Ordinal(year, month), day, target);
  }

  /** A day the month does not have, or day 0, gives an invalid Date. */
  lemma ExpiryOfMissingDay(year: nat, month: nat, day: nat)
    requires year < 10000 && month < 100 && day < 100
    requires month == 0 || month > 12 || day == 0 || day > DaysInMonth(year, month)
    ensures CalculateExpiryDate(SeisekiCard.IsoDate(year, month, day)) == "NaN-NaN-NaN"
  {
    IsoDateParts(year, month, day);
    ExpiryOfParts(SeisekiCard.IsoDate(year, month, day), year, month, day);
  }

  lemma ExpiryOfParts(u: string, year: int, month: int, day: int)
    requires SeisekiCard.IsoDateShaped(u) && IsoYear(u) == year && IsoMonth(u) == month && IsoDay(u) == day
    ensures CalculateExpiryDate(u) ==
              if 1 <= month <= 12 && 1 <= day <= DaysInMonth(year, month)
              then FirstOfMonthText(ShiftedMonth(Ordinal(year, month), day))
              else "NaN-NaN-NaN"
  {
  }

  lemma ShiftedMonthCases(m: int, day: int, target: int)
    requires target == m + 3
    ensures day <= DaysInMonth(FromOrdinal(target).year, FromOrdinal(target).month) ==> ShiftedMonth(m, day) == FromOrdinal(target)
    ensures day > DaysInMonth(FromOrdinal(target).year, FromOrdinal(target).month) ==> ShiftedMonth(m, day) == FromOrdinal(target + 1)
    ensures day <= 28 ==> ShiftedMonth(m, day) == FromOrdinal(target)
  {
  }

  /** The 30th of November rolls over: 30 February is 2 March, so the expiry is the
      first of March, not of February. */
  lemma ExpiryRollsOver()
    ensures CalculateExpiryDate(SeisekiCard.IsoDate(2025, 11, 30)) == FirstOfMonthText(YearMonth(2026, 3))
  {
    var t := Ordinal(2025, 11) + 3;
    assert t == Ordinal(2026, 2) && t + 1 == Ordinal(2026, 3);
    OrdinalRoundTrip(2026, 2);
    OrdinalRoundTrip(2026, 3);
    assert DaysInMonth(2026, 2) == 28;
    ExpiryOfIsoDate(2025, 11, 30, t);
  }

  /** That expiry is written "2026-03-01". */
  lemma FirstOfMarchText()
    ensures FirstOfMonthText(YearMonth(2026, 3)) == "2026-03-01"
  {
    assert NatToString(2026) == "2026" by {
      assert NatToString(2) == "2";
      assert NatToString(20) == NatToString(2) + [DigitChar(0)];
      assert NatToString(202) == NatToString(20) + [DigitChar(2)];
      assert NatToString(2026) == NatToString(202) + [DigitChar(6)];
    }
    assert NatToString(3) == "3";
  }

  /** An entry imported for a month of years 1001..9999 expires on the first of the
      month two months after the month it is imported for (an ISO date, by
      FirstOfMonthIso). */
  lemma ExpiryTwoMonthsAfterImport(year: nat, month: nat)
    requires 1001 <= year <= 9999 && 1 <= month <= 12
    ensures CalculateExpiryDate(CalculateUpdatedDate(year, month)) == FirstOfMonthText(FromOrdinal(Ordinal(year, month) + 2))
    ensures FromOrdinal(Ordinal(year, month) + 2).year >= 1000
  {
    var prev := PreviousMonth(year, month);
    var target := Ordinal(year, month) + 2;
    assert Ordinal(prev.year, prev.month) + 3 == target;
    var iso := SeisekiCard.IsoDate(prev.year, prev.month, 24);
    assert CalculateUpdatedDate(year, month) == iso by {
      UpdatedDateIsIso(year, month);
    }
    assert CalculateExpiryDate(iso) == FirstOfMonthText(FromOrdinal(target)) by {
      ExpiryOfIsoDate(prev.year, prev.month, 24, target);
    }
  }

  // ---------------------------------------------------------------------------
  // The row filter of parseSeisekiData

  /** One table row (its cells' texts) read as an entry: it needs four cells, a
      rank cell whose digits give a number other than 0, and a non-blank name. The
      entry has no personId. */
  function RowEntry(cells: seq<string>, id: string, updatedDate: string, expiryDate: string): (e: Option<SeisekiEntry>)
    ensures e.Some? ==> e.value.rank > 0 && e.value.name != "" && e.value.id == id && e.value.personId == None
  {
    if |cells| < 4 then None
    else
      var rankText := JsTrim(cells[0]);
      var name := JsTrim(cells[1]);
      var digits := DateInput.KeepDigits(rankText);
      var rank := ParseInt(digits, true);
      ParseIntOfKeptDigits(digits);
      if rank.Some? && rank.value != 0 && name != "" then
        Some(SeisekiEntry(id, None, "", rank.value, name, JsTrim(cells[2]), JsTrim(cells[3]),
                          updatedDate, expiryDate, false))
      else None
  }

  /** A row is taken exactly when it has four cells, the digits of its rank cell
      give a number other than 0 and its name is not blank; the entry's rank is that
      number and its name the trimmed cell. */
  lemma RowEntryMeaning(cells: seq<string>, id: string, updatedDate: string, expiryDate: string)
    ensures var e := RowEntry(cells, id, updatedDate, expiryDate);
      && (e.Some? <==>
            && |cells| >= 4
            && DateInput.KeepDigits(JsTrim(cells[0])) != ""
            && DigitsValue(DateInput.KeepDigits(JsTrim(cells[0]))) != 0
            && JsTrim(cells[1]) != "")
      && (e.Some? ==>
            && e.value.rank == DigitsValue(DateInput.KeepDigits(JsTrim(cells[0])))
            && e.value.name == JsTrim(cells[1]) && e.value.rankTitle == JsTrim(cells[2])
            && e.value.targetSize == JsTrim(cells[3])
            && e.value.updatedDate == updatedDate && e.value.expiryDate == expiryDate)
  {
    if |cells| >= 4 {
      ParseIntOfKeptDigits(DateInput.KeepDigits(JsTrim(cells[0])));
    }
  }

  /** parseInt of a string of digits: NaN when empty, otherwise its value. */
  lemma ParseIntOfKeptDigits(d: string)
    requires AllDigits(d)
    ensures d == "" ==> ParseInt(d, true) == None
    ensures d != "" ==> ParseInt(d, true) == Some(DigitsValue(d))
  {
    if d != "" {
      ParseIntOfDigits(d, true);
    }
  }

  /** What every imported entry has: a positive rank, a name, and no personId yet. */
  predicate Imported(entries: seq<SeisekiEntry>)
  {
    forall i :: 0 <= i < |entries| ==> entries[i].rank > 0 && entries[i].name != "" && entries[i].personId == None
  }

  /** The entries of the data rows before row k (row 0, the header, is skipped), in
      table order; row j gets the fresh id ids[j]. Every one passed the row filter. */
  function RowEntries(rows: seq<seq<string>>, ids: seq<string>, k: nat, updatedDate: string, expiryDate: string): (r: seq<SeisekiEntry>)
    requires |ids| == |rows| && k <= |rows|
    ensures |r| < k || k == 0
    ensures Imported(r)
    decreases k
  {
    if k <= 1 then []
    else
      var front := RowEntries(rows, ids, k - 1, updatedDate, expiryDate);
      match RowEntry(rows[k - 1], ids[k - 1], updatedDate, expiryDate)
      case Some(e) => front + [e]
      case None => front
  }

  /** One more data row: its entry, if it has one, goes at the end. */
  lemma RowEntriesStep(rows: seq<seq<string>>, ids: seq<string>, k: nat, updatedDate: string, expiryDate: string)
    requires |ids| == |rows| && 1 <= k < |rows|
    ensures RowEntries(rows, ids, k + 1, updatedDate, expiryDate) ==
      RowEntries(rows, ids, k, updatedDate, expiryDate)
      + (var e := RowEntry(rows[k], ids[k], updatedDate, expiryDate); if e.Some? then [e.value] else [])
  {
  }

  /** parseSeisekiData's walk over the rows after the header, with its push. Every
      entry gets the same two dates; the script recomputes them per row from the
      same year and month. */
  method ParseRows(rows: seq<seq<string>>, ids: seq<string>, year: int, month: int) returns (entries: seq<SeisekiEntry>)
    requires |ids| == |rows|
    ensures entries == RowEntries(rows, ids, |rows|, CalculateUpdatedDate(year, month), CalculateExpiryDate(CalculateUpdatedDate(year, month)))
    ensures Imported(entries)
  {
    var updatedDate := CalculateUpdatedDate(year, month);
    var expiryDate := CalculateExpiryDate(updatedDate);
    entries := [];
    if |rows| == 0 {
      return;
    }
    var k := 1;
    while k < |rows|
      invariant 1 <= k <= |rows|
      invariant entries == RowEntries(rows, ids, k, updatedDate, expiryDate)
    {
      var e := RowEntry(rows[k], ids[k], updatedDate, expiryDate);
      RowEntriesStep(rows, ids, k, updatedDate, expiryDate);
      if e.Some? {
        entries := entries + [e.value];
      }
      k := k + 1;
    }
  }

  // ---------------------------------------------------------------------------
  // updateIndex

  /** The year the Date constructor uses: 0..99 mean 1900..1999. */
  function JsDateYear(year: int): int
  {
    if 0 <= year <= 99 then 1900 + year else year
  }

  /** new Date(year, month, 0).getDate(): the last day of the given month, months
      outside 1..12 counted on into the neighbouring years. */
  function LastDay(year: int, month: int): (d: int)
    ensures 28 <= d <= 31
  {
    var y := JsDateYear(year) + (month - 1) / 12;
    var m := (month - 1) % 12 + 1;
    DaysInMonth(y, m)
  }

  /** For an ordinary year and month it is the month's length. */
  lemma LastDayOfMonth(year: int, month: int)
    requires 1 <= month <= 12 && !(0 <= year <= 99)
    ensures LastDay(year, month) == DaysInMonth(year, month)
  {
  }

  /** The publishedAt written to the index: the last day of the month, at midnight. */
  function PublishedAt(year: int, month: int): string
  {
    IntToString(year) + "-" + PadStart(IntToString(month), 2, '0') + "-" + IntToString(LastDay(year, month)) + "T00:00:00.000Z"
  }

  /** The filter of updateIndex: every line of another month. */
  function OtherPeriod(year: int, month: int): ArchiveMetadata -> bool
  {
    (a: ArchiveMetadata) => !(a.year == year && a.month == month)
  }

  /** The archives after the import: the month's line first, then every other line
      in its old order. */
  function Reindexed(archives: seq<ArchiveMetadata>, year: int, month: int, entryCount: nat): (r: seq<ArchiveMetadata>)
    ensures |r| >= 1 && r[0] == ArchiveMetadata(year, month, entryCount, PublishedAt(year, month))
    ensures forall i :: 1 <= i < |r| ==> !(r[i].year == year && r[i].month == month)
    ensures SubsequenceOf(r[1..], archives)
    ensures forall a :: a in archives && !(a.year == year && a.month == month) ==> a in r[1..]
  {
    var rest := Filter(archives, OtherPeriod(year, month));
    FilterSubsequence(archives, OtherPeriod(year, month));
    FilterContents(archives, OtherPeriod(year, month));
    var r := [ArchiveMetadata(year, month, entryCount, PublishedAt(year, month))] + rest;
    assert r[1..] == rest;
    r
  }

  /** Index lines newest first. */
  predicate NewestFirst(archives: seq<ArchiveMetadata>)
  {
    forall i, j :: 0 <= i < j < |archives| ==> SeisekiStore.NotOlder(archives[i], archives[j])
  }

  /** Importing a month newer than every indexed one only prepends its line, so an
      index kept newest first stays so. */
  lemma NewestImportKeepsOrder(archives: seq<ArchiveMetadata>, year: int, month: int, entryCount: nat)
    requires NewestFirst(archives)
    requires forall i :: 0 <= i < |archives| ==>
      archives[i].year < year || (archives[i].year == year && archives[i].month < month)
    ensures Reindexed(archives, year, month, entryCount)
      == [ArchiveMetadata(year, month, entryCount, PublishedAt(year, month))] + archives
    ensures NewestFirst(Reindexed(archives, year, month, entryCount))
  {
    FilterKeepsAll(archives, OtherPeriod(year, month));
  }

  /** Importing an older month than the newest indexed one puts it first anyway: the
      index is then no longer newest first. */
  lemma ImportCanUnsortIndex()
    ensures NewestFirst([ArchiveMetadata(2024, 2, 1, "")])
    ensures !NewestFirst(Reindexed([ArchiveMetadata(2024, 2, 1, "")], 2024, 1, 1))
  {
    var r := Reindexed([ArchiveMetadata(2024, 2, 1, "")], 2024, 1, 1);
    assert ArchiveMetadata(2024, 2, 1, "") in r[1..];
    assert r[1] == ArchiveMetadata(2024, 2, 1, "");
    assert !SeisekiStore.NotOlder(r[0], r[1]);
  }

  /** The index file: its lines and its lastUpdated (null before the first write). */
  class IndexFile {
    var archives: seq<ArchiveMetadata>
    var lastUpdated: Option<string>

    /** A missing index file reads as no lines and no lastUpdated. */
    constructor ()
      ensures archives == [] && lastUpdated == None
    {
      archives := [];
      lastUpdated := None;
    }

    /** updateIndex: drops the month's old line, puts the new one first and stamps
        lastUpdated with its publishedAt; nothing is re-sorted. */
    method UpdateIndex(year: int, month: int, entryCount: nat)
      modifies this
      ensures archives == Reindexed(old(archives), year, month, entryCount)
      ensures lastUpdated == Some(PublishedAt(year, month))
    {
      archives := Filter(archives, OtherPeriod(year, month));
      var publishedAt := PublishedAt(year, month);
      archives := [ArchiveMetadata(year, month, entryCount, publishedAt)] + archives;
      lastUpdated := Some(publishedAt);
    }
  }
}
