/** The registry report (persons.md): a header, one table row per registered person,
    statistics, the people who carry a personKey, and a footer. */
module GeneratePersonsMd {
  import opened Common
  import opened Types
  import AddPersonIds
  import MigratePersons
  import Sorting
  import DataFiles

  // ---------------------------------------------------------------------------
  // Months

  /** "year/MM": the month zero-padded to two characters. */
  function FormatYearMonth(year: int, month: int): string
  {
    IntToString(year) + "/" + PadStart(IntToString(month), 2, '0')
  }

  /** The position of the first c in s. */
  function FirstIndexOf(s: string, c: char): (r: Option<nat>)
    ensures r.Some? ==> r.value < |s| && s[r.value] == c && forall k :: 0 <= k < r.value ==> s[k] != c
    ensures r.None? ==> forall k :: 0 <= k < |s| ==> s[k] != c
  {
    if s == [] then None
    else if s[0] == c then Some(0)
    else
      match FirstIndexOf(s[1..], c)
      case None => None
      case Some(k) => Some(k + 1)
  }

  /** The first c after a prefix without one is the one right after the prefix. */
  lemma {:induction false} FirstIndexAfter(prefix: string, c: char, rest: string)
    requires forall k :: 0 <= k < |prefix| ==> prefix[k] != c
    ensures FirstIndexOf(prefix + [c] + rest, c) == Some(|prefix|)
  {
    if prefix != [] {
      FirstIndexAfter(prefix[1..], c, rest);
      assert (prefix + [c] + rest)[1..] == prefix[1..] + [c] + rest;
    }
  }

  /** Reads a "year/month" text back: the numbers before and after the first '/'. */
  function ParseYearMonth(s: string): Option<YearMonth>
  {
    match FirstIndexOf(s, '/')
    case None => None
    case Some(k) =>
      match (ParseInt(s[..k], true), ParseInt(s[k + 1..], true))
      case (Some(y), Some(m)) => Some(YearMonth(y, m))
      case _ => None
  }

  /** String(i) has no '/'. */
  lemma IntToStringNoSlash(i: int)
    ensures forall k :: 0 <= k < |IntToString(i)| ==> IntToString(i)[k] != '/'
  {
  }

  /** parseInt reads back what String(i) writes, negative numbers included. */
  lemma ParseIntOfIntToString(i: int)
    ensures ParseInt(IntToString(i), true) == Some(i)
  {
    if i >= 0 {
      ParseIntOfNatToString(i, true);
    } else {
      var d := NatToString(-i);
      var s := IntToString(i);
      assert s == "-" + d && s[0] == '-';
      assert !IsJsWhitespace('-');
      assert TrimStart(s) == s;
      assert s[1..] == d;
      DigitPrefixOfDigits(d);
    }
  }

  /** The padded month field reads back as the month. */
  lemma PaddedMonthReadable(month: int)
    ensures ParseInt(PadStart(IntToString(month), 2, '0'), true) == Some(month)
  {
    ParseIntOfIntToString(month);
    if month >= 0 {
      PaddedNumberIsPadStart(month, 2);
      ParseIntOfDigits(PaddedNumber(month, 2), true);
    } else {
      assert |IntToString(month)| >= 2;
    }
  }

  /** Two readable numbers joined by '/' read back, when the first has no '/'. */
  lemma ParseJoined(y: string, m: string, year: int, month: int)
    requires forall k :: 0 <= k < |y| ==> y[k] != '/'
    requires ParseInt(y, true) == Some(year) && ParseInt(m, true) == Some(month)
    ensures ParseYearMonth(y + "/" + m) == Some(YearMonth(year, month))
  {
    var s := y + "/" + m;
    assert s == y + ['/'] + m;
    FirstIndexAfter(y, '/', m);
    assert s[..|y|] == y;
    assert s[|y| + 1..] == m;
  }

  /** formatYearMonth loses nothing: the year and the month read back from its text. */
  lemma {:induction false} FormatYearMonthRoundTrip(year: int, month: int)
    ensures ParseYearMonth(FormatYearMonth(year, month)) == Some(YearMonth(year, month))
  {
    IntToStringNoSlash(year);
    ParseIntOfIntToString(year);
    PaddedMonthReadable(month);
    ParseJoined(IntToString(year), PadStart(IntToString(month), 2, '0'), year, month);
  }

  /** A month from 0 to 99 always takes exactly two characters after the '/'. */
  lemma FormatYearMonthWidth(year: int, month: int)
    requires 0 <= month < 100
    ensures |FormatYearMonth(year, month)| == |IntToString(year)| + 3
  {
    NatToStringLength(month);
  }

  // ---------------------------------------------------------------------------
  // Statistics

  predicate HasKey(p: PersonEntry)
  {
    p.personKey != ""
  }

  /** The number of persons with a personKey. */
  function WithPersonKey(ps: seq<PersonEntry>): nat
  {
    |Filter(ps, HasKey)|
  }

  /** Filtering keeps every element only when every element passes. */
  lemma {:induction false} FilterAllKept(ps: seq<PersonEntry>)
    ensures |Filter(ps, HasKey)| == |ps| <==> forall i :: 0 <= i < |ps| ==> HasKey(ps[i])
  {
    FilterKeepsAll(ps, HasKey);
    if ps != [] {
      FilterAllKept(ps[1..]);
      assert ps == [ps[0]] + ps[1..];
      if |Filter(ps, HasKey)| == |ps| {
        assert HasKey(ps[0]);
        forall i | 0 <= i < |ps|
          ensures HasKey(ps[i])
        {
          if i > 0 {
            assert ps[i] == ps[1..][i - 1];
          }
        }
      }
    }
  }

  /** The personKey count is zero exactly when nobody has a key, and the whole
      registry exactly when everybody has one. */
  lemma WithPersonKeyMeaning(ps: seq<PersonEntry>)
    ensures WithPersonKey(ps) <= |ps|
    ensures WithPersonKey(ps) == 0 <==> forall i :: 0 <= i < |ps| ==> ps[i].personKey == ""
    ensures WithPersonKey(ps) == |ps| <==> forall i :: 0 <= i < |ps| ==> ps[i].personKey != ""
  {
    FilterContents(ps, HasKey);
    FilterAllKept(ps);
    if WithPersonKey(ps) == 0 {
      assert Filter(ps, HasKey) == [];
    }
    if WithPersonKey(ps) > 0 {
      var f := Filter(ps, HasKey);
      assert f[0] in ps && HasKey(f[0]);
    }
  }

  /** The sum of the appearance counts (reduce from 0). */
  function TotalAppearances(ps: seq<PersonEntry>): int
  {
    if ps == [] then 0 else TotalAppearances(ps[..|ps| - 1]) + ps[|ps| - 1].appearanceCount
  }

  lemma {:induction false} TotalConcat(a: seq<PersonEntry>, b: seq<PersonEntry>)
    ensures TotalAppearances(a + b) == TotalAppearances(a) + TotalAppearances(b)
  {
    if b != [] {
      TotalConcat(a, b[..|b| - 1]);
      assert (a + b)[..|a + b| - 1] == a + b[..|b| - 1];
      assert (a + b)[|a + b| - 1] == b[|b| - 1];
    } else {
      assert a + b == a;
    }
  }

  /** With non-negative counts the total is at least any single count. */
  lemma {:induction false} TotalAtLeastEach(ps: seq<PersonEntry>, i: int)
    requires forall k :: 0 <= k < |ps| ==> ps[k].appearanceCount >= 0
    requires 0 <= i < |ps|
    ensures TotalAppearances(ps) >= ps[i].appearanceCount
  {
    if i < |ps| - 1 {
      TotalAtLeastEach(ps[..|ps| - 1], i);
    } else {
      TotalNonNegative(ps[..|ps| - 1]);
    }
  }

  lemma {:induction false} TotalNonNegative(ps: seq<PersonEntry>)
    requires forall k :: 0 <= k < |ps| ==> ps[k].appearanceCount >= 0
    ensures TotalAppearances(ps) >= 0
  {
    if ps != [] {
      TotalNonNegative(ps[..|ps| - 1]);
    }
  }

  /** Replacing one record changes the total by the difference of its counts. */
  lemma TotalUpdate(ps: seq<PersonEntry>, k: int, p: PersonEntry)
    requires 0 <= k < |ps|
    ensures TotalAppearances(ps[k := p]) == TotalAppearances(ps) - ps[k].appearanceCount + p.appearanceCount
  {
    assert ps == ps[..k] + [ps[k]] + ps[k + 1..];
    assert ps[k := p] == ps[..k] + [p] + ps[k + 1..];
    TotalConcat(ps[..k] + [ps[k]], ps[k + 1..]);
    TotalConcat(ps[..k] + [p], ps[k + 1..]);
    TotalConcat(ps[..k], [ps[k]]);
    TotalConcat(ps[..k], [p]);
  }

  /** The total does not depend on the order of the records. */
  lemma {:induction false} TotalPermutation(xs: seq<PersonEntry>, ys: seq<PersonEntry>)
    requires multiset(xs) == multiset(ys)
    ensures TotalAppearances(xs) == TotalAppearances(ys)
    decreases |xs|
  {
    if xs != [] {
      var x := xs[|xs| - 1];
      var init := xs[..|xs| - 1];
      assert xs == init + [x];
      assert multiset(init) == multiset(xs) - multiset{x};
      assert x in multiset(ys);
      var k :| 0 <= k < |ys| && ys[k] == x;
      TotalRemove(ys, k);
      MultisetRemove(ys, k);
      TotalPermutation(init, ys[..k] + ys[k + 1..]);
    } else {
      assert |ys| == |multiset(ys)| == 0;
    }
  }

  /** Taking one record out lowers the total by its count. */
  lemma {:induction false} TotalRemove(ys: seq<PersonEntry>, k: int)
    requires 0 <= k < |ys|
    ensures TotalAppearances(ys) == TotalAppearances(ys[..k] + ys[k + 1..]) + ys[k].appearanceCount
  {
    assert ys == ys[..k] + [ys[k]] + ys[k + 1..];
    TotalMiddle(ys[..k], ys[k], ys[k + 1..]);
  }

  /** The total of a + [y] + b is the totals of a and b plus the count of y. */
  lemma {:induction false} TotalMiddle(a: seq<PersonEntry>, y: PersonEntry, b: seq<PersonEntry>)
    ensures TotalAppearances(a + [y] + b) == TotalAppearances(a + b) + y.appearanceCount
  {
    TotalConcat(a + [y], b);
    TotalConcat(a, [y]);
    TotalConcat(a, b);
    TotalSingle(y);
  }

  lemma TotalSingle(y: PersonEntry)
    ensures TotalAppearances([y]) == y.appearanceCount
  {
    assert [y][..0] == [];
  }

  /** Taking one record out takes it out of the multiset. */
  lemma {:induction false} MultisetRemove(ys: seq<PersonEntry>, k: int)
    requires 0 <= k < |ys|
    ensures multiset(ys[..k] + ys[k + 1..]) == multiset(ys) - multiset{ys[k]}
  {
    assert ys == ys[..k] + [ys[k]] + ys[k + 1..];
  }

  /** Two registries whose records carry the same counts, position by position,
      have the same total. */
  lemma {:induction false} TotalPointwise(xs: seq<PersonEntry>, ys: seq<PersonEntry>)
    requires |xs| == |ys|
    requires forall i :: 0 <= i < |xs| ==> xs[i].appearanceCount == ys[i].appearanceCount
    ensures TotalAppearances(xs) == TotalAppearances(ys)
  {
    if xs != [] {
      TotalPointwise(xs[..|xs| - 1], ys[..|ys| - 1]);
    }
  }

  /** Each sighting adds one to the total: either a new record counted once or an
      existing record counted once more. */
  lemma RecordTotal(ps: seq<PersonEntry>, s: MigratePersons.Sighting, now: string)
    ensures TotalAppearances(MigratePersons.Record(ps, s, now)) == TotalAppearances(ps) + 1
  {
    match MigratePersons.IndexOf(ps, s.personId)
    case None =>
      var p := PersonEntry(s.personId, s.name, s.personKey, s.period, s.period, 1, now, "");
      TotalConcat(ps, [p]);
    case Some(k) =>
      var p := ps[k];
      TotalUpdate(ps, k, p.(appearanceCount := p.appearanceCount + 1,
                            lastAppearance := if MigratePersons.Later(s.period, p.lastAppearance) then s.period else p.lastAppearance));
  }

  lemma {:induction false} AggregateTotal(ss: seq<MigratePersons.Sighting>, now: string)
    ensures TotalAppearances(MigratePersons.Aggregate(ss, now)) == |ss|
  {
    if ss != [] {
      AggregateTotal(ss[..|ss| - 1], now);
      RecordTotal(MigratePersons.Aggregate(ss[..|ss| - 1], now), ss[|ss| - 1], now);
    }
  }

  /** For a registry built by the migration, the reported total number of
      appearances is the number of ranked entries that carried a personId. */
  lemma MigratedTotal(files: seq<DataFiles.LoadedFile>, now: string)
    ensures TotalAppearances(MigratePersons.MigratedRegistry(files, now).persons) == |MigratePersons.Sightings(files)|
  {
    var ps := MigratePersons.Aggregate(MigratePersons.Sightings(files), now);
    var sorted := Sorting.Sort(ps, MigratePersons.IdOrder);
    AggregateTotal(MigratePersons.Sightings(files), now);
    TotalPermutation(sorted, ps);
    TotalPointwise(MigratePersons.AllNoted(sorted), sorted);
  }

  /** The counts as Math.max sees them. */
  function Counts(ps: seq<PersonEntry>): (ns: seq<Option<int>>)
    ensures |ns| == |ps| && forall i :: 0 <= i < |ps| ==> ns[i] == Some(ps[i].appearanceCount)
  {
    seq(|ps|, i requires 0 <= i < |ps| => Some(ps[i].appearanceCount))
  }

  /** Math.max over the counts: -Infinity for an empty registry. */
  function MaxAppearances(ps: seq<PersonEntry>): JsMax
  {
    MathMax(Counts(ps))
  }

  /** The position of the first record with this count (Array.prototype.find). */
  function FirstWithCount(ps: seq<PersonEntry>, count: int): (r: Option<nat>)
    ensures r.Some? ==> r.value < |ps| && ps[r.value].appearanceCount == count
    ensures r.Some? ==> forall k :: 0 <= k < r.value ==> ps[k].appearanceCount != count
    ensures r.None? ==> forall k :: 0 <= k < |ps| ==> ps[k].appearanceCount != count
  {
    if ps == [] then None
    else if ps[0].appearanceCount == count then Some(0)
    else
      match FirstWithCount(ps[1..], count)
      case None => None
      case Some(k) => Some(k + 1)
  }

  /** The first person whose count equals the maximum; nobody can equal -Infinity. */
  function TopPerson(ps: seq<PersonEntry>): Option<PersonEntry>
  {
    match MaxAppearances(ps)
    case Finite(m) =>
      (match FirstWithCount(ps, m) case Some(k) => Some(ps[k]) case None => None)
    case _ => None
  }

  /** An empty registry has no maximum and no top person; otherwise the top person
      is the first one with the largest count. */
  lemma TopPersonMeaning(ps: seq<PersonEntry>)
    ensures ps == [] <==> MaxAppearances(ps) == NegInfinity
    ensures ps == [] <==> TopPerson(ps).None?
    ensures ps != [] ==> exists i {:trigger ps[i]} :: 0 <= i < |ps| && TopPerson(ps) == Some(ps[i])
                                                  && MaxAppearances(ps) == Finite(ps[i].appearanceCount)
                                                  && (forall k :: 0 <= k < |ps| ==> ps[k].appearanceCount <= ps[i].appearanceCount)
                                                  && (forall k :: 0 <= k < i ==> ps[k].appearanceCount < ps[i].appearanceCount)
  {
    var ns := Counts(ps);
    MathMaxMeaning(ns);
    if ps != [] {
      assert ns[0].Some?;
      var m := MathMax(ns).value;
      var j :| 0 <= j < |ns| && ns[j] == Some(m);
      assert ps[j].appearanceCount == m;
      var i := FirstWithCount(ps, m).value;
      forall k | 0 <= k < |ps|
        ensures ps[k].appearanceCount <= m
      {
        assert ns[k].Some? && ns[k].value <= m;
      }
    }
  }

  // ---------------------------------------------------------------------------
  // The lines of the report

  const Title := "# PersonID \U{4E00}\U{89A7}"
  const GeneratedNotice := "> \U{3053}\U{306E}\U{30D5}\U{30A1}\U{30A4}\U{30EB}\U{306F} `persons.json` \U{304B}\U{3089}\U{81EA}\U{52D5}\U{751F}\U{6210}\U{3055}\U{308C}\U{3066}\U{3044}\U{307E}\U{3059}\U{3002}"
  const RegenerateNotice := "> \U{76F4}\U{63A5}\U{7DE8}\U{96C6}\U{305B}\U{305A}\U{3001}`npm run generate-persons-md` \U{3067}\U{518D}\U{751F}\U{6210}\U{3057}\U{3066}\U{304F}\U{3060}\U{3055}\U{3044}\U{3002}"
  const LastUpdatedLabel := "**\U{6700}\U{7D42}\U{66F4}\U{65B0}**: "
  const NextIdLabel := "**\U{6B21}\U{306E}personId**: "
  const CountLabel := "**\U{767B}\U{9332}\U{4EBA}\U{6570}**: "
  /** 名, the counter word for people. */
  const Mei := "\U{540D}"
  const ListHeading := "## \U{4E00}\U{89A7}"
  const TableHeader := "| personId | \U{540D}\U{524D} | personKey | \U{521D}\U{767B}\U{5834} | \U{6700}\U{7D42}\U{767B}\U{5834} | \U{56DE}\U{6570} | \U{5099}\U{8003} |"
  const TableRule := "|----------|------|-----------|--------|---------|------|------|"
  const StatsHeading := "## \U{7D71}\U{8A08}"
  const TotalPersonsLabel := "- \U{7DCF}\U{767B}\U{9332}\U{4EBA}\U{6570}: "
  const WithKeyLabel := "- personKey\U{4F7F}\U{7528}: "
  const TotalAppearancesLabel := "- \U{7DCF}\U{767B}\U{5834}\U{56DE}\U{6570}: "
  /** 回, the counter word for times. */
  const Kai := "\U{56DE}"
  const TopLabel := "- \U{6700}\U{591A}\U{767B}\U{5834}: "
  const KeyHeading := "## personKey \U{4F7F}\U{7528}\U{8005}"
  const KeyIntro := "\U{540C}\U{540D}\U{306E}\U{5225}\U{4EBA}\U{3092}\U{533A}\U{5225}\U{3059}\U{308B}\U{305F}\U{3081}\U{306B} personKey \U{3092}\U{4F7F}\U{7528}\U{3057}\U{3066}\U{3044}\U{308B}\U{4EBA}\U{306E}\U{4E00}\U{89A7}:"
  const KeyTableHeader := "| personId | \U{540D}\U{524D} | personKey | \U{5099}\U{8003} |"
  const KeyTableRule := "|----------|------|-----------|------|"
  const GeneratedLabel := "*\U{751F}\U{6210}\U{65E5}\U{6642}: "

  /** The personKey cell: "-" for a person without one. */
  function KeyCell(p: PersonEntry): (cell: string)
    ensures cell != ""
    ensures cell == "-" <==> p.personKey == "" || p.personKey == "-"
  {
    if p.personKey != "" then p.personKey else "-"
  }

  /** The cells of a person's row, left to right. */
  function RowCells(p: PersonEntry): seq<string>
  {
    [p.personId, p.name, KeyCell(p),
     FormatYearMonth(p.firstAppearance.year, p.firstAppearance.month),
     FormatYearMonth(p.lastAppearance.year, p.lastAppearance.month),
     IntToString(p.appearanceCount), p.note]
  }

  /** A Markdown table row: the cells between "| " and " |", separated by " | ". */
  function TableRow(cells: seq<string>): string
  {
    "| " + Join(cells, " | ") + " |"
  }

  /** The row of a person in the main table. */
  function Row(p: PersonEntry): string
  {
    TableRow(RowCells(p))
  }

  /** The row of a person in the personKey table. */
  function KeyRow(p: PersonEntry): string
  {
    TableRow([p.personId, p.name, p.personKey, p.note])
  }

  /** One rendered line per element, in order (Array.prototype.map). */
  function RenderEach<T>(xs: seq<T>, render: T -> string): (r: seq<string>)
    ensures |r| == |xs| && forall i :: 0 <= i < |xs| ==> r[i] == render(xs[i])
  {
    if xs == [] then [] else RenderEach(xs[..|xs| - 1], render) + [render(xs[|xs| - 1])]
  }

  lemma RenderEachSnoc<T>(xs: seq<T>, render: T -> string, i: int)
    requires 0 <= i < |xs|
    ensures RenderEach(xs[..i + 1], render) == RenderEach(xs[..i], render) + [render(xs[i])]
  {
    assert xs[..i + 1][..i] == xs[..i];
  }

  lemma AfterPrefix<T>(p: seq<T>, r: seq<T>, q: seq<T>, i: int)
    requires 0 <= i < |r|
    ensures (p + r + q)[|p| + i] == r[i]
  {
  }

  lemma Regroup<T>(a: seq<T>, b: seq<T>, c: seq<T>, d: seq<T>)
    ensures a + b + c + d == a + (b + c + d)
  {
  }

  lemma AppendOne<T>(a: seq<T>, b: seq<T>, x: T)
    ensures a + b + [x] == a + (b + [x])
  {
  }

  /** The lines before the table; the last-updated time is given already formatted. */
  function HeaderLines(registry: PersonRegistry, lastUpdatedText: string): seq<string>
  {
    [Title, "", GeneratedNotice, RegenerateNotice, "",
     LastUpdatedLabel + lastUpdatedText,
     NextIdLabel + AddPersonIds.NewPersonId(registry.nextPersonId),
     CountLabel + IntToString(|registry.persons|) + Mei,
     ""]
  }

  /** The main table: heading, column header, one row per person, blank line. */
  function TableLines(ps: seq<PersonEntry>): seq<string>
  {
    [ListHeading, "", TableHeader, TableRule] + RenderEach(ps, Row) + [""]
  }

  /** The count of the top person: Math.max printed as JavaScript prints it. */
  function MaxText(m: JsMax): string
  {
    match m
    case Finite(v) => IntToString(v)
    case NegInfinity => "-Infinity"
    case NotANumber => "NaN"
  }

  /** `topPerson?.name`: "undefined" when there is none. */
  function TopName(top: Option<PersonEntry>): string
  {
    match top
    case Some(p) => p.name
    case None => "undefined"
  }

  function StatsLines(ps: seq<PersonEntry>): seq<string>
  {
    [StatsHeading, "",
     TotalPersonsLabel + IntToString(|ps|) + Mei,
     WithKeyLabel + IntToString(WithPersonKey(ps)) + Mei,
     TotalAppearancesLabel + IntToString(TotalAppearances(ps)) + Kai,
     TopLabel + TopName(TopPerson(ps)) + " (" + MaxText(MaxAppearances(ps)) + Kai + ")",
     ""]
  }

  /** The personKey section, present only when somebody has a key. */
  function KeySection(ps: seq<PersonEntry>): seq<string>
  {
    if WithPersonKey(ps) > 0 then
      [KeyHeading, "", KeyIntro, "", KeyTableHeader, KeyTableRule] + RenderEach(Filter(ps, HasKey), KeyRow) + [""]
    else []
  }

  function FooterLines(generatedText: string): seq<string>
  {
    ["---", "", GeneratedLabel + generatedText + "*", ""]
  }

  /** Every line of persons.md, in order: header, table, statistics, personKey
      section, footer. */
  function MarkdownLines(registry: PersonRegistry, lastUpdatedText: string, generatedText: string): seq<string>
  {
    HeaderLines(registry, lastUpdatedText) + TableLines(registry.persons) + StatsLines(registry.persons)
      + KeySection(registry.persons) + FooterLines(generatedText)
  }

  /** The text written to persons.md: the lines joined with "\n". */
  function Markdown(registry: PersonRegistry, lastUpdatedText: string, generatedText: string): string
  {
    Join(MarkdownLines(registry, lastUpdatedText, generatedText), "\n")
  }

  // ---------------------------------------------------------------------------
  // Building the lines, section by section

  // Consecutive pushes of fixed lines are written as one append of those lines.

  method PushHeader(registry: PersonRegistry, lastUpdatedText: string) returns (lines: seq<string>)
    ensures lines == HeaderLines(registry, lastUpdatedText)
  {
    lines := [Title, "", GeneratedNotice, RegenerateNotice, "",
              LastUpdatedLabel + lastUpdatedText,
              NextIdLabel + AddPersonIds.NewPersonId(registry.nextPersonId),
              CountLabel + IntToString(|registry.persons|) + Mei,
              ""];
  }

  method PushTable(lines0: seq<string>, ps: seq<PersonEntry>) returns (lines: seq<string>)
    ensures lines == lines0 + TableLines(ps)
  {
    var head := [ListHeading, "", TableHeader, TableRule];
    lines := lines0 + head;
    var i := 0;
    while i < |ps|
      invariant 0 <= i <= |ps|
      invariant lines == lines0 + head + RenderEach(ps[..i], Row)
    {
      RenderEachSnoc(ps, Row, i);
      AppendOne(lines0 + head, RenderEach(ps[..i], Row), Row(ps[i]));
      lines := lines + [Row(ps[i])];
      i := i + 1;
    }
    assert ps[..i] == ps;
    lines := lines + [""];
    Regroup(lines0, head, RenderEach(ps, Row), [""]);
  }

  method PushStats(lines0: seq<string>, ps: seq<PersonEntry>) returns (lines: seq<string>)
    ensures lines == lines0 + StatsLines(ps)
  {
    var withPersonKey := WithPersonKey(ps);
    var totalAppearances := TotalAppearances(ps);
    var maxAppearances := MaxAppearances(ps);
    var topPerson := TopPerson(ps);
    lines := lines0 + [StatsHeading, "",
                       TotalPersonsLabel + IntToString(|ps|) + Mei,
                       WithKeyLabel + IntToString(withPersonKey) + Mei,
                       TotalAppearancesLabel + IntToString(totalAppearances) + Kai,
                       TopLabel + TopName(topPerson) + " (" + MaxText(maxAppearances) + Kai + ")",
                       ""];
  }

  method PushKeySection(lines0: seq<string>, ps: seq<PersonEntry>) returns (lines: seq<string>)
    ensures lines == lines0 + KeySection(ps)
  {
    if WithPersonKey(ps) > 0 {
      var head := [KeyHeading, "", KeyIntro, "", KeyTableHeader, KeyTableRule];
      lines := lines0 + head;
      var keyed := Filter(ps, HasKey);
      var j := 0;
      while j < |keyed|
        invariant 0 <= j <= |keyed|
        invariant lines == lines0 + head + RenderEach(keyed[..j], KeyRow)
      {
        RenderEachSnoc(keyed, KeyRow, j);
        AppendOne(lines0 + head, RenderEach(keyed[..j], KeyRow), KeyRow(keyed[j]));
        lines := lines + [KeyRow(keyed[j])];
        j := j + 1;
      }
      assert keyed[..j] == keyed;
      lines := lines + [""];
      Regroup(lines0, head, RenderEach(keyed, KeyRow), [""]);
    } else {
      lines := lines0;
      assert lines0 + KeySection(ps) == lines0 + [];
    }
  }

  method PushFooter(lines0: seq<string>, generatedText: string) returns (lines: seq<string>)
    ensures lines == lines0 + FooterLines(generatedText)
  {
    lines := lines0 + ["---", "", GeneratedLabel + generatedText + "*", ""];
  }

  /** main: the header, one row per person, the statistics, the personKey section
      and the footer, joined with line breaks. The two times are given already
      formatted. */
  method Generate(registry: PersonRegistry, lastUpdatedText: string, generatedText: string)
    returns (markdown: string)
    ensures markdown == Markdown(registry, lastUpdatedText, generatedText)
  {
    var lines := PushHeader(registry, lastUpdatedText);
    lines := PushTable(lines, registry.persons);
    lines := PushStats(lines, registry.persons);
    lines := PushKeySection(lines, registry.persons);
    lines := PushFooter(lines, generatedText);
    markdown := Join(lines, "\n");
  }

  // ---------------------------------------------------------------------------
  // What each section holds

  /** Section sizes: a header of 9 lines, a table of 5 lines plus one per person,
      7 lines of statistics, a personKey section of 7 lines plus one per person
      with a key (none at all when nobody has a key), and a footer of 4 lines. */
  lemma LineCount(registry: PersonRegistry, lastUpdatedText: string, generatedText: string)
    ensures |HeaderLines(registry, lastUpdatedText)| == 9
    ensures |TableLines(registry.persons)| == 5 + |registry.persons|
    ensures |StatsLines(registry.persons)| == 7
    ensures |KeySection(registry.persons)| ==
              if WithPersonKey(registry.persons) > 0 then 7 + WithPersonKey(registry.persons) else 0
    ensures |FooterLines(generatedText)| == 4
    ensures |MarkdownLines(registry, lastUpdatedText, generatedText)| ==
              25 + |registry.persons| + |KeySection(registry.persons)|
  {
  }

  /** The header shows the last update, the id the next new person will receive
      (as the id assignment writes it: at least three digits, zero-padded) and the
      number of registered persons. */
  lemma {:induction false} HeaderFacts(registry: PersonRegistry, lastUpdatedText: string)
    ensures var h := HeaderLines(registry, lastUpdatedText);
      && |h| == 9
      && h[5] == LastUpdatedLabel + lastUpdatedText
      && h[6] == NextIdLabel + AddPersonIds.NewPersonId(registry.nextPersonId)
      && h[7] == CountLabel + IntToString(|registry.persons|) + Mei
    ensures 0 <= registry.nextPersonId ==>
              AddPersonIds.NewPersonId(registry.nextPersonId) == "person_" + PaddedNumber(registry.nextPersonId, 3)
  {
    if 0 <= registry.nextPersonId {
      NextIdPadded(registry.nextPersonId);
    }
  }

  /** A non-negative counter's id is "person_" and the counter zero-padded to three. */
  lemma {:induction false} NextIdPadded(n: int)
    requires 0 <= n
    ensures AddPersonIds.NewPersonId(n) == "person_" + PaddedNumber(n, 3)
  {
    PaddedNumberIsPadStart(n, 3);
  }

  /** Line 4 + i of the table is the row of the i-th person. */
  lemma RowLine(ps: seq<PersonEntry>, i: int)
    requires 0 <= i < |ps|
    ensures TableLines(ps)[4 + i] == Row(ps[i])
  {
    AfterPrefix([ListHeading, "", TableHeader, TableRule], RenderEach(ps, Row), [""], i);
  }

  /** The top-person line: "undefined (-Infinity回)" for an empty registry,
      otherwise the first person with the largest count, and that count. */
  lemma TopLine(ps: seq<PersonEntry>)
    ensures ps == [] ==> StatsLines(ps)[5] == TopLabel + "undefined" + " (" + "-Infinity" + Kai + ")"
    ensures ps != [] ==>
              exists i {:trigger ps[i]} ::
                && 0 <= i < |ps|
                && StatsLines(ps)[5] == TopLabel + ps[i].name + " (" + IntToString(ps[i].appearanceCount) + Kai + ")"
                && (forall k :: 0 <= k < |ps| ==> ps[k].appearanceCount <= ps[i].appearanceCount)
                && (forall k :: 0 <= k < i ==> ps[k].appearanceCount < ps[i].appearanceCount)
  {
    TopPersonMeaning(ps);
  }

  /** The personKey section appears exactly when somebody has a key; its rows are
      the persons with a key, in registry order, and every such person has one. */
  lemma {:induction false} KeySectionFacts(ps: seq<PersonEntry>)
    ensures KeySection(ps) != [] <==> exists i :: 0 <= i < |ps| && ps[i].personKey != ""
    ensures KeySection(ps) != [] ==>
              && KeySection(ps)[6..|KeySection(ps)| - 1] == RenderEach(Filter(ps, HasKey), KeyRow)
              && (forall i :: 0 <= i < |ps| && ps[i].personKey != "" ==> KeyRow(ps[i]) in KeySection(ps))
    ensures SubsequenceOf(Filter(ps, HasKey), ps)
  {
    WithPersonKeyMeaning(ps);
    FilterSubsequence(ps, HasKey);
    if KeySection(ps) != [] {
      KeySectionRows(ps);
    }
  }

  /** A present personKey section holds the rendered keyed persons between its six
      heading lines and its closing blank line, so every keyed person's row. */
  lemma {:induction false} KeySectionRows(ps: seq<PersonEntry>)
    requires KeySection(ps) != []
    ensures KeySection(ps)[6..|KeySection(ps)| - 1] == RenderEach(Filter(ps, HasKey), KeyRow)
    ensures forall i :: 0 <= i < |ps| && ps[i].personKey != "" ==> KeyRow(ps[i]) in KeySection(ps)
  {
    FilterContents(ps, HasKey);
    var section := KeySection(ps);
    var f := Filter(ps, HasKey);
    assert section[6..|section| - 1] == RenderEach(f, KeyRow);
    forall i | 0 <= i < |ps| && ps[i].personKey != ""
      ensures KeyRow(ps[i]) in section
    {
      assert HasKey(ps[i]);
      var j :| 0 <= j < |f| && f[j] == ps[i];
      assert section[6 + j] == RenderEach(f, KeyRow)[j];
    }
  }
}
