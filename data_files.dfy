/** getAllDataFiles, which the three person-registry scripts share: the monthly result files under the data directory, listed year by year with the
    years in ascending numeric order and, inside a year, the months in ascending
    numeric order. The file system is given as the names in the data directory
    (`top`) and, for each year directory that exists, the names inside it (`dirs`,
    keyed by directory name). Paths are relative to the data directory. The copies
    differ in one place: add-person-ids and migrate-persons parse a month file name
    with parseInt(…, 10), validate-person-ids with parseInt(…) and no radix, which
    also reads a "0x" prefix as hexadecimal. `decimalOnly` selects the copy. */
module DataFiles {
  import opened Common
  import opened Types
  import Sorting

  /** A monthly result file, located by the number of its year directory and the
      month parsed from its name (None when parseInt gives NaN). */
  datatype DataFile = DataFile(year: int, month: Option<int>)

  /** One result file as a script reads it: its path and its contents, or None
      when reading or parsing it failed (the scripts catch that error). */
  datatype LoadedFile = LoadedFile(path: string, data: Option<SeisekiMonth>)

  predicate Contains(s: string, pattern: string)
  {
    StartsWith(s, pattern) || (s != [] && Contains(s[1..], pattern))
  }

  predicate EndsWith(s: string, suffix: string)
  {
    |suffix| <= |s| && s[|s| - |suffix|..] == suffix
  }

  /** Number(name) for a directory name made of decimal digits (the empty name
      gives 0, as in JavaScript); any other name counts as NaN (None). */
  function NumberOf(name: string): Option<int>
  {
    if AllDigits(name) then Some(DigitsValue(name)) else None
  }

  /** The names the year filter keeps: no ".json" in them and a number. */
  predicate IsYearName(name: string)
  {
    !Contains(name, ".json") && NumberOf(name).Some?
  }

  /** The numbers of the year directories, in directory order. */
  function YearValues(top: seq<string>): (ys: seq<int>)
    ensures |ys| <= |top|
  {
    if top == [] then []
    else
      var rest := YearValues(top[..|top| - 1]);
      var name := top[|top| - 1];
      if IsYearName(name) then rest + [NumberOf(name).value] else rest
  }

  /** parseInt(name.replace(".json", ""), 10) on a month file name when decimalOnly,
      parseInt(name.replace(".json", "")) otherwise. */
  function MonthValue(decimalOnly: bool, name: string): Option<int>
  {
    ParseInt(RemoveFirst(name, ".json"), decimalOnly)
  }

  /** The months of the ".json" files of a year directory, in directory order. */
  function MonthValues(decimalOnly: bool, names: seq<string>): (ms: seq<Option<int>>)
    ensures |ms| <= |names|
  {
    if names == [] then []
    else
      var rest := MonthValues(decimalOnly, names[..|names| - 1]);
      var name := names[|names| - 1];
      if EndsWith(name, ".json") then rest + [MonthValue(decimalOnly, name)] else rest
  }

  /** The comparator (a, b) => a - b on years. */
  function YearOrder(a: int, b: int): int
  {
    a - b
  }

  /** The same comparator on months that may be NaN: a difference involving NaN is
      NaN, which Array.prototype.sort treats as "equal". */
  function MonthOrder(a: Option<int>, b: Option<int>): int
  {
    if a.Some? && b.Some? then a.value - b.value else 0
  }

  function SortedYears(top: seq<string>): seq<int>
  {
    Sorting.Sort(YearValues(top), YearOrder)
  }

  function SortedMonths(decimalOnly: bool, names: seq<string>): seq<Option<int>>
  {
    Sorting.Sort(MonthValues(decimalOnly, names), MonthOrder)
  }

  /** One file per month of `months`, all in `year`. */
  function MonthFiles(year: int, months: seq<Option<int>>): (fs: seq<DataFile>)
    ensures |fs| == |months|
  {
    if months == [] then []
    else MonthFiles(year, months[..|months| - 1]) + [DataFile(year, months[|months| - 1])]
  }

  /** The files of one year: none when its directory (named String(year)) is
      missing, else one per sorted month. */
  function Block(decimalOnly: bool, year: int, dirs: map<string, seq<string>>): seq<DataFile>
  {
    if IntToString(year) in dirs then MonthFiles(year, SortedMonths(decimalOnly, dirs[IntToString(year)])) else []
  }

  function Blocks(decimalOnly: bool, years: seq<int>, dirs: map<string, seq<string>>): seq<DataFile>
  {
    if years == [] then []
    else Blocks(decimalOnly, years[..|years| - 1], dirs) + Block(decimalOnly, years[|years| - 1], dirs)
  }

  /** The files getAllDataFiles lists, in its order. */
  function Listing(decimalOnly: bool, top: seq<string>, dirs: map<string, seq<string>>): seq<DataFile>
  {
    Blocks(decimalOnly, SortedYears(top), dirs)
  }

  function MonthText(month: Option<int>): string
  {
    match month
    case Some(m) => IntToString(m)
    case None => "NaN"
  }

  /** "{year}/{month padded to 2}.json". */
  function PathOf(f: DataFile): string
  {
    IntToString(f.year) + "/" + PadStart(MonthText(f.month), 2, '0') + ".json"
  }

  function Paths(fs: seq<DataFile>): (ps: seq<string>)
    ensures |ps| == |fs|
  {
    seq(|fs|, k requires 0 <= k < |fs| => PathOf(fs[k]))
  }

  lemma PathsAppend(a: seq<DataFile>, b: seq<DataFile>)
    ensures Paths(a + b) == Paths(a) + Paths(b)
  {
    var l, r := Paths(a + b), Paths(a) + Paths(b);
    forall k | 0 <= k < |l|
      ensures l[k] == r[k]
    {
      if k >= |a| {
        assert (a + b)[k] == b[k - |a|];
      }
    }
  }

  /** One more month adds its path at the end. */
  lemma PushMonthStep(files: seq<string>, year: int, months: seq<Option<int>>, j: int)
    requires 0 <= j < |months|
    ensures files + Paths(MonthFiles(year, months[..j + 1]))
         == (files + Paths(MonthFiles(year, months[..j]))) + [PathOf(DataFile(year, months[j]))]
  {
    assert months[..j + 1][..j] == months[..j];
    assert MonthFiles(year, months[..j + 1]) == MonthFiles(year, months[..j]) + [DataFile(year, months[j])];
    PathsAppend(MonthFiles(year, months[..j]), [DataFile(year, months[j])]);
  }

  /** The inner loop of getAllDataFiles: one path pushed per month of the year. */
  method PushMonths(files: seq<string>, year: int, months: seq<Option<int>>) returns (r: seq<string>)
    ensures r == files + Paths(MonthFiles(year, months))
  {
    r := files;
    var j := 0;
    while j < |months|
      invariant 0 <= j <= |months|
      invariant r == files + Paths(MonthFiles(year, months[..j]))
    {
      var p := PathOf(DataFile(year, months[j]));
      PushMonthStep(files, year, months, j);
      r := r + [p];
      j := j + 1;
    }
    assert months[..j] == months;
  }

  /** One more year adds the paths of its block at the end. */
  lemma BlocksStep(decimalOnly: bool, years: seq<int>, i: int, dirs: map<string, seq<string>>)
    requires 0 <= i < |years|
    ensures Paths(Blocks(decimalOnly, years[..i + 1], dirs))
         == Paths(Blocks(decimalOnly, years[..i], dirs)) + Paths(Block(decimalOnly, years[i], dirs))
    ensures IntToString(years[i]) in dirs ==>
      Block(decimalOnly, years[i], dirs) == MonthFiles(years[i], SortedMonths(decimalOnly, dirs[IntToString(years[i])]))
    ensures IntToString(years[i]) !in dirs ==> Paths(Block(decimalOnly, years[i], dirs)) == []
  {
    assert years[..i + 1][..i] == years[..i];
    PathsAppend(Blocks(decimalOnly, years[..i], dirs), Block(decimalOnly, years[i], dirs));
  }

  /** The outer loop of getAllDataFiles: over the sorted years, skipping a year whose
      directory is missing. */
  method GetAllDataFiles(decimalOnly: bool, top: seq<string>, dirs: map<string, seq<string>>) returns (files: seq<string>)
    ensures files == Paths(Listing(decimalOnly, top, dirs))
  {
    var years := SortedYears(top);
    files := [];
    var i := 0;
    while i < |years|
      invariant 0 <= i <= |years|
      invariant files == Paths(Blocks(decimalOnly, years[..i], dirs))
    {
      var year := years[i];
      BlocksStep(decimalOnly, years, i, dirs);
      if IntToString(year) in dirs {
        files := PushMonths(files, year, SortedMonths(decimalOnly, dirs[IntToString(year)]));
      }
      i := i + 1;
    }
    assert years[..|years|] == years;
  }

  // ---------------------------------------------------------------------------
  // What the listing holds and in which order

  /** Every ".json" name in a year directory parses to a month number. */
  predicate MonthsParse(decimalOnly: bool, dirs: map<string, seq<string>>)
  {
    forall d, name :: d in dirs && name in dirs[d] && EndsWith(name, ".json") ==> MonthValue(decimalOnly, name).Some?
  }

  /** No two year directories have the same number ("2024" and "02024" would). */
  predicate DistinctYears(top: seq<string>)
  {
    var ys := YearValues(top);
    forall i, j :: 0 <= i < j < |ys| ==> ys[i] != ys[j]
  }

  /** a comes before b: an earlier year, or the same year and a month no later. */
  predicate Before(a: DataFile, b: DataFile)
    requires a.month.Some? && b.month.Some?
  {
    a.year < b.year || (a.year == b.year && a.month.value <= b.month.value)
  }

  predicate Ascending(fs: seq<DataFile>)
  {
    (forall i :: 0 <= i < |fs| ==> fs[i].month.Some?) &&
    forall i, j :: 0 <= i < j < |fs| ==> Before(fs[i], fs[j])
  }

  /** Some name in `top` is a year directory name with number y. */
  ghost predicate HasYearDir(top: seq<string>, y: int)
  {
    exists name :: name in top && IsYearName(name) && NumberOf(name) == Some(y)
  }

  /** Some name in `names` is a ".json" file whose name parses to m. */
  ghost predicate HasMonthFile(decimalOnly: bool, names: seq<string>, m: Option<int>)
  {
    exists name :: name in names && EndsWith(name, ".json") && MonthValue(decimalOnly, name) == m
  }

  lemma HasYearDirSnoc(top: seq<string>, y: int)
    requires top != []
    ensures HasYearDir(top, y) <==>
      HasYearDir(top[..|top| - 1], y) || (IsYearName(top[|top| - 1]) && NumberOf(top[|top| - 1]) == Some(y))
  {
    var init, last := top[..|top| - 1], top[|top| - 1];
    assert top == init + [last];
    if HasYearDir(top, y) {
      var name :| name in top && IsYearName(name) && NumberOf(name) == Some(y);
      if name != last {
        assert name in init;
      }
    }
    if HasYearDir(init, y) {
      var name :| name in init && IsYearName(name) && NumberOf(name) == Some(y);
      assert name in top;
    }
  }

  lemma HasMonthFileSnoc(decimalOnly: bool, names: seq<string>, m: Option<int>)
    requires names != []
    ensures HasMonthFile(decimalOnly, names, m) <==>
      HasMonthFile(decimalOnly, names[..|names| - 1], m) || (EndsWith(names[|names| - 1], ".json") && MonthValue(decimalOnly, names[|names| - 1]) == m)
  {
    var init, last := names[..|names| - 1], names[|names| - 1];
    assert names == init + [last];
    if HasMonthFile(decimalOnly, names, m) {
      var name :| name in names && EndsWith(name, ".json") && MonthValue(decimalOnly, name) == m;
      if name != last {
        assert name in init;
      }
    }
    if HasMonthFile(decimalOnly, init, m) {
      var name :| name in init && EndsWith(name, ".json") && MonthValue(decimalOnly, name) == m;
      assert name in names;
    }
  }

  lemma {:induction false} YearValuesMembers(top: seq<string>, y: int)
    ensures y in YearValues(top) <==> HasYearDir(top, y)
  {
    if top != [] {
      YearValuesMembers(top[..|top| - 1], y);
      HasYearDirSnoc(top, y);
    }
  }

  lemma {:induction false} MonthValuesMembers(decimalOnly: bool, names: seq<string>, m: Option<int>)
    ensures m in MonthValues(decimalOnly, names) <==> HasMonthFile(decimalOnly, names, m)
  {
    if names != [] {
      MonthValuesMembers(decimalOnly, names[..|names| - 1], m);
      HasMonthFileSnoc(decimalOnly, names, m);
    }
  }

  lemma {:induction false} MonthFilesIndex(year: int, months: seq<Option<int>>)
    ensures forall k :: 0 <= k < |months| ==> MonthFiles(year, months)[k] == DataFile(year, months[k])
  {
    if months != [] {
      var init := months[..|months| - 1];
      MonthFilesIndex(year, init);
      forall k | 0 <= k < |months|
        ensures MonthFiles(year, months)[k] == DataFile(year, months[k])
      {
        if k < |init| {
          assert months[k] == init[k];
        }
      }
    }
  }

  lemma {:induction false} BlocksMembers(decimalOnly: bool, years: seq<int>, dirs: map<string, seq<string>>, f: DataFile)
    ensures f in Blocks(decimalOnly, years, dirs) <==> f.year in years && f in Block(decimalOnly, f.year, dirs)
  {
    if years != [] {
      var init := years[..|years| - 1];
      BlocksMembers(decimalOnly, init, dirs, f);
      assert years == init + [years[|years| - 1]];
      var y := years[|years| - 1];
      if IntToString(y) in dirs {
        MonthFilesIndex(y, SortedMonths(decimalOnly, dirs[IntToString(y)]));
      }
      if f in Block(decimalOnly, y, dirs) {
        assert f.year == y;
      }
    }
  }

  /** Which files getAllDataFiles lists: (year, month) appears exactly when a year
      directory with that number exists under the name String(year) and holds a
      ".json" file whose name parses to that month. */
  lemma ListingMembers(decimalOnly: bool, top: seq<string>, dirs: map<string, seq<string>>, f: DataFile)
    ensures f in Listing(decimalOnly, top, dirs) <==>
      && HasYearDir(top, f.year)
      && IntToString(f.year) in dirs
      && HasMonthFile(decimalOnly, dirs[IntToString(f.year)], f.month)
  {
    BlocksMembers(decimalOnly, SortedYears(top), dirs, f);
    Sorting.SortMembers(YearValues(top), YearOrder, f.year);
    YearValuesMembers(top, f.year);
    if IntToString(f.year) in dirs {
      var names := dirs[IntToString(f.year)];
      var ms := SortedMonths(decimalOnly, names);
      MonthFilesIndex(f.year, ms);
      Sorting.SortMembers(MonthValues(decimalOnly, names), MonthOrder, f.month);
      MonthValuesMembers(decimalOnly, names, f.month);
      if f.month in ms {
        var k :| 0 <= k < |ms| && ms[k] == f.month;
        assert MonthFiles(f.year, ms)[k] == f;
      }
    }
  }

  lemma {:induction false} BlockAscending(decimalOnly: bool, year: int, dirs: map<string, seq<string>>)
    requires MonthsParse(decimalOnly, dirs)
    ensures Ascending(Block(decimalOnly, year, dirs))
    ensures forall f :: f in Block(decimalOnly, year, dirs) ==> f.year == year
  {
    if IntToString(year) in dirs {
      var names := dirs[IntToString(year)];
      var ms := SortedMonths(decimalOnly, names);
      var xs := set m | m in MonthValues(decimalOnly, names);
      forall m | m in MonthValues(decimalOnly, names)
        ensures m.Some?
      {
        MonthValuesMembers(decimalOnly, names, m);
      }
      assert Sorting.TotalPreorderOn(MonthOrder, xs);
      Sorting.SortSorted(MonthValues(decimalOnly, names), MonthOrder, xs);
      forall k | 0 <= k < |ms|
        ensures ms[k].Some?
      {
        Sorting.SortMembers(MonthValues(decimalOnly, names), MonthOrder, ms[k]);
      }
      MonthFilesIndex(year, ms);
      var fs := Block(decimalOnly, year, dirs);
      forall i, j | 0 <= i < j < |fs|
        ensures Before(fs[i], fs[j])
      {
        assert MonthOrder(ms[i], ms[j]) <= 0;
      }
    }
  }

  /** Every file of a has an earlier year than every file of b. */
  predicate YearsBefore(a: seq<DataFile>, b: seq<DataFile>)
  {
    forall i, j :: 0 <= i < |a| && 0 <= j < |b| ==> a[i].year < b[j].year
  }

  lemma AscendingConcat(a: seq<DataFile>, b: seq<DataFile>)
    requires Ascending(a) && Ascending(b) && YearsBefore(a, b)
    ensures Ascending(a + b)
  {
    var fs := a + b;
    forall i, j | 0 <= i < j < |fs|
      ensures Before(fs[i], fs[j])
    {
      if j < |a| {
        assert fs[i] == a[i] && fs[j] == a[j];
      } else if i >= |a| {
        assert fs[i] == b[i - |a|] && fs[j] == b[j - |a|];
      } else {
        assert fs[i] == a[i] && fs[j] == b[j - |a|];
      }
    }
  }

  /** The years strictly increase. */
  predicate YearsIncreasing(years: seq<int>)
  {
    forall i, j :: 0 <= i < j < |years| ==> years[i] < years[j]
  }

  lemma {:induction false} BlocksAscending(decimalOnly: bool, years: seq<int>, dirs: map<string, seq<string>>)
    requires MonthsParse(decimalOnly, dirs)
    requires YearsIncreasing(years)
    ensures Ascending(Blocks(decimalOnly, years, dirs))
  {
    if years != [] {
      var init := years[..|years| - 1];
      var y := years[|years| - 1];
      assert YearsIncreasing(init);
      BlocksAscending(decimalOnly, init, dirs);
      BlockAscending(decimalOnly, y, dirs);
      forall i, j | 0 <= i < |Blocks(decimalOnly, init, dirs)| && 0 <= j < |Block(decimalOnly, y, dirs)|
        ensures Blocks(decimalOnly, init, dirs)[i].year < Block(decimalOnly, y, dirs)[j].year
      {
        BlocksMembers(decimalOnly, init, dirs, Blocks(decimalOnly, init, dirs)[i]);
        assert Block(decimalOnly, y, dirs)[j] in Block(decimalOnly, y, dirs);
      }
      AscendingConcat(Blocks(decimalOnly, init, dirs), Block(decimalOnly, y, dirs));
    }
  }

  /** getAllDataFiles lists the files in ascending (year, month) order, provided
      every month file name parses and no year number is listed twice. */
  lemma ListingAscending(decimalOnly: bool, top: seq<string>, dirs: map<string, seq<string>>)
    requires MonthsParse(decimalOnly, dirs)
    requires DistinctYears(top)
    ensures Ascending(Listing(decimalOnly, top, dirs))
  {
    var ys := YearValues(top);
    var xs := set y | y in ys;
    Sorting.SortSorted(ys, YearOrder, xs);
    var key := (y: int) => y;
    Sorting.SortKeysDistinct(ys, YearOrder, key);
    var sorted := SortedYears(top);
    assert YearsIncreasing(sorted) by {
      forall i, j | 0 <= i < j < |sorted|
        ensures sorted[i] < sorted[j]
      {
        assert YearOrder(sorted[i], sorted[j]) <= 0;
        assert key(sorted[i]) != key(sorted[j]);
      }
    }
    BlocksAscending(decimalOnly, sorted, dirs);
  }

  // ---------------------------------------------------------------------------
  // Decimal month names

  /** The first ".json" in a digit string followed by ".json" is that suffix. */
  lemma {:induction false} RemoveJsonAfterDigits(d: string)
    requires AllDigits(d)
    ensures RemoveFirst(d + ".json", ".json") == d
    decreases |d|
  {
    var s := d + ".json";
    if d != [] {
      assert s[0] == d[0] && IsDigit(d[0]);
      assert s[..5] != ".json" by { assert s[..5][0] != '.'; }
      assert s[1..] == d[1..] + ".json";
      RemoveJsonAfterDigits(d[1..]);
      assert [d[0]] + d[1..] == d;
    } else {
      assert s == ".json";
    }
  }

  /** On a plain decimal month name the two copies agree. */
  lemma MonthValueDecimal(m: nat)
    ensures MonthValue(true, NatToString(m) + ".json") == Some(m)
    ensures MonthValue(false, NatToString(m) + ".json") == Some(m)
  {
    RemoveJsonAfterDigits(NatToString(m));
    ParseIntOfNatToString(m, true);
    ParseIntOfNatToString(m, false);
  }
}
