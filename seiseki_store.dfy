/** The monthly results store (lib/seiseki.ts): one result file per month, an archive
    index listing the stored months newest first, and the reconstruction of one
    person's month-by-month ranking history.

    The data directory is a map from month to record; the index file is the
    sequence `archives`. A file that does not exist is a missing key. */
module SeisekiStore {
  import opened Common
  import opened Types
  import opened Sorting
  import opened TargetSize

  type Records = map<YearMonth, SeisekiMonth>

  // ---------------------------------------------------------------------------
  // Periods and records

  /** The months the store accepts: years 2000..2100, months 1..12. */
  predicate ValidPeriod(year: int, month: int)
  {
    2000 <= year <= 2100 && 1 <= month <= 12
  }

  /** validateYearMonth: the year is checked first, then the month. */
  function ValidateYearMonth(year: int, month: int): (o: Outcome)
    ensures o.Pass? <==> ValidPeriod(year, month)
    ensures o == Fail("Invalid year") <==> year < 2000 || year > 2100
    ensures o == Fail("Invalid month") <==> 2000 <= year <= 2100 && (month < 1 || month > 12)
  {
    if year < 2000 || year > 2100 then Fail("Invalid year")
    else if month < 1 || month > 12 then Fail("Invalid month")
    else Pass
  }

  /** getSeisekiData: null, never an error, for a month outside the accepted range
      or without a file. */
  function LoadPeriod(records: Records, year: int, month: int): (r: Option<SeisekiMonth>)
    ensures r.Some? <==> ValidPeriod(year, month) && YearMonth(year, month) in records
    ensures r.Some? ==> r.value == records[YearMonth(year, month)]
  {
    if ValidateYearMonth(year, month).Fail? then None
    else if YearMonth(year, month) in records then Some(records[YearMonth(year, month)])
    else None
  }

  /** Every file lies at a valid month and records that month. */
  ghost predicate RecordsWellFormed(records: Records)
  {
    forall k :: k in records ==>
      ValidPeriod(k.year, k.month) && records[k].year == k.year && records[k].month == k.month
  }

  /** The record saveSeisekiData writes: publishedAt survives from an existing record
      unless that one is empty, updatedAt is the time of the save. */
  function SavedRecord(records: Records, year: int, month: int, entries: seq<SeisekiEntry>, now: string): (d: SeisekiMonth)
  {
    var existing := LoadPeriod(records, year, month);
    SeisekiMonth(year, month, entries,
      if existing.Some? && existing.value.publishedAt != "" then existing.value.publishedAt else now,
      now)
  }

  lemma SavedRecordStamps(records: Records, year: int, month: int, entries: seq<SeisekiEntry>, now: string)
    requires ValidPeriod(year, month)
    ensures var d := SavedRecord(records, year, month, entries, now);
      && d.year == year && d.month == month && d.entries == entries && d.updatedAt == now
      && (YearMonth(year, month) in records && records[YearMonth(year, month)].publishedAt != ""
          ==> d.publishedAt == records[YearMonth(year, month)].publishedAt)
      && (YearMonth(year, month) !in records || records[YearMonth(year, month)].publishedAt == ""
          ==> d.publishedAt == now)
  {
  }

  const NotAnArray := "entries must be an array"

  /** Storing a record at its own valid month keeps the records well formed. */
  lemma SaveKeepsWellFormed(records: Records, d: SeisekiMonth)
    requires ValidPeriod(d.year, d.month)
    ensures RecordsWellFormed(records) ==> RecordsWellFormed(records[YearMonth(d.year, d.month) := d])
  {
  }

  /** The checks of saveSeisekiData, in order: the month, then that entries is an array. */
  function SaveCheck(year: int, month: int, entries: Option<seq<SeisekiEntry>>): (o: Outcome)
    ensures o.Pass? <==> ValidPeriod(year, month) && entries.Some?
    ensures !ValidPeriod(year, month) ==> o == ValidateYearMonth(year, month)
  {
    if ValidateYearMonth(year, month).Fail? then ValidateYearMonth(year, month)
    else if entries.None? then Fail(NotAnArray)
    else Pass
  }

  // ---------------------------------------------------------------------------
  // The archive index

  function Key(a: ArchiveMetadata): YearMonth
  {
    YearMonth(a.year, a.month)
  }

  /** The index comparator: newer years first, then newer months first. */
  function PeriodDesc(a: ArchiveMetadata, b: ArchiveMetadata): int
  {
    if a.year != b.year then b.year - a.year else b.month - a.month
  }

  /** a is not older than b. */
  predicate NotOlder(a: ArchiveMetadata, b: ArchiveMetadata)
  {
    a.year > b.year || (a.year == b.year && a.month >= b.month)
  }

  lemma PeriodDescMeaning(a: ArchiveMetadata, b: ArchiveMetadata)
    ensures PeriodDesc(a, b) <= 0 <==> NotOlder(a, b)
    ensures PeriodDesc(a, b) == 0 <==> Key(a) == Key(b)
  {
  }

  lemma PeriodDescLawful(xs: set<ArchiveMetadata>)
    ensures TotalPreorderOn(PeriodDesc, xs)
  {
  }

  /** Array.prototype.findIndex for the month ym; -1 when absent. */
  function FindPeriod(archives: seq<ArchiveMetadata>, ym: YearMonth): (i: int)
    ensures -1 <= i < |archives|
    ensures i >= 0 ==> Key(archives[i]) == ym
    ensures forall j :: 0 <= j < |archives| && (i == -1 || j < i) ==> Key(archives[j]) != ym
  {
    if archives == [] then -1
    else if Key(archives[0]) == ym then 0
    else
      var i := FindPeriod(archives[1..], ym);
      assert forall j :: 1 <= j < |archives| ==> archives[j] == archives[1..][j - 1];
      if i == -1 then -1 else i + 1
  }

  /** The metadata line for a saved record. */
  function MetadataOf(d: SeisekiMonth): ArchiveMetadata
  {
    ArchiveMetadata(d.year, d.month, |d.entries|, d.publishedAt)
  }

  /** updateArchiveIndex before sorting: replace the line of that month or append one. */
  function Upsert(archives: seq<ArchiveMetadata>, meta: ArchiveMetadata): seq<ArchiveMetadata>
  {
    var i := FindPeriod(archives, Key(meta));
    if i >= 0 then archives[i := meta] else archives + [meta]
  }

  /** updateArchiveIndex: upsert, then sort newest first. */
  function SavedIndex(archives: seq<ArchiveMetadata>, meta: ArchiveMetadata): seq<ArchiveMetadata>
  {
    Sort(Upsert(archives, meta), PeriodDesc)
  }

  /** After a save the index is sorted newest first. */
  lemma SavedIndexSorted(archives: seq<ArchiveMetadata>, meta: ArchiveMetadata)
    ensures var r := SavedIndex(archives, meta);
      forall i, j :: 0 <= i < j < |r| ==> NotOlder(r[i], r[j])
  {
    var u := Upsert(archives, meta);
    PeriodDescLawful(set y | y in u);
    SortSorted(u, PeriodDesc, set y | y in u);
  }

  lemma {:induction false} UpsertContents(archives: seq<ArchiveMetadata>, meta: ArchiveMetadata)
    requires KeysDistinct(archives, Key)
    ensures var u := Upsert(archives, meta);
      && KeysDistinct(u, Key) && meta in u
      && forall x :: Key(x) != Key(meta) ==> (x in u <==> x in archives)
  {
    var i := FindPeriod(archives, Key(meta));
    var u := Upsert(archives, meta);
    if i >= 0 {
      assert forall j :: 0 <= j < |u| ==> Key(u[j]) == Key(archives[j]);
      forall x | Key(x) != Key(meta)
        ensures x in u <==> x in archives
      {
        if x in archives {
          var j :| 0 <= j < |archives| && archives[j] == x;
          assert u[j] == x;
        }
      }
    } else {
      assert u == archives + [meta];
      assert forall j :: 0 <= j < |archives| ==> u[j] == archives[j] && Key(u[j]) != Key(meta);
    }
  }

  /** With one line per month before a save, there is one line per month after it:
      the saved month's line is the new metadata, every other month's line is unchanged. */
  lemma SavedIndexContents(archives: seq<ArchiveMetadata>, meta: ArchiveMetadata)
    requires KeysDistinct(archives, Key)
    ensures var r := SavedIndex(archives, meta);
      && KeysDistinct(r, Key)
      && (exists i :: 0 <= i < |r| && r[i] == meta)
      && (forall x :: x in r && Key(x) == Key(meta) ==> x == meta)
      && (forall x :: Key(x) != Key(meta) ==> (x in r <==> x in archives))
  {
    var u := Upsert(archives, meta);
    var r := SavedIndex(archives, meta);
    assert r == Sort(u, PeriodDesc);
    UpsertContents(archives, meta);
    assert KeysDistinct(r, Key) by {
      SortKeysDistinct(u, PeriodDesc, Key);
    }
    assert meta in r by {
      SortMembers(u, PeriodDesc, meta);
    }
    forall x | Key(x) != Key(meta)
      ensures x in r <==> x in archives
    {
      SortMembers(u, PeriodDesc, x);
    }
    forall x | x in r && Key(x) == Key(meta)
      ensures x == meta
    {
      var i :| 0 <= i < |r| && r[i] == x;
      var j :| 0 <= j < |r| && r[j] == meta;
      assert i == j;
    }
  }

  /** With one line per month, the saved index is strictly newest first. */
  lemma SavedIndexStrictlyDescending(archives: seq<ArchiveMetadata>, meta: ArchiveMetadata)
    requires KeysDistinct(archives, Key)
    ensures var r := SavedIndex(archives, meta);
      forall i, j :: 0 <= i < j < |r| ==> r[i].year > r[j].year || (r[i].year == r[j].year && r[i].month > r[j].month)
  {
    SavedIndexSorted(archives, meta);
    SavedIndexContents(archives, meta);
  }

  /** removeFromArchiveIndex: drop every line of the month ym. */
  function RemovePeriod(archives: seq<ArchiveMetadata>, ym: YearMonth): seq<ArchiveMetadata>
  {
    if archives == [] then []
    else if Key(archives[0]) == ym then RemovePeriod(archives[1..], ym)
    else [archives[0]] + RemovePeriod(archives[1..], ym)
  }

  /** After a delete no line of that month is left, the other lines all stay, and
      they keep their relative order. */
  lemma {:induction false} RemovePeriodContents(archives: seq<ArchiveMetadata>, ym: YearMonth)
    ensures var r := RemovePeriod(archives, ym);
      && (forall x :: x in r <==> x in archives && Key(x) != ym)
      && SubsequenceOf(r, archives)
  {
    if archives != [] {
      RemovePeriodContents(archives[1..], ym);
      var r := RemovePeriod(archives, ym);
      var t := RemovePeriod(archives[1..], ym);
      forall x
        ensures x in r <==> x in archives && Key(x) != ym
      {
        assert x in archives <==> x == archives[0] || x in archives[1..];
      }
      if Key(archives[0]) != ym {
        assert r[0] == archives[0] && r[1..] == t;
      } else {
        SubsequenceSkip(t, archives);
      }
    }
  }

  /** Dropping lines keeps a sorted index sorted. */
  lemma {:induction false} RemovePeriodKeepsSorted(archives: seq<ArchiveMetadata>, ym: YearMonth)
    requires SortedBy(archives, PeriodDesc)
    ensures SortedBy(RemovePeriod(archives, ym), PeriodDesc)
  {
    if archives != [] {
      RemovePeriodKeepsSorted(archives[1..], ym);
      RemovePeriodContents(archives[1..], ym);
      var t := RemovePeriod(archives[1..], ym);
      if Key(archives[0]) != ym {
        var r := RemovePeriod(archives, ym);
        assert r == [archives[0]] + t;
        forall j | 0 < j < |r|
          ensures PeriodDesc(r[0], r[j]) <= 0
        {
          assert r[j] in t;
          var k :| 0 <= k < |archives[1..]| && archives[1..][k] == r[j];
          assert archives[k + 1] == r[j];
        }
      }
    }
  }

  /** a's month is strictly later than b's. */
  predicate Newer(a: ArchiveMetadata, b: ArchiveMetadata)
  {
    a.year > b.year || (a.year == b.year && a.month > b.month)
  }

  /** A delete keeps one line per month. */
  lemma RemovePeriodKeepsKeysDistinct(archives: seq<ArchiveMetadata>, ym: YearMonth)
    requires KeysDistinct(archives, Key)
    ensures KeysDistinct(RemovePeriod(archives, ym), Key)
  {
    var r := RemovePeriod(archives, ym);
    var differ := (a: ArchiveMetadata, b: ArchiveMetadata) => Key(a) != Key(b);
    RemovePeriodContents(archives, ym);
    assert Pairwise(archives, differ);
    SubsequencePairwise(r, archives, differ);
    assert forall i, j :: 0 <= i < j < |r| ==> differ(r[i], r[j]);
  }

  /** A delete keeps a strictly newest-first index strictly newest first. */
  lemma RemovePeriodKeepsStrictOrder(archives: seq<ArchiveMetadata>, ym: YearMonth)
    requires forall i, j :: 0 <= i < j < |archives| ==> Newer(archives[i], archives[j])
    ensures var r := RemovePeriod(archives, ym);
      forall i, j :: 0 <= i < j < |r| ==> Newer(r[i], r[j])
  {
    RemovePeriodContents(archives, ym);
    SubsequencePairwise(RemovePeriod(archives, ym), archives, Newer);
  }

  /** Strictly newest first is exactly one line per month, sorted newest first. */
  lemma StrictOrderIff(archives: seq<ArchiveMetadata>)
    ensures (forall i, j :: 0 <= i < j < |archives| ==> Newer(archives[i], archives[j])) <==>
            (SortedBy(archives, PeriodDesc) && KeysDistinct(archives, Key))
  {
    if SortedBy(archives, PeriodDesc) && KeysDistinct(archives, Key) {
      forall i, j | 0 <= i < j < |archives|
        ensures Newer(archives[i], archives[j])
      {
        assert PeriodDesc(archives[i], archives[j]) <= 0 && Key(archives[i]) != Key(archives[j]);
      }
    }
  }

  // ---------------------------------------------------------------------------
  // Queries

  /** getLatestSeisekiData: the record of the first index line. */
  function LatestRecord(records: Records, archives: seq<ArchiveMetadata>): (r: Option<SeisekiMonth>)
  {
    if |archives| == 0 then None else LoadPeriod(records, archives[0].year, archives[0].month)
  }

  /** With a sorted index, the latest record is at least as new as every indexed month. */
  lemma LatestRecordIsNewest(records: Records, archives: seq<ArchiveMetadata>)
    requires RecordsWellFormed(records)
    requires SortedBy(archives, PeriodDesc)
    ensures var r := LatestRecord(records, archives);
      r.Some? ==> forall a :: a in archives ==> a.year < r.value.year || (a.year == r.value.year && a.month <= r.value.month)
  {
    var r := LatestRecord(records, archives);
    if r.Some? {
      forall a | a in archives
        ensures a.year < r.value.year || (a.year == r.value.year && a.month <= r.value.month)
      {
        var i :| 0 <= i < |archives| && archives[i] == a;
        if i > 0 {
          assert PeriodDesc(archives[0], archives[i]) <= 0;
        }
      }
    }
  }

  /** The months 12 down to lo of `year` whose record exists and has entries. */
  function YearMonths(records: Records, year: int, lo: nat): seq<SeisekiMonth>
    decreases 13 - lo
  {
    if lo > 12 then []
    else
      var d := LoadPeriod(records, year, lo);
      YearMonths(records, year, lo + 1) + (if d.Some? && |d.value.entries| > 0 then [d.value] else [])
  }

  /** getYearSeisekiData lists exactly the non-empty records of that year, December first. */
  lemma YearMonthsProperties(records: Records, year: int, lo: nat)
    requires RecordsWellFormed(records)
    requires 1 <= lo
    ensures var r := YearMonths(records, year, lo);
      && (forall i :: 0 <= i < |r| ==> r[i].year == year && lo <= r[i].month <= 12 && |r[i].entries| > 0)
      && (forall i, j :: 0 <= i < j < |r| ==> r[i].month > r[j].month)
      && (forall m :: lo <= m <= 12 && YearMonth(year, m) in records && |records[YearMonth(year, m)].entries| > 0
            ==> records[YearMonth(year, m)] in r)
  {
    YearMonthsShape(records, year, lo);
    YearMonthsDescending(records, year, lo);
    YearMonthsComplete(records, year, lo);
  }

  /** Every record of r is a non-empty month of `year` from lo to 12. */
  predicate OfYearFrom(r: seq<SeisekiMonth>, year: int, lo: int)
  {
    forall i :: 0 <= i < |r| ==> r[i].year == year && lo <= r[i].month <= 12 && |r[i].entries| > 0
  }

  /** The months of r strictly decrease. */
  predicate MonthsDescending(r: seq<SeisekiMonth>)
  {
    forall i, j :: 0 <= i < j < |r| ==> r[i].month > r[j].month
  }

  /** Every listed record is a non-empty month of `year` from lo on. */
  lemma {:induction false} YearMonthsShape(records: Records, year: int, lo: nat)
    requires RecordsWellFormed(records)
    requires 1 <= lo
    ensures OfYearFrom(YearMonths(records, year, lo), year, lo)
    decreases 13 - lo
  {
    if lo <= 12 {
      YearMonthsShape(records, year, lo + 1);
      var t := YearMonths(records, year, lo + 1);
      var d := LoadPeriod(records, year, lo);
      var r := YearMonths(records, year, lo);
      if d.Some? && |d.value.entries| > 0 {
        assert r == t + [d.value];
        assert d.value == records[YearMonth(year, lo)];
      } else {
        assert r == t;
      }
    }
  }

  /** The listed records run from December down. */
  lemma {:induction false} YearMonthsDescending(records: Records, year: int, lo: nat)
    requires RecordsWellFormed(records)
    requires 1 <= lo
    ensures MonthsDescending(YearMonths(records, year, lo))
    decreases 13 - lo
  {
    if lo <= 12 {
      YearMonthsDescending(records, year, lo + 1);
      YearMonthsShape(records, year, lo + 1);
      var t := YearMonths(records, year, lo + 1);
      var d := LoadPeriod(records, year, lo);
      var r := YearMonths(records, year, lo);
      if d.Some? && |d.value.entries| > 0 {
        assert r == t + [d.value];
        assert d.value == records[YearMonth(year, lo)];
        assert d.value.month == lo;
        forall i, j | 0 <= i < j < |r|
          ensures r[i].month > r[j].month
        {
          assert r[i] == t[i];
          if j < |t| {
            assert r[j] == t[j];
          }
        }
      } else {
        assert r == t;
      }
    }
  }

  /** Every non-empty record of `year` from month lo on is listed. */
  lemma {:induction false} YearMonthsComplete(records: Records, year: int, lo: nat)
    requires RecordsWellFormed(records)
    requires 1 <= lo
    ensures forall m :: lo <= m <= 12 && YearMonth(year, m) in records && |records[YearMonth(year, m)].entries| > 0
              ==> records[YearMonth(year, m)] in YearMonths(records, year, lo)
    decreases 13 - lo
  {
    if lo <= 12 {
      YearMonthsComplete(records, year, lo + 1);
      var t := YearMonths(records, year, lo + 1);
      var d := LoadPeriod(records, year, lo);
      var r := YearMonths(records, year, lo);
      var k := YearMonth(year, lo);
      if k in records {
        assert ValidPeriod(k.year, k.month);
        assert d == Some(records[k]);
      }
      if d.Some? && |d.value.entries| > 0 {
        assert r == t + [d.value];
      } else {
        assert r == t;
      }
    }
  }

  /** The years of the index lines, each once, in order of first appearance
      (the spread of a Set). */
  function DistinctYears(archives: seq<ArchiveMetadata>, seen: seq<int>): (r: seq<int>)
    requires forall i, j :: 0 <= i < j < |seen| ==> seen[i] != seen[j]
    ensures forall i, j :: 0 <= i < j < |r| ==> r[i] != r[j]
    ensures forall y :: y in r <==> y in seen || exists a :: a in archives && a.year == y
    decreases |archives|
  {
    if archives == [] then seen
    else if archives[0].year in seen then DistinctYears(archives[1..], seen)
    else DistinctYears(archives[1..], seen + [archives[0].year])
  }

  function YearDesc(a: int, b: int): int
  {
    b - a
  }

  /** getAvailableYears. */
  function AvailableYears(archives: seq<ArchiveMetadata>): seq<int>
  {
    Sort(DistinctYears(archives, []), YearDesc)
  }

  /** The available years are the indexed years, each once, strictly descending. */
  lemma AvailableYearsProperties(archives: seq<ArchiveMetadata>)
    ensures var r := AvailableYears(archives);
      && (forall i, j :: 0 <= i < j < |r| ==> r[i] > r[j])
      && (forall y :: y in r <==> exists a :: a in archives && a.year == y)
  {
    var d := DistinctYears(archives, []);
    var r := AvailableYears(archives);
    assert r == Sort(d, YearDesc);
    assert SortedBy(r, YearDesc) by {
      SortSorted(d, YearDesc, set y | y in d);
    }
    assert KeysDistinct(r, (y: int) => y) by {
      SortKeysDistinct(d, YearDesc, (y: int) => y);
    }
    forall i, j | 0 <= i < j < |r|
      ensures r[i] > r[j]
    {
      assert YearDesc(r[i], r[j]) <= 0;
      assert ((y: int) => y)(r[i]) != ((y: int) => y)(r[j]);
    }
    forall y
      ensures y in r <==> y in d
    {
      SortMembers(d, YearDesc, y);
    }
  }

  // ---------------------------------------------------------------------------
  // A person's history

  /** A month in which the person appears, with the entry found there. */
  datatype DataPoint = DataPoint(year: int, month: int, entry: SeisekiEntry)

  /** Array.prototype.find: the first entry carrying exactly this personId. */
  function FindEntry(entries: seq<SeisekiEntry>, personId: string): (r: Option<SeisekiEntry>)
    ensures r.Some? ==> r.value in entries && r.value.personId == Some(personId)
  {
    if entries == [] then None
    else if entries[0].personId == Some(personId) then Some(entries[0])
    else FindEntry(entries[1..], personId)
  }

  /** find yields nothing exactly when no entry carries the personId, and otherwise
      the entry at the first index that does. */
  lemma {:induction false} FindEntryFirst(entries: seq<SeisekiEntry>, personId: string)
    ensures FindEntry(entries, personId).None? <==> forall i :: 0 <= i < |entries| ==> entries[i].personId != Some(personId)
    ensures FindEntry(entries, personId).Some? ==>
      exists i :: 0 <= i < |entries| && entries[i] == FindEntry(entries, personId).value
        && forall j :: 0 <= j < i ==> entries[j].personId != Some(personId)
  {
    if entries != [] && entries[0].personId != Some(personId) {
      var rest := entries[1..];
      FindEntryFirst(rest, personId);
      assert forall i :: 0 < i < |entries| ==> entries[i] == rest[i - 1];
      if FindEntry(rest, personId).Some? {
        var i :| 0 <= i < |rest| && rest[i] == FindEntry(rest, personId).value
          && forall j :: 0 <= j < i ==> rest[j].personId != Some(personId);
        assert entries[i + 1] == rest[i];
      }
    }
  }

  /** What one index line contributes: the month and the entry, if its record loads
      and holds the person. */
  function PointAt(records: Records, a: ArchiveMetadata, personId: string): (r: seq<DataPoint>)
    ensures |r| <= 1
    ensures r != [] ==> ValidPeriod(r[0].year, r[0].month) && r[0].year == a.year && r[0].month == a.month
  {
    match LoadPeriod(records, a.year, a.month)
    case None => []
    case Some(d) =>
      match FindEntry(d.entries, personId)
      case None => []
      case Some(e) => [DataPoint(a.year, a.month, e)]
  }

  /** The data points found scanning `scan` from its start. */
  function Collect(records: Records, scan: seq<ArchiveMetadata>, personId: string): seq<DataPoint>
  {
    if scan == [] then []
    else Collect(records, scan[..|scan| - 1], personId) + PointAt(records, scan[|scan| - 1], personId)
  }

  /** The data points of the index read oldest first: those of the older lines,
      then that of the first line. */
  function Points(records: Records, archives: seq<ArchiveMetadata>, personId: string): (r: seq<DataPoint>)
    ensures forall i :: 0 <= i < |r| ==> ValidPeriod(r[i].year, r[i].month)
  {
    if archives == [] then []
    else Points(records, archives[1..], personId) + PointAt(records, archives[0], personId)
  }

  /** The first data point of month ym. */
  function PointFor(points: seq<DataPoint>, ym: YearMonth): (r: Option<DataPoint>)
    ensures r.None? <==> forall i :: 0 <= i < |points| ==> YearMonth(points[i].year, points[i].month) != ym
    ensures r.Some? ==> exists i :: 0 <= i < |points| && points[i] == r.value && YearMonth(r.value.year, r.value.month) == ym
                                   && forall j :: 0 <= j < i ==> YearMonth(points[j].year, points[j].month) != ym
  {
    if points == [] then None
    else if YearMonth(points[0].year, points[0].month) == ym then Some(points[0])
    else
      var r := PointFor(points[1..], ym);
      assert r.Some? ==> exists i :: (0 <= i < |points[1..]| && points[1..][i] == r.value
                         && forall j :: 0 <= j < i ==> YearMonth(points[1..][j].year, points[1..][j].month) != ym);
      r
  }

  /** The record of a month without data. */
  function GapRecord(ym: YearMonth): (h: PersonHistoryEntry)
    ensures h.year == ym.year && h.month == ym.month
  {
    PersonHistoryEntry(ym.year, ym.month, None, "-", None, "")
  }

  /** The record of month ym: copied from its first data point, whose unreadable target
      size counts as 0, or a gap. */
  function HistoryRecord(points: seq<DataPoint>, ym: YearMonth): (h: PersonHistoryEntry)
    ensures h.year == ym.year && h.month == ym.month
  {
    match PointFor(points, ym)
    case Some(dp) =>
      PersonHistoryEntry(ym.year, ym.month, Some(dp.entry.rank), dp.entry.targetSize,
        Some(ParseTargetSize(dp.entry.targetSize).GetOr(0)), dp.entry.rankTitle)
    case None => GapRecord(ym)
  }

  function PointOrdinal(dp: DataPoint): int
  {
    Ordinal(dp.year, dp.month)
  }

  /** The number of months walked from `first` to `last`, both included (none when
      `last` is older). */
  function Span(first: DataPoint, last: DataPoint): nat
  {
    if PointOrdinal(last) < PointOrdinal(first) then 0 else PointOrdinal(last) - PointOrdinal(first) + 1
  }

  /** The records of the n months from ordinal `from` on. */
  function MonthRecords(points: seq<DataPoint>, from: int, n: nat): seq<PersonHistoryEntry>
  {
    seq(n, k => HistoryRecord(points, FromOrdinal(from + k)))
  }

  lemma MonthRecordsSnoc(points: seq<DataPoint>, from: int, n: nat)
    ensures MonthRecords(points, from, n + 1) == MonthRecords(points, from, n) + [HistoryRecord(points, FromOrdinal(from + n))]
  {
  }

  /** The record after the first n is that of the month with ordinal from + n. */
  lemma MonthRecordsNext(points: seq<DataPoint>, from: int, n: nat, year: int, month: int)
    requires 1 <= month <= 12 && Ordinal(year, month) == from + n
    ensures MonthRecords(points, from, n + 1) == MonthRecords(points, from, n) + [HistoryRecord(points, YearMonth(year, month))]
  {
    OrdinalRoundTrip(year, month);
    MonthRecordsSnoc(points, from, n);
  }

  /** One record per calendar month from the first data point to the last one. */
  function Walk(points: seq<DataPoint>): seq<PersonHistoryEntry>
    requires points != []
  {
    MonthRecords(points, PointOrdinal(points[0]), Span(points[0], points[|points| - 1]))
  }

  lemma WalkAt(points: seq<DataPoint>, k: nat)
    requires points != [] && k < |Walk(points)|
    ensures Walk(points)[k] == HistoryRecord(points, FromOrdinal(PointOrdinal(points[0]) + k))
    ensures YearMonth(Walk(points)[k].year, Walk(points)[k].month) == FromOrdinal(PointOrdinal(points[0]) + k)
  {
  }

  /** getPersonHistory. */
  function PersonHistoryOf(records: Records, archives: seq<ArchiveMetadata>, personId: string): Option<PersonHistory>
  {
    var points := Points(records, archives, personId);
    if points == [] then None
    else Some(PersonHistory(personId, points[|points| - 1].entry.name, Walk(points)))
  }

  // ---------------------------------------------------------------------------
  // Properties of the history

  lemma CollectSnoc(records: Records, scan: seq<ArchiveMetadata>, a: ArchiveMetadata, personId: string)
    ensures Collect(records, scan + [a], personId) == Collect(records, scan, personId) + PointAt(records, a, personId)
  {
    assert (scan + [a])[..|scan|] == scan;
  }

  /** One more line of the scan adds that line's point. */
  lemma CollectStep(records: Records, scan: seq<ArchiveMetadata>, i: nat, personId: string)
    requires i < |scan|
    ensures Collect(records, scan[..i + 1], personId) == Collect(records, scan[..i], personId) + PointAt(records, scan[i], personId)
  {
    assert scan[..i + 1] == scan[..i] + [scan[i]];
    CollectSnoc(records, scan[..i], scan[i], personId);
  }

  /** Scanning the reversed index finds the points in the order Points lists them. */
  lemma {:induction false} CollectReverse(records: Records, archives: seq<ArchiveMetadata>, personId: string)
    ensures Collect(records, Reverse(archives), personId) == Points(records, archives, personId)
  {
    if archives != [] {
      CollectReverse(records, archives[1..], personId);
      CollectSnoc(records, Reverse(archives[1..]), archives[0], personId);
    }
  }

  /** A line of the index matches when its record loads and holds the person. */
  predicate Matches(records: Records, a: ArchiveMetadata, personId: string)
  {
    PointAt(records, a, personId) != []
  }

  /** The oldest-first scan finds nothing exactly when no index line matches. */
  lemma {:induction false} PointsEmptyIff(records: Records, archives: seq<ArchiveMetadata>, personId: string)
    ensures Points(records, archives, personId) == [] <==>
      forall i :: 0 <= i < |archives| ==> !Matches(records, archives[i], personId)
  {
    if archives != [] {
      var rest := archives[1..];
      PointsEmptyIff(records, rest, personId);
      assert Points(records, archives, personId) == Points(records, rest, personId) + PointAt(records, archives[0], personId);
      assert forall i :: 0 <= i < |rest| ==> rest[i] == archives[i + 1];
    }
  }

  /** getPersonHistory is null exactly when no readable indexed month lists the personId. */
  lemma PersonHistoryNullIff(records: Records, archives: seq<ArchiveMetadata>, personId: string)
    ensures PersonHistoryOf(records, archives, personId).None? <==>
      forall i :: 0 <= i < |archives| ==> (LoadPeriod(records, archives[i].year, archives[i].month).None?
        || FindEntry(LoadPeriod(records, archives[i].year, archives[i].month).value.entries, personId).None?)
  {
    PointsEmptyIff(records, archives, personId);
  }

  /** The last point of the scan comes from the first matching index line. */
  lemma {:induction false} PointsLast(records: Records, archives: seq<ArchiveMetadata>, personId: string)
    requires Points(records, archives, personId) != []
    ensures var p := Points(records, archives, personId);
      exists i :: 0 <= i < |archives| && PointAt(records, archives[i], personId) == [p[|p| - 1]]
        && forall j :: 0 <= j < i ==> !Matches(records, archives[j], personId)
  {
    var p := Points(records, archives, personId);
    var rest := archives[1..];
    var q := Points(records, rest, personId);
    if !Matches(records, archives[0], personId) {
      assert p == q by {
        assert p == q + PointAt(records, archives[0], personId);
      }
      PointsLast(records, rest, personId);
      var i :| 0 <= i < |rest| && PointAt(records, rest[i], personId) == [q[|q| - 1]]
        && forall j :: 0 <= j < i ==> !Matches(records, rest[j], personId);
      assert archives[i + 1] == rest[i];
      forall j | 0 <= j < i + 1
        ensures !Matches(records, archives[j], personId)
      {
        if j > 0 {
          assert archives[j] == rest[j - 1];
        }
      }
      assert PointAt(records, archives[i + 1], personId) == [p[|p| - 1]];
    } else {
      assert PointAt(records, archives[0], personId) == [p[|p| - 1]] by {
        assert p == q + PointAt(records, archives[0], personId);
      }
    }
  }

  /** The first point of the scan comes from the last matching index line. */
  lemma {:induction false} PointsFirst(records: Records, archives: seq<ArchiveMetadata>, personId: string)
    requires Points(records, archives, personId) != []
    ensures var p := Points(records, archives, personId);
      exists i :: 0 <= i < |archives| && PointAt(records, archives[i], personId) == [p[0]]
        && forall j :: i < j < |archives| ==> !Matches(records, archives[j], personId)
  {
    var p := Points(records, archives, personId);
    var rest := archives[1..];
    var q := Points(records, rest, personId);
    assert p == q + PointAt(records, archives[0], personId);
    if q == [] {
      PointsEmptyIff(records, rest, personId);
      forall j | 0 < j < |archives|
        ensures !Matches(records, archives[j], personId)
      {
        assert archives[j] == rest[j - 1];
      }
      assert PointAt(records, archives[0], personId) == [p[0]];
    } else {
      PointsFirst(records, rest, personId);
      var i :| 0 <= i < |rest| && PointAt(records, rest[i], personId) == [q[0]]
        && forall j :: i < j < |rest| ==> !Matches(records, rest[j], personId);
      assert archives[i + 1] == rest[i];
      forall j | i + 1 < j < |archives|
        ensures !Matches(records, archives[j], personId)
      {
        assert archives[j] == rest[j - 1];
      }
      assert PointAt(records, archives[i + 1], personId) == [p[0]];
    }
  }

  /** The history carries the name of the newest matching month. */
  lemma PersonNameFromNewestMatch(records: Records, archives: seq<ArchiveMetadata>, personId: string)
    requires PersonHistoryOf(records, archives, personId).Some?
    ensures exists i :: (0 <= i < |archives|
      && Matches(records, archives[i], personId)
      && (forall j :: 0 <= j < i ==> !Matches(records, archives[j], personId))
      && PersonHistoryOf(records, archives, personId).value.name == PointAt(records, archives[i], personId)[0].entry.name)
  {
    PointsLast(records, archives, personId);
  }

  /** Every point of the scan is the month of some index line. */
  lemma {:induction false} PointFromLine(records: Records, archives: seq<ArchiveMetadata>, personId: string, i: nat)
    requires i < |Points(records, archives, personId)|
    ensures var dp := Points(records, archives, personId)[i];
      exists k :: 0 <= k < |archives| && archives[k].year == dp.year && archives[k].month == dp.month
  {
    var rest := archives[1..];
    var q := Points(records, rest, personId);
    if i < |q| {
      PointFromLine(records, rest, personId, i);
      var k :| 0 <= k < |rest| && rest[k].year == q[i].year && rest[k].month == q[i].month;
      assert archives[k + 1] == rest[k];
    }
  }

  predicate PointsChronological(p: seq<DataPoint>)
  {
    forall i, j :: 0 <= i < j < |p| ==> PointOrdinal(p[i]) <= PointOrdinal(p[j])
  }

  /** With the index sorted newest first, the scan meets the months oldest first. */
  lemma {:induction false} PointsAscending(records: Records, archives: seq<ArchiveMetadata>, personId: string)
    requires SortedBy(archives, PeriodDesc)
    ensures PointsChronological(Points(records, archives, personId))
  {
    if archives != [] {
      var rest := archives[1..];
      assert SortedBy(rest, PeriodDesc);
      PointsAscending(records, rest, personId);
      var q := Points(records, rest, personId);
      var p := Points(records, archives, personId);
      if Matches(records, archives[0], personId) {
        var last := PointAt(records, archives[0], personId)[0];
        assert p == q + [last];
        assert last.year == archives[0].year && last.month == archives[0].month;
        forall i | 0 <= i < |q|
          ensures PointOrdinal(q[i]) <= PointOrdinal(last)
        {
          PointFromLine(records, rest, personId, i);
          var k :| 0 <= k < |rest| && rest[k].year == q[i].year && rest[k].month == q[i].month;
          assert PeriodDesc(archives[0], archives[k + 1]) <= 0;
        }
        forall i, j | 0 <= i < j < |p|
          ensures PointOrdinal(p[i]) <= PointOrdinal(p[j])
        {
          assert p[i] == q[i];
          if j < |q| {
            assert p[j] == q[j];
          }
        }
      } else {
        assert p == q;
      }
    }
  }

  /** Neighbouring records of a walk are consecutive calendar months. */
  lemma WalkSteps(p: seq<DataPoint>)
    requires p != []
    ensures forall k :: 0 <= k < |Walk(p)| - 1 ==>
      YearMonth(Walk(p)[k + 1].year, Walk(p)[k + 1].month) == NextMonth(YearMonth(Walk(p)[k].year, Walk(p)[k].month))
  {
    var h := Walk(p);
    var f := PointOrdinal(p[0]);
    forall k | 0 <= k < |h| - 1
      ensures YearMonth(h[k + 1].year, h[k + 1].month) == NextMonth(YearMonth(h[k].year, h[k].month))
    {
      WalkAt(p, k);
      WalkAt(p, k + 1);
      NextMonthOrdinal(f + k);
    }
  }

  /** The walk over chronologically ordered points starts at the first point's month,
      ends at the last one's, and steps one calendar month at a time. */
  lemma WalkContiguous(p: seq<DataPoint>)
    requires p != [] && PointsChronological(p)
    requires forall i :: 0 <= i < |p| ==> 1 <= p[i].month <= 12
    ensures |Walk(p)| == PointOrdinal(p[|p| - 1]) - PointOrdinal(p[0]) + 1
    ensures Walk(p)[0].year == p[0].year && Walk(p)[0].month == p[0].month
    ensures Walk(p)[|Walk(p)| - 1].year == p[|p| - 1].year && Walk(p)[|Walk(p)| - 1].month == p[|p| - 1].month
    ensures forall k :: 0 <= k < |Walk(p)| - 1 ==>
      YearMonth(Walk(p)[k + 1].year, Walk(p)[k + 1].month) == NextMonth(YearMonth(Walk(p)[k].year, Walk(p)[k].month))
  {
    var f := PointOrdinal(p[0]);
    var l := PointOrdinal(p[|p| - 1]);
    assert f <= l;
    assert |Walk(p)| == l - f + 1;
    OrdinalRoundTrip(p[0].year, p[0].month);
    OrdinalRoundTrip(p[|p| - 1].year, p[|p| - 1].month);
    WalkAt(p, 0);
    WalkAt(p, l - f);
    WalkSteps(p);
  }

  /** Given an index sorted newest first, the history spans every month from the
      oldest match to the newest: 12 * (years apart) + (months apart) + 1 records,
      consecutive calendar months with December rolling over to January. */
  lemma HistoryContiguous(records: Records, archives: seq<ArchiveMetadata>, personId: string)
    requires SortedBy(archives, PeriodDesc)
    requires PersonHistoryOf(records, archives, personId).Some?
    ensures var p := Points(records, archives, personId);
      var h := PersonHistoryOf(records, archives, personId).value.history;
      && |h| > 0
      && |h| == 12 * (p[|p| - 1].year - p[0].year) + (p[|p| - 1].month - p[0].month) + 1
      && h[0].year == p[0].year && h[0].month == p[0].month
      && h[|h| - 1].year == p[|p| - 1].year && h[|h| - 1].month == p[|p| - 1].month
      && forall k :: 0 <= k < |h| - 1 ==> YearMonth(h[k + 1].year, h[k + 1].month) == NextMonth(YearMonth(h[k].year, h[k].month))
  {
    var p := Points(records, archives, personId);
    PointsAscending(records, archives, personId);
    WalkContiguous(p);
    assert PersonHistoryOf(records, archives, personId).value.history == Walk(p);
  }

  /** A record holds data exactly when a matching month is at that month: its rank,
      target size and title are those of the first such entry, and an unreadable size
      is 0. Every other record is a gap: no rank, "-", no numeric size, no title. */
  lemma HistoryRecords(records: Records, archives: seq<ArchiveMetadata>, personId: string, k: nat)
    requires PersonHistoryOf(records, archives, personId).Some?
    requires k < |PersonHistoryOf(records, archives, personId).value.history|
    ensures var p := Points(records, archives, personId);
      var h := PersonHistoryOf(records, archives, personId).value.history[k];
      var ym := YearMonth(h.year, h.month);
      && (h.rank.Some? <==> exists i :: 0 <= i < |p| && YearMonth(p[i].year, p[i].month) == ym)
      && (h.rank.Some? <==> h.targetSizeNumeric.Some?)
      && (h.rank.None? ==> h == GapRecord(ym))
      && (forall i :: 0 <= i < |p| && YearMonth(p[i].year, p[i].month) == ym
            && (forall j :: 0 <= j < i ==> YearMonth(p[j].year, p[j].month) != ym)
            ==> h.rank == Some(p[i].entry.rank) && h.targetSize == p[i].entry.targetSize
                && h.rankTitle == p[i].entry.rankTitle
                && h.targetSizeNumeric == Some(ParseTargetSize(p[i].entry.targetSize).GetOr(0)))
  {
    var p := Points(records, archives, personId);
    WalkAt(p, k);
    var h := Walk(p)[k];
    var ym := YearMonth(h.year, h.month);
    assert h == HistoryRecord(p, ym);
    forall i | 0 <= i < |p| && YearMonth(p[i].year, p[i].month) == ym
          && (forall j :: 0 <= j < i ==> YearMonth(p[j].year, p[j].month) != ym)
      ensures PointFor(p, ym) == Some(p[i])
    {
      var r := PointFor(p, ym).value;
      var i' :| 0 <= i' < |p| && p[i'] == r && YearMonth(r.year, r.month) == ym
                && forall j :: 0 <= j < i' ==> YearMonth(p[j].year, p[j].month) != ym;
      assert i' == i;
    }
  }

  /** Given a sorted index, no month with data is left out of the history. */
  lemma HistoryCoversPoints(records: Records, archives: seq<ArchiveMetadata>, personId: string, i: nat)
    requires SortedBy(archives, PeriodDesc)
    requires i < |Points(records, archives, personId)|
    ensures var p := Points(records, archives, personId);
      var h := PersonHistoryOf(records, archives, personId).value.history;
      exists k :: 0 <= k < |h| && h[k].year == p[i].year && h[k].month == p[i].month && h[k].rank.Some?
  {
    PointsAscending(records, archives, personId);
    var p := Points(records, archives, personId);
    var h := Walk(p);
    assert PointOrdinal(p[0]) <= PointOrdinal(p[i]) <= PointOrdinal(p[|p| - 1]);
    var k := PointOrdinal(p[i]) - PointOrdinal(p[0]);
    OrdinalRoundTrip(p[i].year, p[i].month);
    WalkAt(p, k);
    assert FromOrdinal(PointOrdinal(p[0]) + k) == YearMonth(p[i].year, p[i].month);
    assert h[k] == HistoryRecord(p, YearMonth(p[i].year, p[i].month));
    assert h[k].year == p[i].year && h[k].month == p[i].month && h[k].rank.Some?;
  }

  /** An entry saved from the admin editor has personId "", so the empty personId
      finds the months where such entries appear. */
  lemma EmptyPersonIdMatches(records: Records, archives: seq<ArchiveMetadata>, i: nat, e: SeisekiEntry)
    requires i < |archives|
    requires LoadPeriod(records, archives[i].year, archives[i].month).Some?
    requires e in LoadPeriod(records, archives[i].year, archives[i].month).value.entries
    requires e.personId == Some("")
    ensures PersonHistoryOf(records, archives, "").Some?
  {
    var entries := LoadPeriod(records, archives[i].year, archives[i].month).value.entries;
    FindEntryFirst(entries, "");
    var k :| 0 <= k < |entries| && entries[k] == e;
    PersonHistoryNullIff(records, archives, "");
  }

  /** The history is built on the assumption that the index is sorted newest first:
      with an index listing January before February, a person found in both months
      gets a history object with no months at all. */
  lemma AscendingIndexLosesHistory()
    ensures var e := SeisekiEntry("a", Some("person_001"), "", 1, "N", "", "", "", "", false);
      var jan := YearMonth(2024, 1);
      var feb := YearMonth(2024, 2);
      var records := map[jan := SeisekiMonth(2024, 1, [e], "", ""), feb := SeisekiMonth(2024, 2, [e], "", "")];
      var archives := [ArchiveMetadata(2024, 1, 1, ""), ArchiveMetadata(2024, 2, 1, "")];
      PersonHistoryOf(records, archives, "person_001") == Some(PersonHistory("person_001", "N", []))
  {
    var e := SeisekiEntry("a", Some("person_001"), "", 1, "N", "", "", "", "", false);
    var jan := YearMonth(2024, 1);
    var feb := YearMonth(2024, 2);
    var records := map[jan := SeisekiMonth(2024, 1, [e], "", ""), feb := SeisekiMonth(2024, 2, [e], "", "")];
    var archives := [ArchiveMetadata(2024, 1, 1, ""), ArchiveMetadata(2024, 2, 1, "")];
    assert FindEntry([e], "person_001") == Some(e);
    assert PointAt(records, archives[0], "person_001") == [DataPoint(2024, 1, e)];
    assert PointAt(records, archives[1], "person_001") == [DataPoint(2024, 2, e)];
    assert archives[1..][1..] == [];
    assert Points(records, archives[1..], "person_001") == [DataPoint(2024, 2, e)];
    var p := Points(records, archives, "person_001");
    assert p == [DataPoint(2024, 2, e), DataPoint(2024, 1, e)];
    assert Walk(p) == [];
  }

  // ---------------------------------------------------------------------------
  // The store

  class Store {
    var records: Records
    var archives: seq<ArchiveMetadata>
    var lastUpdated: string

    /** An empty data directory; a missing index reads as no lines. */
    constructor ()
      ensures records == map[] && archives == [] && lastUpdated == ""
    {
      records := map[];
      archives := [];
      lastUpdated := "";
    }

    /** saveSeisekiData followed by updateArchiveIndex. `entries` is None when the
        request's entries are not an array. */
    method SaveSeisekiData(year: int, month: int, entries: Option<seq<SeisekiEntry>>, now: string) returns (o: Outcome)
      modifies this
      ensures o == SaveCheck(year, month, entries)
      ensures o.Fail? ==> records == old(records) && archives == old(archives) && lastUpdated == old(lastUpdated)
      ensures o.Pass? ==> records == old(records)[YearMonth(year, month) := SavedRecord(old(records), year, month, entries.value, now)]
      ensures o.Pass? ==> archives == SavedIndex(old(archives), MetadataOf(SavedRecord(old(records), year, month, entries.value, now)))
      ensures o.Pass? ==> lastUpdated == now
      ensures RecordsWellFormed(old(records)) ==> RecordsWellFormed(records)
    {
      o := ValidateYearMonth(year, month);
      if o.Fail? {
        return;
      }
      if entries.None? {
        o := Fail(NotAnArray);
        return;
      }
      var existing := LoadPeriod(records, year, month);
      var published := if existing.Some? && existing.value.publishedAt != "" then existing.value.publishedAt else now;
      var data := SeisekiMonth(year, month, entries.value, published, now);
      assert data == SavedRecord(records, year, month, entries.value, now);
      SaveKeepsWellFormed(records, data);
      records := records[YearMonth(year, month) := data];
      var meta := MetadataOf(data);
      var upserted: seq<ArchiveMetadata>;
      var i := FindPeriod(archives, Key(meta));
      if i >= 0 {
        upserted := archives[i := meta];
      } else {
        upserted := archives + [meta];
      }
      assert upserted == Upsert(archives, meta);
      archives := Sort(upserted, PeriodDesc);
      lastUpdated := now;
    }

    /** deleteSeisekiData followed by removeFromArchiveIndex. */
    method DeleteSeisekiData(year: int, month: int, now: string) returns (o: Outcome)
      modifies this
      ensures o == ValidateYearMonth(year, month)
      ensures o.Fail? ==> records == old(records) && archives == old(archives) && lastUpdated == old(lastUpdated)
      ensures o.Pass? ==>
        && records == old(records) - {YearMonth(year, month)}
        && archives == RemovePeriod(old(archives), YearMonth(year, month))
        && lastUpdated == now
      ensures RecordsWellFormed(old(records)) ==> RecordsWellFormed(records)
    {
      o := ValidateYearMonth(year, month);
      if o.Fail? {
        return;
      }
      records := records - {YearMonth(year, month)};
      archives := RemovePeriod(archives, YearMonth(year, month));
      lastUpdated := now;
    }

    /** getYearSeisekiData: the months of `year` that have entries, December first. */
    method GetYearSeisekiData(year: int) returns (months: seq<SeisekiMonth>)
      ensures months == YearMonths(records, year, 1)
    {
      months := [];
      var month := 12;
      while month >= 1
        invariant 0 <= month <= 12
        invariant months == YearMonths(records, year, month + 1)
      {
        var data := LoadPeriod(records, year, month);
        if data.Some? && |data.value.entries| > 0 {
          months := months + [data.value];
        }
        month := month - 1;
      }
    }

    /** getPersonHistory: scan the index oldest first collecting the months where the
        personId appears, then walk month by month from the first to the last. */
    method GetPersonHistory(personId: string) returns (r: Option<PersonHistory>)
      ensures r == PersonHistoryOf(records, archives, personId)
    {
      var points, personName := ScanIndex(personId);
      if |points| == 0 {
        return None;
      }
      var history := WalkMonths(points);
      r := Some(PersonHistory(personId, personName, history));
    }

    /** The first phase of getPersonHistory: read the index oldest first and keep
        the months whose record holds the personId, with the entry found there. */
    method ScanIndex(personId: string) returns (points: seq<DataPoint>, personName: string)
      ensures points == Points(records, archives, personId)
      ensures points != [] ==> personName == points[|points| - 1].entry.name
    {
      personName := "";
      points := [];
      var recs := records;
      var scan := Reverse(archives);
      for i := 0 to |scan|
        invariant points == Collect(recs, scan[..i], personId)
        invariant points != [] ==> personName == points[|points| - 1].entry.name
      {
        CollectStep(recs, scan, i, personId);
        var found: seq<DataPoint> := [];
        var monthData := LoadPeriod(recs, scan[i].year, scan[i].month);
        if monthData.Some? {
          var entry := FindEntry(monthData.value.entries, personId);
          if entry.Some? {
            found := [DataPoint(scan[i].year, scan[i].month, entry.value)];
            personName := entry.value.name;
          }
        }
        assert found == PointAt(recs, scan[i], personId);
        assert found != [] ==> |found| == 1 && personName == found[0].entry.name;
        points := points + found;
      }
      assert scan[..|scan|] == scan;
      CollectReverse(records, archives, personId);
    }
  }

  /** The month walk of getPersonHistory: from the first point's month to the last
      point's month, one record per month, December rolling over to January. */
  method WalkMonths(points: seq<DataPoint>) returns (history: seq<PersonHistoryEntry>)
    requires points != []
    requires forall i :: 0 <= i < |points| ==> 1 <= points[i].month <= 12
    ensures history == Walk(points)
  {
    var first := points[0];
    var last := points[|points| - 1];
    ghost var f := PointOrdinal(first);
    history := [];
    var currentYear := first.year;
    var currentMonth := first.month;
    while currentYear < last.year || (currentYear == last.year && currentMonth <= last.month)
      invariant 1 <= currentMonth <= 12
      invariant Ordinal(currentYear, currentMonth) == f + |history|
      invariant |history| == 0 || f + |history| <= PointOrdinal(last) + 1
      invariant history == MonthRecords(points, f, |history|)
      decreases PointOrdinal(last) + 1 - (f + |history|)
    {
      OrdinalOrder(currentYear, currentMonth, last.year, last.month);
      ghost var n := |history|;
      var ym := YearMonth(currentYear, currentMonth);
      var found := PointFor(points, ym);
      var record: PersonHistoryEntry;
      if found.Some? {
        var e := found.value.entry;
        record := PersonHistoryEntry(currentYear, currentMonth, Some(e.rank), e.targetSize,
          Some(ParseTargetSize(e.targetSize).GetOr(0)), e.rankTitle);
      } else {
        record := GapRecord(ym);
      }
      assert record == HistoryRecord(points, ym);
      MonthRecordsNext(points, f, n, currentYear, currentMonth);
      history := history + [record];
      currentMonth := currentMonth + 1;
      if currentMonth > 12 {
        currentMonth := 1;
        currentYear := currentYear + 1;
      }
    }
    OrdinalOrder(currentYear, currentMonth, last.year, last.month);
    assert |history| == Span(first, last);
  }
}
