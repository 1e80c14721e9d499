/** The tournament results store (lib/taikai.ts): one result file per year, an archive
    index listing the stored tournaments newest year first, and one person's
    tournament history looked up by exact name.

    The data directory is a map from year to record; the index file is the
    sequence `archives`. A file that does not exist is a missing key. */
module TaikaiStore {
  import opened Common
  import opened Types
  import opened Sorting

  type TaikaiRecords = map<int, TaikaiData>

  // ---------------------------------------------------------------------------
  // Years and records

  /** The years the library accepts: 1900..2100 (wider than the admin route). */
  predicate ValidYear(year: int)
  {
    1900 <= year <= 2100
  }

  /** validateYear. */
  function ValidateYear(year: int): (o: Outcome)
    ensures o.Pass? <==> ValidYear(year)
    ensures o.Fail? ==> o.error == "Invalid year"
  {
    if year < 1900 || year > 2100 then Fail("Invalid year") else Pass
  }

  /** getTaikaiData: null, never an error, for a year outside the range or without a file. */
  function LoadYear(records: TaikaiRecords, year: int): (r: Option<TaikaiData>)
    ensures r.Some? <==> ValidYear(year) && year in records
    ensures r.Some? ==> r.value == records[year]
  {
    if ValidateYear(year).Fail? then None
    else if year in records then Some(records[year])
    else None
  }

  /** Every file lies at a valid year and records that year. */
  ghost predicate TaikaiRecordsWellFormed(records: TaikaiRecords)
  {
    forall y :: y in records ==> ValidYear(y) && records[y].year == y
  }

  /** Storing a record under its own valid year keeps the store well formed. */
  lemma SaveTaikaiKeepsWellFormed(records: TaikaiRecords, d: TaikaiData)
    requires ValidYear(d.year)
    ensures TaikaiRecordsWellFormed(records) ==> TaikaiRecordsWellFormed(records[d.year := d])
  {
  }

  /** The record saveTaikaiData writes: the submitted data with the year forced to
      the argument, publishedAt kept from an existing record unless that is empty,
      and updatedAt the time of the save. */
  function SavedTaikai(records: TaikaiRecords, year: int, data: TaikaiData, now: string): (d: TaikaiData)
  {
    var existing := LoadYear(records, year);
    data.(year := year, updatedAt := now,
          publishedAt := if existing.Some? && existing.value.publishedAt != "" then existing.value.publishedAt else now)
  }

  lemma SavedTaikaiStamps(records: TaikaiRecords, year: int, data: TaikaiData, now: string)
    requires ValidYear(year)
    ensures var d := SavedTaikai(records, year, data, now);
      && d.year == year && d.updatedAt == now
      && d.taikaiName == data.taikaiName && d.eventDate == data.eventDate && d.participants == data.participants
      && (year in records && records[year].publishedAt != "" ==> d.publishedAt == records[year].publishedAt)
      && (year !in records || records[year].publishedAt == "" ==> d.publishedAt == now)
  {
  }

  const NotAnArray := "Invalid data structure: participants must be an array"

  /** The checks of saveTaikaiData, in order: the year, then (after the record is
      written) that the participants are an array. */
  function SaveTaikaiCheck(year: int, participantsIsArray: bool): (o: Outcome)
    ensures o.Pass? <==> ValidYear(year) && participantsIsArray
    ensures !ValidYear(year) ==> o == ValidateYear(year)
  {
    if ValidateYear(year).Fail? then ValidateYear(year)
    else if !participantsIsArray then Fail(NotAnArray)
    else Pass
  }

  // ---------------------------------------------------------------------------
  // The archive index

  function YearOf(a: TaikaiArchiveMetadata): int
  {
    a.year
  }

  /** The index comparator `b.year - a.year`: newer years first. */
  function YearDescending(a: TaikaiArchiveMetadata, b: TaikaiArchiveMetadata): int
  {
    b.year - a.year
  }

  lemma YearDescendingLawful(xs: set<TaikaiArchiveMetadata>)
    ensures TotalPreorderOn(YearDescending, xs)
  {
  }

  /** Array.prototype.findIndex for the year; -1 when absent. */
  function FindYear(archives: seq<TaikaiArchiveMetadata>, year: int): (i: int)
    ensures -1 <= i < |archives|
    ensures i >= 0 ==> archives[i].year == year
    ensures forall j :: 0 <= j < |archives| && (i == -1 || j < i) ==> archives[j].year != year
  {
    if archives == [] then -1
    else if archives[0].year == year then 0
    else
      var i := FindYear(archives[1..], year);
      assert forall j :: 1 <= j < |archives| ==> archives[j] == archives[1..][j - 1];
      if i == -1 then -1 else i + 1
  }

  /** The metadata line for a saved record. */
  function TaikaiMetadataOf(d: TaikaiData): TaikaiArchiveMetadata
  {
    TaikaiArchiveMetadata(d.year, d.taikaiName, |d.participants|, d.eventDate, d.publishedAt)
  }

  /** updateTaikaiArchiveIndex before sorting: replace the line of that year or append one. */
  function UpsertYear(archives: seq<TaikaiArchiveMetadata>, meta: TaikaiArchiveMetadata): seq<TaikaiArchiveMetadata>
  {
    var i := FindYear(archives, meta.year);
    if i >= 0 then archives[i := meta] else archives + [meta]
  }

  /** updateTaikaiArchiveIndex: upsert, then sort newest year first. */
  function SavedTaikaiIndex(archives: seq<TaikaiArchiveMetadata>, meta: TaikaiArchiveMetadata): seq<TaikaiArchiveMetadata>
  {
    Sort(UpsertYear(archives, meta), YearDescending)
  }

  /** After a save the index is sorted newest year first. */
  lemma SavedTaikaiIndexSorted(archives: seq<TaikaiArchiveMetadata>, meta: TaikaiArchiveMetadata)
    ensures var r := SavedTaikaiIndex(archives, meta);
      forall i, j :: 0 <= i < j < |r| ==> r[i].year >= r[j].year
  {
    var u := UpsertYear(archives, meta);
    YearDescendingLawful(set y | y in u);
    SortSorted(u, YearDescending, set y | y in u);
  }

  lemma UpsertYearContents(archives: seq<TaikaiArchiveMetadata>, meta: TaikaiArchiveMetadata)
    requires KeysDistinct(archives, YearOf)
    ensures var u := UpsertYear(archives, meta);
      && KeysDistinct(u, YearOf) && meta in u
      && forall x: TaikaiArchiveMetadata :: x.year != meta.year ==> (x in u <==> x in archives)
  {
    var i := FindYear(archives, meta.year);
    var u := UpsertYear(archives, meta);
    if i >= 0 {
      assert forall j :: 0 <= j < |u| ==> YearOf(u[j]) == YearOf(archives[j]);
      forall x: TaikaiArchiveMetadata | x.year != meta.year
        ensures x in u <==> x in archives
      {
        if x in archives {
          var j :| 0 <= j < |archives| && archives[j] == x;
          assert u[j] == x;
        }
      }
    } else {
      assert u == archives + [meta];
      assert forall j :: 0 <= j < |archives| ==> u[j] == archives[j] && YearOf(u[j]) != YearOf(meta);
    }
  }

  /** With one line per year before a save, there is one line per year after it:
      the saved year's line is the new metadata, every other year's line is unchanged. */
  lemma SavedTaikaiIndexContents(archives: seq<TaikaiArchiveMetadata>, meta: TaikaiArchiveMetadata)
    requires KeysDistinct(archives, YearOf)
    ensures var r := SavedTaikaiIndex(archives, meta);
      && KeysDistinct(r, YearOf)
      && (exists i :: 0 <= i < |r| && r[i] == meta)
      && (forall x :: x in r && x.year == meta.year ==> x == meta)
      && (forall x: TaikaiArchiveMetadata :: x.year != meta.year ==> (x in r <==> x in archives))
  {
    var u := UpsertYear(archives, meta);
    UpsertYearContents(archives, meta);
    SortKeysDistinct(u, YearDescending, YearOf);
    var r := SavedTaikaiIndex(archives, meta);
    SortMembers(u, YearDescending, meta);
    forall x: TaikaiArchiveMetadata | x.year != meta.year
      ensures x in r <==> x in archives
    {
      SortMembers(u, YearDescending, x);
    }
    forall x | x in r && x.year == meta.year
      ensures x == meta
    {
      var i :| 0 <= i < |r| && r[i] == x;
      var j :| 0 <= j < |r| && r[j] == meta;
      assert YearOf(r[i]) == YearOf(r[j]);
    }
  }

  /** With one line per year, the saved index has strictly descending years. */
  lemma SavedTaikaiIndexStrictlyDescending(archives: seq<TaikaiArchiveMetadata>, meta: TaikaiArchiveMetadata)
    requires KeysDistinct(archives, YearOf)
    ensures var r := SavedTaikaiIndex(archives, meta);
      forall i, j :: 0 <= i < j < |r| ==> r[i].year > r[j].year
  {
    SavedTaikaiIndexSorted(archives, meta);
    SavedTaikaiIndexContents(archives, meta);
    var r := SavedTaikaiIndex(archives, meta);
    assert forall i, j :: 0 <= i < j < |r| ==> YearOf(r[i]) != YearOf(r[j]);
  }

  /** removeFromTaikaiArchiveIndex: drop every line of the year. */
  function RemoveYear(archives: seq<TaikaiArchiveMetadata>, year: int): seq<TaikaiArchiveMetadata>
  {
    if archives == [] then []
    else if archives[0].year == year then RemoveYear(archives[1..], year)
    else [archives[0]] + RemoveYear(archives[1..], year)
  }

  /** After a delete no line of that year is left, the other lines all stay, and
      they keep their relative order. */
  lemma {:induction false} RemoveYearContents(archives: seq<TaikaiArchiveMetadata>, year: int)
    ensures var r := RemoveYear(archives, year);
      && (forall x :: x in r <==> x in archives && x.year != year)
      && SubsequenceOf(r, archives)
  {
    if archives != [] {
      RemoveYearContents(archives[1..], year);
      var r := RemoveYear(archives, year);
      var t := RemoveYear(archives[1..], year);
      forall x
        ensures x in r <==> x in archives && x.year != year
      {
        assert x in archives <==> x == archives[0] || x in archives[1..];
      }
      if archives[0].year != year {
        assert r[0] == archives[0] && r[1..] == t;
      } else {
        SubsequenceSkip(t, archives);
      }
    }
  }

  /** A delete keeps an index sorted by descending year sorted. */
  lemma RemoveYearKeepsSorted(archives: seq<TaikaiArchiveMetadata>, year: int)
    requires forall i, j :: 0 <= i < j < |archives| ==> archives[i].year >= archives[j].year
    ensures var r := RemoveYear(archives, year);
      forall i, j :: 0 <= i < j < |r| ==> r[i].year >= r[j].year
  {
    var r := RemoveYear(archives, year);
    var notOlder := (a: TaikaiArchiveMetadata, b: TaikaiArchiveMetadata) => a.year >= b.year;
    RemoveYearContents(archives, year);
    assert Pairwise(archives, notOlder);
    SubsequencePairwise(r, archives, notOlder);
    assert forall i, j :: 0 <= i < j < |r| ==> notOlder(r[i], r[j]);
  }

  /** A delete keeps one line per year. */
  lemma RemoveYearKeepsKeysDistinct(archives: seq<TaikaiArchiveMetadata>, year: int)
    requires KeysDistinct(archives, YearOf)
    ensures KeysDistinct(RemoveYear(archives, year), YearOf)
  {
    var r := RemoveYear(archives, year);
    var differ := (a: TaikaiArchiveMetadata, b: TaikaiArchiveMetadata) => a.year != b.year;
    RemoveYearContents(archives, year);
    assert Pairwise(archives, differ);
    SubsequencePairwise(r, archives, differ);
    assert forall i, j :: 0 <= i < j < |r| ==> differ(r[i], r[j]);
  }

  /** A delete keeps strictly descending years strictly descending. */
  lemma RemoveYearKeepsStrictOrder(archives: seq<TaikaiArchiveMetadata>, year: int)
    requires forall i, j :: 0 <= i < j < |archives| ==> archives[i].year > archives[j].year
    ensures var r := RemoveYear(archives, year);
      forall i, j :: 0 <= i < j < |r| ==> r[i].year > r[j].year
  {
    var r := RemoveYear(archives, year);
    var newer := (a: TaikaiArchiveMetadata, b: TaikaiArchiveMetadata) => a.year > b.year;
    RemoveYearContents(archives, year);
    assert Pairwise(archives, newer);
    SubsequencePairwise(r, archives, newer);
    assert forall i, j :: 0 <= i < j < |r| ==> newer(r[i], r[j]);
  }

  // ---------------------------------------------------------------------------
  // Queries

  /** getLatestTaikaiData: the record of the first index line. */
  function LatestTaikai(records: TaikaiRecords, archives: seq<TaikaiArchiveMetadata>): (r: Option<TaikaiData>)
    ensures archives == [] ==> r.None?
    ensures archives != [] ==> r == LoadYear(records, archives[0].year)
  {
    if |archives| == 0 then None else LoadYear(records, archives[0].year)
  }

  /** With a sorted index, the latest record's year is the largest indexed year. */
  lemma LatestTaikaiIsNewest(records: TaikaiRecords, archives: seq<TaikaiArchiveMetadata>)
    requires TaikaiRecordsWellFormed(records)
    requires SortedBy(archives, YearDescending)
    ensures var r := LatestTaikai(records, archives);
      r.Some? ==> forall a :: a in archives ==> a.year <= r.value.year
  {
    var r := LatestTaikai(records, archives);
    if r.Some? {
      forall a | a in archives
        ensures a.year <= r.value.year
      {
        var i :| 0 <= i < |archives| && archives[i] == a;
        if i > 0 {
          assert YearDescending(archives[0], archives[i]) <= 0;
        }
      }
    }
  }

  // ---------------------------------------------------------------------------
  // A person's tournament history

  /** Array.prototype.find: the first participant whose name is exactly `name`. */
  function FindParticipant(participants: seq<TaikaiParticipant>, name: string): (r: Option<TaikaiParticipant>)
    ensures r.None? <==> forall i :: 0 <= i < |participants| ==> participants[i].name != name
    ensures r.Some? ==> exists i :: 0 <= i < |participants| && participants[i] == r.value && r.value.name == name
                                   && forall j :: 0 <= j < i ==> participants[j].name != name
  {
    if participants == [] then None
    else if participants[0].name == name then Some(participants[0])
    else
      var r := FindParticipant(participants[1..], name);
      assert r.Some? ==> exists i :: 0 <= i < |participants[1..]| && participants[1..][i] == r.value
                                   && forall j :: 0 <= j < i ==> participants[1..][j].name != name;
      r
  }

  /** The history line built from an index line and the participant found there:
      year and tournament name from the index, the rest from the participant. */
  function HistoryLine(a: TaikaiArchiveMetadata, p: TaikaiParticipant): PersonTaikaiHistoryEntry
  {
    PersonTaikaiHistoryEntry(a.year, a.taikaiName, p.rank, p.score1, p.score2, p.totalScore, p.rankTitle)
  }

  /** What one index line contributes: a line if its record loads and has the name. */
  function LineAt(records: TaikaiRecords, a: TaikaiArchiveMetadata, name: string): (r: seq<PersonTaikaiHistoryEntry>)
    ensures |r| <= 1
  {
    match LoadYear(records, a.year)
    case None => []
    case Some(d) =>
      match FindParticipant(d.participants, name)
      case None => []
      case Some(p) => [HistoryLine(a, p)]
  }

  /** The index line's record loads and lists the name. */
  predicate Attended(records: TaikaiRecords, a: TaikaiArchiveMetadata, name: string)
  {
    LoadYear(records, a.year).Some? && FindParticipant(LoadYear(records, a.year).value.participants, name).Some?
  }

  /** The history lines of the index read in its own order. */
  function HistoryLines(records: TaikaiRecords, archives: seq<TaikaiArchiveMetadata>, name: string): seq<PersonTaikaiHistoryEntry>
  {
    if archives == [] then []
    else HistoryLines(records, archives[..|archives| - 1], name) + LineAt(records, archives[|archives| - 1], name)
  }

  /** getPersonTaikaiHistory: null when no line was found. */
  function PersonTaikaiHistoryOf(records: TaikaiRecords, archives: seq<TaikaiArchiveMetadata>, name: string): Option<PersonTaikaiHistory>
  {
    var lines := HistoryLines(records, archives, name);
    if |lines| == 0 then None else Some(PersonTaikaiHistory(name, lines))
  }

  /** No index line's record lists the name. */
  predicate NoneAttended(records: TaikaiRecords, archives: seq<TaikaiArchiveMetadata>, name: string)
  {
    forall i :: 0 <= i < |archives| ==> !Attended(records, archives[i], name)
  }

  /** The history is null exactly when no indexed year's record lists the name. */
  lemma {:induction false} HistoryLinesEmptyIff(records: TaikaiRecords, archives: seq<TaikaiArchiveMetadata>, name: string)
    ensures HistoryLines(records, archives, name) == [] <==> NoneAttended(records, archives, name)
  {
    if archives != [] {
      var n := |archives| - 1;
      var init := archives[..n];
      HistoryLinesEmptyIff(records, init, name);
      assert NoneAttended(records, archives, name) <==>
        NoneAttended(records, init, name) && !Attended(records, archives[n], name)
      by {
        assert forall i :: 0 <= i < |init| ==> init[i] == archives[i];
      }
    }
  }

  lemma PersonTaikaiHistoryNullIff(records: TaikaiRecords, archives: seq<TaikaiArchiveMetadata>, name: string)
    ensures PersonTaikaiHistoryOf(records, archives, name).None?
        <==> forall i :: 0 <= i < |archives| ==> !Attended(records, archives[i], name)
    ensures PersonTaikaiHistoryOf(records, archives, name).Some? ==> PersonTaikaiHistoryOf(records, archives, name).value.name == name
  {
    HistoryLinesEmptyIff(records, archives, name);
  }

  /** The number of index lines whose record lists the name. */
  function AttendedCount(records: TaikaiRecords, archives: seq<TaikaiArchiveMetadata>, name: string): nat
  {
    if archives == [] then 0
    else AttendedCount(records, archives[..|archives| - 1], name) + (if Attended(records, archives[|archives| - 1], name) then 1 else 0)
  }

  /** One history line per attended index line, none for the others (no gap lines);
      the k-th line comes from the k-th attended index line, with the year and
      tournament name of that line and the rank, scores and title of the first
      participant of that name. */
  lemma {:induction false} HistoryLinesFromIndex(records: TaikaiRecords, archives: seq<TaikaiArchiveMetadata>, name: string)
    ensures |HistoryLines(records, archives, name)| == AttendedCount(records, archives, name)
    ensures forall i :: 0 <= i < |archives| && Attended(records, archives[i], name) ==>
      && AttendedCount(records, archives[..i], name) < |HistoryLines(records, archives, name)|
      && HistoryLines(records, archives, name)[AttendedCount(records, archives[..i], name)]
           == HistoryLine(archives[i], FindParticipant(LoadYear(records, archives[i].year).value.participants, name).value)
  {
    HistoryLinesCount(records, archives, name);
    forall i | 0 <= i < |archives| && Attended(records, archives[i], name)
      ensures AttendedCount(records, archives[..i], name) < |HistoryLines(records, archives, name)|
      ensures HistoryLines(records, archives, name)[AttendedCount(records, archives[..i], name)]
           == HistoryLine(archives[i], FindParticipant(LoadYear(records, archives[i].year).value.participants, name).value)
    {
      HistoryLineAt(records, archives, name, i);
    }
  }

  /** One history line per attended index line. */
  lemma {:induction false} HistoryLinesCount(records: TaikaiRecords, archives: seq<TaikaiArchiveMetadata>, name: string)
    ensures |HistoryLines(records, archives, name)| == AttendedCount(records, archives, name)
  {
    if archives != [] {
      HistoryLinesCount(records, archives[..|archives| - 1], name);
    }
  }

  /** The line of the attended index line i sits after the lines of the attended
      index lines before it. */
  lemma {:induction false} HistoryLineAt(records: TaikaiRecords, archives: seq<TaikaiArchiveMetadata>, name: string, i: nat)
    requires i < |archives| && Attended(records, archives[i], name)
    ensures AttendedCount(records, archives[..i], name) < |HistoryLines(records, archives, name)|
    ensures HistoryLines(records, archives, name)[AttendedCount(records, archives[..i], name)]
      == HistoryLine(archives[i], FindParticipant(LoadYear(records, archives[i].year).value.participants, name).value)
  {
    var n := |archives| - 1;
    var init := archives[..n];
    HistoryLinesCount(records, init, name);
    var h := HistoryLines(records, archives, name);
    var t := HistoryLines(records, init, name);
    assert h == t + LineAt(records, archives[n], name);
    if i < n {
      assert archives[..i] == init[..i];
      assert init[i] == archives[i];
      HistoryLineAt(records, init, name, i);
    } else {
      assert archives[..i] == init;
    }
  }

  lemma HistoryLineSource(records: TaikaiRecords, archives: seq<TaikaiArchiveMetadata>, name: string, k: nat)
    requires k < |HistoryLines(records, archives, name)|
    ensures exists i :: (0 <= i < |archives| && Attended(records, archives[i], name)
      && HistoryLines(records, archives, name)[k].year == archives[i].year
      && HistoryLines(records, archives, name)[k].taikaiName == archives[i].taikaiName)
  {
    var i := HistoryLineOrigin(records, archives, name, k);
  }

  /** The index line a history line comes from. */
  lemma {:induction false} HistoryLineOrigin(records: TaikaiRecords, archives: seq<TaikaiArchiveMetadata>, name: string, k: nat)
    returns (i: nat)
    requires k < |HistoryLines(records, archives, name)|
    ensures i < |archives| && Attended(records, archives[i], name)
    ensures HistoryLines(records, archives, name)[k].year == archives[i].year
    ensures HistoryLines(records, archives, name)[k].taikaiName == archives[i].taikaiName
  {
    var n := |archives| - 1;
    var init := archives[..n];
    var t := HistoryLines(records, init, name);
    assert HistoryLines(records, archives, name) == t + LineAt(records, archives[n], name);
    if k < |t| {
      i := HistoryLineOrigin(records, init, name, k);
      assert init[i] == archives[i];
    } else {
      i := n;
    }
  }

  predicate LinesNewestFirst(h: seq<PersonTaikaiHistoryEntry>)
  {
    forall i, j :: 0 <= i < j < |h| ==> h[i].year >= h[j].year
  }

  /** The lines follow the index: with years newest first in the index, the history
      is newest first too. */
  lemma {:induction false} HistoryLinesDescending(records: TaikaiRecords, archives: seq<TaikaiArchiveMetadata>, name: string)
    requires SortedBy(archives, YearDescending)
    ensures LinesNewestFirst(HistoryLines(records, archives, name))
  {
    if archives != [] {
      var n := |archives| - 1;
      var init := archives[..n];
      assert SortedBy(init, YearDescending);
      HistoryLinesDescending(records, init, name);
      var h := HistoryLines(records, archives, name);
      var t := HistoryLines(records, init, name);
      if Attended(records, archives[n], name) {
        assert h == t + [h[|h| - 1]];
        assert h[|h| - 1].year == archives[n].year;
        forall i | 0 <= i < |t|
          ensures t[i].year >= archives[n].year
        {
          var k := HistoryLineOrigin(records, init, name, i);
          assert YearDescending(archives[k], archives[n]) <= 0;
        }
        forall i, j | 0 <= i < j < |h|
          ensures h[i].year >= h[j].year
        {
          assert h[i] == t[i];
          if j < |t| {
            assert h[j] == t[j];
          }
        }
      } else {
        assert h == t;
      }
    }
  }

  // ---------------------------------------------------------------------------
  // The store

  class Store {
    var records: TaikaiRecords
    var archives: seq<TaikaiArchiveMetadata>
    var lastUpdated: string

    /** An empty data directory; a missing index reads as no lines. */
    constructor ()
      ensures records == map[] && archives == [] && lastUpdated == ""
    {
      records := map[];
      archives := [];
      lastUpdated := "";
    }

    /** saveTaikaiData followed by updateTaikaiArchiveIndex. The year is checked
        first; the record file is written before the index update checks that the
        participants are an array, so a failure there leaves the written record and
        an unchanged index. */
    method SaveTaikaiData(year: int, data: TaikaiData, participantsIsArray: bool, now: string) returns (o: Outcome)
      modifies this
      ensures o == SaveTaikaiCheck(year, participantsIsArray)
      ensures !ValidYear(year) ==> records == old(records) && archives == old(archives) && lastUpdated == old(lastUpdated)
      ensures ValidYear(year) ==> records == old(records)[year := SavedTaikai(old(records), year, data, now)]
      ensures ValidYear(year) && !participantsIsArray ==> archives == old(archives) && lastUpdated == old(lastUpdated)
      ensures o.Pass? ==> archives == SavedTaikaiIndex(old(archives), TaikaiMetadataOf(SavedTaikai(old(records), year, data, now)))
      ensures o.Pass? ==> lastUpdated == now
      ensures TaikaiRecordsWellFormed(old(records)) ==> TaikaiRecordsWellFormed(records)
    {
      o := ValidateYear(year);
      if o.Fail? {
        return;
      }
      var existing := LoadYear(records, year);
      var published := if existing.Some? && existing.value.publishedAt != "" then existing.value.publishedAt else now;
      var saved := data.(year := year, updatedAt := now, publishedAt := published);
      assert saved == SavedTaikai(records, year, data, now);
      SaveTaikaiKeepsWellFormed(records, saved);
      records := records[year := saved];
      if !participantsIsArray {
        o := Fail(NotAnArray);
        return;
      }
      var meta := TaikaiMetadataOf(saved);
      var upserted: seq<TaikaiArchiveMetadata>;
      var i := FindYear(archives, year);
      if i >= 0 {
        upserted := archives[i := meta];
      } else {
        upserted := archives + [meta];
      }
      assert upserted == UpsertYear(archives, meta);
      archives := Sort(upserted, YearDescending);
      lastUpdated := now;
    }

    /** deleteTaikaiData followed by removeFromTaikaiArchiveIndex. */
    method DeleteTaikaiData(year: int, now: string) returns (o: Outcome)
      modifies this
      ensures o == ValidateYear(year)
      ensures o.Fail? ==> records == old(records) && archives == old(archives) && lastUpdated == old(lastUpdated)
      ensures o.Pass? ==>
        && records == old(records) - {year}
        && archives == RemoveYear(old(archives), year)
        && lastUpdated == now
      ensures TaikaiRecordsWellFormed(old(records)) ==> TaikaiRecordsWellFormed(records)
    {
      o := ValidateYear(year);
      if o.Fail? {
        return;
      }
      records := records - {year};
      archives := RemoveYear(archives, year);
      lastUpdated := now;
    }

    /** getPersonTaikaiHistory: walk the index in its own order and keep, for every
        year whose record lists the name, a line from the first such participant. */
    method GetPersonTaikaiHistory(personName: string) returns (r: Option<PersonTaikaiHistory>)
      ensures r == PersonTaikaiHistoryOf(records, archives, personName)
    {
      var historyEntries: seq<PersonTaikaiHistoryEntry> := [];
      for i := 0 to |archives|
        invariant historyEntries == HistoryLines(records, archives[..i], personName)
      {
        assert archives[..i + 1][..i] == archives[..i];
        var taikaiData := LoadYear(records, archives[i].year);
        if taikaiData.Some? {
          var participant := FindParticipant(taikaiData.value.participants, personName);
          if participant.Some? {
            historyEntries := historyEntries + [HistoryLine(archives[i], participant.value)];
          }
        }
      }
      assert archives[..|archives|] == archives;
      if |historyEntries| == 0 {
        return None;
      }
      r := Some(PersonTaikaiHistory(personName, historyEntries));
    }
  }
}
