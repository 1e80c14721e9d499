/** The admin endpoint that saves a month of results (app/api/admin/seiseki/route.ts):
    the validator of the submitted body and the authenticate / validate / save gating
    of POST. The body is typed: numbers are integers, text fields are strings, and
    `entries` is None when the body's entries are not an array. */
module SeisekiRoute {
  import opened Common
  import opened Types
  import SeisekiStore

  // ---------------------------------------------------------------------------
  // The date pattern /^\d{4}年\d{1,2}月\d{1,2}日$/

  /** "D日" or "DD日", and nothing after. */
  predicate DayTail(u: string)
  {
    || (|u| == 2 && IsDigit(u[0]) && u[1] == Nichi)
    || (|u| == 3 && IsDigit(u[0]) && IsDigit(u[1]) && u[2] == Nichi)
  }

  /** "M月" or "MM月", then the day. */
  predicate MonthDayTail(t: string)
  {
    || (|t| >= 2 && IsDigit(t[0]) && t[1] == Gatsu && DayTail(t[2..]))
    || (|t| >= 3 && IsDigit(t[0]) && IsDigit(t[1]) && t[2] == Gatsu && DayTail(t[3..]))
  }

  /** The recogniser of the anchored date pattern, read left to right. */
  predicate IsJapaneseDate(s: string)
  {
    |s| >= 5 && AllDigits(s[..4]) && s[4] == Nen && MonthDayTail(s[5..])
  }

  /** The date pattern as a language: four digits, 年, one or two digits, 月, one or
      two digits, 日, and nothing else. */
  ghost predicate DateShaped(s: string)
  {
    exists y: string, m: string, d: string ::
      && |y| == 4 && 1 <= |m| <= 2 && 1 <= |d| <= 2
      && AllDigits(y) && AllDigits(m) && AllDigits(d)
      && s == y + [Nen] + m + [Gatsu] + d + [Nichi]
  }

  /** A day tail splits into its digits and the closing 日. */
  lemma DayTailSplit(u: string) returns (d: string)
    requires DayTail(u)
    ensures 1 <= |d| <= 2 && AllDigits(d) && u == d + [Nichi]
  {
    d := u[..|u| - 1];
    assert u == d + [Nichi];
  }

  /** One or two digits and 日 form a day tail. */
  lemma DayTailJoin(d: string)
    requires 1 <= |d| <= 2 && AllDigits(d)
    ensures DayTail(d + [Nichi])
  {
    var u := d + [Nichi];
    assert u[|d|] == Nichi;
    assert forall i :: 0 <= i < |d| ==> u[i] == d[i];
  }

  lemma DayTailShaped(u: string)
    ensures DayTail(u) <==> exists d: string :: 1 <= |d| <= 2 && AllDigits(d) && u == d + [Nichi]
  {
    if DayTail(u) {
      var d := DayTailSplit(u);
    }
    if exists d: string :: 1 <= |d| <= 2 && AllDigits(d) && u == d + [Nichi] {
      var d: string :| 1 <= |d| <= 2 && AllDigits(d) && u == d + [Nichi];
      DayTailJoin(d);
    }
  }

  /** A month-and-day tail splits into month digits, 月, day digits and 日. */
  lemma MonthDaySplit(t: string) returns (m: string, d: string)
    requires MonthDayTail(t)
    ensures 1 <= |m| <= 2 && 1 <= |d| <= 2 && AllDigits(m) && AllDigits(d)
    ensures t == m + [Gatsu] + d + [Nichi]
  {
    var k := if t[1] == Gatsu then 1 else 2;
    m := t[..k];
    d := DayTailSplit(t[k + 1..]);
    assert t == m + [Gatsu] + t[k + 1..];
  }

  /** Month digits, 月, day digits and 日 form a month-and-day tail. */
  lemma MonthDayJoin(m: string, d: string)
    requires 1 <= |m| <= 2 && 1 <= |d| <= 2 && AllDigits(m) && AllDigits(d)
    ensures MonthDayTail(m + [Gatsu] + d + [Nichi])
  {
    var t := m + [Gatsu] + d + [Nichi];
    var k := |m|;
    assert t[k] == Gatsu;
    assert forall i :: 0 <= i < k ==> t[i] == m[i];
    assert t[k + 1..] == d + [Nichi];
    DayTailJoin(d);
  }

  lemma MonthDayTailShaped(t: string)
    ensures MonthDayTail(t) <==> exists m: string, d: string ::
      1 <= |m| <= 2 && 1 <= |d| <= 2 && AllDigits(m) && AllDigits(d) && t == m + [Gatsu] + d + [Nichi]
  {
    if MonthDayTail(t) {
      var m, d := MonthDaySplit(t);
    }
    if exists m: string, d: string :: 1 <= |m| <= 2 && 1 <= |d| <= 2 && AllDigits(m) && AllDigits(d) && t == m + [Gatsu] + d + [Nichi] {
      var m: string, d: string :| 1 <= |m| <= 2 && 1 <= |d| <= 2 && AllDigits(m) && AllDigits(d) && t == m + [Gatsu] + d + [Nichi];
      MonthDayJoin(m, d);
    }
  }

  /** A recognised date splits into year, month and day digits. */
  lemma DateSplit(s: string) returns (y: string, m: string, d: string)
    requires IsJapaneseDate(s)
    ensures |y| == 4 && 1 <= |m| <= 2 && 1 <= |d| <= 2
    ensures AllDigits(y) && AllDigits(m) && AllDigits(d)
    ensures s == y + [Nen] + m + [Gatsu] + d + [Nichi]
  {
    y := s[..4];
    m, d := MonthDaySplit(s[5..]);
    assert s == y + [Nen] + s[5..];
  }

  /** Four year digits, 年 and a month-and-day tail are recognised. */
  lemma DateJoin(y: string, m: string, d: string)
    requires |y| == 4 && 1 <= |m| <= 2 && 1 <= |d| <= 2
    requires AllDigits(y) && AllDigits(m) && AllDigits(d)
    ensures IsJapaneseDate(y + [Nen] + m + [Gatsu] + d + [Nichi])
  {
    var s := y + [Nen] + m + [Gatsu] + d + [Nichi];
    assert s == y + [Nen] + (m + [Gatsu] + d + [Nichi]);
    assert s[..4] == y;
    assert s[5..] == m + [Gatsu] + d + [Nichi];
    MonthDayJoin(m, d);
  }

  /** The recogniser accepts exactly the strings of the pattern's language. */
  lemma IsJapaneseDateIff(s: string)
    ensures IsJapaneseDate(s) <==> DateShaped(s)
  {
    if IsJapaneseDate(s) {
      var y, m, d := DateSplit(s);
    }
    if DateShaped(s) {
      var y: string, m: string, d: string :| |y| == 4 && 1 <= |m| <= 2 && 1 <= |d| <= 2
        && AllDigits(y) && AllDigits(m) && AllDigits(d) && s == y + [Nen] + m + [Gatsu] + d + [Nichi];
      DateJoin(y, m, d);
    }
  }

  // ---------------------------------------------------------------------------
  // validateSeisekiData

  /** "Entry n: " for the entry at index i (numbered from 1). */
  function EntryLabel(i: nat): string
  {
    "Entry " + NatToString(i + 1) + ": "
  }

  /** The per-entry conditions, apart from rank uniqueness. */
  predicate EntryFieldsValid(e: SeisekiEntry)
  {
    && e.id != ""
    && 1 <= e.rank <= 10
    && e.name != "" && JsLength(e.name) <= 50
    && JsLength(e.rankTitle) <= 20
    && e.targetSize != "" && JsLength(e.targetSize) <= 20
    && IsJapaneseDate(e.updatedDate)
    && IsJapaneseDate(e.expiryDate)
  }

  /** The checks of one loop iteration, in order; `ranks` holds the ranks of the
      entries before it. A failure names the entry. */
  function CheckEntry(i: nat, e: SeisekiEntry, ranks: set<int>): (r: Outcome)
    ensures r.Pass? <==> EntryFieldsValid(e) && e.rank !in ranks
    ensures r.Fail? ==> StartsWith(r.error, EntryLabel(i))
  {
    var tag := EntryLabel(i);
    if e.id == "" then Fail(Tagged(tag, "Invalid ID"))
    else if e.rank < 1 || e.rank > 10 then Fail(Tagged(tag, "Rank must be between 1 and 10"))
    else if e.rank in ranks then Fail(Tagged(tag, "Duplicate rank " + IntToString(e.rank)))
    else if e.name == "" then Fail(Tagged(tag, "Name is required"))
    else if JsLength(e.name) > 50 then Fail(Tagged(tag, "Name must be max 50 characters"))
    else if JsLength(e.rankTitle) > 20 then Fail(Tagged(tag, "Rank title must be max 20 characters"))
    else if e.targetSize == "" then Fail(Tagged(tag, "Target size is required"))
    else if JsLength(e.targetSize) > 20 then Fail(Tagged(tag, "Target size must be max 20 characters"))
    else if !IsJapaneseDate(e.updatedDate) then Fail(Tagged(tag, "Invalid date format for updatedDate"))
    else if !IsJapaneseDate(e.expiryDate) then Fail(Tagged(tag, "Invalid date format for expiryDate"))
    else Pass
  }

  /** The ranks of a list of entries. */
  function RanksOf(entries: seq<SeisekiEntry>): (r: set<int>)
    ensures forall k :: k in r <==> exists i :: 0 <= i < |entries| && entries[i].rank == k
  {
    if entries == [] then {}
    else
      var init := entries[..|entries| - 1];
      assert forall i :: 0 <= i < |init| ==> init[i] == entries[i];
      RanksOf(init) + {entries[|entries| - 1].rank}
  }

  /** The ranks of one more entry. */
  lemma RanksOfSnoc(entries: seq<SeisekiEntry>, i: nat)
    requires i < |entries|
    ensures RanksOf(entries[..i + 1]) == RanksOf(entries[..i]) + {entries[i].rank}
  {
    assert entries[..i + 1][..i] == entries[..i];
  }

  /** The loop from index i on, with the ranks seen so far: the first failing check. */
  function CheckEntriesFrom(entries: seq<SeisekiEntry>, i: nat, ranks: set<int>): Outcome
    decreases |entries| - i
  {
    if i >= |entries| then Pass
    else
      var c := CheckEntry(i, entries[i], ranks);
      if c.Fail? then c else CheckEntriesFrom(entries, i + 1, ranks + {entries[i].rank})
  }

  /** validateSeisekiData: year, month, entry count, then every entry in order. */
  function ValidateSeiseki(year: int, month: int, entries: Option<seq<SeisekiEntry>>): Outcome
  {
    if year < 2000 || year > 2100 then Fail("Year must be between 2000 and 2100")
    else if month < 1 || month > 12 then Fail("Month must be between 1 and 12")
    else if entries.None? || |entries.value| == 0 then Fail("At least one entry is required")
    else if |entries.value| > 10 then Fail("Maximum 10 entries allowed")
    else CheckEntriesFrom(entries.value, 0, {})
  }

  /** What a valid submission is, stated declaratively. */
  ghost predicate ValidSubmission(year: int, month: int, entries: Option<seq<SeisekiEntry>>)
  {
    && 2000 <= year <= 2100
    && 1 <= month <= 12
    && entries.Some? && 1 <= |entries.value| <= 10
    && (forall i :: 0 <= i < |entries.value| ==> EntryFieldsValid(entries.value[i]))
    && (forall i, j :: 0 <= i < j < |entries.value| ==> entries.value[i].rank != entries.value[j].rank)
  }

  /** Every entry from index i on has valid fields and a rank outside `ranks`. */
  predicate RestValid(entries: seq<SeisekiEntry>, i: nat, ranks: set<int>)
  {
    forall k :: i <= k < |entries| ==> EntryFieldsValid(entries[k]) && entries[k].rank !in ranks
  }

  /** The entries from index i on have pairwise distinct ranks. */
  predicate RestDistinct(entries: seq<SeisekiEntry>, i: nat)
  {
    forall k, l :: i <= k < l < |entries| ==> entries[k].rank != entries[l].rank
  }

  /** Peeling the entry at index i off the two conditions. */
  lemma RestStep(entries: seq<SeisekiEntry>, i: nat, ranks: set<int>)
    requires i < |entries|
    ensures RestValid(entries, i, ranks) && RestDistinct(entries, i) <==>
      && EntryFieldsValid(entries[i]) && entries[i].rank !in ranks
      && RestValid(entries, i + 1, ranks + {entries[i].rank})
      && RestDistinct(entries, i + 1)
  {
    if EntryFieldsValid(entries[i]) && entries[i].rank !in ranks
      && RestValid(entries, i + 1, ranks + {entries[i].rank}) && RestDistinct(entries, i + 1)
    {
      forall k, l | i <= k < l < |entries|
        ensures entries[k].rank != entries[l].rank
      {
        if k == i {
          assert entries[l].rank !in ranks + {entries[i].rank};
        }
      }
    }
  }

  lemma {:induction false} CheckEntriesFromPass(entries: seq<SeisekiEntry>, i: nat, ranks: set<int>)
    requires i <= |entries|
    ensures CheckEntriesFrom(entries, i, ranks).Pass? <==> RestValid(entries, i, ranks) && RestDistinct(entries, i)
    decreases |entries| - i
  {
    if i < |entries| {
      CheckEntriesFromPass(entries, i + 1, ranks + {entries[i].rank});
      RestStep(entries, i, ranks);
    }
  }

  /** A submission passes validation exactly when it is a valid submission: both
      directions of the route's promise. */
  lemma ValidateSeisekiIff(year: int, month: int, entries: Option<seq<SeisekiEntry>>)
    ensures ValidateSeiseki(year, month, entries).Pass? <==> ValidSubmission(year, month, entries)
  {
    if entries.Some? {
      CheckEntriesFromPass(entries.value, 0, {});
    }
  }

  /** Every entry from index i up to n passes its checks. */
  predicate PassBetween(entries: seq<SeisekiEntry>, i: nat, n: nat)
    requires n <= |entries|
  {
    forall j :: i <= j < n ==> CheckEntry(j, entries[j], RanksOf(entries[..j])).Pass?
  }

  /** A failing run from index i names the first entry at or after i that fails. */
  lemma {:induction false} FirstFailureFrom(entries: seq<SeisekiEntry>, i: nat) returns (n: nat)
    requires i <= |entries|
    requires CheckEntriesFrom(entries, i, RanksOf(entries[..i])).Fail?
    ensures i <= n < |entries| && PassBetween(entries, i, n)
    ensures CheckEntry(n, entries[n], RanksOf(entries[..n])) == CheckEntriesFrom(entries, i, RanksOf(entries[..i]))
    decreases |entries| - i
  {
    var c := CheckEntry(i, entries[i], RanksOf(entries[..i]));
    if c.Pass? {
      RanksOfSnoc(entries, i);
      n := FirstFailureFrom(entries, i + 1);
      assert PassBetween(entries, i, n) by {
        assert PassBetween(entries, i + 1, n);
      }
    } else {
      n := i;
    }
  }

  /** When the entries are at fault, the error is that of the first entry failing a
      check, every earlier entry having passed all of its checks; the message starts
      with that entry's number. */
  lemma FirstFailingEntryReported(year: int, month: int, entries: Option<seq<SeisekiEntry>>)
    requires 2000 <= year <= 2100 && 1 <= month <= 12
    requires entries.Some? && 1 <= |entries.value| <= 10
    requires ValidateSeiseki(year, month, entries).Fail?
    ensures exists n :: (0 <= n < |entries.value|
      && (forall j :: 0 <= j < n ==> CheckEntry(j, entries.value[j], RanksOf(entries.value[..j])).Pass?)
      && ValidateSeiseki(year, month, entries) == CheckEntry(n, entries.value[n], RanksOf(entries.value[..n]))
      && StartsWith(ValidateSeiseki(year, month, entries).error, EntryLabel(n)))
  {
    assert entries.value[..0] == [];
    var n := FirstFailureFrom(entries.value, 0);
    assert PassBetween(entries.value, 0, n);
  }

  /** A valid submission passes every check of saveSeisekiData as well. */
  lemma ValidSubmissionIsSaved(year: int, month: int, entries: Option<seq<SeisekiEntry>>)
    requires ValidateSeiseki(year, month, entries).Pass?
    ensures SeisekiStore.SaveCheck(year, month, entries).Pass?
  {
  }

  /** validateSeisekiData as written: a loop over the entries that keeps the set of
      ranks seen and returns at the first failing check. */
  method ValidateSeisekiData(year: int, month: int, entries: Option<seq<SeisekiEntry>>) returns (v: Outcome)
    ensures v == ValidateSeiseki(year, month, entries)
  {
    if year < 2000 || year > 2100 {
      return Fail("Year must be between 2000 and 2100");
    }
    if month < 1 || month > 12 {
      return Fail("Month must be between 1 and 12");
    }
    if entries.None? || |entries.value| == 0 {
      return Fail("At least one entry is required");
    }
    if |entries.value| > 10 {
      return Fail("Maximum 10 entries allowed");
    }
    var es := entries.value;
    var ranks: set<int> := {};
    var i := 0;
    while i < |es|
      invariant 0 <= i <= |es|
      invariant ranks == RanksOf(es[..i])
      invariant CheckEntriesFrom(es, 0, {}) == CheckEntriesFrom(es, i, ranks)
    {
      var c := ValidateEntry(i, es[i], ranks);
      if c.Fail? {
        return c;
      }
      RanksOfSnoc(es, i);
      ranks := ranks + {es[i].rank};
      i := i + 1;
    }
    return Pass;
  }

  /** The body of the validator's loop for the entry at index i, given the ranks of
      the entries before it: the checks one after the other, the first failure returned. */
  method ValidateEntry(i: nat, entry: SeisekiEntry, ranks: set<int>) returns (v: Outcome)
    ensures v == CheckEntry(i, entry, ranks)
  {
    var tag := EntryLabel(i);
    if entry.id == "" {
      return Fail(Tagged(tag, "Invalid ID"));
    }
    if entry.rank < 1 || entry.rank > 10 {
      return Fail(Tagged(tag, "Rank must be between 1 and 10"));
    }
    if entry.rank in ranks {
      return Fail(Tagged(tag, "Duplicate rank " + IntToString(entry.rank)));
    }
    if entry.name == "" {
      return Fail(Tagged(tag, "Name is required"));
    }
    if JsLength(entry.name) > 50 {
      return Fail(Tagged(tag, "Name must be max 50 characters"));
    }
    if JsLength(entry.rankTitle) > 20 {
      return Fail(Tagged(tag, "Rank title must be max 20 characters"));
    }
    if entry.targetSize == "" {
      return Fail(Tagged(tag, "Target size is required"));
    }
    if JsLength(entry.targetSize) > 20 {
      return Fail(Tagged(tag, "Target size must be max 20 characters"));
    }
    if !IsJapaneseDate(entry.updatedDate) {
      return Fail(Tagged(tag, "Invalid date format for updatedDate"));
    }
    if !IsJapaneseDate(entry.expiryDate) {
      return Fail(Tagged(tag, "Invalid date format for expiryDate"));
    }
    return Pass;
  }

  // ---------------------------------------------------------------------------
  // POST

  /** A JSON response: HTTP status, the success flag and the error or message text. */
  datatype Response = Response(status: int, success: bool, text: string)

  /** POST: no session gives 401, an invalid body 400 with the validator's error;
      neither touches the store. A valid body is saved and answered with 200. */
  method PostSeiseki(store: SeisekiStore.Store, authenticated: bool, year: int, month: int,
                     entries: Option<seq<SeisekiEntry>>, now: string) returns (resp: Response)
    modifies store
    ensures !authenticated ==> resp == Response(401, false, "Authentication required")
    ensures authenticated && ValidateSeiseki(year, month, entries).Fail? ==>
      resp == Response(400, false, ValidateSeiseki(year, month, entries).error)
    ensures !authenticated || ValidateSeiseki(year, month, entries).Fail? ==>
      store.records == old(store.records) && store.archives == old(store.archives) && store.lastUpdated == old(store.lastUpdated)
    ensures authenticated && ValidateSeiseki(year, month, entries).Pass? ==>
      && resp == Response(200, true, "Seiseki data saved for " + IntToString(year) + "/" + IntToString(month))
      && store.records == old(store.records)[YearMonth(year, month) :=
           SeisekiStore.SavedRecord(old(store.records), year, month, entries.value, now)]
      && store.archives == SeisekiStore.SavedIndex(old(store.archives),
           SeisekiStore.MetadataOf(SeisekiStore.SavedRecord(old(store.records), year, month, entries.value, now)))
      && store.lastUpdated == now
  {
    if !authenticated {
      return Response(401, false, "Authentication required");
    }
    var validation := ValidateSeisekiData(year, month, entries);
    if validation.Fail? {
      return Response(400, false, validation.error);
    }
    var saved := store.SaveSeisekiData(year, month, entries, now);
    resp := Response(200, true, "Seiseki data saved for " + IntToString(year) + "/" + IntToString(month));
  }
}
