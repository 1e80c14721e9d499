/** scripts/migrate-persons.ts: builds the person registry from scratch out of the
    personIds already present in the monthly result files. Every non-empty entry
    with a personId is a sighting of that person; the registry has one record per
    distinct personId, counting the sightings and remembering the first and the
    latest month. Records are sorted by the number after "person_", and
    nextPersonId is one more than the largest such number. */
module MigratePersons {
  import opened Common
  import opened Types
  import opened DataFiles
  import Sorting

  // ---------------------------------------------------------------------------
  // Sightings

  /** The entries the scan counts: not a placeholder, and a non-empty personId. */
  predicate Counted(e: SeisekiEntry)
  {
    !e.isEmpty && e.personId.Some? && e.personId.value != ""
  }

  /** One counted entry, with the month of its file. */
  datatype Sighting = Sighting(personId: string, name: string, personKey: string, period: YearMonth)

  function SightingOf(e: SeisekiEntry, year: int, month: int): Sighting
    requires Counted(e)
  {
    Sighting(e.personId.value, e.name, e.personKey, YearMonth(year, month))
  }

  /** The sightings in the entries of one file, in entry order. */
  function EntrySightings(es: seq<SeisekiEntry>, year: int, month: int): seq<Sighting>
  {
    if es == [] then []
    else
      var e := es[|es| - 1];
      EntrySightings(es[..|es| - 1], year, month) + (if Counted(e) then [SightingOf(e, year, month)] else [])
  }

  /** The sightings of all files in scan order; an unreadable file has none. */
  function Sightings(files: seq<LoadedFile>): seq<Sighting>
  {
    if files == [] then []
    else
      var f := files[|files| - 1];
      Sightings(files[..|files| - 1]) +
        (match f.data case Some(d) => EntrySightings(d.entries, d.year, d.month) case None => [])
  }

  // ---------------------------------------------------------------------------
  // The person map (a Map, so records stay in insertion order)

  /** The position of the record with this personId, if any. */
  function IndexOf(ps: seq<PersonEntry>, id: string): (r: Option<nat>)
    ensures r.Some? ==> r.value < |ps| && ps[r.value].personId == id
    ensures r.None? ==> forall i :: 0 <= i < |ps| ==> ps[i].personId != id
  {
    if ps == [] then None
    else if ps[|ps| - 1].personId == id then Some(|ps| - 1)
    else IndexOf(ps[..|ps| - 1], id)
  }

  /** a is a later month than b. */
  predicate Later(a: YearMonth, b: YearMonth)
  {
    a.year > b.year || (a.year == b.year && a.month > b.month)
  }

  /** The map after one sighting: a new record (count 1, first and latest month
      the sighting's, no note) or the existing record counted once more, its
      latest month moved forward when the sighting is later. */
  function Record(ps: seq<PersonEntry>, s: Sighting, now: string): seq<PersonEntry>
  {
    match IndexOf(ps, s.personId)
    case None => ps + [PersonEntry(s.personId, s.name, s.personKey, s.period, s.period, 1, now, "")]
    case Some(k) =>
      var p := ps[k];
      ps[k := p.(appearanceCount := p.appearanceCount + 1,
                 lastAppearance := if Later(s.period, p.lastAppearance) then s.period else p.lastAppearance)]
  }

  function Aggregate(ss: seq<Sighting>, now: string): seq<PersonEntry>
  {
    if ss == [] then [] else Record(Aggregate(ss[..|ss| - 1], now), ss[|ss| - 1], now)
  }

  lemma AggregateSnoc(ss: seq<Sighting>, s: Sighting, now: string)
    ensures Aggregate(ss + [s], now) == Record(Aggregate(ss, now), s, now)
  {
    assert (ss + [s])[..|ss|] == ss;
  }

  lemma {:induction false} EntrySightingsSnoc(es: seq<SeisekiEntry>, k: int, year: int, month: int)
    requires 0 <= k < |es|
    ensures EntrySightings(es[..k + 1], year, month) ==
      EntrySightings(es[..k], year, month) + (if Counted(es[k]) then [SightingOf(es[k], year, month)] else [])
  {
    assert es[..k + 1][..k] == es[..k];
  }

  lemma {:induction false} SightingsSnoc(files: seq<LoadedFile>, i: int)
    requires 0 <= i < |files|
    ensures files[i].data.None? ==> Sightings(files[..i + 1]) == Sightings(files[..i])
    ensures files[i].data.Some? ==>
              Sightings(files[..i + 1]) == Sightings(files[..i]) +
                EntrySightings(files[i].data.value.entries, files[i].data.value.year, files[i].data.value.month)
  {
    assert files[..i + 1][..i] == files[..i];
  }

  /** One more entry of a file: a counted one is recorded, any other is skipped. */
  lemma {:induction false} ScanStep(seen: seq<Sighting>, es: seq<SeisekiEntry>, k: int, year: int, month: int, now: string)
    requires 0 <= k < |es|
    ensures var before := Aggregate(seen + EntrySightings(es[..k], year, month), now);
      Aggregate(seen + EntrySightings(es[..k + 1], year, month), now) ==
        if Counted(es[k]) then Record(before, SightingOf(es[k], year, month), now) else before
  {
    EntrySightingsSnoc(es, k, year, month);
    var prefix := seen + EntrySightings(es[..k], year, month);
    if Counted(es[k]) {
      var x := SightingOf(es[k], year, month);
      assert seen + EntrySightings(es[..k + 1], year, month) == prefix + [x];
      AggregateSnoc(prefix, x, now);
    } else {
      assert seen + EntrySightings(es[..k + 1], year, month) == prefix;
    }
  }

  /** The body of the inner loop for a counted entry: a new record, or the
      existing one counted again with its latest month moved forward. */
  method RecordEntry(personMap: seq<PersonEntry>, entry: SeisekiEntry, year: int, month: int, now: string)
    returns (r: seq<PersonEntry>)
    requires Counted(entry)
    ensures r == Record(personMap, SightingOf(entry, year, month), now)
  {
    var found := IndexOf(personMap, entry.personId.value);
    if found.None? {
      r := personMap + [PersonEntry(entry.personId.value, entry.name, entry.personKey,
                                    YearMonth(year, month), YearMonth(year, month), 1, now, "")];
    } else {
      var person := personMap[found.value];
      var latest := person.lastAppearance;
      if year > latest.year || (year == latest.year && month > latest.month) {
        latest := YearMonth(year, month);
      }
      r := personMap[found.value := person.(appearanceCount := person.appearanceCount + 1, lastAppearance := latest)];
    }
  }

  /** The inner loop: the entries of one file, recorded in order. */
  method ScanFile(ps0: seq<PersonEntry>, data: SeisekiMonth, ghost seen: seq<Sighting>, now: string)
    returns (ps: seq<PersonEntry>)
    requires ps0 == Aggregate(seen, now)
    ensures ps == Aggregate(seen + EntrySightings(data.entries, data.year, data.month), now)
  {
    ps := ps0;
    var k := 0;
    assert seen + EntrySightings(data.entries[..0], data.year, data.month) == seen;
    while k < |data.entries|
      invariant 0 <= k <= |data.entries|
      invariant ps == Aggregate(seen + EntrySightings(data.entries[..k], data.year, data.month), now)
    {
      var entry := data.entries[k];
      ScanStep(seen, data.entries, k, data.year, data.month, now);
      if Counted(entry) {
        ps := RecordEntry(ps, entry, data.year, data.month, now);
      }
      k := k + 1;
    }
    assert data.entries[..k] == data.entries;
  }

  /** The outer loop of main: every readable file, in the order given. */
  method ScanFiles(files: seq<LoadedFile>, now: string) returns (ps: seq<PersonEntry>)
    ensures ps == Aggregate(Sightings(files), now)
  {
    ps := [];
    var i := 0;
    while i < |files|
      invariant 0 <= i <= |files|
      invariant ps == Aggregate(Sightings(files[..i]), now)
    {
      SightingsSnoc(files, i);
      match files[i].data {
        case Some(data) =>
          ps := ScanFile(ps, data, Sightings(files[..i]), now);
        case None =>
      }
      i := i + 1;
    }
    assert files[..|files|] == files;
  }

  // ---------------------------------------------------------------------------
  // What the person map holds

  /** No two records share a personId. */
  ghost predicate Distinct(ps: seq<PersonEntry>)
  {
    forall i, j :: 0 <= i < j < |ps| ==> ps[i].personId != ps[j].personId
  }

  ghost predicate Listed(ps: seq<PersonEntry>, id: string)
  {
    exists i :: 0 <= i < |ps| && ps[i].personId == id
  }

  ghost predicate Seen(ss: seq<Sighting>, id: string)
  {
    exists k :: 0 <= k < |ss| && ss[k].personId == id
  }

  /** How many sightings carry this personId. */
  function CountOf(ss: seq<Sighting>, id: string): nat
  {
    if ss == [] then 0 else CountOf(ss[..|ss| - 1], id) + (if ss[|ss| - 1].personId == id then 1 else 0)
  }

  /** The position of the first sighting of a personId. */
  ghost function FirstSeen(ss: seq<Sighting>, id: string): (f: nat)
    requires Seen(ss, id)
    ensures f < |ss| && ss[f].personId == id
    ensures forall k :: 0 <= k < f ==> ss[k].personId != id
  {
    var init := ss[..|ss| - 1];
    if Seen(init, id) then FirstSeen(init, id)
    else
      assert forall k :: 0 <= k < |ss| - 1 ==> ss[k] == init[k];
      |ss| - 1
  }

  /** One step of the map grows it by a record exactly when the personId is new. */
  lemma {:induction false} RecordLength(ps: seq<PersonEntry>, s: Sighting, now: string)
    ensures var r := Record(ps, s, now);
      && |r| == (if Listed(ps, s.personId) then |ps| else |ps| + 1)
      && (!Listed(ps, s.personId) ==> r[|ps|] == PersonEntry(s.personId, s.name, s.personKey, s.period, s.period, 1, now, ""))
  {
    if IndexOf(ps, s.personId).Some? {
      assert Listed(ps, s.personId);
    }
  }

  /** One step of the map on an existing record: personId, name, personKey, first
      month, creation time and note stay; only the record of the sighting's
      personId is counted once more and may get a later latest month. */
  lemma {:induction false} RecordKeeps(ps: seq<PersonEntry>, s: Sighting, now: string, i: int)
    requires Distinct(ps)
    requires 0 <= i < |ps|
    ensures var r := Record(ps, s, now);
      && |r| >= |ps|
      && r[i].personId == ps[i].personId && r[i].name == ps[i].name && r[i].personKey == ps[i].personKey
      && r[i].firstAppearance == ps[i].firstAppearance && r[i].createdAt == ps[i].createdAt && r[i].note == ps[i].note
      && r[i].appearanceCount == ps[i].appearanceCount + (if ps[i].personId == s.personId then 1 else 0)
      && r[i].lastAppearance ==
           if ps[i].personId == s.personId && Later(s.period, ps[i].lastAppearance) then s.period else ps[i].lastAppearance
  {
    match IndexOf(ps, s.personId)
    case None =>
    case Some(k) =>
      if i < k {
        assert ps[i].personId != ps[k].personId;
      } else if k < i {
        assert ps[k].personId != ps[i].personId;
      }
  }

  /** The map holds one record per personId. */
  lemma {:induction false} AggregateDistinct(ss: seq<Sighting>, now: string)
    ensures Distinct(Aggregate(ss, now))
  {
    if ss != [] {
      var init := ss[..|ss| - 1];
      var s := ss[|ss| - 1];
      var ps := Aggregate(init, now);
      AggregateDistinct(init, now);
      RecordLength(ps, s, now);
      var r := Record(ps, s, now);
      forall i, j | 0 <= i < j < |r|
        ensures r[i].personId != r[j].personId
      {
        RecordKeeps(ps, s, now, i);
        if j < |ps| {
          RecordKeeps(ps, s, now, j);
        } else {
          assert !Listed(ps, s.personId);
        }
      }
    }
  }

  /** Every record's personId was sighted. */
  lemma {:induction false} ListedSeen(ss: seq<Sighting>, now: string, i: int)
    requires 0 <= i < |Aggregate(ss, now)|
    ensures Seen(ss, Aggregate(ss, now)[i].personId)
  {
    var init := ss[..|ss| - 1];
    var s := ss[|ss| - 1];
    var ps := Aggregate(init, now);
    AggregateDistinct(init, now);
    RecordLength(ps, s, now);
    if i < |ps| {
      RecordKeeps(ps, s, now, i);
      ListedSeen(init, now, i);
      var k :| 0 <= k < |init| && init[k].personId == ps[i].personId;
      assert ss[k] == init[k];
    } else {
      assert ss[|ss| - 1].personId == s.personId;
    }
  }

  /** One step of the map keeps every listed personId and lists the sighted one. */
  lemma RecordListed(ps: seq<PersonEntry>, s: Sighting, now: string, id: string)
    requires Distinct(ps)
    requires Listed(ps, id) || s.personId == id
    ensures Listed(Record(ps, s, now), id)
  {
    var r := Record(ps, s, now);
    RecordLength(ps, s, now);
    if Listed(ps, id) {
      var i :| 0 <= i < |ps| && ps[i].personId == id;
      RecordKeeps(ps, s, now, i);
      assert r[i].personId == id;
    } else {
      assert r[|ps|].personId == id;
    }
  }

  /** Every sighted personId has a record. */
  lemma {:induction false} SeenListed(ss: seq<Sighting>, now: string, id: string)
    requires Seen(ss, id)
    ensures Listed(Aggregate(ss, now), id)
  {
    var k :| 0 <= k < |ss| && ss[k].personId == id;
    var init := ss[..|ss| - 1];
    var s := ss[|ss| - 1];
    if k < |init| {
      assert init[k] == ss[k];
      SeenListed(init, now, id);
    }
    AggregateDistinct(init, now);
    RecordListed(Aggregate(init, now), s, now, id);
  }

  /** The map has a record exactly for each personId that was sighted. */
  lemma AggregateListed(ss: seq<Sighting>, now: string, id: string)
    ensures Listed(Aggregate(ss, now), id) <==> Seen(ss, id)
  {
    if Seen(ss, id) {
      SeenListed(ss, now, id);
    }
    if Listed(Aggregate(ss, now), id) {
      var i :| 0 <= i < |Aggregate(ss, now)| && Aggregate(ss, now)[i].personId == id;
      ListedSeen(ss, now, i);
    }
  }

  lemma {:induction false} CountUnseen(ss: seq<Sighting>, id: string)
    requires !Seen(ss, id)
    ensures CountOf(ss, id) == 0
  {
    if ss != [] {
      var init := ss[..|ss| - 1];
      assert forall k :: 0 <= k < |init| ==> init[k] == ss[k];
      CountUnseen(init, id);
    }
  }

  /** appearanceCount is the number of sightings of that personId. */
  lemma {:induction false} AggregateCount(ss: seq<Sighting>, now: string, i: int)
    requires 0 <= i < |Aggregate(ss, now)|
    ensures Aggregate(ss, now)[i].appearanceCount == CountOf(ss, Aggregate(ss, now)[i].personId)
  {
    var init := ss[..|ss| - 1];
    var s := ss[|ss| - 1];
    var ps := Aggregate(init, now);
    AggregateDistinct(init, now);
    RecordLength(ps, s, now);
    if i < |ps| {
      RecordKeeps(ps, s, now, i);
      AggregateCount(init, now, i);
    } else {
      AggregateListed(init, now, s.personId);
      CountUnseen(init, s.personId);
    }
  }

  /** A record's name, personKey and first month are those of the first sighting
      of its personId; its creation time is the run's clock and its note is empty. */
  lemma {:induction false} AggregateFirst(ss: seq<Sighting>, now: string, i: int)
    requires 0 <= i < |Aggregate(ss, now)|
    ensures var p := Aggregate(ss, now)[i];
      && Seen(ss, p.personId)
      && var f := ss[FirstSeen(ss, p.personId)];
      && p.name == f.name && p.personKey == f.personKey && p.firstAppearance == f.period
      && p.createdAt == now && p.note == ""
  {
    var init := ss[..|ss| - 1];
    var s := ss[|ss| - 1];
    var ps := Aggregate(init, now);
    AggregateDistinct(init, now);
    RecordLength(ps, s, now);
    var r := Record(ps, s, now);
    if i < |ps| {
      RecordKeeps(ps, s, now, i);
      AggregateFirst(init, now, i);
      var f := FirstSeen(init, ps[i].personId);
      assert init[f] == ss[f];
      assert Seen(ss, r[i].personId);
      assert FirstSeen(ss, r[i].personId) == f;
    } else {
      AggregateListed(init, now, s.personId);
      assert ss[|ss| - 1].personId == r[i].personId;
      assert FirstSeen(ss, r[i].personId) == |ss| - 1;
    }
  }

  /** lastAppearance is the latest month among the sightings of that personId. */
  lemma {:induction false} AggregateLatest(ss: seq<Sighting>, now: string, i: int)
    requires 0 <= i < |Aggregate(ss, now)|
    ensures var p := Aggregate(ss, now)[i];
      && (forall k :: 0 <= k < |ss| && ss[k].personId == p.personId ==> !Later(ss[k].period, p.lastAppearance))
      && (exists k :: 0 <= k < |ss| && ss[k].personId == p.personId && ss[k].period == p.lastAppearance)
  {
    var init := ss[..|ss| - 1];
    var s := ss[|ss| - 1];
    var ps := Aggregate(init, now);
    AggregateDistinct(init, now);
    RecordLength(ps, s, now);
    var r := Record(ps, s, now);
    assert forall k :: 0 <= k < |init| ==> ss[k] == init[k];
    if i < |ps| {
      RecordKeeps(ps, s, now, i);
      AggregateLatest(init, now, i);
      var k0 :| 0 <= k0 < |init| && init[k0].personId == ps[i].personId && init[k0].period == ps[i].lastAppearance;
      if ps[i].personId == s.personId && Later(s.period, ps[i].lastAppearance) {
        assert ss[|ss| - 1].period == r[i].lastAppearance;
      } else {
        assert ss[k0].period == r[i].lastAppearance;
      }
    } else {
      AggregateListed(init, now, s.personId);
      assert ss[|ss| - 1].period == r[i].lastAppearance;
    }
  }

  /** The files are scanned in ascending month order, so when the sightings come
      in non-decreasing months, firstAppearance is the earliest month of that
      personId and lastAppearance the month of its last sighting. */
  lemma {:induction false} FirstIsEarliest(ss: seq<Sighting>, now: string, i: int)
    requires forall k1, k2 :: 0 <= k1 < k2 < |ss| ==> !Later(ss[k1].period, ss[k2].period)
    requires 0 <= i < |Aggregate(ss, now)|
    ensures var p := Aggregate(ss, now)[i];
      forall k :: 0 <= k < |ss| && ss[k].personId == p.personId ==> !Later(p.firstAppearance, ss[k].period)
  {
    AggregateFirst(ss, now, i);
  }

  // ---------------------------------------------------------------------------
  // nextPersonId

  /** The number in a personId of the form "person_<digits>": parseInt of the
      rest with radix 10; None for other ids and for NaN. */
  function IdNumber(id: string): Option<int>
  {
    if StartsWith(id, "person_") then ParseInt(RemoveFirst(id, "person_"), true) else None
  }

  /** The id numbers of the records, in map order. */
  function IdNumbers(ps: seq<PersonEntry>): (ns: seq<Option<int>>)
    ensures |ns| == |ps| && forall i :: 0 <= i < |ps| ==> ns[i] == IdNumber(ps[i].personId)
  {
    seq(|ps|, i requires 0 <= i < |ps| => IdNumber(ps[i].personId))
  }

  /** The largest number present, starting from 0. */
  function MaxNumber(ns: seq<Option<int>>): (m: int)
    ensures m >= 0
    ensures forall i :: 0 <= i < |ns| && ns[i].Some? ==> ns[i].value <= m
    ensures m == 0 || exists i :: 0 <= i < |ns| && ns[i] == Some(m)
  {
    if ns == [] then 0
    else
      var init := ns[..|ns| - 1];
      var m := MaxNumber(init);
      var last := ns[|ns| - 1];
      assert forall i :: 0 <= i < |init| ==> init[i] == ns[i];
      if last.Some? && last.value > m then last.value else m
  }

  /** The loop over the map's keys that finds the largest id number. */
  method MaxPersonIdNumber(ps: seq<PersonEntry>) returns (maxPersonId: int)
    ensures maxPersonId == MaxNumber(IdNumbers(ps))
  {
    ghost var ns := IdNumbers(ps);
    maxPersonId := 0;
    var i := 0;
    while i < |ps|
      invariant 0 <= i <= |ps|
      invariant maxPersonId == MaxNumber(ns[..i])
    {
      var personId := ps[i].personId;
      ghost var step := ns[i];
      assert step == IdNumber(personId);
      assert MaxNumber(ns[..i + 1]) == if step.Some? && step.value > maxPersonId then step.value else maxPersonId by {
        assert ns[..i + 1][..i] == ns[..i];
      }
      if StartsWith(personId, "person_") {
        var idNum := ParseInt(RemoveFirst(personId, "person_"), true);
        assert idNum == step;
        if idNum.Some? && idNum.value > maxPersonId {
          maxPersonId := idNum.value;
        }
      } else {
        assert step == None;
      }
      i := i + 1;
    }
    assert ns[..i] == ns;
  }

  // ---------------------------------------------------------------------------
  // Sorting and notes

  /** The sort key: parseInt with radix 10 of the personId with its first
      "person_" removed (here without checking that it starts with it). */
  function SortNumber(id: string): Option<int>
  {
    ParseInt(RemoveFirst(id, "person_"), true)
  }

  /** The comparator aNum - bNum; NaN makes it NaN, which Array.prototype.sort
      treats as 0 (the two records count as equal). */
  function IdOrder(a: PersonEntry, b: PersonEntry): int
  {
    match (SortNumber(a.personId), SortNumber(b.personId))
    case (Some(x), Some(y)) => x - y
    case _ => 0
  }

  lemma IdOrderLawful(xs: set<PersonEntry>)
    requires forall p :: p in xs ==> SortNumber(p.personId).Some?
    ensures Sorting.TotalPreorderOn(IdOrder, xs)
  {
  }

  /** The note of a record after the note loop. */
  function Noted(p: PersonEntry): PersonEntry
  {
    if p.personKey != "" then p.(note := PersonKeyNote(p.personKey)) else p
  }

  /** The records after the note loop. */
  function AllNoted(ps: seq<PersonEntry>): (r: seq<PersonEntry>)
    ensures |r| == |ps| && forall i :: 0 <= i < |ps| ==> r[i] == Noted(ps[i])
  {
    seq(|ps|, i requires 0 <= i < |ps| => Noted(ps[i]))
  }

  /** The note loop: every record with a personKey gets a note naming it. */
  method AddNotes(persons: seq<PersonEntry>) returns (r: seq<PersonEntry>)
    ensures r == AllNoted(persons)
  {
    r := persons;
    var i := 0;
    while i < |r|
      invariant 0 <= i <= |r| == |persons|
      invariant forall j :: 0 <= j < i ==> r[j] == Noted(persons[j])
      invariant forall j :: i <= j < |r| ==> r[j] == persons[j]
    {
      if r[i].personKey != "" {
        r := r[i := r[i].(note := PersonKeyNote(r[i].personKey))];
      }
      i := i + 1;
    }
  }

  // ---------------------------------------------------------------------------
  // The registry

  /** The registry written by the migration. */
  function MigratedRegistry(files: seq<LoadedFile>, now: string): PersonRegistry
  {
    var ps := Aggregate(Sightings(files), now);
    PersonRegistry("1.0.0", now, MaxNumber(IdNumbers(ps)) + 1, AllNoted(Sorting.Sort(ps, IdOrder)))
  }

  /** main: scan, find the largest id number, sort, add the notes. */
  method Migrate(files: seq<LoadedFile>, now: string) returns (registry: PersonRegistry)
    ensures registry == MigratedRegistry(files, now)
  {
    var personMap := ScanFiles(files, now);
    var maxPersonId := MaxPersonIdNumber(personMap);
    var sorted := Sorting.Sort(personMap, IdOrder);
    registry := PersonRegistry("1.0.0", now, maxPersonId + 1, sorted);
    var persons := AddNotes(registry.persons);
    registry := registry.(persons := persons);
  }

  // ---------------------------------------------------------------------------
  // What the registry holds

  /** A sighting comes from a counted entry of a readable file, and each counted
      entry of a readable file is sighted. */
  lemma {:induction false} EntrySightingsMembers(es: seq<SeisekiEntry>, year: int, month: int, x: Sighting)
    ensures x in EntrySightings(es, year, month) <==>
              exists k :: 0 <= k < |es| && Counted(es[k]) && x == SightingOf(es[k], year, month)
  {
    if es != [] {
      var init := es[..|es| - 1];
      EntrySightingsMembers(init, year, month, x);
      assert forall k :: 0 <= k < |init| ==> init[k] == es[k];
      if x in EntrySightings(es, year, month) && x !in EntrySightings(init, year, month) {
        assert Counted(es[|es| - 1]) && x == SightingOf(es[|es| - 1], year, month);
      }
    }
  }

  /** Some counted entry of the readable file f gives the sighting x. */
  predicate SightedIn(f: LoadedFile, x: Sighting)
  {
    f.data.Some? &&
    var d := f.data.value;
    exists k :: 0 <= k < |d.entries| && Counted(d.entries[k]) && x == SightingOf(d.entries[k], d.year, d.month)
  }

  lemma {:induction false} SightingsMembers(files: seq<LoadedFile>, x: Sighting)
    ensures x in Sightings(files) <==> exists i :: 0 <= i < |files| && SightedIn(files[i], x)
  {
    if files != [] {
      var init := files[..|files| - 1];
      var f := files[|files| - 1];
      SightingsMembers(init, x);
      assert x in Sightings(files) <==> x in Sightings(init) || SightedIn(f, x) by {
        if f.data.Some? {
          EntrySightingsMembers(f.data.value.entries, f.data.value.year, f.data.value.month, x);
        }
      }
      assert (exists i :: 0 <= i < |init| && SightedIn(init[i], x)) <==>
             (exists i :: 0 <= i < |files| - 1 && SightedIn(files[i], x)) by {
        assert forall i :: 0 <= i < |init| ==> init[i] == files[i];
      }
    }
  }

  /** A record of the registry is the noted form of a record of the map. */
  lemma {:induction false} FromMap(files: seq<LoadedFile>, now: string, i: int) returns (j: int)
    requires 0 <= i < |MigratedRegistry(files, now).persons|
    ensures var ps := Aggregate(Sightings(files), now);
      0 <= j < |ps| && MigratedRegistry(files, now).persons[i] == Noted(ps[j])
  {
    var ps := Aggregate(Sightings(files), now);
    var sorted := Sorting.Sort(ps, IdOrder);
    assert sorted[i] in multiset(ps);
    j :| 0 <= j < |ps| && ps[j] == sorted[i];
  }

  /** Each record of the map appears, noted, in the registry. */
  lemma {:induction false} ToMap(files: seq<LoadedFile>, now: string, j: int) returns (i: int)
    requires 0 <= j < |Aggregate(Sightings(files), now)|
    ensures 0 <= i < |MigratedRegistry(files, now).persons|
    ensures MigratedRegistry(files, now).persons[i] == Noted(Aggregate(Sightings(files), now)[j])
  {
    var ps := Aggregate(Sightings(files), now);
    var sorted := Sorting.Sort(ps, IdOrder);
    assert ps[j] in multiset(sorted);
    i :| 0 <= i < |sorted| && sorted[i] == ps[j];
  }

  /** The registry has one record per personId. */
  lemma {:induction false} MigratedDistinct(files: seq<LoadedFile>, now: string)
    ensures Distinct(MigratedRegistry(files, now).persons)
  {
    var ps := Aggregate(Sightings(files), now);
    var sorted := Sorting.Sort(ps, IdOrder);
    var key := (p: PersonEntry) => p.personId;
    AggregateDistinct(Sightings(files), now);
    assert Sorting.KeysDistinct(ps, key);
    Sorting.SortKeysDistinct(ps, IdOrder, key);
    var persons := MigratedRegistry(files, now).persons;
    forall i, j | 0 <= i < j < |persons|
      ensures persons[i].personId != persons[j].personId
    {
      assert key(sorted[i]) != key(sorted[j]);
    }
  }

  /** The registry has a record exactly for each personId that a counted entry
      of a readable file carries. */
  lemma {:induction false} MigratedListed(files: seq<LoadedFile>, now: string, id: string)
    ensures Listed(MigratedRegistry(files, now).persons, id) <==> Seen(Sightings(files), id)
  {
    var ps := Aggregate(Sightings(files), now);
    var persons := MigratedRegistry(files, now).persons;
    AggregateListed(Sightings(files), now, id);
    if Listed(persons, id) {
      var i :| 0 <= i < |persons| && persons[i].personId == id;
      var j := FromMap(files, now, i);
      assert ps[j].personId == id;
    }
    if Listed(ps, id) {
      var j :| 0 <= j < |ps| && ps[j].personId == id;
      var i := ToMap(files, now, j);
      assert persons[i].personId == id;
    }
  }

  /** Each record of the registry: counted once per sighting; name, personKey
      and first month from its first sighting; latest month the latest sighted;
      creation time the run's clock; a note exactly when it has a personKey. */
  lemma {:induction false} MigratedRecord(files: seq<LoadedFile>, now: string, i: int)
    requires 0 <= i < |MigratedRegistry(files, now).persons|
    ensures var ss := Sightings(files);
      var p := MigratedRegistry(files, now).persons[i];
      && p.appearanceCount == CountOf(ss, p.personId)
      && Seen(ss, p.personId)
      && var f := ss[FirstSeen(ss, p.personId)];
      && p.name == f.name && p.personKey == f.personKey && p.firstAppearance == f.period
      && (forall k :: 0 <= k < |ss| && ss[k].personId == p.personId ==> !Later(ss[k].period, p.lastAppearance))
      && (exists k :: 0 <= k < |ss| && ss[k].personId == p.personId && ss[k].period == p.lastAppearance)
      && p.createdAt == now
      && p.note == PersonKeyNote(p.personKey)
  {
    var ss := Sightings(files);
    var j := FromMap(files, now, i);
    AggregateCount(ss, now, j);
    AggregateFirst(ss, now, j);
    AggregateLatest(ss, now, j);
  }

  lemma {:induction false} MapNumeric(ss: seq<Sighting>, now: string)
    requires forall x :: x in ss ==> SortNumber(x.personId).Some?
    ensures forall p :: p in Aggregate(ss, now) ==> SortNumber(p.personId).Some?
  {
    var ps := Aggregate(ss, now);
    forall p | p in ps
      ensures SortNumber(p.personId).Some?
    {
      var j :| 0 <= j < |ps| && ps[j] == p;
      ListedSeen(ss, now, j);
      var k :| 0 <= k < |ss| && ss[k].personId == p.personId;
      assert ss[k] in ss;
    }
  }

  /** Notes leave the comparator's view of the records unchanged. */
  lemma {:induction false} NotesKeepOrder(ps: seq<PersonEntry>)
    requires Sorting.SortedBy(ps, IdOrder)
    ensures Sorting.SortedBy(AllNoted(ps), IdOrder)
  {
    var r := AllNoted(ps);
    forall i, j | 0 <= i < j < |r|
      ensures IdOrder(r[i], r[j]) <= 0
    {
      assert r[i].personId == ps[i].personId && r[j].personId == ps[j].personId;
      assert IdOrder(r[i], r[j]) == IdOrder(ps[i], ps[j]);
    }
  }

  /** With every personId numeric after "person_", the records are in ascending
      numeric order (IdOrder is then the difference of the two numbers). */
  lemma {:induction false} MigratedSorted(files: seq<LoadedFile>, now: string)
    requires forall x :: x in Sightings(files) ==> SortNumber(x.personId).Some?
    ensures Sorting.SortedBy(MigratedRegistry(files, now).persons, IdOrder)
  {
    var ps := Aggregate(Sightings(files), now);
    var xs := set p | p in ps;
    MapNumeric(Sightings(files), now);
    IdOrderLawful(xs);
    Sorting.SortSorted(ps, IdOrder, xs);
    NotesKeepOrder(Sorting.Sort(ps, IdOrder));
  }

  /** nextPersonId is more than every number after "person_" among the
      registry's personIds, and at least 1. */
  lemma {:induction false} MigratedNextIdAbove(files: seq<LoadedFile>, now: string)
    ensures var r := MigratedRegistry(files, now);
      && r.nextPersonId >= 1
      && forall i :: 0 <= i < |r.persons| && IdNumber(r.persons[i].personId).Some? ==>
           IdNumber(r.persons[i].personId).value < r.nextPersonId
  {
    var r := MigratedRegistry(files, now);
    var ps := Aggregate(Sightings(files), now);
    var ns := IdNumbers(ps);
    forall i | 0 <= i < |r.persons| && IdNumber(r.persons[i].personId).Some?
      ensures IdNumber(r.persons[i].personId).value < r.nextPersonId
    {
      var j := FromMap(files, now, i);
      assert ns[j] == IdNumber(ps[j].personId);
    }
  }

  /** The record whose number nextPersonId - 1 is, when it is not 1. */
  lemma {:induction false} LargestIdRecord(files: seq<LoadedFile>, now: string) returns (i: int)
    requires MigratedRegistry(files, now).nextPersonId != 1
    ensures 0 <= i < |MigratedRegistry(files, now).persons|
    ensures IdNumber(MigratedRegistry(files, now).persons[i].personId) == Some(MigratedRegistry(files, now).nextPersonId - 1)
  {
    var ps := Aggregate(Sightings(files), now);
    var ns := IdNumbers(ps);
    var j :| 0 <= j < |ns| && ns[j] == Some(MaxNumber(ns));
    i := ToMap(files, now, j);
    assert MigratedRegistry(files, now).persons[i].personId == ps[j].personId;
  }

  /** nextPersonId is 1, or one more than the number of some registry personId. */
  lemma {:induction false} MigratedNextIdTight(files: seq<LoadedFile>, now: string)
    ensures var r := MigratedRegistry(files, now);
      r.nextPersonId == 1 ||
        exists i :: 0 <= i < |r.persons| && IdNumber(r.persons[i].personId) == Some(r.nextPersonId - 1)
  {
    if MigratedRegistry(files, now).nextPersonId != 1 {
      var i := LargestIdRecord(files, now);
    }
  }
}
