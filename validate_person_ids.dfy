/** scripts/validate-person-ids.ts: checks the person registry on its own and
    against the monthly result files, collecting findings of two severities; the
    run fails (exit code 1) exactly when some finding is an error. The checks run
    in a fixed order: duplicate personIds, personId format, nextPersonId, the
    entries of every file, unused personIds, appearance counts, and names shared
    by several persons without a personKey. */
module ValidatePersonIds {
  import opened Common
  import opened Types
  import opened DataFiles
  import opened MigratePersons
  import AddPersonIds

  datatype Severity = Error | Warning

  datatype Kind =
    | DuplicatePersonId
    | InvalidPersonIdFormat
    | InvalidNextPersonId
    | MissingInRegistry
    | NameMismatch
    | FileReadError
    | UnusedPersonId
    | AppearanceCountMismatch
    | MissingPersonKey

  /** A validation finding: its type, severity, and what it is about (a
      personId, a file path, or a name; empty for nextPersonId). */
  datatype Finding = Finding(kind: Kind, severity: Severity, subject: string)

  // ---------------------------------------------------------------------------
  // 1. The registry on its own: duplicate personIds

  ghost function DuplicateFindings(ps: seq<PersonEntry>): seq<Finding>
  {
    if ps == [] then []
    else
      var init := ps[..|ps| - 1];
      var id := ps[|ps| - 1].personId;
      DuplicateFindings(init) + (if Listed(init, id) then [Finding(DuplicatePersonId, Severity.Error, id)] else [])
  }

  /** The loop with a set of the personIds seen so far. */
  method CheckDuplicates(persons: seq<PersonEntry>) returns (findings: seq<Finding>)
    ensures findings == DuplicateFindings(persons)
  {
    findings := [];
    var personIdSet: set<string> := {};
    var i := 0;
    while i < |persons|
      invariant 0 <= i <= |persons|
      invariant findings == DuplicateFindings(persons[..i])
      invariant forall id :: id in personIdSet <==> Listed(persons[..i], id)
    {
      var person := persons[i];
      assert persons[..i + 1][..i] == persons[..i];
      assert persons[..i + 1][i] == person;
      if person.personId in personIdSet {
        findings := findings + [Finding(DuplicatePersonId, Severity.Error, person.personId)];
      }
      personIdSet := personIdSet + {person.personId};
      forall id
        ensures Listed(persons[..i + 1], id) <==> Listed(persons[..i], id) || id == person.personId
      {
        if Listed(persons[..i + 1], id) {
          var j :| 0 <= j < i + 1 && persons[..i + 1][j].personId == id;
          if j < i {
            assert persons[..i][j].personId == id;
          }
        }
        if Listed(persons[..i], id) {
          var j :| 0 <= j < i && persons[..i][j].personId == id;
          assert persons[..i + 1][j].personId == id;
        }
      }
      i := i + 1;
    }
    assert persons[..i] == persons;
  }

  /** A duplicate finding names exactly the personIds held by two records. */
  lemma {:induction false} DuplicateFindingsIff(ps: seq<PersonEntry>, id: string)
    ensures Finding(DuplicatePersonId, Severity.Error, id) in DuplicateFindings(ps) <==>
              exists i, j :: 0 <= i < j < |ps| && ps[i].personId == id && ps[j].personId == id
  {
    if ps != [] {
      var init := ps[..|ps| - 1];
      var last := ps[|ps| - 1];
      DuplicateFindingsIff(init, id);
      assert forall i :: 0 <= i < |init| ==> init[i] == ps[i];
      if Finding(DuplicatePersonId, Severity.Error, id) in DuplicateFindings(ps) &&
         Finding(DuplicatePersonId, Severity.Error, id) !in DuplicateFindings(init) {
        assert last.personId == id && Listed(init, id);
        var i :| 0 <= i < |init| && init[i].personId == id;
        assert ps[i].personId == id && ps[|ps| - 1].personId == id;
      }
      if exists i, j :: 0 <= i < j < |ps| && ps[i].personId == id && ps[j].personId == id {
        var i, j :| 0 <= i < j < |ps| && ps[i].personId == id && ps[j].personId == id;
        if j == |ps| - 1 {
          assert init[i].personId == id;
        } else {
          assert init[i].personId == id && init[j].personId == id;
        }
      }
    }
  }

  /** No duplicate finding exactly when the personIds are distinct. */
  lemma {:induction false} NoDuplicatesIff(ps: seq<PersonEntry>)
    ensures DuplicateFindings(ps) == [] <==> Distinct(ps)
  {
    var fs := DuplicateFindings(ps);
    if fs != [] {
      DuplicateFindingsKind(ps, 0);
      DuplicateFindingsIff(ps, fs[0].subject);
    }
    if !Distinct(ps) {
      var i, j :| 0 <= i < j < |ps| && ps[i].personId == ps[j].personId;
      DuplicateFindingsIff(ps, ps[i].personId);
    }
  }

  lemma {:induction false} DuplicateFindingsKind(ps: seq<PersonEntry>, k: int)
    requires 0 <= k < |DuplicateFindings(ps)|
    ensures DuplicateFindings(ps)[k] == Finding(DuplicatePersonId, Severity.Error, DuplicateFindings(ps)[k].subject)
  {
    var init := ps[..|ps| - 1];
    if k < |DuplicateFindings(init)| {
      DuplicateFindingsKind(init, k);
    }
  }

  // ---------------------------------------------------------------------------
  // 1. The registry on its own: personId format

  /** The pattern ^person_\d{3}$: "person_" and exactly three ASCII digits. */
  predicate ValidFormat(id: string)
  {
    |id| == 10 && id[..7] == "person_" && IsDigit(id[7]) && IsDigit(id[8]) && IsDigit(id[9])
  }

  function FormatFindings(ps: seq<PersonEntry>): seq<Finding>
  {
    if ps == [] then []
    else
      var id := ps[|ps| - 1].personId;
      FormatFindings(ps[..|ps| - 1]) + (if ValidFormat(id) then [] else [Finding(InvalidPersonIdFormat, Severity.Error, id)])
  }

  method CheckFormats(persons: seq<PersonEntry>) returns (findings: seq<Finding>)
    ensures findings == FormatFindings(persons)
  {
    findings := [];
    var i := 0;
    while i < |persons|
      invariant 0 <= i <= |persons|
      invariant findings == FormatFindings(persons[..i])
    {
      assert persons[..i + 1][..i] == persons[..i];
      if !ValidFormat(persons[i].personId) {
        findings := findings + [Finding(InvalidPersonIdFormat, Severity.Error, persons[i].personId)];
      }
      i := i + 1;
    }
    assert persons[..i] == persons;
  }

  /** A format finding names exactly the personIds that do not match the pattern. */
  lemma {:induction false} FormatFindingsIff(ps: seq<PersonEntry>, f: Finding)
    ensures f in FormatFindings(ps) <==>
              f.kind == InvalidPersonIdFormat && f.severity == Severity.Error &&
              exists i :: 0 <= i < |ps| && ps[i].personId == f.subject && !ValidFormat(f.subject)
  {
    if ps != [] {
      var init := ps[..|ps| - 1];
      FormatFindingsIff(init, f);
      assert forall i :: 0 <= i < |init| ==> init[i] == ps[i];
      if exists i :: 0 <= i < |ps| && ps[i].personId == f.subject && !ValidFormat(f.subject) {
        var i :| 0 <= i < |ps| && ps[i].personId == f.subject && !ValidFormat(f.subject);
        if i < |init| {
          assert init[i].personId == f.subject;
        }
      }
    }
  }

  /** The ids add-person-ids generates match the pattern exactly up to person_999. */
  lemma NewPersonIdFormat(n: int)
    requires 0 <= n
    ensures ValidFormat(AddPersonIds.NewPersonId(n)) <==> n < 1000
  {
    var padded := PadStart(IntToString(n), 3, '0');
    assert AddPersonIds.NewPersonId(n) == "person_" + padded;
    if n >= 1000 {
      CounterPaddedLong(n);
    } else {
      CounterPaddedShort(n);
      PrefixThenThree("person_", padded);
    }
  }

  /** A counter below 1000 pads to exactly three digits. */
  lemma CounterPaddedShort(n: int)
    requires 0 <= n < 1000
    ensures |PadStart(IntToString(n), 3, '0')| == 3 && AllDigits(PadStart(IntToString(n), 3, '0'))
  {
    var digits := IntToString(n);
    var padded := PadStart(digits, 3, '0');
    NatToStringLength(n);
    forall k | 0 <= k < 3
      ensures IsDigit(padded[k])
    {
      if k >= 3 - |digits| {
        assert padded[k] == padded[3 - |digits|..][k - (3 - |digits|)];
      }
    }
  }

  /** A counter from 1000 on is written with more than three digits. */
  lemma CounterPaddedLong(n: int)
    requires 1000 <= n
    ensures |PadStart(IntToString(n), 3, '0')| > 3
  {
    NatToStringLength(n);
    if n >= 10000 {
      NatToStringLongAbove(n);
    }
  }

  /** A prefix followed by three elements. */
  lemma PrefixThenThree<T>(p: seq<T>, s: seq<T>)
    requires |s| == 3
    ensures |p + s| == |p| + 3 && (p + s)[..|p|] == p
    ensures (p + s)[|p|] == s[0] && (p + s)[|p| + 1] == s[1] && (p + s)[|p| + 2] == s[2]
  {
    assert (p + s)[..|p|] == p;
  }

  // ---------------------------------------------------------------------------
  // 1. The registry on its own: nextPersonId

  /** parseInt of each personId with its first "person_" removed, no radix. */
  function ParsedIds(ps: seq<PersonEntry>): (ns: seq<Option<int>>)
    ensures |ns| == |ps| && forall i :: 0 <= i < |ps| ==> ns[i] == ParseInt(RemoveFirst(ps[i].personId, "person_"), false)
  {
    seq(|ps|, i requires 0 <= i < |ps| => ParseInt(RemoveFirst(ps[i].personId, "person_"), false))
  }

  /** An error when nextPersonId is at most the largest parsed id number. */
  function NextIdFindings(registry: PersonRegistry): seq<Finding>
  {
    var maxPersonIdNum := MathMax(ParsedIds(registry.persons));
    if maxPersonIdNum.Finite? && registry.nextPersonId <= maxPersonIdNum.value
    then [Finding(InvalidNextPersonId, Severity.Error, "")] else []
  }

  /** The nextPersonId check passes exactly when the registry is empty, some
      personId does not parse (Math.max is then NaN), or nextPersonId exceeds
      every parsed number. */
  lemma NextIdFindingsIff(registry: PersonRegistry)
    ensures var ns := ParsedIds(registry.persons);
      NextIdFindings(registry) == [] <==>
        || ns == []
        || (exists i :: 0 <= i < |ns| && ns[i].None?)
        || (forall i :: 0 <= i < |ns| ==> ns[i].Some? && ns[i].value < registry.nextPersonId)
  {
    var ns := ParsedIds(registry.persons);
    MathMaxMeaning(ns);
    if MathMax(ns).Finite? {
      var i :| 0 <= i < |ns| && ns[i] == Some(MathMax(ns).value);
    }
  }

  // ---------------------------------------------------------------------------
  // 2. The result files against the registry

  /** Array.prototype.find: the first record with this personId. */
  function FindPerson(ps: seq<PersonEntry>, id: string): (r: Option<PersonEntry>)
    ensures r.Some? <==> Listed(ps, id)
    ensures r.Some? ==> exists i :: 0 <= i < |ps| && ps[i] == r.value && ps[i].personId == id &&
                          forall j :: 0 <= j < i ==> ps[j].personId != id
  {
    if ps == [] then None
    else if ps[0].personId == id then Some(ps[0])
    else
      var r := FindPerson(ps[1..], id);
      assert forall i :: 1 <= i < |ps| ==> ps[i] == ps[1..][i - 1];
      if r.Some? then
        var i :| 0 <= i < |ps[1..]| && ps[1..][i] == r.value && ps[1..][i].personId == id &&
                 forall j :: 0 <= j < i ==> ps[1..][j].personId != id;
        assert ps[i + 1] == r.value;
        r
      else
        assert Listed(ps, id) ==> Listed(ps[1..], id);
        r
  }

  /** The findings for one counted entry: an error when its personId is not in
      the registry, a warning when the registry's name for it differs. */
  function SightingFindings(ps: seq<PersonEntry>, x: Sighting): seq<Finding>
  {
    match FindPerson(ps, x.personId)
    case None => [Finding(MissingInRegistry, Severity.Error, x.personId)]
    case Some(p) => if p.name != x.name then [Finding(NameMismatch, Severity.Warning, x.personId)] else []
  }

  function SightingsFindings(ps: seq<PersonEntry>, ss: seq<Sighting>): seq<Finding>
  {
    if ss == [] then [] else SightingsFindings(ps, ss[..|ss| - 1]) + SightingFindings(ps, ss[|ss| - 1])
  }

  /** The findings of the file loop: an error for each unreadable file, and the
      findings of the counted entries of each readable one. */
  function FileFindings(ps: seq<PersonEntry>, files: seq<LoadedFile>): seq<Finding>
  {
    if files == [] then []
    else
      var f := files[|files| - 1];
      FileFindings(ps, files[..|files| - 1]) +
        match f.data
        case None => [Finding(FileReadError, Severity.Error, f.path)]
        case Some(d) => SightingsFindings(ps, EntrySightings(d.entries, d.year, d.month))
  }

  /** usedPersonIds: every personId sighted. */
  function UsedIds(ss: seq<Sighting>): set<string>
  {
    set x | x in ss :: x.personId
  }

  /** actualAppearanceCounts: sightings per personId, for personIds found in the
      registry. */
  function RegistryCounts(ps: seq<PersonEntry>, ss: seq<Sighting>): map<string, int>
  {
    if ss == [] then map[]
    else
      CountStep(ps, RegistryCounts(ps, ss[..|ss| - 1]), ss[|ss| - 1].personId)
  }

  lemma {:induction false} SightingsSnocFacts(ps: seq<PersonEntry>, ss: seq<Sighting>, x: Sighting)
    ensures SightingsFindings(ps, ss + [x]) == SightingsFindings(ps, ss) + SightingFindings(ps, x)
    ensures UsedIds(ss + [x]) == UsedIds(ss) + {x.personId}
    ensures RegistryCounts(ps, ss + [x]) == CountStep(ps, RegistryCounts(ps, ss), x.personId)
  {
    assert (ss + [x])[..|ss|] == ss;
  }

  /** What the loop over files has gathered. */
  datatype Scan = Scan(findings: seq<Finding>, used: set<string>, counts: map<string, int>)

  /** actualAppearanceCounts after one more sighting. */
  function CountStep(ps: seq<PersonEntry>, m: map<string, int>, id: string): map<string, int>
  {
    if FindPerson(ps, id).Some? then m[id := (if id in m then m[id] else 0) + 1] else m
  }

  /** One more entry of a file: a counted one adds its findings, its personId and
      its count; any other changes nothing. */
  lemma {:induction false} EntryStep(ps: seq<PersonEntry>, seen: seq<Sighting>, es: seq<SeisekiEntry>, k: int,
                                     year: int, month: int)
    requires 0 <= k < |es|
    ensures var ss := EntrySightings(es[..k], year, month);
      var ss1 := EntrySightings(es[..k + 1], year, month);
      if Counted(es[k]) then
        var x := SightingOf(es[k], year, month);
        && SightingsFindings(ps, ss1) == SightingsFindings(ps, ss) + SightingFindings(ps, x)
        && UsedIds(seen + ss1) == UsedIds(seen + ss) + {x.personId}
        && RegistryCounts(ps, seen + ss1) == CountStep(ps, RegistryCounts(ps, seen + ss), x.personId)
      else ss1 == ss
  {
    EntrySightingsSnoc(es, k, year, month);
    var ss := EntrySightings(es[..k], year, month);
    if Counted(es[k]) {
      var x := SightingOf(es[k], year, month);
      SightingsSnocFacts(ps, ss, x);
      SightingsSnocFacts(ps, seen + ss, x);
      assert seen + ss + [x] == seen + (ss + [x]);
    }
  }

  /** The body of the inner loop for a counted entry. */
  method CheckEntry(persons: seq<PersonEntry>, entry: SeisekiEntry, year: int, month: int,
                    findings0: seq<Finding>, used0: set<string>, counts0: map<string, int>)
    returns (findings: seq<Finding>, used: set<string>, counts: map<string, int>)
    requires Counted(entry)
    ensures var x := SightingOf(entry, year, month);
      && findings == findings0 + SightingFindings(persons, x)
      && used == used0 + {x.personId}
      && counts == CountStep(persons, counts0, x.personId)
  {
    findings, used, counts := findings0, used0, counts0;
    var personId := entry.personId.value;
    used := used + {personId};
    var person := FindPerson(persons, personId);
    if person.None? {
      findings := findings + [Finding(MissingInRegistry, Severity.Error, personId)];
    } else {
      if person.value.name != entry.name {
        findings := findings + [Finding(NameMismatch, Severity.Warning, personId)];
      }
      counts := counts[personId := (if personId in counts then counts[personId] else 0) + 1];
    }
  }

  /** The inner loop over one file's entries. */
  method CheckEntries(persons: seq<PersonEntry>, data: SeisekiMonth, used0: set<string>, counts0: map<string, int>,
                      ghost seen: seq<Sighting>)
    returns (findings: seq<Finding>, used: set<string>, counts: map<string, int>)
    requires used0 == UsedIds(seen) && counts0 == RegistryCounts(persons, seen)
    ensures var ss := EntrySightings(data.entries, data.year, data.month);
      && findings == SightingsFindings(persons, ss)
      && used == UsedIds(seen + ss)
      && counts == RegistryCounts(persons, seen + ss)
  {
    findings, used, counts := [], used0, counts0;
    var k := 0;
    assert EntrySightings(data.entries[..0], data.year, data.month) == [];
    assert seen + [] == seen;
    while k < |data.entries|
      invariant 0 <= k <= |data.entries|
      invariant var ss := EntrySightings(data.entries[..k], data.year, data.month);
        && findings == SightingsFindings(persons, ss)
        && used == UsedIds(seen + ss)
        && counts == RegistryCounts(persons, seen + ss)
    {
      EntryStep(persons, seen, data.entries, k, data.year, data.month);
      if Counted(data.entries[k]) {
        findings, used, counts := CheckEntry(persons, data.entries[k], data.year, data.month, findings, used, counts);
      }
      k := k + 1;
    }
    assert data.entries[..k] == data.entries;
  }

  lemma {:induction false} FileFindingsSnoc(ps: seq<PersonEntry>, files: seq<LoadedFile>, i: int)
    requires 0 <= i < |files|
    ensures FileFindings(ps, files[..i + 1]) == FileFindings(ps, files[..i]) +
      match files[i].data
      case None => [Finding(FileReadError, Severity.Error, files[i].path)]
      case Some(d) => SightingsFindings(ps, EntrySightings(d.entries, d.year, d.month))
  {
    assert files[..i + 1][..i] == files[..i];
  }

  /** The loop over the files. */
  method CheckFiles(persons: seq<PersonEntry>, files: seq<LoadedFile>) returns (scan: Scan)
    ensures scan == Scan(FileFindings(persons, files), UsedIds(Sightings(files)),
                         RegistryCounts(persons, Sightings(files)))
  {
    var findings: seq<Finding> := [];
    var used: set<string> := {};
    var counts: map<string, int> := map[];
    var i := 0;
    while i < |files|
      invariant 0 <= i <= |files|
      invariant findings == FileFindings(persons, files[..i])
      invariant used == UsedIds(Sightings(files[..i]))
      invariant counts == RegistryCounts(persons, Sightings(files[..i]))
    {
      SightingsSnoc(files, i);
      FileFindingsSnoc(persons, files, i);
      match files[i].data {
        case None =>
          findings := findings + [Finding(FileReadError, Severity.Error, files[i].path)];
        case Some(data) =>
          var more;
          more, used, counts := CheckEntries(persons, data, used, counts, Sightings(files[..i]));
          findings := findings + more;
      }
      i := i + 1;
    }
    assert files[..i] == files;
    scan := Scan(findings, used, counts);
  }

  ghost predicate HasError(fs: seq<Finding>)
  {
    exists i :: 0 <= i < |fs| && fs[i].severity == Severity.Error
  }

  lemma HasErrorConcat(a: seq<Finding>, b: seq<Finding>)
    ensures HasError(a + b) <==> HasError(a) || HasError(b)
  {
    if HasError(a + b) {
      var i :| 0 <= i < |a + b| && (a + b)[i].severity == Severity.Error;
      if i >= |a| {
        assert b[i - |a|].severity == Severity.Error;
      }
    }
    if HasError(a) {
      var i :| 0 <= i < |a| && a[i].severity == Severity.Error;
      assert (a + b)[i] == a[i];
    }
    if HasError(b) {
      var i :| 0 <= i < |b| && b[i].severity == Severity.Error;
      assert (a + b)[i + |a|] == b[i];
    }
  }

  /** The entry findings hold an error exactly when some sighted personId is
      missing from the registry. */
  lemma {:induction false} SightingsErrors(ps: seq<PersonEntry>, ss: seq<Sighting>)
    ensures HasError(SightingsFindings(ps, ss)) <==> MissingSighted(ps, ss)
  {
    if ss != [] {
      var init := ss[..|ss| - 1];
      var x := ss[|ss| - 1];
      SightingsErrors(ps, init);
      HasErrorConcat(SightingsFindings(ps, init), SightingFindings(ps, x));
      assert ss == init + [x];
      MissingSightedConcat(ps, init, [x]);
      SightingError(ps, x);
    }
  }

  /** One sighting gives an error exactly when its personId is missing. */
  lemma SightingError(ps: seq<PersonEntry>, x: Sighting)
    ensures HasError(SightingFindings(ps, x)) <==> !Listed(ps, x.personId)
    ensures MissingSighted(ps, [x]) <==> !Listed(ps, x.personId)
  {
    assert [x][0] == x;
    if FindPerson(ps, x.personId).None? {
      assert SightingFindings(ps, x)[0].severity == Severity.Error;
    } else {
      assert forall i :: 0 <= i < |SightingFindings(ps, x)| ==> SightingFindings(ps, x)[i].severity == Severity.Warning;
    }
  }

  /** Some sighting carries a personId the registry lacks. */
  ghost predicate MissingSighted(ps: seq<PersonEntry>, ss: seq<Sighting>)
  {
    exists k :: 0 <= k < |ss| && !Listed(ps, ss[k].personId)
  }

  lemma MissingSightedConcat(ps: seq<PersonEntry>, a: seq<Sighting>, b: seq<Sighting>)
    ensures MissingSighted(ps, a + b) <==> MissingSighted(ps, a) || MissingSighted(ps, b)
  {
    if MissingSighted(ps, a + b) {
      var k :| 0 <= k < |a + b| && !Listed(ps, (a + b)[k].personId);
      if k >= |a| {
        assert b[k - |a|] == (a + b)[k];
      } else {
        assert a[k] == (a + b)[k];
      }
    }
    if MissingSighted(ps, a) {
      var k :| 0 <= k < |a| && !Listed(ps, a[k].personId);
      assert (a + b)[k] == a[k];
    }
    if MissingSighted(ps, b) {
      var k :| 0 <= k < |b| && !Listed(ps, b[k].personId);
      assert (a + b)[|a| + k] == b[k];
    }
  }

  /** Some file could not be read or parsed. */
  ghost predicate Unreadable(files: seq<LoadedFile>)
  {
    exists i :: 0 <= i < |files| && files[i].data.None?
  }

  /** The file loop reports an error exactly when a file is unreadable or a
      counted entry carries a personId missing from the registry. */
  lemma {:induction false} FileErrors(ps: seq<PersonEntry>, files: seq<LoadedFile>)
    ensures HasError(FileFindings(ps, files)) <==> Unreadable(files) || MissingSighted(ps, Sightings(files))
  {
    if files != [] {
      var init := files[..|files| - 1];
      var f := files[|files| - 1];
      FileErrors(ps, init);
      assert Unreadable(files) <==> Unreadable(init) || f.data.None? by {
        assert forall i :: 0 <= i < |init| ==> init[i] == files[i];
      }
      var a := Sightings(init);
      match f.data {
        case None =>
          var e := [Finding(FileReadError, Severity.Error, f.path)];
          HasErrorConcat(FileFindings(ps, init), e);
          assert e[0].severity == Severity.Error;
          assert Sightings(files) == a;
        case Some(d) =>
          var b := EntrySightings(d.entries, d.year, d.month);
          HasErrorConcat(FileFindings(ps, init), SightingsFindings(ps, b));
          SightingsErrors(ps, b);
          assert Sightings(files) == a + b;
          MissingSightedConcat(ps, a, b);
      }
    }
  }

  /** actualAppearanceCounts holds exactly the sighted personIds of the registry,
      each with its number of sightings. */
  lemma {:induction false} CountsMeaning(ps: seq<PersonEntry>, ss: seq<Sighting>, id: string)
    ensures id in RegistryCounts(ps, ss) <==> Listed(ps, id) && Seen(ss, id)
    ensures id in RegistryCounts(ps, ss) ==> RegistryCounts(ps, ss)[id] == CountOf(ss, id)
  {
    if ss != [] {
      var init := ss[..|ss| - 1];
      var x := ss[|ss| - 1];
      CountsMeaning(ps, init, id);
      assert forall k :: 0 <= k < |init| ==> init[k] == ss[k];
      if Seen(ss, id) && !Seen(init, id) {
        assert x.personId == id;
      }
      if x.personId == id && !Seen(init, id) {
        CountUnseen(init, id);
      }
    }
  }

  lemma UsedIdsMeaning(ss: seq<Sighting>, id: string)
    ensures id in UsedIds(ss) <==> Seen(ss, id)
  {
    if Seen(ss, id) {
      var k :| 0 <= k < |ss| && ss[k].personId == id;
      assert ss[k] in ss;
    }
  }

  // ---------------------------------------------------------------------------
  // 3. Unused personIds and 4. appearance counts

  function UnusedFindings(ps: seq<PersonEntry>, used: set<string>): seq<Finding>
  {
    if ps == [] then []
    else
      var id := ps[|ps| - 1].personId;
      UnusedFindings(ps[..|ps| - 1], used) + (if id in used then [] else [Finding(UnusedPersonId, Severity.Warning, id)])
  }

  method CheckUnused(persons: seq<PersonEntry>, used: set<string>) returns (findings: seq<Finding>)
    ensures findings == UnusedFindings(persons, used)
  {
    findings := [];
    var i := 0;
    while i < |persons|
      invariant 0 <= i <= |persons|
      invariant findings == UnusedFindings(persons[..i], used)
    {
      assert persons[..i + 1][..i] == persons[..i];
      if persons[i].personId !in used {
        findings := findings + [Finding(UnusedPersonId, Severity.Warning, persons[i].personId)];
      }
      i := i + 1;
    }
    assert persons[..i] == persons;
  }

  /** An unused warning names exactly the registry personIds not in use. */
  lemma {:induction false} UnusedFindingsIff(ps: seq<PersonEntry>, used: set<string>, f: Finding)
    ensures f in UnusedFindings(ps, used) <==>
              f.kind == UnusedPersonId && f.severity == Severity.Warning && f.subject !in used &&
              exists i :: 0 <= i < |ps| && ps[i].personId == f.subject
  {
    if ps != [] {
      var init := ps[..|ps| - 1];
      UnusedFindingsIff(init, used, f);
      assert forall i :: 0 <= i < |init| ==> init[i] == ps[i];
      if exists i :: 0 <= i < |ps| && ps[i].personId == f.subject {
        var i :| 0 <= i < |ps| && ps[i].personId == f.subject;
        if i < |init| {
          assert init[i].personId == f.subject;
        }
      }
    }
  }

  /** actualAppearanceCounts.get(personId) || 0. */
  function ActualCount(counts: map<string, int>, id: string): int
  {
    if id in counts then counts[id] else 0
  }

  function CountFindings(ps: seq<PersonEntry>, counts: map<string, int>): seq<Finding>
  {
    if ps == [] then []
    else
      var p := ps[|ps| - 1];
      CountFindings(ps[..|ps| - 1], counts) +
        (if ActualCount(counts, p.personId) != p.appearanceCount
         then [Finding(AppearanceCountMismatch, Severity.Warning, p.personId)] else [])
  }

  method CheckCounts(persons: seq<PersonEntry>, counts: map<string, int>) returns (findings: seq<Finding>)
    ensures findings == CountFindings(persons, counts)
  {
    findings := [];
    var i := 0;
    while i < |persons|
      invariant 0 <= i <= |persons|
      invariant findings == CountFindings(persons[..i], counts)
    {
      assert persons[..i + 1][..i] == persons[..i];
      var person := persons[i];
      var actualCount := if person.personId in counts then counts[person.personId] else 0;
      if actualCount != person.appearanceCount {
        findings := findings + [Finding(AppearanceCountMismatch, Severity.Warning, person.personId)];
      }
      i := i + 1;
    }
    assert persons[..i] == persons;
  }

  /** A count warning names exactly the records whose appearanceCount differs
      from the counted sightings. */
  lemma {:induction false} CountFindingsIff(ps: seq<PersonEntry>, counts: map<string, int>, f: Finding)
    ensures f in CountFindings(ps, counts) <==>
              f.kind == AppearanceCountMismatch && f.severity == Severity.Warning &&
              exists i :: 0 <= i < |ps| && ps[i].personId == f.subject &&
                ps[i].appearanceCount != ActualCount(counts, f.subject)
  {
    if ps != [] {
      var init := ps[..|ps| - 1];
      CountFindingsIff(init, counts, f);
      assert forall i :: 0 <= i < |init| ==> init[i] == ps[i];
      if exists i :: 0 <= i < |ps| && ps[i].personId == f.subject && ps[i].appearanceCount != ActualCount(counts, f.subject) {
        var i :| 0 <= i < |ps| && ps[i].personId == f.subject && ps[i].appearanceCount != ActualCount(counts, f.subject);
        if i < |init| {
          assert init[i].personId == f.subject;
        }
      }
    }
  }

  // ---------------------------------------------------------------------------
  // 5. Names shared by several persons

  /** One entry of nameGroups: a name and the records with it, in order. */
  datatype NameGroup = NameGroup(name: string, members: seq<PersonEntry>)

  function GroupIndex(gs: seq<NameGroup>, name: string): (r: Option<nat>)
    ensures r.Some? ==> r.value < |gs| && gs[r.value].name == name
    ensures r.None? ==> forall i :: 0 <= i < |gs| ==> gs[i].name != name
  {
    if gs == [] then None
    else if gs[|gs| - 1].name == name then Some(|gs| - 1)
    else GroupIndex(gs[..|gs| - 1], name)
  }

  /** nameGroups after one more record: a new group, or the record pushed onto
      the group of its name. */
  function AddToGroups(gs: seq<NameGroup>, p: PersonEntry): seq<NameGroup>
  {
    match GroupIndex(gs, p.name)
    case None => gs + [NameGroup(p.name, [p])]
    case Some(k) => gs[k := gs[k].(members := gs[k].members + [p])]
  }

  function Groups(ps: seq<PersonEntry>): seq<NameGroup>
  {
    if ps == [] then [] else AddToGroups(Groups(ps[..|ps| - 1]), ps[|ps| - 1])
  }

  /** The records with this name, in order. */
  function Named(ps: seq<PersonEntry>, name: string): seq<PersonEntry>
  {
    if ps == [] then []
    else Named(ps[..|ps| - 1], name) + (if ps[|ps| - 1].name == name then [ps[|ps| - 1]] else [])
  }

  ghost predicate GroupsDistinct(gs: seq<NameGroup>)
  {
    forall i, j :: 0 <= i < j < |gs| ==> gs[i].name != gs[j].name
  }

  /** nameGroups has one group per name, for exactly the names of the records,
      each holding the records of that name in order. */
  lemma GroupsMeaning(ps: seq<PersonEntry>)
    ensures GroupsDistinct(Groups(ps))
    ensures forall i :: 0 <= i < |Groups(ps)| ==> Groups(ps)[i].members == Named(ps, Groups(ps)[i].name)
    ensures forall name :: GroupIndex(Groups(ps), name).Some? <==> Named(ps, name) != []
  {
    GroupsNamesDistinct(ps);
    GroupsMembers(ps);
    GroupsIndex(ps);
  }

  lemma {:induction false} GroupsNamesDistinct(ps: seq<PersonEntry>)
    ensures GroupsDistinct(Groups(ps))
  {
    if ps != [] {
      var init := ps[..|ps| - 1];
      var p := ps[|ps| - 1];
      var gs := Groups(init);
      GroupsNamesDistinct(init);
      var r := AddToGroups(gs, p);
      assert r == Groups(ps);
      match GroupIndex(gs, p.name)
      case None =>
        forall i, j | 0 <= i < j < |r|
          ensures r[i].name != r[j].name
        {
          assert r[i] == gs[i];
          if j < |gs| {
            assert r[j] == gs[j];
          }
        }
      case Some(k) =>
        forall i, j | 0 <= i < j < |r|
          ensures r[i].name != r[j].name
        {
          assert r[i].name == gs[i].name && r[j].name == gs[j].name;
        }
    }
  }

  lemma {:induction false} GroupsIndex(ps: seq<PersonEntry>)
    ensures forall name :: GroupIndex(Groups(ps), name).Some? <==> Named(ps, name) != []
  {
    if ps != [] {
      var init := ps[..|ps| - 1];
      var p := ps[|ps| - 1];
      var gs := Groups(init);
      GroupsIndex(init);
      var r := AddToGroups(gs, p);
      assert r == Groups(ps);
      match GroupIndex(gs, p.name)
      case None =>
        forall name
          ensures GroupIndex(r, name).Some? <==> Named(ps, name) != []
        {
          if name == p.name {
            assert GroupIndex(r, name).Some?;
          } else {
            assert GroupIndex(r, name) == GroupIndex(gs, name) by {
              assert r[..|r| - 1] == gs;
            }
          }
        }
      case Some(k) =>
        forall name
          ensures GroupIndex(r, name).Some? <==> Named(ps, name) != []
        {
          if GroupIndex(gs, name).Some? {
            assert r[GroupIndex(gs, name).value].name == name;
          }
          if GroupIndex(r, name).Some? {
            assert gs[GroupIndex(r, name).value].name == name;
          }
        }
    }
  }

  lemma {:induction false} GroupsMembers(ps: seq<PersonEntry>)
    ensures forall i :: 0 <= i < |Groups(ps)| ==> Groups(ps)[i].members == Named(ps, Groups(ps)[i].name)
  {
    if ps != [] {
      var init := ps[..|ps| - 1];
      var p := ps[|ps| - 1];
      var gs := Groups(init);
      GroupsMembers(init);
      GroupsIndex(init);
      GroupsNamesDistinct(init);
      var r := AddToGroups(gs, p);
      assert r == Groups(ps);
      match GroupIndex(gs, p.name)
      case None =>
        forall i | 0 <= i < |r|
          ensures r[i].members == Named(ps, r[i].name)
        {
          if i < |gs| {
            assert r[i] == gs[i];
          } else {
            assert Named(init, p.name) == [];
          }
        }
      case Some(k) =>
        forall i | 0 <= i < |r|
          ensures r[i].members == Named(ps, r[i].name)
        {
          if i != k {
            assert r[i] == gs[i];
          }
        }
    }
  }

  lemma {:induction false} NamedMembers(ps: seq<PersonEntry>, name: string, p: PersonEntry)
    ensures p in Named(ps, name) <==> p in ps && p.name == name
  {
    if ps != [] {
      var init := ps[..|ps| - 1];
      NamedMembers(init, name, p);
      assert ps == init + [ps[|ps| - 1]];
    }
  }

  /** A name is among the records exactly when some position holds it, and more
      than one record has it exactly when two positions do. */
  lemma NamedTwice(ps: seq<PersonEntry>, name: string)
    ensures Named(ps, name) != [] <==> exists i :: 0 <= i < |ps| && ps[i].name == name
    ensures |Named(ps, name)| > 1 <==> exists i, j :: 0 <= i < j < |ps| && ps[i].name == name && ps[j].name == name
  {
    NamedSome(ps, name);
    NamedSeveral(ps, name);
  }

  /** Some position of ps holds the name. */
  predicate NameAt(ps: seq<PersonEntry>, name: string)
  {
    exists i :: 0 <= i < |ps| && ps[i].name == name
  }

  /** Two positions of ps hold the name. */
  predicate NameTwiceAt(ps: seq<PersonEntry>, name: string)
  {
    exists i, j :: 0 <= i < j < |ps| && ps[i].name == name && ps[j].name == name
  }

  lemma NameAtSnoc(ps: seq<PersonEntry>, name: string)
    requires ps != []
    ensures NameAt(ps, name) <==> NameAt(ps[..|ps| - 1], name) || ps[|ps| - 1].name == name
  {
    var init := ps[..|ps| - 1];
    if NameAt(ps, name) {
      var i :| 0 <= i < |ps| && ps[i].name == name;
      if i < |init| {
        assert init[i].name == name;
      }
    }
    if NameAt(init, name) {
      var i :| 0 <= i < |init| && init[i].name == name;
      assert ps[i].name == name;
    }
  }

  lemma NameTwiceAtSnoc(ps: seq<PersonEntry>, name: string)
    requires ps != []
    ensures NameTwiceAt(ps, name) <==>
              NameTwiceAt(ps[..|ps| - 1], name) || (NameAt(ps[..|ps| - 1], name) && ps[|ps| - 1].name == name)
  {
    var init := ps[..|ps| - 1];
    if NameTwiceAt(ps, name) {
      var i, j :| 0 <= i < j < |ps| && ps[i].name == name && ps[j].name == name;
      assert init[i].name == name;
      if j < |init| {
        assert init[j].name == name;
      }
    }
    if NameTwiceAt(init, name) {
      var i, j :| 0 <= i < j < |init| && init[i].name == name && init[j].name == name;
      assert ps[i].name == name && ps[j].name == name;
    }
    if NameAt(init, name) && ps[|ps| - 1].name == name {
      var i :| 0 <= i < |init| && init[i].name == name;
      assert ps[i].name == name;
    }
  }

  lemma {:induction false} NamedSome(ps: seq<PersonEntry>, name: string)
    ensures Named(ps, name) != [] <==> NameAt(ps, name)
  {
    if ps != [] {
      NamedSome(ps[..|ps| - 1], name);
      NameAtSnoc(ps, name);
    }
  }

  /** More than one record has the name exactly when two positions hold it. */
  lemma {:induction false} NamedSeveral(ps: seq<PersonEntry>, name: string)
    ensures |Named(ps, name)| > 1 <==> NameTwiceAt(ps, name)
  {
    if ps != [] {
      var init := ps[..|ps| - 1];
      NamedSeveral(init, name);
      NamedSome(init, name);
      NameTwiceAtSnoc(ps, name);
    }
  }

  /** A group needs a warning: several records share the name and one of them
      has no personKey. */
  predicate NeedsKeys(g: NameGroup)
  {
    |g.members| > 1 && exists i :: 0 <= i < |g.members| && g.members[i].personKey == ""
  }

  function KeyFindings(gs: seq<NameGroup>): seq<Finding>
  {
    if gs == [] then []
    else
      var g := gs[|gs| - 1];
      KeyFindings(gs[..|gs| - 1]) + (if NeedsKeys(g) then [Finding(MissingPersonKey, Severity.Warning, g.name)] else [])
  }

  /** The loop that fills nameGroups. */
  method BuildNameGroups(persons: seq<PersonEntry>) returns (nameGroups: seq<NameGroup>)
    ensures nameGroups == Groups(persons)
  {
    nameGroups := [];
    var i := 0;
    while i < |persons|
      invariant 0 <= i <= |persons|
      invariant nameGroups == Groups(persons[..i])
    {
      assert persons[..i + 1][..i] == persons[..i];
      var person := persons[i];
      ghost var before := nameGroups;
      var k := GroupIndex(nameGroups, person.name);
      if k.None? {
        nameGroups := nameGroups + [NameGroup(person.name, [])];
        k := Some(|nameGroups| - 1);
      }
      nameGroups := nameGroups[k.value := nameGroups[k.value].(members := nameGroups[k.value].members + [person])];
      if GroupIndex(before, person.name).None? {
        assert [] + [person] == [person];
        assert |nameGroups| == |before| + 1 && nameGroups[|before|] == NameGroup(person.name, [person]);
        assert forall j :: 0 <= j < |before| ==> nameGroups[j] == before[j];
        assert nameGroups == before + [NameGroup(person.name, [person])];
      }
      i := i + 1;
    }
    assert persons[..i] == persons;
  }

  /** The loop over nameGroups. */
  method CheckPersonKeys(nameGroups: seq<NameGroup>) returns (findings: seq<Finding>)
    ensures findings == KeyFindings(nameGroups)
  {
    findings := [];
    var i := 0;
    while i < |nameGroups|
      invariant 0 <= i <= |nameGroups|
      invariant findings == KeyFindings(nameGroups[..i])
    {
      assert nameGroups[..i + 1][..i] == nameGroups[..i];
      var group := nameGroups[i];
      if |group.members| > 1 {
        var withoutKey := Filter(group.members, (p: PersonEntry) => p.personKey == "");
        FilterContents(group.members, (p: PersonEntry) => p.personKey == "");
        if |withoutKey| > 0 {
          assert withoutKey[0] in group.members;
          findings := findings + [Finding(MissingPersonKey, Severity.Warning, group.name)];
        } else {
          assert !NeedsKeys(group);
        }
      }
      i := i + 1;
    }
    assert nameGroups[..i] == nameGroups;
  }

  lemma {:induction false} KeyFindingsMembers(gs: seq<NameGroup>, f: Finding)
    ensures f in KeyFindings(gs) <==>
              f.kind == MissingPersonKey && f.severity == Severity.Warning &&
              exists i :: 0 <= i < |gs| && gs[i].name == f.subject && NeedsKeys(gs[i])
  {
    if gs != [] {
      var init := gs[..|gs| - 1];
      KeyFindingsMembers(init, f);
      assert forall i :: 0 <= i < |init| ==> init[i] == gs[i];
      if exists i :: 0 <= i < |gs| && gs[i].name == f.subject && NeedsKeys(gs[i]) {
        var i :| 0 <= i < |gs| && gs[i].name == f.subject && NeedsKeys(gs[i]);
        if i < |init| {
          assert init[i].name == f.subject && NeedsKeys(init[i]);
        }
      }
    }
  }

  lemma NamedWithoutKey(ps: seq<PersonEntry>, name: string)
    ensures var named := Named(ps, name);
      (exists k :: 0 <= k < |named| && named[k].personKey == "") <==>
        exists i :: 0 <= i < |ps| && ps[i].name == name && ps[i].personKey == ""
  {
    var named := Named(ps, name);
    if exists k :: 0 <= k < |named| && named[k].personKey == "" {
      var k :| 0 <= k < |named| && named[k].personKey == "";
      NamedMembers(ps, name, named[k]);
      var i :| 0 <= i < |ps| && ps[i] == named[k];
    }
    if exists i :: 0 <= i < |ps| && ps[i].name == name && ps[i].personKey == "" {
      var i :| 0 <= i < |ps| && ps[i].name == name && ps[i].personKey == "";
      NamedMembers(ps, name, ps[i]);
      var k :| 0 <= k < |named| && named[k] == ps[i];
    }
  }

  /** A personKey warning names exactly the names held by two or more records of
      which at least one has no personKey. */
  lemma KeyFindingsIff(ps: seq<PersonEntry>, name: string)
    ensures Finding(MissingPersonKey, Severity.Warning, name) in KeyFindings(Groups(ps)) <==>
              && (exists i, j :: 0 <= i < j < |ps| && ps[i].name == name && ps[j].name == name)
              && (exists i :: 0 <= i < |ps| && ps[i].name == name && ps[i].personKey == "")
  {
    var gs := Groups(ps);
    var named := Named(ps, name);
    GroupsMeaning(ps);
    NamedTwice(ps, name);
    NamedWithoutKey(ps, name);
    KeyFindingsMembers(gs, Finding(MissingPersonKey, Severity.Warning, name));
    if exists i :: 0 <= i < |gs| && gs[i].name == name && NeedsKeys(gs[i]) {
      var i :| 0 <= i < |gs| && gs[i].name == name && NeedsKeys(gs[i]);
      assert gs[i].members == named;
    }
    if named != [] {
      var k := GroupIndex(gs, name).value;
      assert gs[k].members == named;
    }
  }

  // ---------------------------------------------------------------------------
  // The whole run

  /** All findings, in the order the checks push them. */
  ghost function AllFindings(registry: PersonRegistry, files: seq<LoadedFile>): seq<Finding>
  {
    var ps := registry.persons;
    var ss := Sightings(files);
    DuplicateFindings(ps) + FormatFindings(ps) + NextIdFindings(registry) + FileFindings(ps, files) +
      UnusedFindings(ps, UsedIds(ss)) + CountFindings(ps, RegistryCounts(ps, ss)) + KeyFindings(Groups(ps))
  }

  /** main: run the five checks, then exit with 1 when some finding is an error. */
  method Validate(registry: PersonRegistry, files: seq<LoadedFile>) returns (findings: seq<Finding>, exitCode: int)
    ensures findings == AllFindings(registry, files)
    ensures exitCode == (if HasError(findings) then 1 else 0)
  {
    var persons := registry.persons;
    var duplicates := CheckDuplicates(persons);
    var formats := CheckFormats(persons);
    findings := duplicates + formats + NextIdFindings(registry);
    var scan := CheckFiles(persons, files);
    findings := findings + scan.findings;
    var unused := CheckUnused(persons, scan.used);
    findings := findings + unused;
    var counts := CheckCounts(persons, scan.counts);
    findings := findings + counts;
    var nameGroups := BuildNameGroups(persons);
    var keys := CheckPersonKeys(nameGroups);
    findings := findings + keys;
    if |findings| == 0 {
      exitCode := 0;
      return;
    }
    var errorCount := |Filter(findings, (f: Finding) => f.severity == Severity.Error)|;
    FilterContents(findings, (f: Finding) => f.severity == Severity.Error);
    if errorCount > 0 {
      assert Filter(findings, (f: Finding) => f.severity == Severity.Error)[0] in findings;
      exitCode := 1;
    } else {
      exitCode := 0;
    }
  }

  /** A list of findings that are all warnings holds no error. */
  lemma WarningsOnly(fs: seq<Finding>)
    requires forall f :: f in fs ==> f.severity == Severity.Warning
    ensures !HasError(fs)
  {
    forall i | 0 <= i < |fs|
      ensures fs[i].severity == Severity.Warning
    {
      assert fs[i] in fs;
    }
  }

  lemma DuplicateErrors(ps: seq<PersonEntry>)
    ensures HasError(DuplicateFindings(ps)) <==> !Distinct(ps)
  {
    NoDuplicatesIff(ps);
    if DuplicateFindings(ps) != [] {
      DuplicateFindingsKind(ps, 0);
    }
  }

  lemma FormatErrors(ps: seq<PersonEntry>)
    ensures HasError(FormatFindings(ps)) <==> exists i :: 0 <= i < |ps| && !ValidFormat(ps[i].personId)
  {
    var fm := FormatFindings(ps);
    if HasError(fm) {
      var j :| 0 <= j < |fm| && fm[j].severity == Severity.Error;
      FormatFindingsIff(ps, fm[j]);
    }
    if exists i :: 0 <= i < |ps| && !ValidFormat(ps[i].personId) {
      var i :| 0 <= i < |ps| && !ValidFormat(ps[i].personId);
      var f := Finding(InvalidPersonIdFormat, Severity.Error, ps[i].personId);
      FormatFindingsIff(ps, f);
      var j :| 0 <= j < |fm| && fm[j] == f;
    }
  }

  /** Checks 3 to 5 only ever warn. */
  lemma LaterChecksWarn(registry: PersonRegistry, files: seq<LoadedFile>)
    ensures var ps := registry.persons;
      var ss := Sightings(files);
      && !HasError(UnusedFindings(ps, UsedIds(ss)))
      && !HasError(CountFindings(ps, RegistryCounts(ps, ss)))
      && !HasError(KeyFindings(Groups(ps)))
  {
    var ps := registry.persons;
    var ss := Sightings(files);
    forall f | f in UnusedFindings(ps, UsedIds(ss)) ensures f.severity == Severity.Warning {
      UnusedFindingsIff(ps, UsedIds(ss), f);
    }
    WarningsOnly(UnusedFindings(ps, UsedIds(ss)));
    forall f | f in CountFindings(ps, RegistryCounts(ps, ss)) ensures f.severity == Severity.Warning {
      CountFindingsIff(ps, RegistryCounts(ps, ss), f);
    }
    WarningsOnly(CountFindings(ps, RegistryCounts(ps, ss)));
    forall f | f in KeyFindings(Groups(ps)) ensures f.severity == Severity.Warning {
      KeyFindingsMembers(Groups(ps), f);
    }
    WarningsOnly(KeyFindings(Groups(ps)));
  }

  /** The run fails exactly when two records share a personId, a personId does not
      match ^person_\d{3}$, nextPersonId is not above the largest id number, a
      file cannot be read, or a counted entry carries a personId the registry
      lacks. Name mismatches, unused personIds, count mismatches and names
      without personKey are only warnings. */
  lemma {:induction false} ExitCodeIff(registry: PersonRegistry, files: seq<LoadedFile>)
    ensures var ps := registry.persons;
      HasError(AllFindings(registry, files)) <==>
        || !Distinct(ps)
        || (exists i :: 0 <= i < |ps| && !ValidFormat(ps[i].personId))
        || NextIdFindings(registry) != []
        || Unreadable(files)
        || MissingSighted(ps, Sightings(files))
  {
    var ps := registry.persons;
    var ss := Sightings(files);
    var d := DuplicateFindings(ps);
    var fm := FormatFindings(ps);
    var n := NextIdFindings(registry);
    var fl := FileFindings(ps, files);
    var u := UnusedFindings(ps, UsedIds(ss));
    var c := CountFindings(ps, RegistryCounts(ps, ss));
    var k := KeyFindings(Groups(ps));
    HasErrorConcat(d, fm);
    HasErrorConcat(d + fm, n);
    HasErrorConcat(d + fm + n, fl);
    HasErrorConcat(d + fm + n + fl, u);
    HasErrorConcat(d + fm + n + fl + u, c);
    HasErrorConcat(d + fm + n + fl + u + c, k);
    DuplicateErrors(ps);
    FormatErrors(ps);
    assert HasError(n) <==> n != [] by {
      if n != [] {
        assert n[0].severity == Severity.Error;
      }
    }
    FileErrors(ps, files);
    LaterChecksWarn(registry, files);
  }

  // ---------------------------------------------------------------------------
  // The migration's registry against the same files

  lemma {:induction false} UnusedNone(ps: seq<PersonEntry>, used: set<string>)
    requires forall i :: 0 <= i < |ps| ==> ps[i].personId in used
    ensures UnusedFindings(ps, used) == []
  {
    if ps != [] {
      UnusedNone(ps[..|ps| - 1], used);
    }
  }

  lemma {:induction false} CountNone(ps: seq<PersonEntry>, counts: map<string, int>)
    requires forall i :: 0 <= i < |ps| ==> ActualCount(counts, ps[i].personId) == ps[i].appearanceCount
    ensures CountFindings(ps, counts) == []
  {
    if ps != [] {
      CountNone(ps[..|ps| - 1], counts);
    }
  }

  /** Validating the registry that migrate-persons builds, against the same
      files: no duplicate personId, no entry personId missing from it, no unused
      personId and no count mismatch. */
  lemma {:induction false} MigratedRegistryValidates(files: seq<LoadedFile>, now: string)
    ensures var ps := MigratedRegistry(files, now).persons;
      var ss := Sightings(files);
      && DuplicateFindings(ps) == []
      && !MissingSighted(ps, ss)
      && UnusedFindings(ps, UsedIds(ss)) == []
      && CountFindings(ps, RegistryCounts(ps, ss)) == []
  {
    var ps := MigratedRegistry(files, now).persons;
    var ss := Sightings(files);
    MigratedDistinct(files, now);
    NoDuplicatesIff(ps);
    forall k | 0 <= k < |ss|
      ensures Listed(ps, ss[k].personId)
    {
      MigratedListed(files, now, ss[k].personId);
    }
    forall i | 0 <= i < |ps|
      ensures ps[i].personId in UsedIds(ss)
      ensures ActualCount(RegistryCounts(ps, ss), ps[i].personId) == ps[i].appearanceCount
    {
      MigratedRecord(files, now, i);
      UsedIdsMeaning(ss, ps[i].personId);
      CountsMeaning(ps, ss, ps[i].personId);
      assert Listed(ps, ps[i].personId);
    }
    UnusedNone(ps, UsedIds(ss));
    CountNone(ps, RegistryCounts(ps, ss));
  }

  // ---------------------------------------------------------------------------
  // The month-name parse of this script's getAllDataFiles

  /** The validator's copy of getAllDataFiles parses month names without a radix, so it
      disagrees with the radix-10 copies on a hexadecimal name: "0x1.json" is month 0 with
      radix 10 and month 1 without a radix. */
  lemma MonthValueRadix()
    ensures MonthValue(true, "0x1.json") == Some(0)
    ensures MonthValue(false, "0x1.json") == Some(1)
  {
    StemOfHexName();
    ParseIntOfHexText();
  }

  lemma StemOfHexName()
    ensures RemoveFirst("0x1.json", ".json") == "0x1"
  {
    var s := "0x1.json";
    assert s[..5] != ".json" by { assert s[..5][0] == '0'; }
    assert s[1..][..5] != ".json" by { assert s[1..][..5][0] == 'x'; }
    assert s[2..][..5] != ".json" by { assert s[2..][..5][0] == '1'; }
    assert s[1..][1..] == s[2..] && s[2..][1..] == s[3..];
    assert s[3..][..5] == ".json";
    assert RemoveFirst(s[3..], ".json") == [];
  }

  /** parseInt("0x1", 10) stops at the "x"; parseInt("0x1") reads hexadecimal 1. */
  lemma ParseIntOfHexText()
    ensures ParseInt("0x1", true) == Some(0)
    ensures ParseInt("0x1", false) == Some(1)
  {
    var t := "0x1";
    assert TrimStart(t) == t by { assert !IsJsWhitespace(t[0]); }
    assert DigitPrefix(t[1..]) == [] by { assert !IsDigit(t[1..][0]); }
    assert DigitPrefix(t) == "0";
    assert DigitsValue("0") == 0 by { assert "0"[..0] == []; }
    assert t[2..] == "1";
    assert HexPrefix("1") == "1" by { assert "1"[1..] == []; }
    assert HexValue("1") == 1 by { assert "1"[..0] == []; }
  }
}
