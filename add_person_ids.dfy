/** scripts/add-person-ids.ts: gives every non-empty ranking entry that has no
    personId one. A person is recognised by the unique key "name_personKey" (or the
    bare name); keys already in the registry reuse the registry's id, new keys get
    "person_" followed by a counter padded to three digits, and a registry record
    is created for each of them. Files are visited in the order given (the order of
    getAllDataFiles), entries in file order. */
module AddPersonIds {
  import opened Common
  import opened Types
  import opened DataFiles

  // ---------------------------------------------------------------------------
  // Unique keys and the registry map

  /** getUniqueKey: "name_personKey" when a personKey is present, else the name. */
  function UniqueKey(name: string, personKey: string): string
  {
    if personKey != "" then name + "_" + personKey else name
  }

  function EntryKey(e: SeisekiEntry): string
  {
    UniqueKey(e.name, e.personKey)
  }

  function PersonKey(p: PersonEntry): string
  {
    UniqueKey(p.name, p.personKey)
  }

  /** Two people of the same name get different keys exactly when their personKeys
      differ. */
  lemma UniqueKeySeparatesNamesakes(name: string, key1: string, key2: string)
    ensures UniqueKey(name, key1) == UniqueKey(name, key2) <==> key1 == key2
  {
    var u1, u2 := UniqueKey(name, key1), UniqueKey(name, key2);
    if key1 != "" && key2 != "" && u1 == u2 {
      calc {
        key1;
        u1[|name| + 1..];
        u2[|name| + 1..];
        key2;
      }
    }
    if (key1 == "") != (key2 == "") {
      assert |u1| != |u2|;
    }
  }

  /** The map buildNameToPersonIdMap builds: unique key to personId, a later
      registry record overwriting an earlier one with the same key. */
  function NameMap(persons: seq<PersonEntry>): map<string, string>
  {
    if persons == [] then map[]
    else
      var last := persons[|persons| - 1];
      NameMap(persons[..|persons| - 1])[PersonKey(last) := last.personId]
  }

  method BuildNameToPersonIdMap(persons: seq<PersonEntry>) returns (m: map<string, string>)
    ensures m == NameMap(persons)
  {
    m := map[];
    var i := 0;
    while i < |persons|
      invariant 0 <= i <= |persons|
      invariant m == NameMap(persons[..i])
    {
      assert persons[..i + 1][..i] == persons[..i];
      m := m[PersonKey(persons[i]) := persons[i].personId];
      i := i + 1;
    }
    assert persons[..|persons|] == persons;
  }

  /** A key is in the map exactly when some registry record has it, and it maps to
      the id of the last such record. */
  lemma NameMapLookup(persons: seq<PersonEntry>, key: string)
    ensures key in NameMap(persons) <==> exists i :: 0 <= i < |persons| && PersonKey(persons[i]) == key
    ensures key in NameMap(persons) ==>
      exists i :: 0 <= i < |persons| && PersonKey(persons[i]) == key && NameMap(persons)[key] == persons[i].personId &&
        forall j :: i < j < |persons| ==> PersonKey(persons[j]) != key
  {
    NameMapHas(persons, key);
    if key in NameMap(persons) {
      NameMapLast(persons, key);
    }
  }

  lemma {:induction false} NameMapHas(persons: seq<PersonEntry>, key: string)
    ensures key in NameMap(persons) <==> exists i :: 0 <= i < |persons| && PersonKey(persons[i]) == key
  {
    if persons != [] {
      var n := |persons| - 1;
      var init := persons[..n];
      NameMapHas(init, key);
      if exists i :: 0 <= i < |persons| && PersonKey(persons[i]) == key {
        var i :| 0 <= i < |persons| && PersonKey(persons[i]) == key;
        if i < n {
          assert PersonKey(init[i]) == key;
        }
      }
      if exists i :: 0 <= i < |init| && PersonKey(init[i]) == key {
        var i :| 0 <= i < |init| && PersonKey(init[i]) == key;
        assert PersonKey(persons[i]) == key;
      }
    }
  }

  lemma {:induction false} NameMapLast(persons: seq<PersonEntry>, key: string)
    requires key in NameMap(persons)
    ensures exists i :: 0 <= i < |persons| && PersonKey(persons[i]) == key && NameMap(persons)[key] == persons[i].personId &&
                        forall j :: i < j < |persons| ==> PersonKey(persons[j]) != key
  {
    var n := |persons| - 1;
    var init := persons[..n];
    if PersonKey(persons[n]) == key {
      assert NameMap(persons)[key] == persons[n].personId;
    } else {
      NameMapLast(init, key);
      var i :| 0 <= i < |init| && PersonKey(init[i]) == key && NameMap(init)[key] == init[i].personId &&
        forall j :: i < j < |init| ==> PersonKey(init[j]) != key;
      assert persons[i] == init[i];
      assert NameMap(persons)[key] == persons[i].personId;
      forall j | i < j < |persons|
        ensures PersonKey(persons[j]) != key
      {
        if j < n {
          assert persons[j] == init[j];
        }
      }
    }
  }

  /** A registry whose personIds are all non-empty gives a map whose values are. */
  predicate IdsNonEmpty(ids: map<string, string>)
  {
    forall k :: k in ids ==> ids[k] != ""
  }

  lemma {:induction false} NameMapValues(persons: seq<PersonEntry>)
    requires forall i :: 0 <= i < |persons| ==> persons[i].personId != ""
    ensures IdsNonEmpty(NameMap(persons))
  {
    if persons != [] {
      NameMapValues(persons[..|persons| - 1]);
    }
  }

  // ---------------------------------------------------------------------------
  // One entry

  /** The entries the script touches: not a placeholder, and personId absent or "". */
  predicate NeedsId(e: SeisekiEntry)
  {
    !e.isEmpty && (e.personId.None? || e.personId.value == "")
  }

  /** "person_" followed by the counter padded to three digits. */
  function NewPersonId(n: int): string
  {
    "person_" + PadStart(IntToString(n), 3, '0')
  }

  /** Different non-negative counters give different ids. */
  lemma NewPersonIdInjective(m: int, n: int)
    requires 0 <= m && 0 <= n
    ensures NewPersonId(m) == NewPersonId(n) <==> m == n
  {
    if NewPersonId(m) == NewPersonId(n) {
      assert NewPersonId(m)[7..] == NewPersonId(n)[7..];
      PaddedNumberIsPadStart(m, 3);
      PaddedNumberIsPadStart(n, 3);
      PaddedNumberInjective(m, n, 3);
    }
  }

  /** What the loops carry from entry to entry: the key-to-id map, the counter and
      the persons created so far. */
  datatype Run = Run(ids: map<string, string>, next: int, newPersons: seq<PersonEntry>)

  /** The registry record created for a new person seen in the file of (year, month). */
  function NewPerson(id: string, e: SeisekiEntry, year: int, month: int, now: string): PersonEntry
  {
    PersonEntry(id, e.name, e.personKey, YearMonth(year, month), YearMonth(year, month), 1, now, PersonKeyNote(e.personKey))
  }

  /** The run after meeting entry e of the file of (year, month). */
  function StepRun(st: Run, e: SeisekiEntry, year: int, month: int, now: string): Run
  {
    if !NeedsId(e) || EntryKey(e) in st.ids then st
    else
      var id := NewPersonId(st.next);
      Run(st.ids[EntryKey(e) := id], st.next + 1, st.newPersons + [NewPerson(id, e, year, month, now)])
  }

  /** Entry e after the script has met it; `st` is the run after meeting it. */
  function StepEntry(st: Run, e: SeisekiEntry): SeisekiEntry
    requires NeedsId(e) ==> EntryKey(e) in st.ids
  {
    if NeedsId(e) then e.(personId := Some(st.ids[EntryKey(e)])) else e
  }

  // ---------------------------------------------------------------------------
  // One file

  datatype Visited = Visited(run: Run, entries: seq<SeisekiEntry>)

  /** The inner loop over the entries of one file, as a function of the run before it. */
  function StepEntries(st: Run, es: seq<SeisekiEntry>, year: int, month: int, now: string): (v: Visited)
    ensures |v.entries| == |es|
  {
    if es == [] then Visited(st, [])
    else
      var before := StepEntries(st, es[..|es| - 1], year, month, now);
      var e := es[|es| - 1];
      var after := StepRun(before.run, e, year, month, now);
      Visited(after, before.entries + [StepEntry(after, e)])
  }

  predicate AnyNeedsId(es: seq<SeisekiEntry>)
  {
    exists i :: 0 <= i < |es| && NeedsId(es[i])
  }

  /** The inner loop over one more entry. */
  lemma StepEntriesSnoc(st: Run, es: seq<SeisekiEntry>, k: nat, year: int, month: int, now: string)
    requires k < |es|
    ensures var before := StepEntries(st, es[..k], year, month, now);
      var after := StepRun(before.run, es[k], year, month, now);
      StepEntries(st, es[..k + 1], year, month, now) == Visited(after, before.entries + [StepEntry(after, es[k])])
  {
    assert es[..k + 1][..k] == es[..k];
  }

  lemma AnyNeedsIdSnoc(es: seq<SeisekiEntry>, k: nat)
    requires k < |es|
    ensures AnyNeedsId(es[..k + 1]) <==> AnyNeedsId(es[..k]) || NeedsId(es[k])
  {
    assert es[..k + 1][k] == es[k];
    assert forall j :: 0 <= j < k ==> es[..k + 1][j] == es[..k][j];
  }

  /** The body of the inner loop for an entry that needs an id: look its key up,
      creating a person under the next counter value when the key is new. */
  method AssignEntry(ids0: map<string, string>, next0: int, newPersons0: seq<PersonEntry>, entry: SeisekiEntry,
                     year: int, month: int, now: string)
    returns (ids: map<string, string>, next: int, newPersons: seq<PersonEntry>, updated: SeisekiEntry)
    requires NeedsId(entry)
    ensures Run(ids, next, newPersons) == StepRun(Run(ids0, next0, newPersons0), entry, year, month, now)
    ensures updated == StepEntry(Run(ids, next, newPersons), entry)
  {
    ids, next, newPersons := ids0, next0, newPersons0;
    var key := UniqueKey(entry.name, entry.personKey);
    if key !in ids {
      var newPersonId := NewPersonId(next);
      ids := ids[key := newPersonId];
      newPersons := newPersons + [NewPerson(newPersonId, entry, year, month, now)];
      next := next + 1;
    }
    updated := entry.(personId := Some(ids[key]));
  }

  /** What the loop over one file keeps after k entries: the run and the first k
      entries are the inner loop's, the rest are untouched, and `modified` says
      whether any of the first k needed an id. */
  predicate InFile(st0: Run, data: SeisekiMonth, now: string, k: nat, st: Run, entries: seq<SeisekiEntry>, modified: bool)
  {
    && k <= |entries| == |data.entries|
    && (forall j :: k <= j < |entries| ==> entries[j] == data.entries[j])
    && Visited(st, entries[..k]) == StepEntries(st0, data.entries[..k], data.year, data.month, now)
    && (modified <==> AnyNeedsId(data.entries[..k]))
  }

  /** One turn of the loop over a file keeps InFile. */
  lemma InFileStep(st0: Run, data: SeisekiMonth, now: string, k: nat, st: Run, entries: seq<SeisekiEntry>, modified: bool)
    requires InFile(st0, data, now, k, st, entries, modified) && k < |entries|
    ensures var e := entries[k];
      var after := StepRun(st, e, data.year, data.month, now);
      InFile(st0, data, now, k + 1, after, if NeedsId(e) then entries[k := StepEntry(after, e)] else entries,
             modified || NeedsId(e))
  {
    var e := entries[k];
    var after := StepRun(st, e, data.year, data.month, now);
    var entries' := if NeedsId(e) then entries[k := StepEntry(after, e)] else entries;
    var before := StepEntries(st0, data.entries[..k], data.year, data.month, now);
    assert before.run == st && before.entries == entries[..k];
    assert e == data.entries[k];
    StepEntriesSnoc(st0, data.entries, k, data.year, data.month, now);
    assert StepEntries(st0, data.entries[..k + 1], data.year, data.month, now)
        == Visited(after, entries[..k] + [StepEntry(after, e)]);
    AnyNeedsIdSnoc(data.entries, k);
    if NeedsId(e) {
      assert entries'[..k + 1] == entries[..k] + [StepEntry(after, e)];
    } else {
      assert entries'[..k + 1] == entries[..k] + [e];
    }
    assert forall j :: k + 1 <= j < |entries'| ==> entries'[j] == data.entries[j];
  }

  /** The loop over the entries of one month file; the entries are updated in
      place and `modified` records whether any was. */
  method AssignInFile(ids0: map<string, string>, next0: int, newPersons0: seq<PersonEntry>, data: SeisekiMonth, now: string)
    returns (ids: map<string, string>, next: int, newPersons: seq<PersonEntry>, entries: seq<SeisekiEntry>, modified: bool)
    ensures Visited(Run(ids, next, newPersons), entries) ==
      StepEntries(Run(ids0, next0, newPersons0), data.entries, data.year, data.month, now)
    ensures modified <==> AnyNeedsId(data.entries)
  {
    ids, next, newPersons, entries, modified := ids0, next0, newPersons0, data.entries, false;
    var k := 0;
    assert entries[..0] == [] && data.entries[..0] == [];
    while k < |entries|
      invariant InFile(Run(ids0, next0, newPersons0), data, now, k, Run(ids, next, newPersons), entries, modified)
      decreases |entries| - k
    {
      var entry := entries[k];
      InFileStep(Run(ids0, next0, newPersons0), data, now, k, Run(ids, next, newPersons), entries, modified);
      if NeedsId(entry) {
        var updated;
        ids, next, newPersons, updated := AssignEntry(ids, next, newPersons, entry, data.year, data.month, now);
        entries := entries[k := updated];
        modified := true;
      }
      k := k + 1;
    }
    assert entries[..k] == entries;
    assert data.entries[..k] == data.entries;
  }

  // ---------------------------------------------------------------------------
  // All files

  datatype Progress = Progress(run: Run, files: seq<LoadedFile>, written: seq<bool>)

  /** A file after its visit: rewritten, with updatedAt set, exactly when some entry
      in it received an id; an unreadable file is left alone. */
  function StepFile(st: Run, f: LoadedFile, now: string): Progress
  {
    match f.data
    case None => Progress(st, [f], [false])
    case Some(data) =>
      var v := StepEntries(st, data.entries, data.year, data.month, now);
      if AnyNeedsId(data.entries) then
        Progress(v.run, [LoadedFile(f.path, Some(data.(entries := v.entries, updatedAt := now)))], [true])
      else Progress(v.run, [f], [false])
  }

  /** The outer loop over the files, as a function of the run before it. */
  function StepFiles(st: Run, files: seq<LoadedFile>, now: string): (p: Progress)
    ensures |p.files| == |p.written| == |files|
  {
    if files == [] then Progress(st, [], [])
    else
      var before := StepFiles(st, files[..|files| - 1], now);
      var last := StepFile(before.run, files[|files| - 1], now);
      Progress(last.run, before.files + last.files, before.written + last.written)
  }

  /** The result of a run: the files (with which were rewritten) and the registry
      (with whether it was rewritten). */
  datatype Assigned = Assigned(files: seq<LoadedFile>, written: seq<bool>, registry: PersonRegistry, registryWritten: bool)

  function Start(registry: PersonRegistry): Run
  {
    Run(NameMap(registry.persons), registry.nextPersonId, [])
  }

  /** The whole script. The registry is rewritten only when new persons were
      created: they are appended and nextPersonId is the counter's final value. */
  function AssignAll(registry: PersonRegistry, files: seq<LoadedFile>, now: string): Assigned
  {
    var p := StepFiles(Start(registry), files, now);
    if |p.run.newPersons| > 0 then
      Assigned(p.files, p.written,
        registry.(persons := registry.persons + p.run.newPersons, nextPersonId := p.run.next, lastUpdated := now), true)
    else Assigned(p.files, p.written, registry, false)
  }

  /** main: build the map, visit every file, then update the registry. */
  method AssignPersonIds(registry: PersonRegistry, files: seq<LoadedFile>, now: string) returns (r: Assigned)
    ensures r == AssignAll(registry, files, now)
  {
    var ids := BuildNameToPersonIdMap(registry.persons);
    var next := registry.nextPersonId;
    var newPersons: seq<PersonEntry> := [];
    var out: seq<LoadedFile> := [];
    var written: seq<bool> := [];
    var i := 0;
    while i < |files|
      invariant 0 <= i <= |files|
      invariant StepFiles(Start(registry), files[..i], now) == Progress(Run(ids, next, newPersons), out, written)
    {
      var f := files[i];
      assert files[..i + 1][..i] == files[..i];
      if f.data.Some? {
        var data := f.data.value;
        var entries, modified;
        ids, next, newPersons, entries, modified := AssignInFile(ids, next, newPersons, data, now);
        if modified {
          out := out + [LoadedFile(f.path, Some(data.(entries := entries, updatedAt := now)))];
          written := written + [true];
        } else {
          out := out + [f];
          written := written + [false];
        }
      } else {
        out := out + [f];
        written := written + [false];
      }
      i := i + 1;
    }
    assert files[..|files|] == files;
    if |newPersons| > 0 {
      r := Assigned(out, written, registry.(persons := registry.persons + newPersons, nextPersonId := next, lastUpdated := now), true);
    } else {
      r := Assigned(out, written, registry, false);
    }
  }

  // ---------------------------------------------------------------------------
  // What a run guarantees

  /** b continues a: every key keeps its id, persons are only appended (so a
      person's appearanceCount of 1 is never incremented), and the counter has
      advanced by exactly the number appended. */
  predicate Extends(a: Run, b: Run)
  {
    && (forall k :: k in a.ids ==> k in b.ids && b.ids[k] == a.ids[k])
    && |a.newPersons| <= |b.newPersons|
    && b.newPersons[..|a.newPersons|] == a.newPersons
    && b.next == a.next + (|b.newPersons| - |a.newPersons|)
  }

  /** A person created under counter value n in the file of (year, month). */
  predicate CreatedAs(p: PersonEntry, n: int, year: int, month: int)
  {
    && p.personId == NewPersonId(n)
    && p.firstAppearance == YearMonth(year, month)
    && p.lastAppearance == YearMonth(year, month)
    && p.appearanceCount == 1
  }

  /** Every person b added to a was created in the file of (year, month), under the
      counter values a.next, a.next + 1, ... in order. */
  predicate CreatedIn(a: Run, b: Run, year: int, month: int)
    requires |a.newPersons| <= |b.newPersons|
  {
    forall i :: |a.newPersons| <= i < |b.newPersons| ==> CreatedAs(b.newPersons[i], a.next + (i - |a.newPersons|), year, month)
  }

  /** out is es after the visit, given the final map: an entry that needed an id
      has the id of its key, every other entry is unchanged. */
  predicate Updated(es: seq<SeisekiEntry>, out: seq<SeisekiEntry>, ids: map<string, string>)
  {
    && |out| == |es|
    && forall i :: 0 <= i < |es| ==>
      if NeedsId(es[i]) then EntryKey(es[i]) in ids && out[i] == es[i].(personId := Some(ids[EntryKey(es[i])]))
      else out[i] == es[i]
  }

  lemma ExtendsTransitive(a: Run, b: Run, c: Run)
    requires Extends(a, b) && Extends(b, c)
    ensures Extends(a, c)
  {
    assert c.newPersons[..|a.newPersons|] == c.newPersons[..|b.newPersons|][..|a.newPersons|];
  }

  lemma CreatedInTransitive(a: Run, b: Run, c: Run, year: int, month: int)
    requires Extends(a, b) && Extends(b, c)
    requires CreatedIn(a, b, year, month) && CreatedIn(b, c, year, month)
    ensures Extends(a, c) && CreatedIn(a, c, year, month)
  {
    ExtendsTransitive(a, b, c);
    forall i | |a.newPersons| <= i < |c.newPersons|
      ensures CreatedAs(c.newPersons[i], a.next + (i - |a.newPersons|), year, month)
    {
      if i < |b.newPersons| {
        assert c.newPersons[i] == c.newPersons[..|b.newPersons|][i];
      }
    }
  }

  lemma UpdatedLater(es: seq<SeisekiEntry>, out: seq<SeisekiEntry>, a: Run, b: Run)
    requires Updated(es, out, a.ids) && Extends(a, b)
    ensures Updated(es, out, b.ids)
  {
  }

  lemma StepRunExtends(st: Run, e: SeisekiEntry, year: int, month: int, now: string)
    ensures Extends(st, StepRun(st, e, year, month, now))
  {
  }

  lemma StepRunCreated(st: Run, e: SeisekiEntry, year: int, month: int, now: string)
    requires Extends(st, StepRun(st, e, year, month, now))
    ensures CreatedIn(st, StepRun(st, e, year, month, now), year, month)
  {
    var after := StepRun(st, e, year, month, now);
    if NeedsId(e) && EntryKey(e) !in st.ids {
      var p := NewPerson(NewPersonId(st.next), e, year, month, now);
      assert after.newPersons == st.newPersons + [p];
      assert CreatedAs(p, st.next, year, month);
      forall i | |st.newPersons| <= i < |after.newPersons|
        ensures CreatedAs(after.newPersons[i], st.next + (i - |st.newPersons|), year, month)
      {
        assert i == |st.newPersons| && after.newPersons[i] == p;
      }
    } else {
      assert after == st;
    }
  }

  lemma StepRunIdsNonEmpty(st: Run, e: SeisekiEntry, year: int, month: int, now: string)
    requires IdsNonEmpty(st.ids)
    ensures IdsNonEmpty(StepRun(st, e, year, month, now).ids)
  {
  }

  lemma StepRunFacts(st: Run, e: SeisekiEntry, year: int, month: int, now: string)
    ensures Extends(st, StepRun(st, e, year, month, now))
    ensures CreatedIn(st, StepRun(st, e, year, month, now), year, month)
    ensures NeedsId(e) ==> EntryKey(e) in StepRun(st, e, year, month, now).ids
    ensures IdsNonEmpty(st.ids) ==> IdsNonEmpty(StepRun(st, e, year, month, now).ids)
  {
    StepRunExtends(st, e, year, month, now);
    StepRunCreated(st, e, year, month, now);
    if IdsNonEmpty(st.ids) {
      StepRunIdsNonEmpty(st, e, year, month, now);
    }
  }


  /** The inner loop only extends the run, creates its persons in this file's month,
      and gives each entry that needs an id the id its key has at the end. */
  lemma {:induction false} StepEntriesFacts(st: Run, es: seq<SeisekiEntry>, year: int, month: int, now: string)
    ensures Extends(st, StepEntries(st, es, year, month, now).run)
    ensures CreatedIn(st, StepEntries(st, es, year, month, now).run, year, month)
    ensures Updated(es, StepEntries(st, es, year, month, now).entries, StepEntries(st, es, year, month, now).run.ids)
    ensures IdsNonEmpty(st.ids) ==> IdsNonEmpty(StepEntries(st, es, year, month, now).run.ids)
  {
    if es != [] {
      var init := es[..|es| - 1];
      var e := es[|es| - 1];
      var before := StepEntries(st, init, year, month, now);
      var after := StepRun(before.run, e, year, month, now);
      StepEntriesFacts(st, init, year, month, now);
      StepRunFacts(before.run, e, year, month, now);
      CreatedInTransitive(st, before.run, after, year, month);
      UpdatedLater(init, before.entries, before.run, after);
      var out := before.entries + [StepEntry(after, e)];
      forall i | 0 <= i < |es|
        ensures if NeedsId(es[i]) then EntryKey(es[i]) in after.ids && out[i] == es[i].(personId := Some(after.ids[EntryKey(es[i])]))
          else out[i] == es[i]
      {
        if i < |init| {
          assert es[i] == init[i] && out[i] == before.entries[i];
        }
      }
    }
  }

  /** g is file f after the visit, given the final map: rewritten, with the same
      path, its entries updated and updatedAt set to now, exactly when some entry
      needed an id; otherwise unchanged and not written. */
  predicate FileUpdated(f: LoadedFile, g: LoadedFile, written: bool, ids: map<string, string>, now: string)
  {
    match f.data
    case None => g == f && !written
    case Some(d) =>
      if AnyNeedsId(d.entries) then
        && written && g.path == f.path && g.data.Some?
        && g.data.value == d.(entries := g.data.value.entries, updatedAt := now)
        && Updated(d.entries, g.data.value.entries, ids)
      else g == f && !written
  }

  /** Every person b added to a was created, under the counter values a.next,
      a.next + 1, ... in order, in the month of one of the files. */
  predicate CreatedDuring(a: Run, b: Run, files: seq<LoadedFile>)
    requires |a.newPersons| <= |b.newPersons|
  {
    forall i :: |a.newPersons| <= i < |b.newPersons| ==> CreatedFrom(b.newPersons[i], a.next + (i - |a.newPersons|), files)
  }

  /** p was created under counter value n in one of the readable files. */
  predicate CreatedFrom(p: PersonEntry, n: int, files: seq<LoadedFile>)
  {
    exists j :: 0 <= j < |files| && files[j].data.Some? &&
      CreatedAs(p, n, files[j].data.value.year, files[j].data.value.month)
  }

  lemma StepFileFacts(st: Run, f: LoadedFile, now: string)
    ensures Extends(st, StepFile(st, f, now).run)
    ensures CreatedDuring(st, StepFile(st, f, now).run, [f])
    ensures |StepFile(st, f, now).files| == |StepFile(st, f, now).written| == 1
    ensures FileUpdated(f, StepFile(st, f, now).files[0], StepFile(st, f, now).written[0], StepFile(st, f, now).run.ids, now)
    ensures IdsNonEmpty(st.ids) ==> IdsNonEmpty(StepFile(st, f, now).run.ids)
  {
    if f.data.Some? {
      var d := f.data.value;
      StepEntriesFacts(st, d.entries, d.year, d.month, now);
      var q := StepFile(st, f, now);
      forall i | |st.newPersons| <= i < |q.run.newPersons|
        ensures (exists j :: 0 <= j < 1 && [f][j].data.Some? &&
                   CreatedAs(q.run.newPersons[i], st.next + (i - |st.newPersons|), [f][j].data.value.year, [f][j].data.value.month))
      {
        assert [f][0] == f;
      }
    }
  }

  /** The outer loop only extends the run, creates its persons in the months of the
      files, and leaves each file as FileUpdated says, for the map at the end. */
  lemma StepFilesFacts(st: Run, files: seq<LoadedFile>, now: string)
    ensures Extends(st, StepFiles(st, files, now).run)
    ensures CreatedDuring(st, StepFiles(st, files, now).run, files)
    ensures forall i :: 0 <= i < |files| ==>
      FileUpdated(files[i], StepFiles(st, files, now).files[i], StepFiles(st, files, now).written[i], StepFiles(st, files, now).run.ids, now)
    ensures IdsNonEmpty(st.ids) ==> IdsNonEmpty(StepFiles(st, files, now).run.ids)
  {
    StepFilesRun(st, files, now);
    StepFilesCreated(st, files, now);
    StepFilesUpdated(st, files, now);
  }

  /** The run after the outer loop extends the run before it. */
  lemma {:induction false} StepFilesRun(st: Run, files: seq<LoadedFile>, now: string)
    ensures Extends(st, StepFiles(st, files, now).run)
    ensures IdsNonEmpty(st.ids) ==> IdsNonEmpty(StepFiles(st, files, now).run.ids)
  {
    if files != [] {
      var init := files[..|files| - 1];
      var before := StepFiles(st, init, now);
      StepFilesRun(st, init, now);
      StepFileFacts(before.run, files[|files| - 1], now);
      ExtendsTransitive(st, before.run, StepFiles(st, files, now).run);
    }
  }

  /** Every person the outer loop created comes from some readable file. */
  lemma {:induction false} StepFilesCreated(st: Run, files: seq<LoadedFile>, now: string)
    ensures Extends(st, StepFiles(st, files, now).run)
    ensures CreatedDuring(st, StepFiles(st, files, now).run, files)
  {
    StepFilesRun(st, files, now);
    if files != [] {
      var init := files[..|files| - 1];
      var f := files[|files| - 1];
      var before := StepFiles(st, init, now);
      var p := StepFiles(st, files, now);
      StepFilesCreated(st, init, now);
      StepFileFacts(before.run, f, now);
      assert files == init + [f];
      CreatedDuringGrow(st, before.run, p.run, init, f);
    }
  }

  /** Persons created over a run of files and then over one more file were created
      over the longer run. */
  lemma CreatedDuringGrow(a: Run, b: Run, c: Run, init: seq<LoadedFile>, f: LoadedFile)
    requires Extends(a, b) && Extends(b, c)
    requires CreatedDuring(a, b, init) && CreatedDuring(b, c, [f])
    ensures |a.newPersons| <= |c.newPersons| && CreatedDuring(a, c, init + [f])
  {
    forall i | |a.newPersons| <= i < |c.newPersons|
      ensures CreatedFrom(c.newPersons[i], a.next + (i - |a.newPersons|), init + [f])
    {
      if i < |b.newPersons| {
        assert c.newPersons[i] == c.newPersons[..|b.newPersons|][i];
        var j :| 0 <= j < |init| && init[j].data.Some? &&
          CreatedAs(b.newPersons[i], a.next + (i - |a.newPersons|), init[j].data.value.year, init[j].data.value.month);
        assert (init + [f])[j] == init[j];
      } else {
        var j :| 0 <= j < 1 && [f][j].data.Some? &&
          CreatedAs(c.newPersons[i], b.next + (i - |b.newPersons|), [f][j].data.value.year, [f][j].data.value.month);
        assert (init + [f])[|init|] == [f][j];
      }
    }
  }

  /** Every file after the outer loop is its visit's result under the final map. */
  lemma {:induction false} StepFilesUpdated(st: Run, files: seq<LoadedFile>, now: string)
    ensures forall i :: 0 <= i < |files| ==>
      FileUpdated(files[i], StepFiles(st, files, now).files[i], StepFiles(st, files, now).written[i], StepFiles(st, files, now).run.ids, now)
  {
    if files != [] {
      var init := files[..|files| - 1];
      var f := files[|files| - 1];
      var before := StepFiles(st, init, now);
      var last := StepFile(before.run, f, now);
      var p := StepFiles(st, files, now);
      StepFilesUpdated(st, init, now);
      StepFileFacts(before.run, f, now);
      forall i | 0 <= i < |files|
        ensures FileUpdated(files[i], p.files[i], p.written[i], p.run.ids, now)
      {
        if i < |init| {
          assert files[i] == init[i] && p.files[i] == before.files[i] && p.written[i] == before.written[i];
          FileUpdatedLater(files[i], p.files[i], p.written[i], before.run, p.run, now);
        } else {
          assert p.files[i] == last.files[0] && p.written[i] == last.written[0];
        }
      }
    }
  }

  lemma FileUpdatedLater(f: LoadedFile, g: LoadedFile, written: bool, a: Run, b: Run, now: string)
    requires FileUpdated(f, g, written, a.ids, now) && Extends(a, b)
    ensures FileUpdated(f, g, written, b.ids, now)
  {
    if f.data.Some? && AnyNeedsId(f.data.value.entries) {
      UpdatedLater(f.data.value.entries, g.data.value.entries, a, b);
    }
  }

  // ---------------------------------------------------------------------------
  // The script's guarantees

  /** The registry: rewritten exactly when new persons were created; they are
      appended after the existing records and nextPersonId advances by exactly
      their number. */
  lemma NewPersonsAppended(registry: PersonRegistry, files: seq<LoadedFile>, now: string)
    ensures var r := AssignAll(registry, files, now);
      && (r.registryWritten <==> |r.registry.persons| > |registry.persons|)
      && (!r.registryWritten ==> r.registry == registry)
      && |registry.persons| <= |r.registry.persons|
      && r.registry.persons[..|registry.persons|] == registry.persons
      && r.registry.nextPersonId == registry.nextPersonId + (|r.registry.persons| - |registry.persons|)
  {
    var st := Start(registry);
    var p := StepFiles(st, files, now);
    StepFilesFacts(st, files, now);
    var r := AssignAll(registry, files, now);
    assert st.newPersons == [] && st.next == registry.nextPersonId;
    assert p.run.next == registry.nextPersonId + |p.run.newPersons|;
    if |p.run.newPersons| > 0 {
      var n := |registry.persons|;
      assert r.registryWritten;
      assert r.registry.persons == registry.persons + p.run.newPersons;
      assert r.registry.persons[..n] == registry.persons;
      assert r.registry.nextPersonId == p.run.next;
    } else {
      assert r.registry == registry && !r.registryWritten;
      assert registry.persons[..|registry.persons|] == registry.persons;
    }
  }

  /** Each new person was created under the counter value nextPersonId + i (for
      the i-th), in the month of one of the files, first and last seen there, with
      appearanceCount 1. */
  lemma NewPersonsCreated(registry: PersonRegistry, files: seq<LoadedFile>, now: string, i: int)
    requires |registry.persons| <= i < |AssignAll(registry, files, now).registry.persons|
    ensures CreatedFrom(AssignAll(registry, files, now).registry.persons[i],
                        registry.nextPersonId + (i - |registry.persons|), files)
    ensures AssignAll(registry, files, now).registry.persons[i].personId ==
            NewPersonId(registry.nextPersonId + (i - |registry.persons|))
  {
    var st := Start(registry);
    var p := StepFiles(st, files, now);
    var n := |registry.persons|;
    var ps := AssignAll(registry, files, now).registry.persons;
    AssignAllPersons(registry, files, now);
    StepFilesCreated(st, files, now);
    assert st.newPersons == [] && st.next == registry.nextPersonId;
    var q := p.run.newPersons[i - n];
    assert ps[i] == q;
    assert CreatedFrom(q, registry.nextPersonId + (i - n), files);
    var j :| 0 <= j < |files| && files[j].data.Some? &&
             CreatedAs(q, registry.nextPersonId + (i - n), files[j].data.value.year, files[j].data.value.month);
  }


  lemma AssignAllPersons(registry: PersonRegistry, files: seq<LoadedFile>, now: string)
    ensures AssignAll(registry, files, now).registry.persons ==
      registry.persons + StepFiles(Start(registry), files, now).run.newPersons
  {
    var p := StepFiles(Start(registry), files, now);
    if |p.run.newPersons| == 0 {
      assert registry.persons + p.run.newPersons == registry.persons;
    }
  }

  /** The i-th new person has the id of counter value nextPersonId + i. */
  lemma NewIdsNumbered(registry: PersonRegistry, files: seq<LoadedFile>, now: string)
    ensures |registry.persons| <= |AssignAll(registry, files, now).registry.persons|
    ensures forall i :: |registry.persons| <= i < |AssignAll(registry, files, now).registry.persons| ==>
      AssignAll(registry, files, now).registry.persons[i].personId == NewPersonId(registry.nextPersonId + (i - |registry.persons|))
  {
    NewPersonsAppended(registry, files, now);
    forall i | |registry.persons| <= i < |AssignAll(registry, files, now).registry.persons|
      ensures AssignAll(registry, files, now).registry.persons[i].personId == NewPersonId(registry.nextPersonId + (i - |registry.persons|))
    {
      NewPersonsCreated(registry, files, now, i);
    }
  }

  /** Ids drawn from a counter run are pairwise distinct, for any id function that is
      injective on non-negative counters. */
  lemma NumberedDistinct(existing: seq<PersonEntry>, ps: seq<PersonEntry>, n0: int, id: int -> string)
    requires forall a, b :: 0 <= a < b ==> id(a) != id(b)
    requires 0 <= n0 && |existing| <= |ps|
    requires forall i :: |existing| <= i < |ps| ==> ps[i].personId == id(n0 + (i - |existing|))
    ensures forall i, j :: 0 <= i < j < |ps| && |existing| <= i ==> ps[i].personId != ps[j].personId
  {
    forall i, j | 0 <= i < j < |ps| && |existing| <= i
      ensures ps[i].personId != ps[j].personId
    {
      assert id(n0 + (i - |existing|)) != id(n0 + (j - |existing|));
    }
  }

  /** Ids drawn from the counter from n0 on differ from ids drawn below n0, for any
      id function that is injective on non-negative counters. */
  lemma NumberedFresh(existing: seq<PersonEntry>, ps: seq<PersonEntry>, n0: int, id: int -> string)
    requires forall a, b :: 0 <= a < b ==> id(a) != id(b)
    requires 0 <= n0 && |existing| <= |ps| && ps[..|existing|] == existing
    requires forall i :: |existing| <= i < |ps| ==> ps[i].personId == id(n0 + (i - |existing|))
    requires forall p :: p in existing ==> exists k :: 0 <= k < n0 && p.personId == id(k)
    ensures forall i, j :: 0 <= i < |existing| <= j < |ps| ==> ps[i].personId != ps[j].personId
  {
    forall i, j | 0 <= i < |existing| <= j < |ps|
      ensures ps[i].personId != ps[j].personId
    {
      assert ps[i] == existing[i];
      assert existing[i] in existing;
    }
  }

  /** NewPersonId is injective on non-negative counters, stated for any two of them. */
  lemma NewPersonIdsDiffer()
    ensures forall a, b :: 0 <= a < b ==> NewPersonId(a) != NewPersonId(b)
  {
    forall a, b | 0 <= a < b
      ensures NewPersonId(a) != NewPersonId(b)
    {
      NewPersonIdInjective(a, b);
    }
  }

  /** The new ids are pairwise distinct; and when every existing id was drawn from
      the counter below nextPersonId, no new id repeats an existing one. */
  lemma NewIdsFresh(registry: PersonRegistry, files: seq<LoadedFile>, now: string)
    requires 0 <= registry.nextPersonId
    ensures var ps := AssignAll(registry, files, now).registry.persons;
      forall i, j :: 0 <= i < j < |ps| && |registry.persons| <= i ==> ps[i].personId != ps[j].personId
    ensures var ps := AssignAll(registry, files, now).registry.persons;
      (forall p :: p in registry.persons ==> exists k :: 0 <= k < registry.nextPersonId && p.personId == NewPersonId(k)) ==>
      forall i, j :: 0 <= i < |registry.persons| <= j < |ps| ==> ps[i].personId != ps[j].personId
  {
    NewIdsDistinct(registry, files, now);
    if forall p :: p in registry.persons ==> exists k :: 0 <= k < registry.nextPersonId && p.personId == NewPersonId(k) {
      NewIdsAvoidExisting(registry, files, now);
    }
  }

  lemma NewIdsDistinct(registry: PersonRegistry, files: seq<LoadedFile>, now: string)
    requires 0 <= registry.nextPersonId
    ensures var ps := AssignAll(registry, files, now).registry.persons;
      forall i, j :: 0 <= i < j < |ps| && |registry.persons| <= i ==> ps[i].personId != ps[j].personId
  {
    NewIdsNumbered(registry, files, now);
    NewPersonIdsDiffer();
    NumberedDistinct(registry.persons, AssignAll(registry, files, now).registry.persons, registry.nextPersonId, NewPersonId);
  }

  lemma NewIdsAvoidExisting(registry: PersonRegistry, files: seq<LoadedFile>, now: string)
    requires 0 <= registry.nextPersonId
    requires forall p :: p in registry.persons ==> exists k :: 0 <= k < registry.nextPersonId && p.personId == NewPersonId(k)
    ensures var ps := AssignAll(registry, files, now).registry.persons;
      forall i, j :: 0 <= i < |registry.persons| <= j < |ps| ==> ps[i].personId != ps[j].personId
  {
    NewIdsNumbered(registry, files, now);
    NewPersonsAppended(registry, files, now);
    NewPersonIdsDiffer();
    NumberedFresh(registry.persons, AssignAll(registry, files, now).registry.persons, registry.nextPersonId, NewPersonId);
  }

  /** Files and entries: a file is rewritten exactly when some entry in it needed an
      id, a file that is not rewritten is unchanged, and an empty placeholder or an
      entry that already had a non-empty personId is never modified. */
  lemma OnlyMissingIdsChange(registry: PersonRegistry, files: seq<LoadedFile>, now: string)
    ensures var r := AssignAll(registry, files, now);
      |r.files| == |r.written| == |files| &&
      forall i :: 0 <= i < |files| ==>
        && (r.written[i] <==> files[i].data.Some? && AnyNeedsId(files[i].data.value.entries))
        && (!r.written[i] ==> r.files[i] == files[i])
        && (files[i].data.Some? ==>
              r.files[i].path == files[i].path && r.files[i].data.Some? &&
              Untouched(files[i].data.value.entries, r.files[i].data.value.entries))
  {
    var st := Start(registry);
    StepFilesFacts(st, files, now);
  }

  /** out keeps every entry of es that did not need an id. */
  predicate Untouched(es: seq<SeisekiEntry>, out: seq<SeisekiEntry>)
  {
    |out| == |es| && forall k :: 0 <= k < |es| && !NeedsId(es[k]) ==> out[k] == es[k]
  }

  predicate HasId(e: SeisekiEntry)
  {
    e.personId.Some? && e.personId.value != ""
  }

  /** After the run every non-empty entry of every readable file has a non-empty
      personId, provided the registry has no empty personId. */
  lemma EveryEntryHasId(registry: PersonRegistry, files: seq<LoadedFile>, now: string)
    requires forall i :: 0 <= i < |registry.persons| ==> registry.persons[i].personId != ""
    ensures var r := AssignAll(registry, files, now);
      |r.files| == |files| &&
      forall i, k ::
        (0 <= i < |files| && r.files[i].data.Some? && 0 <= k < |r.files[i].data.value.entries| &&
         !r.files[i].data.value.entries[k].isEmpty) ==> HasId(r.files[i].data.value.entries[k])
  {
    var st := Start(registry);
    NameMapValues(registry.persons);
    StepFilesFacts(st, files, now);
    var p := StepFiles(st, files, now);
    var r := AssignAll(registry, files, now);
    forall i, k | 0 <= i < |files| && r.files[i].data.Some? && 0 <= k < |r.files[i].data.value.entries| &&
      !r.files[i].data.value.entries[k].isEmpty
      ensures HasId(r.files[i].data.value.entries[k])
    {
      assert FileUpdated(files[i], p.files[i], p.written[i], p.run.ids, now);
      var d := files[i].data.value;
      if AnyNeedsId(d.entries) {
        var e := d.entries[k];
        if NeedsId(e) {
          assert EntryKey(e) in p.run.ids;
        }
      } else {
        assert !NeedsId(d.entries[k]);
      }
    }
  }

  /** Entries that needed an id and have the same unique key end with the same
      personId, wherever they are. */
  lemma SameKeySameId(registry: PersonRegistry, files: seq<LoadedFile>, now: string, i1: int, k1: int, i2: int, k2: int)
    requires 0 <= i1 < |files| && files[i1].data.Some? && 0 <= k1 < |files[i1].data.value.entries|
    requires 0 <= i2 < |files| && files[i2].data.Some? && 0 <= k2 < |files[i2].data.value.entries|
    requires NeedsId(files[i1].data.value.entries[k1]) && NeedsId(files[i2].data.value.entries[k2])
    requires EntryKey(files[i1].data.value.entries[k1]) == EntryKey(files[i2].data.value.entries[k2])
    ensures var r := AssignAll(registry, files, now);
      |r.files| == |files| && r.files[i1].data.Some? && r.files[i2].data.Some? &&
      k1 < |r.files[i1].data.value.entries| && k2 < |r.files[i2].data.value.entries| &&
      r.files[i1].data.value.entries[k1].personId == r.files[i2].data.value.entries[k2].personId
  {
    var st := Start(registry);
    StepFilesFacts(st, files, now);
    var p := StepFiles(st, files, now);
    assert FileUpdated(files[i1], p.files[i1], p.written[i1], p.run.ids, now);
    assert FileUpdated(files[i2], p.files[i2], p.written[i2], p.run.ids, now);
    assert AnyNeedsId(files[i1].data.value.entries) && AnyNeedsId(files[i2].data.value.entries);
  }
}
