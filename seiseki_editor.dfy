/** The monthly results editor of the admin area (app/admin/seiseki/page.tsx): a list
    of entries that the administrator grows, shrinks and edits before posting it. */
module SeisekiEditor {
  import opened Common
  import opened Types

  /** The text fields the entry form edits. */
  datatype TextField = NameField | RankTitleField | TargetSizeField | UpdatedDateField | ExpiryDateField

  const MaxEntries := 10
  const TooManyEntries := "Maximum 10 entries allowed"
  const NoEntries := "Please add at least one entry"

  /** What handleSave posts. */
  datatype SaveRequest = SaveRequest(year: int, month: int, entries: seq<SeisekiEntry>)

  /** The entry addEntry appends: the given fresh id, the given rank and empty fields,
      including an empty personId. */
  function BlankEntry(id: string, rank: int): SeisekiEntry
  {
    SeisekiEntry(id, Some(""), "", rank, "", "", "", "", "", false)
  }

  /** The ranks read 1, 2, ..., n down the list. */
  predicate RanksConsecutive(s: seq<SeisekiEntry>)
  {
    forall i :: 0 <= i < |s| ==> s[i].rank == i + 1
  }

  /** a and b agree on everything but the rank. */
  predicate SameButRank(a: SeisekiEntry, b: SeisekiEntry)
  {
    a.(rank := 0) == b.(rank := 0)
  }

  /** The map((entry, index) => ({...entry, rank: index + 1})) step of removeEntry. */
  function Renumber(s: seq<SeisekiEntry>): (r: seq<SeisekiEntry>)
    ensures |r| == |s| && RanksConsecutive(r)
    ensures forall i :: 0 <= i < |s| ==> SameButRank(r[i], s[i])
  {
    seq(|s|, i requires 0 <= i < |s| => s[i].(rank := i + 1))
  }

  /** The entries whose id is not the given one, in their order. */
  function WithoutId(s: seq<SeisekiEntry>, id: string): (r: seq<SeisekiEntry>)
    ensures |r| <= |s| && SubsequenceOf(r, s)
    ensures forall e :: e in r <==> e in s && e.id != id
  {
    FilterSubsequence(s, (e: SeisekiEntry) => e.id != id);
    FilterContents(s, (e: SeisekiEntry) => e.id != id);
    Filter(s, (e: SeisekiEntry) => e.id != id)
  }

  /** One text field of an entry. */
  function Field(e: SeisekiEntry, f: TextField): string
  {
    match f
    case NameField => e.name
    case RankTitleField => e.rankTitle
    case TargetSizeField => e.targetSize
    case UpdatedDateField => e.updatedDate
    case ExpiryDateField => e.expiryDate
  }

  /** {...entry, [field]: value}. */
  function SetField(e: SeisekiEntry, f: TextField, value: string): (r: SeisekiEntry)
    ensures Field(r, f) == value
    ensures forall g :: g != f ==> Field(r, g) == Field(e, g)
    ensures r.id == e.id && r.personId == e.personId && r.personKey == e.personKey
    ensures r.rank == e.rank && r.isEmpty == e.isEmpty
  {
    match f
    case NameField => e.(name := value)
    case RankTitleField => e.(rankTitle := value)
    case TargetSizeField => e.(targetSize := value)
    case UpdatedDateField => e.(updatedDate := value)
    case ExpiryDateField => e.(expiryDate := value)
  }

  /** The map of updateEntry: entries with the id get the field, the rest are kept. */
  function UpdateWhere(s: seq<SeisekiEntry>, id: string, f: TextField, value: string): (r: seq<SeisekiEntry>)
    ensures |r| == |s|
    ensures forall i :: 0 <= i < |s| && s[i].id == id ==> r[i] == SetField(s[i], f, value)
    ensures forall i :: 0 <= i < |s| && s[i].id != id ==> r[i] == s[i]
  {
    seq(|s|, i requires 0 <= i < |s| => if s[i].id == id then SetField(s[i], f, value) else s[i])
  }

  /** Removing an entry leaves the ranks 1..n whatever they were before; up to their
      ranks, the entries left are exactly the old entries without the id. */
  lemma RemoveRenumbers(s: seq<SeisekiEntry>, id: string)
    ensures RanksConsecutive(Renumber(WithoutId(s, id)))
    ensures var r := Renumber(WithoutId(s, id));
      forall i :: 0 <= i < |r| ==> r[i].id != id && exists j :: 0 <= j < |s| && SameButRank(r[i], s[j])
    ensures var r := Renumber(WithoutId(s, id));
      forall j :: 0 <= j < |s| && s[j].id != id ==> exists i :: 0 <= i < |r| && SameButRank(r[i], s[j])
  {
    var w := WithoutId(s, id);
    var r := Renumber(w);
    forall i | 0 <= i < |r|
      ensures r[i].id != id && exists j :: 0 <= j < |s| && SameButRank(r[i], s[j])
    {
      assert SameButRank(r[i], w[i]);
      assert w[i] in w;
      var j :| 0 <= j < |s| && s[j] == w[i];
      assert SameButRank(r[i], s[j]);
    }
    forall j | 0 <= j < |s| && s[j].id != id
      ensures exists i :: 0 <= i < |r| && SameButRank(r[i], s[j])
    {
      assert s[j] in w;
      var i :| 0 <= i < |w| && w[i] == s[j];
      assert SameButRank(r[i], w[i]);
    }
  }

  /** Appending an entry ranked one past the end keeps the ranks 1..n. */
  lemma AppendKeepsRanks(s: seq<SeisekiEntry>, id: string)
    requires RanksConsecutive(s)
    ensures RanksConsecutive(s + [BlankEntry(id, |s| + 1)])
  {
  }

  /** Editing a text field never touches a rank. */
  lemma UpdateKeepsRanks(s: seq<SeisekiEntry>, id: string, f: TextField, value: string)
    requires RanksConsecutive(s)
    ensures RanksConsecutive(UpdateWhere(s, id, f, value))
  {
  }

  /** A list ranked 1..n of at most ten entries has ranks in 1..10, pairwise
      distinct: the rank checks of the results endpoint hold for it. */
  lemma ConsecutiveRanksDistinct(s: seq<SeisekiEntry>)
    requires RanksConsecutive(s) && |s| <= MaxEntries
    ensures forall i :: 0 <= i < |s| ==> 1 <= s[i].rank <= 10
    ensures forall i, j :: 0 <= i < j < |s| ==> s[i].rank != s[j].rank
  {
  }

  class Editor {
    var year: int
    var month: int
    var entries: seq<SeisekiEntry>
    var message: Option<Message>

    /** The page opens on January 2025 with no entries and no message. */
    constructor ()
      ensures year == 2025 && month == 1 && entries == [] && message == None
    {
      year := 2025;
      month := 1;
      entries := [];
      message := None;
    }

    /** createNew: an empty list and a note saying which month is being created. */
    method CreateNew()
      modifies this
      ensures entries == []
      ensures message == Some(Message(Success, "Creating new data for " + IntToString(year) + "/" + IntToString(month)))
      ensures year == old(year) && month == old(month)
    {
      entries := [];
      message := Some(Message(Success, "Creating new data for " + IntToString(year) + "/" + IntToString(month)));
    }

    /** addEntry: refused with an error at ten entries; otherwise one blank entry
        ranked one past the end is appended. */
    method AddEntry(freshId: string)
      modifies this
      ensures year == old(year) && month == old(month)
      ensures |old(entries)| >= MaxEntries ==> entries == old(entries) && message == Some(Message(Error, TooManyEntries))
      ensures |old(entries)| < MaxEntries ==>
        entries == old(entries) + [BlankEntry(freshId, |old(entries)| + 1)] && message == old(message)
      ensures old(RanksConsecutive(entries)) ==> RanksConsecutive(entries)
      ensures |old(entries)| <= MaxEntries ==> |entries| <= MaxEntries
    {
      if |entries| >= MaxEntries {
        message := Some(Message(Error, TooManyEntries));
        return;
      }
      if RanksConsecutive(entries) {
        AppendKeepsRanks(entries, freshId);
      }
      entries := entries + [BlankEntry(freshId, |entries| + 1)];
    }

    /** removeEntry: drops the entries with the id and renumbers the rest 1..n. */
    method RemoveEntry(id: string)
      modifies this
      ensures entries == Renumber(WithoutId(old(entries), id))
      ensures RanksConsecutive(entries) && |entries| <= |old(entries)|
      ensures year == old(year) && month == old(month) && message == old(message)
    {
      entries := Renumber(WithoutId(entries, id));
    }

    /** updateEntry: one text field of the entries with the id. */
    method UpdateEntry(id: string, f: TextField, value: string)
      modifies this
      ensures entries == UpdateWhere(old(entries), id, f, value)
      ensures old(RanksConsecutive(entries)) ==> RanksConsecutive(entries)
      ensures year == old(year) && month == old(month) && message == old(message)
    {
      if RanksConsecutive(entries) {
        UpdateKeepsRanks(entries, id, f, value);
      }
      entries := UpdateWhere(entries, id, f, value);
    }

    /** handleSave up to the request: an empty list is refused with an error and
        nothing is sent; otherwise the message is cleared and the month is posted. */
    method HandleSave() returns (request: Option<SaveRequest>)
      modifies this`message
      ensures entries == [] ==> request == None && message == Some(Message(Error, NoEntries))
      ensures entries != [] ==> request == Some(SaveRequest(year, month, entries)) && message == None
    {
      message := None;
      if |entries| == 0 {
        message := Some(Message(Error, NoEntries));
        return None;
      }
      request := Some(SaveRequest(year, month, entries));
    }
  }
}
