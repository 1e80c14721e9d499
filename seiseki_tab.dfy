/** The monthly results tab of the public site (components/seiseki/SeisekiTabContent.tsx):
    each month is shown as exactly ten cards, padded with placeholders, and on wide
    screens the ten are interleaved so that two columns read 1-5 and 6-10. The
    carousel (components/seiseki/MonthCarousel.tsx) carries identical copies of
    these list functions. */
module SeisekiTab {
  import opened Common
  import opened Types
  import SeisekiStore

  /** The name a placeholder card shows. */
  const NoOne := "該当なし"

  const CardsPerMonth := 10

  /** createEmptyEntry: the placeholder card for a rank nobody holds. */
  function EmptyEntry(rank: nat): (e: SeisekiEntry)
    ensures e.isEmpty && e.rank == rank && e.personId == Some("")
    ensures e.name == NoOne && e.targetSize == "-" && e.id == "empty-" + NatToString(rank)
  {
    SeisekiEntry("empty-" + NatToString(rank), Some(""), "", rank, NoOne, "", "-", "", "", true)
  }

  /** What padEntriesToTen returns. */
  function Padded(entries: seq<SeisekiEntry>): (r: seq<SeisekiEntry>)
    ensures |r| == CardsPerMonth
    ensures |entries| >= CardsPerMonth ==> r == entries[..CardsPerMonth]
    ensures |entries| < CardsPerMonth ==> r[..|entries|] == entries
    ensures forall k :: |entries| <= k < CardsPerMonth ==> r[k] == EmptyEntry(k + 1)
  {
    if |entries| >= CardsPerMonth then entries[..CardsPerMonth]
    else entries + seq(CardsPerMonth - |entries|, k requires 0 <= k < CardsPerMonth - |entries| => EmptyEntry(|entries| + k + 1))
  }

  /** padEntriesToTen: the first ten, or all of them followed by placeholders. */
  method PadEntriesToTen(entries: seq<SeisekiEntry>) returns (padded: seq<SeisekiEntry>)
    ensures padded == Padded(entries)
  {
    if |entries| >= CardsPerMonth {
      return entries[..CardsPerMonth];
    }
    padded := entries;
    var i := |entries|;
    while i < CardsPerMonth
      invariant |entries| <= i <= CardsPerMonth && |padded| == i
      invariant padded[..|entries|] == entries
      invariant forall k :: |entries| <= k < i ==> padded[k] == EmptyEntry(k + 1)
    {
      padded := padded + [EmptyEntry(i + 1)];
      i := i + 1;
    }
  }

  /** A month padded from a list ranked 1..n (n at most ten) is ranked 1..10, and its
      real entries are the ones the month holds. */
  lemma PaddedRanks(entries: seq<SeisekiEntry>)
    requires |entries| <= CardsPerMonth
    requires forall i :: 0 <= i < |entries| ==> entries[i].rank == i + 1
    ensures forall i :: 0 <= i < CardsPerMonth ==> Padded(entries)[i].rank == i + 1
    ensures forall i :: 0 <= i < CardsPerMonth ==> (Padded(entries)[i].isEmpty <==> i >= |entries| || entries[i].isEmpty)
  {
    var r := Padded(entries);
    forall i | 0 <= i < CardsPerMonth
      ensures r[i].rank == i + 1
      ensures r[i].isEmpty <==> i >= |entries| || entries[i].isEmpty
    {
      if i < |entries| {
        assert r[i] == r[..|entries|][i];
      }
    }
  }

  /** Two columns read alternately: a[0], b[0], a[1], b[1], ... */
  function Zip<T>(a: seq<T>, b: seq<T>): (r: seq<T>)
    requires |a| == |b|
    ensures |r| == 2 * |a|
  {
    if a == [] then [] else [a[0], b[0]] + Zip(a[1..], b[1..])
  }

  /** Zipping only places the cards of both columns. */
  lemma {:induction false} ZipMultiset<T>(a: seq<T>, b: seq<T>)
    requires |a| == |b|
    ensures multiset(Zip(a, b)) == multiset(a) + multiset(b)
  {
    if a != [] {
      calc {
        multiset(Zip(a, b));
        multiset([a[0], b[0]] + Zip(a[1..], b[1..]));
        multiset([a[0], b[0]]) + multiset(Zip(a[1..], b[1..]));
        { ZipMultiset(a[1..], b[1..]); }
        multiset([a[0], b[0]]) + (multiset(a[1..]) + multiset(b[1..]));
        (multiset([a[0]]) + multiset(a[1..])) + (multiset([b[0]]) + multiset(b[1..]));
        { assert a == [a[0]] + a[1..]; assert b == [b[0]] + b[1..]; }
        multiset(a) + multiset(b);
      }
    }
  }

  /** Position 2i holds a[i] and position 2i + 1 holds b[i]. */
  lemma {:induction false} ZipAt<T>(a: seq<T>, b: seq<T>, i: nat)
    requires |a| == |b| && i < |a|
    ensures Zip(a, b)[2 * i] == a[i] && Zip(a, b)[2 * i + 1] == b[i]
  {
    if i > 0 {
      ZipAt(a[1..], b[1..], i - 1);
      var z := Zip(a[1..], b[1..]);
      assert Zip(a, b) == [a[0], b[0]] + z;
      assert Zip(a, b)[2 * i] == z[2 * (i - 1)];
      assert Zip(a, b)[2 * i + 1] == z[2 * (i - 1) + 1];
    }
  }

  lemma {:induction false} ZipSnoc<T>(a: seq<T>, b: seq<T>, x: T, y: T)
    requires |a| == |b|
    ensures Zip(a + [x], b + [y]) == Zip(a, b) + [x, y]
  {
    if a != [] {
      var a', b' := a + [x], b + [y];
      assert a'[1..] == a[1..] + [x] && b'[1..] == b[1..] + [y];
      ZipSnoc(a[1..], b[1..], x, y);
      calc {
        Zip(a', b');
        [a[0], b[0]] + Zip(a'[1..], b'[1..]);
        [a[0], b[0]] + (Zip(a[1..], b[1..]) + [x, y]);
        ([a[0], b[0]] + Zip(a[1..], b[1..])) + [x, y];
        Zip(a, b) + [x, y];
      }
    }
  }

  /** What reorderEntriesForDesktop returns: for ten cards, 1, 6, 2, 7, ..., 5, 10;
      any other list as it is. The result holds the same cards. */
  function Interleaved(entries: seq<SeisekiEntry>): (r: seq<SeisekiEntry>)
    ensures |r| == |entries| && multiset(r) == multiset(entries)
    ensures |entries| != CardsPerMonth ==> r == entries
    ensures |entries| == CardsPerMonth ==> forall i :: 0 <= i < 5 ==> r[2 * i] == entries[i] && r[2 * i + 1] == entries[i + 5]
  {
    if |entries| != CardsPerMonth then entries
    else
      assert entries[..5] + entries[5..] == entries;
      ZipMultiset(entries[..5], entries[5..]);
      assert forall i :: 0 <= i < 5 ==> (Zip(entries[..5], entries[5..])[2 * i] == entries[i]
                                      && Zip(entries[..5], entries[5..])[2 * i + 1] == entries[i + 5]) by {
        forall i | 0 <= i < 5 {
          ZipAt(entries[..5], entries[5..], i);
        }
      }
      Zip(entries[..5], entries[5..])
  }

  /** reorderEntriesForDesktop. */
  method ReorderEntriesForDesktop(entries: seq<SeisekiEntry>) returns (reordered: seq<SeisekiEntry>)
    ensures reordered == Interleaved(entries)
  {
    if |entries| != CardsPerMonth {
      return entries;
    }
    reordered := [];
    var i := 0;
    while i < 5
      invariant 0 <= i <= 5
      invariant reordered == Zip(entries[..i], entries[5..5 + i])
    {
      ZipSnoc(entries[..i], entries[5..5 + i], entries[i], entries[i + 5]);
      assert entries[..i + 1] == entries[..i] + [entries[i]];
      assert entries[5..5 + i + 1] == entries[5..5 + i] + [entries[i + 5]];
      reordered := reordered + [entries[i]] + [entries[i + 5]];
      i := i + 1;
    }
    assert entries[5..10] == entries[5..];
  }

  /** A month is marked latest when the selected year and its month are those of the
      latest published month; with none published, no month is. */
  predicate IsLatestMonth(selectedYear: int, month: int, latestYear: Option<int>, latestMonth: Option<int>)
  {
    latestYear == Some(selectedYear) && latestMonth == Some(month)
  }

  /** Among the months of a year, each month at most once, at most one is marked. */
  lemma AtMostOneLatest(selectedYear: int, months: seq<SeisekiMonth>, latestYear: Option<int>, latestMonth: Option<int>)
    requires forall i, j :: 0 <= i < j < |months| ==> months[i].month != months[j].month
    ensures forall i, j :: (0 <= i < |months| && 0 <= j < |months|
      && IsLatestMonth(selectedYear, months[i].month, latestYear, latestMonth)
      && IsLatestMonth(selectedYear, months[j].month, latestYear, latestMonth)) ==> i == j
  {
  }

  /** The year selected first: the head of the available years (undefined when there
      are none). */
  function InitialYear(availableYears: seq<int>): (y: Option<int>)
    ensures y.None? <==> availableYears == []
  {
    if availableYears == [] then None else Some(availableYears[0])
  }

  /** With the years the store lists, the first selection is the newest indexed year. */
  lemma InitialYearIsNewest(archives: seq<ArchiveMetadata>)
    ensures var y := InitialYear(SeisekiStore.AvailableYears(archives));
      && (y.None? <==> archives == [])
      && (y.Some? ==> (exists a :: a in archives && a.year == y.value)
                      && forall a :: a in archives ==> a.year <= y.value)
  {
    var r := SeisekiStore.AvailableYears(archives);
    SeisekiStore.AvailableYearsProperties(archives);
    if archives != [] {
      assert archives[0].year in r;
      assert r != [] && r[0] in r;
      forall a | a in archives
        ensures a.year <= r[0]
      {
        assert a.year in r;
        var k :| 0 <= k < |r| && r[k] == a.year;
        assert k == 0 || r[0] > r[k];
      }
    }
  }
}
