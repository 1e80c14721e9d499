/** The site's records: monthly ranking results (seiseki), yearly tournament results
    (taikai) and the person registry kept by the maintenance scripts. */
module Types {
  import opened Common

  /** The status line of an admin page. */
  datatype MessageKind = Success | Error
  datatype Message = Message(kind: MessageKind, text: string)

  /** A calendar month. */
  datatype YearMonth = YearMonth(year: int, month: int)

  /** One ranked person in a monthly result. `personId` is None when the field is
      absent; `personKey` (which tells apart people of the same name) is "" when
      absent or null; `isEmpty` marks display placeholders. */
  datatype SeisekiEntry = SeisekiEntry(
    id: string,
    personId: Option<string>,
    personKey: string,
    rank: int,
    name: string,
    rankTitle: string,
    targetSize: string,
    updatedDate: string,
    expiryDate: string,
    isEmpty: bool)

  /** The result file of one month. */
  datatype SeisekiMonth = SeisekiMonth(
    year: int,
    month: int,
    entries: seq<SeisekiEntry>,
    publishedAt: string,
    updatedAt: string)

  /** One line of the monthly archive index. */
  datatype ArchiveMetadata = ArchiveMetadata(year: int, month: int, entryCount: nat, publishedAt: string)

  /** One month of a person's ranking history. A month without data has rank None,
      target size "-", no numeric size and an empty title. */
  datatype PersonHistoryEntry = PersonHistoryEntry(
    year: int,
    month: int,
    rank: Option<int>,
    targetSize: string,
    targetSizeNumeric: Option<int>,
    rankTitle: string)

  datatype PersonHistory = PersonHistory(personId: string, name: string, history: seq<PersonHistoryEntry>)

  /** A round score, which is "" while the administrator has not typed it. */
  datatype Score = Blank | Num(value: int)

  datatype TaikaiParticipant = TaikaiParticipant(
    id: string,
    rank: int,
    name: string,
    rankTitle: string,
    score1: Score,
    score2: Score,
    totalScore: int)

  datatype TaikaiData = TaikaiData(
    year: int,
    taikaiName: string,
    eventDate: string,
    participants: seq<TaikaiParticipant>,
    publishedAt: string,
    updatedAt: string)

  datatype TaikaiArchiveMetadata = TaikaiArchiveMetadata(
    year: int,
    taikaiName: string,
    participantCount: nat,
    eventDate: string,
    publishedAt: string)

  datatype PersonTaikaiHistoryEntry = PersonTaikaiHistoryEntry(
    year: int,
    taikaiName: string,
    rank: int,
    score1: Score,
    score2: Score,
    totalScore: int,
    rankTitle: string)

  datatype PersonTaikaiHistory = PersonTaikaiHistory(name: string, history: seq<PersonTaikaiHistoryEntry>)

  /** A registry record (persons.json); `personKey` is "" for null. */
  datatype PersonEntry = PersonEntry(
    personId: string,
    name: string,
    personKey: string,
    firstAppearance: YearMonth,
    lastAppearance: YearMonth,
    appearanceCount: int,
    createdAt: string,
    note: string)

  datatype PersonRegistry = PersonRegistry(
    version: string,
    lastUpdated: string,
    nextPersonId: int,
    persons: seq<PersonEntry>)

  /** The note the registry scripts give a person who has a personKey:
      personKey="<key>" followed by " で同名の別人と区別" (told apart from a
      namesake); no note otherwise. */
  function PersonKeyNote(personKey: string): (note: string)
    ensures note == "" <==> personKey == ""
  {
    if personKey != "" then "personKey=\"" + personKey + "\"" + NamesakeNote else ""
  }

  const NamesakeNote := " \U{3067}\U{540C}\U{540D}\U{306E}\U{5225}\U{4EBA}\U{3068}\U{533A}\U{5225}"

  /** Chronological order of months: the number of months since year 0. */
  function Ordinal(year: int, month: int): int
  {
    year * 12 + (month - 1)
  }

  /** The month with the given ordinal; inverse of Ordinal on months 1..12. */
  function FromOrdinal(o: int): (ym: YearMonth)
    ensures 1 <= ym.month <= 12
    ensures Ordinal(ym.year, ym.month) == o
  {
    YearMonth(o / 12, o % 12 + 1)
  }

  lemma OrdinalRoundTrip(year: int, month: int)
    requires 1 <= month <= 12
    ensures FromOrdinal(Ordinal(year, month)) == YearMonth(year, month)
  {
  }

  /** Calendar order of two months is the order of their ordinals. */
  lemma OrdinalOrder(y1: int, m1: int, y2: int, m2: int)
    requires 1 <= m1 <= 12 && 1 <= m2 <= 12
    ensures y1 < y2 || (y1 == y2 && m1 <= m2) <==> Ordinal(y1, m1) <= Ordinal(y2, m2)
  {
    if y1 < y2 {
      assert y1 * 12 + 12 <= y2 * 12;
    } else if y1 > y2 {
      assert y2 * 12 + 12 <= y1 * 12;
    }
  }

  /** The month after (year, month): December rolls over to January of the next year. */
  function NextMonth(ym: YearMonth): YearMonth
  {
    if ym.month + 1 > 12 then YearMonth(ym.year + 1, 1) else YearMonth(ym.year, ym.month + 1)
  }

  lemma NextMonthOrdinal(o: int)
    ensures NextMonth(FromOrdinal(o)) == FromOrdinal(o + 1)
  {
  }
}
