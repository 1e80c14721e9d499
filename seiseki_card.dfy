/** One result card (components/seiseki/SeisekiCard.tsx): its short date, its rank
    colour, and when a click or key press opens the person's history. */
module SeisekiCard {
  import opened Common
  import SeisekiTab

  // ---------------------------------------------------------------------------
  // formatShortDate

  /** /^\d{4}-(\d{2})-(\d{2})$/. */
  predicate IsoDateShaped(s: string)
  {
    && |s| == 10
    && AllDigits(s[..4]) && s[4] == '-'
    && AllDigits(s[5..7]) && s[7] == '-'
    && AllDigits(s[8..])
  }

  /** formatShortDate: "YYYY-MM-DD" becomes "M/D" without leading zeros; "" and any
      other text are shown as they are. */
  function FormatShortDate(s: string): (r: string)
    ensures s == "" ==> r == ""
    ensures !IsoDateShaped(s) ==> r == s
    ensures IsoDateShaped(s) ==> r == NatToString(DigitsValue(s[5..7])) + "/" + NatToString(DigitsValue(s[8..]))
  {
    if s == "" then ""
    else if IsoDateShaped(s) then
      ParseIntOfDigits(s[5..7], true);
      ParseIntOfDigits(s[8..], true);
      var month := ParseInt(s[5..7], true).value;
      var day := ParseInt(s[8..], true).value;
      IntToString(month) + "/" + IntToString(day)
    else s
  }

  /** The ISO date the import script writes: year, month and day zero-padded. */
  function IsoDate(year: nat, month: nat, day: nat): string
  {
    DateText(PaddedNumber(year, 4), PaddedNumber(month, 2), PaddedNumber(day, 2))
  }

  /** Year, month and day texts joined with hyphens. */
  function DateText(y: string, m: string, d: string): string
  {
    y + "-" + m + "-" + d
  }

  /** Two-digit numbers pad to exactly two characters. */
  lemma PaddedTwo(n: nat)
    requires n < 100
    ensures |PaddedNumber(n, 2)| == 2
  {
    NatToStringLength(n);
  }

  lemma PaddedFour(n: nat)
    requires n < 10000
    ensures |PaddedNumber(n, 4)| == 4
  {
    NatToStringLength(n);
  }

  /** A written ISO date has the ISO shape, and its three fields are the padded
      numbers. */
  lemma IsoDateFields(year: nat, month: nat, day: nat)
    requires year < 10000 && month < 100 && day < 100
    ensures var s := IsoDate(year, month, day);
      && IsoDateShaped(s)
      && s[..4] == PaddedNumber(year, 4) && s[5..7] == PaddedNumber(month, 2) && s[8..] == PaddedNumber(day, 2)
  {
    PaddedFour(year);
    PaddedTwo(month);
    PaddedTwo(day);
    DateTextFields(PaddedNumber(year, 4), PaddedNumber(month, 2), PaddedNumber(day, 2));
  }

  /** Four, two and two digits joined with hyphens have the ISO shape, with the
      three texts in their places. */
  lemma DateTextFields(y: string, m: string, d: string)
    requires |y| == 4 && |m| == 2 && |d| == 2 && AllDigits(y) && AllDigits(m) && AllDigits(d)
    ensures var s := DateText(y, m, d);
      && IsoDateShaped(s) && s[..4] == y && s[5..7] == m && s[8..] == d
  {
    var s := DateText(y, m, d);
    assert s[..4] == y;
    assert s[5..7] == m;
    assert s[8..] == d;
  }

  /** A written ISO date shows as its month and day, unpadded. */
  lemma FormatIsoDate(year: nat, month: nat, day: nat)
    requires year < 10000 && month < 100 && day < 100
    ensures FormatShortDate(IsoDate(year, month, day)) == NatToString(month) + "/" + NatToString(day)
  {
    IsoDateFields(year, month, day);
  }

  // ---------------------------------------------------------------------------
  // getRankColor

  datatype RankColor = Gold | Silver | Bronze | Accent

  /** The podium ranks 1, 2 and 3 get gold, silver and bronze; every other rank the
      accent colour. */
  function GetRankColor(rank: int): (c: RankColor)
    ensures c != Accent <==> 1 <= rank <= 3
    ensures c == Gold <==> rank == 1
    ensures c == Silver <==> rank == 2
    ensures c == Bronze <==> rank == 3
  {
    if rank == 1 then Gold
    else if rank == 2 then Silver
    else if rank == 3 then Bronze
    else Accent
  }

  // ---------------------------------------------------------------------------
  // Activation

  datatype Event = Click | KeyDown(key: string)

  /** A personId is usable when present and non-empty (a truthiness test). */
  predicate HasPersonId(personId: Option<string>)
  {
    personId.Some? && personId.value != ""
  }

  /** isClickable: the card takes focus and the button role when it is not a
      placeholder and a handler is given. */
  predicate IsClickable(isEmpty: bool, hasHandler: bool)
  {
    !isEmpty && hasHandler
  }

  /** handleClick and handleKeyDown: the personId handed to onClick, if it is called. */
  function Activate(isEmpty: bool, hasHandler: bool, personId: Option<string>, e: Event): (r: Option<string>)
    ensures r.Some? ==> IsClickable(isEmpty, hasHandler) && r == personId && r.value != ""
  {
    var triggers := match e
      case Click => true
      case KeyDown(k) => k == "Enter" || k == " ";
    if triggers && !isEmpty && hasHandler && HasPersonId(personId) then personId else None
  }

  /** onClick is called exactly for a click, Enter or Space on a clickable card whose
      personId is non-empty; a clickable card without a personId is focusable yet
      does nothing. */
  lemma ActivateMeaning(isEmpty: bool, hasHandler: bool, personId: Option<string>, e: Event)
    ensures Activate(isEmpty, hasHandler, personId, e).Some? <==>
      && (e.Click? || e.key == "Enter" || e.key == " ")
      && IsClickable(isEmpty, hasHandler) && HasPersonId(personId)
    ensures IsClickable(isEmpty, hasHandler) && !HasPersonId(personId) ==> Activate(isEmpty, hasHandler, personId, e) == None
  {
  }

  /** A placeholder card opens nothing, even when rendered without its isEmpty flag:
      its personId is empty. */
  lemma PlaceholderInert(rank: nat, isEmpty: bool, hasHandler: bool, e: Event)
    ensures Activate(isEmpty, hasHandler, SeisekiTab.EmptyEntry(rank).personId, e) == None
  {
  }
}
