/** The tournament editor of the admin area (app/admin/taikai/page.tsx): a name and a
    list of participants whose total score follows the two round scores as they are
    typed, posted with the scores filled in and the event date derived from the year. */
module TaikaiEditor {
  import opened Common
  import opened Types
  import TaikaiRoute

  /** The fields the participant form edits, with their new values. */
  datatype Field = NameField(name: string) | RankTitleField(title: string) | Score1Field(s1: Score) | Score2Field(s2: Score)

  const NameRequired := "Tournament name is required"
  const NoParticipants := "Please add at least one participant"

  /** What handleSave posts. */
  datatype SaveRequest = SaveRequest(year: int, taikaiName: string, eventDate: string, participants: seq<TaikaiParticipant>)

  /** A score as the total counts it: "" is 0. */
  function Coerce(s: Score): int
  {
    match s
    case Blank => 0
    case Num(v) => v
  }

  /** The total is the sum of the two scores, blanks counting as 0. */
  predicate TotalConsistent(p: TaikaiParticipant)
  {
    p.totalScore == Coerce(p.score1) + Coerce(p.score2)
  }

  predicate AllConsistent(ps: seq<TaikaiParticipant>)
  {
    forall i :: 0 <= i < |ps| ==> TotalConsistent(ps[i])
  }

  /** The participant addParticipant appends: blank scores and a total of 0. */
  function BlankParticipant(id: string, rank: int): (p: TaikaiParticipant)
    ensures TotalConsistent(p)
  {
    TaikaiParticipant(id, rank, "", "", Blank, Blank, 0)
  }

  predicate RanksConsecutive(ps: seq<TaikaiParticipant>)
  {
    forall i :: 0 <= i < |ps| ==> ps[i].rank == i + 1
  }

  /** a and b agree on everything but the rank. */
  predicate SameButRank(a: TaikaiParticipant, b: TaikaiParticipant)
  {
    a.(rank := 0) == b.(rank := 0)
  }

  /** The renumbering map of removeParticipant. */
  function Renumber(ps: seq<TaikaiParticipant>): (r: seq<TaikaiParticipant>)
    ensures |r| == |ps| && RanksConsecutive(r)
    ensures forall i :: 0 <= i < |ps| ==> SameButRank(r[i], ps[i])
  {
    seq(|ps|, i requires 0 <= i < |ps| => ps[i].(rank := i + 1))
  }

  /** The participants whose id is not the given one, in their order. */
  function WithoutId(ps: seq<TaikaiParticipant>, id: string): (r: seq<TaikaiParticipant>)
    ensures |r| <= |ps| && SubsequenceOf(r, ps)
    ensures forall p :: p in r <==> p in ps && p.id != id
  {
    FilterSubsequence(ps, (p: TaikaiParticipant) => p.id != id);
    FilterContents(ps, (p: TaikaiParticipant) => p.id != id);
    Filter(ps, (p: TaikaiParticipant) => p.id != id)
  }

  /** The update of one participant: the field is set, and a score change sets the
      total to the sum of the scores. */
  function Apply(p: TaikaiParticipant, f: Field): (r: TaikaiParticipant)
    ensures r.id == p.id && r.rank == p.rank
    ensures f.NameField? ==> r == p.(name := f.name)
    ensures f.RankTitleField? ==> r == p.(rankTitle := f.title)
    ensures f.Score1Field? ==> r.score1 == f.s1 && r.score2 == p.score2 && r.name == p.name && r.rankTitle == p.rankTitle
    ensures f.Score2Field? ==> r.score2 == f.s2 && r.score1 == p.score1 && r.name == p.name && r.rankTitle == p.rankTitle
    ensures (f.Score1Field? || f.Score2Field?) ==> TotalConsistent(r)
    ensures TotalConsistent(p) ==> TotalConsistent(r)
  {
    match f
    case NameField(n) => p.(name := n)
    case RankTitleField(t) => p.(rankTitle := t)
    case Score1Field(s) =>
      var u := p.(score1 := s);
      u.(totalScore := Coerce(u.score1) + Coerce(u.score2))
    case Score2Field(s) =>
      var u := p.(score2 := s);
      u.(totalScore := Coerce(u.score1) + Coerce(u.score2))
  }

  /** The map of updateParticipant. */
  function UpdateWhere(ps: seq<TaikaiParticipant>, id: string, f: Field): (r: seq<TaikaiParticipant>)
    ensures |r| == |ps|
    ensures forall i :: 0 <= i < |ps| && ps[i].id == id ==> r[i] == Apply(ps[i], f)
    ensures forall i :: 0 <= i < |ps| && ps[i].id != id ==> r[i] == ps[i]
  {
    seq(|ps|, i requires 0 <= i < |ps| => if ps[i].id == id then Apply(ps[i], f) else ps[i])
  }

  /** The participant as posted: a blank score becomes 0. */
  function ForSaving(p: TaikaiParticipant): (r: TaikaiParticipant)
    ensures r.score1 == Num(Coerce(p.score1)) && r.score2 == Num(Coerce(p.score2))
    ensures r.(score1 := p.score1, score2 := p.score2) == p
  {
    p.(score1 := Num(Coerce(p.score1)), score2 := Num(Coerce(p.score2)))
  }

  function SavePayload(ps: seq<TaikaiParticipant>): (r: seq<TaikaiParticipant>)
    ensures |r| == |ps|
    ensures forall i :: 0 <= i < |ps| ==> r[i] == ForSaving(ps[i])
  {
    seq(|ps|, i requires 0 <= i < |ps| => ForSaving(ps[i]))
  }

  /** The eventDate the page sends: `${year}年`. */
  function EventDate(year: int): string
  {
    IntToString(year) + [Nen]
  }

  /** Every participant's total stays the sum of the scores through add, remove and
      update. */
  lemma AddKeepsTotals(ps: seq<TaikaiParticipant>, id: string)
    requires AllConsistent(ps)
    ensures AllConsistent(ps + [BlankParticipant(id, |ps| + 1)])
  {
  }

  lemma RemoveKeepsTotals(ps: seq<TaikaiParticipant>, id: string)
    requires AllConsistent(ps)
    ensures AllConsistent(Renumber(WithoutId(ps, id)))
  {
    var w := WithoutId(ps, id);
    forall i | 0 <= i < |w|
      ensures TotalConsistent(w[i])
    {
      assert w[i] in w;
    }
  }

  lemma UpdateKeepsTotals(ps: seq<TaikaiParticipant>, id: string, f: Field)
    requires AllConsistent(ps)
    ensures AllConsistent(UpdateWhere(ps, id, f))
  {
  }

  /** Ranks stay 1..n through add, remove and update. */
  lemma EditsKeepRanks(ps: seq<TaikaiParticipant>, id: string, f: Field)
    requires RanksConsecutive(ps)
    ensures RanksConsecutive(ps + [BlankParticipant(id, |ps| + 1)])
    ensures RanksConsecutive(Renumber(WithoutId(ps, id)))
    ensures RanksConsecutive(UpdateWhere(ps, id, f))
  {
  }

  /** A posted list carries no blank score, and where the totals were consistent and
      no score negative, every participant passes the score checks of the tournament
      endpoint. */
  lemma PayloadPassesScoreChecks(ps: seq<TaikaiParticipant>)
    requires AllConsistent(ps)
    requires forall i :: 0 <= i < |ps| ==> Coerce(ps[i].score1) >= 0 && Coerce(ps[i].score2) >= 0
    ensures var r := SavePayload(ps);
      forall i :: 0 <= i < |r| ==>
        && TaikaiRoute.ScoreValid(r[i].score1) && TaikaiRoute.ScoreValid(r[i].score2)
        && r[i].totalScore == r[i].score1.value + r[i].score2.value
  {
  }

  /** The derived eventDate has the shape the endpoint demands exactly for
      four-digit years. */
  lemma EventDateIsYearLabel(year: int)
    ensures TaikaiRoute.IsYearLabel(EventDate(year)) <==> 1000 <= year <= 9999
  {
    var e := EventDate(year);
    if year < 0 {
      NatToStringLength(-year);
      if -year < 1000 {
        assert |e| <= 5;
        if |e| == 5 {
          assert e[0] == '-';
          assert !IsDigit(e[..4][0]);
        }
      } else if -year >= 10000 {
        NatToStringLongAbove(-year);
      }
    } else {
      NatToStringLength(year);
      if year >= 10000 {
        NatToStringLongAbove(year);
      } else {
        assert e[..|e| - 1] == NatToString(year);
      }
    }
  }

  class Editor {
    var year: int
    var taikaiName: string
    var participants: seq<TaikaiParticipant>
    var message: Option<Message>

    /** The page opens on 2025 with no name, no participants and no message. */
    constructor ()
      ensures year == 2025 && taikaiName == "" && participants == [] && message == None
    {
      year := 2025;
      taikaiName := "";
      participants := [];
      message := None;
    }

    /** createNew: no name, no participants, a note naming the year. */
    method CreateNew()
      modifies this
      ensures taikaiName == "" && participants == []
      ensures message == Some(Message(Success, "Creating new data for year " + IntToString(year)))
      ensures year == old(year)
    {
      taikaiName := "";
      participants := [];
      message := Some(Message(Success, "Creating new data for year " + IntToString(year)));
    }

    /** addParticipant: one blank participant ranked one past the end; no cap. */
    method AddParticipant(freshId: string)
      modifies this`participants
      ensures participants == old(participants) + [BlankParticipant(freshId, |old(participants)| + 1)]
      ensures old(AllConsistent(participants)) ==> AllConsistent(participants)
      ensures old(RanksConsecutive(participants)) ==> RanksConsecutive(participants)
    {
      if AllConsistent(participants) {
        AddKeepsTotals(participants, freshId);
      }
      participants := participants + [BlankParticipant(freshId, |participants| + 1)];
    }

    /** removeParticipant: drops the id and renumbers the rest 1..n. */
    method RemoveParticipant(id: string)
      modifies this`participants
      ensures participants == Renumber(WithoutId(old(participants), id))
      ensures RanksConsecutive(participants)
      ensures old(AllConsistent(participants)) ==> AllConsistent(participants)
    {
      if AllConsistent(participants) {
        RemoveKeepsTotals(participants, id);
      }
      participants := Renumber(WithoutId(participants, id));
    }

    /** updateParticipant: one field of the participants with the id; a score change
        recomputes their total. */
    method UpdateParticipant(id: string, f: Field)
      modifies this`participants
      ensures participants == UpdateWhere(old(participants), id, f)
      ensures old(AllConsistent(participants)) ==> AllConsistent(participants)
      ensures old(RanksConsecutive(participants)) ==> RanksConsecutive(participants)
    {
      if AllConsistent(participants) {
        UpdateKeepsTotals(participants, id, f);
      }
      participants := UpdateWhere(participants, id, f);
    }

    /** handleSave up to the request: a name that trims to nothing, then an empty
        list, is refused with an error and nothing is sent; otherwise the message is
        cleared and the tournament is posted with blank scores as 0 and the year as
        its event date. */
    method HandleSave() returns (request: Option<SaveRequest>)
      modifies this`message
      ensures IsBlank(taikaiName) ==> request == None && message == Some(Message(Error, NameRequired))
      ensures !IsBlank(taikaiName) && participants == [] ==>
        request == None && message == Some(Message(Error, NoParticipants))
      ensures !IsBlank(taikaiName) && participants != [] ==>
        request == Some(SaveRequest(year, taikaiName, EventDate(year), SavePayload(participants))) && message == None
    {
      message := None;
      TrimEmptyIffBlank(taikaiName);
      if |JsTrim(taikaiName)| == 0 {
        message := Some(Message(Error, NameRequired));
        return None;
      }
      if |participants| == 0 {
        message := Some(Message(Error, NoParticipants));
        return None;
      }
      request := Some(SaveRequest(year, taikaiName, EventDate(year), SavePayload(participants)));
    }
  }
}
