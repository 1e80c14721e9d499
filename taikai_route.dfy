/** The admin endpoint that saves a tournament (app/api/admin/taikai/route.ts): the
    validator of the submitted body and the authenticate / validate / save gating of
    POST. The body is typed: numbers are integers, text fields are strings, a score
    is a number or "" (Blank), and `participants` is None when the body's
    participants are not an array. */
module TaikaiRoute {
  import opened Common
  import opened Types
  import TaikaiStore

  /** The event date pattern /^\d{4}年$/. */
  predicate IsYearLabel(s: string)
  {
    |s| == 5 && AllDigits(s[..4]) && s[4] == Nen
  }

  lemma IsYearLabelIff(s: string)
    ensures IsYearLabel(s) <==> exists y: string :: |y| == 4 && AllDigits(y) && s == y + [Nen]
  {
    if IsYearLabel(s) {
      assert s == s[..4] + [Nen];
    }
  }

  /** "Participant n: " for the participant at index i (numbered from 1). */
  function ParticipantLabel(i: nat): string
  {
    "Participant " + NatToString(i + 1) + ": "
  }

  /** A score the route accepts: a number, not negative. */
  predicate ScoreValid(s: Score)
  {
    s.Num? && s.value >= 0
  }

  /** The per-participant conditions, apart from rank uniqueness. */
  predicate ParticipantFieldsValid(p: TaikaiParticipant)
  {
    && p.id != ""
    && p.rank >= 1
    && p.name != "" && JsLength(p.name) <= 50
    && JsLength(p.rankTitle) <= 20
    && ScoreValid(p.score1) && ScoreValid(p.score2)
    && p.totalScore == p.score1.value + p.score2.value
  }

  /** The checks of one loop iteration, in order; `ranks` holds the ranks of the
      participants before it. A failure names the participant. */
  function CheckParticipant(i: nat, p: TaikaiParticipant, ranks: set<int>): (r: Outcome)
    ensures r.Pass? <==> ParticipantFieldsValid(p) && p.rank !in ranks
    ensures r.Fail? ==> StartsWith(r.error, ParticipantLabel(i))
  {
    var tag := ParticipantLabel(i);
    if p.id == "" then Fail(Tagged(tag, "Invalid ID"))
    else if p.rank < 1 then Fail(Tagged(tag, "Rank must be a positive integer"))
    else if p.rank in ranks then Fail(Tagged(tag, "Duplicate rank " + IntToString(p.rank)))
    else if p.name == "" then Fail(Tagged(tag, "Name is required"))
    else if JsLength(p.name) > 50 then Fail(Tagged(tag, "Name must be max 50 characters"))
    else if JsLength(p.rankTitle) > 20 then Fail(Tagged(tag, "Rank title must be max 20 characters"))
    else if !ScoreValid(p.score1) then Fail(Tagged(tag, "Score 1 must be a non-negative number"))
    else if !ScoreValid(p.score2) then Fail(Tagged(tag, "Score 2 must be a non-negative number"))
    else if p.totalScore != p.score1.value + p.score2.value then
      Fail(Tagged(tag, "Total score mismatch (expected " + IntToString(p.score1.value + p.score2.value)
           + ", got " + IntToString(p.totalScore) + ")"))
    else Pass
  }

  /** The ranks of a list of participants. */
  function RanksOf(ps: seq<TaikaiParticipant>): (r: set<int>)
    ensures forall k :: k in r <==> exists i :: 0 <= i < |ps| && ps[i].rank == k
  {
    if ps == [] then {}
    else
      var init := ps[..|ps| - 1];
      assert forall i :: 0 <= i < |init| ==> init[i] == ps[i];
      RanksOf(init) + {ps[|ps| - 1].rank}
  }

  /** The loop from index i on, with the ranks seen so far: the first failing check. */
  function CheckParticipantsFrom(ps: seq<TaikaiParticipant>, i: nat, ranks: set<int>): Outcome
    decreases |ps| - i
  {
    if i >= |ps| then Pass
    else
      var c := CheckParticipant(i, ps[i], ranks);
      if c.Fail? then c else CheckParticipantsFrom(ps, i + 1, ranks + {ps[i].rank})
  }

  /** validateTaikaiData: year, name, event date, participant list, then every
      participant in order. */
  function ValidateTaikai(year: int, taikaiName: string, eventDate: string, participants: Option<seq<TaikaiParticipant>>): Outcome
  {
    if year < 2000 || year > 2100 then Fail("Year must be between 2000 and 2100")
    else if taikaiName == "" || |JsTrim(taikaiName)| == 0 then Fail("Tournament name is required")
    else if JsLength(taikaiName) > 50 then Fail("Tournament name must be max 50 characters")
    else if !IsYearLabel(eventDate) then Fail("Event date format must be YYYY年")
    else if participants.None? || |participants.value| == 0 then Fail("At least one participant is required")
    else CheckParticipantsFrom(participants.value, 0, {})
  }

  /** What a valid submission is, stated declaratively. There is no upper bound on
      the number of participants. */
  ghost predicate ValidSubmission(year: int, taikaiName: string, eventDate: string, participants: Option<seq<TaikaiParticipant>>)
  {
    && 2000 <= year <= 2100
    && !IsBlank(taikaiName) && JsLength(taikaiName) <= 50
    && IsYearLabel(eventDate)
    && participants.Some? && |participants.value| >= 1
    && (forall i :: 0 <= i < |participants.value| ==> ParticipantFieldsValid(participants.value[i]))
    && (forall i, j :: 0 <= i < j < |participants.value| ==> participants.value[i].rank != participants.value[j].rank)
  }

  /** Every participant from index i on has valid fields and a rank outside `ranks`. */
  predicate RestValid(ps: seq<TaikaiParticipant>, i: nat, ranks: set<int>)
  {
    forall k :: i <= k < |ps| ==> ParticipantFieldsValid(ps[k]) && ps[k].rank !in ranks
  }

  /** The participants from index i on have pairwise distinct ranks. */
  predicate RestDistinct(ps: seq<TaikaiParticipant>, i: nat)
  {
    forall k, l :: i <= k < l < |ps| ==> ps[k].rank != ps[l].rank
  }

  /** Peeling the participant at index i off the two conditions. */
  lemma RestStep(ps: seq<TaikaiParticipant>, i: nat, ranks: set<int>)
    requires i < |ps|
    ensures RestValid(ps, i, ranks) && RestDistinct(ps, i) <==>
      && ParticipantFieldsValid(ps[i]) && ps[i].rank !in ranks
      && RestValid(ps, i + 1, ranks + {ps[i].rank})
      && RestDistinct(ps, i + 1)
  {
    if ParticipantFieldsValid(ps[i]) && ps[i].rank !in ranks
      && RestValid(ps, i + 1, ranks + {ps[i].rank}) && RestDistinct(ps, i + 1)
    {
      forall k, l | i <= k < l < |ps|
        ensures ps[k].rank != ps[l].rank
      {
        if k == i {
          assert ps[l].rank !in ranks + {ps[i].rank};
        }
      }
    }
  }

  lemma {:induction false} CheckParticipantsFromPass(ps: seq<TaikaiParticipant>, i: nat, ranks: set<int>)
    requires i <= |ps|
    ensures CheckParticipantsFrom(ps, i, ranks).Pass? <==> RestValid(ps, i, ranks) && RestDistinct(ps, i)
    decreases |ps| - i
  {
    if i < |ps| {
      CheckParticipantsFromPass(ps, i + 1, ranks + {ps[i].rank});
      RestStep(ps, i, ranks);
    }
  }

  /** A submission passes validation exactly when it is a valid submission. */
  lemma ValidateTaikaiIff(year: int, taikaiName: string, eventDate: string, participants: Option<seq<TaikaiParticipant>>)
    ensures ValidateTaikai(year, taikaiName, eventDate, participants).Pass?
        <==> ValidSubmission(year, taikaiName, eventDate, participants)
  {
    TrimEmptyIffBlank(taikaiName);
    if participants.Some? {
      CheckParticipantsFromPass(participants.value, 0, {});
    }
  }

  /** The ranks of one more participant. */
  lemma RanksOfSnoc(ps: seq<TaikaiParticipant>, i: nat)
    requires i < |ps|
    ensures RanksOf(ps[..i + 1]) == RanksOf(ps[..i]) + {ps[i].rank}
  {
    assert ps[..i + 1][..i] == ps[..i];
  }

  /** Every participant from index i up to n passes its checks. */
  predicate PassBetween(ps: seq<TaikaiParticipant>, i: nat, n: nat)
    requires n <= |ps|
  {
    forall j :: i <= j < n ==> CheckParticipant(j, ps[j], RanksOf(ps[..j])).Pass?
  }

  /** A failing run from index i names the first participant at or after i that fails. */
  lemma {:induction false} FirstFailureFrom(ps: seq<TaikaiParticipant>, i: nat) returns (n: nat)
    requires i <= |ps|
    requires CheckParticipantsFrom(ps, i, RanksOf(ps[..i])).Fail?
    ensures i <= n < |ps| && PassBetween(ps, i, n)
    ensures CheckParticipant(n, ps[n], RanksOf(ps[..n])) == CheckParticipantsFrom(ps, i, RanksOf(ps[..i]))
    decreases |ps| - i
  {
    var c := CheckParticipant(i, ps[i], RanksOf(ps[..i]));
    if c.Pass? {
      RanksOfSnoc(ps, i);
      n := FirstFailureFrom(ps, i + 1);
      assert PassBetween(ps, i, n) by {
        assert PassBetween(ps, i + 1, n);
      }
    } else {
      n := i;
    }
  }

  /** When the participants are at fault, the error is that of the first participant
      failing a check, every earlier one having passed; the message names it. */
  lemma FirstFailingParticipantReported(year: int, taikaiName: string, eventDate: string, participants: Option<seq<TaikaiParticipant>>)
    requires 2000 <= year <= 2100 && !IsBlank(taikaiName) && JsLength(taikaiName) <= 50 && IsYearLabel(eventDate)
    requires participants.Some? && |participants.value| >= 1
    requires ValidateTaikai(year, taikaiName, eventDate, participants).Fail?
    ensures exists n :: (0 <= n < |participants.value|
      && (forall j :: 0 <= j < n ==> CheckParticipant(j, participants.value[j], RanksOf(participants.value[..j])).Pass?)
      && ValidateTaikai(year, taikaiName, eventDate, participants)
           == CheckParticipant(n, participants.value[n], RanksOf(participants.value[..n]))
      && StartsWith(ValidateTaikai(year, taikaiName, eventDate, participants).error, ParticipantLabel(n)))
  {
    TrimEmptyIffBlank(taikaiName);
    assert participants.value[..0] == [];
    var n := FirstFailureFrom(participants.value, 0);
    assert PassBetween(participants.value, 0, n);
  }

  /** Every year the route accepts, the library accepts. */
  lemma RouteYearsWithinLibrary(year: int, taikaiName: string, eventDate: string, participants: Option<seq<TaikaiParticipant>>)
    requires ValidateTaikai(year, taikaiName, eventDate, participants).Pass?
    ensures TaikaiStore.ValidYear(year)
  {
  }

  /** The converse fails: the library accepts 1950, which the route refuses. */
  lemma LibraryAcceptsEarlierYears(taikaiName: string, eventDate: string, participants: Option<seq<TaikaiParticipant>>)
    ensures TaikaiStore.ValidYear(1950)
    ensures ValidateTaikai(1950, taikaiName, eventDate, participants) == Fail("Year must be between 2000 and 2100")
  {
  }

  /** validateTaikaiData as written: a loop over the participants that keeps the set
      of ranks seen and returns at the first failing check. */
  method ValidateTaikaiData(year: int, taikaiName: string, eventDate: string, participants: Option<seq<TaikaiParticipant>>)
    returns (v: Outcome)
    ensures v == ValidateTaikai(year, taikaiName, eventDate, participants)
  {
    if year < 2000 || year > 2100 {
      return Fail("Year must be between 2000 and 2100");
    }
    if taikaiName == "" || |JsTrim(taikaiName)| == 0 {
      return Fail("Tournament name is required");
    }
    if JsLength(taikaiName) > 50 {
      return Fail("Tournament name must be max 50 characters");
    }
    if !IsYearLabel(eventDate) {
      return Fail("Event date format must be YYYY年");
    }
    if participants.None? || |participants.value| == 0 {
      return Fail("At least one participant is required");
    }
    var ps := participants.value;
    var ranks: set<int> := {};
    var i := 0;
    while i < |ps|
      invariant 0 <= i <= |ps|
      invariant ranks == RanksOf(ps[..i])
      invariant CheckParticipantsFrom(ps, 0, {}) == CheckParticipantsFrom(ps, i, ranks)
    {
      var c := ValidateParticipant(i, ps[i], ranks);
      if c.Fail? {
        return c;
      }
      RanksOfSnoc(ps, i);
      ranks := ranks + {ps[i].rank};
      i := i + 1;
    }
    return Pass;
  }

  /** The body of the validator's loop for the participant at index i. */
  method ValidateParticipant(i: nat, p: TaikaiParticipant, ranks: set<int>) returns (v: Outcome)
    ensures v == CheckParticipant(i, p, ranks)
  {
    var tag := ParticipantLabel(i);
    if p.id == "" {
      return Fail(Tagged(tag, "Invalid ID"));
    }
    if p.rank < 1 {
      return Fail(Tagged(tag, "Rank must be a positive integer"));
    }
    if p.rank in ranks {
      return Fail(Tagged(tag, "Duplicate rank " + IntToString(p.rank)));
    }
    if p.name == "" {
      return Fail(Tagged(tag, "Name is required"));
    }
    if JsLength(p.name) > 50 {
      return Fail(Tagged(tag, "Name must be max 50 characters"));
    }
    if JsLength(p.rankTitle) > 20 {
      return Fail(Tagged(tag, "Rank title must be max 20 characters"));
    }
    if !ScoreValid(p.score1) {
      return Fail(Tagged(tag, "Score 1 must be a non-negative number"));
    }
    if !ScoreValid(p.score2) {
      return Fail(Tagged(tag, "Score 2 must be a non-negative number"));
    }
    var expectedTotal := p.score1.value + p.score2.value;
    if p.totalScore != expectedTotal {
      return Fail(Tagged(tag, "Total score mismatch (expected " + IntToString(expectedTotal) + ", got " + IntToString(p.totalScore) + ")"));
    }
    return Pass;
  }

  // ---------------------------------------------------------------------------
  // POST

  /** A JSON response: HTTP status, the success flag and the error or message text. */
  datatype Response = Response(status: int, success: bool, text: string)

  /** The record POST hands to saveTaikaiData: both stamps empty, to be set by the save. */
  function Submitted(year: int, taikaiName: string, eventDate: string, participants: seq<TaikaiParticipant>): TaikaiData
  {
    TaikaiData(year, taikaiName, eventDate, participants, "", "")
  }

  /** POST: no session gives 401, an invalid body 400 with the validator's error;
      neither touches the store. A valid body is saved and answered with 200. */
  method PostTaikai(store: TaikaiStore.Store, authenticated: bool, year: int, taikaiName: string, eventDate: string,
                    participants: Option<seq<TaikaiParticipant>>, now: string) returns (resp: Response)
    modifies store
    ensures !authenticated ==> resp == Response(401, false, "Authentication required")
    ensures authenticated && ValidateTaikai(year, taikaiName, eventDate, participants).Fail? ==>
      resp == Response(400, false, ValidateTaikai(year, taikaiName, eventDate, participants).error)
    ensures !authenticated || ValidateTaikai(year, taikaiName, eventDate, participants).Fail? ==>
      store.records == old(store.records) && store.archives == old(store.archives) && store.lastUpdated == old(store.lastUpdated)
    ensures authenticated && ValidateTaikai(year, taikaiName, eventDate, participants).Pass? ==>
      && resp == Response(200, true, "Tournament data saved for year " + IntToString(year))
      && store.records == old(store.records)[year :=
           TaikaiStore.SavedTaikai(old(store.records), year, Submitted(year, taikaiName, eventDate, participants.value), now)]
      && store.archives == TaikaiStore.SavedTaikaiIndex(old(store.archives),
           TaikaiStore.TaikaiMetadataOf(TaikaiStore.SavedTaikai(old(store.records), year,
             Submitted(year, taikaiName, eventDate, participants.value), now)))
      && store.lastUpdated == now
  {
    if !authenticated {
      return Response(401, false, "Authentication required");
    }
    var validation := ValidateTaikaiData(year, taikaiName, eventDate, participants);
    if validation.Fail? {
      return Response(400, false, validation.error);
    }
    var saved := store.SaveTaikaiData(year, Submitted(year, taikaiName, eventDate, participants.value), true, now);
    resp := Response(200, true, "Tournament data saved for year " + IntToString(year));
  }
}
