/** The score boxes of the participant form (components/admin/ParticipantForm.tsx):
    what a keystroke in a score box hands to the tournament editor. */
module ParticipantForm {
  import opened Common
  import opened Types
  import opened TaikaiEditor

  datatype ScoreSlot = Score1 | Score2

  /** The onUpdate call: participant id and field with its value. */
  datatype Update = Update(id: string, field: Field)

  function SlotField(slot: ScoreSlot, s: Score): Field
  {
    match slot
    case Score1 => Score1Field(s)
    case Score2 => Score2Field(s)
  }

  /** /^\d{1,3}$/: one to three ASCII digits and nothing else. */
  predicate ScoreText(v: string)
  {
    1 <= |v| <= 3 && AllDigits(v)
  }

  /** Math.min(Math.max(n, 0), 999). */
  function Clamp(n: int): (r: int)
    ensures 0 <= r <= 999
    ensures 0 <= n <= 999 ==> r == n
    ensures n < 0 ==> r == 0
    ensures n > 999 ==> r == 999
  {
    var lo := if n > 0 then n else 0;
    if lo < 999 then lo else 999
  }

  /** handleScoreChange: None when onUpdate is not called. */
  function HandleScoreChange(participantId: string, slot: ScoreSlot, value: string): (u: Option<Update>)
    ensures value == "" ==> u == Some(Update(participantId, SlotField(slot, Blank)))
    ensures value != "" && !ScoreText(value) ==> u == None
    ensures ScoreText(value) ==> u == Some(Update(participantId, SlotField(slot, Num(DigitsValue(value)))))
  {
    if value == "" then Some(Update(participantId, SlotField(slot, Blank)))
    else if !ScoreText(value) then None
    else
      ParseIntOfDigits(value, true);
      var numValue := ParseInt(value, true).value;
      assert DigitsValue(value) <= 999 by { ThreeDigitsBound(value); }
      Some(Update(participantId, SlotField(slot, Num(Clamp(numValue)))))
  }

  /** Three decimal digits are at most 999. */
  lemma {:induction false} ThreeDigitsBound(v: string)
    requires AllDigits(v) && |v| <= 3
    ensures DigitsValue(v) < Pow10(|v|)
  {
    if v != [] {
      ThreeDigitsBound(v[..|v| - 1]);
    }
  }

  function Pow10(k: nat): nat
  {
    if k == 0 then 1 else 10 * Pow10(k - 1)
  }

  /** Every score the form forwards is blank or a whole number in 0..999, and it goes
      to the form's own participant and the box's own field. */
  lemma ForwardedScoreInRange(participantId: string, slot: ScoreSlot, value: string)
    ensures var u := HandleScoreChange(participantId, slot, value);
      u.Some? ==> && u.value.id == participantId
                  && (slot.Score1? ==> u.value.field.Score1Field?)
                  && (slot.Score2? ==> u.value.field.Score2Field?)
                  && (u.value.field.Score1Field? ==> ScoreInRange(u.value.field.s1))
                  && (u.value.field.Score2Field? ==> ScoreInRange(u.value.field.s2))
  {
    if ScoreText(value) {
      ThreeDigitsBound(value);
    }
  }

  predicate ScoreInRange(s: Score)
  {
    s.Num? ==> 0 <= s.value <= 999
  }

  /** A keystroke the form forwards keeps every total in the editor the sum of the
      scores, and leaves no negative score. */
  lemma KeystrokeKeepsTotals(ps: seq<TaikaiParticipant>, participantId: string, slot: ScoreSlot, value: string)
    requires AllConsistent(ps)
    requires forall i :: 0 <= i < |ps| ==> Coerce(ps[i].score1) >= 0 && Coerce(ps[i].score2) >= 0
    requires HandleScoreChange(participantId, slot, value).Some?
    ensures var u := HandleScoreChange(participantId, slot, value).value;
      var r := UpdateWhere(ps, u.id, u.field);
      AllConsistent(r) && forall i :: 0 <= i < |r| ==> Coerce(r[i].score1) >= 0 && Coerce(r[i].score2) >= 0
  {
    var u := HandleScoreChange(participantId, slot, value).value;
    UpdateKeepsTotals(ps, u.id, u.field);
  }
}
