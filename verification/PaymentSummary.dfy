/** The derived payment status of an agreement: never stored, recomputed from its rows. */
module PaymentSummary {
  import opened Basics
  import opened Sums

  datatype Status = NotDue | Unpaid | PartiallyPaid | Paid

  /** One participant: agreed, paid (reversed payments excluded), and the row counts. */
  datatype Line = Line(member: int, agreed: int, paid: int, payments: nat, active: nat)

  datatype ParticipantSummary =
    ParticipantSummary(member: int, agreed: int, paid: int, pending: int, status: Status)

  datatype Summary = Summary(
    status: Status, agreed: int, paid: int, pending: int,
    hasPayments: bool, payments: nat, active: nat,
    participants: seq<ParticipantSummary>)

  datatype Failure = Overpaid | UnsafeSum

  const MAX_SAFE_INTEGER := 9_007_199_254_740_991

  predicate Safe(value: int) { -MAX_SAFE_INTEGER <= value <= MAX_SAFE_INTEGER }

  /** Throws on an overpaid participant: that would be corrupted data. */
  function ParticipantStatus(agreed: int, paid: int): Result<Status, Failure> {
    if paid > agreed then Err(Overpaid)
    else if agreed == 0 then Ok(NotDue)
    else if paid == 0 then Ok(Unpaid)
    else Ok(if paid == agreed then Paid else PartiallyPaid)
  }

  function Participants(lines: seq<Line>): Result<seq<ParticipantSummary>, Failure> {
    if lines == [] then Ok([]) else
      var l := lines[0];
      match ParticipantStatus(l.agreed, l.paid)
      case Err(e) => Err(e)
      case Ok(status) =>
        match Participants(lines[1..])
        case Err(e) => Err(e)
        case Ok(rest) => Ok([ParticipantSummary(l.member, l.agreed, l.paid, l.agreed - l.paid, status)] + rest)
  }

  function AgreedOf(lines: seq<Line>): int { SumOf(lines, (l: Line) => l.agreed) }

  function PaidOf(lines: seq<Line>): int { SumOf(lines, (l: Line) => l.paid) }

  function CountOf(lines: seq<Line>, active: bool): nat {
    if lines == [] then 0 else (if active then lines[0].active else lines[0].payments) + CountOf(lines[1..], active)
  }

  predicate EveryDueIs(ps: seq<ParticipantSummary>, status: Status) {
    forall i :: 0 <= i < |ps| && ps[i].agreed > 0 ==> ps[i].status == status
  }

  function AggregateStatus(ps: seq<ParticipantSummary>): Status {
    if forall i :: 0 <= i < |ps| ==> ps[i].agreed <= 0 then NotDue
    else if EveryDueIs(ps, Paid) then Paid
    else if EveryDueIs(ps, Unpaid) then Unpaid
    else PartiallyPaid
  }

  function BuildSummary(lines: seq<Line>): Result<Summary, Failure> {
    match Participants(lines)
    case Err(e) => Err(e)
    case Ok(ps) =>
      var agreed, paid := AgreedOf(lines), PaidOf(lines);
      if !Safe(agreed) || !Safe(paid) || !Safe(agreed - paid) then Err(UnsafeSum)
      else
        var payments := CountOf(lines, false);
        Ok(Summary(AggregateStatus(ps), agreed, paid, agreed - paid,
                   payments > 0, payments, CountOf(lines, true), ps))
  }

  // ----- what the status means ---------------------------------------------------------

  ghost predicate WithinAgreed(lines: seq<Line>) {
    forall i :: 0 <= i < |lines| ==> 0 <= lines[i].paid <= lines[i].agreed
  }

  /** The summary throws "overpaid" exactly when some line is. */
  lemma {:induction false} ThrowsExactlyWhenOverpaid(lines: seq<Line>)
    ensures Participants(lines).Ok? <==> forall i :: 0 <= i < |lines| ==> lines[i].paid <= lines[i].agreed
    ensures Participants(lines).Err? ==> Participants(lines).error == Overpaid
    ensures Participants(lines).Ok? ==>
              var ps := Participants(lines).value;
              |ps| == |lines| && forall i :: 0 <= i < |ps| ==>
                ps[i].member == lines[i].member && ps[i].agreed == lines[i].agreed && ps[i].paid == lines[i].paid
                && ps[i].pending == lines[i].agreed - lines[i].paid
                && ParticipantStatus(lines[i].agreed, lines[i].paid) == Ok(ps[i].status)
  {
    if lines != [] {
      ThrowsExactlyWhenOverpaid(lines[1..]);
      var rest := lines[1..];
      assert forall i :: 0 <= i < |rest| ==> rest[i] == lines[i + 1];
      assert forall i :: 1 <= i < |lines| ==> lines[i] == rest[i - 1];
      if Participants(lines).Ok? {
        assert Participants(lines).value[1..] == Participants(rest).value;
      }
    }
  }

  lemma {:induction false} SumsOfWithin(lines: seq<Line>)
    requires WithinAgreed(lines)
    ensures 0 <= PaidOf(lines) <= AgreedOf(lines)
    ensures AgreedOf(lines) == 0 <==> forall i :: 0 <= i < |lines| ==> lines[i].agreed == 0
    ensures PaidOf(lines) == 0 <==> forall i :: 0 <= i < |lines| ==> lines[i].paid == 0
    ensures PaidOf(lines) == AgreedOf(lines) <==> forall i :: 0 <= i < |lines| ==> lines[i].paid == lines[i].agreed
  {
    if lines != [] {
      var rest := lines[1..];
      assert WithinAgreed(rest);
      SumsOfWithin(rest);
      assert AgreedOf(lines) == lines[0].agreed + AgreedOf(rest);
      assert PaidOf(lines) == lines[0].paid + PaidOf(rest);
      assert forall i :: 1 <= i < |lines| ==> lines[i] == rest[i - 1];
      assert forall i :: 0 <= i < |rest| ==> rest[i] == lines[i + 1];
    }
  }

  /**
   * Once nobody is overpaid, the aggregate status says exactly how much of the agreed
   * amount is paid: nothing due, nothing pending, nothing paid, or in between.
   */
  lemma AggregateStatusMeansAmounts(lines: seq<Line>)
    requires WithinAgreed(lines) && BuildSummary(lines).Ok?
    ensures var s := BuildSummary(lines).value;
            && (s.status == NotDue <==> s.agreed == 0)
            && (s.status == Paid <==> s.agreed > 0 && s.pending == 0)
            && (s.status == Unpaid <==> s.agreed > 0 && s.paid == 0)
            && (s.status == PartiallyPaid <==> 0 < s.paid < s.agreed)
  {
    ThrowsExactlyWhenOverpaid(lines);
    SumsOfWithin(lines);
    var s := BuildSummary(lines).value;
    var ps := s.participants;
    if s.agreed == 0 {
      assert s.status == NotDue;
    } else {
      var k :| 0 <= k < |lines| && lines[k].agreed != 0;
      assert ps[k].agreed > 0;
      assert EveryDueIs(ps, Paid) <==> s.paid == s.agreed by {
        if s.paid != s.agreed {
          var j :| 0 <= j < |lines| && lines[j].paid != lines[j].agreed;
          assert ps[j].agreed > 0 && ps[j].status != Paid;
        }
        if EveryDueIs(ps, Paid) {
          forall i | 0 <= i < |lines| ensures lines[i].paid == lines[i].agreed {
            assert ps[i].agreed > 0 ==> ps[i].status == Paid;
          }
        }
      }
      assert EveryDueIs(ps, Unpaid) <==> s.paid == 0 by {
        if s.paid != 0 {
          var j :| 0 <= j < |lines| && lines[j].paid != 0;
          assert ps[j].agreed > 0 && ps[j].status != Unpaid;
        }
      }
    }
  }

  // ----- what the summary adds up -------------------------------------------------------

  /** Agreed, paid, payments written and payments active, line by line. */
  datatype Tally = Tally(agreed: int, paid: int, payments: int, active: int)

  ghost function TallyOf(lines: seq<Line>): Tally {
    if lines == [] then Tally(0, 0, 0, 0) else
      var t, l := TallyOf(lines[..|lines| - 1]), lines[|lines| - 1];
      Tally(t.agreed + l.agreed, t.paid + l.paid, t.payments + l.payments, t.active + l.active)
  }

  lemma {:induction false} CountsAppend(lines: seq<Line>, l: Line, active: bool)
    ensures CountOf(lines + [l], active) == CountOf(lines, active) + if active then l.active else l.payments
  {
    if lines == [] {
      assert (lines + [l])[1..] == [];
    } else {
      CountsAppend(lines[1..], l, active);
      assert (lines + [l])[1..] == lines[1..] + [l];
    }
  }

  lemma {:induction false} SumsAreTallied(lines: seq<Line>)
    ensures Tally(AgreedOf(lines), PaidOf(lines), CountOf(lines, false), CountOf(lines, true)) == TallyOf(lines)
  {
    if lines != [] {
      var before, l := lines[..|lines| - 1], lines[|lines| - 1];
      assert lines == before + [l];
      SumsAreTallied(before);
      SumAppend(before, [l], (l: Line) => l.agreed);
      SumAppend(before, [l], (l: Line) => l.paid);
      CountsAppend(before, l, false);
      CountsAppend(before, l, true);
    }
  }

  ghost predicate InRange(t: Tally) {
    && -9007199254740991 <= t.agreed <= 9007199254740991 && -9007199254740991 <= t.paid <= 9007199254740991
    && -9007199254740991 <= t.agreed - t.paid <= 9007199254740991
  }

  /** The participant's part: the remainder, and a status that tells the amounts. */
  ghost predicate TellsLine(p: ParticipantSummary, l: Line) {
    && p.member == l.member && p.agreed == l.agreed && p.paid == l.paid && p.pending == l.agreed - l.paid
    && (p.status == NotDue <==> l.agreed == 0)
    && (p.status == Unpaid <==> l.agreed != 0 && l.paid == 0)
    && (p.status == Paid <==> l.agreed != 0 && l.paid != 0 && l.paid == l.agreed)
    && (p.status == PartiallyPaid <==> l.agreed != 0 && l.paid != 0 && l.paid < l.agreed)
  }

  /** When a summary is built, when it fails and how, and every number in it. */
  lemma SummaryTellsTheLines(lines: seq<Line>)
    ensures BuildSummary(lines) == Err(Overpaid) <==> exists i :: 0 <= i < |lines| && lines[i].paid > lines[i].agreed
    ensures BuildSummary(lines).Ok? <==> InRange(TallyOf(lines)) && forall i :: 0 <= i < |lines| ==> lines[i].paid <= lines[i].agreed
    ensures BuildSummary(lines).Ok? ==>
              var s, t := BuildSummary(lines).value, TallyOf(lines);
              && s.agreed == t.agreed && s.paid == t.paid && s.pending == t.agreed - t.paid
              && s.payments == t.payments && s.active == t.active && (s.hasPayments <==> t.payments != 0)
              && |s.participants| == |lines| && forall i :: 0 <= i < |lines| ==> TellsLine(s.participants[i], lines[i])
  {
    ThrowsExactlyWhenOverpaid(lines);
    SumsAreTallied(lines);
    hide Participants, AgreedOf, PaidOf, CountOf, TallyOf, AggregateStatus;
  }
}
