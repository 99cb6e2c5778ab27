/**
 * The status changes that need no conflict walk: `reject_booking`, `delete_booking`
 * and `cancel_booking`. None of them can make a booking Approved, so none can
 * create a double booking.
 */
module Transitions {
  import opened Basics
  import opened Accounts
  import opened Bookings

  /** `reject_booking`: an admin sets a booking to Rejected, whatever its status was. */
  function RejectOutcome(users: map<UserId, User>, rows: seq<Booking>, actorId: UserId,
                         bookingId: BookingId): Outcome<()>
  {
    if AdminGate(users, actorId).Some? then Outcome(Err(AdminGate(users, actorId).value), rows)
    else match Find(rows, bookingId)
      case None => Outcome(Err(NotFound), rows)
      case Some(x) => Outcome(Ok(()), rows[x := rows[x].(status := Rejected)])
  }

  /** `delete_booking`: an admin, or the booking's owner, removes the row. */
  function DeleteBookingOutcome(users: map<UserId, User>, rows: seq<Booking>, actorId: UserId,
                                bookingId: BookingId): Outcome<()>
  {
    match SessionUser(users, actorId)
    case None => Outcome(Err(LoginRequired), rows)
    case Some(u) =>
      match Find(rows, bookingId)
      case None => Outcome(Err(NotFound), rows)
      case Some(x) =>
        if u.role != Admin && rows[x].owner != actorId then Outcome(Err(NotOwner), rows)
        else Outcome(Ok(()), rows[..x] + rows[x + 1..])
  }

  /**
   * `cancel_booking`: admin, faculty or the owner cancel an Approved booking that is
   * not dated before `today` (the server's current date, passed in).
   */
  function CancelOutcome(users: map<UserId, User>, rows: seq<Booking>, actorId: UserId,
                         bookingId: BookingId, today: Date): Outcome<()>
  {
    match SessionUser(users, actorId)
    case None => Outcome(Err(LoginRequired), rows)
    case Some(u) =>
      match Find(rows, bookingId)
      case None => Outcome(Err(NotFound), rows)
      case Some(x) =>
        if !Privileged(u.role) && rows[x].owner != actorId then Outcome(Err(NotOwner), rows)
        else if rows[x].status != Approved then Outcome(Err(NotApproved), rows)
        else if rows[x].date < today then Outcome(Err(PastDate), rows)
        else Outcome(Ok(()), rows[x := rows[x].(status := Cancelled)])
  }

  // ---------------------------------------------------------------------------
  // Invariants
  // ---------------------------------------------------------------------------

  /** Replacing a row by one with the same key and owner that is not Approved keeps both table invariants. */
  lemma WithdrawKeepsInvariants(users: map<UserId, User>, rows: seq<Booking>, x: nat, b: Booking)
    requires WellFormed(users, rows) && NoDoubleBooking(rows) && x < |rows|
    requires b.id == rows[x].id && b.owner == rows[x].owner && b.status != Approved
    ensures WellFormed(users, rows[x := b]) && NoDoubleBooking(rows[x := b])
  {
    var after := rows[x := b];
    forall i, j | 0 <= i < |after| && 0 <= j < |after| && i != j
      ensures !Clash(after[i], after[j])
    {
      if i != x && j != x {
        assert !Clash(rows[i], rows[j]);
      }
    }
    forall i, j | 0 <= i < j < |after|
      ensures after[i].id < after[j].id
    {
      assert rows[i].id < rows[j].id;
    }
  }

  /** Removing a row keeps both table invariants. */
  lemma RemoveKeepsInvariants(users: map<UserId, User>, rows: seq<Booking>, x: nat)
    requires WellFormed(users, rows) && NoDoubleBooking(rows) && x < |rows|
    ensures WellFormed(users, rows[..x] + rows[x + 1..]) && NoDoubleBooking(rows[..x] + rows[x + 1..])
  {
    var after := rows[..x] + rows[x + 1..];
    assert forall i :: 0 <= i < |after| ==> after[i] == rows[if i < x then i else i + 1];
    forall i, j | 0 <= i < |after| && 0 <= j < |after| && i != j
      ensures !Clash(after[i], after[j])
    {
      var i', j' := if i < x then i else i + 1, if j < x then j else j + 1;
      assert !Clash(rows[i'], rows[j']);
    }
  }

  lemma RejectKeepsInvariants(users: map<UserId, User>, rows: seq<Booking>, actorId: UserId, bookingId: BookingId)
    requires WellFormed(users, rows) && NoDoubleBooking(rows)
    ensures var o := RejectOutcome(users, rows, actorId, bookingId);
            WellFormed(users, o.rows) && NoDoubleBooking(o.rows)
  {
    if AdminGate(users, actorId).None? && Find(rows, bookingId).Some? {
      var x := Find(rows, bookingId).value;
      WithdrawKeepsInvariants(users, rows, x, rows[x].(status := Rejected));
    }
  }

  lemma DeleteBookingKeepsInvariants(users: map<UserId, User>, rows: seq<Booking>, actorId: UserId,
                                     bookingId: BookingId)
    requires WellFormed(users, rows) && NoDoubleBooking(rows)
    ensures var o := DeleteBookingOutcome(users, rows, actorId, bookingId);
            WellFormed(users, o.rows) && NoDoubleBooking(o.rows)
  {
    if Find(rows, bookingId).Some? {
      RemoveKeepsInvariants(users, rows, Find(rows, bookingId).value);
    }
  }

  lemma CancelKeepsInvariants(users: map<UserId, User>, rows: seq<Booking>, actorId: UserId,
                              bookingId: BookingId, today: Date)
    requires WellFormed(users, rows) && NoDoubleBooking(rows)
    ensures var o := CancelOutcome(users, rows, actorId, bookingId, today);
            WellFormed(users, o.rows) && NoDoubleBooking(o.rows)
  {
    if Find(rows, bookingId).Some? {
      var x := Find(rows, bookingId).value;
      WithdrawKeepsInvariants(users, rows, x, rows[x].(status := Cancelled));
    }
  }

  // ---------------------------------------------------------------------------
  // What each one does
  // ---------------------------------------------------------------------------

  /**
   * Reject succeeds exactly for an admin and an existing key, whatever the booking's
   * status; afterwards that booking is Rejected with its override mark untouched and
   * every other row is as it was. A refusal changes nothing.
   */
  lemma RejectEffect(users: map<UserId, User>, rows: seq<Booking>, actorId: UserId, bookingId: BookingId)
    requires IdsIncreasing(rows)
    ensures var o := RejectOutcome(users, rows, actorId, bookingId);
            && (o.result.Ok? <==> AdminRequired(SessionUser(users, actorId)) && exists i :: 0 <= i < |rows| && rows[i].id == bookingId)
            && (o.result.Err? ==> o.rows == rows)
            && |o.rows| == |rows|
            && forall i :: 0 <= i < |rows| ==>
                 o.rows[i] == if o.result.Ok? && rows[i].id == bookingId then rows[i].(status := Rejected) else rows[i]
  {
  }

  /** With distinct keys, dropping position x drops exactly the rows with x's key. */
  lemma RemoveAtContents(rows: seq<Booking>, x: nat)
    requires IdsIncreasing(rows) && x < |rows|
    ensures forall b :: b in rows[..x] + rows[x + 1..] <==> b in rows && b.id != rows[x].id
  {
    var after := rows[..x] + rows[x + 1..];
    forall b
      ensures b in after <==> b in rows && b.id != rows[x].id
    {
      if b in after {
        var k :| 0 <= k < |after| && after[k] == b;
        var i := if k < x then k else k + 1;
        assert rows[i] == b;
      }
      if b in rows && b.id != rows[x].id {
        var i :| 0 <= i < |rows| && rows[i] == b;
        assert after[if i < x then i else i - 1] == b;
      }
    }
  }

  /**
   * Delete succeeds exactly when the session user is an admin or owns the existing
   * booking; afterwards the rows are exactly the old ones other than that key.
   */
  lemma DeleteBookingEffect(users: map<UserId, User>, rows: seq<Booking>, actorId: UserId, bookingId: BookingId)
    requires IdsIncreasing(rows)
    ensures var o := DeleteBookingOutcome(users, rows, actorId, bookingId);
            && (o.result.Ok? <==>
                  && SessionUser(users, actorId).Some?
                  && exists i :: && 0 <= i < |rows| && rows[i].id == bookingId
                                 && (users[actorId].role == Admin || rows[i].owner == actorId))
            && (o.result.Err? ==> o.rows == rows)
            && (o.result.Ok? ==> |o.rows| == |rows| - 1 && forall b :: b in o.rows <==> b in rows && b.id != bookingId)
  {
    if Find(rows, bookingId).Some? {
      RemoveAtContents(rows, Find(rows, bookingId).value);
    }
  }

  /**
   * Cancel succeeds exactly when the session user is admin or faculty or owns the
   * booking, the booking is Approved and it is not dated before today; afterwards it
   * is Cancelled and nothing else has changed. A refusal changes nothing.
   */
  lemma CancelEffect(users: map<UserId, User>, rows: seq<Booking>, actorId: UserId, bookingId: BookingId, today: Date)
    requires IdsIncreasing(rows)
    ensures var o := CancelOutcome(users, rows, actorId, bookingId, today);
            && (o.result.Ok? <==>
                  && SessionUser(users, actorId).Some?
                  && exists i :: && 0 <= i < |rows| && rows[i].id == bookingId
                                 && (Privileged(users[actorId].role) || rows[i].owner == actorId)
                                 && rows[i].status == Approved && today <= rows[i].date)
            && (o.result.Err? ==> o.rows == rows)
            && |o.rows| == |rows|
            && forall i :: 0 <= i < |rows| ==>
                 o.rows[i] == if o.result.Ok? && rows[i].id == bookingId then rows[i].(status := Cancelled) else rows[i]
  {
  }

  /** No row with key `id` is among the Approved bookings of any venue and date. */
  predicate OffCalendar(rows: seq<Booking>, id: BookingId)
  {
    forall i :: 0 <= i < |rows| && rows[i].id == id ==> rows[i].status != Approved
  }

  /** After a reject, delete or cancel goes through, the booking no longer occupies any venue on any date. */
  lemma WithdrawnBookingLeavesCalendar(users: map<UserId, User>, rows: seq<Booking>, actorId: UserId,
                                       bookingId: BookingId, today: Date)
    requires IdsIncreasing(rows)
    ensures var o := RejectOutcome(users, rows, actorId, bookingId);
            o.result.Ok? ==> OffCalendar(o.rows, bookingId)
    ensures var o := DeleteBookingOutcome(users, rows, actorId, bookingId);
            o.result.Ok? ==> OffCalendar(o.rows, bookingId)
    ensures var o := CancelOutcome(users, rows, actorId, bookingId, today);
            o.result.Ok? ==> OffCalendar(o.rows, bookingId)
  {
    RejectEffect(users, rows, actorId, bookingId);
    CancelEffect(users, rows, actorId, bookingId, today);
    var d := DeleteBookingOutcome(users, rows, actorId, bookingId);
    if d.result.Ok? {
      DeleteBookingEffect(users, rows, actorId, bookingId);
      assert forall i :: 0 <= i < |d.rows| ==> d.rows[i] in d.rows;
    }
  }

  /** Unlike cancel, reject looks at no status: even a Cancelled booking can be rejected. */
  lemma RejectIgnoresStatus(users: map<UserId, User>, rows: seq<Booking>, actorId: UserId, x: nat, today: Date)
    requires IdsIncreasing(rows) && x < |rows| && rows[x].status == Cancelled
    requires AdminRequired(SessionUser(users, actorId))
    ensures RejectOutcome(users, rows, actorId, rows[x].id).result.Ok?
    ensures CancelOutcome(users, rows, actorId, rows[x].id, today).result == Err(NotApproved)
  {
    RejectEffect(users, rows, actorId, rows[x].id);
    CancelEffect(users, rows, actorId, rows[x].id, today);
  }
}
