/**
 * The application's database as one object: the user table and the booking table,
 * changed in place by the routes. Each method is proved to leave exactly the
 * state, and give exactly the answer, of the function that specifies its route,
 * and to keep the table invariants, among them that no venue is Approved twice
 * for overlapping time.
 */
module Store {
  import opened Basics
  import opened Times
  import opened Accounts
  import opened Bookings
  import opened Availability
  import opened Transitions
  import opened Roster

  /** The error a walk stopped with, if it stopped. */
  function Stop(s: Scan): Option<Failure>
  {
    match s
    case Cleared(_) => None
    case Blocked(_, b) => Some(Conflict(b))
    case Unreadable(_, b) => Some(MalformedSlot(b))
  }

  /** The entries computed so far in front of the entries still to come. */
  function Prepend(done: seq<SlotReport>, rest: Result<seq<SlotReport>, Failure>): Result<seq<SlotReport>, Failure>
  {
    match rest
    case Err(f) => Err(f)
    case Ok(rs) => Ok(done + rs)
  }

  class BookingStore {
    var users: map<UserId, User>
    var rows: seq<Booking>
    /** The key the next added user gets. */
    var nextUserId: nat

    ghost predicate Valid()
      reads this
    {
      && WellFormed(users, rows)
      && NoDoubleBooking(rows)
      && UsernamesUnique(users)
      && RolesOk(users)
      && forall id :: id in users ==> id < nextUserId
    }

    /** A freshly created database: no bookings and the default admin account under key 1. */
    constructor ()
      ensures Valid()
      ensures users == map[1 := User("admin", Admin, false, true)] && rows == [] && nextUserId == 2
    {
      users := map[1 := User("admin", Admin, false, true)];
      rows := [];
      nextUserId := 2;
    }

    // -------------------------------------------------------------------------
    // Bookings
    // -------------------------------------------------------------------------

    /** The Python loop of `new_booking`: walks the fetched rows, demoting in place; says where it stopped, if it did. */
    method SubmitWalk(existing: seq<nat>, requester: User, actorId: UserId, start: string, end: string)
      returns (stop: Option<Failure>)
      requires OwnersKnown(users, rows) && Positions(existing, rows)
      modifies this
      ensures users == old(users) && nextUserId == old(nextUserId)
      ensures var s := SubmitScan(old(users), old(rows), existing, requester, actorId, start, end);
              rows == s.rows && stop == Stop(s)
    {
      ghost var goal := SubmitScan(users, rows, existing, requester, actorId, start, end);
      var i := 0;
      while i < |existing|
        invariant 0 <= i <= |existing|
        invariant users == old(users) && nextUserId == old(nextUserId)
        invariant |rows| == |old(rows)| && OwnersKnown(users, rows) && Positions(existing, rows)
        invariant SubmitScan(users, rows, existing[i..], requester, actorId, start, end) == goal
      {
        assert existing[i..][1..] == existing[i + 1..];
        var j := existing[i];
        var parts := SplitSlot(rows[j].slot);
        if parts.None? {
          return Some(MalformedSlot(rows[j].id));
        }
        var (bStart, bEnd) := parts.value;
        if Overlaps(start, end, bStart, bEnd) {
          var action := SubmitAction(requester, users[rows[j].owner]);
          if action == Refuse {
            return Some(Conflict(rows[j].id));
          } else if action == Override {
            rows := rows[j := rows[j].(status := Rejected, overrideBy := Some(actorId))];
          }
        }
        i := i + 1;
      }
      return None;
    }

    /** `new_booking`: validate, walk the Approved bookings of the venue and date, insert as Pending. */
    method Submit(actorId: UserId, venue: VenueId, date: Option<Date>, start: string, end: string,
                  upload: Option<string>) returns (r: Result<BookingId, Failure>)
      requires Valid()
      modifies this
      ensures Valid() && users == old(users) && nextUserId == old(nextUserId)
      ensures Outcome(r, rows) == SubmitOutcome(old(users), old(rows), actorId, venue, date, start, end, upload)
    {
      SubmitKeepsInvariants(users, rows, actorId, venue, date, start, end, upload);
      var session := SessionUser(users, actorId);
      if session.None? {
        return Err(LoginRequired);
      }
      if date.None? {
        return Err(MalformedDate);
      }
      var verdict := CheckWindow(start, end);
      if verdict != InWindow {
        return Err(RejectedSlot(verdict));
      }
      var existing := Query(rows, venue, date.value);
      ScanKeepsKeys(users, rows, existing, session.value, actorId, start, end);
      var stop := SubmitWalk(existing, session.value, actorId, start, end);
      if stop.Some? {
        return Err(stop.value);
      }
      var id := NextId(rows);
      rows := rows + [Booking(id, actorId, venue, date.value, JoinSlot(start, end), Pending, None, StoredDocument(upload))];
      return Ok(id);
    }

    /** The Python loop of `approve_booking` for the booking at position x, whose owner's rank applies. */
    method ApproveWalk(existing: seq<nat>, x: nat, owner: User, ownerId: UserId) returns (stop: Option<Failure>)
      requires OwnersKnown(users, rows) && Positions(existing, rows) && x < |rows|
      modifies this
      ensures users == old(users) && nextUserId == old(nextUserId)
      ensures var s := ApproveScan(old(users), old(rows), existing, x, owner, ownerId);
              rows == s.rows && stop == Stop(s)
    {
      ghost var goal := ApproveScan(users, rows, existing, x, owner, ownerId);
      var i := 0;
      while i < |existing|
        invariant 0 <= i <= |existing|
        invariant users == old(users) && nextUserId == old(nextUserId)
        invariant |rows| == |old(rows)| && OwnersKnown(users, rows) && Positions(existing, rows)
        invariant rows[x] == old(rows)[x]
        invariant ApproveScan(users, rows, existing[i..], x, owner, ownerId) == goal
      {
        assert existing[i..][1..] == existing[i + 1..];
        var j := existing[i];
        if rows[j].id != rows[x].id {
          var theirs := SplitSlot(rows[j].slot);
          if theirs.None? {
            return Some(MalformedSlot(rows[j].id));
          }
          var ours := SplitSlot(rows[x].slot);
          if ours.None? {
            return Some(MalformedSlot(rows[x].id));
          }
          if Overlaps(ours.value.0, ours.value.1, theirs.value.0, theirs.value.1) {
            if ApproveAction(owner, users[rows[j].owner]) == Override {
              rows := rows[j := rows[j].(status := Rejected, overrideBy := Some(ownerId))];
            } else {
              return Some(Conflict(rows[j].id));
            }
          }
        }
        i := i + 1;
      }
      return None;
    }

    /** `approve_booking`: walk under the owner's rank, then mark the booking Approved. */
    method Approve(actorId: UserId, bookingId: BookingId) returns (r: Result<(), Failure>)
      requires Valid()
      modifies this
      ensures Valid() && users == old(users) && nextUserId == old(nextUserId)
      ensures Outcome(r, rows) == ApproveOutcome(old(users), old(rows), actorId, bookingId)
    {
      ApproveKeepsInvariants(users, rows, actorId, bookingId);
      var gate := AdminGate(users, actorId);
      if gate.Some? {
        return Err(gate.value);
      }
      var found := Find(rows, bookingId);
      if found.None? {
        return Err(NotFound);
      }
      var x := found.value;
      var ownerId := rows[x].owner;
      ApproveScanEffect(users, rows, Query(rows, rows[x].venue, rows[x].date), x, users[ownerId], ownerId);
      var stop := ApproveWalk(Query(rows, rows[x].venue, rows[x].date), x, users[ownerId], ownerId);
      if stop.Some? {
        return Err(stop.value);
      }
      rows := rows[x := rows[x].(status := Approved)];
      return Ok(());
    }

    /** `reject_booking`. */
    method Reject(actorId: UserId, bookingId: BookingId) returns (r: Result<(), Failure>)
      requires Valid()
      modifies this
      ensures Valid() && users == old(users) && nextUserId == old(nextUserId)
      ensures Outcome(r, rows) == RejectOutcome(old(users), old(rows), actorId, bookingId)
    {
      RejectKeepsInvariants(users, rows, actorId, bookingId);
      var gate := AdminGate(users, actorId);
      if gate.Some? {
        return Err(gate.value);
      }
      var found := Find(rows, bookingId);
      if found.None? {
        return Err(NotFound);
      }
      var x := found.value;
      rows := rows[x := rows[x].(status := Rejected)];
      return Ok(());
    }

    /** `delete_booking`. */
    method DeleteBooking(actorId: UserId, bookingId: BookingId) returns (r: Result<(), Failure>)
      requires Valid()
      modifies this
      ensures Valid() && users == old(users) && nextUserId == old(nextUserId)
      ensures Outcome(r, rows) == DeleteBookingOutcome(old(users), old(rows), actorId, bookingId)
    {
      DeleteBookingKeepsInvariants(users, rows, actorId, bookingId);
      var session := SessionUser(users, actorId);
      if session.None? {
        return Err(LoginRequired);
      }
      var found := Find(rows, bookingId);
      if found.None? {
        return Err(NotFound);
      }
      var x := found.value;
      if session.value.role != Admin && rows[x].owner != actorId {
        return Err(NotOwner);
      }
      rows := rows[..x] + rows[x + 1..];
      return Ok(());
    }

    /** `cancel_booking`, with the server's current date passed in as `today`. */
    method Cancel(actorId: UserId, bookingId: BookingId, today: Date) returns (r: Result<(), Failure>)
      requires Valid()
      modifies this
      ensures Valid() && users == old(users) && nextUserId == old(nextUserId)
      ensures Outcome(r, rows) == CancelOutcome(old(users), old(rows), actorId, bookingId, today)
    {
      CancelKeepsInvariants(users, rows, actorId, bookingId, today);
      var session := SessionUser(users, actorId);
      if session.None? {
        return Err(LoginRequired);
      }
      var found := Find(rows, bookingId);
      if found.None? {
        return Err(NotFound);
      }
      var x := found.value;
      if !Privileged(session.value.role) && rows[x].owner != actorId {
        return Err(NotOwner);
      }
      if rows[x].status != Approved {
        return Err(NotApproved);
      }
      if rows[x].date < today {
        return Err(PastDate);
      }
      rows := rows[x := rows[x].(status := Cancelled)];
      return Ok(());
    }

    /** The inner loop of `check_availability`: the entry for one grid slot. Changes nothing. */
    method SlotEntry(bookings: seq<nat>, slot: string) returns (r: Result<SlotReport, Failure>)
      requires OwnersKnown(users, rows) && Positions(bookings, rows) && SplitSlot(slot).Some?
      ensures var (start, end) := SplitSlot(slot).value;
              r == ReportFor(users, rows, bookings, start, end) && (r.Ok? ==> r.value.slot == slot)
    {
      var (slotStart, slotEnd) := SplitSlot(slot).value;
      JoinSplit(slot);
      var available := true;
      var bookedBy: Option<string> := None;
      var userRole: Option<Role> := None;
      var k := 0;
      while k < |bookings|
        invariant 0 <= k <= |bookings|
        invariant FirstOverlap(rows, bookings, slotStart, slotEnd) == FirstOverlap(rows, bookings[k..], slotStart, slotEnd)
        invariant available && bookedBy.None? && userRole.None?
      {
        assert bookings[k..][1..] == bookings[k + 1..];
        var booking := rows[bookings[k]];
        var parts := SplitSlot(booking.slot);
        if parts.None? {
          return Err(MalformedSlot(booking.id));
        }
        var (bookingStart, bookingEnd) := parts.value;
        if Less(slotStart, bookingEnd) && Less(bookingStart, slotEnd) {
          available := false;
          bookedBy := Some(users[booking.owner].username);
          userRole := Some(users[booking.owner].role);
          break;
        }
        k := k + 1;
      }
      return Ok(SlotReport(slot, available, bookedBy, userRole));
    }

    /** The outer loop of `check_availability`: one entry per slot of `grid`, in order. Changes nothing. */
    method GridEntries(bookings: seq<nat>, grid: seq<(string, string)>) returns (r: Result<seq<SlotReport>, Failure>)
      requires OwnersKnown(users, rows) && Positions(bookings, rows)
      requires forall k :: 0 <= k < |grid| ==> SplitSlot(JoinSlot(grid[k].0, grid[k].1)) == Some(grid[k])
      ensures r == Reports(users, rows, bookings, grid)
    {
      var results: seq<SlotReport> := [];
      var s := 0;
      assert grid[s..] == grid;
      match Reports(users, rows, bookings, grid) {
        case Ok(rs) => assert results + rs == rs;
        case Err(_) =>
      }
      while s < |grid|
        invariant 0 <= s <= |grid|
        invariant Reports(users, rows, bookings, grid) == Prepend(results, Reports(users, rows, bookings, grid[s..]))
      {
        assert grid[s..][1..] == grid[s + 1..];
        var entry := SlotEntry(bookings, JoinSlot(grid[s].0, grid[s].1));
        if entry.Err? {
          return Err(entry.error);
        }
        match Reports(users, rows, bookings, grid[s + 1..]) {
          case Ok(rs) => assert results + [entry.value] + rs == results + ([entry.value] + rs);
          case Err(_) =>
        }
        results := results + [entry.value];
        s := s + 1;
      }
      assert results + [] == results;
      return Ok(results);
    }

    /** `check_availability`: the parameter checks, then the entries for the hourly grid. Changes nothing. */
    method CheckAvailability(actorId: UserId, venueId: Option<int>, dateText: Option<string>, parsed: Option<Date>)
      returns (r: Result<seq<SlotReport>, Failure>)
      requires Valid()
      ensures r == AvailabilityOutcome(users, rows, actorId, venueId, dateText, parsed)
    {
      if SessionUser(users, actorId).None? {
        return Err(LoginRequired);
      }
      if venueId.None? || venueId.value == 0 || dateText.None? || dateText.value == "" {
        return Err(MissingParameters);
      }
      if parsed.None? {
        return Err(MalformedDate);
      }
      var bookings := Query(rows, venueId.value, parsed.value);
      GridSlotsSplit();
      r := GridEntries(bookings, Grid);
    }

    // -------------------------------------------------------------------------
    // Accounts
    // -------------------------------------------------------------------------

    /** `add_user`: the new account gets the next free key. */
    method AddUser(actorId: UserId, username: string, roleText: string, isRepresentative: bool)
      returns (r: Result<UserId, Failure>)
      requires Valid()
      modifies this
      ensures Valid()
      ensures Change(r, users, rows) == AddUserOutcome(old(users), old(rows), actorId, old(nextUserId),
                                                       username, roleText, isRepresentative)
      ensures nextUserId == if r.Ok? then old(nextUserId) + 1 else old(nextUserId)
    {
      AddUserKeepsNamesUnique(users, rows, actorId, nextUserId, username, roleText, isRepresentative);
      var gate := AdminGate(users, actorId);
      if gate.Some? {
        return Err(gate.value);
      }
      if UsernameInUse(users, username) {
        return Err(UsernameTaken);
      }
      var id := nextUserId;
      users := users[id := User(username, RoleOf(roleText), isRepresentative, true)];
      nextUserId := nextUserId + 1;
      return Ok(id);
    }

    /** `toggle_representative`. */
    method ToggleRepresentative(actorId: UserId, target: UserId) returns (r: Result<(), Failure>)
      requires Valid()
      modifies this
      ensures Valid() && nextUserId == old(nextUserId)
      ensures Change(r, users, rows) == ToggleRepresentativeOutcome(old(users), old(rows), actorId, target)
    {
      var gate := AdminGate(users, actorId);
      if gate.Some? {
        return Err(gate.value);
      }
      if target !in users {
        return Err(NotFound);
      }
      if users[target].role != Student {
        return Err(NotAStudent);
      }
      var u := users[target];
      users := users[target := u.(isRepresentative := !u.isRepresentative)];
      return Ok(());
    }

    /** `toggle_user_active`. */
    method ToggleActive(actorId: UserId, target: UserId) returns (r: Result<(), Failure>)
      requires Valid()
      modifies this
      ensures Valid() && nextUserId == old(nextUserId)
      ensures Change(r, users, rows) == ToggleActiveOutcome(old(users), old(rows), actorId, target)
    {
      var gate := AdminGate(users, actorId);
      if gate.Some? {
        return Err(gate.value);
      }
      if target !in users {
        return Err(NotFound);
      }
      if target == actorId {
        return Err(OwnAccount);
      }
      var u := users[target];
      users := users[target := u.(isActive := !u.isActive)];
      return Ok(());
    }

    /** `delete_user`. */
    method DeleteUser(actorId: UserId, target: UserId) returns (r: Result<(), Failure>)
      requires Valid()
      modifies this
      ensures Valid() && nextUserId == old(nextUserId)
      ensures Change(r, users, rows) == DeleteUserOutcome(old(users), old(rows), actorId, target)
    {
      DeleteUserEffect(users, rows, actorId, target);
      var gate := AdminGate(users, actorId);
      if gate.Some? {
        return Err(gate.value);
      }
      if target !in users {
        return Err(NotFound);
      }
      if target == actorId {
        return Err(OwnAccount);
      }
      if OwnsAny(rows, target) {
        return Err(OwnsBookings);
      }
      users := users - {target};
      rows := ClearOverrides(rows, target);
      return Ok(());
    }
  }
}
