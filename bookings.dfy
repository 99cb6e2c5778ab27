/**
 * The booking table and what `new_booking` and `approve_booking` do to it.
 *
 * The table is the sequence of its rows in primary-key order, and the conflict
 * queries are taken to return rows in that order (they have no ORDER BY; it is
 * the order SQLite's table scan gives). Both entry points fetch the Approved rows
 * for one venue and date and walk them: an overlapping row is demoted to Rejected
 * (committed at once), passed over, or stops the walk with a refusal; a slot
 * text that cannot be split stops the walk with an error. Demotions made before
 * a stop stay in place.
 */
module Bookings {
  import opened Basics
  import opened Times
  import opened Accounts
  import opened Uploads

  type BookingId = nat
  type VenueId = int
  /** A calendar date as a day number; turning the form's text into one is not modelled. */
  type Date = int

  datatype Status = Pending | Approved | Rejected | Cancelled

  /** A row of the booking table (creation and update times left out). */
  datatype Booking = Booking(
    id: BookingId,
    owner: UserId,
    venue: VenueId,
    date: Date,
    slot: string,
    status: Status,
    overrideBy: Option<UserId>,
    document: Option<string>)

  /** Why a request did not go through: a redirect with an error message, a 400/404, or a raised exception. */
  datatype Failure =
    | LoginRequired                     // no session user, or the account is gone or inactive
    | AdminOnly                         // `admin_required` turned the request away
    | NotFound                          // `get_or_404`
    | MalformedDate                     // `strptime` raised on the date field
    | MissingParameters                 // availability query without venue or date
    | RejectedSlot(reason: WindowVerdict)
    | Conflict(blocking: BookingId)     // an overlapping booking the rank rule does not let it override
    | MalformedSlot(at: BookingId)      // a stored slot that does not split into two times
    | NotOwner                          // delete or cancel by someone without the right
    | NotApproved                       // cancel of a booking that is not Approved
    | PastDate                          // cancel of a booking dated before today
    | UsernameTaken
    | NotAStudent                       // representative flag toggled on a non-student
    | OwnAccount                        // an admin deactivating or deleting themselves
    | OwnsBookings                      // deleting a user who still owns bookings

  /** The result of an operation together with the booking table it leaves behind. */
  datatype Outcome<T> = Outcome(result: Result<T, Failure>, rows: seq<Booking>)

  // ---------------------------------------------------------------------------
  // The table
  // ---------------------------------------------------------------------------

  predicate IdsIncreasing(rows: seq<Booking>)
  {
    forall i, j :: 0 <= i < j < |rows| ==> rows[i].id < rows[j].id
  }

  predicate OwnersKnown(users: map<UserId, User>, rows: seq<Booking>)
  {
    forall i :: 0 <= i < |rows| ==> rows[i].owner in users
  }

  /** What the database guarantees: distinct keys in order, and every booking's owner exists. */
  predicate WellFormed(users: map<UserId, User>, rows: seq<Booking>)
  {
    IdsIncreasing(rows) && OwnersKnown(users, rows)
  }

  /** Two Approved bookings of one venue and date whose stored slots overlap. */
  predicate Clash(a: Booking, b: Booking)
  {
    && a.status == Approved && b.status == Approved
    && a.venue == b.venue && a.date == b.date
    && SlotsOverlap(a.slot, b.slot)
  }

  /** The property the rank rules exist for: no venue is Approved twice for overlapping time. */
  predicate NoDoubleBooking(rows: seq<Booking>)
  {
    forall i, j :: 0 <= i < |rows| && 0 <= j < |rows| && i != j ==> !Clash(rows[i], rows[j])
  }

  /** The key SQLite gives a new row: one more than the largest key, 1 in an empty table. */
  function NextId(rows: seq<Booking>): (id: BookingId)
    requires IdsIncreasing(rows)
    ensures forall i :: 0 <= i < |rows| ==> rows[i].id < id
  {
    if |rows| == 0 then 1 else rows[|rows| - 1].id + 1
  }

  /** `Booking.query.get(id)`: the position of the row with that key. */
  function Find(rows: seq<Booking>, id: BookingId): (r: Option<nat>)
    ensures r.Some? ==> r.value < |rows| && rows[r.value].id == id
    ensures r.None? ==> forall i :: 0 <= i < |rows| ==> rows[i].id != id
  {
    if |rows| == 0 then None
    else if rows[0].id == id then Some(0)
    else match Find(rows[1..], id)
      case None => None
      case Some(k) => Some(k + 1)
  }

  predicate InQuery(b: Booking, venue: VenueId, date: Date)
  {
    b.venue == venue && b.date == date && b.status == Approved
  }

  /** The positions among the first `n` rows that the Approved-bookings query returns, in order. */
  function ApprovedAmong(rows: seq<Booking>, venue: VenueId, date: Date, n: nat): (r: seq<nat>)
    requires n <= |rows|
    ensures forall k :: 0 <= k < |r| ==> r[k] < n && InQuery(rows[r[k]], venue, date)
    ensures forall i :: 0 <= i < n && InQuery(rows[i], venue, date) ==> i in r
    ensures forall k, l :: 0 <= k < l < |r| ==> r[k] < r[l]
  {
    if n == 0 then []
    else
      var earlier := ApprovedAmong(rows, venue, date, n - 1);
      if InQuery(rows[n - 1], venue, date) then earlier + [n - 1] else earlier
  }

  /** `Booking.query.filter_by(venue_id=venue, date=date, status='Approved').all()`. */
  function Query(rows: seq<Booking>, venue: VenueId, date: Date): seq<nat>
  {
    ApprovedAmong(rows, venue, date, |rows|)
  }

  /** Overriding a booking: it becomes Rejected and records who overrode it. */
  function Demote(rows: seq<Booking>, j: nat, overrider: UserId): seq<Booking>
    requires j < |rows|
  {
    rows[j := rows[j].(status := Rejected, overrideBy := Some(overrider))]
  }

  predicate Positions(todo: seq<nat>, rows: seq<Booking>)
  {
    forall k :: 0 <= k < |todo| ==> todo[k] < |rows|
  }

  /** The requested times overlap the stored slot, which can be split. */
  predicate Hits(start: string, end: string, slot: string)
  {
    SplitSlot(slot).Some? && Overlaps(start, end, SplitSlot(slot).value.0, SplitSlot(slot).value.1)
  }

  /** How a conflict walk ended, with the table as its commits left it. */
  datatype Scan =
    | Cleared(rows: seq<Booking>)
    | Blocked(rows: seq<Booking>, blocking: BookingId)
    | Unreadable(rows: seq<Booking>, at: BookingId)

  // ---------------------------------------------------------------------------
  // new_booking
  // ---------------------------------------------------------------------------

  /** The walk of `new_booking` over the fetched rows `todo`, for the requested start and end. */
  function SubmitScan(users: map<UserId, User>, rows: seq<Booking>, todo: seq<nat>,
                      requester: User, requesterId: UserId, start: string, end: string): Scan
    requires OwnersKnown(users, rows) && Positions(todo, rows)
    decreases |todo|
  {
    if |todo| == 0 then Cleared(rows)
    else
      var j := todo[0];
      match SplitSlot(rows[j].slot)
      case None => Unreadable(rows, rows[j].id)
      case Some(p) =>
        if !Overlaps(start, end, p.0, p.1) then
          SubmitScan(users, rows, todo[1..], requester, requesterId, start, end)
        else match SubmitAction(requester, users[rows[j].owner])
          case Override => SubmitScan(users, Demote(rows, j, requesterId), todo[1..], requester, requesterId, start, end)
          case Refuse => Blocked(rows, rows[j].id)
          case Pass => SubmitScan(users, rows, todo[1..], requester, requesterId, start, end)
  }

  /** The document kept with a new booking: the uploaded name, when it is non-empty and allowed. */
  function StoredDocument(upload: Option<string>): Option<string>
  {
    if upload.Some? && upload.value != "" && AllowedFile(upload.value) then upload else None
  }

  /** `new_booking`, from the session check to the insert of the Pending row. */
  function SubmitOutcome(users: map<UserId, User>, rows: seq<Booking>, actorId: UserId,
                         venue: VenueId, date: Option<Date>, start: string, end: string,
                         upload: Option<string>): Outcome<BookingId>
    requires WellFormed(users, rows)
  {
    match SessionUser(users, actorId)
    case None => Outcome(Err(LoginRequired), rows)
    case Some(requester) =>
      if date.None? then Outcome(Err(MalformedDate), rows)
      else if CheckWindow(start, end) != InWindow then Outcome(Err(RejectedSlot(CheckWindow(start, end))), rows)
      else match SubmitScan(users, rows, Query(rows, venue, date.value), requester, actorId, start, end)
        case Blocked(after, b) => Outcome(Err(Conflict(b)), after)
        case Unreadable(after, b) => Outcome(Err(MalformedSlot(b)), after)
        case Cleared(after) =>
          ScanKeepsKeys(users, rows, Query(rows, venue, date.value), requester, actorId, start, end);
          var id := NextId(after);
          Outcome(Ok(id), after + [Booking(id, actorId, venue, date.value, JoinSlot(start, end),
                                           Pending, None, StoredDocument(upload))])
  }

  /** A walk changes no key and no owner, only statuses and override marks. */
  lemma {:induction false} ScanKeepsKeys(users: map<UserId, User>, rows: seq<Booking>, todo: seq<nat>,
                                         requester: User, requesterId: UserId, start: string, end: string)
    requires OwnersKnown(users, rows) && Positions(todo, rows)
    ensures var after := SubmitScan(users, rows, todo, requester, requesterId, start, end).rows;
            |after| == |rows| && OwnersKnown(users, after)
            && forall i :: 0 <= i < |rows| ==> after[i].id == rows[i].id && after[i].owner == rows[i].owner
    decreases |todo|
  {
    if |todo| > 0 {
      var j := todo[0];
      ScanKeepsKeys(users, rows, todo[1..], requester, requesterId, start, end);
      if j < |rows| {
        ScanKeepsKeys(users, Demote(rows, j, requesterId), todo[1..], requester, requesterId, start, end);
      }
    }
  }

  /**
   * What a `new_booking` walk changes: a row either stays as it was, or it was
   * fetched, overlaps the request, its owner is one the requester may override,
   * and it is now Rejected with the requester recorded as overriding it.
   * When the walk ends by a refusal, the refusing row overlaps and the rule says Refuse;
   * when it gets through, every fetched row was readable, and each overlapping one
   * was either passed over or demoted.
   */
  lemma {:induction false} SubmitScanEffect(users: map<UserId, User>, rows: seq<Booking>, todo: seq<nat>,
                                            requester: User, rid: UserId, start: string, end: string)
    requires OwnersKnown(users, rows) && Positions(todo, rows)
    ensures var s := SubmitScan(users, rows, todo, requester, rid, start, end);
            && |s.rows| == |rows|
            && (forall i :: 0 <= i < |rows| ==>
                  || s.rows[i] == rows[i]
                  || (&& s.rows[i] == rows[i].(status := Rejected, overrideBy := Some(rid))
                      && i in todo && Hits(start, end, rows[i].slot)
                      && SubmitAction(requester, users[rows[i].owner]) == Override))
            && (s.Blocked? ==> exists k :: 0 <= k < |todo| && rows[todo[k]].id == s.blocking
                                 && Hits(start, end, rows[todo[k]].slot)
                                 && SubmitAction(requester, users[rows[todo[k]].owner]) == Refuse)
            && (s.Cleared? ==> forall k :: 0 <= k < |todo| ==>
                                 && SplitSlot(rows[todo[k]].slot).Some?
                                 && (Hits(start, end, rows[todo[k]].slot) ==>
                                       && SubmitAction(requester, users[rows[todo[k]].owner]) != Refuse
                                       && (SubmitAction(requester, users[rows[todo[k]].owner]) == Override ==>
                                             s.rows[todo[k]] == rows[todo[k]].(status := Rejected, overrideBy := Some(rid)))))
    decreases |todo|
  {
    if |todo| > 0 {
      var j := todo[0];
      var rest := todo[1..];
      assert forall k :: 1 <= k < |todo| ==> todo[k] == rest[k - 1];
      if SplitSlot(rows[j].slot).Some? {
        var p := SplitSlot(rows[j].slot).value;
        if !Overlaps(start, end, p.0, p.1) || SubmitAction(requester, users[rows[j].owner]) == Pass {
          SubmitScanEffect(users, rows, rest, requester, rid, start, end);
        } else if SubmitAction(requester, users[rows[j].owner]) == Override {
          var demoted := Demote(rows, j, rid);
          SubmitScanEffect(users, demoted, rest, requester, rid, start, end);
          var s := SubmitScan(users, demoted, rest, requester, rid, start, end);
          assert s == SubmitScan(users, rows, todo, requester, rid, start, end);
          forall i | 0 <= i < |rows|
            ensures || s.rows[i] == rows[i]
                    || (&& s.rows[i] == rows[i].(status := Rejected, overrideBy := Some(rid))
                        && i in todo && Hits(start, end, rows[i].slot)
                        && SubmitAction(requester, users[rows[i].owner]) == Override)
          {
            if i == j {
              assert todo[0] == j;
            }
          }
          if s.Cleared? {
            forall k | 0 <= k < |todo|
              ensures && SplitSlot(rows[todo[k]].slot).Some?
                      && (Hits(start, end, rows[todo[k]].slot) ==>
                            && SubmitAction(requester, users[rows[todo[k]].owner]) != Refuse
                            && (SubmitAction(requester, users[rows[todo[k]].owner]) == Override ==>
                                  s.rows[todo[k]] == rows[todo[k]].(status := Rejected, overrideBy := Some(rid))))
            {
              if k > 0 {
                assert todo[k] == rest[k - 1];
              }
            }
          }
        }
      }
    }
  }

  /**
   * The first two rows of a walk: a row the requester overrides, then one that
   * refuses it. The refusal comes back, and the first row stays overridden.
   */
  lemma OverrideBeforeRefusalPersists(users: map<UserId, User>, rows: seq<Booking>, j1: nat, j2: nat,
                                      requester: User, rid: UserId, start: string, end: string)
    requires OwnersKnown(users, rows) && j1 < |rows| && j2 < |rows| && j1 != j2
    requires Hits(start, end, rows[j1].slot) && SubmitAction(requester, users[rows[j1].owner]) == Override
    requires Hits(start, end, rows[j2].slot) && SubmitAction(requester, users[rows[j2].owner]) == Refuse
    ensures SubmitScan(users, rows, [j1, j2], requester, rid, start, end)
            == Blocked(Demote(rows, j1, rid), rows[j2].id)
    ensures Demote(rows, j1, rid)[j1].status == Rejected
  {
    var demoted := Demote(rows, j1, rid);
    assert [j1, j2][1..] == [j2];
    assert [j2][1..] == [];
    assert demoted[j2] == rows[j2];
    assert SubmitScan(users, demoted, [j2], requester, rid, start, end) == Blocked(demoted, rows[j2].id);
  }

  /** Fetched positions in strictly increasing order, as the query returns them. */
  predicate Ascending(todo: seq<nat>)
  {
    forall k, l :: 0 <= k < l < |todo| ==> todo[k] < todo[l]
  }

  /**
   * Row i was walked past by a `new_booking` walk that left `after`: its slot was
   * readable, it did not refuse the request, and if the requester overrode it, it
   * is Rejected with the requester's mark.
   */
  predicate SubmitPassedRow(users: map<UserId, User>, rows: seq<Booking>, after: seq<Booking>, i: nat,
                            requester: User, rid: UserId, start: string, end: string)
    requires OwnersKnown(users, rows) && i < |rows| && |after| == |rows|
  {
    && SplitSlot(rows[i].slot).Some?
    && (Hits(start, end, rows[i].slot) ==>
          && SubmitAction(requester, users[rows[i].owner]) != Refuse
          && (SubmitAction(requester, users[rows[i].owner]) == Override ==>
                after[i] == rows[i].(status := Rejected, overrideBy := Some(rid))))
  }

  /**
   * The `new_booking` walk over `todo` that ended in `s` stopped at fetched row m:
   * the refusing or unreadable row. The rows fetched before it were walked past;
   * it and the rows fetched after it are as they were.
   */
  predicate SubmitStopsAt(users: map<UserId, User>, rows: seq<Booking>, todo: seq<nat>, s: Scan, m: nat,
                          requester: User, rid: UserId, start: string, end: string)
    requires OwnersKnown(users, rows) && Positions(todo, rows) && |s.rows| == |rows|
  {
    && m < |todo|
    && (s.Blocked? ==> && rows[todo[m]].id == s.blocking && Hits(start, end, rows[todo[m]].slot)
                       && SubmitAction(requester, users[rows[todo[m]].owner]) == Refuse)
    && (s.Unreadable? ==> rows[todo[m]].id == s.at && SplitSlot(rows[todo[m]].slot).None?)
    && (forall k :: 0 <= k < m ==> SubmitPassedRow(users, rows, s.rows, todo[k], requester, rid, start, end))
    && (forall k :: m <= k < |todo| ==> s.rows[todo[k]] == rows[todo[k]])
  }

  /**
   * A `new_booking` walk that does not get through stops at some fetched row: each
   * override committed before it stays, although the request fails, and nothing
   * from the stopping row on is touched.
   */
  lemma {:induction false} SubmitScanStop(users: map<UserId, User>, rows: seq<Booking>, todo: seq<nat>,
                                          requester: User, rid: UserId, start: string, end: string)
    requires OwnersKnown(users, rows) && Positions(todo, rows) && Ascending(todo)
    ensures var s := SubmitScan(users, rows, todo, requester, rid, start, end);
            && |s.rows| == |rows|
            && (!s.Cleared? ==> exists m :: SubmitStopsAt(users, rows, todo, s, m, requester, rid, start, end))
    decreases |todo|
  {
    SubmitScanEffect(users, rows, todo, requester, rid, start, end);
    if |todo| > 0 {
      var j := todo[0];
      var rest := todo[1..];
      var s := SubmitScan(users, rows, todo, requester, rid, start, end);
      if SplitSlot(rows[j].slot).None? || (Hits(start, end, rows[j].slot) && SubmitAction(requester, users[rows[j].owner]) == Refuse) {
        assert SubmitStopsAt(users, rows, todo, s, 0, requester, rid, start, end);
      } else {
        // The walk goes on past row j, over `base`.
        var base := if Hits(start, end, rows[j].slot) && SubmitAction(requester, users[rows[j].owner]) == Override
                    then Demote(rows, j, rid) else rows;
        assert s == SubmitScan(users, base, rest, requester, rid, start, end);
        assert Ascending(rest);
        SubmitScanStop(users, base, rest, requester, rid, start, end);
        SubmitScanEffect(users, base, rest, requester, rid, start, end);
        if !s.Cleared? {
          var m' :| SubmitStopsAt(users, base, rest, s, m', requester, rid, start, end);
          SubmitStopStep(users, rows, base, todo, s, m', requester, rid, start, end);
        }
      }
    }
  }

  /** One step back along the walk: a stop at m' in the rest is a stop at m' + 1 in the whole. */
  lemma SubmitStopStep(users: map<UserId, User>, rows: seq<Booking>, base: seq<Booking>, todo: seq<nat>, s: Scan,
                       m': nat, requester: User, rid: UserId, start: string, end: string)
    requires OwnersKnown(users, rows) && Positions(todo, rows) && Ascending(todo) && |todo| > 0
    requires |base| == |rows| && |s.rows| == |rows| && OwnersKnown(users, base)
    requires forall i :: 0 <= i < |rows| && i != todo[0] ==> base[i] == rows[i]
    requires SubmitPassedRow(users, rows, s.rows, todo[0], requester, rid, start, end)
    requires SubmitStopsAt(users, base, todo[1..], s, m', requester, rid, start, end)
    ensures SubmitStopsAt(users, rows, todo, s, m' + 1, requester, rid, start, end)
  {
    var rest := todo[1..];
    forall k | 0 <= k < m' + 1
      ensures SubmitPassedRow(users, rows, s.rows, todo[k], requester, rid, start, end)
    {
      if k > 0 {
        assert todo[k] == rest[k - 1] && todo[0] < todo[k];
        assert SubmitPassedRow(users, base, s.rows, rest[k - 1], requester, rid, start, end);
      }
    }
    forall k | m' + 1 <= k < |todo|
      ensures s.rows[todo[k]] == rows[todo[k]]
    {
      assert todo[k] == rest[k - 1] && todo[0] < todo[k];
    }
    assert todo[m' + 1] == rest[m'] && todo[0] < todo[m' + 1];
  }

  // ---------------------------------------------------------------------------
  // approve_booking
  // ---------------------------------------------------------------------------

  /**
   * The walk of `approve_booking` for the booking at position `x`, whose owner is
   * `owner` with id `ownerId`; the booking itself is skipped by key.
   */
  function ApproveScan(users: map<UserId, User>, rows: seq<Booking>, todo: seq<nat>, x: nat,
                       owner: User, ownerId: UserId): Scan
    requires OwnersKnown(users, rows) && Positions(todo, rows) && x < |rows|
    decreases |todo|
  {
    if |todo| == 0 then Cleared(rows)
    else
      var j := todo[0];
      if rows[j].id == rows[x].id then ApproveScan(users, rows, todo[1..], x, owner, ownerId)
      else match SplitSlot(rows[j].slot)
        case None => Unreadable(rows, rows[j].id)
        case Some(e) =>
          match SplitSlot(rows[x].slot)
          case None => Unreadable(rows, rows[x].id)
          case Some(n) =>
            if !Overlaps(n.0, n.1, e.0, e.1) then ApproveScan(users, rows, todo[1..], x, owner, ownerId)
            else if ApproveAction(owner, users[rows[j].owner]) == Override then
              ApproveScan(users, Demote(rows, j, ownerId), todo[1..], x, owner, ownerId)
            else Blocked(rows, rows[j].id)
  }

  /** The admin check of the routes behind `admin_required`, after the session check. */
  function AdminGate(users: map<UserId, User>, actorId: UserId): (f: Option<Failure>)
    ensures f.None? <==> AdminRequired(SessionUser(users, actorId))
  {
    if SessionUser(users, actorId).None? then Some(LoginRequired)
    else if !AdminRequired(SessionUser(users, actorId)) then Some(AdminOnly)
    else None
  }

  /** `approve_booking`: the walk under the owner's rank, then the status becomes Approved. */
  function ApproveOutcome(users: map<UserId, User>, rows: seq<Booking>, actorId: UserId,
                          bookingId: BookingId): Outcome<()>
    requires WellFormed(users, rows)
  {
    if AdminGate(users, actorId).Some? then Outcome(Err(AdminGate(users, actorId).value), rows)
    else match Find(rows, bookingId)
      case None => Outcome(Err(NotFound), rows)
      case Some(x) =>
        var b := rows[x];
        match ApproveScan(users, rows, Query(rows, b.venue, b.date), x, users[b.owner], b.owner)
        case Blocked(after, c) => Outcome(Err(Conflict(c)), after)
        case Unreadable(after, c) => Outcome(Err(MalformedSlot(c)), after)
        case Cleared(after) =>
          ApproveScanEffect(users, rows, Query(rows, b.venue, b.date), x, users[b.owner], b.owner);
          Outcome(Ok(()), after[x := after[x].(status := Approved)])
  }

  /**
   * What an `approve_booking` walk changes: the booking being approved is left
   * alone, and any other row either stays as it was or was fetched, overlaps the
   * booking, is one its owner may override, and is now Rejected with the owner
   * recorded as overriding it. A refusal comes from an overlapping row of another
   * key the rule refuses; getting through means every other fetched row was
   * readable, and each overlapping one is now demoted.
   */
  lemma {:induction false} ApproveScanEffect(users: map<UserId, User>, rows: seq<Booking>, todo: seq<nat>,
                                             x: nat, owner: User, ownerId: UserId)
    requires OwnersKnown(users, rows) && Positions(todo, rows) && x < |rows|
    ensures var s := ApproveScan(users, rows, todo, x, owner, ownerId);
            && |s.rows| == |rows| && OwnersKnown(users, s.rows)
            && s.rows[x] == rows[x]
            && (forall i :: 0 <= i < |rows| ==>
                  || s.rows[i] == rows[i]
                  || (&& s.rows[i] == rows[i].(status := Rejected, overrideBy := Some(ownerId))
                      && i in todo && rows[i].id != rows[x].id
                      && SlotsOverlap(rows[x].slot, rows[i].slot)
                      && ApproveAction(owner, users[rows[i].owner]) == Override))
            && (s.Blocked? ==> exists k :: 0 <= k < |todo| && rows[todo[k]].id == s.blocking
                                 && s.blocking != rows[x].id
                                 && SlotsOverlap(rows[x].slot, rows[todo[k]].slot)
                                 && ApproveAction(owner, users[rows[todo[k]].owner]) == Refuse)
            && (s.Unreadable? ==> exists i :: 0 <= i < |rows| && rows[i].id == s.at
                                    && SplitSlot(rows[i].slot).None?)
            && (s.Cleared? ==> forall k :: 0 <= k < |todo| && rows[todo[k]].id != rows[x].id ==>
                                 && SplitSlot(rows[todo[k]].slot).Some?
                                 && (SlotsOverlap(rows[x].slot, rows[todo[k]].slot) ==>
                                       s.rows[todo[k]] == rows[todo[k]].(status := Rejected, overrideBy := Some(ownerId))))
    decreases |todo|
  {
    if |todo| > 0 {
      var j := todo[0];
      var rest := todo[1..];
      assert forall k :: 1 <= k < |todo| ==> todo[k] == rest[k - 1];
      if rows[j].id == rows[x].id {
        ApproveScanEffect(users, rows, rest, x, owner, ownerId);
      } else if SplitSlot(rows[j].slot).Some? && SplitSlot(rows[x].slot).Some? {
        if !SlotsOverlap(rows[x].slot, rows[j].slot) {
          ApproveScanEffect(users, rows, rest, x, owner, ownerId);
        } else if ApproveAction(owner, users[rows[j].owner]) == Override {
          var demoted := Demote(rows, j, ownerId);
          ApproveScanEffect(users, demoted, rest, x, owner, ownerId);
          var s := ApproveScan(users, demoted, rest, x, owner, ownerId);
          assert s == ApproveScan(users, rows, todo, x, owner, ownerId);
          forall i | 0 <= i < |rows|
            ensures || s.rows[i] == rows[i]
                    || (&& s.rows[i] == rows[i].(status := Rejected, overrideBy := Some(ownerId))
                        && i in todo && rows[i].id != rows[x].id
                        && SlotsOverlap(rows[x].slot, rows[i].slot)
                        && ApproveAction(owner, users[rows[i].owner]) == Override)
          {
            if i == j {
              assert todo[0] == j;
            }
          }
          if s.Unreadable? {
            var i :| 0 <= i < |demoted| && demoted[i].id == s.at && SplitSlot(demoted[i].slot).None?;
            assert rows[i].id == s.at && SplitSlot(rows[i].slot).None?;
          }
          if s.Cleared? {
            forall k | 0 <= k < |todo| && rows[todo[k]].id != rows[x].id
              ensures && SplitSlot(rows[todo[k]].slot).Some?
                      && (SlotsOverlap(rows[x].slot, rows[todo[k]].slot) ==>
                            s.rows[todo[k]] == rows[todo[k]].(status := Rejected, overrideBy := Some(ownerId)))
            {
              if k > 0 {
                assert todo[k] == rest[k - 1];
              }
            }
          }
        }
      }
    }
  }

  /**
   * Row i was walked past by an `approve_booking` walk for the booking at x that
   * left `after`: it carries the booking's own key, or both slots were readable and,
   * if they overlap, the owner overrode it and it is Rejected with the owner's mark.
   */
  predicate ApprovePassedRow(users: map<UserId, User>, rows: seq<Booking>, after: seq<Booking>, i: nat, x: nat,
                             owner: User, ownerId: UserId)
    requires OwnersKnown(users, rows) && i < |rows| && x < |rows| && |after| == |rows|
  {
    || rows[i].id == rows[x].id
    || (&& SplitSlot(rows[i].slot).Some? && SplitSlot(rows[x].slot).Some?
        && (SlotsOverlap(rows[x].slot, rows[i].slot) ==>
              && ApproveAction(owner, users[rows[i].owner]) == Override
              && after[i] == rows[i].(status := Rejected, overrideBy := Some(ownerId))))
  }

  /**
   * The `approve_booking` walk over `todo` that ended in `s` stopped at fetched row
   * m, of another key: the refusing row, or a row where its own slot or the
   * booking's could not be read. The rows fetched before it were walked past; it
   * and the rows fetched after it are as they were.
   */
  predicate ApproveStopsAt(users: map<UserId, User>, rows: seq<Booking>, todo: seq<nat>, x: nat, s: Scan, m: nat,
                           owner: User, ownerId: UserId)
    requires OwnersKnown(users, rows) && Positions(todo, rows) && x < |rows| && |s.rows| == |rows|
  {
    && m < |todo| && rows[todo[m]].id != rows[x].id
    && (s.Blocked? ==> && rows[todo[m]].id == s.blocking && SlotsOverlap(rows[x].slot, rows[todo[m]].slot)
                       && ApproveAction(owner, users[rows[todo[m]].owner]) == Refuse)
    && (s.Unreadable? ==> || (rows[todo[m]].id == s.at && SplitSlot(rows[todo[m]].slot).None?)
                          || (rows[x].id == s.at && SplitSlot(rows[x].slot).None?))
    && (forall k :: 0 <= k < m ==> ApprovePassedRow(users, rows, s.rows, todo[k], x, owner, ownerId))
    && (forall k :: m <= k < |todo| ==> s.rows[todo[k]] == rows[todo[k]])
  }

  /**
   * An `approve_booking` walk that does not get through stops at some fetched row
   * of another key: each override committed before it stays, although the approval
   * fails, and nothing from the stopping row on is touched.
   */
  lemma {:induction false} ApproveScanStop(users: map<UserId, User>, rows: seq<Booking>, todo: seq<nat>, x: nat,
                                           owner: User, ownerId: UserId)
    requires OwnersKnown(users, rows) && Positions(todo, rows) && x < |rows| && Ascending(todo)
    ensures var s := ApproveScan(users, rows, todo, x, owner, ownerId);
            && |s.rows| == |rows|
            && (!s.Cleared? ==> exists m :: ApproveStopsAt(users, rows, todo, x, s, m, owner, ownerId))
    decreases |todo|
  {
    ApproveScanEffect(users, rows, todo, x, owner, ownerId);
    if |todo| > 0 {
      var j := todo[0];
      var rest := todo[1..];
      var s := ApproveScan(users, rows, todo, x, owner, ownerId);
      if rows[j].id != rows[x].id
         && (|| SplitSlot(rows[j].slot).None? || SplitSlot(rows[x].slot).None?
             || (SlotsOverlap(rows[x].slot, rows[j].slot) && ApproveAction(owner, users[rows[j].owner]) != Override)) {
        assert ApproveStopsAt(users, rows, todo, x, s, 0, owner, ownerId);
      } else {
        // The walk goes on past row j, over `base`.
        var base := if rows[j].id != rows[x].id && SlotsOverlap(rows[x].slot, rows[j].slot)
                    then Demote(rows, j, ownerId) else rows;
        assert s == ApproveScan(users, base, rest, x, owner, ownerId);
        assert Ascending(rest);
        ApproveScanStop(users, base, rest, x, owner, ownerId);
        ApproveScanEffect(users, base, rest, x, owner, ownerId);
        if !s.Cleared? {
          var m' :| ApproveStopsAt(users, base, rest, x, s, m', owner, ownerId);
          ApproveStopStep(users, rows, base, todo, x, s, m', owner, ownerId);
        }
      }
    }
  }

  /** One step back along the walk: a stop at m' in the rest is a stop at m' + 1 in the whole. */
  lemma ApproveStopStep(users: map<UserId, User>, rows: seq<Booking>, base: seq<Booking>, todo: seq<nat>, x: nat,
                        s: Scan, m': nat, owner: User, ownerId: UserId)
    requires OwnersKnown(users, rows) && Positions(todo, rows) && Ascending(todo) && |todo| > 0 && x < |rows|
    requires |base| == |rows| && |s.rows| == |rows| && OwnersKnown(users, base)
    requires forall i :: 0 <= i < |rows| && i != todo[0] ==> base[i] == rows[i]
    requires base[x].id == rows[x].id && base[x].slot == rows[x].slot
    requires ApprovePassedRow(users, rows, s.rows, todo[0], x, owner, ownerId)
    requires ApproveStopsAt(users, base, todo[1..], x, s, m', owner, ownerId)
    ensures ApproveStopsAt(users, rows, todo, x, s, m' + 1, owner, ownerId)
  {
    var rest := todo[1..];
    forall k | 0 <= k < m' + 1
      ensures ApprovePassedRow(users, rows, s.rows, todo[k], x, owner, ownerId)
    {
      if k > 0 {
        assert todo[k] == rest[k - 1] && todo[0] < todo[k];
        assert ApprovePassedRow(users, base, s.rows, rest[k - 1], x, owner, ownerId);
      }
    }
    forall k | m' + 1 <= k < |todo|
      ensures s.rows[todo[k]] == rows[todo[k]]
    {
      assert todo[k] == rest[k - 1] && todo[0] < todo[k];
    }
    assert todo[m' + 1] == rest[m'] && todo[0] < todo[m' + 1];
  }

  // ---------------------------------------------------------------------------
  // Properties of new_booking
  // ---------------------------------------------------------------------------

  /** The slot checks run before any conflict is looked at: a slot outside them changes nothing. */
  lemma SubmitChecksSlotFirst(users: map<UserId, User>, rows: seq<Booking>, actorId: UserId, venue: VenueId,
                              date: Option<Date>, start: string, end: string, upload: Option<string>)
    requires WellFormed(users, rows)
    requires !Less(start, end) || Less(start, Opening) || Less(Closing, end)
    ensures SubmitOutcome(users, rows, actorId, venue, date, start, end, upload).result.Err?
    ensures SubmitOutcome(users, rows, actorId, venue, date, start, end, upload).rows == rows
  {
    CheckWindowAccepts(start, end);
  }

  /**
   * A request that gets through appends one Pending row with a fresh key, owned by
   * the requester, no override mark, and the slot text start-end, which splits back
   * into the requested times.
   */
  lemma SubmitAppendsOnePending(users: map<UserId, User>, rows: seq<Booking>, actorId: UserId, venue: VenueId,
                                date: Option<Date>, start: string, end: string, upload: Option<string>)
    requires WellFormed(users, rows)
    requires SubmitOutcome(users, rows, actorId, venue, date, start, end, upload).result.Ok?
    ensures var o := SubmitOutcome(users, rows, actorId, venue, date, start, end, upload);
            && SessionUser(users, actorId).Some? && date.Some? && CheckWindow(start, end) == InWindow
            && |o.rows| == |rows| + 1
            && o.rows[|rows|] == Booking(o.result.value, actorId, venue, date.value, JoinSlot(start, end),
                                         Pending, None, StoredDocument(upload))
            && (forall i :: 0 <= i < |rows| ==> rows[i].id < o.result.value)
            && ('-' !in start && '-' !in end ==> SplitSlot(o.rows[|rows|].slot) == Some((start, end)))
  {
    ScanKeepsKeys(users, rows, Query(rows, venue, date.value), users[actorId], actorId, start, end);
    if '-' !in start && '-' !in end {
      SplitJoin(start, end);
    }
  }

  /**
   * The frame of `new_booking`: a row that existed before is either unchanged, or it
   * was an Approved booking of the same venue and date whose slot overlaps the request,
   * the requester may override its owner, and only its status (now Rejected) and its
   * override mark (now the requester) changed. This holds on every outcome, refusals
   * included, and only a request that gets through adds a row.
   */
  lemma SubmitFrame(users: map<UserId, User>, rows: seq<Booking>, actorId: UserId, venue: VenueId,
                    date: Option<Date>, start: string, end: string, upload: Option<string>)
    requires WellFormed(users, rows)
    ensures var o := SubmitOutcome(users, rows, actorId, venue, date, start, end, upload);
            && |o.rows| == |rows| + (if o.result.Ok? then 1 else 0)
            && forall i :: 0 <= i < |rows| ==>
                 || o.rows[i] == rows[i]
                 || (&& o.rows[i] == rows[i].(status := Rejected, overrideBy := Some(actorId))
                     && actorId in users && date.Some?
                     && InQuery(rows[i], venue, date.value) && Hits(start, end, rows[i].slot)
                     && SubmitAction(users[actorId], users[rows[i].owner]) == Override)
  {
    if SessionUser(users, actorId).Some? && date.Some? && CheckWindow(start, end) == InWindow {
      var todo := Query(rows, venue, date.value);
      SubmitScanEffect(users, rows, todo, users[actorId], actorId, start, end);
    }
  }

  /** A refusal names an overlapping Approved booking of the venue and date whose owner the requester may not override. */
  lemma SubmitRefusalHasCause(users: map<UserId, User>, rows: seq<Booking>, actorId: UserId, venue: VenueId,
                              date: Option<Date>, start: string, end: string, upload: Option<string>, b: BookingId)
    requires WellFormed(users, rows)
    requires SubmitOutcome(users, rows, actorId, venue, date, start, end, upload).result == Err(Conflict(b))
    ensures actorId in users && date.Some?
    ensures exists i :: && 0 <= i < |rows| && rows[i].id == b
                        && InQuery(rows[i], venue, date.value) && Hits(start, end, rows[i].slot)
                        && SubmitAction(users[actorId], users[rows[i].owner]) == Refuse
  {
    var todo := Query(rows, venue, date.value);
    SubmitScanEffect(users, rows, todo, users[actorId], actorId, start, end);
    var k :| 0 <= k < |todo| && rows[todo[k]].id == b && Hits(start, end, rows[todo[k]].slot)
             && SubmitAction(users[actorId], users[rows[todo[k]].owner]) == Refuse;
    assert InQuery(rows[todo[k]], venue, date.value);
  }

  /**
   * When a request gets through, every Approved booking of the venue and date had a
   * readable slot, none that overlaps was refusing, and every overlapping one whose
   * owner the requester outranks is now Rejected with the requester's mark.
   */
  lemma SubmitSuccessOverridesEveryOutranked(users: map<UserId, User>, rows: seq<Booking>, actorId: UserId,
                                             venue: VenueId, date: Option<Date>, start: string, end: string,
                                             upload: Option<string>)
    requires WellFormed(users, rows)
    requires SubmitOutcome(users, rows, actorId, venue, date, start, end, upload).result.Ok?
    ensures actorId in users && date.Some?
    ensures var o := SubmitOutcome(users, rows, actorId, venue, date, start, end, upload);
            |o.rows| == |rows| + 1 &&
            forall i :: 0 <= i < |rows| && InQuery(rows[i], venue, date.value) ==>
              && SplitSlot(rows[i].slot).Some?
              && (Hits(start, end, rows[i].slot) ==>
                    && SubmitAction(users[actorId], users[rows[i].owner]) != Refuse
                    && (SubmitAction(users[actorId], users[rows[i].owner]) == Override ==>
                          o.rows[i] == rows[i].(status := Rejected, overrideBy := Some(actorId))))
  {
    var o := SubmitOutcome(users, rows, actorId, venue, date, start, end, upload);
    var todo := Query(rows, venue, date.value);
    SubmitFrame(users, rows, actorId, venue, date, start, end, upload);
    SubmitScanEffect(users, rows, todo, users[actorId], actorId, start, end);
    var s := SubmitScan(users, rows, todo, users[actorId], actorId, start, end);
    forall i | 0 <= i < |rows| && InQuery(rows[i], venue, date.value)
      ensures && SplitSlot(rows[i].slot).Some?
              && (Hits(start, end, rows[i].slot) ==>
                    && SubmitAction(users[actorId], users[rows[i].owner]) != Refuse
                    && (SubmitAction(users[actorId], users[rows[i].owner]) == Override ==>
                          o.rows[i] == rows[i].(status := Rejected, overrideBy := Some(actorId))))
    {
      var k :| 0 <= k < |todo| && todo[k] == i;
      assert o.rows[i] == s.rows[i];
    }
  }

  /** A `new_booking` walk touches no row it did not fetch. */
  lemma SubmitScanOutside(users: map<UserId, User>, rows: seq<Booking>, todo: seq<nat>,
                          requester: User, rid: UserId, start: string, end: string)
    requires OwnersKnown(users, rows) && Positions(todo, rows)
    ensures var s := SubmitScan(users, rows, todo, requester, rid, start, end);
            |s.rows| == |rows| && forall h :: 0 <= h < |rows| && h !in todo ==> s.rows[h] == rows[h]
  {
    SubmitScanEffect(users, rows, todo, requester, rid, start, end);
  }

  /**
   * The stop of a `new_booking` walk over ascending positions, in table positions:
   * the row with the key the walk stopped at was fetched; every fetched row before
   * it was walked past; it and every row after it are untouched.
   */
  lemma SubmitStopPositions(users: map<UserId, User>, rows: seq<Booking>, todo: seq<nat>,
                            requester: User, rid: UserId, start: string, end: string, c: BookingId)
    requires WellFormed(users, rows) && Positions(todo, rows) && Ascending(todo)
    requires var s := SubmitScan(users, rows, todo, requester, rid, start, end);
             (s.Blocked? && s.blocking == c) || (s.Unreadable? && s.at == c)
    ensures Find(rows, c).Some?
    ensures var s := SubmitScan(users, rows, todo, requester, rid, start, end);
            var i := Find(rows, c).value;
            && |s.rows| == |rows|
            && i in todo
            && (s.Unreadable? ==> SplitSlot(rows[i].slot).None?)
            && (s.Blocked? ==> Hits(start, end, rows[i].slot) && SubmitAction(requester, users[rows[i].owner]) == Refuse)
            && (forall h :: 0 <= h < i && h in todo ==>
                  SubmitPassedRow(users, rows, s.rows, h, requester, rid, start, end))
            && (forall h :: i <= h < |rows| ==> s.rows[h] == rows[h])
  {
    SubmitScanStop(users, rows, todo, requester, rid, start, end);
    SubmitScanOutside(users, rows, todo, requester, rid, start, end);
    var s := SubmitScan(users, rows, todo, requester, rid, start, end);
    var m: nat :| SubmitStopsAt(users, rows, todo, s, m, requester, rid, start, end);
    var i := todo[m];
    assert Find(rows, c) == Some(i);
    forall h | 0 <= h < i && h in todo
      ensures SubmitPassedRow(users, rows, s.rows, h, requester, rid, start, end)
    {
      var k :| 0 <= k < |todo| && todo[k] == h;
      assert k < m;
    }
    forall h | i <= h < |rows|
      ensures s.rows[h] == rows[h]
    {
      if h in todo {
        var k :| 0 <= k < |todo| && todo[k] == h;
        assert m <= k;
      }
    }
  }

  /**
   * When `new_booking` is refused by a conflict or stops at an unreadable slot, the
   * row named in the error is an Approved booking of the venue and date. Every such
   * booking before it in key order was readable and did not refuse, and each one
   * the requester outranks stays Rejected with the requester's mark, though the
   * request failed. The named row and every row after it are as they were.
   */
  lemma SubmitFailureKeepsEarlierOverrides(users: map<UserId, User>, rows: seq<Booking>, actorId: UserId,
                                           venue: VenueId, date: Option<Date>, start: string, end: string,
                                           upload: Option<string>, c: BookingId)
    requires WellFormed(users, rows)
    requires var r := SubmitOutcome(users, rows, actorId, venue, date, start, end, upload).result;
             r == Err(Conflict(c)) || r == Err(MalformedSlot(c))
    ensures actorId in users && date.Some? && Find(rows, c).Some?
    ensures var o := SubmitOutcome(users, rows, actorId, venue, date, start, end, upload);
            var i := Find(rows, c).value;
            && |o.rows| == |rows|
            && InQuery(rows[i], venue, date.value)
            && (o.result == Err(MalformedSlot(c)) ==> SplitSlot(rows[i].slot).None?)
            && (o.result == Err(Conflict(c)) ==>
                  Hits(start, end, rows[i].slot) && SubmitAction(users[actorId], users[rows[i].owner]) == Refuse)
            && (forall h :: 0 <= h < i && InQuery(rows[h], venue, date.value) ==>
                  SubmitPassedRow(users, rows, o.rows, h, users[actorId], actorId, start, end))
            && (forall h :: i <= h < |rows| ==> o.rows[h] == rows[h])
  {
    var todo := Query(rows, venue, date.value);
    var s := SubmitScan(users, rows, todo, users[actorId], actorId, start, end);
    assert SubmitOutcome(users, rows, actorId, venue, date, start, end, upload).rows == s.rows;
    SubmitStopPositions(users, rows, todo, users[actorId], actorId, start, end, c);
  }

  /**
   * A regular student never changes an existing booking, and gets through only when
   * no Approved booking of the venue and date overlaps the request.
   */
  lemma RegularStudentSubmitChangesNothing(users: map<UserId, User>, rows: seq<Booking>, actorId: UserId,
                                           venue: VenueId, date: Option<Date>, start: string, end: string,
                                           upload: Option<string>)
    requires WellFormed(users, rows)
    requires actorId in users && users[actorId].role == Student && !users[actorId].isRepresentative
    ensures var o := SubmitOutcome(users, rows, actorId, venue, date, start, end, upload);
            && |o.rows| >= |rows| && o.rows[..|rows|] == rows
            && (o.result.Ok? ==> date.Some? && forall i :: 0 <= i < |rows| && InQuery(rows[i], venue, date.value) ==>
                                                  !Hits(start, end, rows[i].slot))
  {
    var o := SubmitOutcome(users, rows, actorId, venue, date, start, end, upload);
    SubmitFrame(users, rows, actorId, venue, date, start, end, upload);
    assert o.rows[..|rows|] == rows;
    if o.result.Ok? {
      SubmitSuccessOverridesEveryOutranked(users, rows, actorId, venue, date, start, end, upload);
    }
  }

  /** `new_booking` keeps the table well formed and never creates a double booking. */
  lemma SubmitKeepsInvariants(users: map<UserId, User>, rows: seq<Booking>, actorId: UserId, venue: VenueId,
                              date: Option<Date>, start: string, end: string, upload: Option<string>)
    requires WellFormed(users, rows) && NoDoubleBooking(rows)
    ensures var o := SubmitOutcome(users, rows, actorId, venue, date, start, end, upload);
            WellFormed(users, o.rows) && NoDoubleBooking(o.rows)
  {
    var o := SubmitOutcome(users, rows, actorId, venue, date, start, end, upload);
    SubmitFrame(users, rows, actorId, venue, date, start, end, upload);
    if o.result.Ok? {
      SubmitAppendsOnePending(users, rows, actorId, venue, date, start, end, upload);
    }
    forall i, j | 0 <= i < |o.rows| && 0 <= j < |o.rows| && i != j
      ensures !Clash(o.rows[i], o.rows[j])
    {
      if i < |rows| && j < |rows| {
        assert !Clash(rows[i], rows[j]);
      }
    }
  }

  // ---------------------------------------------------------------------------
  // Properties of approve_booking
  // ---------------------------------------------------------------------------

  /**
   * The frame of `approve_booking` for an existing booking `b`: `b` is unchanged except
   * that it becomes Approved on success; any other row is unchanged, or it was an
   * Approved booking of b's venue and date whose slot overlaps b's, b's owner may
   * override its owner, and it is now Rejected with b's owner as the overrider.
   */
  lemma ApproveFrame(users: map<UserId, User>, rows: seq<Booking>, actorId: UserId, bookingId: BookingId)
    requires WellFormed(users, rows)
    ensures var o := ApproveOutcome(users, rows, actorId, bookingId);
            && (Find(rows, bookingId).None? ==> o.rows == rows && o.result.Err?)
            && (o.result.Ok? ==> AdminRequired(SessionUser(users, actorId)))
            && (Find(rows, bookingId).Some? ==>
                  var x := Find(rows, bookingId).value;
                  var b := rows[x];
                  && |o.rows| == |rows|
                  && o.rows[x] == (if o.result.Ok? then b.(status := Approved) else b)
                  && forall i :: 0 <= i < |rows| && i != x ==>
                       || o.rows[i] == rows[i]
                       || (&& o.rows[i] == rows[i].(status := Rejected, overrideBy := Some(b.owner))
                           && InQuery(rows[i], b.venue, b.date) && SlotsOverlap(b.slot, rows[i].slot)
                           && ApproveAction(users[b.owner], users[rows[i].owner]) == Override))
  {
    if AdminGate(users, actorId).None? && Find(rows, bookingId).Some? {
      var x := Find(rows, bookingId).value;
      var b := rows[x];
      ApproveScanEffect(users, rows, Query(rows, b.venue, b.date), x, users[b.owner], b.owner);
    }
  }

  /**
   * On success every other Approved booking of the venue and date that overlaps the
   * approved one has been overridden: it is Rejected, with the owner's mark.
   */
  lemma ApproveSuccessClearsOverlaps(users: map<UserId, User>, rows: seq<Booking>, actorId: UserId,
                                     bookingId: BookingId)
    requires WellFormed(users, rows)
    requires ApproveOutcome(users, rows, actorId, bookingId).result.Ok?
    ensures Find(rows, bookingId).Some?
    ensures var x := Find(rows, bookingId).value;
            var b := rows[x];
            var o := ApproveOutcome(users, rows, actorId, bookingId);
            |o.rows| == |rows| &&
            forall i :: 0 <= i < |rows| && i != x && InQuery(rows[i], b.venue, b.date)
                        && SlotsOverlap(b.slot, rows[i].slot) ==>
                          o.rows[i] == rows[i].(status := Rejected, overrideBy := Some(b.owner))
  {
    var x := Find(rows, bookingId).value;
    var b := rows[x];
    var todo := Query(rows, b.venue, b.date);
    ApproveScanEffect(users, rows, todo, x, users[b.owner], b.owner);
    var o := ApproveOutcome(users, rows, actorId, bookingId);
    var s := ApproveScan(users, rows, todo, x, users[b.owner], b.owner);
    forall i | 0 <= i < |rows| && i != x && InQuery(rows[i], b.venue, b.date) && SlotsOverlap(b.slot, rows[i].slot)
      ensures o.rows[i] == rows[i].(status := Rejected, overrideBy := Some(b.owner))
    {
      var k :| 0 <= k < |todo| && todo[k] == i;
      assert rows[i].id != rows[x].id;
      assert o.rows[i] == s.rows[i];
    }
  }

  /**
   * A refusal names an overlapping Approved booking of the venue and date, never the
   * booking being approved, whose owner the approved booking's owner may not override.
   */
  lemma ApproveRefusalHasCause(users: map<UserId, User>, rows: seq<Booking>, actorId: UserId,
                               bookingId: BookingId, c: BookingId)
    requires WellFormed(users, rows)
    requires ApproveOutcome(users, rows, actorId, bookingId).result == Err(Conflict(c))
    ensures c != bookingId && Find(rows, bookingId).Some?
    ensures var b := rows[Find(rows, bookingId).value];
            exists i :: && 0 <= i < |rows| && rows[i].id == c
                        && InQuery(rows[i], b.venue, b.date) && SlotsOverlap(b.slot, rows[i].slot)
                        && ApproveAction(users[b.owner], users[rows[i].owner]) == Refuse
  {
    var x := Find(rows, bookingId).value;
    var b := rows[x];
    var todo := Query(rows, b.venue, b.date);
    ApproveScanEffect(users, rows, todo, x, users[b.owner], b.owner);
    var k :| 0 <= k < |todo| && rows[todo[k]].id == c && c != rows[x].id
             && SlotsOverlap(b.slot, rows[todo[k]].slot)
             && ApproveAction(users[b.owner], users[rows[todo[k]].owner]) == Refuse;
    assert InQuery(rows[todo[k]], b.venue, b.date);
  }

  /** An `approve_booking` walk touches no row it did not fetch, and never the booking itself. */
  lemma ApproveScanOutside(users: map<UserId, User>, rows: seq<Booking>, todo: seq<nat>, x: nat,
                           owner: User, ownerId: UserId)
    requires OwnersKnown(users, rows) && Positions(todo, rows) && x < |rows|
    ensures var s := ApproveScan(users, rows, todo, x, owner, ownerId);
            && |s.rows| == |rows| && s.rows[x] == rows[x]
            && forall h :: 0 <= h < |rows| && h !in todo ==> s.rows[h] == rows[h]
  {
    ApproveScanEffect(users, rows, todo, x, owner, ownerId);
  }

  /**
   * The stop of an `approve_booking` walk for the booking at x over ascending
   * positions, in table positions. When the walk stops at the booking's own key,
   * its own slot could not be read and nothing changed. Otherwise the row with the
   * key it stopped at was fetched; every fetched row of another key before it whose
   * slot overlaps was overridden; it and every row after it are untouched.
   */
  lemma ApproveStopPositions(users: map<UserId, User>, rows: seq<Booking>, todo: seq<nat>, x: nat,
                             owner: User, ownerId: UserId, c: BookingId)
    requires WellFormed(users, rows) && Positions(todo, rows) && Ascending(todo) && x < |rows|
    requires var s := ApproveScan(users, rows, todo, x, owner, ownerId);
             (s.Blocked? && s.blocking == c) || (s.Unreadable? && s.at == c)
    ensures var s := ApproveScan(users, rows, todo, x, owner, ownerId);
            && |s.rows| == |rows|
            && (c == rows[x].id ==> s.rows == rows)
            && (c != rows[x].id ==>
                  && Find(rows, c).Some?
                  && var i := Find(rows, c).value;
                  && i in todo
                  && (forall h :: 0 <= h < i && h != x && h in todo && SlotsOverlap(rows[x].slot, rows[h].slot) ==>
                        && ApproveAction(owner, users[rows[h].owner]) == Override
                        && s.rows[h] == rows[h].(status := Rejected, overrideBy := Some(ownerId)))
                  && (forall h :: i <= h < |rows| ==> s.rows[h] == rows[h]))
  {
    ApproveScanStop(users, rows, todo, x, owner, ownerId);
    var s := ApproveScan(users, rows, todo, x, owner, ownerId);
    var m: nat :| ApproveStopsAt(users, rows, todo, x, s, m, owner, ownerId);
    if c == rows[x].id {
      ApproveStopAtSelf(users, rows, todo, x, owner, ownerId, m);
    } else {
      ApproveStopAtOther(users, rows, todo, x, owner, ownerId, m, c);
    }
  }

  /** A walk that stops with the booking's own key found its slot unreadable and changed nothing. */
  lemma ApproveStopAtSelf(users: map<UserId, User>, rows: seq<Booking>, todo: seq<nat>, x: nat,
                          owner: User, ownerId: UserId, m: nat)
    requires WellFormed(users, rows) && Positions(todo, rows) && Ascending(todo) && x < |rows|
    requires var s := ApproveScan(users, rows, todo, x, owner, ownerId);
             && s.Unreadable? && s.at == rows[x].id && |s.rows| == |rows|
             && ApproveStopsAt(users, rows, todo, x, s, m, owner, ownerId)
    ensures ApproveScan(users, rows, todo, x, owner, ownerId).rows == rows
  {
    ApproveScanOutside(users, rows, todo, x, owner, ownerId);
    var s := ApproveScan(users, rows, todo, x, owner, ownerId);
    assert SplitSlot(rows[x].slot).None?;
    forall h | 0 <= h < |rows|
      ensures s.rows[h] == rows[h]
    {
      if h in todo && h != x {
        var k :| 0 <= k < |todo| && todo[k] == h;
        assert rows[h].id != rows[x].id;
        assert !ApprovePassedRow(users, rows, s.rows, h, x, owner, ownerId);
        assert m <= k;
      }
    }
  }

  /** A walk that stops at another key: the overrides before that row stay, nothing from it on changed. */
  lemma ApproveStopAtOther(users: map<UserId, User>, rows: seq<Booking>, todo: seq<nat>, x: nat,
                           owner: User, ownerId: UserId, m: nat, c: BookingId)
    requires WellFormed(users, rows) && Positions(todo, rows) && Ascending(todo) && x < |rows|
    requires var s := ApproveScan(users, rows, todo, x, owner, ownerId);
             && ((s.Blocked? && s.blocking == c) || (s.Unreadable? && s.at == c))
             && c != rows[x].id && |s.rows| == |rows|
             && ApproveStopsAt(users, rows, todo, x, s, m, owner, ownerId)
    ensures var s := ApproveScan(users, rows, todo, x, owner, ownerId);
            && Find(rows, c) == Some(todo[m])
            && (forall h :: 0 <= h < todo[m] && h != x && h in todo && SlotsOverlap(rows[x].slot, rows[h].slot) ==>
                  && ApproveAction(owner, users[rows[h].owner]) == Override
                  && s.rows[h] == rows[h].(status := Rejected, overrideBy := Some(ownerId)))
            && (forall h :: todo[m] <= h < |rows| ==> s.rows[h] == rows[h])
  {
    ApproveScanOutside(users, rows, todo, x, owner, ownerId);
    var s := ApproveScan(users, rows, todo, x, owner, ownerId);
    var i := todo[m];
    assert Find(rows, c) == Some(i);
    forall h | 0 <= h < i && h != x && h in todo && SlotsOverlap(rows[x].slot, rows[h].slot)
      ensures && ApproveAction(owner, users[rows[h].owner]) == Override
              && s.rows[h] == rows[h].(status := Rejected, overrideBy := Some(ownerId))
    {
      var k :| 0 <= k < |todo| && todo[k] == h;
      assert k < m;
      assert ApprovePassedRow(users, rows, s.rows, h, x, owner, ownerId);
    }
    forall h | i <= h < |rows|
      ensures s.rows[h] == rows[h]
    {
      if h in todo {
        var k :| 0 <= k < |todo| && todo[k] == h;
        assert m <= k;
      }
    }
  }

  /**
   * When `approve_booking` is refused by a conflict, or stops at another booking's
   * unreadable slot, the row named in the error is another Approved booking of the
   * venue and date. Every such booking before it in key order whose slot overlaps
   * stays Rejected with the owner's mark, though the approval failed. The named row
   * and every row after it are as they were. When the booking's own slot cannot be
   * read, nothing changes.
   */
  lemma ApproveFailureKeepsEarlierOverrides(users: map<UserId, User>, rows: seq<Booking>, actorId: UserId,
                                            bookingId: BookingId, c: BookingId)
    requires WellFormed(users, rows)
    requires var r := ApproveOutcome(users, rows, actorId, bookingId).result;
             r == Err(Conflict(c)) || r == Err(MalformedSlot(c))
    ensures Find(rows, bookingId).Some?
    ensures var o := ApproveOutcome(users, rows, actorId, bookingId);
            var x := Find(rows, bookingId).value;
            var b := rows[x];
            && |o.rows| == |rows|
            && (c == bookingId ==> o.rows == rows)
            && (c != bookingId ==>
                  && Find(rows, c).Some?
                  && var i := Find(rows, c).value;
                  && InQuery(rows[i], b.venue, b.date)
                  && (forall h :: (0 <= h < i && h != x && InQuery(rows[h], b.venue, b.date)
                                   && SlotsOverlap(b.slot, rows[h].slot)) ==>
                        && ApproveAction(users[b.owner], users[rows[h].owner]) == Override
                        && o.rows[h] == rows[h].(status := Rejected, overrideBy := Some(b.owner)))
                  && (forall h :: i <= h < |rows| ==> o.rows[h] == rows[h]))
  {
    var x := Find(rows, bookingId).value;
    var b := rows[x];
    var todo := Query(rows, b.venue, b.date);
    var s := ApproveScan(users, rows, todo, x, users[b.owner], b.owner);
    assert ApproveOutcome(users, rows, actorId, bookingId).rows == s.rows;
    ApproveStopPositions(users, rows, todo, x, users[b.owner], b.owner, c);
  }

  /** `approve_booking` keeps the table well formed and never creates a double booking. */
  lemma ApproveKeepsInvariants(users: map<UserId, User>, rows: seq<Booking>, actorId: UserId, bookingId: BookingId)
    requires WellFormed(users, rows) && NoDoubleBooking(rows)
    ensures var o := ApproveOutcome(users, rows, actorId, bookingId);
            WellFormed(users, o.rows) && NoDoubleBooking(o.rows)
  {
    var o := ApproveOutcome(users, rows, actorId, bookingId);
    ApproveFrame(users, rows, actorId, bookingId);
    if Find(rows, bookingId).Some? {
      var x := Find(rows, bookingId).value;
      var b := rows[x];
      if o.result.Ok? {
        ApproveSuccessClearsOverlaps(users, rows, actorId, bookingId);
      }
      forall i, j | 0 <= i < |o.rows| && 0 <= j < |o.rows| && i != j
        ensures !Clash(o.rows[i], o.rows[j])
      {
        if i != x && j != x {
          assert !Clash(rows[i], rows[j]);
        } else if i == x && o.rows[j].status == Approved {
          assert o.rows[j] == rows[j];
          SlotsOverlapSymmetric(b.slot, rows[j].slot);
        } else if j == x && o.rows[i].status == Approved {
          assert o.rows[i] == rows[i];
          SlotsOverlapSymmetric(b.slot, rows[i].slot);
        }
      }
    }
  }

  /** The fetched positions whose rows carry another key than `id`, in order. */
  function OtherKeys(rows: seq<Booking>, todo: seq<nat>, id: BookingId): (r: seq<nat>)
    requires Positions(todo, rows)
    ensures Positions(r, rows) && |r| <= |todo|
    ensures forall k :: 0 <= k < |r| ==> rows[r[k]].id != id && r[k] in todo
    decreases |todo|
  {
    if |todo| == 0 then []
    else if rows[todo[0]].id == id then OtherKeys(rows, todo[1..], id)
    else [todo[0]] + OtherKeys(rows, todo[1..], id)
  }

  /** Changing rows without changing their keys keeps which positions carry another key. */
  lemma {:induction false} OtherKeysByKey(rows: seq<Booking>, rows': seq<Booking>, todo: seq<nat>, id: BookingId)
    requires Positions(todo, rows) && |rows'| == |rows|
    requires forall i :: 0 <= i < |rows| ==> rows'[i].id == rows[i].id
    ensures OtherKeys(rows', todo, id) == OtherKeys(rows, todo, id)
    decreases |todo|
  {
    if |todo| > 0 {
      OtherKeysByKey(rows, rows', todo[1..], id);
    }
  }

  /**
   * The approve walk skips the booking's own key: dropping every fetched row with
   * that key leaves the walk exactly as it was, so the booking never conflicts with
   * itself, however it appears among the fetched rows.
   */
  lemma {:induction false} ApproveScanSkipsSelf(users: map<UserId, User>, rows: seq<Booking>, todo: seq<nat>,
                                                x: nat, owner: User, ownerId: UserId)
    requires OwnersKnown(users, rows) && Positions(todo, rows) && x < |rows|
    ensures ApproveScan(users, rows, todo, x, owner, ownerId)
            == ApproveScan(users, rows, OtherKeys(rows, todo, rows[x].id), x, owner, ownerId)
    decreases |todo|
  {
    if |todo| > 0 {
      var j := todo[0];
      var rest := todo[1..];
      var others := OtherKeys(rows, todo, rows[x].id);
      ApproveScanSkipsSelf(users, rows, rest, x, owner, ownerId);
      if rows[j].id != rows[x].id {
        assert others[0] == j && others[1..] == OtherKeys(rows, rest, rows[x].id);
        if SplitSlot(rows[j].slot).Some? && SplitSlot(rows[x].slot).Some? && SlotsOverlap(rows[x].slot, rows[j].slot)
           && ApproveAction(owner, users[rows[j].owner]) == Override {
          var demoted := Demote(rows, j, ownerId);
          ApproveScanSkipsSelf(users, demoted, rest, x, owner, ownerId);
          OtherKeysByKey(rows, demoted, rest, rows[x].id);
        }
      }
    }
  }

  /**
   * Approval does not look at the booking's current status: with no other Approved
   * booking at its venue and date, an admin approves even a Rejected or Cancelled one.
   */
  lemma ApproveIgnoresCurrentStatus(users: map<UserId, User>, rows: seq<Booking>, actorId: UserId, x: nat)
    requires WellFormed(users, rows) && x < |rows|
    requires AdminRequired(SessionUser(users, actorId))
    requires forall i :: 0 <= i < |rows| && i != x ==> !InQuery(rows[i], rows[x].venue, rows[x].date)
    ensures ApproveOutcome(users, rows, actorId, rows[x].id).result.Ok?
    ensures ApproveOutcome(users, rows, actorId, rows[x].id).rows == rows[x := rows[x].(status := Approved)]
  {
    assert Find(rows, rows[x].id) == Some(x);
    var b := rows[x];
    var todo := Query(rows, b.venue, b.date);
    ApproveScanSkipsSelf(users, rows, todo, x, users[b.owner], b.owner);
    assert OtherKeys(rows, todo, b.id) == [];
  }
}
