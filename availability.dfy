/**
 * The calendar query `check_availability`: for each slot of a fixed hourly grid,
 * whether an Approved booking of the venue and date overlaps it, and if so whose
 * booking comes first.
 */
module Availability {
  import opened Basics
  import opened Times
  import opened Accounts
  import opened Bookings

  /** The hourly grid from 09:00 to 17:00, as (start, end) pairs. */
  const Grid: seq<(string, string)> := [
    ("09:00", "10:00"), ("10:00", "11:00"), ("11:00", "12:00"), ("12:00", "13:00"),
    ("13:00", "14:00"), ("14:00", "15:00"), ("15:00", "16:00"), ("16:00", "17:00")]

  /** The entry for one grid slot in the response. */
  datatype SlotReport = SlotReport(slot: string, available: bool, bookedBy: Option<string>, userRole: Option<Role>)

  /** What the inner loop finds for one grid slot. */
  datatype Probe = Free | Taken(row: nat) | Unparsable(at: BookingId)

  /** The inner loop: the first fetched row whose slot overlaps [start, end), stopping at an unreadable one. */
  function FirstOverlap(rows: seq<Booking>, todo: seq<nat>, start: string, end: string): (p: Probe)
    requires Positions(todo, rows)
    ensures p.Taken? ==> p.row in todo
    decreases |todo|
  {
    if |todo| == 0 then Free
    else match SplitSlot(rows[todo[0]].slot)
      case None => Unparsable(rows[todo[0]].id)
      case Some(p) =>
        // slot_start < booking_end and slot_end > booking_start
        if Overlaps(start, end, p.0, p.1) then Taken(todo[0])
        else FirstOverlap(rows, todo[1..], start, end)
  }

  /**
   * The inner loop finds nothing exactly when every fetched row is readable and none
   * overlaps; what it finds is the first overlapping row, every earlier one being
   * readable and clear of the slot.
   */
  lemma {:induction false} FirstOverlapMeaning(rows: seq<Booking>, todo: seq<nat>, start: string, end: string)
    requires Positions(todo, rows)
    ensures var p := FirstOverlap(rows, todo, start, end);
            && (p.Free? <==> forall k :: 0 <= k < |todo| ==>
                                SplitSlot(rows[todo[k]].slot).Some? && !Hits(start, end, rows[todo[k]].slot))
            && (p.Taken? ==> exists k :: && 0 <= k < |todo| && todo[k] == p.row
                                         && Hits(start, end, rows[p.row].slot)
                                         && forall l :: 0 <= l < k ==> !Hits(start, end, rows[todo[l]].slot))
            && (p.Unparsable? ==> exists k :: 0 <= k < |todo| && rows[todo[k]].id == p.at
                                              && SplitSlot(rows[todo[k]].slot).None?)
    decreases |todo|
  {
    if |todo| > 0 {
      var rest := todo[1..];
      assert forall k :: 1 <= k < |todo| ==> todo[k] == rest[k - 1];
      FirstOverlapMeaning(rows, rest, start, end);
      var p := FirstOverlap(rows, todo, start, end);
      if SplitSlot(rows[todo[0]].slot).Some? && !Hits(start, end, rows[todo[0]].slot) {
        assert p == FirstOverlap(rows, rest, start, end);
        if p.Taken? {
          var k :| && 0 <= k < |rest| && rest[k] == p.row
                   && Hits(start, end, rows[p.row].slot)
                   && forall l :: 0 <= l < k ==> !Hits(start, end, rows[rest[l]].slot);
          assert todo[k + 1] == p.row;
          forall l | 0 <= l < k + 1
            ensures !Hits(start, end, rows[todo[l]].slot)
          {
            if l > 0 {
              assert todo[l] == rest[l - 1];
            }
          }
        }
        if p.Unparsable? {
          var k :| 0 <= k < |rest| && rows[rest[k]].id == p.at && SplitSlot(rows[rest[k]].slot).None?;
          assert todo[k + 1] == rest[k];
        }
      }
    }
  }

  /** The response entry for the grid slot [start, end). */
  function ReportFor(users: map<UserId, User>, rows: seq<Booking>, todo: seq<nat>,
                     start: string, end: string): Result<SlotReport, Failure>
    requires OwnersKnown(users, rows) && Positions(todo, rows)
  {
    match FirstOverlap(rows, todo, start, end)
    case Unparsable(id) => Err(MalformedSlot(id))
    case Free => Ok(SlotReport(JoinSlot(start, end), true, None, None))
    case Taken(j) =>
      var u := users[rows[j].owner];
      Ok(SlotReport(JoinSlot(start, end), false, Some(u.username), Some(u.role)))
  }

  /** The outer loop over the grid: one entry per slot, in grid order. */
  function Reports(users: map<UserId, User>, rows: seq<Booking>, todo: seq<nat>,
                   grid: seq<(string, string)>): Result<seq<SlotReport>, Failure>
    requires OwnersKnown(users, rows) && Positions(todo, rows)
    decreases |grid|
  {
    if |grid| == 0 then Ok([])
    else match ReportFor(users, rows, todo, grid[0].0, grid[0].1)
      case Err(f) => Err(f)
      case Ok(r) =>
        match Reports(users, rows, todo, grid[1..])
        case Err(f) => Err(f)
        case Ok(rs) => Ok([r] + rs)
  }

  /** A successful response has one entry per grid slot, each the entry for that slot. */
  lemma {:induction false} ReportsPerSlot(users: map<UserId, User>, rows: seq<Booking>, todo: seq<nat>,
                                          grid: seq<(string, string)>)
    requires OwnersKnown(users, rows) && Positions(todo, rows)
    requires Reports(users, rows, todo, grid).Ok?
    ensures var rs := Reports(users, rows, todo, grid).value;
            |rs| == |grid| && forall k :: 0 <= k < |grid| ==> ReportFor(users, rows, todo, grid[k].0, grid[k].1) == Ok(rs[k])
    decreases |grid|
  {
    if |grid| > 0 {
      ReportsPerSlot(users, rows, todo, grid[1..]);
    }
  }

  /**
   * `check_availability`, behind the session check every non-public route gets: the
   * parameter checks, the query, then one entry per grid slot. `venueId` is the
   * parameter as an integer (None when absent or not a number), `dateText` the raw
   * date parameter and `parsed` what `strptime` made of it.
   */
  function AvailabilityOutcome(users: map<UserId, User>, rows: seq<Booking>, actorId: UserId, venueId: Option<int>,
                               dateText: Option<string>, parsed: Option<Date>): Result<seq<SlotReport>, Failure>
    requires WellFormed(users, rows)
  {
    if SessionUser(users, actorId).None? then Err(LoginRequired)
    else if venueId.None? || venueId.value == 0 || dateText.None? || dateText.value == "" then Err(MissingParameters)
    else if parsed.None? then Err(MalformedDate)
    else Reports(users, rows, Query(rows, venueId.value, parsed.value), Grid)
  }

  /** The grid's slot texts read back as its pairs, so splitting them in the loop is a round trip. */
  lemma GridSlotsSplit()
    ensures forall k :: 0 <= k < |Grid| ==> SplitSlot(JoinSlot(Grid[k].0, Grid[k].1)) == Some(Grid[k])
  {
    forall k | 0 <= k < |Grid|
      ensures SplitSlot(JoinSlot(Grid[k].0, Grid[k].1)) == Some(Grid[k])
    {
      SplitJoin(Grid[k].0, Grid[k].1);
    }
  }

  /** Without a session nothing is answered; missing parameters and an unparsable date come before any row is read. */
  lemma AvailabilityErrors(users: map<UserId, User>, rows: seq<Booking>, actorId: UserId, venueId: Option<int>,
                           dateText: Option<string>, parsed: Option<Date>)
    requires WellFormed(users, rows)
    ensures SessionUser(users, actorId).None? ==> AvailabilityOutcome(users, rows, actorId, venueId, dateText, parsed) == Err(LoginRequired)
    ensures SessionUser(users, actorId).Some? && (venueId.None? || venueId == Some(0) || dateText.None? || dateText == Some("")) ==>
              AvailabilityOutcome(users, rows, actorId, venueId, dateText, parsed) == Err(MissingParameters)
    ensures SessionUser(users, actorId).Some? && venueId.Some? && venueId != Some(0) && dateText.Some? && dateText != Some("") && parsed.None? ==>
              AvailabilityOutcome(users, rows, actorId, venueId, dateText, parsed) == Err(MalformedDate)
  {
  }

  /** Over the query's rows, a probe that reads every row finds nothing iff no fetched booking overlaps. */
  lemma QueryProbeFree(rows: seq<Booking>, venue: VenueId, date: Date, start: string, end: string)
    ensures var p := FirstOverlap(rows, Query(rows, venue, date), start, end);
            !p.Unparsable? ==>
              (p.Free? <==> forall i :: 0 <= i < |rows| && InQuery(rows[i], venue, date) ==> !Hits(start, end, rows[i].slot))
  {
    var todo := Query(rows, venue, date);
    FirstOverlapMeaning(rows, todo, start, end);
    var p := FirstOverlap(rows, todo, start, end);
    if p.Free? {
      forall i | 0 <= i < |rows| && InQuery(rows[i], venue, date)
        ensures !Hits(start, end, rows[i].slot)
      {
        var m :| 0 <= m < |todo| && todo[m] == i;
      }
    } else if p.Taken? {
      assert InQuery(rows[p.row], venue, date) && Hits(start, end, rows[p.row].slot);
    }
  }

  /** Over the query's rows, what the probe finds is the first overlapping booking in key order. */
  lemma QueryProbeTaken(rows: seq<Booking>, venue: VenueId, date: Date, start: string, end: string)
    ensures var p := FirstOverlap(rows, Query(rows, venue, date), start, end);
            p.Taken? ==> && p.row < |rows| && InQuery(rows[p.row], venue, date) && Hits(start, end, rows[p.row].slot)
                         && forall h :: 0 <= h < p.row && InQuery(rows[h], venue, date) ==> !Hits(start, end, rows[h].slot)
  {
    var todo := Query(rows, venue, date);
    var p := FirstOverlap(rows, todo, start, end);
    if p.Taken? {
      FirstOverlapMeaning(rows, todo, start, end);
      var j := p.row;
      var m :| && 0 <= m < |todo| && todo[m] == j
               && Hits(start, end, rows[j].slot)
               && forall l :: 0 <= l < m ==> !Hits(start, end, rows[todo[l]].slot);
      forall h | 0 <= h < j && InQuery(rows[h], venue, date)
        ensures !Hits(start, end, rows[h].slot)
      {
        var l :| 0 <= l < |todo| && todo[l] == h;
        assert l < m;
      }
    }
  }

  /**
   * The inner loop over the query's rows: if it reads every row, it finds nothing
   * exactly when no Approved booking of the venue and date overlaps the slot, and
   * otherwise the first such booking in key order.
   */
  lemma QueryProbe(rows: seq<Booking>, venue: VenueId, date: Date, start: string, end: string)
    ensures var p := FirstOverlap(rows, Query(rows, venue, date), start, end);
            && (!p.Unparsable? ==>
                  (p.Free? <==> forall i :: 0 <= i < |rows| && InQuery(rows[i], venue, date) ==> !Hits(start, end, rows[i].slot)))
            && (p.Taken? ==> && p.row < |rows| && InQuery(rows[p.row], venue, date) && Hits(start, end, rows[p.row].slot)
                             && forall h :: 0 <= h < p.row && InQuery(rows[h], venue, date) ==> !Hits(start, end, rows[h].slot))
  {
    QueryProbeFree(rows, venue, date, start, end);
    QueryProbeTaken(rows, venue, date, start, end);
  }

  /**
   * What a successful response says about grid slot k: it is unavailable exactly when
   * some Approved booking of the venue and date overlaps it; an available slot names
   * nobody; an unavailable one names the owner of the first such booking in key order.
   */
  lemma AvailabilityMeaning(users: map<UserId, User>, rows: seq<Booking>, actorId: UserId, venueId: Option<int>,
                            dateText: Option<string>, parsed: Option<Date>, k: nat)
    requires WellFormed(users, rows) && k < |Grid|
    requires AvailabilityOutcome(users, rows, actorId, venueId, dateText, parsed).Ok?
    ensures venueId.Some? && parsed.Some?
    ensures var rs := AvailabilityOutcome(users, rows, actorId, venueId, dateText, parsed).value;
            var (start, end) := Grid[k];
            && |rs| == |Grid|
            && rs[k].slot == JoinSlot(start, end)
            && (rs[k].available <==> forall i :: 0 <= i < |rows| && InQuery(rows[i], venueId.value, parsed.value) ==>
                                                 !Hits(start, end, rows[i].slot))
            && (rs[k].available ==> rs[k].bookedBy.None? && rs[k].userRole.None?)
            && (!rs[k].available ==>
                  exists i :: && 0 <= i < |rows| && InQuery(rows[i], venueId.value, parsed.value)
                              && Hits(start, end, rows[i].slot)
                              && rs[k].bookedBy == Some(users[rows[i].owner].username)
                              && rs[k].userRole == Some(users[rows[i].owner].role)
                              && forall h :: 0 <= h < i && InQuery(rows[h], venueId.value, parsed.value) ==>
                                               !Hits(start, end, rows[h].slot))
  {
    var venue, date := venueId.value, parsed.value;
    var todo := Query(rows, venue, date);
    ReportsPerSlot(users, rows, todo, Grid);
    QueryProbe(rows, venue, date, Grid[k].0, Grid[k].1);
  }
}
