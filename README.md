# Venue booking engine — a Dafny model

This project models the decision logic of a Flask venue-booking application (`app.py`).
Users of three ranks request hourly slots in shared venues:

- regular students;
- student representatives;
- faculty.

Admins approve or reject the requests. When a new request, or a request being approved, overlaps
an Approved booking of the same venue and date, a rank rule decides what happens:

- the existing booking is demoted to Rejected, with `override_by` recording who overrode it;
- or the request is refused;
- or the overlap is ignored.

The model is split into these modules:

| module | file | what it holds |
|---|---|---|
| `Basics` | basics.dfy | `Option` and `Result` |
| `Times` | times.dfy | Python string order on times, the `HH:MM` clock, the half-open overlap test, the 09:00–17:00 window, the `start-end` slot text and its `split('-')` |
| `Uploads` | uploads.dfy | `allowed_file` |
| `Accounts` | accounts.dfy | users, the session check, `admin_required` / `faculty_required`, the two rank rules |
| `Bookings` | bookings.dfy | the booking table, the Approved-bookings query, the conflict walks of `new_booking` and `approve_booking`, their specification functions and properties |
| `Availability` | availability.dfy | `check_availability` |
| `Transitions` | transitions.dfy | `reject_booking`, `delete_booking`, `cancel_booking` |
| `Roster` | roster.dfy | `add_user`, `toggle_representative`, `toggle_user_active`, `delete_user` |
| `Store` | store.dfy | class `BookingStore`, which holds the user map and the booking table and runs the routes in place |

The booking table is a sequence of rows in primary-key order, and the walks visit the fetched rows
in that order. The Approved-bookings query has no `ORDER BY`, so this is an assumption: see
"## Left out".

Each route has a pure function that specifies it. It returns the answer together with the
table(s) left behind. The lemmas next to that function state what the route promises.

Each method of `BookingStore` is proved to produce exactly the answer and the new state of its
function. Each method also keeps `Valid()`. `Valid()` includes well-formed tables, unique
usernames and the booking invariant `NoDoubleBooking`: no two Approved bookings of one venue and
date have overlapping slots.

The walks of `new_booking` and `approve_booking` are `while` loops that demote rows in place and
return early on a refusal. The availability check is two nested loops, the inner one with a
`break`.

## Behaviour as written

The model follows the code where it departs from a tidy rank table:

- **Faculty against faculty depends on the route.**
  - When a faculty-owned booking is approved, it overrides another faculty member's Approved booking (app.py:343).
  - A new faculty request is refused by one (app.py:255-271).
  - See `Accounts.FacultyPeersDifferBetweenSubmitAndApprove`.
- **A faculty request ignores admin-owned bookings, but they block a faculty booking's approval.**
  - A faculty requester passes over an overlapping admin-owned booking on submit.
  - A representative or regular student is refused by one (app.py:273-286).
  - On approval of a faculty-owned booking, the admin-owned booking refuses it.
  - See `Accounts.AdminOwnedBookingsBlockApproval`.
- **An admin requester, or one whose role is free text, is never checked** against overlaps on submit.
- **Overrides happen at submit time, not only at approval.** A new request that outranks an
  Approved booking demotes it immediately, while the new request itself is only Pending.
- **Each override is committed on its own.** When a later row in the same walk refuses the
  request, the earlier demotions stay, on submit and on approval alike. See
  `Bookings.SubmitFailureKeepsEarlierOverrides` and `Bookings.ApproveFailureKeepsEarlierOverrides`.
- **A slot text that does not split into exactly two parts makes the route fail.** Earlier
  demotions stay in that case as well. The model reports it as `MalformedSlot`.
- **`override_by` records a user id**: the requester on submit, and the booking's owner on
  approval, never the approving admin.
- **Approval never looks at the booking's current status.** A Rejected or Cancelled booking can be
  approved (`Bookings.ApproveIgnoresCurrentStatus`). Reject likewise accepts any status.
  So Rejected and Cancelled are not terminal.
- **Times are compared as text**, with Python's string order. On well-formed `HH:MM` times this
  agrees with comparing minutes (`Times.ClockOrderAgrees`).

## Model

| member | source | states |
|---|---|---|
| Times.LessIrreflexive | app.py:234 | no time is before itself under Python's string order |
| Times.LessAsymmetric | app.py:234 | two times are never each before the other |
| Times.LessTransitive | app.py:234-237 | the string order is transitive |
| Times.LessTotal | app.py:234 | two different strings are ordered one way or the other |
| Times.AtMostIsNotGreater | app.py:234 | `end <= start` holds exactly when `start < end` fails |
| Times.ClockOrderAgrees | app.py:234-237 | on zero-padded `HH:MM` times, string order is the order of minutes since midnight |
| Times.OverlapsSymmetric | app.py:247-248 | the overlap test does not depend on which slot comes first |
| Times.AdjacentSlotsDoNotOverlap | app.py:247-248 | slots that only touch, `[a,b)` and `[b,c)`, never overlap, in either order |
| Times.NonEmptySlotOverlapsItself | app.py:330-331 | a non-empty slot always overlaps itself |
| Times.OverlapsAsMinutes | app.py:457 | on well-formed times the text test is the interval test on minutes |
| Times.CheckWindowAccepts | app.py:234-239 | a requested slot passes both checks exactly when start < end, start is not before 09:00 and end is not after 17:00 |
| Times.CheckWindowInMinutes | app.py:234-239 | on well-formed times: accepted iff 540 <= start < end <= 1020 in minutes |
| Times.SplitJoin | app.py:240 | `split('-')` of the stored `start-end` text gives back the two times when neither contains a dash |
| Times.JoinSplit | app.py:251 | whatever splits is the join of its two dash-free parts |
| Times.SplitNeedsOneDash | app.py:336-337 | a text with no dash, or with two, does not unpack into two parts |
| Times.SlotsOverlapSymmetric | app.py:334-339 | overlap of two stored slots is symmetric |
| Uploads.NoDotNotAllowed | app.py:30-31 | a file name without a dot is refused |
| Uploads.AllowedFileByLastExtension | app.py:30-31 | `name.ext` is accepted iff the lower-cased last extension is in the allowed set |
| Uploads.UpperCaseExtensionAllowed | app.py:30-31 | `Report.PDF` is accepted: the check ignores case |
| Uploads.DoubleExtensionJudgedByLast | app.py:30-31 | any `name.pdf.exe` is refused: only the last extension counts |
| Accounts.RoleOf | app.py:515 | the role text from the form reads as admin, faculty or student exactly when it is that text; any other text is a role no check in the code matches |
| Accounts.RoleRoundTrip | app.py:515-529 | storing a role and reading it back are inverse, both ways |
| Accounts.GatesNest | app.py:72-96 | every user the admin gate admits passes the faculty gate; the only others admitted by that gate are faculty |
| Accounts.SubmitFollowsPriority | app.py:254-286 | between ranked users, a new request overrides exactly the lower-ranked owners and is refused by equal or higher ranks |
| Accounts.SubmitPassesOutsideTiers | app.py:254-286 | a new request ignores an overlap exactly when the requester has no rank, or is faculty and the owner has no rank |
| Accounts.RegularStudentNeverOverrides | app.py:284-286 | a regular student is refused by any overlap |
| Accounts.ApproveNeverPasses | app.py:341-364 | approval either overrides or refuses every overlap |
| Accounts.ApproveFollowsPriorityExceptFacultyPeers | app.py:341-364 | between ranked users approval overrides lower ranks, and also faculty over faculty |
| Accounts.FacultyPeersDifferBetweenSubmitAndApprove | app.py:255-271 | faculty against faculty: refused on submit, overridden on approval |
| Accounts.AdminOwnedBookingsBlockApproval | app.py:343-350 | an admin-owned booking refuses a faculty booking's approval but is ignored by a faculty request |
| Bookings.NextId | models.py:36 | a new booking's key is larger than every existing key |
| Bookings.Find | app.py:321 | `get_or_404` finds the row with the key, or reports that no row has it |
| Bookings.AdminGate | app.py:72-83 | an admin-only route proceeds exactly when the session user is an admin |
| Bookings.ScanKeepsKeys | app.py:250-286 | the submit walk changes no key and no owner |
| Bookings.SubmitScanEffect | app.py:250-286 | the submit walk only demotes fetched overlapping rows it may override; a refusal comes from a refusing overlap; getting through means every fetched row was readable and every overridable overlap was demoted |
| Bookings.OverrideBeforeRefusalPersists | app.py:259-271 | a concrete two-row walk: an override followed by a refusal returns the refusal and keeps the override |
| Bookings.SubmitScanStop | app.py:250-286 | a submit walk that fails stops at one fetched row: every row before it was readable, none refused, and each outranked one stays demoted; that row and every later one are untouched |
| Bookings.SubmitStopPositions | app.py:250-286 | the same stop in table positions: the key named by the stop is a fetched row, and everything from it on is untouched |
| Bookings.SubmitFailureKeepsEarlierOverrides | app.py:242-286 | when `new_booking` fails with a conflict or an unreadable slot, the named row is an Approved booking of the venue and date, whose slot overlaps and whose owner the rule does not outrank (a conflict) or whose slot does not split (an unreadable slot); each overlapping outranked booking before it in key order stays Rejected with the requester's mark; the named row and every later row are unchanged |
| Bookings.ApproveScanStop | app.py:334-364 | an approve walk that fails stops at one fetched row of another key: every overlapping row of another key before it was overridden and stays demoted; that row and every later one are untouched |
| Bookings.ApproveStopPositions | app.py:334-364 | the same stop in table positions; a stop at the booking's own key means its own slot was unreadable and nothing changed |
| Bookings.ApproveFailureKeepsEarlierOverrides | app.py:324-364 | when `approve_booking` fails with a conflict or an unreadable slot of another booking, each overlapping booking before the named one in key order stays Rejected with the owner's mark, and the named row and every later row are unchanged; with the booking's own slot unreadable nothing changes |
| Bookings.SubmitChecksSlotFirst | app.py:234-239 | a slot failing the window checks is refused and changes nothing |
| Bookings.SubmitAppendsOnePending | app.py:299-309 | success appends one Pending row with a fresh key, the requester as owner, no override mark and slot `start-end`, which splits back into the request |
| Bookings.SubmitFrame | app.py:242-286 | every existing row is unchanged, or it was an overlapping Approved booking of the venue and date that the requester may override, now Rejected with the requester's mark; a row is added only on success |
| Bookings.SubmitRefusalHasCause | app.py:269-286 | a conflict names an overlapping Approved booking of the venue and date whose owner the requester may not override |
| Bookings.SubmitSuccessOverridesEveryOutranked | app.py:250-286 | on success every overlapping Approved booking was readable, none refused, and each outranked one is now Rejected |
| Bookings.RegularStudentSubmitChangesNothing | app.py:284-286 | a regular student never changes an existing booking and gets through only with no overlap |
| Bookings.SubmitKeepsInvariants | app.py:224-312 | `new_booking` keeps keys ordered, owners known and no double booking |
| Bookings.ApproveScanEffect | app.py:334-364 | the approve walk leaves the booking itself alone and only demotes fetched overlapping rows of other keys that its owner may override |
| Bookings.ApproveFrame | app.py:321-366 | approval changes only the booking, to Approved on success, and overlapping Approved rows its owner may override, to Rejected with the owner's mark |
| Bookings.ApproveSuccessClearsOverlaps | app.py:334-366 | on success every other overlapping Approved booking of the venue and date has been overridden |
| Bookings.ApproveRefusalHasCause | app.py:348-364 | a conflict names an overlapping Approved booking of another key that the owner may not override |
| Bookings.ApproveKeepsInvariants | app.py:318-369 | approval keeps the table well formed and never creates a double booking |
| Bookings.ApproveScanSkipsSelf | app.py:335 | dropping every fetched row that carries the booking's own key leaves the approve walk exactly as it was, so the booking never conflicts with itself |
| Bookings.ApproveIgnoresCurrentStatus | app.py:321-366 | with nothing else Approved at its venue and date, any booking is approved whatever its status |
| Availability.FirstOverlap | app.py:453-461 | the inner loop reports a row that is among the fetched ones |
| Availability.FirstOverlapMeaning | app.py:453-461 | the inner loop finds nothing iff every fetched row is readable and none overlaps; otherwise it finds the first overlapping row |
| Availability.ReportsPerSlot | app.py:446-467 | a successful answer has one entry per grid slot, each computed for that slot |
| Availability.GridSlotsSplit | app.py:442-447 | each grid key splits back into its start and end |
| Availability.AvailabilityErrors | app.py:423-432 | no session gives a login error; a missing or zero venue or an empty date gives "Missing parameters"; an unparsable date gives "Invalid date format" |
| Availability.QueryProbe | app.py:435-461 | over the Approved bookings of the venue and date, the inner loop finds the first overlapping one in key order |
| Availability.AvailabilityMeaning | app.py:421-469 | a slot is unavailable iff some Approved booking of the venue and date overlaps it; available slots name nobody; an unavailable slot names the owner and role of the first such booking |
| Transitions.WithdrawKeepsInvariants | app.py:375 | replacing a row by a non-Approved one with the same key and owner keeps the invariants |
| Transitions.RemoveKeepsInvariants | app.py:390 | removing a row keeps the invariants |
| Transitions.RejectKeepsInvariants | app.py:371-378 | reject keeps the invariants |
| Transitions.DeleteBookingKeepsInvariants | app.py:380-393 | delete keeps the invariants |
| Transitions.CancelKeepsInvariants | app.py:395-419 | cancel keeps the invariants |
| Transitions.RejectEffect | app.py:371-378 | reject succeeds exactly for an admin and an existing key; only that booking changes, to Rejected, override mark untouched; a refusal changes nothing |
| Transitions.RemoveAtContents | app.py:390 | removing one position of a keyed table removes exactly the rows with that key |
| Transitions.DeleteBookingEffect | app.py:383-391 | delete succeeds exactly for an admin or the owner of an existing booking; afterwards the rows are the old ones other than that key |
| Transitions.CancelEffect | app.py:398-416 | cancel succeeds exactly when the actor is admin, faculty or owner, the booking is Approved and not dated before today; only that booking changes, to Cancelled |
| Transitions.WithdrawnBookingLeavesCalendar | app.py:371-419 | after a reject, delete or cancel goes through, no row with that key is Approved, so the booking occupies no venue on any date |
| Transitions.RejectIgnoresStatus | app.py:374-375 | reject succeeds on a Cancelled booking, which cancel refuses as not Approved |
| Roster.AddUserKeepsNamesUnique | app.py:518-529 | adding a user is refused exactly when the name is in use, and a refusal changes nothing; otherwise it adds one active account whose role reads back as the form's text and changes no other, so usernames stay unique and roles sound |
| Roster.ToggleRepresentativeTwice | app.py:539-542 | toggling the representative flag twice restores the user table |
| Roster.ToggleRepresentativeOnlyStudents | app.py:540-546 | only the target student's flag flips, which flips whether they count as a representative; no other account changes, and a refusal changes nothing |
| Roster.ToggleActiveEffect | app.py:549-561 | toggling goes through exactly for an admin acting on another existing account; it flips only that account's active flag; no other account, and no booking, changes; a refusal changes nothing |
| Roster.ToggleActiveTwice | app.py:552-558 | toggling an account's active flag twice restores the user table |
| Roster.AdminKeepsAccess | app.py:553-555 | an admin cannot deactivate or delete their own account, so they keep admin access after any toggle or delete |
| Roster.DeleteUserEffect | app.py:566-572 | deleting goes through exactly for an admin acting on another existing account that owns no booking; it removes that account and leaves every other account as it was; it clears the override marks naming it and leaves every other row as it was; a refusal changes nothing; the invariants are kept |
| Roster.OwnerCannotBeDeleted | app.py:571-572 | a user who owns a booking cannot be deleted |
| Times.Less | app.py:234-237 | Python's `<` on strings: code-point order with a proper prefix first; its properties are the `Less*` lemmas |
| Times.Overlaps | app.py:247-248 | `times_overlap`: each slot starts before the other ends; see `OverlapsSymmetric`, `AdjacentSlotsDoNotOverlap`, `OverlapsAsMinutes` |
| Times.CheckWindow | app.py:234-239 | the two slot checks of `new_booking`, in order; see `CheckWindowAccepts`, `CheckWindowInMinutes` |
| Times.SplitSlot | app.py:251 | `split('-')` with two-way unpacking: the two parts when the text holds exactly one dash; see `SplitJoin`, `JoinSplit`, `SplitNeedsOneDash` |
| Uploads.AllowedFile | app.py:30-31 | `allowed_file`; see `AllowedFileByLastExtension` |
| Accounts.SubmitAction | app.py:254-286 | the rank rule of `new_booking` for one overlapping booking; see `SubmitFollowsPriority`, `SubmitPassesOutsideTiers` |
| Accounts.ApproveAction | app.py:341-364 | the rank rule of `approve_booking` for one overlapping booking; see `ApproveNeverPasses`, `ApproveFollowsPriorityExceptFacultyPeers` |
| Bookings.SubmitScan | app.py:250-286 | the conflict loop of `new_booking`; see `SubmitScanEffect`, `SubmitScanStop` |
| Bookings.SubmitOutcome | app.py:224-312 | `new_booking` from the session check to the insert; see `SubmitFrame`, `SubmitAppendsOnePending`, `SubmitFailureKeepsEarlierOverrides`, `SubmitKeepsInvariants` |
| Bookings.ApproveScan | app.py:334-364 | the conflict loop of `approve_booking`; see `ApproveScanEffect`, `ApproveScanStop`, `ApproveScanSkipsSelf` |
| Bookings.ApproveOutcome | app.py:318-369 | `approve_booking`; see `ApproveFrame`, `ApproveSuccessClearsOverlaps`, `ApproveFailureKeepsEarlierOverrides`, `ApproveKeepsInvariants` |
| Availability.AvailabilityOutcome | app.py:421-469 | `check_availability`; see `AvailabilityErrors`, `AvailabilityMeaning` |
| Transitions.RejectOutcome | app.py:371-378 | `reject_booking`; see `RejectEffect` |
| Transitions.DeleteBookingOutcome | app.py:380-393 | `delete_booking`; see `DeleteBookingEffect` |
| Transitions.CancelOutcome | app.py:395-419 | `cancel_booking`; see `CancelEffect` |
| Roster.AddUserOutcome | app.py:509-534 | `add_user`; see `AddUserKeepsNamesUnique` |
| Roster.ToggleRepresentativeOutcome | app.py:536-547 | `toggle_representative`; see `ToggleRepresentativeOnlyStudents`, `ToggleRepresentativeTwice` |
| Roster.ToggleActiveOutcome | app.py:549-561 | `toggle_user_active`; see `ToggleActiveEffect`, `ToggleActiveTwice`, `AdminKeepsAccess` |
| Roster.DeleteUserOutcome | app.py:563-574 | `delete_user`; see `DeleteUserEffect`, `OwnerCannotBeDeleted` |
| Sessions.SignedOutChangesNothing | app.py:55-61 | a request from a deleted or deactivated account gets the login error from every route, and neither table changes |
| Sessions.NonAdminChangesNothing | app.py:72-83 | a signed-in non-admin is turned away by every admin route, and neither table changes |
| Store.BookingStore.constructor | app.py:592-605 | a fresh database holds no bookings and the default admin account |
| Store.BookingStore.SubmitWalk | app.py:250-286 | the loop of `new_booking`, demoting in place, ends in exactly the state and stop of the submit walk |
| Store.BookingStore.Submit | app.py:224-312 | `new_booking` in place: the answer and table of `SubmitOutcome`, with the invariants kept |
| Store.BookingStore.ApproveWalk | app.py:334-364 | the loop of `approve_booking` ends in exactly the state and stop of the approve walk |
| Store.BookingStore.Approve | app.py:318-369 | `approve_booking` in place: the answer and table of `ApproveOutcome`, with the invariants kept |
| Store.BookingStore.Reject | app.py:371-378 | `reject_booking` in place, as `RejectOutcome`, invariants kept |
| Store.BookingStore.DeleteBooking | app.py:380-393 | `delete_booking` in place, as `DeleteBookingOutcome`, invariants kept |
| Store.BookingStore.Cancel | app.py:395-419 | `cancel_booking` in place, as `CancelOutcome`, invariants kept |
| Store.BookingStore.SlotEntry | app.py:447-467 | the inner loop with its `break` gives the entry for one grid slot |
| Store.BookingStore.GridEntries | app.py:445-467 | the outer loop gives one entry per grid slot, in order |
| Store.BookingStore.CheckAvailability | app.py:421-469 | `check_availability` answers exactly `AvailabilityOutcome` and changes nothing |
| Store.BookingStore.AddUser | app.py:509-534 | `add_user` in place, as `AddUserOutcome`, with the next free key |
| Store.BookingStore.ToggleRepresentative | app.py:536-547 | `toggle_representative` in place, as `ToggleRepresentativeOutcome` |
| Store.BookingStore.ToggleActive | app.py:549-561 | `toggle_user_active` in place, as `ToggleActiveOutcome` |
| Store.BookingStore.DeleteUser | app.py:563-574 | `delete_user` in place, as `DeleteUserOutcome` |

## Left out

- HTTP routing, redirects, flash messages, templates and cache headers are not modelled. A failure is a `Failure` value; the message text and the redirect target are dropped.
- The session is not modelled. The acting user is passed in by id and resolved as `before_request` does.
- Registration, login, logout and the dashboards are not part of this model. Neither are password hashing and checking, which are library calls.
- Saving the upload, `secure_filename` and the timestamped file name are not modelled. Only whether a name is kept is modelled, through `allowed_file` and the non-empty check. The stored name is the uploaded one.
- `uploaded_file` is not modelled: it serves a file from disk.
- Parsing dates with `strptime` is a parameter. It is an `Option<Date>`, None when parsing fails, with dates as day numbers.
- The venue id from the form, and the integer conversion of the query parameter, are taken as already converted.
- `datetime.now()` is the parameter `today`.
- Venue management (`manage_venues`, `add_venue`, `delete_venue`) and the venue table are not modelled. A booking's venue is just an id.
- `Uploads.LowerAscii`: `str.lower()` is modelled on ASCII letters only. The allowed extensions are ASCII, but a non-ASCII letter that lower-cases to ASCII is not captured.
- `Store.BookingStore.AddUser`: a new user's key comes from a counter that only grows. SQLite without AUTOINCREMENT gives one more than the largest key in use, which can reuse the key of a deleted user. The model does not reuse keys.
- Row order is assumed. The Approved-bookings queries have no `ORDER BY`, and SQL promises no order without one. The model assumes primary-key order, which is what SQLite's table scan gives. Which overlapping row stops a walk, and so which overrides are committed before it, depends on this order.
- Concurrency is not modelled. Each route runs alone: there is no interleaving between the conflict read and the writes.
- Creation and update timestamps and `Booking.__repr__` are not modelled.
- `delete_user` on a user who owns bookings fails when the ORM tries to null the NOT NULL owner key. The model reports `OwnsBookings` and changes nothing, which stands for the rolled-back transaction.
