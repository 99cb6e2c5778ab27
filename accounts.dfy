/**
 * Users, the role gates in front of the routes, and the two rank rules the
 * conflict scans apply: one for a new request, one for approving a pending one.
 */
module Accounts {
  import opened Basics

  type UserId = nat

  /** The `role` column. The add-user form accepts any text, so roles outside the three named ones exist. */
  datatype Role = Admin | Faculty | Student | Other(name: string)

  /** The texts the code compares the `role` column against. */
  const NamedRoles: set<string> := {"admin", "faculty", "student"}

  /** A role as the code sees it: `Other` holds only texts no comparison in the code matches. */
  predicate RoleOk(r: Role)
  {
    r.Other? ==> r.name !in NamedRoles
  }

  /** How the `role` column reads: the text the comparisons match, or the stored text itself. */
  function RoleOf(text: string): (r: Role)
    ensures RoleOk(r)
    ensures r.Other? <==> text !in NamedRoles
  {
    if text == "admin" then Admin
    else if text == "faculty" then Faculty
    else if text == "student" then Student
    else Other(text)
  }

  /** The text stored in the `role` column for a role. */
  function RoleText(r: Role): string
  {
    match r
    case Admin => "admin"
    case Faculty => "faculty"
    case Student => "student"
    case Other(name) => name
  }

  /** Reading and storing a role are inverse: every text reads back as itself, every sound role too. */
  lemma RoleRoundTrip(text: string, r: Role)
    ensures RoleText(RoleOf(text)) == text
    ensures RoleOk(r) ==> RoleOf(RoleText(r)) == r
  {
  }

  /** A row of the user table (password hash and creation time left out). */
  datatype User = User(username: string, role: Role, isRepresentative: bool, isActive: bool)

  /** The user a request acts as: the session's user, if it still exists and is active. */
  function SessionUser(users: map<UserId, User>, id: UserId): Option<User>
  {
    if id in users && users[id].isActive then Some(users[id]) else None
  }

  /** Admin and faculty: the roles `faculty_required` admits and that may cancel any booking. */
  predicate Privileged(r: Role)
  {
    r == Admin || r == Faculty
  }

  /** The test inside `admin_required`. */
  predicate AdminRequired(u: Option<User>)
  {
    u.Some? && u.value.role == Admin
  }

  /** The test inside `faculty_required`. */
  predicate FacultyRequired(u: Option<User>)
  {
    u.Some? && Privileged(u.value.role)
  }

  /** Every admin passes the faculty gate; the only others who pass it are faculty. */
  lemma GatesNest(u: Option<User>)
    ensures AdminRequired(u) ==> FacultyRequired(u)
    ensures FacultyRequired(u) && !AdminRequired(u) ==> u.value.role == Faculty
    ensures !FacultyRequired(u) ==> u.None? || u.value.role.Student? || u.value.role.Other?
  {
  }

  /** Whether a user counts as a representative: only a student's flag has any effect. */
  predicate IsRepresentative(u: User)
  {
    u.role == Student && u.isRepresentative
  }

  /** What a conflict scan does with one overlapping Approved booking. */
  datatype Action =
    | Override  // demote it to Rejected and record who overrode it
    | Refuse    // stop and refuse the request
    | Pass      // leave it as it is and go on

  /** The rule `new_booking` applies between the requester and the owner of an overlapping booking. */
  function SubmitAction(requester: User, owner: User): Action
  {
    if requester.role == Faculty then
      if owner.role == Student then Override
      else if owner.role == Faculty then Refuse
      else Pass
    else if IsRepresentative(requester) then
      if owner.role == Student && !owner.isRepresentative then Override else Refuse
    else if requester.role == Student then Refuse
    else Pass
  }

  /** The rule `approve_booking` applies between the booking's owner and an overlapping booking's owner. */
  function ApproveAction(owner: User, other: User): Action
  {
    if owner.role == Faculty then
      if other.role == Student || other.role == Faculty then Override else Refuse
    else if IsRepresentative(owner) then
      if other.role == Student && !other.isRepresentative then Override else Refuse
    else Refuse
  }

  /**
   * The priority order of the booking rules: regular student 0, representative 1,
   * faculty 2. Admins and unrecognised roles have no place in it.
   */
  function Tier(u: User): Option<nat>
  {
    match u.role
    case Student => if u.isRepresentative then Some(1) else Some(0)
    case Faculty => Some(2)
    case _ => None
  }

  /**
   * Between users that have a tier, a new request overrides exactly the bookings
   * of lower-tier owners and is refused by every other overlapping booking.
   */
  lemma SubmitFollowsPriority(requester: User, owner: User)
    requires Tier(requester).Some? && Tier(owner).Some?
    ensures SubmitAction(requester, owner) == Override <==> Tier(requester).value > Tier(owner).value
    ensures SubmitAction(requester, owner) == Refuse <==> Tier(requester).value <= Tier(owner).value
  {
  }

  /** Outside the tiers a new request passes: admins skip the rules, faculty ignore admin-owned bookings. */
  lemma SubmitPassesOutsideTiers(requester: User, owner: User)
    ensures SubmitAction(requester, owner) == Pass <==>
              Tier(requester).None? || (requester.role == Faculty && Tier(owner).None?)
  {
  }

  /** A regular student's request is refused by any overlap. */
  lemma RegularStudentNeverOverrides(requester: User, owner: User)
    requires requester.role == Student && !requester.isRepresentative
    ensures SubmitAction(requester, owner) == Refuse
  {
  }

  /** Approval never lets an overlap pass: it either overrides or refuses. */
  lemma ApproveNeverPasses(owner: User, other: User)
    ensures ApproveAction(owner, other) != Pass
  {
  }

  /**
   * Between users that have a tier, approval overrides lower tiers, and in one
   * more case: a faculty owner also overrides another faculty member's booking.
   */
  lemma ApproveFollowsPriorityExceptFacultyPeers(owner: User, other: User)
    requires Tier(owner).Some? && Tier(other).Some?
    ensures ApproveAction(owner, other) == Override
            <==> Tier(owner).value > Tier(other).value || (owner.role == Faculty && other.role == Faculty)
  {
  }

  /** Faculty against faculty: a new request is refused, but approving it overrides the other booking. */
  lemma FacultyPeersDifferBetweenSubmitAndApprove(a: User, b: User)
    requires a.role == Faculty && b.role == Faculty
    ensures SubmitAction(a, b) == Refuse && ApproveAction(a, b) == Override
  {
  }

  /** Approval refuses an admin-owned booking even for a faculty owner, where submission ignored it. */
  lemma AdminOwnedBookingsBlockApproval(owner: User, other: User)
    requires owner.role == Faculty && other.role == Admin
    ensures ApproveAction(owner, other) == Refuse && SubmitAction(owner, other) == Pass
  {
  }
}
