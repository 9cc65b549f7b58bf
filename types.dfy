/** Records and enumerations of the help-request domain (frontend/types.ts).
    Timestamps are integer milliseconds since the epoch; strings are `seq<char>`. */
module Types {

  datatype Option<+T> = None | Some(value: T)

  /** `UserRole`: the three roles the demo identity provider hands out. */
  datatype Role = Student | ResponseOfficer | Supervisor

  datatype Priority = Emergency | High | Normal

  datatype Category = Medical | Safety | Assistance | Facilities

  datatype RequestStatus = Created | Acknowledged | InProgress | Resolved | Closed

  /** An immutable audit-trail entry; `notes` is optional. */
  datatype AuditLogEntry = AuditLogEntry(
    timestamp: int,
    actorName: string,
    actorRole: Role,
    action: string,
    notes: Option<string>)

  /** The central entity. `assignedTo` and `resolutionNotes` are optional. */
  datatype HelpRequest = HelpRequest(
    id: string,
    studentId: string,
    studentName: string,
    category: Category,
    priority: Priority,
    description: string,
    location: string,
    status: RequestStatus,
    assignedTo: Option<string>,
    escalated: bool,
    createdAt: int,
    updatedAt: int,
    slaDeadline: int,
    history: seq<AuditLogEntry>,
    resolutionNotes: Option<string>)

  /** `lastRequestTime` is optional: absent until the user's first successful submission. */
  datatype User = User(
    email: string,
    name: string,
    role: Role,
    id: string,
    lastRequestTime: Option<int>)

  /** The string value of each `RequestStatus` member; it is what audit actions quote. */
  function StatusName(s: RequestStatus): string
  {
    match s
    case Created => "Created"
    case Acknowledged => "Acknowledged"
    case InProgress => "In Progress"
    case Resolved => "Resolved"
    case Closed => "Closed"
  }

  /** The string value of each `UserRole`. */
  function RoleName(r: Role): string
  {
    match r
    case Student => "student"
    case ResponseOfficer => "response_officer"
    case Supervisor => "supervisor"
  }

  /** The lifecycle order Created < Acknowledged < In Progress < Resolved < Closed. */
  function StatusRank(s: RequestStatus): (k: nat)
    ensures k < 5
  {
    match s
    case Created => 0
    case Acknowledged => 1
    case InProgress => 2
    case Resolved => 3
    case Closed => 4
  }

  /** Every status, listed once each in lifecycle order. */
  function AllStatuses(): (all: seq<RequestStatus>)
    ensures |all| == 5
    ensures forall s: RequestStatus :: all[StatusRank(s)] == s
    ensures forall i :: 0 <= i < |all| ==> StatusRank(all[i]) == i
  {
    [Created, Acknowledged, InProgress, Resolved, Closed]
  }

  /** Distinct statuses have distinct names, so an audit action identifies its statuses. */
  lemma StatusNameInjective(a: RequestStatus, b: RequestStatus)
    ensures StatusName(a) == StatusName(b) ==> a == b
  {
  }

  /** No status name contains a `-`. */
  lemma StatusNameLayout(a: RequestStatus)
    ensures forall i :: 0 <= i < |StatusName(a)| ==> StatusName(a)[i] != '-'
  {
  }

  /** Distinct roles have distinct names. */
  lemma RoleNameInjective(a: Role, b: Role)
    ensures RoleName(a) == RoleName(b) ==> a == b
  {
  }
}
