/** The request-lifecycle engine (frontend/context/AppContext.tsx): creation with the
    emergency cooldown, governed status transitions with their audit trail, and the SLA
    monitor. The per-record logic is pure; the store is the class `AppState`, whose
    `user` and `requests` fields each operation replaces wholesale. The clock is the
    parameter `now` and a new request's id is the parameter `id`. */
module Engine {
  import opened Types
  import opened Constants
  import Strings

  /** `EMERGENCY_COOLDOWN_MS`: five minutes between two Emergency declarations. */
  const EMERGENCY_COOLDOWN_MS: int := 5 * 60 * 1000

  /** The fields a caller hands to `createRequest` (a `Partial<HelpRequest>`). */
  datatype RequestData = RequestData(
    category: Category,
    priority: Option<Priority>,
    location: Option<string>,
    description: Option<string>)

  /** What `createRequest` does: nothing without a user, an alert on cooldown, or a new request. */
  datatype CreateResult = NotSignedIn | RateLimited(waitMinutes: int) | Registered(request: HelpRequest)

  /** The two alerts a transition of one record can raise. */
  datatype Violation = GovernanceViolation | ComplianceError

  /** The fate of one record under `transitionRequest`. */
  datatype Step = Accepted(request: HelpRequest) | Rejected(violation: Violation)

  /** What `transitionRequest` does: throw without a user, otherwise the alerts it raised. */
  datatype TransitionResult = Unauthorized | Applied(alerts: seq<Violation>)

  // ---------------------------------------------------------------------------
  // JavaScript truthiness of the optional values the engine tests

  /** An optional timestamp is truthy when present and not 0. */
  predicate IsSetTime(t: Option<int>)
  {
    t.Some? && t.value != 0
  }

  /** An optional string is truthy when present and not empty. */
  predicate IsSetText(s: Option<string>)
  {
    s.Some? && s.value != []
  }

  // ---------------------------------------------------------------------------
  // Creation

  /** `data.priority || Priority.Normal` */
  function EffectivePriority(p: Option<Priority>): Priority
  {
    if p.Some? then p.value else Normal
  }

  /** `Math.ceil(ms / 60000)` */
  function CeilMinutes(ms: int): (m: int)
    ensures (m - 1) * 60000 < ms <= m * 60000
  {
    (ms + 59999) / 60000
  }

  /** The user declared an emergency less than the cooldown ago. */
  predicate InCooldown(user: User, now: int)
  {
    IsSetTime(user.lastRequestTime) && now - user.lastRequestTime.value < EMERGENCY_COOLDOWN_MS
  }

  /** The wait, in whole minutes rounded up, that the rate-limit alert reports, if any. */
  function RateLimitWait(user: User, priority: Option<Priority>, now: int): (wait: Option<int>)
    ensures wait.Some? <==> priority == Some(Emergency) && InCooldown(user, now)
    ensures wait.Some? ==> wait.value >= 1
    ensures wait.Some? && now >= user.lastRequestTime.value ==> wait.value <= 5
    ensures wait.Some? ==>
      var left := EMERGENCY_COOLDOWN_MS - (now - user.lastRequestTime.value);
      (wait.value - 1) * 60000 < left <= wait.value * 60000
  {
    if priority == Some(Emergency) && InCooldown(user, now) then
      Some(CeilMinutes(EMERGENCY_COOLDOWN_MS - (now - user.lastRequestTime.value)))
    else None
  }

  /** Invariant of every stored request: it has an audit trail and its deadline is
      its creation time plus the SLA of its priority. */
  predicate WellFormed(r: HelpRequest)
  {
    |r.history| > 0 && r.slaDeadline == r.createdAt + SlaDuration(r.priority)
  }

  /** The `newRequest` record. */
  function NewRequest(user: User, data: RequestData, id: string, now: int): (q: HelpRequest)
    ensures WellFormed(q) && q.slaDeadline - now in {3600000, 14400000, 86400000}
    ensures q.status == Created && !q.escalated && q.assignedTo.None? && q.resolutionNotes.None?
    ensures q.createdAt == now && q.updatedAt == now
    ensures q.history == [AuditLogEntry(now, user.name, user.role, "CREATED", Some("Initial submission"))]
  {
    var priority := EffectivePriority(data.priority);
    HelpRequest(
      id, user.id, user.name, data.category, priority,
      if data.description.Some? then data.description.value else "",
      if IsSetText(data.location) then data.location.value else "Unknown Location",
      Created, None, false, now, now, now + SlaDuration(priority),
      [AuditLogEntry(now, user.name, user.role, "CREATED", Some("Initial submission"))],
      None)
  }

  /** `createRequest` as a function of the signed-in user, the data and the clock. */
  function Create(user: Option<User>, data: RequestData, id: string, now: int): (r: CreateResult)
    ensures r.NotSignedIn? <==> user.None?
    ensures r.RateLimited? <==> user.Some? && data.priority == Some(Emergency) && InCooldown(user.value, now)
    ensures r.RateLimited? ==> 1 <= r.waitMinutes && RateLimitWait(user.value, data.priority, now) == Some(r.waitMinutes)
    ensures r.Registered? ==>
      var q := r.request;
      q.id == id && q.studentId == user.value.id && q.studentName == user.value.name &&
      q.category == data.category &&
      (data.priority.None? ==> q.priority == Normal) &&
      (data.priority.Some? ==> q.priority == data.priority.value) &&
      q.status == Created && !q.escalated && q.createdAt == now && q.updatedAt == now &&
      q.slaDeadline - q.createdAt in {3600000, 14400000, 86400000} &&
      q.assignedTo.None? && q.resolutionNotes.None? && q.location != [] &&
      |q.history| == 1 && q.history[0].action == "CREATED" && q.history[0].timestamp == now &&
      q.history[0].actorName == user.value.name && q.history[0].actorRole == user.value.role &&
      q.history[0].notes == Some("Initial submission") &&
      q.description == (if data.description.Some? then data.description.value else "") &&
      q.location == (if IsSetText(data.location) then data.location.value else "Unknown Location") &&
      WellFormed(q)
  {
    if user.None? then NotSignedIn
    else
      var wait := RateLimitWait(user.value, data.priority, now);
      if wait.Some? then RateLimited(wait.value)
      else Registered(NewRequest(user.value, data, id, now))
  }

  // ---------------------------------------------------------------------------
  // Transition of one record

  /** Governance rule: only a supervisor closes an Emergency request. */
  predicate GovernanceBlocks(req: HelpRequest, newStatus: RequestStatus, role: Role): (b: bool)
    ensures b ==> newStatus == Closed && req.priority == Emergency
    ensures role == Supervisor ==> !b
    ensures newStatus == Closed && req.priority == Emergency && role != Supervisor ==> b
  {
    req.priority == Emergency && newStatus == Closed && role != Supervisor
  }

  /** The governance rule compares role strings (`user.role !== 'supervisor'`); on
      the enumeration that is the same test. */
  lemma GovernanceComparesRoleNames(req: HelpRequest, role: Role)
    ensures GovernanceBlocks(req, Closed, role) <==>
      req.priority == Emergency && RoleName(role) != "supervisor"
  {
    RoleNameInjective(role, Supervisor);
  }

  /** Compliance rule: Resolved and Closed need notes (`!notes` rejects absent and empty). */
  predicate NotesMissing(newStatus: RequestStatus, notes: Option<string>): (b: bool)
    ensures b ==> newStatus == Resolved || newStatus == Closed
    ensures notes.Some? && notes.value != [] ==> !b
    ensures (newStatus == Resolved || newStatus == Closed) && (notes.None? || notes == Some("")) ==> b
  {
    (newStatus == Resolved || newStatus == Closed) && !IsSetText(notes)
  }

  /** The audit action naming the status before and after. */
  function TransitionAction(from: RequestStatus, to: RequestStatus): string
  {
    ("TRANSITION: " + StatusName(from)) + (" -> " + StatusName(to))
  }

  /** Where the parts of an audit action sit. */
  lemma ActionLayout(from: string, to: string)
    ensures var x := ("TRANSITION: " + from) + (" -> " + to);
      |x| == 16 + |from| + |to| && x[12 + |from|] == ' ' && x[13 + |from|] == '-' &&
      (forall i :: 0 <= i < |from| ==> x[12 + i] == from[i]) && x[16 + |from|..] == to
  {
    var x := ("TRANSITION: " + from) + (" -> " + to);
    assert x[16 + |from|..] == to;
  }

  /** With no `-` in the first part, an action text splits in one way only. */
  lemma ActionSplitsUniquely(from1: string, to1: string, from2: string, to2: string)
    requires forall i :: 0 <= i < |from1| ==> from1[i] != '-'
    requires forall i :: 0 <= i < |from2| ==> from2[i] != '-'
    requires ("TRANSITION: " + from1) + (" -> " + to1) == ("TRANSITION: " + from2) + (" -> " + to2)
    ensures from1 == from2 && to1 == to2
  {
    var x := ("TRANSITION: " + from1) + (" -> " + to1);
    ActionLayout(from1, to1);
    ActionLayout(from2, to2);
    if |from1| < |from2| {
      assert false;
    } else if |from2| < |from1| {
      assert false;
    }
    assert forall i :: 0 <= i < |from1| ==> from1[i] == x[12 + i] == from2[i];
  }

  /** An audit action names its two statuses unambiguously. */
  lemma TransitionActionInjective(a: RequestStatus, b: RequestStatus, c: RequestStatus, d: RequestStatus)
    ensures TransitionAction(a, b) == TransitionAction(c, d) ==> a == c && b == d
  {
    if TransitionAction(a, b) == TransitionAction(c, d) {
      StatusNameLayout(a);
      StatusNameLayout(c);
      ActionSplitsUniquely(StatusName(a), StatusName(b), StatusName(c), StatusName(d));
      StatusNameInjective(a, c);
      StatusNameInjective(b, d);
    }
  }

  /** `assignedTo` is unset when absent or empty. */
  predicate IsUnassigned(req: HelpRequest)
  {
    !IsSetText(req.assignedTo)
  }

  /** The fields no transition touches are equal. */
  predicate SameFixedFields(a: HelpRequest, b: HelpRequest)
  {
    a.id == b.id && a.studentId == b.studentId && a.studentName == b.studentName &&
    a.category == b.category && a.priority == b.priority &&
    a.description == b.description && a.location == b.location &&
    a.escalated == b.escalated && a.createdAt == b.createdAt && a.slaDeadline == b.slaDeadline
  }

  /** The body of `transitionRequest`'s map callback for a record whose id matches:
      the two gates, then the audited update. */
  function TransitionRecord(req: HelpRequest, actor: User, newStatus: RequestStatus,
                            notes: Option<string>, now: int): (s: Step)
    ensures s.Rejected? <==> GovernanceBlocks(req, newStatus, actor.role) || NotesMissing(newStatus, notes)
    ensures s.Rejected? ==>
      (s.violation == GovernanceViolation <==> GovernanceBlocks(req, newStatus, actor.role))
    ensures s.Accepted? ==>
      var q := s.request;
      SameFixedFields(q, req) &&
      q.status == newStatus && q.updatedAt == now &&
      |q.history| == |req.history| + 1 && q.history[1..] == req.history &&
      q.history[0].timestamp == now && q.history[0].actorName == actor.name &&
      q.history[0].actorRole == actor.role &&
      q.history[0].action == TransitionAction(req.status, newStatus) &&
      q.history[0].notes == Some(if notes.Some? then notes.value else "") &&
      q.assignedTo == (if newStatus == Acknowledged && IsUnassigned(req) then Some(actor.name) else req.assignedTo) &&
      q.resolutionNotes == (if newStatus == Resolved then notes else req.resolutionNotes)
  {
    if GovernanceBlocks(req, newStatus, actor.role) then Rejected(GovernanceViolation)
    else if NotesMissing(newStatus, notes) then Rejected(ComplianceError)
    else
      var entry := AuditLogEntry(now, actor.name, actor.role, TransitionAction(req.status, newStatus),
                                 Some(if notes.Some? then notes.value else ""));
      Accepted(req.(
        status := newStatus,
        updatedAt := now,
        assignedTo := if newStatus == Acknowledged && IsUnassigned(req) then Some(actor.name) else req.assignedTo,
        resolutionNotes := if newStatus == Resolved then notes else req.resolutionNotes,
        history := [entry] + req.history))
  }

  /** The record a step leaves behind: the update if accepted, the original if rejected. */
  function After(req: HelpRequest, s: Step): HelpRequest
  {
    if s.Accepted? then s.request else req
  }

  /** The store after `transitionRequest`: every record with the id goes through the
      callback, every other record is kept. */
  function ApplyTransition(reqs: seq<HelpRequest>, id: string, actor: User, newStatus: RequestStatus,
                           notes: Option<string>, now: int): (r: seq<HelpRequest>)
    ensures |r| == |reqs|
    ensures forall i :: 0 <= i < |reqs| && reqs[i].id != id ==> r[i] == reqs[i]
    ensures forall i :: 0 <= i < |reqs| && reqs[i].id == id ==>
      r[i] == After(reqs[i], TransitionRecord(reqs[i], actor, newStatus, notes, now))
  {
    if reqs == [] then []
    else
      var head := if reqs[0].id == id then After(reqs[0], TransitionRecord(reqs[0], actor, newStatus, notes, now)) else reqs[0];
      [head] + ApplyTransition(reqs[1..], id, actor, newStatus, notes, now)
  }

  /** Record `req` has the id and the callback rejects it. */
  predicate Raises(req: HelpRequest, id: string, actor: User, newStatus: RequestStatus,
                   notes: Option<string>, now: int)
  {
    req.id == id && TransitionRecord(req, actor, newStatus, notes, now).Rejected?
  }

  /** Per record of the store, whether it raises an alert. */
  function RaisingFlags(reqs: seq<HelpRequest>, id: string, actor: User, newStatus: RequestStatus,
                        notes: Option<string>, now: int): seq<bool>
  {
    seq(|reqs|, i requires 0 <= i < |reqs| => Raises(reqs[i], id, actor, newStatus, notes, now))
  }

  lemma RaisingFlagsSplit(reqs: seq<HelpRequest>, id: string, actor: User, newStatus: RequestStatus,
                          notes: Option<string>, now: int)
    requires reqs != []
    ensures multiset(RaisingFlags(reqs, id, actor, newStatus, notes, now))[true] ==
      (if Raises(reqs[0], id, actor, newStatus, notes, now) then 1 else 0) +
      multiset(RaisingFlags(reqs[1..], id, actor, newStatus, notes, now))[true]
  {
    assert RaisingFlags(reqs, id, actor, newStatus, notes, now) ==
      [Raises(reqs[0], id, actor, newStatus, notes, now)] + RaisingFlags(reqs[1..], id, actor, newStatus, notes, now);
  }

  /** `v` is the violation of some record of the store that raises an alert. */
  predicate RaisedBy(v: Violation, reqs: seq<HelpRequest>, id: string, actor: User, newStatus: RequestStatus,
                     notes: Option<string>, now: int)
  {
    exists i :: 0 <= i < |reqs| && Raises(reqs[i], id, actor, newStatus, notes, now) &&
      v == TransitionRecord(reqs[i], actor, newStatus, notes, now).violation
  }

  lemma RaisedByTail(v: Violation, reqs: seq<HelpRequest>, id: string, actor: User, newStatus: RequestStatus,
                     notes: Option<string>, now: int)
    requires reqs != [] && RaisedBy(v, reqs[1..], id, actor, newStatus, notes, now)
    ensures RaisedBy(v, reqs, id, actor, newStatus, notes, now)
  {
    var i :| 0 <= i < |reqs[1..]| && Raises(reqs[1..][i], id, actor, newStatus, notes, now) &&
      v == TransitionRecord(reqs[1..][i], actor, newStatus, notes, now).violation;
    assert reqs[1..][i] == reqs[i + 1];
  }

  /** The alerts `transitionRequest` raises, in store order: one per matching record it rejects. */
  function Alerts(reqs: seq<HelpRequest>, id: string, actor: User, newStatus: RequestStatus,
                  notes: Option<string>, now: int): (alerts: seq<Violation>)
    ensures |alerts| == multiset(RaisingFlags(reqs, id, actor, newStatus, notes, now))[true]
    ensures forall v <- alerts :: RaisedBy(v, reqs, id, actor, newStatus, notes, now)
    ensures alerts == [] <==> forall i :: 0 <= i < |reqs| && reqs[i].id == id ==>
      TransitionRecord(reqs[i], actor, newStatus, notes, now).Accepted?
  {
    if reqs == [] then []
    else
      var rest := Alerts(reqs[1..], id, actor, newStatus, notes, now);
      assert forall i :: 1 <= i < |reqs| ==> reqs[1..][i - 1] == reqs[i];
      RaisingFlagsSplit(reqs, id, actor, newStatus, notes, now);
      forall v <- rest
        ensures RaisedBy(v, reqs, id, actor, newStatus, notes, now)
      {
        RaisedByTail(v, reqs, id, actor, newStatus, notes, now);
      }
      var step := TransitionRecord(reqs[0], actor, newStatus, notes, now);
      if Raises(reqs[0], id, actor, newStatus, notes, now) then
        assert RaisedBy(step.violation, reqs, id, actor, newStatus, notes, now);
        [step.violation] + rest
      else rest
  }

  // ---------------------------------------------------------------------------
  // SLA monitor

  /** A request the monitor escalates: open, not yet escalated, past its deadline. */
  predicate DueForEscalation(req: HelpRequest, now: int)
  {
    req.status != Resolved && req.status != Closed && !req.escalated && now > req.slaDeadline
  }

  /** The SLA monitor's map callback. */
  function EscalateRecord(req: HelpRequest, now: int): (r: HelpRequest)
    ensures r.escalated <==> req.escalated || DueForEscalation(req, now)
    ensures r.(escalated := req.escalated) == req
    ensures WellFormed(req) ==> WellFormed(r)
  {
    if DueForEscalation(req, now) then req.(escalated := true) else req
  }

  /** One tick of the SLA monitor over the store. */
  function Escalate(reqs: seq<HelpRequest>, now: int): (r: seq<HelpRequest>)
    ensures |r| == |reqs|
    ensures forall i :: 0 <= i < |reqs| ==>
      r[i].escalated == (reqs[i].escalated || DueForEscalation(reqs[i], now))
    ensures forall i :: 0 <= i < |reqs| ==> r[i].(escalated := reqs[i].escalated) == reqs[i]
  {
    if reqs == [] then []
    else [EscalateRecord(reqs[0], now)] + Escalate(reqs[1..], now)
  }

  // ---------------------------------------------------------------------------
  // Properties

  /** A second tick at the same instant changes nothing. */
  lemma {:induction false} EscalateIdempotent(reqs: seq<HelpRequest>, now: int)
    ensures Escalate(Escalate(reqs, now), now) == Escalate(reqs, now)
  {
    var once := Escalate(reqs, now);
    var twice := Escalate(once, now);
    forall i | 0 <= i < |reqs|
      ensures twice[i] == once[i]
    {
      assert twice[i].(escalated := once[i].escalated) == once[i];
    }
  }

  /** The monitor never clears the flag and never touches status or history. */
  lemma EscalateMonotone(reqs: seq<HelpRequest>, now: int, i: int)
    requires 0 <= i < |reqs|
    ensures reqs[i].escalated ==> Escalate(reqs, now)[i].escalated
    ensures Escalate(reqs, now)[i].status == reqs[i].status
    ensures Escalate(reqs, now)[i].history == reqs[i].history
  {
    var r := Escalate(reqs, now);
    assert r[i].(escalated := reqs[i].escalated) == reqs[i];
  }

  /** The monitor keeps every stored request well formed. */
  lemma EscalatePreservesWellFormed(reqs: seq<HelpRequest>, now: int)
    requires forall q <- reqs :: WellFormed(q)
    ensures forall q <- Escalate(reqs, now) :: WellFormed(q)
  {
    var r := Escalate(reqs, now);
    forall j | 0 <= j < |r|
      ensures WellFormed(r[j])
    {
      assert r[j].(escalated := reqs[j].escalated) == reqs[j];
      assert WellFormed(reqs[j]);
    }
  }

  /** A transition keeps every stored request well formed. */
  lemma TransitionPreservesWellFormed(reqs: seq<HelpRequest>, id: string, actor: User,
                                      newStatus: RequestStatus, notes: Option<string>, now: int)
    requires forall q <- reqs :: WellFormed(q)
    ensures forall q <- ApplyTransition(reqs, id, actor, newStatus, notes, now) :: WellFormed(q)
  {
    var r := ApplyTransition(reqs, id, actor, newStatus, notes, now);
    forall j | 0 <= j < |r|
      ensures WellFormed(r[j])
    {
      assert WellFormed(reqs[j]);
    }
  }

  /** Across the whole store a transition never changes a fixed field, and each
      history either stays as it was or gains exactly one entry in front. */
  lemma TransitionAppendsOnly(reqs: seq<HelpRequest>, id: string, actor: User,
                              newStatus: RequestStatus, notes: Option<string>, now: int, i: int)
    requires 0 <= i < |reqs|
    ensures var q := ApplyTransition(reqs, id, actor, newStatus, notes, now)[i];
      SameFixedFields(q, reqs[i]) &&
      (q.history == reqs[i].history || q.history[1..] == reqs[i].history) &&
      (q.status != reqs[i].status ==> q.status == newStatus)
  {
  }

  /** Once `assignedTo` holds a name, no transition changes it. */
  lemma AssignmentIsSticky(reqs: seq<HelpRequest>, id: string, actor: User,
                           newStatus: RequestStatus, notes: Option<string>, now: int, i: int)
    requires 0 <= i < |reqs| && IsSetText(reqs[i].assignedTo)
    ensures ApplyTransition(reqs, id, actor, newStatus, notes, now)[i].assignedTo == reqs[i].assignedTo
  {
  }

  /** The audit entries are listed newest first. */
  predicate NewestFirst(h: seq<AuditLogEntry>)
  {
    forall i, j :: 0 <= i < j < |h| ==> h[i].timestamp >= h[j].timestamp
  }

  /** Seed histories are listed oldest first while transitions prepend, so a
      transition on a seed request leaves a history in neither order. */
  lemma SeedHistoryMixedOrder(t0: int, actor: User)
    ensures var seed := SecondSeed(t0);
      var s := TransitionRecord(seed, actor, InProgress, None, t0);
      s.Accepted? && !OldestFirst(s.request.history) && !NewestFirst(s.request.history)
  {
    var seed := SecondSeed(t0);
    var h := TransitionRecord(seed, actor, InProgress, None, t0).request.history;
    assert h[0].timestamp == t0 && h[1].timestamp == t0 - 3600000 && h[2].timestamp == t0 - 3500000;
  }

  /** Governance rule: a non-supervisor's attempt to close leaves every Emergency record as it was. */
  lemma EmergencyCloseNeedsSupervisor(reqs: seq<HelpRequest>, id: string, actor: User,
                                      notes: Option<string>, now: int, i: int)
    requires 0 <= i < |reqs| && reqs[i].priority == Emergency && actor.role != Supervisor
    ensures ApplyTransition(reqs, id, actor, Closed, notes, now)[i] == reqs[i]
  {
  }

  /** Compliance rule: resolving or closing without notes leaves the whole store as it was. */
  lemma {:induction false} MissingNotesChangeNothing(reqs: seq<HelpRequest>, id: string, actor: User,
                                                     newStatus: RequestStatus, notes: Option<string>, now: int)
    requires NotesMissing(newStatus, notes)
    ensures ApplyTransition(reqs, id, actor, newStatus, notes, now) == reqs
  {
    var r := ApplyTransition(reqs, id, actor, newStatus, notes, now);
    assert forall i :: 0 <= i < |reqs| ==> r[i] == reqs[i];
  }

  /** A first acknowledgement assigns the request to the acknowledging officer. */
  lemma AcknowledgeAssigns(req: HelpRequest, actor: User, notes: Option<string>, now: int)
    requires req.assignedTo.None?
    ensures TransitionRecord(req, actor, Acknowledged, notes, now).Accepted?
    ensures TransitionRecord(req, actor, Acknowledged, notes, now).request.assignedTo == Some(actor.name)
  {
  }

  /** The engine's own gates do not enforce the lifecycle order: with notes, an
      officer may take a Normal request from Created straight to Closed, and
      from Closed back to Created. */
  lemma EngineIgnoresLifecycleOrder(req: HelpRequest, actor: User, now: int)
    requires req.priority == Normal
    ensures req.status == Created ==>
      TransitionRecord(req, actor, Closed, Some("done"), now).Accepted? &&
      TransitionRecord(req, actor, Closed, Some("done"), now).request.status == Closed
    ensures req.status == Closed ==>
      TransitionRecord(req, actor, Created, None, now).Accepted?
  {
  }

  /** The engine's notes gate accepts whitespace-only notes. */
  lemma EngineAcceptsBlankNotes(req: HelpRequest, actor: User, now: int)
    ensures Strings.IsBlank(" ")
    ensures TransitionRecord(req, actor, Resolved, Some(" "), now).Accepted?
  {
    Strings.BlankIffAllWhitespace(" ");
  }

  /** Scenario: an Emergency created at 0 is escalated by a tick at 3601000 and is still Created. */
  lemma EmergencyEscalationScenario(student: User)
    requires student.lastRequestTime.None?
    ensures var r := Create(Some(student), RequestData(Medical, Some(Emergency), Some("Block A"), None), "REQ-1", 0);
      r.Registered? &&
      Escalate([r.request], 3601000)[0].escalated &&
      Escalate([r.request], 3601000)[0].status == Created
  {
  }

  /** Scenario: two Emergency declarations within five minutes; the second is refused. */
  lemma SecondEmergencyRateLimited(student: User, t: int, elapsed: int)
    requires t != 0 && 0 <= elapsed < EMERGENCY_COOLDOWN_MS
    ensures var r := Create(Some(student.(lastRequestTime := Some(t))),
                            RequestData(Medical, Some(Emergency), Some("Block A"), None), "REQ-2", t + elapsed);
      r.RateLimited? && 1 <= r.waitMinutes <= 5
  {
  }

  // ---------------------------------------------------------------------------
  // The store

  /** The React state of `AppProvider`: the signed-in user and the request list. */
  class AppState {
    var user: Option<User>
    var requests: seq<HelpRequest>

    ghost predicate Valid()
      reads this
    {
      forall q <- requests :: WellFormed(q)
    }

    /** The provider starts signed out, holding the seed requests. */
    constructor (t0: int)
      ensures Valid()
      ensures user == None && requests == InitialRequests(t0)
    {
      user := None;
      requests := InitialRequests(t0);
    }

    /** `login`, given the user the identity stand-in produced. */
    method Login(u: User)
      modifies this`user
      ensures user == Some(u)
    {
      user := Some(u);
    }

    /** `logout` */
    method Logout()
      modifies this`user
      ensures user == None
    {
      user := None;
    }

    /** `createRequest`: a rejection changes nothing; a success prepends the new
        request and stamps the user's `lastRequestTime`, whatever the priority. */
    method CreateRequest(data: RequestData, id: string, now: int) returns (r: CreateResult)
      requires Valid()
      modifies this
      ensures Valid()
      ensures r == Create(old(user), data, id, now)
      ensures r.Registered? ==>
        requests == [r.request] + old(requests) &&
        user == Some(old(user).value.(lastRequestTime := Some(now)))
      ensures !r.Registered? ==> requests == old(requests) && user == old(user)
    {
      r := Create(user, data, id, now);
      if r.Registered? {
        requests := [r.request] + requests;
        user := Some(user.value.(lastRequestTime := Some(now)));
      }
    }

    /** `transitionRequest`: throws without a user; otherwise maps the callback over the store. */
    method TransitionRequest(id: string, newStatus: RequestStatus, notes: Option<string>, now: int)
      returns (r: TransitionResult)
      requires Valid()
      modifies this`requests
      ensures Valid()
      ensures old(user).None? ==> r == Unauthorized && requests == old(requests)
      ensures old(user).Some? ==>
        r == Applied(Alerts(old(requests), id, user.value, newStatus, notes, now)) &&
        requests == ApplyTransition(old(requests), id, user.value, newStatus, notes, now)
    {
      if user.None? {
        return Unauthorized;
      }
      r := Applied(Alerts(requests, id, user.value, newStatus, notes, now));
      TransitionPreservesWellFormed(requests, id, user.value, newStatus, notes, now);
      requests := ApplyTransition(requests, id, user.value, newStatus, notes, now);
    }

    /** One run of the SLA monitor's interval callback. */
    method Tick(now: int)
      requires Valid()
      modifies this`requests
      ensures Valid()
      ensures requests == Escalate(old(requests), now)
    {
      EscalatePreservesWellFormed(requests, now);
      requests := Escalate(requests, now);
    }
  }
}
