/** Policy constants and seed data (frontend/constants.ts). */
module Constants {
  import opened Types

  /** `SLA_CONFIG`: how long a request of each priority may stay open, in milliseconds. */
  function SlaDuration(p: Priority): (d: nat)
    ensures d > 0 && d % (60 * 60 * 1000) == 0
  {
    match p
    case Emergency => 60 * 60 * 1000
    case High => 4 * 60 * 60 * 1000
    case Normal => 24 * 60 * 60 * 1000
  }

  /** One hour, four hours and a day, strictly increasing with decreasing urgency. */
  lemma SlaPolicy()
    ensures SlaDuration(Emergency) == 3600000
    ensures SlaDuration(High) == 14400000
    ensures SlaDuration(Normal) == 86400000
    ensures 0 < SlaDuration(Emergency) < SlaDuration(High) < SlaDuration(Normal)
  {
  }

  /** The audit entries of a seed history are listed oldest first. */
  predicate OldestFirst(h: seq<AuditLogEntry>)
  {
    forall i, j :: 0 <= i < j < |h| ==> h[i].timestamp <= h[j].timestamp
  }

  /** What every seed request satisfies: a history that starts with its creation
      and is listed oldest first, the deadline of its priority, and no escalation. */
  predicate SeedShape(r: HelpRequest)
  {
    |r.history| > 0 && r.history[0].action == "CREATED" &&
    r.slaDeadline == r.createdAt + SlaDuration(r.priority) &&
    !r.escalated && OldestFirst(r.history)
  }

  /** `MOCK_HISTORY`, the history of the first seed. */
  function MockHistory(t0: int): seq<AuditLogEntry>
  {
    [AuditLogEntry(t0 - 100000, "Anu", Student, "CREATED", Some("Initial submission"))]
  }

  /** The first seed: a fresh Emergency. */
  function FirstSeed(t0: int): (r: HelpRequest)
    ensures SeedShape(r) && r.id == "REQ-2023-001"
    ensures r.priority == Emergency && r.status == Created && r.history == MockHistory(t0)
  {
    HelpRequest(
      "REQ-2023-001", "s1", "Anu", Medical, Emergency,
      "Severe allergic reaction, need ambulance.", "Block A, 2nd Floor, Room 204",
      Created, None, false,
      t0 - 100000, t0 - 100000, t0 + SlaDuration(Emergency) - 100000,
      MockHistory(t0), None)
  }

  /** The second seed: an acknowledged High-priority request. */
  function SecondSeed(t0: int): (r: HelpRequest)
    ensures SeedShape(r) && r.id == "REQ-2023-002"
    ensures r.priority == High && r.status == Acknowledged && |r.history| == 2
  {
    HelpRequest(
      "REQ-2023-002", "s2", "Ravi", Safety, High,
      "Suspicious activity near the south gate.", "South Gate Parking Lot",
      Acknowledged, Some("Officer John"), false,
      t0 - 3600000, t0 - 3500000, t0 + SlaDuration(High) - 3600000,
      [ AuditLogEntry(t0 - 3600000, "Ravi", Student, "CREATED", None),
        AuditLogEntry(t0 - 3500000, "Officer John", ResponseOfficer, "TRANSITION: Created -> Acknowledged", None) ],
      None)
  }

  /** The third seed: a resolved Normal request. */
  function ThirdSeed(t0: int): (r: HelpRequest)
    ensures SeedShape(r) && r.id == "REQ-2023-003"
    ensures r.priority == Normal && r.status == Resolved && |r.history| == 3 && r.resolutionNotes.Some?
  {
    HelpRequest(
      "REQ-2023-003", "s3", "Meena", Assistance, Normal,
      "Lost ID card in the library.", "Central Library, Desk 5",
      Resolved, Some("Officer Sarah"), false,
      t0 - 86400000, t0 - 40000000, t0 + SlaDuration(Normal) - 86400000,
      [ AuditLogEntry(t0 - 86400000, "Meena", Student, "CREATED", None),
        AuditLogEntry(t0 - 80000000, "Officer Sarah", ResponseOfficer, "TRANSITION: Created -> Acknowledged", None),
        AuditLogEntry(t0 - 40000000, "Officer Sarah", ResponseOfficer, "TRANSITION: In Progress -> Resolved", Some("Found at desk")) ],
      Some("ID card found and deposited at security desk."))
  }

  /** `INITIAL_REQUESTS`, with every `Date.now()` of module load read as the one instant `t0`. */
  function InitialRequests(t0: int): (seeds: seq<HelpRequest>)
    ensures |seeds| == 3
    ensures forall i, j :: 0 <= i < j < |seeds| ==> seeds[i].id != seeds[j].id
    ensures forall i :: 0 <= i < |seeds| ==> SeedShape(seeds[i])
  {
    var seeds := [FirstSeed(t0), SecondSeed(t0), ThirdSeed(t0)];
    seeds
  }
}
