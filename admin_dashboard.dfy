/** The officer dashboard's decision logic (frontend/pages/AdminDashboard.tsx): the
    SLA countdown and its severity, the two queues, the breach count, the response
    metrics, the workflow buttons, and the component state that `handleTransition`
    and the one-second ticker update. */
module AdminDashboard {
  import opened Types
  import opened Engine
  import Strings

  // ---------------------------------------------------------------------------
  // SLA countdown

  datatype Severity = Critical | Warning | Nominal

  datatype Clock = Clock(hours: nat, mins: nat, secs: nat)

  datatype SlaStatus = SlaStatus(text: string, isBreached: bool, severity: Severity)

  /** Below this remaining time an open deadline is shown as a warning. */
  const WARNING_WINDOW_MS: int := 30 * 60 * 1000

  function Abs(x: int): nat
  {
    if x < 0 then -x else x
  }

  /** What is left after whole hours, taken modulo a minute, is what is left after
      whole minutes. */
  lemma ModOfHourRest(ms: nat)
    ensures (ms % 3600000) % 60000 == ms % 60000
  {
    var q := ms / 3600000;
    var r := ms % 3600000;
    assert ms == 60000 * (60 * q) + r;
    assert r == 60000 * (r / 60000) + r % 60000;
    assert ms == 60000 * (60 * q + r / 60000) + r % 60000;
  }

  /** Whole hours, minutes and seconds of a duration. */
  function SplitDuration(ms: nat): (c: Clock)
    ensures c.mins < 60 && c.secs < 60
    ensures c.hours * 3600000 + c.mins * 60000 + c.secs * 1000 == ms / 1000 * 1000
    ensures ms / 1000 * 1000 <= ms < ms / 1000 * 1000 + 1000
  {
    var c := Clock(ms / 3600000, (ms % 3600000) / 60000, (ms % 60000) / 1000);
    ModOfHourRest(ms);
    assert ms == c.hours * 3600000 + c.mins * 60000 + ms % 60000;
    assert ms % 60000 == c.secs * 1000 + ms % 1000 by {
      var r := ms % 60000;
      assert ms == 1000 * (60 * (ms / 60000)) + r;
      assert r == 1000 * c.secs + r % 1000;
    }
    c
  }

  /** `${isBreached ? '-' : ''}${hours}:${mm}:${ss}` */
  function CountdownText(remaining: int): (t: string)
    ensures |t| > 0 && (t[0] == '-' <==> remaining < 0)
  {
    var c := SplitDuration(Abs(remaining));
    var h := Strings.NatToString(c.hours);
    var t := (if remaining < 0 then "-" else "") + (h + ":" + Strings.Pad2(c.mins) + ":" + Strings.Pad2(c.secs));
    assert t[0] == '-' <==> remaining < 0 by {
      assert Strings.IsDigit(h[0]);
      if remaining >= 0 { assert t[0] == h[0]; }
    }
    t
  }

  /** The text with its sign removed. */
  function Unsigned(t: string): string
  {
    if |t| > 0 && t[0] == '-' then t[1..] else t
  }

  /** Text of the form `H:MM:SS`, hours of any length. */
  predicate BodyShape(b: string)
  {
    |b| >= 7 && b[|b| - 3] == ':' && b[|b| - 6] == ':' &&
    Strings.AllDigits(b[..|b| - 6]) && Strings.AllDigits(b[|b| - 5..|b| - 3]) && Strings.AllDigits(b[|b| - 2..])
  }

  /** Reads a `H:MM:SS` text as milliseconds. */
  function ParseBody(b: string): int
    requires BodyShape(b)
  {
    Strings.ParseNat(b[..|b| - 6]) * 3600000 + Strings.ParseNat(b[|b| - 5..|b| - 3]) * 60000
    + Strings.ParseNat(b[|b| - 2..]) * 1000
  }

  /** Text of the form `[-]H:MM:SS`. */
  predicate CountdownShape(t: string)
  {
    BodyShape(Unsigned(t))
  }

  /** Reads a countdown text back as signed milliseconds. */
  function ParseCountdown(t: string): int
    requires CountdownShape(t)
  {
    var magnitude := ParseBody(Unsigned(t));
    if |t| > 0 && t[0] == '-' then -magnitude else magnitude
  }

  /** The three fields of a `H:MM:SS` body sit where the countdown shape expects them. */
  lemma BodyParts(h: string, m: string, s: string)
    requires |h| >= 1 && |m| == 2 && |s| == 2
    ensures var b := h + ":" + m + ":" + s;
      |b| == |h| + 6 && b[0] == h[0] && b[|b| - 3] == ':' && b[|b| - 6] == ':' &&
      b[..|b| - 6] == h && b[|b| - 5..|b| - 3] == m && b[|b| - 2..] == s
  {
    var tail := ":" + m + ":" + s;
    var b := h + tail;
    assert h + ":" + m + ":" + s == b;
    assert b[..|h|] == h;
    assert b[|h|..] == tail;
    assert tail[1..3] == m;
    assert tail[4..] == s;
    assert b[|h| + 1..|h| + 3] == tail[1..3];
    assert b[|h| + 4..] == tail[4..];
  }

  /** A `H:MM:SS` body built from digit fields reads back as the sum of its fields. */
  lemma BodyRoundTrip(h: string, m: string, s: string)
    requires |h| >= 1 && Strings.AllDigits(h)
    requires |m| == 2 && Strings.AllDigits(m) && |s| == 2 && Strings.AllDigits(s)
    ensures var b := h + ":" + m + ":" + s;
      b[0] == h[0] && BodyShape(b) &&
      ParseBody(b) == Strings.ParseNat(h) * 3600000 + Strings.ParseNat(m) * 60000 + Strings.ParseNat(s) * 1000
  {
    BodyParts(h, m, s);
  }

  /** A sign put in front of a body that does not start with a minus is read back
      as that sign, and removing it gives the body. */
  lemma SignStripped(sign: string, b: string)
    requires sign == "" || sign == "-"
    requires |b| > 0 && b[0] != '-'
    ensures Unsigned(sign + b) == b
    ensures |sign + b| > 0 && ((sign + b)[0] == '-' <==> sign == "-")
  {
    if sign == "-" {
      assert (sign + b)[1..] == b;
    } else {
      assert sign + b == b;
    }
  }

  /** A signed countdown reads back as its body's value with that sign. */
  lemma SignedParse(sign: string, b: string)
    requires sign == "" || sign == "-"
    requires BodyShape(b) && b[0] != '-'
    ensures CountdownShape(sign + b)
    ensures ParseCountdown(sign + b) == if sign == "-" then -ParseBody(b) else ParseBody(b)
  {
    SignStripped(sign, b);
  }

  /** The countdown text shows the remaining time to the second: reading it back
      gives the signed remaining time truncated to whole seconds. */
  lemma CountdownRoundTrip(remaining: int)
    ensures CountdownShape(CountdownText(remaining))
    ensures ParseCountdown(CountdownText(remaining)) ==
      (if remaining < 0 then -(Abs(remaining) / 1000 * 1000) else Abs(remaining) / 1000 * 1000)
  {
    var c := SplitDuration(Abs(remaining));
    var sign := if remaining < 0 then "-" else "";
    var h, m, s := Strings.NatToString(c.hours), Strings.Pad2(c.mins), Strings.Pad2(c.secs);
    var b := h + ":" + m + ":" + s;
    assert CountdownText(remaining) == sign + b;
    BodyRoundTrip(h, m, s);
    SignedParse(sign, b);
    Strings.ParseNatToString(c.hours);
  }

  /** `getSlaStatus`: signed countdown, breach flag and severity of a deadline. */
  function GetSlaStatus(deadline: int, isEscalated: bool, currentTime: int): (st: SlaStatus)
    ensures st.isBreached <==> deadline < currentTime
    ensures |st.text| > 0 && (st.text[0] == '-' <==> st.isBreached)
    ensures CountdownShape(st.text)
    ensures var left := Abs(deadline - currentTime) / 1000 * 1000;
      ParseCountdown(st.text) == if st.isBreached then -left else left
    ensures st.severity == Critical <==> st.isBreached || isEscalated
    ensures st.severity == Warning <==> !st.isBreached && !isEscalated && deadline - currentTime < WARNING_WINDOW_MS
    ensures st.severity == Nominal <==> !isEscalated && deadline - currentTime >= WARNING_WINDOW_MS
  {
    var remaining := deadline - currentTime;
    var breached := remaining < 0;
    var text := CountdownText(remaining);
    CountdownRoundTrip(remaining);
    SlaStatus(
      text,
      breached,
      if breached || isEscalated then Critical
      else if remaining < WARNING_WINDOW_MS then Warning
      else Nominal)
  }

  // ---------------------------------------------------------------------------
  // Queues and metrics

  /** `Array.prototype.filter`: the elements satisfying `p`, in their order. */
  function Filter<T(!new)>(s: seq<T>, p: T -> bool): (r: seq<T>)
    ensures |r| <= |s|
    ensures forall x <- r :: p(x) && x in s
    ensures forall x <- s :: p(x) ==> x in r
    ensures forall x :: multiset(r)[x] == if p(x) then multiset(s)[x] else 0
  {
    if s == [] then []
    else
      assert s == [s[0]] + s[1..];
      (if p(s[0]) then [s[0]] else []) + Filter(s[1..], p)
  }

  /** Filtering with a weaker test keeps at least as many elements. */
  lemma {:induction false} FilterCountMonotone<T(!new)>(s: seq<T>, p: T -> bool, q: T -> bool)
    requires forall x :: p(x) ==> q(x)
    ensures |Filter(s, p)| <= |Filter(s, q)|
  {
    if s != [] {
      FilterCountMonotone(s[1..], p, q);
    }
  }

  predicate IsNotClosed(r: HelpRequest)
  {
    r.status != Closed
  }

  /** Neither Resolved nor Closed. */
  predicate IsOpen(r: HelpRequest)
  {
    r.status != Resolved && r.status != Closed
  }

  predicate InEmergencyQueue(r: HelpRequest)
  {
    r.priority == Emergency && r.status != Closed
  }

  predicate InWorkQueue(r: HelpRequest)
  {
    r.priority != Emergency && r.status != Closed
  }

  /** `emergencies` */
  function Emergencies(reqs: seq<HelpRequest>): (q: seq<HelpRequest>)
    ensures forall x :: multiset(q)[x] == if InEmergencyQueue(x) then multiset(reqs)[x] else 0
  {
    Filter(reqs, InEmergencyQueue)
  }

  /** `workQueue` */
  function WorkQueue(reqs: seq<HelpRequest>): (q: seq<HelpRequest>)
    ensures forall x :: multiset(q)[x] == if InWorkQueue(x) then multiset(reqs)[x] else 0
  {
    Filter(reqs, InWorkQueue)
  }

  /** Together the two queues hold exactly the requests that are not Closed, each
      as often as it occurs in the store. */
  lemma QueuesPartitionUnclosed(reqs: seq<HelpRequest>)
    ensures multiset(Emergencies(reqs)) + multiset(WorkQueue(reqs)) == multiset(Filter(reqs, IsNotClosed))
  {
    assert forall x :: (multiset(Emergencies(reqs)) + multiset(WorkQueue(reqs)))[x] == multiset(Filter(reqs, IsNotClosed))[x];
  }

  /** No request is in both queues. */
  lemma QueuesDisjoint(reqs: seq<HelpRequest>)
    ensures forall r <- Emergencies(reqs) :: r !in WorkQueue(reqs)
  {
  }

  /** `activeBreaches`: open requests past their deadline. */
  function ActiveBreaches(reqs: seq<HelpRequest>, currentTime: int): (n: nat)
    ensures n <= |reqs|
    ensures n == 0 <==> forall r <- reqs :: !(IsOpen(r) && r.slaDeadline < currentTime)
  {
    var breached := Filter(reqs, (r: HelpRequest) => IsOpen(r) && r.slaDeadline < currentTime);
    assert breached != [] ==> breached[0] in breached;
    |breached|
  }

  /** The breach count never exceeds the number of open requests. */
  lemma ActiveBreachesBounded(reqs: seq<HelpRequest>, currentTime: int)
    ensures ActiveBreaches(reqs, currentTime) <= |Filter(reqs, IsOpen)|
  {
    FilterCountMonotone(reqs, (r: HelpRequest) => IsOpen(r) && r.slaDeadline < currentTime, IsOpen);
  }

  /** A request counted as breached is one whose countdown reads as breached, and
      a monitor tick at that instant has escalated it. */
  lemma BreachedRequestsEscalatedByTick(reqs: seq<HelpRequest>, currentTime: int, i: int)
    requires 0 <= i < |reqs| && IsOpen(reqs[i]) && reqs[i].slaDeadline < currentTime
    ensures GetSlaStatus(reqs[i].slaDeadline, reqs[i].escalated, currentTime).isBreached
    ensures Escalate(reqs, currentTime)[i].escalated
    ensures GetSlaStatus(Escalate(reqs, currentTime)[i].slaDeadline, true, currentTime).severity == Critical
  {
  }

  /** `Math.round(a / b)` of exact quotients: halves round up. */
  function RoundDiv(a: int, b: int): (r: int)
    requires b > 0
    ensures 2 * b * r - b <= 2 * a < 2 * b * r + b
  {
    (2 * a + b) / (2 * b)
  }

  /** Total time from creation to last update. */
  function TotalResponse(rs: seq<HelpRequest>): int
  {
    if rs == [] then 0 else (rs[0].updatedAt - rs[0].createdAt) + TotalResponse(rs[1..])
  }

  predicate IsResolved(r: HelpRequest)
  {
    r.status == Resolved
  }

  /** `calculateAvgResponse`: the mean creation-to-update time of Resolved requests,
      in minutes rounded to the nearest, 0 when there are none. */
  function AvgResponseMinutes(reqs: seq<HelpRequest>): (m: int)
    ensures Filter(reqs, IsResolved) == [] ==> m == 0
    ensures var resolved := Filter(reqs, IsResolved);
      resolved != [] ==>
        2 * (|resolved| * 60000) * m - |resolved| * 60000 <= 2 * TotalResponse(resolved) <
        2 * (|resolved| * 60000) * m + |resolved| * 60000
  {
    var resolved := Filter(reqs, IsResolved);
    if |resolved| == 0 then 0 else RoundDiv(TotalResponse(resolved), |resolved| * 60000)
  }

  /** Acknowledgement target of the 15-minute acknowledge rate. */
  const ACK_TARGET_MS: int := 15 * 60 * 1000

  /** Entry `k` is the first one of `h` that satisfies `p`. */
  predicate FirstMatch(h: seq<AuditLogEntry>, p: AuditLogEntry -> bool, k: int)
  {
    0 <= k < |h| && p(h[k]) && forall j :: 0 <= j < k ==> !p(h[j])
  }

  /** A first match of the tail is a first match of the whole one place further on,
      when the head does not match. */
  lemma FirstMatchShift(h: seq<AuditLogEntry>, p: AuditLogEntry -> bool, k: int)
    requires h != [] && !p(h[0]) && FirstMatch(h[1..], p, k)
    ensures FirstMatch(h, p, k + 1)
  {
    assert forall j :: 1 <= j < k + 1 ==> h[j] == h[1..][j - 1];
  }

  /** `history.find(p)` */
  function FindFirst(h: seq<AuditLogEntry>, p: AuditLogEntry -> bool): (r: Option<AuditLogEntry>)
    ensures r.None? <==> forall e <- h :: !p(e)
    ensures r.Some? ==> exists k :: FirstMatch(h, p, k) && h[k] == r.value
  {
    if h == [] then None
    else if p(h[0]) then
      assert FirstMatch(h, p, 0);
      Some(h[0])
    else
      var r := FindFirst(h[1..], p);
      assert r.Some? ==> exists k :: FirstMatch(h, p, k) && h[k] == r.value by {
        if r.Some? {
          var k :| FirstMatch(h[1..], p, k) && h[1..][k] == r.value;
          FirstMatchShift(h, p, k);
        }
      }
      r
  }

  /** `Math.round((onTime / acknowledged) * 100)`, 100 when nothing has been acknowledged. */
  function Percentage(onTime: nat, total: nat): (rate: int)
    requires onTime <= total
    ensures 0 <= rate <= 100
    ensures total == 0 || onTime == total ==> rate == 100
    ensures onTime == 0 < total ==> rate == 0
    ensures total > 0 ==> 2 * total * rate - total <= 200 * onTime < 2 * total * rate + total
  {
    if total == 0 then 100
    else
      var rate := RoundDiv(100 * onTime, total);
      assert rate <= 100 by {
        if rate > 100 { MulMonotone(2 * total, 101, rate); }
      }
      assert rate >= 0 by {
        if rate < 0 { MulMonotone(2 * total, rate, -1); }
      }
      assert onTime == total ==> rate == 100 by {
        if onTime == total && rate < 100 { MulMonotone(2 * total, rate, 99); }
      }
      assert onTime == 0 ==> rate == 0 by {
        if onTime == 0 && rate > 0 { MulMonotone(2 * total, 1, rate); }
      }
      rate
  }

  /** Multiplying by a natural number keeps the order. */
  lemma {:induction false} MulMonotone(c: nat, a: int, b: int)
    requires a <= b
    ensures c * a <= c * b
  {
    if c > 0 {
      MulMonotone(c - 1, a, b);
      assert c * a == (c - 1) * a + a;
      assert c * b == (c - 1) * b + b;
    }
  }

  predicate HasLeftCreated(r: HelpRequest)
  {
    r.status != Created
  }

  /** As written: the first listed entry whose action mentions `Acknowledged`. */
  predicate MentionsAcknowledged(e: AuditLogEntry)
  {
    Strings.Contains(e.action, "Acknowledged")
  }

  /** As written: on time when no entry mentions `Acknowledged`, or when the first
      listed one is less than the target after creation. */
  predicate OnTimeAsWritten(r: HelpRequest): (b: bool)
    ensures b <==> forall k :: 0 <= k < |r.history| && FirstMatch(r.history, MentionsAcknowledged, k) ==>
      r.history[k].timestamp - r.createdAt < ACK_TARGET_MS
  {
    FindFirstMention(r.history);
    var ack := FindFirst(r.history, MentionsAcknowledged);
    ack.None? || ack.value.timestamp - r.createdAt < ACK_TARGET_MS
  }

  /** `find` returns the entry at the one index that is the first mention. */
  lemma FindFirstMention(h: seq<AuditLogEntry>)
    ensures FindFirst(h, MentionsAcknowledged).None? ==> forall k :: !FirstMatch(h, MentionsAcknowledged, k)
    ensures FindFirst(h, MentionsAcknowledged).Some? ==>
      forall k :: FirstMatch(h, MentionsAcknowledged, k) ==> h[k] == FindFirst(h, MentionsAcknowledged).value
  {
    var ack := FindFirst(h, MentionsAcknowledged);
    if ack.Some? {
      var k0 :| FirstMatch(h, MentionsAcknowledged, k0) && h[k0] == ack.value;
      assert forall k :: FirstMatch(h, MentionsAcknowledged, k) ==> k == k0;
    }
  }

  /** `calculateAckRate` as written. */
  function AckRateAsWritten(reqs: seq<HelpRequest>): (rate: int)
    ensures 0 <= rate <= 100
    ensures Filter(reqs, HasLeftCreated) == [] ==> rate == 100
  {
    var acknowledged := Filter(reqs, HasLeftCreated);
    Percentage(|Filter(acknowledged, OnTimeAsWritten)|, |acknowledged|)
  }

  /** Filtering with a test every element passes keeps the sequence as it is. */
  lemma {:induction false} FilterKeepsAll<T(!new)>(s: seq<T>, p: T -> bool)
    requires forall x <- s :: p(x)
    ensures Filter(s, p) == s
  {
    if s != [] {
      FilterKeepsAll(s[1..], p);
    }
  }

  /** How every transition into Acknowledged ends its audit action. */
  const ACK_SUFFIX: string := "-> " + StatusName(Acknowledged)

  /** Corrected: an entry recording a transition into Acknowledged. */
  predicate IsAcknowledgement(e: AuditLogEntry)
  {
    Strings.EndsWith(e.action, ACK_SUFFIX)
  }

  /** An action that ends in ` -> ` and a status name shorter than `Acknowledged`
      does not end with the acknowledgement suffix: the suffix has no `-` where the
      arrow's would fall. */
  lemma ShorterTargetNotAck(prefix: string, name: string)
    requires |name| < 12 && ACK_SUFFIX[12 - |name|] != '-'
    ensures !Strings.EndsWith(prefix + (" -> " + name), ACK_SUFFIX)
  {
    var a := prefix + (" -> " + name);
    if |a| >= 15 {
      assert a[|a| - |name| - 3] == '-';
      assert a[|a| - 15..][12 - |name|] == a[|a| - |name| - 3];
    }
  }

  /** The corrected test recognises exactly the audit entries of transitions into
      Acknowledged, whatever status they leave. */
  lemma AcknowledgementEntries(from: RequestStatus, to: RequestStatus)
    ensures Strings.EndsWith(TransitionAction(from, to), ACK_SUFFIX) <==> to == Acknowledged
  {
    var prefix := "TRANSITION: " + StatusName(from);
    var name := StatusName(to);
    if to == Acknowledged {
      assert " -> " + name == " " + ACK_SUFFIX;
      assert TransitionAction(from, to) == (prefix + " ") + ACK_SUFFIX;
      Strings.EndsWithAppend(prefix + " ", ACK_SUFFIX);
    } else {
      ShorterTargetNotAck(prefix, name);
    }
  }

  /** Corrected: the earliest time the request was acknowledged, whatever the order
      of its history. */
  function EarliestAcknowledgement(h: seq<AuditLogEntry>): (t: Option<int>)
    ensures t.None? <==> forall e <- h :: !IsAcknowledgement(e)
    ensures t.Some? ==> exists e <- h :: IsAcknowledgement(e) && e.timestamp == t.value
    ensures t.Some? ==> forall e <- h :: IsAcknowledgement(e) ==> t.value <= e.timestamp
  {
    if h == [] then None
    else
      var rest := EarliestAcknowledgement(h[1..]);
      assert forall e <- h[1..] :: e in h;
      assert forall e <- h :: e == h[0] || e in h[1..];
      if !IsAcknowledgement(h[0]) then rest
      else if rest.Some? && rest.value < h[0].timestamp then rest
      else Some(h[0].timestamp)
  }

  /** Corrected: acknowledged less than the target after creation, or never acknowledged. */
  predicate OnTime(r: HelpRequest)
  {
    var ack := EarliestAcknowledgement(r.history);
    ack.None? || ack.value - r.createdAt < ACK_TARGET_MS
  }

  /** `calculateAckRate`, reading the acknowledgement's own time. */
  function AckRate(reqs: seq<HelpRequest>): (rate: int)
    ensures 0 <= rate <= 100
    ensures Filter(reqs, HasLeftCreated) == [] ==> rate == 100
  {
    var acknowledged := Filter(reqs, HasLeftCreated);
    Percentage(|Filter(acknowledged, OnTime)|, |acknowledged|)
  }

  /** When every request that has left Created was acknowledged in time, the rate is 100. */
  lemma AckRateAllOnTime(reqs: seq<HelpRequest>)
    requires forall r <- reqs :: HasLeftCreated(r) ==> OnTime(r)
    ensures AckRate(reqs) == 100
  {
    var acknowledged := Filter(reqs, HasLeftCreated);
    FilterKeepsAll(acknowledged, OnTime);
  }

  // ---------------------------------------------------------------------------
  // Workflow buttons

  /** The one workflow button each status shows, as the status it requests. */
  function NextAction(s: RequestStatus): (next: Option<RequestStatus>)
    ensures next.None? <==> s == Closed
    ensures next.Some? ==> StatusRank(next.value) == StatusRank(s) + 1
    ensures next.Some? ==> next.value == AllStatuses()[StatusRank(s) + 1]
  {
    match s
    case Created => Some(Acknowledged)
    case Acknowledged => Some(InProgress)
    case InProgress => Some(Resolved)
    case Resolved => Some(Closed)
    case Closed => None
  }

  /** `disabled={!notes.trim()}` on MARK RESOLVED, negated. */
  predicate ResolveEnabled(notes: string): (b: bool)
    ensures b <==> exists i :: 0 <= i < |notes| && !Strings.IsWhitespace(notes[i])
  {
    Strings.BlankIffAllWhitespace(notes);
    !Strings.IsBlank(notes)
  }

  /** The close button's `disabled` condition, negated: Emergency or escalated
      requests need a supervisor. With no user the role is not `supervisor`. */
  predicate CloseEnabled(req: HelpRequest, role: Option<Role>): (b: bool)
    ensures b <==> role == Some(Supervisor) || (req.priority != Emergency && !req.escalated)
    ensures b && role.Some? ==> !GovernanceBlocks(req, Closed, role.value)
  {
    !((req.priority == Emergency || req.escalated) && role != Some(Supervisor))
  }

  /** As written: whether the request's workflow button can be pressed. */
  predicate ButtonEnabledAsWritten(req: HelpRequest, role: Option<Role>, notes: string): (b: bool)
    ensures b ==> NextAction(req.status).Some?
    ensures req.status == Created || req.status == Acknowledged ==> b
    ensures req.status == InProgress ==> (b <==> !Strings.IsBlank(notes))
    ensures req.status == Resolved ==> (b <==> CloseEnabled(req, role))
  {
    match req.status
    case Created => true
    case Acknowledged => true
    case InProgress => ResolveEnabled(notes)
    case Resolved => CloseEnabled(req, role)
    case Closed => false
  }

  /** Corrected: closing also needs non-blank notes, which the engine demands. */
  predicate ButtonEnabled(req: HelpRequest, role: Option<Role>, notes: string): (b: bool)
    ensures b ==> ButtonEnabledAsWritten(req, role, notes)
    ensures b && (NextAction(req.status) == Some(Resolved) || NextAction(req.status) == Some(Closed)) ==>
      !Strings.IsBlank(notes)
    ensures ButtonEnabledAsWritten(req, role, notes) && !Strings.IsBlank(notes) ==> b
  {
    match req.status
    case Created => true
    case Acknowledged => true
    case InProgress => ResolveEnabled(notes)
    case Resolved => CloseEnabled(req, role) && ResolveEnabled(notes)
    case Closed => false
  }

  /** The close button's gate is strictly stronger than the engine's governance rule. */
  lemma CloseGateStrongerThanEngine(req: HelpRequest, role: Role)
    ensures CloseEnabled(req, Some(role)) ==> !GovernanceBlocks(req, Closed, role)
    ensures req.priority != Emergency && req.escalated && role != Supervisor ==>
      !CloseEnabled(req, Some(role)) && !GovernanceBlocks(req, Closed, role)
  {
  }

  /** Corrected buttons: a button that can be pressed, with the dashboard's notes,
      always requests the next status and the engine accepts it. */
  lemma EnabledButtonAccepted(req: HelpRequest, actor: User, notes: string, now: int)
    requires ButtonEnabled(req, Some(actor.role), notes)
    ensures NextAction(req.status).Some?
    ensures TransitionRecord(req, actor, NextAction(req.status).value, Some(notes), now).Accepted?
  {
    assert Strings.IsBlank([]);
    var next := NextAction(req.status).value;
    if next == Closed {
      CloseGateStrongerThanEngine(req, actor.role);
    }
    assert !GovernanceBlocks(req, next, actor.role);
    assert !NotesMissing(next, Some(notes));
  }

  /** As written: a Resolved, non-Emergency, unescalated request offers an enabled
      close button while the dashboard's notes are empty (as `handleTransition` leaves
      them), and the engine then refuses the close with a compliance error. */
  lemma CloseEnabledButRejected(req: HelpRequest, actor: User, now: int)
    requires req.status == Resolved && req.priority != Emergency && !req.escalated
    ensures ButtonEnabledAsWritten(req, Some(actor.role), "")
    ensures TransitionRecord(req, actor, Closed, Some(""), now) == Rejected(ComplianceError)
    ensures !ButtonEnabled(req, Some(actor.role), "")
  {
    assert Strings.IsBlank("");
  }

  /** Every transition out of Acknowledged mentions Acknowledged in its audit action. */
  lemma LeavingAckMentionsAck(to: RequestStatus)
    ensures Strings.Contains(TransitionAction(Acknowledged, to), "Acknowledged")
  {
    var a := TransitionAction(Acknowledged, to);
    assert a == "TRANSITION: " + "Acknowledged" + (" -> " + StatusName(to));
    assert a[12..24] == "Acknowledged";
    assert Strings.OccursAt(a, "Acknowledged", 12);
  }

  /** A request created at 0, acknowledged at one minute and started at twenty, as
      the engine records it (newest entry first). */
  function StartedAfterQuickAck(q: HelpRequest): HelpRequest
  {
    q.(status := InProgress, createdAt := 0,
       history := [
         AuditLogEntry(1200000, "Officer", ResponseOfficer, TransitionAction(Acknowledged, InProgress), Some("")),
         AuditLogEntry(60000, "Officer", ResponseOfficer, TransitionAction(Created, Acknowledged), Some("")),
         AuditLogEntry(0, "Student", Student, "CREATED", Some("Initial submission"))])
  }

  /** As written, the acknowledge rate reads the wrong entry of an engine-built
      history: acknowledged after one minute and started after twenty, the request
      counts as late, because the first listed entry mentioning Acknowledged is the
      Acknowledged -> In Progress one. */
  lemma AckRateAsWrittenCountsQuickAckLate(q: HelpRequest)
    ensures !OnTimeAsWritten(StartedAfterQuickAck(q))
    ensures AckRateAsWritten([StartedAfterQuickAck(q)]) == 0
  {
    var r := StartedAfterQuickAck(q);
    LeavingAckMentionsAck(InProgress);
    assert MentionsAcknowledged(r.history[0]);
    assert Filter([r], HasLeftCreated) == [r];
    assert Filter([r], OnTimeAsWritten) == [];
  }

  /** Read by the acknowledgement's own time, the same request is on time. */
  lemma AckRateCountsQuickAckOnTime(q: HelpRequest)
    ensures OnTime(StartedAfterQuickAck(q))
    ensures AckRate([StartedAfterQuickAck(q)]) == 100
  {
    var r := StartedAfterQuickAck(q);
    AcknowledgementEntries(Created, Acknowledged);
    assert IsAcknowledgement(r.history[1]) && r.history[1] in r.history;
    var ack := EarliestAcknowledgement(r.history);
    assert ack.Some? && ack.value <= 60000;
    AckRateAllOnTime([r]);
  }

  /** The engine builds exactly that history: create at 0, acknowledge at one minute,
      start the response at twenty. */
  lemma EngineBuildsAckScenario(student: User, officer: User)
    requires student.lastRequestTime.None? && student.name == "Student" && student.role == Student
    requires officer.name == "Officer" && officer.role == ResponseOfficer
    ensures var created := Create(Some(student), RequestData(Medical, Some(Normal), Some("Library"), None), "REQ-7", 0);
      created.Registered? &&
      var acked := TransitionRecord(created.request, officer, Acknowledged, None, 60000);
      acked.Accepted? &&
      var started := TransitionRecord(acked.request, officer, InProgress, None, 1200000);
      started.Accepted? && started.request == StartedAfterQuickAck(started.request)
  {
  }

  // ---------------------------------------------------------------------------
  // Component state

  /** The dashboard's own state: the selected request, the notes box and the
      time the countdowns are computed against. */
  class Dashboard {
    var selectedRequestId: Option<string>
    var notes: string
    var currentTime: int

    constructor (now: int)
      ensures selectedRequestId == None && notes == [] && currentTime == now
    {
      selectedRequestId := None;
      notes := [];
      currentTime := now;
    }

    /** The one-second ticker. */
    method Tick(now: int)
      modifies this`currentTime
      ensures currentTime == now
    {
      currentTime := now;
    }

    /** Manage / View Details. */
    method Select(id: string)
      modifies this`selectedRequestId
      ensures selectedRequestId == Some(id)
    {
      selectedRequestId := Some(id);
    }

    /** The modal's close button. */
    method Dismiss()
      modifies this`selectedRequestId
      ensures selectedRequestId == None
    {
      selectedRequestId := None;
    }

    /** Typing in the resolution notes box. */
    method EditNotes(text: string)
      modifies this`notes
      ensures notes == text
    {
      notes := text;
    }

    /** `handleTransition`: with a selected request, asks the engine for the
        transition with the current notes. Unless the engine throws, the notes are
        cleared and the modal closes after a resolve or close. */
    method HandleTransition(app: Engine.AppState, newStatus: RequestStatus, now: int)
      returns (r: Option<TransitionResult>)
      requires app.Valid()
      modifies this`notes, this`selectedRequestId, app`requests
      ensures app.Valid()
      ensures !IsSetText(old(selectedRequestId)) ==>
        r == None && app.requests == old(app.requests) &&
        notes == old(notes) && selectedRequestId == old(selectedRequestId)
      ensures IsSetText(old(selectedRequestId)) && app.user.None? ==>
        r == Some(Unauthorized) && app.requests == old(app.requests) &&
        notes == old(notes) && selectedRequestId == old(selectedRequestId)
      ensures IsSetText(old(selectedRequestId)) && app.user.Some? ==>
        r == Some(Applied(Alerts(old(app.requests), old(selectedRequestId).value, app.user.value,
                                 newStatus, Some(old(notes)), now))) &&
        app.requests == ApplyTransition(old(app.requests), old(selectedRequestId).value, app.user.value,
                                        newStatus, Some(old(notes)), now) &&
        notes == [] &&
        selectedRequestId == (if newStatus == Resolved || newStatus == Closed then None else old(selectedRequestId))
    {
      if !IsSetText(selectedRequestId) {
        return None;
      }
      var result := app.TransitionRequest(selectedRequestId.value, newStatus, Some(notes), now);
      r := Some(result);
      if result.Unauthorized? {
        return;
      }
      notes := [];
      if newStatus == Resolved || newStatus == Closed {
        selectedRequestId := None;
      }
    }
  }
}
