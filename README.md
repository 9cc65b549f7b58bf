# CampusAssist request lifecycle, in Dafny

This project models the core of CampusAssist, a campus help-request app. Students raise
help requests, some of them emergency declarations. Response officers and supervisors move
each request through `Created → Acknowledged → In Progress → Resolved → Closed`. Every
request has an SLA deadline that depends on its priority, a one-way escalation flag and an
audit trail.

The model has six modules:

- `Types`: the enumerations and records (`frontend/types.ts`).
- `Constants`: the SLA durations and the seed requests (`frontend/constants.ts`).
- `Strings`: the JavaScript string operations the core depends on. These are `trim`,
  `includes`, decimal rendering and `padStart(2, '0')`. It also defines a suffix test
  (`endsWith`), which the code does not call; only the corrected acknowledgement test
  `AdminDashboard.IsAcknowledgement` uses it.
- `Engine`: the engine in `frontend/context/AppContext.tsx`. The per-record logic is
  written as functions: request construction, the transition callback and the SLA-monitor
  callback. The store is the class `AppState`. Its `user` and `requests` fields are
  replaced wholesale by `CreateRequest`, `TransitionRequest` and `Tick`, just as
  `setUser`/`setRequests` replace them. The clock is the parameter `now`. A new request's
  id is the parameter `id`.
- `AdminDashboard`: the officer dashboard's decision logic
  (`frontend/pages/AdminDashboard.tsx`). This covers the SLA countdown and its severity,
  the two queues, the breach count, the two metrics and the workflow buttons. The class
  `Dashboard` holds the component state that `handleTransition` and the one-second ticker
  update.
- `HelpRequestForm`: the submission form (`frontend/components/HelpRequestForm.tsx`) as
  the class `Form`. It covers the blank-location check, the Emergency confirmation step,
  submission and reset.

The contracts of the engine's operations say that a rejection leaves the store and the
user unchanged, and that an accepted operation changes exactly the listed fields. The
dashboard and the form reset part of their own state even after a rejection (see below).

The model follows the code, including these quirks of it:

- The engine does not reject an empty location. It stores `Unknown Location` instead.
  Only the form refuses a blank location (`Engine.Create`, `HelpRequestForm.SubmittedFieldsKept`).
- A `lastRequestTime` of 0 counts as "never submitted", because JavaScript treats 0 as
  false (`Engine.RateLimitWait`).
- `lastRequestTime` is stamped after every successful creation, whatever the priority
  (`Engine.AppState.CreateRequest`).
- `transitionRequest` has no "not found" error. An unknown id is a silent no-op. Every
  record with a matching id goes through the callback, so duplicate ids are all
  transitioned (`Engine.ApplyTransition`).
- The engine does not enforce the lifecycle order. It accepts Created → Closed, and
  Closed → Created (`Engine.EngineIgnoresLifecycleOrder`). Only the dashboard's buttons
  offer the next step alone (`AdminDashboard.NextAction`).
- The rule "an escalated request needs a supervisor to close" exists only in the UI
  (`AdminDashboard.CloseGateStrongerThanEngine`).
- The engine's notes check is `!notes`, so whitespace-only notes pass
  (`Engine.EngineAcceptsBlankNotes`). The Resolve button trims the notes first.
- After a transition the engine refused (a governance or compliance alert), the
  dashboard still clears the notes and, for Resolved or Closed, closes the detail view,
  because `transitionRequest` only throws when no one is signed in
  (frontend/pages/AdminDashboard.tsx:70-75, `AdminDashboard.Dashboard.HandleTransition`).
- The form clears location, description and priority and closes the confirmation after
  every submission, even when the engine refused it for the rate limit or a missing user
  (frontend/components/HelpRequestForm.tsx:41-44, `HelpRequestForm.Form.ProcessSubmission`).
- Escalation adds no audit entry (`Engine.EscalateMonotone`).
- Seed histories are listed oldest first, while transitions prepend the newest entry. A
  transition on a seed request therefore leaves a history that is in neither order
  (`Engine.SeedHistoryMixedOrder`).

## Model

| member | source | states |
|---|---|---|
| `Types.AllStatuses` | frontend/types.ts:16-22 | exactly five statuses, each at the index of its lifecycle rank |
| `Types.StatusNameInjective` | frontend/types.ts:16-22 | distinct statuses have distinct string values (`InProgress` is `In Progress`) |
| `Types.RoleNameInjective` | frontend/types.ts:1 | the three role strings are distinct |
| `Strings.TrimStart` | frontend/pages/AdminDashboard.tsx:335 | removes exactly the longest whitespace prefix |
| `Strings.TrimEnd` | frontend/pages/AdminDashboard.tsx:335 | removes exactly the longest whitespace suffix |
| `Strings.BlankIffAllWhitespace` | frontend/components/HelpRequestForm.tsx:22 | `!s.trim()` holds iff every character is whitespace |
| `Strings.Contains` | frontend/pages/AdminDashboard.tsx:39 | `includes` is true iff the substring occurs at some index |
| `Strings.ParseNatToString` | frontend/pages/AdminDashboard.tsx:60 | reading back a rendered number gives the number |
| `Strings.Pad2` | frontend/pages/AdminDashboard.tsx:60 | below 100 the padded text has two digits and reads back as the number |
| `Constants.SlaDuration` | frontend/constants.ts:4-8 | every SLA is a positive whole number of hours |
| `Constants.SlaPolicy` | frontend/constants.ts:4-8 | Emergency 3600000 ms, High 14400000 ms, Normal 86400000 ms, strictly increasing |
| `Constants.FirstSeed` | frontend/constants.ts:10-35 | `REQ-2023-001`, an Emergency in status Created whose history is `MOCK_HISTORY`; the history starts with `CREATED` and is oldest first, the deadline is creation plus the Emergency SLA, and it is not escalated |
| `Constants.SecondSeed` | frontend/constants.ts:36-54 | `REQ-2023-002`, a High request in status Acknowledged with two history entries; the history starts with `CREATED` and is oldest first, the deadline is creation plus the High SLA, and it is not escalated |
| `Constants.ThirdSeed` | frontend/constants.ts:55-75 | `REQ-2023-003`, a Normal request in status Resolved with three history entries and resolution notes; the history starts with `CREATED` and is oldest first, the deadline is creation plus the Normal SLA, and it is not escalated |
| `Constants.InitialRequests` | frontend/constants.ts:20-76 | three seeds with distinct ids; each history is non-empty, starts with `CREATED` and is oldest first; each deadline is creation time plus the SLA; none is escalated |
| `Engine.CeilMinutes` | frontend/context/AppContext.tsx:67 | `Math.ceil(ms / 60000)`: the least m with ms <= m * 60000 |
| `Engine.RateLimitWait` | frontend/context/AppContext.tsx:63-70 | a wait is reported iff the priority is Emergency and the last declaration is set and less than 300000 ms ago; the wait is the remaining cooldown rounded up to minutes, at least 1, and at most 5 when the clock has not gone backwards |
| `Engine.NewRequest` | frontend/context/AppContext.tsx:76-96 | the new record is well formed, with its deadline 1h, 4h or 24h after now; it has status Created, is not escalated and has no assignee or resolution notes; it was created and updated now; its history is the one `CREATED` entry by the user, noted `Initial submission` |
| `Engine.Create` | frontend/context/AppContext.tsx:60-98 | no user gives nothing; cooldown gives RateLimited with the wait that `RateLimitWait` computes; otherwise the request has status Created, is not escalated, has createdAt = updatedAt = now, no assignee or resolution notes, priority defaulting to Normal, deadline minus creation in {1h, 4h, 24h}, the description or `''`, the location or `Unknown Location` when it is absent or empty, and one `CREATED` entry noted `Initial submission` by the user's name and role |
| `Engine.TransitionActionInjective` | frontend/context/AppContext.tsx:129 | an audit action `TRANSITION: a -> b` determines both its statuses |
| `Engine.GovernanceComparesRoleNames` | frontend/context/AppContext.tsx:111-116 | the governance rule, which compares role strings with `'supervisor'`, is the same test on the role enumeration |
| `Engine.GovernanceBlocks` | frontend/context/AppContext.tsx:111-116 | only closing an Emergency request is blocked, never for a supervisor, and always for anyone else |
| `Engine.NotesMissing` | frontend/context/AppContext.tsx:119 | only Resolved and Closed need notes; non-empty notes always pass; absent or empty notes fail |
| `Engine.TransitionRecord` | frontend/context/AppContext.tsx:110-140 | rejected iff the Emergency-close governance rule or the notes rule fails, with governance checked first; if accepted, one audit entry `TRANSITION: old -> new` (notes or `''`) is prepended, status and updatedAt are set, assignedTo changes only on a first Acknowledge, resolutionNotes only on Resolved, and every other field is kept |
| `Engine.ApplyTransition` | frontend/context/AppContext.tsx:107-141 | the list keeps its length; records with another id are untouched; each record with the id becomes what the callback accepts, or stays as it was |
| `Engine.Alerts` | frontend/context/AppContext.tsx:110-122 | the number of alerts is the number of records with the id that the callback rejects; each alert is the violation of one such record; there are none iff every matching record is accepted |
| `Engine.EscalateRecord` | frontend/context/AppContext.tsx:43-53 | the flag becomes set iff it was set or the record is open and past its deadline; no other field changes; the store invariant is kept |
| `Engine.Escalate` | frontend/context/AppContext.tsx:43-54 | length and order are kept; a record's flag becomes set iff it was set or the record is open, not escalated and past its deadline; no other field changes |
| `Engine.EscalateIdempotent` | frontend/context/AppContext.tsx:43-54 | two ticks at the same instant equal one |
| `Engine.EscalateMonotone` | frontend/context/AppContext.tsx:51 | a tick never clears the flag and never touches status or history, so escalation is not audited |
| `Engine.EscalatePreservesWellFormed` | frontend/context/AppContext.tsx:43-54 | a tick keeps every request's history non-empty and its deadline equal to creation plus SLA |
| `Engine.TransitionPreservesWellFormed` | frontend/context/AppContext.tsx:107-141 | a transition keeps the same invariant for every request |
| `Engine.TransitionAppendsOnly` | frontend/context/AppContext.tsx:133-140 | no transition changes a fixed field; a history is kept or gains one entry in front; a changed status is the requested one |
| `Engine.AssignmentIsSticky` | frontend/context/AppContext.tsx:137 | once assignedTo holds a name, no transition changes it |
| `Engine.SeedHistoryMixedOrder` | frontend/constants.ts:50-53 | a transition on the second seed leaves a history neither oldest first nor newest first |
| `Engine.EmergencyCloseNeedsSupervisor` | frontend/context/AppContext.tsx:111-116 | a non-supervisor's close leaves every Emergency record unchanged |
| `Engine.MissingNotesChangeNothing` | frontend/context/AppContext.tsx:119-122 | Resolved or Closed with absent or empty notes leaves the whole list unchanged |
| `Engine.AcknowledgeAssigns` | frontend/context/AppContext.tsx:137 | a first acknowledgement assigns the request to the acting user |
| `Engine.EngineIgnoresLifecycleOrder` | frontend/context/AppContext.tsx:107-140 | the engine accepts Created → Closed and Closed → Created on a Normal request |
| `Engine.EngineAcceptsBlankNotes` | frontend/context/AppContext.tsx:119 | whitespace-only notes are blank, yet they resolve a request |
| `Engine.EmergencyEscalationScenario` | frontend/context/AppContext.tsx:39-58 | an Emergency created at 0 is escalated by a tick at 3601000 and is still Created |
| `Engine.SecondEmergencyRateLimited` | frontend/context/AppContext.tsx:63-70 | a second Emergency within five minutes is refused with a wait of 1 to 5 minutes |
| `Engine.AppState.constructor` | frontend/context/AppContext.tsx:19-20 | starts signed out, holding the seeds, with the store invariant |
| `Engine.AppState.Login` | frontend/context/AppContext.tsx:26-34 | the given user becomes the signed-in user |
| `Engine.AppState.Logout` | frontend/context/AppContext.tsx:36 | no user is signed in |
| `Engine.AppState.CreateRequest` | frontend/context/AppContext.tsx:60-102 | a rejection leaves the list and the user unchanged; a success prepends the request and sets `lastRequestTime = now`, whatever the priority; the store invariant is kept |
| `Engine.AppState.TransitionRequest` | frontend/context/AppContext.tsx:104-142 | with no user, reports Unauthorized and changes nothing; otherwise the list becomes the mapped list, the alerts are reported and the invariant is kept |
| `Engine.AppState.Tick` | frontend/context/AppContext.tsx:39-58 | the list becomes the escalated list and the invariant is kept |
| `AdminDashboard.SplitDuration` | frontend/pages/AdminDashboard.tsx:50-52 | minutes and seconds are below 60, and the parts add up to the duration truncated to whole seconds |
| `AdminDashboard.BodyRoundTrip` | frontend/pages/AdminDashboard.tsx:60 | an `H:MM:SS` text built from digit fields has the countdown shape and reads back as the sum of its fields |
| `AdminDashboard.SignedParse` | frontend/pages/AdminDashboard.tsx:60 | a leading `-` is read back as a negative value and its absence as a non-negative one |
| `AdminDashboard.CountdownText` | frontend/pages/AdminDashboard.tsx:60 | the text is non-empty and starts with `-` iff the remaining time is negative |
| `AdminDashboard.CountdownRoundTrip` | frontend/pages/AdminDashboard.tsx:60 | the countdown text has the form `[-]H:MM:SS` and reads back as the signed remaining time truncated to seconds |
| `AdminDashboard.GetSlaStatus` | frontend/pages/AdminDashboard.tsx:47-64 | breached iff the deadline is before the current time; the text starts with `-` iff breached, has the form `[-]H:MM:SS` and reads back as the signed remaining time truncated to seconds; severity is Critical iff breached or escalated, else Warning iff under 30 minutes remain, else Nominal |
| `AdminDashboard.Filter` | frontend/pages/AdminDashboard.tsx:21-22 | each element satisfying the test occurs as often as in the input, and no other element occurs |
| `AdminDashboard.Emergencies` | frontend/pages/AdminDashboard.tsx:21 | each Emergency request that is not Closed, as often as in the store, and nothing else |
| `AdminDashboard.WorkQueue` | frontend/pages/AdminDashboard.tsx:22 | each non-Emergency request that is not Closed, as often as in the store, and nothing else |
| `AdminDashboard.ActiveBreaches` | frontend/pages/AdminDashboard.tsx:25 | at most the size of the store, and 0 iff no request is open and past its deadline |
| `AdminDashboard.QueuesPartitionUnclosed` | frontend/pages/AdminDashboard.tsx:21-22 | the multiset union of the emergency queue and the work queue is exactly the requests that are not Closed |
| `AdminDashboard.QueuesDisjoint` | frontend/pages/AdminDashboard.tsx:21-22 | no request is in both queues |
| `AdminDashboard.ActiveBreachesBounded` | frontend/pages/AdminDashboard.tsx:25 | the breach count is at most the number of open requests |
| `AdminDashboard.BreachedRequestsEscalatedByTick` | frontend/pages/AdminDashboard.tsx:25 | a request counted as breached shows a breached countdown, and a monitor tick at that instant escalates it to Critical |
| `AdminDashboard.RoundDiv` | frontend/pages/AdminDashboard.tsx:43 | `Math.round(a / b)`: within one half of the exact quotient, with halves rounded up |
| `AdminDashboard.AvgResponseMinutes` | frontend/pages/AdminDashboard.tsx:27-32 | 0 without Resolved requests; otherwise the mean creation-to-update time in minutes, rounded to the nearest |
| `AdminDashboard.FindFirst` | frontend/pages/AdminDashboard.tsx:39 | `find` gives None iff no entry matches; otherwise the entry at the first index that matches |
| `AdminDashboard.Percentage` | frontend/pages/AdminDashboard.tsx:37-43 | 100 when nothing was acknowledged; otherwise `100 * onTime / total` rounded to the nearest, halves up; hence 100 when all was on time, 0 when none was, and always in 0..100 |
| `AdminDashboard.OnTimeAsWritten` | frontend/pages/AdminDashboard.tsx:38-41 | on time iff the first listed entry mentioning `Acknowledged`, if any, is less than 15 minutes after creation |
| `AdminDashboard.AckRateAsWritten` | frontend/pages/AdminDashboard.tsx:34-44 | the rate as written is in 0..100, and 100 when no request has left Created |
| `AdminDashboard.AcknowledgementEntries` | frontend/context/AppContext.tsx:129 | an audit action ends with `-> Acknowledged` iff its transition goes into Acknowledged |
| `AdminDashboard.EarliestAcknowledgement` | frontend/pages/AdminDashboard.tsx:39-41 | the earliest acknowledgement time whatever the order of the history; None iff there is no acknowledgement entry |
| `AdminDashboard.AckRate` | frontend/pages/AdminDashboard.tsx:34-44 | the corrected rate is in 0..100, and 100 when no request has left Created |
| `AdminDashboard.AckRateAllOnTime` | frontend/pages/AdminDashboard.tsx:38-43 | when every request that has left Created was acknowledged in time, the corrected rate is 100 |
| `AdminDashboard.LeavingAckMentionsAck` | frontend/pages/AdminDashboard.tsx:39 | every transition out of Acknowledged mentions `Acknowledged` in its action |
| `AdminDashboard.AckRateAsWrittenCountsQuickAckLate` | frontend/pages/AdminDashboard.tsx:39-41 | as written, a request acknowledged at 1 minute and started at 20 counts as late, so the rate is 0 |
| `AdminDashboard.AckRateCountsQuickAckOnTime` | frontend/pages/AdminDashboard.tsx:39-41 | corrected, the same request is on time, so the rate is 100 |
| `AdminDashboard.EngineBuildsAckScenario` | frontend/context/AppContext.tsx:76-139 | the engine builds exactly that newest-first history from a create, an acknowledge and a start |
| `AdminDashboard.NextAction` | frontend/pages/AdminDashboard.tsx:308-358 | each status offers only the next status in lifecycle order, the one after it in the list of all statuses; Closed offers none |
| `AdminDashboard.ResolveEnabled` | frontend/pages/AdminDashboard.tsx:335 | enabled iff the notes hold a character that is not whitespace |
| `AdminDashboard.CloseEnabled` | frontend/pages/AdminDashboard.tsx:354 | enabled iff the user is a supervisor or the request is neither Emergency nor escalated; when enabled, the engine's governance rule passes |
| `AdminDashboard.ButtonEnabledAsWritten` | frontend/pages/AdminDashboard.tsx:308-358 | as written, an enabled button has a next status; Acknowledge and Start are always enabled, Resolve needs non-blank notes, Close depends on the close gate alone |
| `AdminDashboard.ButtonEnabled` | frontend/pages/AdminDashboard.tsx:344-358 | corrected, an enabled button is enabled as written too, and a button requesting Resolved or Closed needs non-blank notes; with non-blank notes the two agree |
| `AdminDashboard.CloseGateStrongerThanEngine` | frontend/pages/AdminDashboard.tsx:354 | an enabled close button implies the engine's governance rule passes, and an escalated non-Emergency request is blocked by the UI alone |
| `AdminDashboard.EnabledButtonAccepted` | frontend/pages/AdminDashboard.tsx:308-358 | with the corrected close gate, every enabled button requests the next status and the engine accepts it |
| `AdminDashboard.CloseEnabledButRejected` | frontend/pages/AdminDashboard.tsx:344-358 | as written, the close button is enabled with empty notes, and the engine refuses that close with a compliance error |
| `AdminDashboard.Dashboard.constructor` | frontend/pages/AdminDashboard.tsx:10-12 | nothing is selected, the notes are empty and the clock reads the given time |
| `AdminDashboard.Dashboard.Tick` | frontend/pages/AdminDashboard.tsx:15-18 | currentTime becomes the given time |
| `AdminDashboard.Dashboard.Select` | frontend/pages/AdminDashboard.tsx:186 | the request with the given id becomes selected |
| `AdminDashboard.Dashboard.Dismiss` | frontend/pages/AdminDashboard.tsx:265 | nothing is selected |
| `AdminDashboard.Dashboard.EditNotes` | frontend/pages/AdminDashboard.tsx:331 | the notes become the typed text |
| `AdminDashboard.Dashboard.HandleTransition` | frontend/pages/AdminDashboard.tsx:67-79 | with nothing selected, nothing changes; when the engine throws, notes and selection are kept; otherwise the store transitions with the current notes, the notes are cleared and the selection closes after Resolved or Closed |
| `HelpRequestForm.SubmittedFieldsKept` | frontend/components/HelpRequestForm.tsx:33-39 | a location that passes the form's check is stored untrimmed, with the chosen category, priority and description |
| `HelpRequestForm.Form.constructor` | frontend/components/HelpRequestForm.tsx:12-16 | Medical, Normal, empty location and description, no confirmation |
| `HelpRequestForm.Form.ChooseCategory` | frontend/components/HelpRequestForm.tsx:69 | the category becomes the chosen one |
| `HelpRequestForm.Form.ChoosePriority` | frontend/components/HelpRequestForm.tsx:85 | the priority becomes the chosen one |
| `HelpRequestForm.Form.EnterLocation` | frontend/components/HelpRequestForm.tsx:114 | the location becomes the typed text |
| `HelpRequestForm.Form.EnterDescription` | frontend/components/HelpRequestForm.tsx:128 | the description becomes the typed text |
| `HelpRequestForm.Form.ProcessSubmission` | frontend/components/HelpRequestForm.tsx:33-48 | calls create once with the fields as entered; afterwards description and location are empty, priority is Normal and the confirmation is closed |
| `HelpRequestForm.Form.HandleSubmit` | frontend/components/HelpRequestForm.tsx:20-31 | a blank location changes nothing; an Emergency only opens the confirmation and creates nothing; anything else is submitted at once, the form is reset, and on success the request is prepended and the user's `lastRequestTime` becomes now |
| `HelpRequestForm.Form.Cancel` | frontend/components/HelpRequestForm.tsx:184-186 | closes the confirmation and changes nothing else |

## Left out

- `HelpRequestForm.Form.HandleSubmit`: the browser's native `required` validation on the location input and the description text area (frontend/components/HelpRequestForm.tsx:111, 126) is not modelled. The model therefore submits an empty description, which the browser would stop.
- Request ids come from `Math.random` (frontend/context/AppContext.tsx:77). They are the parameter `id`, and their uniqueness is not assumed.
- `Date.now()`, `setInterval` and `useEffect` are not modelled as timers. Time is the parameter `now`. The two clock readings inside one create or transition are taken to be the same instant. The SLA monitor and the dashboard ticker are `Tick` methods.
- `login` maps an email substring to a role (frontend/context/AppContext.tsx:26-34). This is a stand-in for an identity provider. `AppState.Login` takes the resulting `User` as given.
- `alert()` messages are not modelled as text. They are result values: `NotSignedIn`, `RateLimited` (with the minutes), `GovernanceViolation`, `ComplianceError`, `Unauthorized` and `LocationRequired`. The thrown `Error("Unauthorized")` and its `catch` in the dashboard are the value `Unauthorized`.
- `category` is required in the model. The engine's `data.category!` would store `undefined` when it is missing, but its only caller, the form, always supplies one.
- `AdminDashboard.Percentage`, `AdminDashboard.RoundDiv`, `AdminDashboard.AvgResponseMinutes`, `AdminDashboard.AckRateAsWritten`, `AdminDashboard.AckRate`: `Math.round` is applied to exact rational quotients. Floating-point rounding error is not modelled. The code computes `(onTime / acknowledged) * 100` in doubles, and that can land just below a half: with 23 of 40 on time, `23 / 40` as a double is slightly below 0.575, so the code shows 57 where the model gives 58 (likewise 29 of 200 gives 14 against 15).
- `Engine.Alerts`: the contract fixes how many alerts there are, and that each is the violation of a record the callback rejects. It does not fix which record raised which alert. This matters only when several records share the id, which the random ids allow; with one matching record the single alert is its violation.
- `Strings.IsWhitespace`: this is the ECMAScript WhiteSpace and LineTerminator set, with the Unicode space separators listed by code point. A future Unicode revision could add more.
- Presentation is not modelled: JSX, CSS classes and severity styles (only the three-level classification is kept), icons, `toLocaleTimeString`, and the "Request Registered" alert after a non-Emergency submission.
- The dashboard's `requests.find` for the selected request, and the rendering of the audit log, are display only.
- Travel intents (`addTravelIntent`, the student dashboard) are plain prepend-to-list CRUD with no rules.
- Not modelled as navigation glue: `Layout`, `Login`, `RaiseHelpPage`, `App` routing, React context plumbing and `backend/server.js`, whose mock endpoints echo the request body.
- React batches state updates. The model treats each operation as one atomic replacement of `user` and `requests`.

## Findings

| source | as written | input that shows it | evidently intended | confidence | as-written member | corrected member |
|---|---|---|---|---|---|---|
| frontend/pages/AdminDashboard.tsx:39-41 | the ack time is the first history entry whose action includes `Acknowledged`; engine histories are newest first, so after a start of response this entry is `TRANSITION: Acknowledged -> In Progress` | a request created at 0, acknowledged at 60000 and started at 1200000 counts as late, so the rate is 0 | the ack time is that of the entry for the transition into Acknowledged (the earliest such entry), so the request is on time and the rate is 100 | high, not executed | `AdminDashboard.AckRateAsWrittenCountsQuickAckLate` | `AdminDashboard.AckRateCountsQuickAckOnTime` |
| frontend/pages/AdminDashboard.tsx:344-358 | the Close button shows no notes box and checks no notes, but `handleTransition` has already cleared `notes` after Resolve (line 71); the engine requires notes for Closed (frontend/context/AppContext.tsx:119) | a Resolved Normal request that is not escalated: Close is enabled with notes `''`, and the engine answers ComplianceError | the Close button requires non-blank notes, like Resolve, so an enabled button is never refused; this also needs a notes box in the Resolved state, since the text area is shown only for In Progress (frontend/pages/AdminDashboard.tsx:324-332) | high, not executed | `AdminDashboard.CloseEnabledButRejected` | `AdminDashboard.EnabledButtonAccepted` |
