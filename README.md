# Attendance sessions: a verified model of the session service

This project models the attendance-session service of a classroom attendance
backend (`backend/services/session.py`). Instructors open a time-bounded
*session* for a lecture. Students *check in* while the session is open.
Instructors can list, add or re-date attendee check-ins. Users read back their
own check-in history.

The service runs against two stores:

- the **session store**: a map from session id to `Session(id, name,
  description, courseId, lectureId, teacherId, start, end)`;
- the **checkin store**: a sequence of `Checkin(id, userId, sessionId,
  courseId, lectureId, createdAt)` in insertion order.

It also reads the lecture table, a map from lecture to course.

Modules:

- `Records` (records.dfy): the records, the stores as a value `Db`, the
  permission oracle `Permissions(mayManage, mayAccess)`, and typed outcomes.
  `Outcome` replaces the `(ok, message)` pairs of the mutators and `Result`
  those of the readers. It also holds the store invariant `Valid` (every key
  is its record's id and lies below the auto-increment counter), the
  uniqueness invariant `UniquePairs`, and `FirstCheckin`, the
  "first checkin of (user, session)" lookup.
- `Lifecycle` (lifecycle.dfy): reference definitions of `add_session`,
  `update_session`, `delete_session`, `end_session` and `get_active_sessions`.
- `CheckinEngine` (checkin_engine.dfy): reference definitions of `checkin`,
  `update_attendee` and the `get_attendees` query.
- `History` (history.dfy): reference definitions of the two history queries
  and of their report loop.
- `SessionService` (service.dfy): class `Database`. Its fields are the
  stores. The service's ten operations are nine methods, written
  imperatively as the source writes them, and the read-only function
  `GetAttendees`; a helper method `CollectViews` holds the loop the two
  history operations share. The class invariant `Valid` includes
  `UniquePairs`, so every method keeps at most one checkin per
  (user, session) pair. Each mutator updates one record
  field by field, and its `ensures` equates the new stores and the outcome
  with the reference definition applied to the old stores. The three readers
  run the source's accumulator loops, and their `ensures` say exactly which
  records the result holds.

Every mutating operation checks in the same order:

1. It looks up the lecture or session; a missing one gives `NotFound`.
2. It asks the oracle; a refusal gives `Forbidden`.
3. Only then does it change exactly one record.

A rejected call leaves both stores unchanged.

The clock is an explicit integer parameter `now`.

## Model

| member | source | states |
|---|---|---|
| `Records.FirstCheckin` | backend/services/session.py:92-93 | The lookup finds the first checkin of (user, session) in store order. It returns nothing exactly when no checkin of that pair exists. |
| `Records.FirstCheckinIgnoresTime` | backend/services/session.py:123-126 | Re-dating a checkin does not change which checkin the (user, session) lookup finds. |
| `Records.FirstCheckinAppended` | backend/services/session.py:130-132 | Appending a checkin of a pair that had none makes the lookup find the appended row. |
| `Lifecycle.AddSession` | backend/services/session.py:7-23 | A missing lecture gives NotFound, and that check comes first. A refused manage permission gives Forbidden. In both cases the store is unchanged. Otherwise the call always succeeds, and a fresh id is added and holds the new session. Its course is the lecture's course and its teacher is the acting user. Its start and end are the supplied values, or the column defaults when none is supplied. Checkins are untouched and store validity is kept. |
| `Lifecycle.Edited` | backend/services/session.py:32-40 | The edited session's teacher is the editor. Name and description change only when supplied and non-empty; start and end change only when supplied. Id, course and lecture never change. |
| `Lifecycle.UpdateSession` | backend/services/session.py:26-42 | NotFound comes before Forbidden, and in both cases nothing changes. Otherwise the call always succeeds, and only that session is replaced by its edited form. Every other session, the checkins and the counters are unchanged. |
| `Lifecycle.DeleteSession` | backend/services/session.py:45-54 | NotFound comes before Forbidden, and in both cases nothing changes. Otherwise the call always succeeds, and exactly that key leaves the session store, and the other sessions keep their records. The checkin store is untouched, so there is no cascade. |
| `Lifecycle.EndAt` | backend/services/session.py:63-65 | A force-end leaves the end alone when it has already passed, and otherwise sets it to now. Either way the new end is at most now and no other field changes. |
| `Lifecycle.EndSession` | backend/services/session.py:57-67 | NotFound comes before Forbidden, and in both cases nothing changes. Otherwise the call always succeeds: the result is "already ended" exactly when end < now, and then nothing changes. Otherwise the result is "ended" and the session's end becomes now. |
| `Lifecycle.EndSessionIdempotent` | backend/services/session.py:63-67 | A second end at the same or a later clock never changes the store again. Once the clock has advanced, the second call reports "already ended". |
| `Lifecycle.ActiveInCourse` | backend/services/session.py:74-75 | Every session the per-course query returns belongs to that course and has start <= now <= end. |
| `Lifecycle.ActiveInCourseExactly` | backend/services/session.py:74-75 | The per-course query returns a session exactly when it is stored, belongs to that course and its closed window contains now. |
| `Lifecycle.ActiveSessions` | backend/services/session.py:72-76 | The per-course results concatenated over the user's enrollments. Every session in it belongs to an enrolled course and has start <= now <= end. |
| `Lifecycle.ActiveSessionsExactly` | backend/services/session.py:70-76 | The active-session list holds exactly the stored sessions of the user's enrolled courses whose closed interval [start, end] contains now. |
| `CheckinEngine.SelfCheckin` | backend/services/session.py:79-101 | Each outcome comes with its exact condition, in a fixed order. NotFound: the session is missing. Forbidden: access is refused. SessionEnded: end < now. NotStarted: end >= now but start > now. AlreadyCheckedIn: the window holds now but the pair already has a checkin. Any failure leaves the store unchanged. Success appends exactly one checkin, stamped now, with the session's course and lecture. |
| `CheckinEngine.SecondCheckinRejected` | backend/services/session.py:92-101 | A successful self check-in repeated with the same arguments fails with AlreadyCheckedIn. |
| `CheckinEngine.SelfCheckinKeepsPairsUnique` | backend/services/session.py:92-99 | A self check-in keeps the store free of a second checkin for any (user, session) pair. |
| `CheckinEngine.UpdateAttendee` | backend/services/session.py:115-134 | NotFound comes before Forbidden, and in both cases nothing changes. Otherwise the call succeeds whatever the time window. If the attendee already has a checkin for the session, only that checkin's createdAt changes, to checkinTime or else now. Otherwise exactly one checkin with that time is appended. Afterwards the pair has a checkin. |
| `CheckinEngine.UpdateAttendeeKeepsPairsUnique` | backend/services/session.py:123-134 | The instructor override never creates a duplicate (user, session) pair. |
| `CheckinEngine.UpdateAttendeeIdempotent` | backend/services/session.py:121-128 | Called twice with the same fixed checkin time, the override changes nothing the second time. |
| `CheckinEngine.Attendees` | backend/services/session.py:111 | The attendee query holds every checkin of the session, each as often as in the store, and nothing else. |
| `History.Owned` | backend/services/session.py:154-155 | The history query returns exactly the store's checkins of that user, of that course when one is given, each as often as in the store. |
| `History.View` | backend/services/session.py:144-147 | A report row carries the checkin's own id, user, session, course, lecture and timestamp, the names of its course and lecture, and the name of its still-existing session. |
| `History.Live` | backend/services/session.py:141-143 | The checkins the report loop does not skip are exactly those whose session is still stored, each as often as in its input. |
| `History.Report` | backend/services/session.py:140-148 | The report has no more rows than checkins. No row refers to a session that is not in the store. |
| `History.ReportOneRowPerLiveCheckin` | backend/services/session.py:140-148 | The report has exactly one row per checkin whose session still exists, in the same order: row k is the view of the k-th surviving checkin. |
| `History.ReportExactly` | backend/services/session.py:140-148 | A row is in the report exactly when it is the view of a listed checkin whose session still exists. |
| `History.HistoryExactly` | backend/services/session.py:137-149 | The user's history (per course when given) holds exactly the views of that user's checkins in that course whose session still exists. Each row carries the user's id, the course when one is given, and a session that is still stored. |
| `History.DeletedSessionLeavesHistory` | backend/services/session.py:52-53 | After a session is deleted its checkins stay in the store, yet no history row refers to it. |
| `SessionService.Database.AddSession` | backend/services/session.py:7-23 | It assigns the new session's fields one by one, start and end only when supplied. It keeps the store invariant, and its stores and outcome equal `Lifecycle.AddSession`. |
| `SessionService.Database.UpdateSession` | backend/services/session.py:26-42 | It reassigns the teacher and then each supplied field in place. It keeps the store invariant, and its stores and outcome equal `Lifecycle.UpdateSession`. |
| `SessionService.Database.DeleteSession` | backend/services/session.py:45-54 | It removes the session from the store. It keeps the store invariant, and its stores and outcome equal `Lifecycle.DeleteSession`. |
| `SessionService.Database.EndSession` | backend/services/session.py:57-67 | It sets end to now unless the end has passed. It keeps the store invariant, and its stores and outcome equal `Lifecycle.EndSession`. |
| `SessionService.Database.GetActiveSessions` | backend/services/session.py:70-76 | The loop over the user's courses returns exactly the stored sessions of those courses with start <= now <= end, in query order. |
| `SessionService.Database.SelfCheckin` | backend/services/session.py:79-101 | It runs the guards in order and appends the checkin. Its stores and outcome equal `CheckinEngine.SelfCheckin`, and it keeps the invariant, which includes unique (user, session) pairs. |
| `SessionService.Database.GetAttendees` | backend/services/session.py:104-112 | NotFound exactly when the session is missing. Forbidden exactly when manage permission is refused. Success exactly when neither applies, and then the result holds every checkin of the session, with its multiplicity, and no other. |
| `SessionService.Database.UpdateAttendee` | backend/services/session.py:115-134 | It re-dates the found checkin in place or appends one. Its stores and outcome equal `CheckinEngine.UpdateAttendee`, and it keeps the invariant, which includes unique (user, session) pairs. |
| `SessionService.Database.CollectViews` | backend/services/session.py:140-148 | The skip-and-append loop yields the report of the rows it is given. |
| `SessionService.Database.GetCheckinHistory` | backend/services/session.py:137-149 | It returns, in store order, exactly the views of the user's checkins whose session still exists. |
| `SessionService.Database.GetCourseCheckinHistory` | backend/services/session.py:152-165 | It returns, in store order, exactly the views of the user's checkins in that course whose session still exists. |

## Left out

- HTTP wiring (`backend/app.py`: app construction, CORS, router registration) has no logic to verify. It is not part of this model.
- The database layer is replaced by value stores: SQLAlchemy queries, `add`, `delete` and `commit`. No transaction fails. Queries without `ORDER BY` are taken to return checkins in insertion order and sessions in ascending id order.
- `check_permission`, `check_access_course` and the `CourseUsers` table live in `services.auth` and the models. They are not part of this model. The two checks are the oracle predicates `mayManage` and `mayAccess`. The user's course memberships are the `enrollments` argument of `GetActiveSessions`.
- The clock: each call takes a single integer `now`. The source reads `datetime.now()` afresh at each comparison, and compares float `.timestamp()` values. Sub-second ordering between those reads is not modelled.
- Column defaults and id generation come from the `models` module, which is not part of this model. Session `start`/`end` defaults are the `defaultStart`/`defaultEnd` arguments. A self check-in's `created_at` is `now`. Ids come from auto-increment counters.
- Name enrichment through ORM relationships (`checkin.course.name`, `checkin.lecture.name`) is modelled as total lookups in `History.Names`. A missing course or lecture row is not modelled.
- The read-then-insert race in `checkin` and `update_attendee` under concurrent requests is out of scope. Uniqueness of (user, session) is proved for sequential calls only.
- Human-readable messages are replaced by the `Outcome`, `Success` and `Error` datatypes. The session id of "Created/Updated/Deleted/Ended session {id}" is kept.
- Python truthiness: `start`/`end` are datetimes, which are always truthy, so they apply exactly when supplied. `name`/`description` in an update apply when supplied and non-empty. Other falsy values a caller might pass are not modelled.
- A second `end_session` at the very same instant is not reported as "already ended". The source tests `end < now`, and after the first call the end equals `now`, so it reports "ended" again while changing nothing. The model follows the code: the store is unchanged on any repeat, and "already ended" is promised only once the clock has advanced.
- `end_session` on a session that has not started yet, and `update_session` with an end before the start, both produce end < start. The source does not validate the window, and neither does the model.
