/**
 * Reference definitions of the session lifecycle: create, update, delete
 * and force-end a session, and the list of sessions open right now in a
 * user's courses. Every mutating operation looks the record up first
 * (NotFound), then asks the oracle for manage permission (Forbidden), and
 * only then touches exactly one session.
 */
module Lifecycle {
  import opened Records

  /** An update argument counts as supplied when it is present and non-empty (Python truthiness). */
  predicate Supplied(arg: Option<string>) {
    arg.Some? && arg.value != ""
  }

  /** The window is the closed interval [start, end]. */
  predicate IsActive(s: Session, now: Time) {
    s.start <= now <= s.end
  }

  /** True when a failed lookup or permission check left the store as it was. */
  predicate Rejected(db: Db, r: (Db, Outcome), e: Error) {
    r == (db, Fail(e))
  }

  function AddSession(db: Db, perms: Permissions, user: UserId, lectureId: LectureId,
                      name: string, description: string, start: Option<Time>, end: Option<Time>,
                      defaultStart: Time, defaultEnd: Time): (r: (Db, Outcome))
    ensures lectureId !in db.lectures <==> Rejected(db, r, NotFound)
    ensures lectureId in db.lectures && !perms.mayManage(user, db.lectures[lectureId])
            <==> Rejected(db, r, Forbidden)
    ensures r.1.Ok? <==> lectureId in db.lectures && perms.mayManage(user, db.lectures[lectureId])
    ensures r.1.Fail? ==> r.0 == db
    ensures r.1.Ok? ==> db.nextSessionId in r.0.sessions
    ensures r.1.Ok? ==>
      var id := db.nextSessionId;
      var s := r.0.sessions[id];
      && r.1 == Ok(Created(id))
      && (Valid(db) ==> id !in db.sessions)
      && r.0.sessions == db.sessions[id := s]
      && s.id == id && s.lectureId == lectureId && s.courseId == db.lectures[lectureId]
      && s.teacherId == user && s.name == name && s.description == description
      && s.start == (if start.Some? then start.value else defaultStart)
      && s.end == (if end.Some? then end.value else defaultEnd)
      && r.0.checkins == db.checkins && r.0.lectures == db.lectures
      && r.0.nextCheckinId == db.nextCheckinId && r.0.nextSessionId == id + 1
    ensures Valid(db) ==> Valid(r.0)
  {
    if lectureId !in db.lectures then (db, Fail(NotFound))
    else
      var course := db.lectures[lectureId];
      if !perms.mayManage(user, course) then (db, Fail(Forbidden))
      else
        var id := db.nextSessionId;
        var s := Session(id, name, description, course, lectureId, user,
                         start.GetOr(defaultStart), end.GetOr(defaultEnd));
        (db.(sessions := db.sessions[id := s], nextSessionId := id + 1), Ok(Created(id)))
  }

  /** The session as `update_session` leaves it. */
  function Edited(s: Session, user: UserId, name: Option<string>, description: Option<string>,
                  start: Option<Time>, end: Option<Time>): (e: Session)
    ensures e.teacherId == user
    ensures e.id == s.id && e.courseId == s.courseId && e.lectureId == s.lectureId
    ensures e.name == (if Supplied(name) then name.value else s.name)
    ensures e.description == (if Supplied(description) then description.value else s.description)
    ensures e.start == (if start.Some? then start.value else s.start)
    ensures e.end == (if end.Some? then end.value else s.end)
  {
    s.(teacherId := user,
       name := if Supplied(name) then name.value else s.name,
       description := if Supplied(description) then description.value else s.description,
       start := start.GetOr(s.start),
       end := end.GetOr(s.end))
  }

  function UpdateSession(db: Db, perms: Permissions, user: UserId, sid: SessionId,
                         name: Option<string>, description: Option<string>,
                         start: Option<Time>, end: Option<Time>): (r: (Db, Outcome))
    ensures sid !in db.sessions <==> Rejected(db, r, NotFound)
    ensures sid in db.sessions && !perms.mayManage(user, db.sessions[sid].courseId)
            <==> Rejected(db, r, Forbidden)
    ensures r.1.Ok? <==> sid in db.sessions && perms.mayManage(user, db.sessions[sid].courseId)
    ensures r.1.Fail? ==> r.0 == db
    ensures r.1.Ok? ==>
      && r.1 == Ok(Updated(sid))
      && r.0 == db.(sessions := db.sessions[sid := Edited(db.sessions[sid], user, name, description, start, end)])
    ensures Valid(db) ==> Valid(r.0)
  {
    if sid !in db.sessions then (db, Fail(NotFound))
    else
      var s := db.sessions[sid];
      if !perms.mayManage(user, s.courseId) then (db, Fail(Forbidden))
      else (db.(sessions := db.sessions[sid := Edited(s, user, name, description, start, end)]), Ok(Updated(sid)))
  }

  function DeleteSession(db: Db, perms: Permissions, user: UserId, sid: SessionId): (r: (Db, Outcome))
    ensures sid !in db.sessions <==> Rejected(db, r, NotFound)
    ensures sid in db.sessions && !perms.mayManage(user, db.sessions[sid].courseId)
            <==> Rejected(db, r, Forbidden)
    ensures r.1.Ok? <==> sid in db.sessions && perms.mayManage(user, db.sessions[sid].courseId)
    ensures r.1.Fail? ==> r.0 == db
    ensures r.1.Ok? ==>
      && r.1 == Ok(Deleted(sid))
      && r.0.sessions.Keys == db.sessions.Keys - {sid}
      && (forall k :: k in r.0.sessions ==> r.0.sessions[k] == db.sessions[k])
      && r.0.checkins == db.checkins
      && r.0 == db.(sessions := r.0.sessions)
    ensures Valid(db) ==> Valid(r.0)
  {
    if sid !in db.sessions then (db, Fail(NotFound))
    else if !perms.mayManage(user, db.sessions[sid].courseId) then (db, Fail(Forbidden))
    else (db.(sessions := db.sessions - {sid}), Ok(Deleted(sid)))
  }

  /** The session after a force-end at `now`: a session whose end already passed is left alone. */
  function EndAt(s: Session, now: Time): (e: Session)
    ensures e.end == (if s.end < now then s.end else now)
    ensures e.end <= now
    ensures e == s.(end := e.end)
  {
    if s.end < now then s else s.(end := now)
  }

  function EndSession(db: Db, perms: Permissions, user: UserId, sid: SessionId, now: Time): (r: (Db, Outcome))
    ensures sid !in db.sessions <==> Rejected(db, r, NotFound)
    ensures sid in db.sessions && !perms.mayManage(user, db.sessions[sid].courseId)
            <==> Rejected(db, r, Forbidden)
    ensures r.1.Ok? <==> sid in db.sessions && perms.mayManage(user, db.sessions[sid].courseId)
    ensures r.1.Fail? ==> r.0 == db
    ensures r.1.Ok? ==>
      && r.0 == db.(sessions := db.sessions[sid := EndAt(db.sessions[sid], now)])
      && (r.1 == Ok(AlreadyEnded) <==> db.sessions[sid].end < now)
      && (r.1 == Ok(AlreadyEnded) ==> r.0 == db)
      && (r.1 != Ok(AlreadyEnded) ==> r.1 == Ok(EndedNow(sid)) && r.0.sessions[sid].end == now)
    ensures Valid(db) ==> Valid(r.0)
  {
    if sid !in db.sessions then (db, Fail(NotFound))
    else
      var s := db.sessions[sid];
      if !perms.mayManage(user, s.courseId) then (db, Fail(Forbidden))
      else if s.end < now then (db, Ok(AlreadyEnded))
      else (db.(sessions := db.sessions[sid := s.(end := now)]), Ok(EndedNow(sid)))
  }

  /**
   * Ending a session is idempotent: a second call at the same or a later
   * clock never changes the store again, and once the clock has moved on it
   * reports that the session already ended.
   */
  lemma EndSessionIdempotent(db: Db, perms: Permissions, user: UserId, sid: SessionId, now: Time, later: Time)
    requires now <= later
    ensures var first := EndSession(db, perms, user, sid, now);
            var second := EndSession(first.0, perms, user, sid, later);
            && second.0 == first.0
            && (first.1.Ok? && now < later ==> second.1 == Ok(AlreadyEnded))
  {
  }

  /**
   * The query `Session where course_id = course and start <= now and end >= now`
   * over the session ids below `bound`, in ascending id order.
   */
  function ActiveInCourse(sessions: map<SessionId, Session>, course: CourseId, now: Time, bound: nat): (r: seq<Session>)
    ensures forall s :: s in r ==> s.id < bound && s.courseId == course && IsActive(s, now)
  {
    if bound == 0 then []
    else
      var id := bound - 1;
      ActiveInCourse(sessions, course, now, id)
        + (if id in sessions && sessions[id].id == id && sessions[id].courseId == course && IsActive(sessions[id], now)
           then [sessions[id]] else [])
  }

  /** `get_active_sessions`: the per-course queries concatenated over the user's enrollments. */
  function ActiveSessions(db: Db, enrollments: seq<CourseId>, now: Time): (r: seq<Session>)
    ensures forall s :: s in r ==> s.courseId in enrollments && IsActive(s, now)
  {
    if enrollments == [] then []
    else
      var last := |enrollments| - 1;
      ActiveSessions(db, enrollments[..last], now)
        + ActiveInCourse(db.sessions, enrollments[last], now, db.nextSessionId)
  }

  lemma {:induction false} ActiveInCourseExactly(sessions: map<SessionId, Session>, course: CourseId,
                                                  now: Time, bound: nat, s: Session)
    requires forall k :: k in sessions ==> sessions[k].id == k
    ensures s in ActiveInCourse(sessions, course, now, bound)
            <==> s.id < bound && s.id in sessions && sessions[s.id] == s && s.courseId == course && IsActive(s, now)
  {
    if bound > 0 {
      ActiveInCourseExactly(sessions, course, now, bound - 1, s);
    }
  }

  /**
   * `get_active_sessions` returns exactly the stored sessions of the user's
   * courses whose closed window [start, end] contains `now`.
   */
  lemma {:induction false} ActiveSessionsExactly(db: Db, enrollments: seq<CourseId>, now: Time, s: Session)
    requires Valid(db)
    ensures s in ActiveSessions(db, enrollments, now)
            <==> s.id in db.sessions && db.sessions[s.id] == s && s.courseId in enrollments && IsActive(s, now)
  {
    if enrollments != [] {
      var last := |enrollments| - 1;
      ActiveSessionsExactly(db, enrollments[..last], now, s);
      ActiveInCourseExactly(db.sessions, enrollments[last], now, db.nextSessionId, s);
      assert enrollments == enrollments[..last] + [enrollments[last]];
    }
  }
}
