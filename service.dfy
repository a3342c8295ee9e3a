/**
 * The attendance-session service over its stores. `Database` holds the
 * lecture table (read only), the session store and the checkin store, and
 * its members are the service's ten operations (nine methods and the
 * read-only `GetAttendees` function, with `CollectViews` as the loop the two
 * history methods share), each updating the stored records field by field as
 * the service does and proved to agree with the reference definitions in
 * Lifecycle, CheckinEngine and History.
 */
module SessionService {
  import opened Records
  import Lifecycle
  import CheckinEngine
  import History

  class Database {
    const lectures: map<LectureId, CourseId>
    var sessions: map<SessionId, Session>
    var checkins: seq<Checkin>
    var nextSessionId: SessionId
    var nextCheckinId: CheckinId

    /** The stores as a value. */
    function Model(): Db
      reads this
    {
      Db(lectures, sessions, checkins, nextSessionId, nextCheckinId)
    }

    /** The store invariant, and at most one checkin per (user, session) pair. */
    predicate Valid()
      reads this
    {
      Records.Valid(Model()) && UniquePairs(checkins)
    }

    constructor (lectures: map<LectureId, CourseId>)
      ensures Valid()
      ensures Model() == Db(lectures, map[], [], 0, 0)
    {
      this.lectures := lectures;
      sessions := map[];
      checkins := [];
      nextSessionId := 0;
      nextCheckinId := 0;
    }

    /** `add_session`: start and end keep their column defaults unless supplied. */
    method AddSession(perms: Permissions, user: UserId, lectureId: LectureId, name: string, description: string,
                      start: Option<Time>, end: Option<Time>, defaultStart: Time, defaultEnd: Time)
      returns (r: Outcome)
      requires Valid()
      modifies this
      ensures Valid()
      ensures (Model(), r) == Lifecycle.AddSession(old(Model()), perms, user, lectureId, name, description,
                                                   start, end, defaultStart, defaultEnd)
    {
      if lectureId !in lectures {
        return Fail(NotFound);
      }
      var course := lectures[lectureId];
      if !perms.mayManage(user, course) {
        return Fail(Forbidden);
      }
      var s := Session(nextSessionId, name, description, course, lectureId, user, defaultStart, defaultEnd);
      if start.Some? {
        s := s.(start := start.value);
      }
      if end.Some? {
        s := s.(end := end.value);
      }
      sessions := sessions[s.id := s];
      nextSessionId := nextSessionId + 1;
      r := Ok(Created(s.id));
    }

    /** `update_session`: the editor becomes the teacher; only supplied fields are overwritten. */
    method UpdateSession(perms: Permissions, user: UserId, sid: SessionId, name: Option<string>,
                         description: Option<string>, start: Option<Time>, end: Option<Time>)
      returns (r: Outcome)
      requires Valid()
      modifies this
      ensures Valid()
      ensures (Model(), r) == Lifecycle.UpdateSession(old(Model()), perms, user, sid, name, description, start, end)
    {
      if sid !in sessions {
        return Fail(NotFound);
      }
      var s := sessions[sid];
      if !perms.mayManage(user, s.courseId) {
        return Fail(Forbidden);
      }
      s := s.(teacherId := user);
      if Lifecycle.Supplied(name) {
        s := s.(name := name.value);
      }
      if Lifecycle.Supplied(description) {
        s := s.(description := description.value);
      }
      if start.Some? {
        s := s.(start := start.value);
      }
      if end.Some? {
        s := s.(end := end.value);
      }
      sessions := sessions[sid := s];
      r := Ok(Updated(sid));
    }

    /** `delete_session`: removes the session and nothing else. */
    method DeleteSession(perms: Permissions, user: UserId, sid: SessionId) returns (r: Outcome)
      requires Valid()
      modifies this
      ensures Valid()
      ensures (Model(), r) == Lifecycle.DeleteSession(old(Model()), perms, user, sid)
    {
      if sid !in sessions {
        return Fail(NotFound);
      }
      if !perms.mayManage(user, sessions[sid].courseId) {
        return Fail(Forbidden);
      }
      sessions := sessions - {sid};
      r := Ok(Deleted(sid));
    }

    /** `end_session`: moves the end to `now` unless it has already passed. */
    method EndSession(perms: Permissions, user: UserId, sid: SessionId, now: Time) returns (r: Outcome)
      requires Valid()
      modifies this
      ensures Valid()
      ensures (Model(), r) == Lifecycle.EndSession(old(Model()), perms, user, sid, now)
    {
      if sid !in sessions {
        return Fail(NotFound);
      }
      var s := sessions[sid];
      if !perms.mayManage(user, s.courseId) {
        return Fail(Forbidden);
      }
      if s.end < now {
        return Ok(AlreadyEnded);
      }
      sessions := sessions[sid := s.(end := now)];
      r := Ok(EndedNow(sid));
    }

    /** `get_active_sessions`: accumulates, course by course, the sessions open at `now`. */
    method GetActiveSessions(enrollments: seq<CourseId>, now: Time) returns (active: seq<Session>)
      requires Valid()
      ensures active == Lifecycle.ActiveSessions(Model(), enrollments, now)
      ensures forall s :: s in active <==>
        s.id in sessions && sessions[s.id] == s && s.courseId in enrollments && Lifecycle.IsActive(s, now)
    {
      active := [];
      for i := 0 to |enrollments|
        invariant active == Lifecycle.ActiveSessions(Model(), enrollments[..i], now)
      {
        assert enrollments[..i + 1][..i] == enrollments[..i];
        active := active + Lifecycle.ActiveInCourse(sessions, enrollments[i], now, nextSessionId);
      }
      assert enrollments[..|enrollments|] == enrollments;
      forall s {
        Lifecycle.ActiveSessionsExactly(Model(), enrollments, now, s);
      }
    }

    /** `checkin`: a user's own check-in during the session's window. */
    method SelfCheckin(perms: Permissions, user: UserId, sid: SessionId, now: Time) returns (r: Outcome)
      requires Valid()
      modifies this
      ensures Valid()
      ensures (Model(), r) == CheckinEngine.SelfCheckin(old(Model()), perms, user, sid, now)
    {
      if sid !in sessions {
        return Fail(NotFound);
      }
      var s := sessions[sid];
      if !perms.mayAccess(user, s.courseId) {
        return Fail(Forbidden);
      }
      if s.end < now {
        return Fail(SessionEnded);
      }
      if s.start > now {
        return Fail(NotStarted);
      }
      var existing := FirstCheckin(checkins, user, sid);
      if existing.Some? {
        return Fail(AlreadyCheckedIn);
      }
      CheckinEngine.SelfCheckinKeepsPairsUnique(Model(), perms, user, sid, now);
      checkins := checkins + [Checkin(nextCheckinId, user, sid, s.courseId, s.lectureId, now)];
      nextCheckinId := nextCheckinId + 1;
      r := Ok(CheckedIn);
    }

    /** `get_attendees`: every checkin of the session, for a user who may manage its course. */
    function GetAttendees(perms: Permissions, user: UserId, sid: SessionId): (r: Result<seq<Checkin>>)
      reads this
      ensures r == Failure(NotFound) <==> sid !in sessions
      ensures r == Failure(Forbidden) <==> sid in sessions && !perms.mayManage(user, sessions[sid].courseId)
      ensures r.Success? <==> sid in sessions && perms.mayManage(user, sessions[sid].courseId)
      ensures r.Success? ==>
        forall c :: multiset(r.value)[c] == if c.sessionId == sid then multiset(checkins)[c] else 0
    {
      if sid !in sessions then Failure(NotFound)
      else if !perms.mayManage(user, sessions[sid].courseId) then Failure(Forbidden)
      else Success(CheckinEngine.Attendees(checkins, sid))
    }

    /** `update_attendee`: re-dates the attendee's checkin, or adds one, regardless of the window. */
    method UpdateAttendee(perms: Permissions, user: UserId, sid: SessionId, attendee: UserId,
                          checkinTime: Option<Time>, now: Time) returns (r: Outcome)
      requires Valid()
      modifies this
      ensures Valid()
      ensures (Model(), r) == CheckinEngine.UpdateAttendee(old(Model()), perms, user, sid, attendee, checkinTime, now)
    {
      if sid !in sessions {
        return Fail(NotFound);
      }
      var s := sessions[sid];
      if !perms.mayManage(user, s.courseId) {
        return Fail(Forbidden);
      }
      var t := now;
      if checkinTime.Some? {
        t := checkinTime.value;
      }
      CheckinEngine.UpdateAttendeeKeepsPairsUnique(Model(), perms, user, sid, attendee, checkinTime, now);
      var existing := FirstCheckin(checkins, attendee, sid);
      if existing.Some? {
        var i := existing.value;
        checkins := checkins[i := checkins[i].(createdAt := t)];
        return Ok(AttendeeUpdated);
      }
      checkins := checkins + [Checkin(nextCheckinId, attendee, sid, s.courseId, s.lectureId, t)];
      nextCheckinId := nextCheckinId + 1;
      r := Ok(AttendeeAdded);
    }

    /** The loop shared by both history operations, over the rows the query returned. */
    method CollectViews(owned: seq<Checkin>, names: History.Names) returns (views: seq<History.CheckinView>)
      ensures views == History.Report(owned, sessions, names)
    {
      views := [];
      for i := 0 to |owned|
        invariant views == History.Report(owned[..i], sessions, names)
      {
        assert owned[..i + 1][..i] == owned[..i];
        var c := owned[i];
        if c.sessionId !in sessions {
          continue;
        }
        views := views + [History.View(c, sessions[c.sessionId], names)];
      }
      assert owned[..|owned|] == owned;
    }

    /** `get_checkin_history`: the user's checkins whose session still exists, in store order. */
    method GetCheckinHistory(user: UserId, names: History.Names) returns (history: seq<History.CheckinView>)
      ensures history == History.Report(History.Owned(checkins, user, None), sessions, names)
      ensures forall v :: v in history <==>
        exists c :: c in checkins && History.Selects(c, user, None) && c.sessionId in sessions
                    && v == History.View(c, sessions[c.sessionId], names)
    {
      history := CollectViews(History.Owned(checkins, user, None), names);
      var db := Model();
      forall v {
        History.HistoryExactly(db, user, None, names, v);
      }
    }

    /** `get_course_checkin_history`: the same, restricted to the checkins of one course. */
    method GetCourseCheckinHistory(user: UserId, course: CourseId, names: History.Names)
      returns (history: seq<History.CheckinView>)
      ensures history == History.Report(History.Owned(checkins, user, Some(course)), sessions, names)
      ensures forall v :: v in history <==>
        exists c :: c in checkins && History.Selects(c, user, Some(course)) && c.sessionId in sessions
                    && v == History.View(c, sessions[c.sessionId], names)
    {
      history := CollectViews(History.Owned(checkins, user, Some(course)), names);
      var db := Model();
      forall v {
        History.HistoryExactly(db, user, Some(course), names, v);
      }
    }
  }
}
