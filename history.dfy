/**
 * Reference definitions of the history reporter: a user's checkins,
 * optionally restricted to one course, enriched with course, session and
 * lecture names, in store order, silently skipping checkins whose session
 * has since been deleted.
 */
module History {
  import opened Records
  import Lifecycle

  /** Name lookups for the enrichment (the ORM relationships `checkin.course` and `checkin.lecture`). */
  datatype Names = Names(courseName: CourseId -> string, lectureName: LectureId -> string)

  /** One row of the history report. */
  datatype CheckinView = CheckinView(
    id: CheckinId,
    userId: UserId,
    sessionId: SessionId,
    courseId: CourseId,
    lectureId: LectureId,
    createdAt: Time,
    courseName: string,
    sessionName: string,
    lectureName: string)

  /**
   * The report row for checkin `c` of the still-existing session `s`: the
   * checkin's own fields, the names of its course and lecture, and the
   * session's name.
   */
  function View(c: Checkin, s: Session, names: Names): (v: CheckinView)
    ensures v.id == c.id && v.userId == c.userId && v.sessionId == c.sessionId
    ensures v.courseId == c.courseId && v.lectureId == c.lectureId && v.createdAt == c.createdAt
    ensures v.courseName == names.courseName(c.courseId) && v.lectureName == names.lectureName(c.lectureId)
    ensures v.sessionName == s.name
  {
    CheckinView(c.id, c.userId, c.sessionId, c.courseId, c.lectureId, c.createdAt,
                names.courseName(c.courseId), s.name, names.lectureName(c.lectureId))
  }

  /** The query's filter: the user's checkins, and when a course is given, only those of that course. */
  predicate Selects(c: Checkin, user: UserId, course: Option<CourseId>) {
    c.userId == user && (course.Some? ==> c.courseId == course.value)
  }

  /** The query `Checkin where user_id = user [and course_id = course]`, in store order. */
  function Owned(cs: seq<Checkin>, user: UserId, course: Option<CourseId>): (r: seq<Checkin>)
    ensures forall c :: c in r <==> c in cs && Selects(c, user, course)
    ensures forall c :: multiset(r)[c] == if Selects(c, user, course) then multiset(cs)[c] else 0
  {
    if cs == [] then []
    else
      assert cs == [cs[0]] + cs[1..];
      (if Selects(cs[0], user, course) then [cs[0]] else []) + Owned(cs[1..], user, course)
  }

  /** The checkins whose session still exists, in order: those the report loop does not skip. */
  function Live(cs: seq<Checkin>, sessions: map<SessionId, Session>): (r: seq<Checkin>)
    ensures forall c :: multiset(r)[c] == if c.sessionId in sessions then multiset(cs)[c] else 0
  {
    if cs == [] then []
    else
      var last := |cs| - 1;
      assert cs == cs[..last] + [cs[last]];
      Live(cs[..last], sessions) + (if cs[last].sessionId in sessions then [cs[last]] else [])
  }

  /** The accumulator loop: one view per checkin whose session still exists, in order. */
  function Report(cs: seq<Checkin>, sessions: map<SessionId, Session>, names: Names): (r: seq<CheckinView>)
    ensures |r| <= |cs|
    ensures forall v :: v in r ==> v.sessionId in sessions
  {
    if cs == [] then []
    else
      var last := |cs| - 1;
      var c := cs[last];
      Report(cs[..last], sessions, names)
        + (if c.sessionId in sessions then [View(c, sessions[c.sessionId], names)] else [])
  }

  /**
   * The report holds exactly one row per checkin whose session still exists,
   * in the same order: row k is the view of the k-th surviving checkin.
   */
  lemma {:induction false} ReportOneRowPerLiveCheckin(cs: seq<Checkin>, sessions: map<SessionId, Session>, names: Names)
    ensures |Report(cs, sessions, names)| == |Live(cs, sessions)|
    ensures forall k :: 0 <= k < |Live(cs, sessions)| ==>
      Live(cs, sessions)[k].sessionId in sessions &&
      Report(cs, sessions, names)[k] == View(Live(cs, sessions)[k], sessions[Live(cs, sessions)[k].sessionId], names)
  {
    if cs != [] {
      ReportOneRowPerLiveCheckin(cs[..|cs| - 1], sessions, names);
    }
  }

  lemma {:induction false} ReportExactly(cs: seq<Checkin>, sessions: map<SessionId, Session>, names: Names, v: CheckinView)
    ensures v in Report(cs, sessions, names)
            <==> exists c :: c in cs && c.sessionId in sessions && v == View(c, sessions[c.sessionId], names)
  {
    if cs != [] {
      var last := |cs| - 1;
      ReportExactly(cs[..last], sessions, names, v);
      assert cs == cs[..last] + [cs[last]];
    }
  }

  /**
   * The history of `user` (in one course, when `course` is given) holds
   * exactly the views of that user's checkins, of that course, whose session
   * still exists; so no entry ever refers to a deleted session.
   */
  lemma HistoryExactly(db: Db, user: UserId, course: Option<CourseId>, names: Names, v: CheckinView)
    ensures v in Report(Owned(db.checkins, user, course), db.sessions, names)
            <==> exists c :: c in db.checkins && Selects(c, user, course) && c.sessionId in db.sessions
                             && v == View(c, db.sessions[c.sessionId], names)
    ensures v in Report(Owned(db.checkins, user, course), db.sessions, names)
            ==> v.userId == user && v.sessionId in db.sessions && (course.Some? ==> v.courseId == course.value)
  {
    ReportExactly(Owned(db.checkins, user, course), db.sessions, names, v);
  }

  /**
   * Deleting a session keeps its checkins in the store (no cascade), yet
   * from then on no history entry refers to that session.
   */
  lemma DeletedSessionLeavesHistory(db: Db, perms: Permissions, teacher: UserId, sid: SessionId,
                                    user: UserId, course: Option<CourseId>, names: Names)
    requires Lifecycle.DeleteSession(db, perms, teacher, sid).1.Ok?
    ensures var after := Lifecycle.DeleteSession(db, perms, teacher, sid).0;
            && after.checkins == db.checkins
            && forall v :: v in Report(Owned(after.checkins, user, course), after.sessions, names) ==> v.sessionId != sid
  {
  }
}
