/**
 * Reference definitions of the check-in engine: a user's own check-in,
 * which is gated by the session's time window and refuses a second check-in
 * for the same session, and the instructor's override, which adds or
 * re-dates an attendee's check-in at any time.
 */
module CheckinEngine {
  import opened Records
  import Lifecycle

  /**
   * `checkin`. The guards are tried in a fixed order: the session must exist,
   * the user must have access to its course, the session must not have ended
   * (end < now), must have started (start <= now), and the user must not have
   * checked in already. Only then is one checkin appended, stamped `now` and
   * carrying the session's course and lecture.
   */
  function SelfCheckin(db: Db, perms: Permissions, user: UserId, sid: SessionId, now: Time): (r: (Db, Outcome))
    ensures r.1.Fail? ==> r.0 == db
    ensures r.1 == Fail(NotFound) <==> sid !in db.sessions
    ensures r.1 == Fail(Forbidden) <==>
      sid in db.sessions && !perms.mayAccess(user, db.sessions[sid].courseId)
    ensures r.1 == Fail(SessionEnded) <==>
      sid in db.sessions && perms.mayAccess(user, db.sessions[sid].courseId)
      && db.sessions[sid].end < now
    ensures r.1 == Fail(NotStarted) <==>
      sid in db.sessions && perms.mayAccess(user, db.sessions[sid].courseId)
      && db.sessions[sid].end >= now && db.sessions[sid].start > now
    ensures r.1 == Fail(AlreadyCheckedIn) <==>
      sid in db.sessions && perms.mayAccess(user, db.sessions[sid].courseId)
      && Lifecycle.IsActive(db.sessions[sid], now)
      && exists i :: 0 <= i < |db.checkins| && Matches(db.checkins[i], user, sid)
    ensures r.1.Ok? ==>
      var s := db.sessions[sid];
      && sid in db.sessions
      && r.1 == Ok(CheckedIn)
      && r.0 == db.(checkins := db.checkins + [Checkin(db.nextCheckinId, user, sid, s.courseId, s.lectureId, now)],
                    nextCheckinId := db.nextCheckinId + 1)
    ensures Valid(db) ==> Valid(r.0)
  {
    if sid !in db.sessions then (db, Fail(NotFound))
    else
      var s := db.sessions[sid];
      if !perms.mayAccess(user, s.courseId) then (db, Fail(Forbidden))
      else if s.end < now then (db, Fail(SessionEnded))
      else if s.start > now then (db, Fail(NotStarted))
      else if FirstCheckin(db.checkins, user, sid).Some? then (db, Fail(AlreadyCheckedIn))
      else
        var c := Checkin(db.nextCheckinId, user, sid, s.courseId, s.lectureId, now);
        (db.(checkins := db.checkins + [c], nextCheckinId := db.nextCheckinId + 1), Ok(CheckedIn))
  }

  /** A successful check-in, repeated with the same arguments, is refused as already checked in. */
  lemma SecondCheckinRejected(db: Db, perms: Permissions, user: UserId, sid: SessionId, now: Time)
    requires SelfCheckin(db, perms, user, sid, now).1.Ok?
    ensures SelfCheckin(SelfCheckin(db, perms, user, sid, now).0, perms, user, sid, now).1 == Fail(AlreadyCheckedIn)
  {
    var db1 := SelfCheckin(db, perms, user, sid, now).0;
    var last := |db1.checkins| - 1;
    assert Matches(db1.checkins[last], user, sid);
  }

  /** A self check-in never introduces a second checkin for the same (user, session) pair. */
  lemma SelfCheckinKeepsPairsUnique(db: Db, perms: Permissions, user: UserId, sid: SessionId, now: Time)
    requires UniquePairs(db.checkins)
    ensures UniquePairs(SelfCheckin(db, perms, user, sid, now).0.checkins)
  {
  }

  /**
   * `update_attendee`. After the same two guards as the lifecycle operations
   * (manage permission), and with no time-window check, the attendee's first
   * checkin for the session is re-dated to `checkinTime` (or `now` when none
   * is given); if there is none, one checkin with that timestamp is appended.
   */
  function UpdateAttendee(db: Db, perms: Permissions, user: UserId, sid: SessionId, attendee: UserId,
                          checkinTime: Option<Time>, now: Time): (r: (Db, Outcome))
    ensures r.1.Fail? ==> r.0 == db
    ensures r.1 == Fail(NotFound) <==> sid !in db.sessions
    ensures r.1 == Fail(Forbidden) <==>
      sid in db.sessions && !perms.mayManage(user, db.sessions[sid].courseId)
    ensures r.1.Ok? <==> sid in db.sessions && perms.mayManage(user, db.sessions[sid].courseId)
    ensures r.1.Ok? ==>
      var t := if checkinTime.Some? then checkinTime.value else now;
      var s := db.sessions[sid];
      && r.0.sessions == db.sessions && r.0.lectures == db.lectures
      && match FirstCheckin(db.checkins, attendee, sid)
         case Some(i) =>
           && r.1 == Ok(AttendeeUpdated)
           && r.0 == db.(checkins := db.checkins[i := db.checkins[i].(createdAt := t)])
         case None =>
           && r.1 == Ok(AttendeeAdded)
           && r.0 == db.(checkins := db.checkins + [Checkin(db.nextCheckinId, attendee, sid, s.courseId, s.lectureId, t)],
                         nextCheckinId := db.nextCheckinId + 1)
    ensures r.1.Ok? ==> exists i :: 0 <= i < |r.0.checkins| && Matches(r.0.checkins[i], attendee, sid)
    ensures Valid(db) ==> Valid(r.0)
  {
    if sid !in db.sessions then (db, Fail(NotFound))
    else
      var s := db.sessions[sid];
      if !perms.mayManage(user, s.courseId) then (db, Fail(Forbidden))
      else
        var t := checkinTime.GetOr(now);
        match FirstCheckin(db.checkins, attendee, sid)
        case Some(i) =>
          assert Matches(db.checkins[i := db.checkins[i].(createdAt := t)][i], attendee, sid);
          (db.(checkins := db.checkins[i := db.checkins[i].(createdAt := t)]), Ok(AttendeeUpdated))
        case None =>
          var c := Checkin(db.nextCheckinId, attendee, sid, s.courseId, s.lectureId, t);
          assert (db.checkins + [c])[|db.checkins|] == c;
          (db.(checkins := db.checkins + [c], nextCheckinId := db.nextCheckinId + 1), Ok(AttendeeAdded))
  }

  /** The instructor override never introduces a second checkin for the same (user, session) pair. */
  lemma UpdateAttendeeKeepsPairsUnique(db: Db, perms: Permissions, user: UserId, sid: SessionId, attendee: UserId,
                                       checkinTime: Option<Time>, now: Time)
    requires UniquePairs(db.checkins)
    ensures UniquePairs(UpdateAttendee(db, perms, user, sid, attendee, checkinTime, now).0.checkins)
  {
  }

  /**
   * With a fixed timestamp the override is idempotent: a second identical
   * call re-dates the same checkin to the same time and changes nothing.
   */
  lemma UpdateAttendeeIdempotent(db: Db, perms: Permissions, user: UserId, sid: SessionId, attendee: UserId,
                                 t: Time, now: Time, later: Time)
    ensures var first := UpdateAttendee(db, perms, user, sid, attendee, Some(t), now);
            UpdateAttendee(first.0, perms, user, sid, attendee, Some(t), later).0 == first.0
  {
    var first := UpdateAttendee(db, perms, user, sid, attendee, Some(t), now);
    if first.1.Ok? {
      var cs := db.checkins;
      match FirstCheckin(cs, attendee, sid)
      case Some(i) =>
        FirstCheckinIgnoresTime(cs, i, t, attendee, sid);
        assert first.0.checkins[i] == first.0.checkins[i].(createdAt := t);
      case None =>
        var c := first.0.checkins[|cs|];
        assert first.0.checkins == cs + [c];
        FirstCheckinAppended(cs, c, attendee, sid);
    }
  }

  /** `get_attendees`' query: the checkins of one session, in store order. */
  function Attendees(cs: seq<Checkin>, sid: SessionId): (r: seq<Checkin>)
    ensures forall c :: multiset(r)[c] == if c.sessionId == sid then multiset(cs)[c] else 0
  {
    if cs == [] then []
    else
      assert cs == [cs[0]] + cs[1..];
      (if cs[0].sessionId == sid then [cs[0]] else []) + Attendees(cs[1..], sid)
  }
}
