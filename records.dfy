/**
 * Data model of the attendance-session service: the Session and Checkin
 * records, the two stores they live in, the permission oracle the service
 * consults, and the typed outcomes that replace the service's
 * `(ok, message)` pairs.
 */
module Records {

  type UserId = nat
  type CourseId = nat
  type LectureId = nat
  type SessionId = nat
  type CheckinId = nat

  /** A wall-clock instant; the service compares timestamps, so an integer suffices. */
  type Time = int

  datatype Option<T> = None | Some(value: T) {
    function GetOr(default: T): T {
      match this
      case Some(v) => v
      case None => default
    }
  }

  /** One instance of a lecture being held and open for attendance. */
  datatype Session = Session(
    id: SessionId,
    name: string,
    description: string,
    courseId: CourseId,
    lectureId: LectureId,
    teacherId: UserId,
    start: Time,
    end: Time)

  /** One user's attendance fact for one session; course and lecture are copied from the session. */
  datatype Checkin = Checkin(
    id: CheckinId,
    userId: UserId,
    sessionId: SessionId,
    courseId: CourseId,
    lectureId: LectureId,
    createdAt: Time)

  /**
   * The tables the service reads and writes. `lectures` maps a lecture to its
   * course and is only read here; `sessions` is keyed by session id;
   * `checkins` is kept in insertion order; the two counters hand out the ids
   * the database would assign on insert.
   */
  datatype Db = Db(
    lectures: map<LectureId, CourseId>,
    sessions: map<SessionId, Session>,
    checkins: seq<Checkin>,
    nextSessionId: SessionId,
    nextCheckinId: CheckinId)

  /**
   * The permission oracle: `mayManage` is the teacher/admin check,
   * `mayAccess` the enrolled-member check.
   */
  datatype Permissions = Permissions(
    mayManage: (UserId, CourseId) -> bool,
    mayAccess: (UserId, CourseId) -> bool)

  datatype Error = NotFound | Forbidden | SessionEnded | NotStarted | AlreadyCheckedIn

  datatype Success =
    | Created(id: SessionId)
    | Updated(id: SessionId)
    | Deleted(id: SessionId)
    | EndedNow(id: SessionId)
    | AlreadyEnded
    | CheckedIn
    | AttendeeUpdated
    | AttendeeAdded

  /** The outcome of an operation that changes a store. */
  datatype Outcome = Ok(success: Success) | Fail(error: Error)

  /** The outcome of an operation that reads a store. */
  datatype Result<T> = Success(value: T) | Failure(error: Error)

  /** Store invariant kept by auto-increment ids: every key is its record's id and below the counter. */
  predicate Valid(db: Db) {
    && (forall k :: k in db.sessions ==> db.sessions[k].id == k && k < db.nextSessionId)
    && (forall i :: 0 <= i < |db.checkins| ==> db.checkins[i].id < db.nextCheckinId)
  }

  predicate Matches(c: Checkin, user: UserId, sid: SessionId) {
    c.userId == user && c.sessionId == sid
  }

  /** At most one checkin per (user, session) pair. */
  predicate UniquePairs(cs: seq<Checkin>) {
    forall i, j :: 0 <= i < j < |cs| ==> !Matches(cs[j], cs[i].userId, cs[i].sessionId)
  }

  /**
   * The lookup `Checkin where user_id = user and session_id = sid`, first row:
   * the index of the first matching checkin, if any.
   */
  function FirstCheckin(cs: seq<Checkin>, user: UserId, sid: SessionId): (r: Option<nat>)
    ensures r.Some? ==> r.value < |cs| && Matches(cs[r.value], user, sid)
    ensures r.Some? ==> forall j :: 0 <= j < r.value ==> !Matches(cs[j], user, sid)
    ensures r.None? <==> forall j :: 0 <= j < |cs| ==> !Matches(cs[j], user, sid)
  {
    if cs == [] then None
    else if Matches(cs[0], user, sid) then Some(0)
    else match FirstCheckin(cs[1..], user, sid)
      case None => None
      case Some(k) => Some(k + 1)
  }

  /** Changing a checkin's timestamp does not change which checkin the lookup finds. */
  lemma {:induction false} FirstCheckinIgnoresTime(cs: seq<Checkin>, i: nat, t: Time, user: UserId, sid: SessionId)
    requires i < |cs|
    ensures FirstCheckin(cs[i := cs[i].(createdAt := t)], user, sid) == FirstCheckin(cs, user, sid)
  {
    if i > 0 {
      assert cs[i := cs[i].(createdAt := t)][1..] == cs[1..][i - 1 := cs[i].(createdAt := t)];
      FirstCheckinIgnoresTime(cs[1..], i - 1, t, user, sid);
    }
  }

  /** Appending a matching checkin to a store without one makes the lookup find the new row. */
  lemma FirstCheckinAppended(cs: seq<Checkin>, c: Checkin, user: UserId, sid: SessionId)
    requires FirstCheckin(cs, user, sid).None?
    requires Matches(c, user, sid)
    ensures FirstCheckin(cs + [c], user, sid) == Some(|cs|)
  {
    assert (cs + [c])[|cs|] == c;
    assert forall j :: 0 <= j < |cs| ==> (cs + [c])[j] == cs[j];
  }
}
