/** Properties of the three check-in pipelines and the relations between them. */
module CheckInProperties {
  import opened Common
  import opened Domain
  import opened SessionStore
  import opened MemberStore
  import opened AttendanceStore
  import opened CheckIn

  // -----------------------------------------------------------------------
  // The unique (session, student) key
  // -----------------------------------------------------------------------

  /** Storing a decision that passed the duplicate guard keeps the attendance key unique. */
  lemma {:induction false} InsertKeepsKeysUnique(ledger: seq<AttendanceRecord>, d: Decision, id: int)
    requires UniqueAttendanceKeys(ledger)
    requires !d.Reject? ==> !HasAttendance(ledger, d.draft.sessionId, d.draft.studentId)
    ensures UniqueAttendanceKeys(Applied(ledger, d, id))
  {
    if !d.Reject? {
      var rows := Applied(ledger, d, id);
      forall i, j | 0 <= i < j < |rows|
        ensures rows[i].sessionId != rows[j].sessionId || rows[i].studentId != rows[j].studentId
      {
        if j == |rows| - 1 {
          assert rows[i] in ledger;
        }
      }
    }
  }

  /**
   * After the newer Spring service stores a check-in, no second check-in of that student for that
   * session is stored; a second request that would have been stored before is refused as
   * "Already checked in".
   */
  lemma {:induction false} SpringChecksInOnce(req1: SpringRequest, req2: SpringRequest, sessions: seq<Session>,
                                              members: seq<ClassMember>, ledger: seq<AttendanceRecord>,
                                              studentId: int, t1: Time, t2: Time, onTimeMinutes: int,
                                              dist: Haversine, id: int)
    requires SpringDecide(req1, sessions, members, ledger, studentId, t1, onTimeMinutes, dist).Insert?
    requires req2.payload.Some? && req2.payload.value.sessionId == req1.payload.value.sessionId
    ensures UniqueAttendanceKeys(ledger) ==>
      UniqueAttendanceKeys(Applied(ledger, SpringDecide(req1, sessions, members, ledger, studentId, t1, onTimeMinutes, dist), id))
    ensures SpringDecide(req2, sessions, members,
                         Applied(ledger, SpringDecide(req1, sessions, members, ledger, studentId, t1, onTimeMinutes, dist), id),
                         studentId, t2, onTimeMinutes, dist).Reject?
    ensures SpringDecide(req2, sessions, members, ledger, studentId, t2, onTimeMinutes, dist).Insert? ==>
      SpringDecide(req2, sessions, members,
                   Applied(ledger, SpringDecide(req1, sessions, members, ledger, studentId, t1, onTimeMinutes, dist), id),
                   studentId, t2, onTimeMinutes, dist) == Reject(AlreadyCheckedIn)
  {
    var d1 := SpringDecide(req1, sessions, members, ledger, studentId, t1, onTimeMinutes, dist);
    var after := Applied(ledger, d1, id);
    if UniqueAttendanceKeys(ledger) {
      InsertKeepsKeysUnique(ledger, d1, id);
    }
    assert Stamp(d1.draft, id) in after;
    assert HasAttendance(after, d1.draft.sessionId, studentId);
  }

  /**
   * After the Express controller stores a check-in, no second check-in of that student for that
   * session is stored; a second request that would have been stored before is refused as
   * "Already checked in".
   */
  lemma {:induction false} NodeChecksInOnce(req1: NodeRequest, req2: NodeRequest, sessions: seq<Session>,
                                            members: seq<ClassMember>, ledger: seq<AttendanceRecord>,
                                            studentId: int, t1: Time, t2: Time, onTimeMinutes: int,
                                            dist: Haversine, id: int)
    requires NodeDecide(req1, sessions, members, ledger, studentId, t1, onTimeMinutes, dist).Insert?
    requires req2.payload.Some? && req2.payload.value.sessionId == req1.payload.value.sessionId
    ensures UniqueAttendanceKeys(ledger) ==>
      UniqueAttendanceKeys(Applied(ledger, NodeDecide(req1, sessions, members, ledger, studentId, t1, onTimeMinutes, dist), id))
    ensures NodeDecide(req2, sessions, members,
                       Applied(ledger, NodeDecide(req1, sessions, members, ledger, studentId, t1, onTimeMinutes, dist), id),
                       studentId, t2, onTimeMinutes, dist).Reject?
    ensures NodeDecide(req2, sessions, members, ledger, studentId, t2, onTimeMinutes, dist).Insert? ==>
      NodeDecide(req2, sessions, members,
                 Applied(ledger, NodeDecide(req1, sessions, members, ledger, studentId, t1, onTimeMinutes, dist), id),
                 studentId, t2, onTimeMinutes, dist) == Reject(AlreadyCheckedIn)
  {
    var d1 := NodeDecide(req1, sessions, members, ledger, studentId, t1, onTimeMinutes, dist);
    var after := Applied(ledger, d1, id);
    if UniqueAttendanceKeys(ledger) {
      InsertKeepsKeysUnique(ledger, d1, id);
    }
    assert Stamp(d1.draft, id) in after;
    assert HasAttendance(after, d1.draft.sessionId, studentId);
  }

  // -----------------------------------------------------------------------
  // Guards that decide regardless of the rest
  // -----------------------------------------------------------------------

  /** A session that is not OPEN refuses every check-in of every variant with "Session is not open". */
  lemma ClosedSessionRefused(sessions: seq<Session>, members: seq<ClassMember>, ledger: seq<AttendanceRecord>,
                             sid: int, token: string, lat: real, lng: real, photo: Option<string>,
                             studentId: int, now: Time, onTimeMinutes: int, dist: Haversine)
    requires FindSession(sessions, sid).Some? && FindSession(sessions, sid).value.status == Closed
    requires sid != 0 && token != ""
    requires photo.None? || !StartsWith(photo.value, "data:")
    ensures var req := SpringRequest(Some(QrPayload(Some(sid), Some(token))), Some(lat), Some(lng), photo);
      SpringDecide(req, sessions, members, ledger, studentId, now, onTimeMinutes, dist) == Reject(SessionNotOpen) &&
      LegacyDecide(req, sessions, members, ledger, studentId, now, onTimeMinutes, dist) == Reject(SessionNotOpen)
    ensures var req := NodeRequest(Some(QrPayload(Some(sid), Some(token))), Some(Finite(lat)), Some(Finite(lng)), photo);
      NodeDecide(req, sessions, members, ledger, studentId, now, onTimeMinutes, dist) == Reject(SessionNotOpen)
  {
  }

  /** An id no session has is refused by every variant with 404 "Session not found". */
  lemma UnknownSessionRefused(sessions: seq<Session>, members: seq<ClassMember>, ledger: seq<AttendanceRecord>,
                              sid: int, token: string, lat: real, lng: real, photo: Option<string>,
                              studentId: int, now: Time, onTimeMinutes: int, dist: Haversine)
    requires FindSession(sessions, sid).None?
    requires sid != 0 && token != ""
    requires photo.None? || !StartsWith(photo.value, "data:")
    ensures SessionNotFound.Status() == 404
    ensures var req := SpringRequest(Some(QrPayload(Some(sid), Some(token))), Some(lat), Some(lng), photo);
      SpringDecide(req, sessions, members, ledger, studentId, now, onTimeMinutes, dist) == Reject(SessionNotFound) &&
      LegacyDecide(req, sessions, members, ledger, studentId, now, onTimeMinutes, dist) == Reject(SessionNotFound)
    ensures var req := NodeRequest(Some(QrPayload(Some(sid), Some(token))), Some(Finite(lat)), Some(Finite(lng)), photo);
      NodeDecide(req, sessions, members, ledger, studentId, now, onTimeMinutes, dist) == Reject(SessionNotFound)
  {
  }

  /** The right token of an open session presented after its expiry is refused by every variant with 400. */
  lemma ExpiredTokenRefused(sessions: seq<Session>, members: seq<ClassMember>, ledger: seq<AttendanceRecord>,
                            s: Session, token: string, lat: real, lng: real, photo: Option<string>,
                            studentId: int, now: Time, onTimeMinutes: int, dist: Haversine)
    requires FindSession(sessions, s.id) == Some(s)
    requires s.status == Open && s.qrToken == Some(token) && Expired(s, now)
    requires s.id != 0 && token != ""
    requires photo.None? || !StartsWith(photo.value, "data:")
    ensures QrExpired.Status() == 400
    ensures var req := SpringRequest(Some(QrPayload(Some(s.id), Some(token))), Some(lat), Some(lng), photo);
      SpringDecide(req, sessions, members, ledger, studentId, now, onTimeMinutes, dist) == Reject(QrExpired) &&
      LegacyDecide(req, sessions, members, ledger, studentId, now, onTimeMinutes, dist) == Reject(QrExpired)
    ensures var req := NodeRequest(Some(QrPayload(Some(s.id), Some(token))), Some(Finite(lat)), Some(Finite(lng)), photo);
      NodeDecide(req, sessions, members, ledger, studentId, now, onTimeMinutes, dist) == Reject(QrExpired)
  {
  }

  /**
   * A valid, unexpired scan within the geofence by a student who is not a member of the
   * session's class is refused by every variant with 403.
   */
  lemma NonMemberRefused(sessions: seq<Session>, members: seq<ClassMember>, ledger: seq<AttendanceRecord>,
                         s: Session, token: string, lat: real, lng: real, photo: Option<string>,
                         studentId: int, now: Time, onTimeMinutes: int, dist: Haversine)
    requires FindSession(sessions, s.id) == Some(s)
    requires s.status == Open && s.qrToken == Some(token) && !Expired(s, now)
    requires s.id != 0 && token != ""
    requires photo.None? || !StartsWith(photo.value, "data:")
    requires HasTeacherPosition(s) ==> dist(s.teacherLat.value, s.teacherLng.value, lat, lng) <= MaxDistanceMeters
    requires !IsMember(members, s.classId, studentId)
    ensures NotInClass.Status() == 403
    ensures var req := SpringRequest(Some(QrPayload(Some(s.id), Some(token))), Some(lat), Some(lng), photo);
      SpringDecide(req, sessions, members, ledger, studentId, now, onTimeMinutes, dist) == Reject(NotInClass) &&
      LegacyDecide(req, sessions, members, ledger, studentId, now, onTimeMinutes, dist) == Reject(NotInClass)
    ensures var req := NodeRequest(Some(QrPayload(Some(s.id), Some(token))), Some(Finite(lat)), Some(Finite(lng)), photo);
      NodeDecide(req, sessions, members, ledger, studentId, now, onTimeMinutes, dist) == Reject(NotInClass)
  {
  }

  /**
   * A member's valid, unexpired scan within the geofence for a session the student already has
   * a row for is refused by every variant with 400 "Already checked in".
   */
  lemma DuplicateRefused(sessions: seq<Session>, members: seq<ClassMember>, ledger: seq<AttendanceRecord>,
                         s: Session, token: string, lat: real, lng: real, photo: Option<string>,
                         studentId: int, now: Time, onTimeMinutes: int, dist: Haversine)
    requires FindSession(sessions, s.id) == Some(s)
    requires s.status == Open && s.qrToken == Some(token) && !Expired(s, now)
    requires s.id != 0 && token != ""
    requires photo.None? || !StartsWith(photo.value, "data:")
    requires HasTeacherPosition(s) ==> dist(s.teacherLat.value, s.teacherLng.value, lat, lng) <= MaxDistanceMeters
    requires IsMember(members, s.classId, studentId) && HasAttendance(ledger, s.id, studentId)
    ensures AlreadyCheckedIn.Status() == 400
    ensures var req := SpringRequest(Some(QrPayload(Some(s.id), Some(token))), Some(lat), Some(lng), photo);
      SpringDecide(req, sessions, members, ledger, studentId, now, onTimeMinutes, dist) == Reject(AlreadyCheckedIn) &&
      LegacyDecide(req, sessions, members, ledger, studentId, now, onTimeMinutes, dist) == Reject(AlreadyCheckedIn)
    ensures var req := NodeRequest(Some(QrPayload(Some(s.id), Some(token))), Some(Finite(lat)), Some(Finite(lng)), photo);
      NodeDecide(req, sessions, members, ledger, studentId, now, onTimeMinutes, dist) == Reject(AlreadyCheckedIn)
  {
  }

  /** A token other than the one stored in an open session is refused by every variant. */
  lemma StaleTokenRefused(sessions: seq<Session>, members: seq<ClassMember>, ledger: seq<AttendanceRecord>,
                          sid: int, presented: string, lat: real, lng: real,
                          studentId: int, now: Time, onTimeMinutes: int, dist: Haversine)
    requires FindSession(sessions, sid).Some?
    requires FindSession(sessions, sid).value.status == Open
    requires FindSession(sessions, sid).value.qrToken != Some(presented)
    requires sid != 0 && presented != ""
    ensures var req := SpringRequest(Some(QrPayload(Some(sid), Some(presented))), Some(lat), Some(lng), None);
      SpringDecide(req, sessions, members, ledger, studentId, now, onTimeMinutes, dist) == Reject(InvalidQrToken) &&
      LegacyDecide(req, sessions, members, ledger, studentId, now, onTimeMinutes, dist) == Reject(InvalidQrToken)
    ensures var req := NodeRequest(Some(QrPayload(Some(sid), Some(presented))), Some(Finite(lat)), Some(Finite(lng)), None);
      NodeDecide(req, sessions, members, ledger, studentId, now, onTimeMinutes, dist) == Reject(InvalidQrToken)
  {
  }

  /** The newer Spring service refuses an inline `data:` photo before looking the session up. */
  lemma DataUrlPhotoRefusedFirst(req: SpringRequest, sessions: seq<Session>, members: seq<ClassMember>,
                                 ledger: seq<AttendanceRecord>, studentId: int, now: Time,
                                 onTimeMinutes: int, dist: Haversine)
    requires req.payload.Some?
    requires req.photoUrl.Some? && StartsWith(req.photoUrl.value, "data:")
    ensures SpringDecide(req, sessions, members, ledger, studentId, now, onTimeMinutes, dist) == Reject(PhotoIsDataUrl)
  {
  }

  /** A refused-for-distance check-in reports a rounded distance of at least the 50 m limit. */
  lemma TooFarReportsAtLeastLimit(req: SpringRequest, sessions: seq<Session>, members: seq<ClassMember>,
                                  ledger: seq<AttendanceRecord>, studentId: int, now: Time,
                                  onTimeMinutes: int, dist: Haversine)
    ensures var d := SpringDecide(req, sessions, members, ledger, studentId, now, onTimeMinutes, dist);
      d.Reject? && d.reason.TooFar? ==> d.reason.distanceMeters >= 50 && d.reason.Status() == 400
  {
  }

  // -----------------------------------------------------------------------
  // Agreement of the three backends
  // -----------------------------------------------------------------------

  /** A decision without the reported distance (the older services do not report it). */
  function WithoutDistance(d: Decision): (r: Decision)
    ensures r.Insert? ==> r.distanceMeters.None?
    ensures d.Reject? ==> r == d
  {
    if d.Insert? then Insert(d.draft, None) else d
  }

  /**
   * On a well-formed request (non-zero session id, non-empty token, both coordinates, no inline
   * or empty photo) the three backends take the same decision, up to the reported distance.
   */
  lemma {:induction false} BackendsAgree(sid: int, token: string, lat: real, lng: real, photo: Option<string>,
                                         sessions: seq<Session>, members: seq<ClassMember>,
                                         ledger: seq<AttendanceRecord>, studentId: int, now: Time,
                                         onTimeMinutes: int, dist: Haversine)
    requires sid != 0 && token != ""
    requires photo.None? || (photo.value != "" && !StartsWith(photo.value, "data:"))
    ensures var sreq := SpringRequest(Some(QrPayload(Some(sid), Some(token))), Some(lat), Some(lng), photo);
      var nreq := NodeRequest(Some(QrPayload(Some(sid), Some(token))), Some(Finite(lat)), Some(Finite(lng)), photo);
      WithoutDistance(SpringDecide(sreq, sessions, members, ledger, studentId, now, onTimeMinutes, dist)) ==
        LegacyDecide(sreq, sessions, members, ledger, studentId, now, onTimeMinutes, dist) &&
      LegacyDecide(sreq, sessions, members, ledger, studentId, now, onTimeMinutes, dist) ==
        NodeDecide(nreq, sessions, members, ledger, studentId, now, onTimeMinutes, dist)
  {
    var sreq := SpringRequest(Some(QrPayload(Some(sid), Some(token))), Some(lat), Some(lng), photo);
    var nreq := NodeRequest(Some(QrPayload(Some(sid), Some(token))), Some(Finite(lat)), Some(Finite(lng)), photo);
    assert NodePhoto(photo) == photo;
    match FindSession(sessions, sid)
    case None =>
    case Some(s) =>
      assert TokenMatches(s, Some(token)) <==> NodeTokenMatches(s, token);
  }

  /** Without coordinates the newer Spring service stores nothing, while the Express controller refuses with 400. */
  lemma MissingGpsNeverStored(sid: int, token: string, sessions: seq<Session>, members: seq<ClassMember>,
                              ledger: seq<AttendanceRecord>, studentId: int, now: Time,
                              onTimeMinutes: int, dist: Haversine)
    requires sid != 0 && token != ""
    ensures var sreq := SpringRequest(Some(QrPayload(Some(sid), Some(token))), None, None, None);
      !SpringDecide(sreq, sessions, members, ledger, studentId, now, onTimeMinutes, dist).Insert? &&
      !LegacyDecide(sreq, sessions, members, ledger, studentId, now, onTimeMinutes, dist).Insert?
    ensures var nreq := NodeRequest(Some(QrPayload(Some(sid), Some(token))), None, None, None);
      NodeDecide(nreq, sessions, members, ledger, studentId, now, onTimeMinutes, dist) == Reject(GpsRequired) &&
      GpsRequired.Status() == 400
  {
  }

  // -----------------------------------------------------------------------
  // The success answer with an unmeasured distance
  // -----------------------------------------------------------------------

  /**
   * As written, an accepted check-in for a session without a stored teacher position stores the
   * row and then answers 500; a retry is refused as "Already checked in".
   */
  lemma AsWrittenStoresThenFails()
    ensures
      var s := Session(1, 10, "Lecture 1", 0, Open, Some("tok"), None, None, None);
      var m := ClassMember(1, 10, 7, 0);
      var req := SpringRequest(Some(QrPayload(Some(1), Some("tok"))), Some(10.0), Some(20.0), None);
      var dist: Haversine := (a, b, c, e) => 0.0;
      var d := SpringDecideAsWritten(req, [s], [m], [], 7, 60000, 15, dist);
      var stored := Applied([], d, 1);
      d.InsertThenCrash? && Realize(d, 1) == Refused(Crash) && Crash.Status() == 500 &&
      |stored| == 1 && stored[0].studentId == 7 && stored[0].sessionId == 1 &&
      SpringDecideAsWritten(req, [s], [m], stored, 7, 120000, 15, dist) == Reject(AlreadyCheckedIn)
  {
    var s := Session(1, 10, "Lecture 1", 0, Open, Some("tok"), None, None, None);
    var m := ClassMember(1, 10, 7, 0);
    assert IsMember([m], 10, 7);
    var req := SpringRequest(Some(QrPayload(Some(1), Some("tok"))), Some(10.0), Some(20.0), None);
    var dist: Haversine := (a, b, c, e) => 0.0;
    var d := SpringDecideAsWritten(req, [s], [m], [], 7, 60000, 15, dist);
    var stored := Applied([], d, 1);
    assert stored[0] in stored;
    assert HasAttendance(stored, 1, 7);
  }

  /**
   * The corrected answer: whenever the as-written service would store a row and fail, the
   * corrected one stores the same row and answers it, reporting no distance; in every other
   * case the two agree. The corrected service never fails after storing.
   */
  lemma CorrectedAnswersStoredRow(req: SpringRequest, sessions: seq<Session>, members: seq<ClassMember>,
                                  ledger: seq<AttendanceRecord>, studentId: int, now: Time,
                                  onTimeMinutes: int, dist: Haversine, id: int)
    ensures var w := SpringDecideAsWritten(req, sessions, members, ledger, studentId, now, onTimeMinutes, dist);
      var c := SpringDecide(req, sessions, members, ledger, studentId, now, onTimeMinutes, dist);
      Applied(ledger, w, id) == Applied(ledger, c, id) &&
      (w.InsertThenCrash? ==> Realize(c, id) == Accepted(Stamp(w.draft, id), None)) &&
      (!w.InsertThenCrash? ==> w == c) &&
      (Realize(c, id).Refused? ==> c.Reject?)
  {
  }
}
