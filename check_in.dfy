/**
 * Student check-in, as the three backends implement it:
 *   - the newer Spring service (photo guard, geofence only when both positions are known,
 *     distance reported in the answer),
 *   - the older Spring service (geofence whenever the teacher position is known),
 *   - the Express controller (payload and GPS validated first, JavaScript truthiness).
 * Each is a decision function over the table contents plus a method that runs the guard chain
 * against the tables and inserts the attendance row. The haversine distance is a parameter.
 */
module CheckIn {
  import opened Common
  import opened Domain
  import opened SessionStore
  import opened MemberStore
  import opened AttendanceStore

  /** The content of the QR code: `{ sessionId, qrToken }`. */
  datatype QrPayload = QrPayload(sessionId: Option<int>, qrToken: Option<string>)

  /** A JavaScript number produced by `parseFloat`: finite, or NaN / an infinity. */
  datatype Float = Finite(value: real) | NonFinite

  /** Check-in body of the Spring services; each field may be null. */
  datatype SpringRequest = SpringRequest(
    payload: Option<QrPayload>, gpsLat: Option<real>, gpsLng: Option<real>, photoUrl: Option<string>)

  /** Check-in body of the Express controller; an absent coordinate is `undefined`. */
  datatype NodeRequest = NodeRequest(
    payload: Option<QrPayload>, gpsLat: Option<Float>, gpsLng: Option<Float>, photoUrl: Option<string>)

  /** Why a check-in is refused. `Crash` is an unchecked exception answered with 500. */
  datatype Rejection =
    | InvalidQrPayload
    | PhotoIsDataUrl
    | GpsRequired
    | SessionNotFound
    | SessionNotOpen
    | InvalidQrToken
    | QrExpired
    | TooFar(distanceMeters: int)
    | NotInClass
    | AlreadyCheckedIn
    | Crash
  {
    function Status(): int
    {
      match this
      case SessionNotFound => 404
      case NotInClass => 403
      case Crash => 500
      case _ => 400
    }
  }

  /**
   * What a check-in does: refuse, insert a row and answer it (with the rounded distance when
   * one was measured), or insert a row and then fail while building the answer.
   */
  datatype Decision =
    | Reject(reason: Rejection)
    | Insert(draft: Draft, distanceMeters: Option<int>)
    | InsertThenCrash(draft: Draft)

  /** The answer a caller sees. */
  datatype Outcome =
    | Accepted(attendance: AttendanceRecord, distanceMeters: Option<int>)
    | Refused(reason: Rejection)

  /** `distanceInMeters(lat1, lng1, lat2, lng2)`, the haversine formula. */
  type Haversine = (real, real, real, real) -> real

  // -----------------------------------------------------------------------
  // Guards shared by the variants
  // -----------------------------------------------------------------------

  /** The session's token is set and equals the presented one. */
  predicate TokenMatches(s: Session, presented: Option<string>)
  {
    s.qrToken.Some? && presented == s.qrToken
  }

  /** The token expiry is set and the instant is strictly after it. */
  predicate Expired(s: Session, now: Time)
  {
    s.qrTokenExpiresAt.Some? && now > s.qrTokenExpiresAt.value
  }

  predicate HasTeacherPosition(s: Session)
  {
    s.teacherLat.Some? && s.teacherLng.Some?
  }

  /** The answer for a decision, when the inserted row receives id `id`. */
  function Realize(d: Decision, id: int): (o: Outcome)
    ensures d.Reject? ==> o == Refused(d.reason)
    ensures d.Insert? ==> o == Accepted(Stamp(d.draft, id), d.distanceMeters)
    ensures d.InsertThenCrash? ==> o == Refused(Crash)
  {
    match d
    case Reject(r) => Refused(r)
    case Insert(dr, dm) => Accepted(Stamp(dr, id), dm)
    case InsertThenCrash(_) => Refused(Crash)
  }

  /** The attendance rows after a decision: a row is added exactly when the decision inserts one. */
  function Applied(rows: seq<AttendanceRecord>, d: Decision, id: int): (r: seq<AttendanceRecord>)
    ensures d.Reject? ==> r == rows
    ensures !d.Reject? ==> r == rows + [Stamp(d.draft, id)]
  {
    if d.Reject? then rows else rows + [Stamp(d.draft, id)]
  }

  // -----------------------------------------------------------------------
  // Newer Spring service
  // -----------------------------------------------------------------------

  /** The distance the newer Spring service measures: only when both positions are known. */
  function SpringMeasured(s: Session, req: SpringRequest, dist: Haversine): (m: Option<real>)
    ensures m.Some? <==> HasTeacherPosition(s) && req.gpsLat.Some? && req.gpsLng.Some?
  {
    if HasTeacherPosition(s) && req.gpsLat.Some? && req.gpsLng.Some? then
      Some(dist(s.teacherLat.value, s.teacherLng.value, req.gpsLat.value, req.gpsLng.value))
    else None
  }

  /**
   * The newer Spring check-in, with the answer built so that a missing distance is reported
   * as absent. Guard order: payload, photo, session id, session, status, token, expiry,
   * distance, membership, duplicate, coordinates.
   */
  function SpringDecide(req: SpringRequest, sessions: seq<Session>, members: seq<ClassMember>,
                        ledger: seq<AttendanceRecord>, studentId: int, now: Time,
                        onTimeMinutes: int, dist: Haversine): (d: Decision)
    ensures !d.InsertThenCrash?
    ensures d.Insert? ==>
      req.payload.Some? && req.payload.value.sessionId.Some? &&
      d.draft.sessionId == req.payload.value.sessionId.value &&
      FindSession(sessions, d.draft.sessionId).Some? &&
      var s := FindSession(sessions, d.draft.sessionId).value;
      s.status == Open && TokenMatches(s, req.payload.value.qrToken) && !Expired(s, now) &&
      IsMember(members, s.classId, studentId) &&
      !HasAttendance(ledger, d.draft.sessionId, studentId) &&
      d.draft == Draft(d.draft.sessionId, studentId, now, req.gpsLat, req.gpsLng, req.photoUrl,
                       Classify(now, s.sessionDate, onTimeMinutes)) &&
      req.gpsLat.Some? && req.gpsLng.Some? &&
      (d.distanceMeters.Some? <==> HasTeacherPosition(s)) &&
      (d.distanceMeters.Some? ==> d.distanceMeters.value <= 50)
  {
    if req.payload.None? then Reject(Crash)
    else if req.photoUrl.Some? && StartsWith(req.photoUrl.value, "data:") then Reject(PhotoIsDataUrl)
    else if req.payload.value.sessionId.None? then Reject(Crash)
    else
      var sessionId := req.payload.value.sessionId.value;
      match FindSession(sessions, sessionId)
      case None => Reject(SessionNotFound)
      case Some(s) =>
        if s.status != Open then Reject(SessionNotOpen)
        else if !TokenMatches(s, req.payload.value.qrToken) then Reject(InvalidQrToken)
        else if Expired(s, now) then Reject(QrExpired)
        else
          var measured := SpringMeasured(s, req, dist);
          if measured.Some? && measured.value > MaxDistanceMeters then Reject(TooFar(Round(measured.value)))
          else if !IsMember(members, s.classId, studentId) then Reject(NotInClass)
          else if HasAttendance(ledger, sessionId, studentId) then Reject(AlreadyCheckedIn)
          else if req.gpsLat.None? || req.gpsLng.None? then Reject(Crash)
          else
            var draft := Draft(sessionId, studentId, now, req.gpsLat, req.gpsLng, req.photoUrl,
                               Classify(now, s.sessionDate, onTimeMinutes));
            Insert(draft, if measured.Some? then Some(Round(measured.value)) else None)
  }

  /**
   * The newer Spring service as written: the success answer is a `Map.of` holding the distance,
   * and `Map.of` throws on a null value, after the row has been saved.
   */
  function SpringDecideAsWritten(req: SpringRequest, sessions: seq<Session>, members: seq<ClassMember>,
                                 ledger: seq<AttendanceRecord>, studentId: int, now: Time,
                                 onTimeMinutes: int, dist: Haversine): (d: Decision)
    ensures d.Reject? <==> SpringDecide(req, sessions, members, ledger, studentId, now, onTimeMinutes, dist).Reject?
  {
    var d := SpringDecide(req, sessions, members, ledger, studentId, now, onTimeMinutes, dist);
    if d.Insert? && d.distanceMeters.None? then InsertThenCrash(d.draft) else d
  }

  /** The newer Spring check-in against the tables; it behaves as `SpringDecide`. */
  method SpringCheckIn(req: SpringRequest, sessions: SessionTable, members: MemberTable, ledger: AttendanceTable,
                       studentId: int, now: Time, onTimeMinutes: int, dist: Haversine) returns (outcome: Outcome)
    requires ledger.Valid()
    modifies ledger
    ensures ledger.Valid()
    ensures outcome == Realize(SpringDecide(req, sessions.rows, members.rows, old(ledger.rows), studentId, now,
                                            onTimeMinutes, dist), old(ledger.nextId))
    ensures ledger.rows == Applied(old(ledger.rows), SpringDecide(req, sessions.rows, members.rows, old(ledger.rows),
                                                                  studentId, now, onTimeMinutes, dist), old(ledger.nextId))
  {
    if req.payload.None? {
      return Refused(Crash);
    }
    var photoUrl := req.photoUrl;
    if photoUrl.Some? && StartsWith(photoUrl.value, "data:") {
      return Refused(PhotoIsDataUrl);
    }
    if req.payload.value.sessionId.None? {
      return Refused(Crash);
    }
    var sessionId := req.payload.value.sessionId.value;
    var found := FindSession(sessions.rows, sessionId);
    if found.None? {
      return Refused(SessionNotFound);
    }
    var session := found.value;
    if session.status != Open {
      return Refused(SessionNotOpen);
    }
    if !TokenMatches(session, req.payload.value.qrToken) {
      return Refused(InvalidQrToken);
    }
    if Expired(session, now) {
      return Refused(QrExpired);
    }
    var distanceMeters: Option<int> := None;
    if HasTeacherPosition(session) && req.gpsLat.Some? && req.gpsLng.Some? {
      var d := dist(session.teacherLat.value, session.teacherLng.value, req.gpsLat.value, req.gpsLng.value);
      if d > MaxDistanceMeters {
        return Refused(TooFar(Round(d)));
      }
      distanceMeters := Some(Round(d));
    }
    if !IsMember(members.rows, session.classId, studentId) {
      return Refused(NotInClass);
    }
    if FindAttendance(ledger.rows, sessionId, studentId).Some? {
      return Refused(AlreadyCheckedIn);
    }
    var status := Classify(now, session.sessionDate, onTimeMinutes);
    if req.gpsLat.None? || req.gpsLng.None? {
      return Refused(Crash);
    }
    var saved := ledger.CreateAttendance(Draft(sessionId, studentId, now, req.gpsLat, req.gpsLng, photoUrl, status));
    outcome := Accepted(saved.value, distanceMeters);
  }

  // -----------------------------------------------------------------------
  // Older Spring service
  // -----------------------------------------------------------------------

  /**
   * The older Spring check-in: no photo guard, and the geofence runs whenever the teacher
   * position is known, so a missing student coordinate fails while unboxing.
   */
  function LegacyDecide(req: SpringRequest, sessions: seq<Session>, members: seq<ClassMember>,
                        ledger: seq<AttendanceRecord>, studentId: int, now: Time,
                        onTimeMinutes: int, dist: Haversine): (d: Decision)
    ensures !d.InsertThenCrash?
    ensures d.Insert? ==> d.distanceMeters.None?
    ensures d.Insert? ==>
      req.payload.Some? && req.payload.value.sessionId.Some? &&
      d.draft.sessionId == req.payload.value.sessionId.value &&
      FindSession(sessions, d.draft.sessionId).Some? &&
      var s := FindSession(sessions, d.draft.sessionId).value;
      s.status == Open && TokenMatches(s, req.payload.value.qrToken) && !Expired(s, now) &&
      IsMember(members, s.classId, studentId) &&
      !HasAttendance(ledger, d.draft.sessionId, studentId) &&
      d.draft == Draft(d.draft.sessionId, studentId, now, req.gpsLat, req.gpsLng, req.photoUrl,
                       Classify(now, s.sessionDate, onTimeMinutes)) &&
      req.gpsLat.Some? && req.gpsLng.Some?
  {
    if req.payload.None? || req.payload.value.sessionId.None? then Reject(Crash)
    else
      var sessionId := req.payload.value.sessionId.value;
      match FindSession(sessions, sessionId)
      case None => Reject(SessionNotFound)
      case Some(s) =>
        if s.status != Open then Reject(SessionNotOpen)
        else if !TokenMatches(s, req.payload.value.qrToken) then Reject(InvalidQrToken)
        else if Expired(s, now) then Reject(QrExpired)
        else if HasTeacherPosition(s) && (req.gpsLat.None? || req.gpsLng.None?) then Reject(Crash)
        else if HasTeacherPosition(s) &&
                dist(s.teacherLat.value, s.teacherLng.value, req.gpsLat.value, req.gpsLng.value) > MaxDistanceMeters then
          Reject(TooFar(Round(dist(s.teacherLat.value, s.teacherLng.value, req.gpsLat.value, req.gpsLng.value))))
        else if !IsMember(members, s.classId, studentId) then Reject(NotInClass)
        else if HasAttendance(ledger, sessionId, studentId) then Reject(AlreadyCheckedIn)
        else if req.gpsLat.None? || req.gpsLng.None? then Reject(Crash)
        else
          Insert(Draft(sessionId, studentId, now, req.gpsLat, req.gpsLng, req.photoUrl,
                       Classify(now, s.sessionDate, onTimeMinutes)), None)
  }

  /** The older Spring check-in against the tables; it behaves as `LegacyDecide`. */
  method LegacyCheckIn(req: SpringRequest, sessions: SessionTable, members: MemberTable, ledger: AttendanceTable,
                       studentId: int, now: Time, onTimeMinutes: int, dist: Haversine) returns (outcome: Outcome)
    requires ledger.Valid()
    modifies ledger
    ensures ledger.Valid()
    ensures outcome == Realize(LegacyDecide(req, sessions.rows, members.rows, old(ledger.rows), studentId, now,
                                            onTimeMinutes, dist), old(ledger.nextId))
    ensures ledger.rows == Applied(old(ledger.rows), LegacyDecide(req, sessions.rows, members.rows, old(ledger.rows),
                                                                  studentId, now, onTimeMinutes, dist), old(ledger.nextId))
  {
    if req.payload.None? || req.payload.value.sessionId.None? {
      return Refused(Crash);
    }
    var sessionId := req.payload.value.sessionId.value;
    var found := FindSession(sessions.rows, sessionId);
    if found.None? {
      return Refused(SessionNotFound);
    }
    var session := found.value;
    if session.status != Open {
      return Refused(SessionNotOpen);
    }
    if !TokenMatches(session, req.payload.value.qrToken) {
      return Refused(InvalidQrToken);
    }
    if Expired(session, now) {
      return Refused(QrExpired);
    }
    if HasTeacherPosition(session) {
      if req.gpsLat.None? || req.gpsLng.None? {
        return Refused(Crash);
      }
      var d := dist(session.teacherLat.value, session.teacherLng.value, req.gpsLat.value, req.gpsLng.value);
      if d > MaxDistanceMeters {
        return Refused(TooFar(Round(d)));
      }
    }
    if !IsMember(members.rows, session.classId, studentId) {
      return Refused(NotInClass);
    }
    if FindAttendance(ledger.rows, sessionId, studentId).Some? {
      return Refused(AlreadyCheckedIn);
    }
    var status := Classify(now, session.sessionDate, onTimeMinutes);
    if req.gpsLat.None? || req.gpsLng.None? {
      return Refused(Crash);
    }
    var saved := ledger.CreateAttendance(Draft(sessionId, studentId, now, req.gpsLat, req.gpsLng, req.photoUrl, status));
    outcome := Accepted(saved.value, None);
  }

  // -----------------------------------------------------------------------
  // Express controller
  // -----------------------------------------------------------------------

  /** `!payload || !payload.sessionId || !payload.qrToken`: a missing, zero or empty field is falsy. */
  predicate NodePayloadInvalid(p: Option<QrPayload>)
  {
    p.None? || p.value.sessionId.None? || p.value.sessionId.value == 0 ||
    p.value.qrToken.None? || p.value.qrToken.value == ""
  }

  /** A coordinate is usable when it was sent and parses to a finite number. */
  predicate UsableCoordinate(x: Option<Float>)
  {
    x.Some? && x.value.Finite?
  }

  /** `!session.qrToken || session.qrToken !== qrToken`. */
  predicate NodeTokenMatches(s: Session, presented: string)
  {
    s.qrToken.Some? && s.qrToken.value != "" && s.qrToken.value == presented
  }

  /** `photoUrl || null`: an empty string is stored as null. */
  function NodePhoto(photoUrl: Option<string>): (r: Option<string>)
    ensures r.Some? <==> photoUrl.Some? && photoUrl.value != ""
    ensures r.Some? ==> r == photoUrl
  {
    if photoUrl.Some? && photoUrl.value != "" then photoUrl else None
  }

  /**
   * The Express check-in. Guard order: payload, GPS, session, status, token, expiry,
   * distance (only when the teacher position is stored), membership, duplicate.
   */
  function NodeDecide(req: NodeRequest, sessions: seq<Session>, members: seq<ClassMember>,
                      ledger: seq<AttendanceRecord>, studentId: int, now: Time,
                      onTimeMinutes: int, dist: Haversine): (d: Decision)
    ensures !d.InsertThenCrash?
    ensures d.Reject? ==> d.reason != Crash && d.reason != PhotoIsDataUrl
    ensures d.Insert? ==> d.distanceMeters.None?
    ensures d.Insert? ==>
      !NodePayloadInvalid(req.payload) && UsableCoordinate(req.gpsLat) && UsableCoordinate(req.gpsLng) &&
      d.draft.sessionId == req.payload.value.sessionId.value &&
      FindSession(sessions, d.draft.sessionId).Some? &&
      var s := FindSession(sessions, d.draft.sessionId).value;
      s.status == Open && NodeTokenMatches(s, req.payload.value.qrToken.value) && !Expired(s, now) &&
      IsMember(members, s.classId, studentId) &&
      !HasAttendance(ledger, d.draft.sessionId, studentId) &&
      d.draft == Draft(d.draft.sessionId, studentId, now, Some(req.gpsLat.value.value), Some(req.gpsLng.value.value),
                       NodePhoto(req.photoUrl), Classify(now, s.sessionDate, onTimeMinutes))
  {
    if NodePayloadInvalid(req.payload) then Reject(InvalidQrPayload)
    else if !UsableCoordinate(req.gpsLat) || !UsableCoordinate(req.gpsLng) then Reject(GpsRequired)
    else
      var sessionId := req.payload.value.sessionId.value;
      var lat := req.gpsLat.value.value;
      var lng := req.gpsLng.value.value;
      match FindSession(sessions, sessionId)
      case None => Reject(SessionNotFound)
      case Some(s) =>
        if s.status != Open then Reject(SessionNotOpen)
        else if !NodeTokenMatches(s, req.payload.value.qrToken.value) then Reject(InvalidQrToken)
        else if Expired(s, now) then Reject(QrExpired)
        else if HasTeacherPosition(s) && dist(s.teacherLat.value, s.teacherLng.value, lat, lng) > MaxDistanceMeters then
          Reject(TooFar(Round(dist(s.teacherLat.value, s.teacherLng.value, lat, lng))))
        else if !IsMember(members, s.classId, studentId) then Reject(NotInClass)
        else if HasAttendance(ledger, sessionId, studentId) then Reject(AlreadyCheckedIn)
        else
          Insert(Draft(sessionId, studentId, now, Some(lat), Some(lng), NodePhoto(req.photoUrl),
                       Classify(now, s.sessionDate, onTimeMinutes)), None)
  }

  /** The Express check-in against the tables; it behaves as `NodeDecide`. */
  method NodeCheckIn(req: NodeRequest, sessions: SessionTable, members: MemberTable, ledger: AttendanceTable,
                     studentId: int, now: Time, onTimeMinutes: int, dist: Haversine) returns (outcome: Outcome)
    requires ledger.Valid()
    modifies ledger
    ensures ledger.Valid()
    ensures outcome == Realize(NodeDecide(req, sessions.rows, members.rows, old(ledger.rows), studentId, now,
                                          onTimeMinutes, dist), old(ledger.nextId))
    ensures ledger.rows == Applied(old(ledger.rows), NodeDecide(req, sessions.rows, members.rows, old(ledger.rows),
                                                                studentId, now, onTimeMinutes, dist), old(ledger.nextId))
  {
    if NodePayloadInvalid(req.payload) {
      return Refused(InvalidQrPayload);
    }
    if !UsableCoordinate(req.gpsLat) || !UsableCoordinate(req.gpsLng) {
      return Refused(GpsRequired);
    }
    var lat := req.gpsLat.value.value;
    var lng := req.gpsLng.value.value;
    var sessionId := req.payload.value.sessionId.value;
    var qrToken := req.payload.value.qrToken.value;
    var found := FindSession(sessions.rows, sessionId);
    if found.None? {
      return Refused(SessionNotFound);
    }
    var session := found.value;
    if session.status != Open {
      return Refused(SessionNotOpen);
    }
    if !NodeTokenMatches(session, qrToken) {
      return Refused(InvalidQrToken);
    }
    if Expired(session, now) {
      return Refused(QrExpired);
    }
    if HasTeacherPosition(session) {
      var d := dist(session.teacherLat.value, session.teacherLng.value, lat, lng);
      if d > MaxDistanceMeters {
        return Refused(TooFar(Round(d)));
      }
    }
    if !IsMember(members.rows, session.classId, studentId) {
      return Refused(NotInClass);
    }
    if FindAttendance(ledger.rows, sessionId, studentId).Some? {
      return Refused(AlreadyCheckedIn);
    }
    var status := Classify(now, session.sessionDate, onTimeMinutes);
    var saved := ledger.CreateAttendance(Draft(sessionId, studentId, now, Some(lat), Some(lng), NodePhoto(req.photoUrl), status));
    outcome := Accepted(saved.value, None);
  }
}
