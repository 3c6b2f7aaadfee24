/**
 * What opening and closing a session means for the check-ins that follow: the QR content of an
 * opened session is accepted until its expiry, a closed session accepts nothing, Express never
 * records LATE while Spring does for sessions opened late, and Spring-opened sessions never reach
 * the failing answer of the Spring check-in.
 */
module LifecycleProperties {
  import opened Common
  import opened Domain
  import opened SessionStore
  import opened MemberStore
  import opened AttendanceStore
  import opened Codes
  import opened CheckIn
  import opened Lifecycle

  /**
   * Spring: the QR content of a session opened at `openedAt` is accepted from a member within the
   * geofence up to the expiry, with the distance reported; the check-in is LATE exactly when it
   * comes after the on-time boundary of the session, which an opening after that boundary allows.
   */
  lemma SpringOpenedSessionAdmitsScan(sessions: seq<Session>, members: seq<ClassMember>, ledger: seq<AttendanceRecord>,
                                      s: Session, token: string, openedAt: Time, onTimeMinutes: int,
                                      lat: real, lng: real, gpsLat: real, gpsLng: real,
                                      studentId: int, now: Time, dist: Haversine)
    requires FindSession(sessions, s.id) == Some(OpenedRow(s, token, SpringExpiry(openedAt, onTimeMinutes), lat, lng))
    requires now <= SpringExpiry(openedAt, onTimeMinutes)
    requires dist(lat, lng, gpsLat, gpsLng) <= MaxDistanceMeters
    requires IsMember(members, s.classId, studentId) && !HasAttendance(ledger, s.id, studentId)
    ensures var req := SpringRequest(Some(QrPayload(Some(s.id), Some(token))), Some(gpsLat), Some(gpsLng), None);
      var d := SpringDecide(req, sessions, members, ledger, studentId, now, onTimeMinutes, dist);
      d.Insert? && d.draft.sessionId == s.id &&
      d.distanceMeters == Some(Round(dist(lat, lng, gpsLat, gpsLng))) &&
      (d.draft.status == Late <==> now > OnTimeBoundary(s.sessionDate, onTimeMinutes)) &&
      SpringDecideAsWritten(req, sessions, members, ledger, studentId, now, onTimeMinutes, dist) == d
  {
    var row := OpenedRow(s, token, SpringExpiry(openedAt, onTimeMinutes), lat, lng);
    assert HasTeacherPosition(row);
    assert TokenMatches(row, Some(token));
  }

  /**
   * Express: the QR content of an opened session (its id and the hex token) is accepted from a
   * member within the geofence up to the expiry, and the check-in is ON_TIME.
   */
  lemma NodeOpenedSessionAdmitsScan(sessions: seq<Session>, members: seq<ClassMember>, ledger: seq<AttendanceRecord>,
                                    s: Session, tokenBytes: seq<int>, onTimeMinutes: int,
                                    lat: real, lng: real, gpsLat: real, gpsLng: real,
                                    studentId: int, now: Time, dist: Haversine)
    requires |tokenBytes| == 16 && forall i :: 0 <= i < |tokenBytes| ==> IsByte(tokenBytes[i])
    requires s.id != 0
    requires FindSession(sessions, s.id) ==
      Some(OpenedRow(s, HexToken(tokenBytes), NodeExpiry(s.sessionDate, onTimeMinutes), lat, lng))
    requires now <= NodeExpiry(s.sessionDate, onTimeMinutes)
    requires dist(lat, lng, gpsLat, gpsLng) <= MaxDistanceMeters
    requires IsMember(members, s.classId, studentId) && !HasAttendance(ledger, s.id, studentId)
    ensures var req := NodeRequest(Some(QrPayload(Some(s.id), Some(HexToken(tokenBytes)))),
                                   Some(Finite(gpsLat)), Some(Finite(gpsLng)), None);
      var d := NodeDecide(req, sessions, members, ledger, studentId, now, onTimeMinutes, dist);
      d.Insert? && d.draft.sessionId == s.id && d.draft.status == OnTime
  {
    assert |HexToken(tokenBytes)| == 32;
    var row := OpenedRow(s, HexToken(tokenBytes), NodeExpiry(s.sessionDate, onTimeMinutes), lat, lng);
    assert HasTeacherPosition(row);
    assert NodeTokenMatches(row, HexToken(tokenBytes));
  }

  /**
   * Express never records LATE: it lets the token expire at the on-time boundary, so any check-in
   * it accepts is on time (whatever request, whatever tables opened the Express way).
   */
  lemma ExpressNeverRecordsLate(req: NodeRequest, sessions: seq<Session>, members: seq<ClassMember>,
                                ledger: seq<AttendanceRecord>, studentId: int, now: Time,
                                onTimeMinutes: int, dist: Haversine)
    requires ExpiresAtBoundary(sessions, onTimeMinutes)
    ensures var d := NodeDecide(req, sessions, members, ledger, studentId, now, onTimeMinutes, dist);
      d.Insert? ==> d.draft.status == OnTime
  {
    var d := NodeDecide(req, sessions, members, ledger, studentId, now, onTimeMinutes, dist);
    if d.Insert? {
      var s := FindSession(sessions, d.draft.sessionId).value;
      assert s in sessions;
    }
  }

  /** Closing keeps the Express expiry invariant: it opens nothing. */
  lemma ClosingKeepsBoundary(before: seq<Session>, after: seq<Session>, onTimeMinutes: int)
    requires |after| == |before|
    requires forall i :: 0 <= i < |after| ==> after[i] == before[i] || after[i] == ClosedRow(before[i])
    requires ExpiresAtBoundary(before, onTimeMinutes)
    ensures ExpiresAtBoundary(after, onTimeMinutes)
  {
    forall s | s in after && s.status == Open
      ensures s.qrTokenExpiresAt == Some(NodeExpiry(s.sessionDate, onTimeMinutes))
    {
      var i :| 0 <= i < |after| && after[i] == s;
      assert before[i] in before;
    }
  }

  /** Closing keeps the Spring invariant that open sessions carry the teacher position. */
  lemma ClosingKeepsPositions(before: seq<Session>, after: seq<Session>)
    requires |after| == |before|
    requires forall i :: 0 <= i < |after| ==> after[i] == before[i] || after[i] == ClosedRow(before[i])
    requires PositionedWhenOpen(before)
    ensures PositionedWhenOpen(after)
  {
    forall s | s in after && s.status == Open ensures HasTeacherPosition(s) {
      var i :| 0 <= i < |after| && after[i] == s;
      assert before[i] in before;
    }
  }

  /**
   * On sessions opened by the newer Spring service the check-in never takes the failing path of
   * the service as written: it answers exactly as the corrected one.
   */
  lemma SpringOpenedNeverCrashes(req: SpringRequest, sessions: seq<Session>, members: seq<ClassMember>,
                                 ledger: seq<AttendanceRecord>, studentId: int, now: Time,
                                 onTimeMinutes: int, dist: Haversine)
    requires PositionedWhenOpen(sessions)
    ensures SpringDecideAsWritten(req, sessions, members, ledger, studentId, now, onTimeMinutes, dist) ==
            SpringDecide(req, sessions, members, ledger, studentId, now, onTimeMinutes, dist)
  {
    var d := SpringDecide(req, sessions, members, ledger, studentId, now, onTimeMinutes, dist);
    if d.Insert? {
      var s := FindSession(sessions, d.draft.sessionId).value;
      assert s in sessions;
    }
  }

  /** A closed session refuses every check-in, in all three implementations. */
  lemma ClosedSessionAcceptsNothing(sessions: seq<Session>, members: seq<ClassMember>, ledger: seq<AttendanceRecord>,
                                    s: Session, sreq: SpringRequest, nreq: NodeRequest,
                                    studentId: int, now: Time, onTimeMinutes: int, dist: Haversine)
    requires FindSession(sessions, s.id) == Some(ClosedRow(s))
    requires sreq.payload.Some? && sreq.payload.value.sessionId == Some(s.id)
    requires nreq.payload.Some? && nreq.payload.value.sessionId == Some(s.id)
    ensures !SpringDecide(sreq, sessions, members, ledger, studentId, now, onTimeMinutes, dist).Insert?
    ensures !LegacyDecide(sreq, sessions, members, ledger, studentId, now, onTimeMinutes, dist).Insert?
    ensures !NodeDecide(nreq, sessions, members, ledger, studentId, now, onTimeMinutes, dist).Insert?
  {
  }
}
