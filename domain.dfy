/**
 * Entities of the attendance system: classes, memberships, sessions and attendance records,
 * with the constants and the on-time rule shared by every check-in pipeline.
 * Instants are integer milliseconds; coordinates are reals.
 */
module Domain {
  import opened Common

  /** An instant, in milliseconds. */
  type Time = int

  const MsPerMinute: int := 60000

  /** Largest accepted distance between student and teacher, in metres. */
  const MaxDistanceMeters: real := 50.0

  /** Default of the on-time window of the Node backend (ATTENDANCE_ON_TIME_MINUTES). */
  const DefaultOnTimeMinutes: int := 15

  datatype Role = Teacher | Student

  datatype SessionStatus = Open | Closed

  datatype AttendanceStatus = OnTime | Late | Manual | Absent

  datatype ClassEntity = ClassEntity(id: int, className: string, code: string, teacherId: int, createdAt: Time)

  datatype ClassMember = ClassMember(id: int, classId: int, studentId: int, joinedAt: Time)

  datatype Session = Session(
    id: int,
    classId: int,
    title: string,
    sessionDate: Time,
    status: SessionStatus,
    qrToken: Option<string>,
    qrTokenExpiresAt: Option<Time>,
    teacherLat: Option<real>,
    teacherLng: Option<real>)

  /** The columns of an attendance row before the database assigns its id. */
  datatype Draft = Draft(
    sessionId: int,
    studentId: int,
    checkInTime: Time,
    gpsLat: Option<real>,
    gpsLng: Option<real>,
    photoUrl: Option<string>,
    status: AttendanceStatus)

  datatype AttendanceRecord = AttendanceRecord(
    id: int,
    sessionId: int,
    studentId: int,
    checkInTime: Time,
    gpsLat: Option<real>,
    gpsLng: Option<real>,
    photoUrl: Option<string>,
    status: AttendanceStatus)

  /** The row a draft becomes once it is stored under `id`. */
  function Stamp(d: Draft, id: int): (r: AttendanceRecord)
    ensures r.id == id && r.sessionId == d.sessionId && r.studentId == d.studentId
    ensures r.checkInTime == d.checkInTime && r.status == d.status && r.photoUrl == d.photoUrl
    ensures r.gpsLat == d.gpsLat && r.gpsLng == d.gpsLng
  {
    AttendanceRecord(id, d.sessionId, d.studentId, d.checkInTime, d.gpsLat, d.gpsLng, d.photoUrl, d.status)
  }

  /** End of the on-time window of a session: its start plus the window in minutes. */
  function OnTimeBoundary(sessionDate: Time, onTimeMinutes: int): Time
  {
    sessionDate + onTimeMinutes * MsPerMinute
  }

  /** A check-in strictly after the boundary is late, one at or before it is on time. */
  function Classify(now: Time, sessionDate: Time, onTimeMinutes: int): (r: AttendanceStatus)
    ensures r == OnTime || r == Late
    ensures r == Late <==> now > OnTimeBoundary(sessionDate, onTimeMinutes)
  {
    if now > OnTimeBoundary(sessionDate, onTimeMinutes) then Late else OnTime
  }

  /** The boundary instant itself is on time; one millisecond later is late. */
  lemma BoundaryIsInclusive(sessionDate: Time, onTimeMinutes: int)
    ensures Classify(OnTimeBoundary(sessionDate, onTimeMinutes), sessionDate, onTimeMinutes) == OnTime
    ensures Classify(OnTimeBoundary(sessionDate, onTimeMinutes) + 1, sessionDate, onTimeMinutes) == Late
  {
  }

  /**
   * Counted in whole minutes after the start, a check-in is on time exactly up to the window's
   * last minute: `k` minutes after the start is LATE iff `k` exceeds the window (15 by default).
   */
  lemma ClassifyByMinutes(sessionDate: Time, k: int, onTimeMinutes: int)
    ensures Classify(sessionDate + k * MsPerMinute, sessionDate, onTimeMinutes) == Late <==> k > onTimeMinutes
  {
  }

  /** Checking in later never turns a late arrival into an on-time one. */
  lemma ClassifyMonotone(t1: Time, t2: Time, sessionDate: Time, onTimeMinutes: int)
    requires t1 <= t2
    ensures Classify(t1, sessionDate, onTimeMinutes) == Late ==> Classify(t2, sessionDate, onTimeMinutes) == Late
  {
  }
}
