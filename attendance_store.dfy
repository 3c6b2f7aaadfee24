/**
 * The Attendance table. A (session, student) pair has at most one row (constraint
 * uq_session_student); inserting a second one fails and stores nothing.
 */
module AttendanceStore {
  import opened Common
  import opened Domain
  import opened Sorting
  import opened SessionStore

  /** No two rows share a (sessionId, studentId) pair. */
  predicate UniqueAttendanceKeys(rows: seq<AttendanceRecord>)
  {
    forall i, j :: 0 <= i < j < |rows| ==>
      rows[i].sessionId != rows[j].sessionId || rows[i].studentId != rows[j].studentId
  }

  predicate DistinctAttendanceIds(rows: seq<AttendanceRecord>)
  {
    forall i, j :: 0 <= i < j < |rows| ==> rows[i].id != rows[j].id
  }

  predicate HasAttendance(rows: seq<AttendanceRecord>, sessionId: int, studentId: int)
  {
    exists a :: a in rows && a.sessionId == sessionId && a.studentId == studentId
  }

  /** `SELECT * FROM Attendance WHERE sessionId = ? AND studentId = ?`, first row or null. */
  function FindAttendance(rows: seq<AttendanceRecord>, sessionId: int, studentId: int): (r: Option<AttendanceRecord>)
    ensures r.None? <==> !HasAttendance(rows, sessionId, studentId)
    ensures r.Some? ==> r.value in rows && r.value.sessionId == sessionId && r.value.studentId == studentId
  {
    if rows == [] then None
    else if rows[0].sessionId == sessionId && rows[0].studentId == studentId then Some(rows[0])
    else FindAttendance(rows[1..], sessionId, studentId)
  }

  /** `WHERE sessionId = ?`, in table order. */
  function AttendanceOfSession(rows: seq<AttendanceRecord>, sessionId: int): (r: seq<AttendanceRecord>)
    ensures forall a :: a in r <==> a in rows && a.sessionId == sessionId
  {
    if rows == [] then []
    else if rows[0].sessionId == sessionId then [rows[0]] + AttendanceOfSession(rows[1..], sessionId)
    else AttendanceOfSession(rows[1..], sessionId)
  }

  /** Some session of `sessions` has id `sessionId` and belongs to class `classId`. */
  predicate SessionOfClass(sessions: seq<Session>, sessionId: int, classId: int)
  {
    exists s :: s in sessions && s.id == sessionId && s.classId == classId
  }

  /** `Attendance JOIN Sessions ON a.sessionId = s.id WHERE s.classId = ?`, in table order. */
  function AttendanceOfClass(rows: seq<AttendanceRecord>, sessions: seq<Session>, classId: int): (r: seq<AttendanceRecord>)
    ensures |r| <= |rows|
    ensures forall a :: a in r <==> a in rows && SessionOfClass(sessions, a.sessionId, classId)
  {
    if rows == [] then []
    else if SessionOfClass(sessions, rows[0].sessionId, classId) then
      [rows[0]] + AttendanceOfClass(rows[1..], sessions, classId)
    else AttendanceOfClass(rows[1..], sessions, classId)
  }

  function CheckInAsc(a: AttendanceRecord): int { a.checkInTime }

  /** One row of a student's history in a class: a session with the student's attendance, if any. */
  datatype HistoryRow = HistoryRow(
    sessionId: int,
    title: string,
    sessionDate: Time,
    status: Option<AttendanceStatus>,
    checkInTime: Option<Time>)

  /** `Sessions LEFT JOIN Attendance ON a.sessionId = s.id AND a.studentId = ?` for one session. */
  function JoinRow(s: Session, rows: seq<AttendanceRecord>, studentId: int): (r: HistoryRow)
    ensures r.sessionId == s.id && r.title == s.title && r.sessionDate == s.sessionDate
    ensures r.status.None? <==> !HasAttendance(rows, s.id, studentId)
    ensures r.checkInTime.None? <==> !HasAttendance(rows, s.id, studentId)
    ensures HasAttendance(rows, s.id, studentId) ==>
      r.status == Some(FindAttendance(rows, s.id, studentId).value.status) &&
      r.checkInTime == Some(FindAttendance(rows, s.id, studentId).value.checkInTime)
  {
    match FindAttendance(rows, s.id, studentId)
    case None => HistoryRow(s.id, s.title, s.sessionDate, None, None)
    case Some(a) => HistoryRow(s.id, s.title, s.sessionDate, Some(a.status), Some(a.checkInTime))
  }

  function LeftJoin(sessions: seq<Session>, rows: seq<AttendanceRecord>, studentId: int): (r: seq<HistoryRow>)
    ensures |r| == |sessions|
    ensures forall i :: 0 <= i < |sessions| ==> r[i] == JoinRow(sessions[i], rows, studentId)
  {
    if sessions == [] then [] else [JoinRow(sessions[0], rows, studentId)] + LeftJoin(sessions[1..], rows, studentId)
  }

  /** Joining keeps the sessions' date order. */
  lemma JoinKeepsOrder(ordered: seq<Session>, rows: seq<AttendanceRecord>, studentId: int)
    requires SortedBy(ordered, DateAsc)
    ensures var r := LeftJoin(ordered, rows, studentId);
      forall i, j :: 0 <= i < j < |r| ==> r[i].sessionDate <= r[j].sessionDate
  {
    var r := LeftJoin(ordered, rows, studentId);
    forall i, j | 0 <= i < j < |r| ensures r[i].sessionDate <= r[j].sessionDate {
      assert DateAsc(ordered[i]) <= DateAsc(ordered[j]);
    }
  }

  /** Joining sessions of a class gives rows about sessions of that class. */
  lemma JoinKeepsClass(sessions: seq<Session>, classId: int, ordered: seq<Session>,
                       rows: seq<AttendanceRecord>, studentId: int)
    requires forall s :: s in ordered <==> s in sessions && s.classId == classId
    ensures var r := LeftJoin(ordered, rows, studentId);
      forall i :: 0 <= i < |r| ==> SessionOfClass(sessions, r[i].sessionId, classId)
  {
    var r := LeftJoin(ordered, rows, studentId);
    forall i | 0 <= i < |r| ensures SessionOfClass(sessions, r[i].sessionId, classId) {
      assert ordered[i] in ordered;
    }
  }

  /** The sessions of a class, oldest first: the left side of the history query. */
  function ClassSessionsByDate(sessions: seq<Session>, classId: int): (o: seq<Session>)
    ensures SortedBy(o, DateAsc)
    ensures multiset(o) == multiset(SessionsOfClass(sessions, classId))
    ensures forall s :: s in o <==> s in sessions && s.classId == classId
  {
    SortByKeepsElements(SessionsOfClass(sessions, classId), DateAsc);
    SortBy(SessionsOfClass(sessions, classId), DateAsc)
  }

  /** With distinct session ids, the sessions of a class in date order have distinct ids. */
  lemma ClassSessionsByDateDistinct(sessions: seq<Session>, classId: int)
    requires DistinctSessionIds(sessions)
    ensures DistinctBy(ClassSessionsByDate(sessions, classId), SessionIdOf)
  {
    var base := SessionsOfClass(sessions, classId);
    SessionsOfClassKeepsDistinct(sessions, classId);
    assert DistinctBy(base, SessionIdOf);
    SortByKeepsDistinct(base, DateAsc, SessionIdOf);
  }

  /**
   * Joining sessions with distinct ids, which are exactly the sessions of a class, lists every
   * session of the class once, each line being the join of the session with its id.
   */
  lemma JoinListsEachSessionOnce(sessions: seq<Session>, o: seq<Session>, ledger: seq<AttendanceRecord>,
                                 studentId: int, classId: int, r: seq<HistoryRow>)
    requires DistinctSessionIds(sessions) && DistinctBy(o, SessionIdOf)
    requires forall s :: s in o <==> s in sessions && s.classId == classId
    requires |r| == |o| && forall i :: 0 <= i < |r| ==> r[i] == JoinRow(o[i], ledger, studentId)
    ensures forall i, j :: 0 <= i < j < |r| ==> r[i].sessionId != r[j].sessionId
    ensures forall s :: s in sessions && s.classId == classId ==> exists i :: 0 <= i < |r| && r[i].sessionId == s.id
    ensures forall i :: 0 <= i < |r| ==>
      FindSession(sessions, r[i].sessionId) == Some(o[i]) && o[i].classId == classId
  {
    forall i, j | 0 <= i < j < |r| ensures r[i].sessionId != r[j].sessionId {
      assert SessionIdOf(o[i]) != SessionIdOf(o[j]);
    }
    forall s | s in sessions && s.classId == classId ensures exists i :: 0 <= i < |r| && r[i].sessionId == s.id {
      var k :| 0 <= k < |o| && o[k] == s;
      assert r[k].sessionId == s.id;
    }
    forall i | 0 <= i < |r| ensures FindSession(sessions, r[i].sessionId) == Some(o[i]) && o[i].classId == classId {
      assert o[i] in o;
      var k :| 0 <= k < |sessions| && sessions[k] == o[i];
      FindSessionUnique(sessions, k);
    }
  }

  /**
   * With distinct session ids (the primary key), a student's history in a class lists every
   * session of the class exactly once, and each line is the left join of the session with that id.
   */
  lemma HistoryListsEachSessionOnce(sessions: seq<Session>, ledger: AttendanceTable, studentId: int, classId: int)
    requires DistinctSessionIds(sessions)
    ensures var r := ledger.GetByStudentAndClass(sessions, studentId, classId);
      forall i, j :: 0 <= i < j < |r| ==> r[i].sessionId != r[j].sessionId
    ensures var r := ledger.GetByStudentAndClass(sessions, studentId, classId);
      forall s :: s in sessions && s.classId == classId ==> exists i :: 0 <= i < |r| && r[i].sessionId == s.id
    ensures var r := ledger.GetByStudentAndClass(sessions, studentId, classId);
      forall i :: 0 <= i < |r| ==>
        FindSession(sessions, r[i].sessionId).Some? &&
        FindSession(sessions, r[i].sessionId).value.classId == classId &&
        r[i] == JoinRow(FindSession(sessions, r[i].sessionId).value, ledger.rows, studentId)
  {
    var o := ClassSessionsByDate(sessions, classId);
    var r := ledger.GetByStudentAndClass(sessions, studentId, classId);
    ClassSessionsByDateDistinct(sessions, classId);
    JoinListsEachSessionOnce(sessions, o, ledger.rows, studentId, classId, r);
  }

  class AttendanceTable {
    var rows: seq<AttendanceRecord>
    var nextId: int

    ghost predicate Valid()
      reads this
    {
      UniqueAttendanceKeys(rows) && DistinctAttendanceIds(rows) && forall a :: a in rows ==> a.id < nextId
    }

    constructor ()
      ensures Valid() && rows == [] && nextId == 1
    {
      rows := [];
      nextId := 1;
    }

    /** INSERT of a check-in; a second row for the same (session, student) is refused by the database. */
    method CreateAttendance(d: Draft) returns (r: Option<AttendanceRecord>)
      requires Valid()
      modifies this
      ensures Valid()
      ensures r.None? <==> HasAttendance(old(rows), d.sessionId, d.studentId)
      ensures r.None? ==> rows == old(rows) && nextId == old(nextId)
      ensures r.Some? ==> r.value == Stamp(d, old(nextId)) && rows == old(rows) + [r.value] && nextId == old(nextId) + 1
    {
      if FindAttendance(rows, d.sessionId, d.studentId).Some? {
        r := None;
      } else {
        var a := Stamp(d, nextId);
        rows := rows + [a];
        nextId := nextId + 1;
        r := Some(a);
      }
    }

    /** Check-ins of a session in arrival order (`ORDER BY checkInTime ASC`). */
    function GetBySession(sessionId: int): (r: seq<AttendanceRecord>)
      reads this
      ensures forall i, j :: 0 <= i < j < |r| ==> r[i].checkInTime <= r[j].checkInTime
      ensures multiset(r) == multiset(AttendanceOfSession(rows, sessionId))
    {
      SortBy(AttendanceOfSession(rows, sessionId), CheckInAsc)
    }

    /**
     * A student's history in a class: one row per session of the class, oldest session first,
     * carrying the student's status and check-in time where a row exists.
     */
    function GetByStudentAndClass(sessions: seq<Session>, studentId: int, classId: int): (r: seq<HistoryRow>)
      reads this
      ensures |r| == |SessionsOfClass(sessions, classId)|
      ensures var o := ClassSessionsByDate(sessions, classId);
        |r| == |o| && forall i :: 0 <= i < |r| ==> r[i] == JoinRow(o[i], rows, studentId)
      ensures forall i, j :: 0 <= i < j < |r| ==> r[i].sessionDate <= r[j].sessionDate
      ensures forall i :: 0 <= i < |r| ==>
        SessionOfClass(sessions, r[i].sessionId, classId) &&
        (r[i].status.None? <==> !HasAttendance(rows, r[i].sessionId, studentId)) &&
        (HasAttendance(rows, r[i].sessionId, studentId) ==>
          r[i].status == Some(FindAttendance(rows, r[i].sessionId, studentId).value.status))
    {
      var ordered := ClassSessionsByDate(sessions, classId);
      JoinKeepsOrder(ordered, rows, studentId);
      JoinKeepsClass(sessions, classId, ordered, rows, studentId);
      LeftJoin(ordered, rows, studentId)
    }

    /** Every check-in of a session of the class. */
    function GetByClass(sessions: seq<Session>, classId: int): (r: seq<AttendanceRecord>)
      reads this
      ensures forall a :: a in r <==> a in rows && SessionOfClass(sessions, a.sessionId, classId)
    {
      AttendanceOfClass(rows, sessions, classId)
    }
  }
}
