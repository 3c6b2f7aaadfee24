/**
 * The per-class attendance report. Both backends count, for every student of the class, the
 * check-ins, the on-time and the late ones; they differ in how they count absences: Spring takes
 * `max(totalSessions - present, 0)`, Express counts the (session, student) pairs without a
 * check-in. With at most one check-in per (session, student) the two counts coincide.
 */
module Report {
  import opened Common
  import opened Domain
  import opened Sorting
  import opened SessionStore
  import opened MemberStore
  import opened ClassStore
  import opened AttendanceStore
  import opened Lifecycle

  /** One entry of `perStudent`. Names and e-mails of the students are not modelled. */
  datatype StudentStats = StudentStats(
    studentId: int,
    totalSessions: int,
    onTime: int,
    late: int,
    present: int,
    absent: int)

  datatype ClassReport = ClassReport(
    cls: ClassEntity,
    sessions: seq<Session>,
    students: seq<int>,
    perStudent: seq<StudentStats>)

  // -----------------------------------------------------------------------
  // Counting (from the end, in the order the loops visit the rows)
  // -----------------------------------------------------------------------

  /** Check-ins of `studentId` among `rows`. */
  function CountPresent(rows: seq<AttendanceRecord>, studentId: int): (n: nat)
    ensures n <= |rows|
  {
    if rows == [] then 0
    else CountPresent(rows[..|rows| - 1], studentId) + (if rows[|rows| - 1].studentId == studentId then 1 else 0)
  }

  /** Check-ins of `studentId` among `rows` that carry `status`. */
  function CountStatus(rows: seq<AttendanceRecord>, studentId: int, status: AttendanceStatus): (n: nat)
    ensures n <= CountPresent(rows, studentId)
  {
    if rows == [] then 0
    else
      var last := rows[|rows| - 1];
      CountStatus(rows[..|rows| - 1], studentId, status) + (if last.studentId == studentId && last.status == status then 1 else 0)
  }

  /** Sessions of `sessions` for which `studentId` has no check-in in `rows`. */
  function CountAbsent(sessions: seq<Session>, rows: seq<AttendanceRecord>, studentId: int): (n: nat)
    ensures n <= |sessions|
  {
    if sessions == [] then 0
    else
      CountAbsent(sessions[..|sessions| - 1], rows, studentId) +
      (if HasAttendance(rows, sessions[|sessions| - 1].id, studentId) then 0 else 1)
  }

  /** `Math.max(n, 0)`. */
  function Max0(n: int): (r: nat)
    ensures r >= n && (r == n || r == 0)
  {
    if n > 0 then n else 0
  }

  /** The counters once every row has been visited, before absences are filled in. */
  function Tallied(studentId: int, total: int, rows: seq<AttendanceRecord>): StudentStats
  {
    StudentStats(studentId, total, CountStatus(rows, studentId, OnTime), CountStatus(rows, studentId, Late),
                 CountPresent(rows, studentId), 0)
  }

  /** Spring: absences are what is left of the sessions after the check-ins, never negative. */
  function SpringStats(studentId: int, total: int, rows: seq<AttendanceRecord>): StudentStats
  {
    Tallied(studentId, total, rows).(absent := Max0(total - CountPresent(rows, studentId)))
  }

  /** Express: absences are the sessions of the class without a check-in of the student. */
  function NodeStats(studentId: int, sessions: seq<Session>, rows: seq<AttendanceRecord>): StudentStats
  {
    Tallied(studentId, |sessions|, rows).(absent := CountAbsent(sessions, rows, studentId))
  }

  function StatsId(s: StudentStats): int { s.studentId }

  /** `attendanceMap[sessionId][studentId]` is set. */
  predicate Marked(marks: map<int, map<int, AttendanceStatus>>, sessionId: int, studentId: int)
  {
    sessionId in marks && studentId in marks[sessionId]
  }

  lemma HasAttendanceAppend(rows: seq<AttendanceRecord>, x: AttendanceRecord, sessionId: int, studentId: int)
    ensures HasAttendance(rows + [x], sessionId, studentId) <==>
      HasAttendance(rows, sessionId, studentId) || (x.sessionId == sessionId && x.studentId == studentId)
  {
    if HasAttendance(rows + [x], sessionId, studentId) {
      var a :| a in rows + [x] && a.sessionId == sessionId && a.studentId == studentId;
      assert a in rows || a == x;
    }
    if HasAttendance(rows, sessionId, studentId) {
      var a :| a in rows && a.sessionId == sessionId && a.studentId == studentId;
      assert a in rows + [x];
    }
    if x.sessionId == sessionId && x.studentId == studentId {
      assert x in rows + [x];
    }
  }

  // -----------------------------------------------------------------------
  // The loops of the report
  // -----------------------------------------------------------------------

  /** One more row bumps the counters of its own student only: present, and on-time or late by its status. */
  lemma TalliedStep(init: seq<AttendanceRecord>, a: AttendanceRecord, total: int)
    ensures var t := Tallied(a.studentId, total, init);
      Tallied(a.studentId, total, init + [a]) ==
        t.(present := t.present + 1,
           onTime := t.onTime + (if a.status == OnTime then 1 else 0),
           late := t.late + (if a.status == Late then 1 else 0))
    ensures forall st :: st != a.studentId ==> Tallied(st, total, init + [a]) == Tallied(st, total, init)
  {
    assert (init + [a])[..|init|] == init;
  }

  /** `attendanceMap[sessionId][studentId] = status`, creating the inner map when needed. */
  function WithMark(marks: map<int, map<int, AttendanceStatus>>, a: AttendanceRecord): map<int, map<int, AttendanceStatus>>
  {
    var inner := if a.sessionId in marks then marks[a.sessionId] else map[];
    marks[a.sessionId := inner[a.studentId := a.status]]
  }

  /** Marking a row keeps the marks equal to the check-ins seen so far. */
  lemma MarkStep(marks: map<int, map<int, AttendanceStatus>>, init: seq<AttendanceRecord>, a: AttendanceRecord)
    requires forall sid, st :: Marked(marks, sid, st) <==> HasAttendance(init, sid, st)
    ensures forall sid, st :: Marked(WithMark(marks, a), sid, st) <==> HasAttendance(init + [a], sid, st)
  {
    forall sid, st ensures Marked(WithMark(marks, a), sid, st) <==> HasAttendance(init + [a], sid, st) {
      HasAttendanceAppend(init, a, sid, st);
    }
  }

  /** The first loop of the report: a zeroed entry per student, with the number of sessions. */
  method ZeroedStats(students: seq<int>, total: int) returns (per: map<int, StudentStats>)
    ensures forall st :: st in per <==> st in students
    ensures forall st :: st in per ==> per[st] == StudentStats(st, total, 0, 0, 0, 0)
  {
    per := map[];
    var k := 0;
    while k < |students|
      invariant 0 <= k <= |students|
      invariant forall st :: st in per <==> st in students[..k]
      invariant forall st :: st in per ==> per[st] == StudentStats(st, total, 0, 0, 0, 0)
    {
      per := per[students[k] := StudentStats(students[k], total, 0, 0, 0, 0)];
      assert students[..k + 1] == students[..k] + [students[k]];
      k := k + 1;
    }
    assert students[..k] == students;
  }

  /**
   * The loop shared by both backends: a zeroed entry per student, then one pass over the check-ins
   * of the class that fills `attendanceMap` and bumps `present`, `onTime` and `late` of members;
   * rows of non-members are only recorded in the map.
   */
  method TallyAttendance(students: seq<int>, total: int, rows: seq<AttendanceRecord>)
    returns (per: map<int, StudentStats>, marks: map<int, map<int, AttendanceStatus>>)
    ensures forall st :: st in per <==> st in students
    ensures forall st :: st in per ==> per[st] == Tallied(st, total, rows)
    ensures forall sid, st :: Marked(marks, sid, st) <==> HasAttendance(rows, sid, st)
  {
    per := ZeroedStats(students, total);
    marks := map[];
    var i := 0;
    while i < |rows|
      invariant 0 <= i <= |rows|
      invariant forall st :: st in per <==> st in students
      invariant forall st :: st in per ==> per[st] == Tallied(st, total, rows[..i])
      invariant forall sid, st :: Marked(marks, sid, st) <==> HasAttendance(rows[..i], sid, st)
    {
      var a := rows[i];
      assert rows[..i + 1] == rows[..i] + [a];
      TalliedStep(rows[..i], a, total);
      MarkStep(marks, rows[..i], a);
      marks := WithMark(marks, a);
      if a.studentId in per {
        var ps := per[a.studentId];
        ps := ps.(present := ps.present + 1);
        if a.status == OnTime {
          ps := ps.(onTime := ps.onTime + 1);
        } else if a.status == Late {
          ps := ps.(late := ps.late + 1);
        }
        per := per[a.studentId := ps];
      }
      i := i + 1;
    }
    assert rows[..i] == rows;
  }

  /**
   * Spring `getClassReport`: 404 unless the class is the teacher's; otherwise the sessions newest
   * first, the students, and per student the tallied counters with `absent = max(total - present, 0)`.
   */
  method SpringClassReport(classes: ClassTable, sessions: SessionTable, members: MemberTable,
                           ledger: AttendanceTable, classId: int, teacherId: int) returns (r: Result<ClassReport>)
    requires members.Valid()
    ensures !OwnedBy(classes.rows, classId, teacherId) ==> r == Err(ClassNotFound)
    ensures OwnedBy(classes.rows, classId, teacherId) ==>
      var ss := sessions.GetSessionsByClass(classId);
      var students := members.GetStudentsByClass(classId);
      var rows := ledger.GetByClass(sessions.rows, classId);
      r.Ok? && r.value.cls == FindClass(classes.rows, classId).value &&
      r.value.sessions == ss && r.value.students == students &&
      |r.value.perStudent| == |students| &&
      forall i :: 0 <= i < |students| ==> r.value.perStudent[i] == SpringStats(students[i], |ss|, rows)
  {
    var cls := FindClass(classes.rows, classId);
    if cls.None? || cls.value.teacherId != teacherId {
      return Err(ClassNotFound);
    }
    var students := members.GetStudentsByClass(classId);
    var ss := sessions.GetSessionsByClass(classId);
    var total := |ss|;
    var rows := ledger.GetByClass(sessions.rows, classId);
    var per, _ := TallyAttendance(students, total, rows);
    var out := SpringAbsences(per, students, total, rows);
    r := Ok(ClassReport(cls.value, ss, students, out));
  }

  /** The Spring pass over the students: each entry gets `absent = max(total - present, 0)`, in student order. */
  method SpringAbsences(per: map<int, StudentStats>, students: seq<int>, total: int, rows: seq<AttendanceRecord>)
    returns (out: seq<StudentStats>)
    requires forall st :: st in students ==> st in per && per[st] == Tallied(st, total, rows)
    ensures |out| == |students|
    ensures forall j :: 0 <= j < |students| ==> out[j] == SpringStats(students[j], total, rows)
  {
    out := [];
    var k := 0;
    while k < |students|
      invariant 0 <= k <= |students|
      invariant |out| == k
      invariant forall j :: 0 <= j < k ==> out[j] == SpringStats(students[j], total, rows)
    {
      assert students[k] in students;
      var ps := per[students[k]];
      out := out + [ps.(absent := Max0(total - ps.present))];
      k := k + 1;
    }
  }

  /** The Express counters of a student once the sessions `done` have been visited. */
  function StatsAfter(studentId: int, total: int, done: seq<Session>, rows: seq<AttendanceRecord>): StudentStats
  {
    Tallied(studentId, total, rows).(absent := CountAbsent(done, rows, studentId))
  }

  /** One more session adds one absence exactly when the student has no check-in for it. */
  lemma CountAbsentStep(done: seq<Session>, s: Session, rows: seq<AttendanceRecord>, studentId: int)
    ensures CountAbsent(done + [s], rows, studentId) ==
      CountAbsent(done, rows, studentId) + (if HasAttendance(rows, s.id, studentId) then 0 else 1)
  {
    assert (done + [s])[..|done|] == done;
  }

  /** The inner pass of the Express loop: one more absence for every student without a mark for `s`. */
  method AbsencesOfSession(per0: map<int, StudentStats>, marks: map<int, map<int, AttendanceStatus>>,
                           done: seq<Session>, s: Session, students: seq<int>, total: int, rows: seq<AttendanceRecord>)
    returns (per: map<int, StudentStats>)
    requires forall i, j :: 0 <= i < j < |students| ==> students[i] != students[j]
    requires forall st :: st in per0 <==> st in students
    requires forall st :: st in per0 ==> per0[st] == StatsAfter(st, total, done, rows)
    requires forall sid, st :: Marked(marks, sid, st) <==> HasAttendance(rows, sid, st)
    ensures forall st :: st in per <==> st in students
    ensures forall st :: st in per ==> per[st] == StatsAfter(st, total, done + [s], rows)
  {
    per := per0;
    var j := 0;
    while j < |students|
      invariant 0 <= j <= |students|
      invariant forall st :: st in per <==> st in students
      invariant forall k :: 0 <= k < j ==> students[k] in per && per[students[k]] == StatsAfter(students[k], total, done + [s], rows)
      invariant forall k :: j <= k < |students| ==> students[k] in per && per[students[k]] == StatsAfter(students[k], total, done, rows)
    {
      var stu := students[j];
      CountAbsentStep(done, s, rows, stu);
      if !Marked(marks, s.id, stu) {
        per := per[stu := per[stu].(absent := per[stu].absent + 1)];
      }
      j := j + 1;
    }
    forall st | st in per ensures per[st] == StatsAfter(st, total, done + [s], rows) {
      var k :| 0 <= k < |students| && students[k] == st;
    }
  }

  /**
   * Express: for every session and every student, a pair missing from `attendanceMap` adds one
   * absence. Students are distinct, so each pass touches each entry once.
   */
  method CountAbsences(per0: map<int, StudentStats>, marks: map<int, map<int, AttendanceStatus>>,
                       ss: seq<Session>, students: seq<int>, total: int, rows: seq<AttendanceRecord>)
    returns (per: map<int, StudentStats>)
    requires forall i, j :: 0 <= i < j < |students| ==> students[i] != students[j]
    requires forall st :: st in per0 <==> st in students
    requires forall st :: st in per0 ==> per0[st] == Tallied(st, total, rows)
    requires forall sid, st :: Marked(marks, sid, st) <==> HasAttendance(rows, sid, st)
    ensures forall st :: st in per <==> st in students
    ensures forall st :: st in per ==> per[st] == Tallied(st, total, rows).(absent := CountAbsent(ss, rows, st))
  {
    per := per0;
    var i := 0;
    while i < |ss|
      invariant 0 <= i <= |ss|
      invariant forall st :: st in per <==> st in students
      invariant forall st :: st in per ==> per[st] == StatsAfter(st, total, ss[..i], rows)
    {
      assert ss[..i + 1] == ss[..i] + [ss[i]];
      per := AbsencesOfSession(per, marks, ss[..i], ss[i], students, total, rows);
      i := i + 1;
    }
    assert ss[..i] == ss;
  }

  /**
   * Express `getClassReport`: 404 unless the class is the teacher's; `perStudent` is listed by
   * `Object.values`, which enumerates integer keys in ascending order.
   */
  method NodeClassReport(classes: ClassTable, sessions: SessionTable, members: MemberTable,
                         ledger: AttendanceTable, classId: int, teacherId: int) returns (r: Result<ClassReport>)
    requires members.Valid()
    ensures !OwnedBy(classes.rows, classId, teacherId) ==> r == Err(ClassNotFound)
    ensures OwnedBy(classes.rows, classId, teacherId) ==>
      var ss := sessions.GetSessionsByClass(classId);
      var students := members.GetStudentsByClass(classId);
      var rows := ledger.GetByClass(sessions.rows, classId);
      r.Ok? && r.value.cls == FindClass(classes.rows, classId).value &&
      r.value.sessions == ss && r.value.students == students &&
      r.value.perStudent == SortBy(NodeRows(students, ss, rows), StatsId)
  {
    var cls := FindClass(classes.rows, classId);
    if cls.None? || cls.value.teacherId != teacherId {
      return Err(ClassNotFound);
    }
    var students := members.GetStudentsByClass(classId);
    var ss := sessions.GetSessionsByClass(classId);
    var rows := ledger.GetByClass(sessions.rows, classId);
    var tallied, marks := TallyAttendance(students, |ss|, rows);
    var per := CountAbsences(tallied, marks, ss, students, |ss|, rows);
    var out := EntriesInOrder(per, students, ss, rows);
    r := Ok(ClassReport(cls.value, ss, students, SortBy(out, StatsId)));
  }

  /** The entries of `perStudent` in the order the students were inserted. */
  method EntriesInOrder(per: map<int, StudentStats>, students: seq<int>, ss: seq<Session>, rows: seq<AttendanceRecord>)
    returns (out: seq<StudentStats>)
    requires forall i :: 0 <= i < |students| ==> students[i] in per && per[students[i]] == NodeStats(students[i], ss, rows)
    ensures out == NodeRows(students, ss, rows)
  {
    out := [];
    var k := 0;
    while k < |students|
      invariant 0 <= k <= |students|
      invariant |out| == k
      invariant forall j :: 0 <= j < k ==> out[j] == NodeStats(students[j], ss, rows)
    {
      out := out + [per[students[k]]];
      k := k + 1;
    }
  }

  /** The Express entries in student order, before `Object.values` reorders them. */
  function NodeRows(students: seq<int>, ss: seq<Session>, rows: seq<AttendanceRecord>): (r: seq<StudentStats>)
    ensures |r| == |students|
    ensures forall i :: 0 <= i < |students| ==> r[i] == NodeStats(students[i], ss, rows)
  {
    if students == [] then []
    else NodeRows(students[..|students| - 1], ss, rows) + [NodeStats(students[|students| - 1], ss, rows)]
  }

  // -----------------------------------------------------------------------
  // Properties
  // -----------------------------------------------------------------------

  /** The session `sessionId` is among `sessions`. */
  predicate Listed(sessions: seq<Session>, sessionId: int)
  {
    exists s :: s in sessions && s.id == sessionId
  }

  /** Without check-ins every session counts as an absence. */
  lemma {:induction false} AllAbsentWithoutRows(ss: seq<Session>, studentId: int)
    ensures CountAbsent(ss, [], studentId) == |ss|
  {
    if ss != [] {
      AllAbsentWithoutRows(ss[..|ss| - 1], studentId);
    }
  }

  /** A row that matches none of the sessions for the student changes no absence count. */
  lemma {:induction false} AbsentUnaffected(ss: seq<Session>, rows: seq<AttendanceRecord>, x: AttendanceRecord, studentId: int)
    requires x.studentId != studentId || !Listed(ss, x.sessionId)
    ensures CountAbsent(ss, rows + [x], studentId) == CountAbsent(ss, rows, studentId)
  {
    if ss != [] {
      var last := ss[|ss| - 1];
      assert last in ss;
      assert x.studentId != studentId || !Listed(ss[..|ss| - 1], x.sessionId) by {
        if Listed(ss[..|ss| - 1], x.sessionId) {
          var s :| s in ss[..|ss| - 1] && s.id == x.sessionId;
          assert s in ss;
        }
      }
      AbsentUnaffected(ss[..|ss| - 1], rows, x, studentId);
      HasAttendanceAppend(rows, x, last.id, studentId);
    }
  }

  /** A first check-in for a listed session removes exactly one absence. */
  lemma {:induction false} AbsentFilled(ss: seq<Session>, rows: seq<AttendanceRecord>, x: AttendanceRecord)
    requires DistinctSessionIds(ss)
    requires Listed(ss, x.sessionId)
    requires !HasAttendance(rows, x.sessionId, x.studentId)
    ensures CountAbsent(ss, rows, x.studentId) == CountAbsent(ss + [], rows + [x], x.studentId) + 1
  {
    assert ss + [] == ss;
    var init := ss[..|ss| - 1];
    var last := ss[|ss| - 1];
    HasAttendanceAppend(rows, x, last.id, x.studentId);
    if last.id == x.sessionId {
      assert !Listed(init, x.sessionId);
      AbsentUnaffected(init, rows, x, x.studentId);
    } else {
      assert Listed(init, x.sessionId) by {
        var s :| s in ss && s.id == x.sessionId;
        var k :| 0 <= k < |ss| && ss[k] == s;
        assert k < |ss| - 1;
        assert init[k] == s;
      }
      AbsentFilled(init, rows, x);
      assert init + [] == init;
    }
  }

  /**
   * With at most one check-in per (session, student), all of them for listed sessions with
   * distinct ids, check-ins and absences of a student add up to the number of sessions.
   */
  lemma {:induction false} PresentPlusAbsent(ss: seq<Session>, rows: seq<AttendanceRecord>, studentId: int)
    requires DistinctSessionIds(ss)
    requires UniqueAttendanceKeys(rows)
    requires forall a :: a in rows ==> Listed(ss, a.sessionId)
    ensures CountPresent(rows, studentId) + CountAbsent(ss, rows, studentId) == |ss|
  {
    if rows == [] {
      AllAbsentWithoutRows(ss, studentId);
    } else {
      var init := rows[..|rows| - 1];
      var x := rows[|rows| - 1];
      assert rows == init + [x];
      assert x in rows;
      PresentPlusAbsent(ss, init, studentId);
      if x.studentId == studentId {
        assert !HasAttendance(init, x.sessionId, x.studentId);
        AbsentFilled(ss, init, x);
        assert ss + [] == ss;
      } else {
        AbsentUnaffected(ss, init, x, studentId);
      }
    }
  }

  /** Check-ins of the class, keeping only rows of listed sessions, keep keys unique. */
  lemma {:induction false} AttendanceOfClassUnique(rows: seq<AttendanceRecord>, sessions: seq<Session>, classId: int)
    requires UniqueAttendanceKeys(rows)
    ensures UniqueAttendanceKeys(AttendanceOfClass(rows, sessions, classId))
  {
    if rows != [] {
      HeadKeyDiffers(rows);
      AttendanceOfClassUnique(rows[1..], sessions, classId);
      if SessionOfClass(sessions, rows[0].sessionId, classId) {
        ConsKeepsUnique(rows[0], AttendanceOfClass(rows[1..], sessions, classId), rows[1..]);
      }
    }
  }

  /** Under unique keys, the rest of the rows keeps them unique and none shares the first key. */
  lemma HeadKeyDiffers(rows: seq<AttendanceRecord>)
    requires rows != [] && UniqueAttendanceKeys(rows)
    ensures UniqueAttendanceKeys(rows[1..])
    ensures forall a :: a in rows[1..] ==> a.sessionId != rows[0].sessionId || a.studentId != rows[0].studentId
  {
    var tail := rows[1..];
    forall i, j | 0 <= i < j < |tail|
      ensures tail[i].sessionId != tail[j].sessionId || tail[i].studentId != tail[j].studentId
    {
      assert tail[i] == rows[i + 1] && tail[j] == rows[j + 1];
    }
    forall a | a in tail ensures a.sessionId != rows[0].sessionId || a.studentId != rows[0].studentId {
      var k :| 0 <= k < |tail| && tail[k] == a;
      assert rows[k + 1] == a;
    }
  }

  /** A row in front of rows taken from after it, with a key none of them has, keeps keys unique. */
  lemma ConsKeepsUnique(x: AttendanceRecord, rest: seq<AttendanceRecord>, tail: seq<AttendanceRecord>)
    requires forall a :: a in rest ==> a in tail
    requires forall a :: a in tail ==> a.sessionId != x.sessionId || a.studentId != x.studentId
    requires UniqueAttendanceKeys(rest)
    ensures UniqueAttendanceKeys([x] + rest)
  {
    var r := [x] + rest;
    forall j | 1 <= j < |r| ensures r[0].sessionId != r[j].sessionId || r[0].studentId != r[j].studentId {
      assert r[j] == rest[j - 1];
      assert rest[j - 1] in rest;
    }
  }

  /** The sessions of a class, newest first, have distinct ids. */
  lemma SessionsOfClassDistinct(sessions: SessionTable, classId: int)
    requires sessions.Valid()
    ensures DistinctSessionIds(sessions.GetSessionsByClass(classId))
  {
    var base := SessionsOfClass(sessions.rows, classId);
    SessionsOfClassKeepsDistinct(sessions.rows, classId);
    assert DistinctBy(base, SessionIdOf);
    SortByKeepsDistinct(base, DateDesc, SessionIdOf);
    var r := SortBy(base, DateDesc);
    assert DistinctBy(r, SessionIdOf);
    forall i, j | 0 <= i < j < |r| ensures r[i].id != r[j].id {
      assert SessionIdOf(r[i]) != SessionIdOf(r[j]);
    }
  }

  /**
   * On consistent tables the two backends report the same counters for every student, and the
   * Spring clamp at zero never applies: check-ins and absences add up to the number of sessions.
   */
  lemma ReportsAgree(sessions: SessionTable, ledger: AttendanceTable, classId: int, studentId: int)
    requires sessions.Valid() && ledger.Valid()
    ensures var ss := sessions.GetSessionsByClass(classId);
      var rows := ledger.GetByClass(sessions.rows, classId);
      SpringStats(studentId, |ss|, rows) == NodeStats(studentId, ss, rows) &&
      CountPresent(rows, studentId) + CountAbsent(ss, rows, studentId) == |ss|
  {
    var ss := sessions.GetSessionsByClass(classId);
    var rows := ledger.GetByClass(sessions.rows, classId);
    SessionsOfClassDistinct(sessions, classId);
    AttendanceOfClassUnique(ledger.rows, sessions.rows, classId);
    forall a | a in rows ensures Listed(ss, a.sessionId) {
      assert SessionOfClass(sessions.rows, a.sessionId, classId);
      var s :| s in sessions.rows && s.id == a.sessionId && s.classId == classId;
      assert s in ss;
    }
    PresentPlusAbsent(ss, rows, studentId);
  }

  /** On consistent tables both reports hold the same entries; only their order differs. */
  lemma SameEntriesBothBackends(sessions: SessionTable, members: MemberTable, ledger: AttendanceTable, classId: int,
                                springRows: seq<StudentStats>)
    requires sessions.Valid() && members.Valid() && ledger.Valid()
    requires var ss := sessions.GetSessionsByClass(classId);
      var students := members.GetStudentsByClass(classId);
      |springRows| == |students| &&
      forall i :: 0 <= i < |students| ==>
        springRows[i] == SpringStats(students[i], |ss|, ledger.GetByClass(sessions.rows, classId))
    ensures var ss := sessions.GetSessionsByClass(classId);
      var students := members.GetStudentsByClass(classId);
      multiset(SortBy(NodeRows(students, ss, ledger.GetByClass(sessions.rows, classId)), StatsId)) == multiset(springRows)
  {
    var ss := sessions.GetSessionsByClass(classId);
    var students := members.GetStudentsByClass(classId);
    var rows := ledger.GetByClass(sessions.rows, classId);
    var nodeRows := NodeRows(students, ss, rows);
    forall i | 0 <= i < |students| ensures nodeRows[i] == springRows[i] {
      ReportsAgree(sessions, ledger, classId, students[i]);
    }
    assert nodeRows == springRows;
  }

  /** On-time and late check-ins never exceed the check-ins; MANUAL ones count only as present. */
  lemma {:induction false} StatusesWithinPresent(rows: seq<AttendanceRecord>, studentId: int)
    ensures CountStatus(rows, studentId, OnTime) + CountStatus(rows, studentId, Late) +
            CountStatus(rows, studentId, Manual) <= CountPresent(rows, studentId)
  {
    if rows != [] {
      StatusesWithinPresent(rows[..|rows| - 1], studentId);
    }
  }
}
