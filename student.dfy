/**
 * What a student does: join a class by its code, list the sessions of a joined class and read
 * the own attendance history in it. The Spring service normalises the typed code; the Express
 * controller looks it up as typed. Both derive ABSENT for sessions without a check-in.
 */
module Student {
  import opened Common
  import opened Domain
  import opened SessionStore
  import opened MemberStore
  import opened ClassStore
  import opened AttendanceStore
  import opened Codes
  import opened Sorting

  // -----------------------------------------------------------------------
  // Class-code normalisation
  // -----------------------------------------------------------------------

  /**
   * The Spring normalisation of a typed class code: a missing code reads as "", then trim,
   * upper-case and removal of every whitespace character. The result has no whitespace, no
   * lower-case letter, and starts and ends with a character `trim` would keep.
   */
  function NormalizeClassCode(classCode: Option<string>): (r: string)
    ensures r != [] ==> !JavaTrimmed(r[0]) && !JavaTrimmed(r[|r| - 1])
    ensures forall i :: 0 <= i < |r| ==> !RegexSpace(r[i]) && !IsLowerAscii(r[i])
  {
    if classCode.None? then ""
    else
      NormalizedShape(classCode.value);
      RemoveSpaces(ToUpper(JavaTrim(classCode.value)))
  }

  /** The normalised text has no whitespace or lower-case letter and keeps trimmed ends. */
  lemma NormalizedShape(code: string)
    ensures var r := RemoveSpaces(ToUpper(JavaTrim(code)));
      (forall i :: 0 <= i < |r| ==> !RegexSpace(r[i]) && !IsLowerAscii(r[i])) &&
      (r != [] ==> !JavaTrimmed(r[0]) && !JavaTrimmed(r[|r| - 1]))
  {
    var u := ToUpper(JavaTrim(code));
    UpperOfTrimmedEnds(code);
    RemoveSpacesKeepsEnds(u);
    RemoveSpacesKeepsUpper(u);
  }

  /** Upper-casing a trimmed text keeps characters that `trim` would keep at both ends. */
  lemma UpperOfTrimmedEnds(code: string)
    ensures var u := ToUpper(JavaTrim(code));
      u != [] ==> !JavaTrimmed(u[0]) && !JavaTrimmed(u[|u| - 1])
  {
    var t := JavaTrim(code);
    assert t != [] ==> !JavaTrimmed(t[0]) && !JavaTrimmed(t[|t| - 1]);
  }

  /** Removing whitespace from a text without lower-case letters brings none in. */
  lemma {:induction false} RemoveSpacesKeepsUpper(u: string)
    requires forall i :: 0 <= i < |u| ==> !IsLowerAscii(u[i])
    ensures forall i :: 0 <= i < |RemoveSpaces(u)| ==> !IsLowerAscii(RemoveSpaces(u)[i])
  {
    if u != [] {
      RemoveSpacesKeepsUpper(u[1..]);
    }
  }

  /** Removing `\s` characters keeps first and last characters that are not whitespace. */
  lemma RemoveSpacesKeepsEnds(u: string)
    requires u != [] ==> !JavaTrimmed(u[0]) && !JavaTrimmed(u[|u| - 1])
    ensures var r := RemoveSpaces(u);
      r != [] ==> !JavaTrimmed(r[0]) && !JavaTrimmed(r[|r| - 1])
  {
    if u != [] {
      assert RemoveSpaces(u) == [u[0]] + RemoveSpaces(u[1..]);
      RemoveSpacesLast(u);
    }
  }

  /** A last character that is not whitespace is the last character of the result. */
  lemma {:induction false} RemoveSpacesLast(u: string)
    requires u != [] && !RegexSpace(u[|u| - 1])
    ensures RemoveSpaces(u) != [] && RemoveSpaces(u)[|RemoveSpaces(u)| - 1] == u[|u| - 1]
  {
    if |u| > 1 {
      RemoveSpacesLast(u[1..]);
    }
  }

  /** A string without whitespace is left as it is. */
  lemma {:induction false} RemoveSpacesOfSpaceless(s: string)
    requires forall i :: 0 <= i < |s| ==> !RegexSpace(s[i])
    ensures RemoveSpaces(s) == s
  {
    if s != [] {
      RemoveSpacesOfSpaceless(s[1..]);
    }
  }

  /** `isBlank` of a normalised code holds exactly for the empty code. */
  lemma NormalizedBlankIffEmpty(classCode: Option<string>)
    ensures IsBlank(NormalizeClassCode(classCode)) <==> NormalizeClassCode(classCode) == []
  {
    var r := NormalizeClassCode(classCode);
    if r != [] {
      TrimmedStartNotBlank(r);
    }
  }

  /** A text whose first character `trim` would keep is not blank. */
  lemma TrimmedStartNotBlank(r: string)
    requires r != [] && !JavaTrimmed(r[0])
    ensures !IsBlank(r)
  {
    assert !JavaWhitespace(r[0]);
  }

  /** A normalised code is a fixed point of the normalisation. */
  lemma NormalizeIdempotent(classCode: Option<string>)
    ensures NormalizeClassCode(Some(NormalizeClassCode(classCode))) == NormalizeClassCode(classCode)
  {
    var r := NormalizeClassCode(classCode);
    TrimOfUntrimmed(r, JavaTrimmed);
    UpperOfUpperless(r);
    RemoveSpacesOfSpaceless(r);
  }

  /** The characters of a generated class code are upper-case letters and digits. */
  lemma CodeSymbols(code: string)
    requires IsClassCode(code)
    ensures forall i :: 0 <= i < |code| ==> IsCodeSymbol(code[i])
  {
    ClassCodeAlphabetShape();
    forall i | 0 <= i < |code| ensures IsCodeSymbol(code[i]) {
      assert code[i] in ClassCodeAlphabet;
    }
  }

  /**
   * A generated class code, typed as it is or in lower case, normalises to the code itself.
   */
  lemma NormalizeGeneratedCode(code: string)
    requires IsClassCode(code)
    ensures NormalizeClassCode(Some(code)) == code
    ensures NormalizeClassCode(Some(ToLower(code))) == code
  {
    CodeSymbols(code);
    assert forall i :: 0 <= i < |code| ==> !IsLowerAscii(code[i]) && !RegexSpace(code[i]);
    var low := ToLower(code);
    TrimOfUntrimmed(code, JavaTrimmed);
    assert low != [] ==> !JavaTrimmed(low[0]) && !JavaTrimmed(low[|low| - 1]);
    TrimOfUntrimmed(low, JavaTrimmed);
    UpperOfUpperless(code);
    UpperOfLower(code);
    RemoveSpacesOfSpaceless(code);
  }

  /** In a table of distinct codes, the lookup of a class's code finds that class. */
  lemma FindByOwnCode(classes: seq<ClassEntity>, c: ClassEntity)
    requires c in classes && DistinctCodes(classes)
    ensures FindByCode(classes, c.code) == Some(c)
  {
    var found := FindByCode(classes, c.code).value;
    var i :| 0 <= i < |classes| && classes[i] == found;
    var j :| 0 <= j < |classes| && classes[j] == c;
    assert i == j;
  }

  /** A generated class code typed in lower case joins the class that holds it. */
  lemma LowerCaseCodeJoinsSameClass(classes: seq<ClassEntity>, c: ClassEntity)
    requires c in classes && DistinctCodes(classes)
    requires IsClassCode(c.code)
    ensures FindByCode(classes, NormalizeClassCode(Some(ToLower(c.code)))) == Some(c)
  {
    NormalizeGeneratedCode(c.code);
    FindByOwnCode(classes, c);
  }

  // -----------------------------------------------------------------------
  // Joining a class
  // -----------------------------------------------------------------------

  /** The answer to a join: an optional message, the class and the membership row. */
  datatype Joined = Joined(message: Option<string>, cls: ClassEntity, member: ClassMember)

  const CodeRequired := ApiError(400, "Vui lòng nhập mã lớp")
  const AlreadyJoined := "Bạn đã tham gia lớp này rồi"
  const JoinedNow := "Tham gia lớp thành công"
  const NotJoined := ApiError(403, "Bạn chưa tham gia lớp này")

  function CodeNotFound(code: string): (e: ApiError)
    ensures e.status == 404 && EndsWith(e.message, code)
  {
    ApiError(404, "Không tìm thấy lớp với mã: " + code)
  }

  /**
   * Spring `joinClass`: 400 for a blank normalised code, 404 for an unknown one; a student who
   * already belongs to the class gets the existing row back and nothing is inserted; otherwise a
   * membership row is added.
   */
  method SpringJoinClass(classes: ClassTable, members: MemberTable, classCode: Option<string>,
                         studentId: int, now: Time) returns (r: Result<Joined>)
    requires members.Valid()
    modifies members
    ensures members.Valid()
    ensures var code := NormalizeClassCode(classCode);
      IsBlank(code) ==> r == Err(CodeRequired) && members.rows == old(members.rows)
    ensures var code := NormalizeClassCode(classCode);
      !IsBlank(code) && FindByCode(classes.rows, code).None? ==>
        r == Err(CodeNotFound(code)) && members.rows == old(members.rows)
    ensures var code := NormalizeClassCode(classCode);
      var found := FindByCode(classes.rows, code);
      !IsBlank(code) && found.Some? ==>
        r.Ok? && r.value.cls == found.value &&
        r.value.member.classId == found.value.id && r.value.member.studentId == studentId &&
        IsMember(members.rows, found.value.id, studentId) &&
        (IsMember(old(members.rows), found.value.id, studentId) ==>
          members.rows == old(members.rows) && r.value.message == Some(AlreadyJoined) &&
          Some(r.value.member) == FindMembership(old(members.rows), found.value.id, studentId)) &&
        (!IsMember(old(members.rows), found.value.id, studentId) ==>
          members.rows == old(members.rows) + [r.value.member] && r.value.message == Some(JoinedNow))
  {
    var code := NormalizeClassCode(classCode);
    if IsBlank(code) {
      return Err(CodeRequired);
    }
    var found := FindByCode(classes.rows, code);
    if found.None? {
      return Err(CodeNotFound(code));
    }
    var cls := found.value;
    var existing := FindMembership(members.rows, cls.id, studentId);
    if existing.Some? {
      return Ok(Joined(Some(AlreadyJoined), cls, existing.value));
    }
    var m := members.AddStudentToClass(cls.id, studentId, now);
    r := Ok(Joined(Some(JoinedNow), cls, m));
  }

  /**
   * Express `joinClass`: 400 when the code is missing or empty, 404 when no class has exactly
   * this code; otherwise the idempotent `addStudentToClass`, answering the class and the row.
   */
  method NodeJoinClass(classes: ClassTable, members: MemberTable, classCode: Option<string>,
                       studentId: int, now: Time) returns (r: Result<Joined>)
    requires members.Valid()
    modifies members
    ensures members.Valid()
    ensures (classCode.None? || classCode.value == "") ==>
      r == Err(ApiError(400, "classCode required")) && members.rows == old(members.rows)
    ensures classCode.Some? && classCode.value != "" && FindByCode(classes.rows, classCode.value).None? ==>
      r == Err(ApiError(404, "Class not found")) && members.rows == old(members.rows)
    ensures classCode.Some? && classCode.value != "" && FindByCode(classes.rows, classCode.value).Some? ==>
      var cls := FindByCode(classes.rows, classCode.value).value;
      r.Ok? && r.value.message.None? && r.value.cls == cls &&
      r.value.member.classId == cls.id && r.value.member.studentId == studentId &&
      IsMember(members.rows, cls.id, studentId) &&
      (IsMember(old(members.rows), cls.id, studentId) ==> members.rows == old(members.rows)) &&
      (!IsMember(old(members.rows), cls.id, studentId) ==> members.rows == old(members.rows) + [r.value.member])
  {
    if classCode.None? || classCode.value == "" {
      return Err(ApiError(400, "classCode required"));
    }
    var found := FindByCode(classes.rows, classCode.value);
    if found.None? {
      return Err(ApiError(404, "Class not found"));
    }
    var m := members.AddStudentToClass(found.value.id, studentId, now);
    r := Ok(Joined(None, found.value, m));
  }

  // -----------------------------------------------------------------------
  // Sessions of a joined class
  // -----------------------------------------------------------------------

  /** A session as a student sees it: everything but the QR token and the teacher position. */
  datatype SessionView = SessionView(
    id: int,
    classId: int,
    title: string,
    sessionDate: Time,
    status: SessionStatus,
    qrTokenExpiresAt: Option<Time>)

  function ViewOf(s: Session): SessionView
  {
    SessionView(s.id, s.classId, s.title, s.sessionDate, s.status, s.qrTokenExpiresAt)
  }

  /** The view does not depend on the token: a student cannot read it from the listing. */
  lemma ViewHidesToken(s: Session, t: Option<string>)
    ensures ViewOf(s.(qrToken := t)) == ViewOf(s)
    ensures forall u: Session :: ViewOf(u) == ViewOf(s) ==>
      u.(qrToken := s.qrToken, teacherLat := s.teacherLat, teacherLng := s.teacherLng) == s
  {
  }

  /**
   * Spring `getSessionsInClass`: 403 for a non-member; otherwise one view per session of the
   * class, newest first.
   */
  method SpringSessionsInClass(sessions: SessionTable, members: MemberTable, classId: int, studentId: int)
    returns (r: Result<seq<SessionView>>)
    ensures r.Err? <==> !IsMember(members.rows, classId, studentId)
    ensures r.Err? ==> r.error == NotJoined
    ensures r.Ok? ==>
      var ss := sessions.GetSessionsByClass(classId);
      |r.value| == |ss| &&
      (forall i :: 0 <= i < |ss| ==> r.value[i] == ViewOf(ss[i])) &&
      (forall i :: 0 <= i < |ss| ==> r.value[i].classId == classId) &&
      (forall i, j :: 0 <= i < j < |ss| ==> r.value[i].sessionDate >= r.value[j].sessionDate) &&
      (forall s :: s in sessions.rows && s.classId == classId ==> ViewOf(s) in r.value)
  {
    if !IsMember(members.rows, classId, studentId) {
      return Err(NotJoined);
    }
    var ss := sessions.GetSessionsByClass(classId);
    var out := ViewRows(ss);
    ViewsOfSessions(sessions.rows, classId, ss, out);
    r := Ok(out);
  }

  /** The Spring loop over the listed sessions: one view per session, in order. */
  method ViewRows(ss: seq<Session>) returns (out: seq<SessionView>)
    ensures |out| == |ss| && forall i :: 0 <= i < |ss| ==> out[i] == ViewOf(ss[i])
  {
    out := [];
    var i := 0;
    while i < |ss|
      invariant 0 <= i <= |ss|
      invariant |out| == i
      invariant forall k :: 0 <= k < i ==> out[k] == ViewOf(ss[k])
    {
      out := out + [ViewOf(ss[i])];
      i := i + 1;
    }
  }

  /** What the views of a class's sessions inherit from the listing they were made from. */
  lemma ViewsOfSessions(rows: seq<Session>, classId: int, ss: seq<Session>, out: seq<SessionView>)
    requires forall s :: s in ss <==> s in rows && s.classId == classId
    requires forall i, j :: 0 <= i < j < |ss| ==> ss[i].sessionDate >= ss[j].sessionDate
    requires |out| == |ss| && forall i :: 0 <= i < |ss| ==> out[i] == ViewOf(ss[i])
    ensures forall i :: 0 <= i < |ss| ==> out[i].classId == classId
    ensures forall i, j :: 0 <= i < j < |ss| ==> out[i].sessionDate >= out[j].sessionDate
    ensures forall s :: s in rows && s.classId == classId ==> ViewOf(s) in out
  {
    forall i | 0 <= i < |ss| ensures out[i].classId == classId {
      assert ss[i] in ss;
    }
    forall s | s in rows && s.classId == classId ensures ViewOf(s) in out {
      var k :| 0 <= k < |ss| && ss[k] == s;
      assert out[k] == ViewOf(s);
    }
  }

  // -----------------------------------------------------------------------
  // Attendance history
  // -----------------------------------------------------------------------

  /** One history line as answered to the student; a session without a check-in reads ABSENT. */
  datatype HistoryEntry = HistoryEntry(
    sessionId: int,
    title: string,
    sessionDate: Time,
    status: AttendanceStatus,
    checkInTime: Option<Time>)

  /** The left-joined rows with a missing status read as ABSENT. */
  function Labelled(rows: seq<HistoryRow>): (r: seq<HistoryEntry>)
    ensures |r| == |rows|
    ensures forall i :: 0 <= i < |rows| ==>
      r[i] == HistoryEntry(rows[i].sessionId, rows[i].title, rows[i].sessionDate,
                           if rows[i].status.None? then Absent else rows[i].status.value,
                           rows[i].checkInTime)
  {
    if rows == [] then []
    else
      var h := rows[0];
      [HistoryEntry(h.sessionId, h.title, h.sessionDate,
                    if h.status.None? then Absent else h.status.value, h.checkInTime)] + Labelled(rows[1..])
  }

  /**
   * What a history means against the tables (whose session ids are the primary key): one line
   * per session of the class, each session exactly once, oldest first; every line carries the
   * session's title and date; a session without a check-in of the student reads ABSENT with no
   * time, one with a check-in carries the stored status and time.
   */
  lemma HistoryMeaning(sessions: seq<Session>, ledger: AttendanceTable, studentId: int, classId: int)
    requires DistinctSessionIds(sessions)
    ensures var h := Labelled(ledger.GetByStudentAndClass(sessions, studentId, classId));
      |h| == |SessionsOfClass(sessions, classId)| &&
      forall i, j :: 0 <= i < j < |h| ==> h[i].sessionDate <= h[j].sessionDate && h[i].sessionId != h[j].sessionId
    ensures var h := Labelled(ledger.GetByStudentAndClass(sessions, studentId, classId));
      forall s :: s in sessions && s.classId == classId ==> exists i :: 0 <= i < |h| && h[i].sessionId == s.id
    ensures var h := Labelled(ledger.GetByStudentAndClass(sessions, studentId, classId));
      forall i :: 0 <= i < |h| ==>
        FindSession(sessions, h[i].sessionId).Some? &&
        FindSession(sessions, h[i].sessionId).value.classId == classId &&
        h[i].title == FindSession(sessions, h[i].sessionId).value.title &&
        h[i].sessionDate == FindSession(sessions, h[i].sessionId).value.sessionDate
    ensures var h := Labelled(ledger.GetByStudentAndClass(sessions, studentId, classId));
      forall i :: 0 <= i < |h| ==>
        (!HasAttendance(ledger.rows, h[i].sessionId, studentId) ==> h[i].status == Absent && h[i].checkInTime.None?) &&
        (HasAttendance(ledger.rows, h[i].sessionId, studentId) ==>
          h[i].status == FindAttendance(ledger.rows, h[i].sessionId, studentId).value.status &&
          h[i].checkInTime == Some(FindAttendance(ledger.rows, h[i].sessionId, studentId).value.checkInTime))
  {
    var rows := ledger.GetByStudentAndClass(sessions, studentId, classId);
    HistoryListsEachSessionOnce(sessions, ledger, studentId, classId);
    LabelledLines(sessions, ledger.rows, studentId, classId, rows);
  }

  /** Labelling lines that each join one session of the class keeps what the lines say. */
  lemma LabelledLines(sessions: seq<Session>, ledger: seq<AttendanceRecord>, studentId: int, classId: int,
                      rows: seq<HistoryRow>)
    requires forall i, j :: 0 <= i < j < |rows| ==> rows[i].sessionDate <= rows[j].sessionDate
    requires forall i, j :: 0 <= i < j < |rows| ==> rows[i].sessionId != rows[j].sessionId
    requires forall s :: s in sessions && s.classId == classId ==> exists i :: 0 <= i < |rows| && rows[i].sessionId == s.id
    requires forall i :: 0 <= i < |rows| ==>
      FindSession(sessions, rows[i].sessionId).Some? &&
      FindSession(sessions, rows[i].sessionId).value.classId == classId &&
      rows[i] == JoinRow(FindSession(sessions, rows[i].sessionId).value, ledger, studentId)
    ensures var h := Labelled(rows);
      forall i, j :: 0 <= i < j < |h| ==> h[i].sessionDate <= h[j].sessionDate && h[i].sessionId != h[j].sessionId
    ensures var h := Labelled(rows);
      forall s :: s in sessions && s.classId == classId ==> exists i :: 0 <= i < |h| && h[i].sessionId == s.id
    ensures var h := Labelled(rows);
      forall i :: 0 <= i < |h| ==>
        FindSession(sessions, h[i].sessionId).Some? &&
        FindSession(sessions, h[i].sessionId).value.classId == classId &&
        h[i].title == FindSession(sessions, h[i].sessionId).value.title &&
        h[i].sessionDate == FindSession(sessions, h[i].sessionId).value.sessionDate
    ensures var h := Labelled(rows);
      forall i :: 0 <= i < |h| ==>
        (!HasAttendance(ledger, h[i].sessionId, studentId) ==> h[i].status == Absent && h[i].checkInTime.None?) &&
        (HasAttendance(ledger, h[i].sessionId, studentId) ==>
          h[i].status == FindAttendance(ledger, h[i].sessionId, studentId).value.status &&
          h[i].checkInTime == Some(FindAttendance(ledger, h[i].sessionId, studentId).value.checkInTime))
  {
    var h := Labelled(rows);
    forall s | s in sessions && s.classId == classId ensures exists i :: 0 <= i < |h| && h[i].sessionId == s.id {
      var i :| 0 <= i < |rows| && rows[i].sessionId == s.id;
      assert h[i].sessionId == s.id;
    }
  }

  /**
   * Spring `getAttendanceHistoryInClass`: 403 for a non-member; otherwise the left-joined history
   * with ABSENT for the sessions the student has no row for.
   */
  method SpringHistory(sessions: SessionTable, members: MemberTable, ledger: AttendanceTable,
                       classId: int, studentId: int) returns (r: Result<seq<HistoryEntry>>)
    ensures r.Err? <==> !IsMember(members.rows, classId, studentId)
    ensures r.Err? ==> r.error == NotJoined
    ensures r.Ok? ==> r.value == Labelled(ledger.GetByStudentAndClass(sessions.rows, studentId, classId))
  {
    if !IsMember(members.rows, classId, studentId) {
      return Err(NotJoined);
    }
    var rows := ledger.GetByStudentAndClass(sessions.rows, studentId, classId);
    var out := LabelRows(rows);
    r := Ok(out);
  }

  /** The Spring loop over the joined rows: a missing status becomes ABSENT, one entry per row. */
  method LabelRows(rows: seq<HistoryRow>) returns (out: seq<HistoryEntry>)
    ensures out == Labelled(rows)
  {
    out := [];
    var i := 0;
    while i < |rows|
      invariant 0 <= i <= |rows|
      invariant out == Labelled(rows[..i])
    {
      var h := rows[i];
      var status := if h.status.None? then Absent else h.status.value;
      assert rows[..i + 1] == rows[..i] + [h];
      LabelledAppend(rows[..i], h);
      out := out + [HistoryEntry(h.sessionId, h.title, h.sessionDate, status, h.checkInTime)];
      i := i + 1;
    }
    assert rows[..|rows|] == rows;
  }

  lemma LabelledAppend(rows: seq<HistoryRow>, h: HistoryRow)
    ensures Labelled(rows + [h]) == Labelled(rows) +
      [HistoryEntry(h.sessionId, h.title, h.sessionDate, if h.status.None? then Absent else h.status.value, h.checkInTime)]
  {
    var a := Labelled(rows + [h]);
    var b := Labelled(rows) +
      [HistoryEntry(h.sessionId, h.title, h.sessionDate, if h.status.None? then Absent else h.status.value, h.checkInTime)];
    assert |a| == |b|;
    forall i | 0 <= i < |a| ensures a[i] == b[i] {
      if i < |rows| {
        assert (rows + [h])[i] == rows[i];
      }
    }
  }

  /**
   * Express `getAttendanceHistory`: 400 when the class id is missing, 403 for a non-member,
   * otherwise the history rows with the status or ABSENT, in the same order and number.
   */
  function NodeHistory(sessions: seq<Session>, members: MemberTable, ledger: AttendanceTable,
                       classId: Option<int>, studentId: int): (r: Result<seq<HistoryEntry>>)
    reads members, ledger
    ensures classId.None? ==> r == Err(ApiError(400, "classId required"))
    ensures classId.Some? && !IsMember(members.rows, classId.value, studentId) ==>
      r == Err(ApiError(403, "Not in class"))
    ensures classId.Some? && IsMember(members.rows, classId.value, studentId) ==>
      r.Ok? && r.value == Labelled(ledger.GetByStudentAndClass(sessions, studentId, classId.value))
  {
    if classId.None? then Err(ApiError(400, "classId required"))
    else if !IsMember(members.rows, classId.value, studentId) then Err(ApiError(403, "Not in class"))
    else Ok(Labelled(ledger.GetByStudentAndClass(sessions, studentId, classId.value)))
  }
}
