/**
 * What a teacher does to classes and sessions: create a class with a fresh code, create a
 * session, open it (token, expiry, teacher position), close it, and remove a member.
 * Both backends are modelled; they differ in the code retry loop, the order of validation and
 * the instant the QR token expires.
 */
module Lifecycle {
  import opened Common
  import opened Domain
  import opened SessionStore
  import opened MemberStore
  import opened ClassStore
  import opened Codes
  import opened CheckIn

  // -----------------------------------------------------------------------
  // Class creation
  // -----------------------------------------------------------------------

  /** Index of the first candidate in [i, limit) whose code is free, or `limit` when none is. */
  function FirstFreeIndex(rows: seq<ClassEntity>, candidates: seq<string>, i: nat, limit: nat): (k: nat)
    requires i <= limit <= |candidates|
    ensures i <= k <= limit
    ensures forall j :: i <= j < k ==> CodeTaken(rows, candidates[j])
    ensures k < limit ==> !CodeTaken(rows, candidates[k])
    decreases limit - i
  {
    if i == limit then limit
    else if !CodeTaken(rows, candidates[i]) then i
    else FirstFreeIndex(rows, candidates, i + 1, limit)
  }

  /** Spring: the first free code among five tries; if all five are taken, a sixth, unchecked code. */
  function SpringClassCode(rows: seq<ClassEntity>, candidates: seq<string>): (code: string)
    requires |candidates| >= 6
    ensures (exists j :: 0 <= j < 5 && !CodeTaken(rows, candidates[j])) ==> !CodeTaken(rows, code)
    ensures (forall j :: 0 <= j < 5 ==> CodeTaken(rows, candidates[j])) ==> code == candidates[5]
  {
    candidates[FirstFreeIndex(rows, candidates, 0, 5)]
  }

  /** Express: the first free code among five tries; if all five are taken, the fifth one. */
  function NodeClassCode(rows: seq<ClassEntity>, candidates: seq<string>): (code: string)
    requires |candidates| >= 5
    ensures (exists j :: 0 <= j < 5 && !CodeTaken(rows, candidates[j])) ==> !CodeTaken(rows, code)
    ensures (forall j :: 0 <= j < 5 ==> CodeTaken(rows, candidates[j])) ==> code == candidates[4] && CodeTaken(rows, code)
  {
    candidates[FirstFreeIndex(rows, candidates, 0, 4)]
  }

  const ClassNotFound: ApiError := ApiError(404, "Class not found")
  const SessionNotFoundError: ApiError := ApiError(404, "Session not found")
  const Forbidden: ApiError := ApiError(403, "Forbidden")
  const CodeConflict: ApiError := ApiError(409, "Trùng mã lớp, thử lại lần nữa")

  /**
   * Spring `createClass`: up to five candidate codes are looked up, the first free one is used,
   * otherwise a sixth; a code clash on save answers 409.
   */
  method SpringCreateClass(classes: ClassTable, className: string, teacherId: int,
                           candidates: seq<string>, now: Time) returns (r: Result<ClassEntity>)
    requires classes.Valid() && |candidates| >= 6
    modifies classes
    ensures classes.Valid()
    ensures var code := SpringClassCode(old(classes.rows), candidates);
      if CodeTaken(old(classes.rows), code) then
        r == Err(CodeConflict) && classes.rows == old(classes.rows)
      else
        r == Ok(ClassEntity(old(classes.nextId), className, code, teacherId, now)) &&
        classes.rows == old(classes.rows) + [r.value]
  {
    var k := 0;
    while k < 5 && FindByCode(classes.rows, candidates[k]).Some?
      invariant 0 <= k <= 5
      invariant forall j :: 0 <= j < k ==> CodeTaken(classes.rows, candidates[j])
      invariant k < 5 && !CodeTaken(classes.rows, candidates[k]) ==> k == FirstFreeIndex(classes.rows, candidates, 0, 5)
    {
      k := k + 1;
    }
    assert k == FirstFreeIndex(classes.rows, candidates, 0, 5);
    var saved := classes.Insert(className, candidates[k], teacherId, now);
    if saved.None? {
      return Err(CodeConflict);
    }
    r := Ok(saved.value);
  }

  /**
   * Express `createClass`: a missing or empty name answers 400; up to five codes are tried and the
   * last one tried is used even when taken, in which case the insert fails with a server error.
   */
  method NodeCreateClass(classes: ClassTable, className: Option<string>, teacherId: int,
                         candidates: seq<string>, now: Time) returns (r: Result<ClassEntity>)
    requires classes.Valid() && |candidates| >= 5
    modifies classes
    ensures classes.Valid()
    ensures className.None? || className.value == "" ==>
      r == Err(ApiError(400, "className required")) && classes.rows == old(classes.rows)
    ensures className.Some? && className.value != "" ==>
      var code := NodeClassCode(old(classes.rows), candidates);
      if CodeTaken(old(classes.rows), code) then
        r == Err(ServerError) && classes.rows == old(classes.rows)
      else
        r == Ok(ClassEntity(old(classes.nextId), className.value, code, teacherId, now)) &&
        classes.rows == old(classes.rows) + [r.value]
  {
    if className.None? || className.value == "" {
      return Err(ApiError(400, "className required"));
    }
    var attempt := 0;
    var code := candidates[attempt];
    while FindByCode(classes.rows, code).Some? && attempt + 1 < 5
      invariant 0 <= attempt < 5
      invariant code == candidates[attempt]
      invariant forall j :: 0 <= j < attempt ==> CodeTaken(classes.rows, candidates[j])
    {
      attempt := attempt + 1;
      code := candidates[attempt];
    }
    assert attempt == FirstFreeIndex(classes.rows, candidates, 0, 4);
    var saved := classes.Insert(className.value, code, teacherId, now);
    if saved.None? {
      return Err(ServerError);
    }
    r := Ok(saved.value);
  }

  // -----------------------------------------------------------------------
  // Session creation
  // -----------------------------------------------------------------------

  /** Spring `createSession`: only the owner of the class may add a CLOSED session to it. */
  method SpringCreateSession(classes: ClassTable, sessions: SessionTable, classId: int, teacherId: int,
                             title: string, sessionDate: Time) returns (r: Result<Session>)
    requires sessions.Valid()
    modifies sessions
    ensures sessions.Valid()
    ensures !OwnedBy(classes.rows, classId, teacherId) ==> r == Err(ClassNotFound) && sessions.rows == old(sessions.rows)
    ensures OwnedBy(classes.rows, classId, teacherId) ==>
      r == Ok(Session(old(sessions.nextId), classId, title, sessionDate, Closed, None, None, None, None)) &&
      sessions.rows == old(sessions.rows) + [r.value]
  {
    if !OwnedBy(classes.rows, classId, teacherId) {
      return Err(ClassNotFound);
    }
    var s := sessions.CreateSession(classId, title, sessionDate);
    r := Ok(s);
  }

  /** Express `createSession`: ownership is checked before the title and date (an empty title is missing). */
  method NodeCreateSession(classes: ClassTable, sessions: SessionTable, classId: int, teacherId: int,
                           title: Option<string>, sessionDate: Option<Time>) returns (r: Result<Session>)
    requires sessions.Valid()
    modifies sessions
    ensures sessions.Valid()
    ensures !OwnedBy(classes.rows, classId, teacherId) ==> r == Err(ClassNotFound) && sessions.rows == old(sessions.rows)
    ensures OwnedBy(classes.rows, classId, teacherId) && (title.None? || title.value == "" || sessionDate.None?) ==>
      r == Err(ApiError(400, "title & sessionDate required")) && sessions.rows == old(sessions.rows)
    ensures OwnedBy(classes.rows, classId, teacherId) && title.Some? && title.value != "" && sessionDate.Some? ==>
      r == Ok(Session(old(sessions.nextId), classId, title.value, sessionDate.value, Closed, None, None, None, None)) &&
      sessions.rows == old(sessions.rows) + [r.value]
  {
    if !OwnedBy(classes.rows, classId, teacherId) {
      return Err(ClassNotFound);
    }
    if title.None? || title.value == "" || sessionDate.None? {
      return Err(ApiError(400, "title & sessionDate required"));
    }
    var s := sessions.CreateSession(classId, title.value, sessionDate.value);
    r := Ok(s);
  }

  // -----------------------------------------------------------------------
  // Opening and closing
  // -----------------------------------------------------------------------

  /** The answer to opening a session: the updated row and the QR content built from it. */
  datatype Opened = Opened(session: Session, qrPayload: QrPayload)

  /** The session exists and its class exists and belongs to the teacher. */
  predicate MayManage(sessions: seq<Session>, classes: seq<ClassEntity>, sessionId: int, teacherId: int)
  {
    FindSession(sessions, sessionId).Some? && OwnedBy(classes, FindSession(sessions, sessionId).value.classId, teacherId)
  }

  /** The error for a session the teacher may not manage: 404 for a missing session, 403 otherwise. */
  function ManageError(sessions: seq<Session>, sessionId: int): ApiError
  {
    if FindSession(sessions, sessionId).None? then SessionNotFoundError else Forbidden
  }

  /** Spring: the token expires `onTimeMinutes` after the teacher opens the session. */
  function SpringExpiry(now: Time, onTimeMinutes: int): Time { now + onTimeMinutes * MsPerMinute }

  /** Express: the token expires `onTimeMinutes` after the scheduled start of the session. */
  function NodeExpiry(sessionDate: Time, onTimeMinutes: int): (t: Time)
    ensures t == OnTimeBoundary(sessionDate, onTimeMinutes)
  {
    sessionDate + onTimeMinutes * MsPerMinute
  }

  /** Every OPEN session carries the teacher's position, as the newer Spring service opens them. */
  predicate PositionedWhenOpen(rows: seq<Session>)
  {
    forall s :: s in rows && s.status == Open ==> HasTeacherPosition(s)
  }

  /** Every OPEN session's token expires at the session's on-time boundary, as Express opens them. */
  predicate ExpiresAtBoundary(rows: seq<Session>, onTimeMinutes: int)
  {
    forall s :: s in rows && s.status == Open ==> s.qrTokenExpiresAt == Some(NodeExpiry(s.sessionDate, onTimeMinutes))
  }

  /**
   * Spring `openSession`: a fresh 16-symbol token, expiry `now + onTimeMinutes`, the teacher
   * position stored; the QR content is the session id with the stored token.
   */
  method SpringOpenSession(classes: ClassTable, sessions: SessionTable, sessionId: int, teacherId: int,
                           teacherLat: real, teacherLng: real, now: Time, onTimeMinutes: int,
                           tokenDraws: seq<int>) returns (r: Result<Opened>)
    requires sessions.Valid()
    requires |tokenDraws| >= 16 && forall i :: 0 <= i < |tokenDraws| ==> 0 <= tokenDraws[i] < |TokenAlphabet|
    modifies sessions
    ensures sessions.Valid()
    ensures !MayManage(old(sessions.rows), classes.rows, sessionId, teacherId) ==>
      r == Err(ManageError(old(sessions.rows), sessionId)) && sessions.rows == old(sessions.rows)
    ensures MayManage(old(sessions.rows), classes.rows, sessionId, teacherId) ==>
      r.Ok? && r.value.session.qrToken.Some? && |r.value.session.qrToken.value| == 16 &&
      (forall i :: 0 <= i < 16 ==> r.value.session.qrToken.value[i] == TokenAlphabet[tokenDraws[i]]) &&
      r.value.session == OpenedRow(FindSession(old(sessions.rows), sessionId).value, r.value.session.qrToken.value,
                                   SpringExpiry(now, onTimeMinutes), teacherLat, teacherLng) &&
      FindSession(sessions.rows, sessionId) == Some(r.value.session) &&
      r.value.qrPayload == QrPayload(Some(sessionId), r.value.session.qrToken)
    ensures |sessions.rows| == |old(sessions.rows)|
    ensures forall i :: 0 <= i < |sessions.rows| && old(sessions.rows)[i].id != sessionId ==>
      sessions.rows[i] == old(sessions.rows)[i]
    ensures PositionedWhenOpen(old(sessions.rows)) ==> PositionedWhenOpen(sessions.rows)
  {
    var found := FindSession(sessions.rows, sessionId);
    if found.None? {
      return Err(SessionNotFoundError);
    }
    if !OwnedBy(classes.rows, found.value.classId, teacherId) {
      return Err(Forbidden);
    }
    var token := RandomToken(16, tokenDraws);
    var expiresAt := SpringExpiry(now, onTimeMinutes);
    sessions.OpenSession(sessionId, token, expiresAt, teacherLat, teacherLng);
    var saved := FindSession(sessions.rows, sessionId).value;
    r := Ok(Opened(saved, QrPayload(Some(saved.id), saved.qrToken)));
  }

  /**
   * Express `openSession`: the teacher position must parse to finite numbers (checked first),
   * the token is 16 random bytes in hex, and it expires `onTimeMinutes` after the session start.
   */
  method NodeOpenSession(classes: ClassTable, sessions: SessionTable, sessionId: int, teacherId: int,
                         teacherLat: Option<Float>, teacherLng: Option<Float>, onTimeMinutes: int,
                         tokenBytes: seq<int>) returns (r: Result<Opened>)
    requires sessions.Valid()
    requires |tokenBytes| == 16 && forall i :: 0 <= i < |tokenBytes| ==> IsByte(tokenBytes[i])
    modifies sessions
    ensures sessions.Valid()
    ensures !UsableCoordinate(teacherLat) || !UsableCoordinate(teacherLng) ==>
      r.Err? && r.error.status == 400 && sessions.rows == old(sessions.rows)
    ensures UsableCoordinate(teacherLat) && UsableCoordinate(teacherLng) &&
            !MayManage(old(sessions.rows), classes.rows, sessionId, teacherId) ==>
      r == Err(ManageError(old(sessions.rows), sessionId)) && sessions.rows == old(sessions.rows)
    ensures UsableCoordinate(teacherLat) && UsableCoordinate(teacherLng) &&
            MayManage(old(sessions.rows), classes.rows, sessionId, teacherId) ==>
      var s := FindSession(old(sessions.rows), sessionId).value;
      r.Ok? &&
      r.value.session == OpenedRow(s, HexToken(tokenBytes), NodeExpiry(s.sessionDate, onTimeMinutes),
                                   teacherLat.value.value, teacherLng.value.value) &&
      FindSession(sessions.rows, sessionId) == Some(r.value.session) &&
      r.value.qrPayload == QrPayload(Some(sessionId), Some(HexToken(tokenBytes)))
    ensures |sessions.rows| == |old(sessions.rows)|
    ensures forall i :: 0 <= i < |sessions.rows| && old(sessions.rows)[i].id != sessionId ==>
      sessions.rows[i] == old(sessions.rows)[i]
    ensures ExpiresAtBoundary(old(sessions.rows), onTimeMinutes) ==> ExpiresAtBoundary(sessions.rows, onTimeMinutes)
  {
    if !UsableCoordinate(teacherLat) || !UsableCoordinate(teacherLng) {
      return Err(ApiError(400, "Không lấy được vị trí GPS của giảng viên. Hãy bật GPS trên thiết bị và thử lại."));
    }
    var found := FindSession(sessions.rows, sessionId);
    if found.None? {
      return Err(SessionNotFoundError);
    }
    if !OwnedBy(classes.rows, found.value.classId, teacherId) {
      return Err(Forbidden);
    }
    var token := HexToken(tokenBytes);
    var expiresAt := NodeExpiry(found.value.sessionDate, onTimeMinutes);
    ghost var before := sessions.rows;
    sessions.OpenSession(sessionId, token, expiresAt, teacherLat.value.value, teacherLng.value.value);
    forall s | s in sessions.rows && s.status == Open && ExpiresAtBoundary(before, onTimeMinutes)
      ensures s.qrTokenExpiresAt == Some(NodeExpiry(s.sessionDate, onTimeMinutes))
    {
      var i :| 0 <= i < |sessions.rows| && sessions.rows[i] == s;
      if before[i].id == sessionId {
        FindSessionUnique(before, i);
      } else {
        assert before[i] in before;
      }
    }
    var updated := FindSession(sessions.rows, sessionId).value;
    r := Ok(Opened(updated, QrPayload(Some(updated.id), updated.qrToken)));
  }

  /** `closeSession` (both backends): 404 / 403 as for opening, then CLOSED without token or expiry. */
  method CloseSession(classes: ClassTable, sessions: SessionTable, sessionId: int, teacherId: int)
    returns (r: Result<Session>)
    requires sessions.Valid()
    modifies sessions
    ensures sessions.Valid()
    ensures !MayManage(old(sessions.rows), classes.rows, sessionId, teacherId) ==>
      r == Err(ManageError(old(sessions.rows), sessionId)) && sessions.rows == old(sessions.rows)
    ensures MayManage(old(sessions.rows), classes.rows, sessionId, teacherId) ==>
      r == Ok(ClosedRow(FindSession(old(sessions.rows), sessionId).value)) &&
      FindSession(sessions.rows, sessionId) == Some(r.value)
    ensures |sessions.rows| == |old(sessions.rows)|
    ensures forall i :: 0 <= i < |sessions.rows| ==>
      sessions.rows[i] ==
        if old(sessions.rows)[i].id == sessionId && MayManage(old(sessions.rows), classes.rows, sessionId, teacherId)
        then ClosedRow(old(sessions.rows)[i]) else old(sessions.rows)[i]
  {
    var found := FindSession(sessions.rows, sessionId);
    if found.None? {
      return Err(SessionNotFoundError);
    }
    if !OwnedBy(classes.rows, found.value.classId, teacherId) {
      return Err(Forbidden);
    }
    sessions.CloseSession(sessionId);
    r := Ok(FindSession(sessions.rows, sessionId).value);
  }

  // -----------------------------------------------------------------------
  // Membership removal
  // -----------------------------------------------------------------------

  /** Spring `removeMember`: the class must be the teacher's and the member row must belong to it. */
  method RemoveMember(classes: ClassTable, members: MemberTable, classId: int, memberId: int, teacherId: int)
    returns (r: Result<string>)
    requires members.Valid()
    modifies members
    ensures members.Valid()
    ensures !OwnedBy(classes.rows, classId, teacherId) ==> r == Err(ClassNotFound) && members.rows == old(members.rows)
    ensures OwnedBy(classes.rows, classId, teacherId) && FindMemberById(old(members.rows), memberId).None? ==>
      r == Err(ApiError(404, "Member not found")) && members.rows == old(members.rows)
    ensures OwnedBy(classes.rows, classId, teacherId) && FindMemberById(old(members.rows), memberId).Some? &&
            FindMemberById(old(members.rows), memberId).value.classId != classId ==>
      r == Err(ApiError(400, "Member not in this class")) && members.rows == old(members.rows)
    ensures OwnedBy(classes.rows, classId, teacherId) && FindMemberById(old(members.rows), memberId).Some? &&
            FindMemberById(old(members.rows), memberId).value.classId == classId ==>
      r == Ok("Removed") && members.rows == WithoutId(old(members.rows), memberId) &&
      !IsMember(members.rows, classId, FindMemberById(old(members.rows), memberId).value.studentId)
  {
    if !OwnedBy(classes.rows, classId, teacherId) {
      return Err(ClassNotFound);
    }
    var cm := FindMemberById(members.rows, memberId);
    if cm.None? {
      return Err(ApiError(404, "Member not found"));
    }
    if cm.value.classId != classId {
      return Err(ApiError(400, "Member not in this class"));
    }
    ghost var before := members.rows;
    members.Delete(memberId);
    forall m | m in members.rows && m.classId == classId
      ensures m.studentId != cm.value.studentId
    {
      var i :| 0 <= i < |before| && before[i] == m;
      var j :| 0 <= j < |before| && before[j] == cm.value;
      assert i != j;
    }
    r := Ok("Removed");
  }
}
