/**
 * The Sessions table: the rows, the queries of the session model and the two updates that open
 * and close a session. A session is created CLOSED without token, expiry or teacher position.
 */
module SessionStore {
  import opened Common
  import opened Domain
  import opened Sorting

  predicate DistinctSessionIds(rows: seq<Session>)
  {
    forall i, j :: 0 <= i < j < |rows| ==> rows[i].id != rows[j].id
  }

  /** `SELECT * FROM Sessions WHERE id = ?`, first row or null. */
  function FindSession(rows: seq<Session>, id: int): (r: Option<Session>)
    ensures r.None? <==> forall s :: s in rows ==> s.id != id
    ensures r.Some? ==> r.value in rows && r.value.id == id
  {
    if rows == [] then None
    else if rows[0].id == id then Some(rows[0])
    else FindSession(rows[1..], id)
  }

  /** Under distinct ids the row found is the only row with that id. */
  lemma FindSessionUnique(rows: seq<Session>, i: int)
    requires DistinctSessionIds(rows)
    requires 0 <= i < |rows|
    ensures FindSession(rows, rows[i].id) == Some(rows[i])
  {
    var r := FindSession(rows, rows[i].id);
    var k :| 0 <= k < |rows| && rows[k] == r.value;
    assert k == i;
  }

  /** `WHERE classId = ?`, in table order. */
  function SessionsOfClass(rows: seq<Session>, classId: int): (r: seq<Session>)
    ensures |r| <= |rows|
    ensures forall s :: s in r <==> s in rows && s.classId == classId
  {
    if rows == [] then []
    else
      var rest := SessionsOfClass(rows[1..], classId);
      if rows[0].classId == classId then [rows[0]] + rest else rest
  }

  /** A row in front of rows taken from after it, with an id none of them has, keeps ids distinct. */
  lemma ConsKeepsDistinct(x: Session, rest: seq<Session>, tail: seq<Session>)
    requires forall s :: s in rest ==> s in tail
    requires forall s :: s in tail ==> s.id != x.id
    requires DistinctSessionIds(rest)
    ensures DistinctSessionIds([x] + rest)
  {
    var r := [x] + rest;
    forall j | 1 <= j < |r| ensures r[0].id != r[j].id {
      assert r[j] == rest[j - 1];
      assert rest[j - 1] in rest;
    }
  }

  /** In a table with distinct ids, no later row shares the first row's id. */
  lemma HeadIdDiffers(rows: seq<Session>)
    requires rows != [] && DistinctSessionIds(rows)
    ensures forall s :: s in rows[1..] ==> s.id != rows[0].id
  {
    forall s | s in rows[1..] ensures s.id != rows[0].id {
      var k :| 0 <= k < |rows[1..]| && rows[1..][k] == s;
      assert rows[k + 1] == s;
    }
  }

  /** The sessions of one class keep the ids of the table distinct. */
  lemma {:induction false} SessionsOfClassKeepsDistinct(rows: seq<Session>, classId: int)
    requires DistinctSessionIds(rows)
    ensures DistinctSessionIds(SessionsOfClass(rows, classId))
  {
    if rows != [] {
      SessionsOfClassKeepsDistinct(rows[1..], classId);
      if rows[0].classId == classId {
        HeadIdDiffers(rows);
        ConsKeepsDistinct(rows[0], SessionsOfClass(rows[1..], classId), rows[1..]);
      }
    }
  }

  /** `WHERE classId IN (...)`, in table order. */
  function SessionsOfClasses(rows: seq<Session>, classIds: seq<int>): (r: seq<Session>)
    ensures forall s :: s in r <==> s in rows && s.classId in classIds
  {
    if rows == [] then []
    else if rows[0].classId in classIds then [rows[0]] + SessionsOfClasses(rows[1..], classIds)
    else SessionsOfClasses(rows[1..], classIds)
  }

  function SessionIdOf(s: Session): int { s.id }
  function DateAsc(s: Session): int { s.sessionDate }
  function DateDesc(s: Session): int { -s.sessionDate }

  /** The row `s` after the teacher opens it with a token, an expiry and the teacher's position. */
  function OpenedRow(s: Session, token: string, expiresAt: Time, lat: real, lng: real): (r: Session)
    ensures r.id == s.id && r.classId == s.classId && r.title == s.title && r.sessionDate == s.sessionDate
    ensures r.status == Open && r.qrToken == Some(token) && r.qrTokenExpiresAt == Some(expiresAt)
    ensures r.teacherLat == Some(lat) && r.teacherLng == Some(lng)
  {
    s.(status := Open, qrToken := Some(token), qrTokenExpiresAt := Some(expiresAt),
       teacherLat := Some(lat), teacherLng := Some(lng))
  }

  /** The row `s` after closing: no token, no expiry; the teacher position stays. */
  function ClosedRow(s: Session): (r: Session)
    ensures r.id == s.id && r.classId == s.classId && r.title == s.title && r.sessionDate == s.sessionDate
    ensures r.status == Closed && r.qrToken.None? && r.qrTokenExpiresAt.None?
    ensures r.teacherLat == s.teacherLat && r.teacherLng == s.teacherLng
  {
    s.(status := Closed, qrToken := None, qrTokenExpiresAt := None)
  }

  /** An UPDATE ... WHERE id = `id`: the row with that id becomes `f` of itself, the others stay. */
  function Updated(rows: seq<Session>, id: int, f: Session -> Session): (r: seq<Session>)
    ensures |r| == |rows|
    ensures forall i :: 0 <= i < |rows| ==> r[i] == if rows[i].id == id then f(rows[i]) else rows[i]
  {
    if rows == [] then [] else [if rows[0].id == id then f(rows[0]) else rows[0]] + Updated(rows[1..], id, f)
  }

  /**
   * An update that keeps ids keeps them distinct and below the next id, the row found is the
   * updated one, and an unknown id changes nothing.
   */
  lemma UpdatedKeepsKeys(rows: seq<Session>, id: int, f: Session -> Session, bound: int)
    requires forall s :: f(s).id == s.id
    requires DistinctSessionIds(rows) && forall s :: s in rows ==> s.id < bound
    ensures DistinctSessionIds(Updated(rows, id, f))
    ensures forall s :: s in Updated(rows, id, f) ==> s.id < bound
    ensures FindSession(rows, id).Some? ==> FindSession(Updated(rows, id, f), id) == Some(f(FindSession(rows, id).value))
    ensures FindSession(rows, id).None? ==> Updated(rows, id, f) == rows
  {
    UpdatedKeepsIds(rows, id, f, bound);
    if FindSession(rows, id).Some? {
      var k :| 0 <= k < |rows| && rows[k] == FindSession(rows, id).value;
      FindSessionUnique(Updated(rows, id, f), k);
    } else {
      UpdatedWithoutMatch(rows, id, f);
    }
  }

  /** An update that keeps ids keeps them distinct and below the bound. */
  lemma UpdatedKeepsIds(rows: seq<Session>, id: int, f: Session -> Session, bound: int)
    requires forall s :: f(s).id == s.id
    requires DistinctSessionIds(rows) && forall s :: s in rows ==> s.id < bound
    ensures DistinctSessionIds(Updated(rows, id, f))
    ensures forall s :: s in Updated(rows, id, f) ==> s.id < bound
  {
    var r := Updated(rows, id, f);
    assert forall i :: 0 <= i < |r| ==> r[i].id == rows[i].id;
    forall s | s in r ensures s.id < bound {
      var i :| 0 <= i < |r| && r[i] == s;
      assert rows[i] in rows;
    }
  }

  /** An update of an id no row has changes nothing. */
  lemma UpdatedWithoutMatch(rows: seq<Session>, id: int, f: Session -> Session)
    requires forall s :: s in rows ==> s.id != id
    ensures Updated(rows, id, f) == rows
  {
    assert forall i :: 0 <= i < |rows| ==> rows[i] in rows;
  }

  class SessionTable {
    var rows: seq<Session>
    var nextId: int

    ghost predicate Valid()
      reads this
    {
      DistinctSessionIds(rows) && forall s :: s in rows ==> s.id < nextId
    }

    constructor ()
      ensures Valid() && rows == [] && nextId == 1
    {
      rows := [];
      nextId := 1;
    }

    /** INSERT of a new session: CLOSED, with no token, expiry or teacher position. */
    method CreateSession(classId: int, title: string, sessionDate: Time) returns (s: Session)
      requires Valid()
      modifies this
      ensures Valid()
      ensures s == Session(old(nextId), classId, title, sessionDate, Closed, None, None, None, None)
      ensures rows == old(rows) + [s] && nextId == old(nextId) + 1
      ensures FindSession(rows, s.id) == Some(s)
    {
      s := Session(nextId, classId, title, sessionDate, Closed, None, None, None, None);
      rows := rows + [s];
      nextId := nextId + 1;
      FindSessionUnique(rows, |rows| - 1);
    }

    /** UPDATE of the row with id `id` to OPEN with the given token, expiry and position. */
    method OpenSession(id: int, token: string, expiresAt: Time, lat: real, lng: real)
      requires Valid()
      modifies this
      ensures Valid() && nextId == old(nextId) && |rows| == |old(rows)|
      ensures forall i :: 0 <= i < |rows| ==>
        rows[i] == if old(rows)[i].id == id then OpenedRow(old(rows)[i], token, expiresAt, lat, lng) else old(rows)[i]
      ensures FindSession(old(rows), id).Some? ==>
        FindSession(rows, id) == Some(OpenedRow(FindSession(old(rows), id).value, token, expiresAt, lat, lng))
      ensures FindSession(old(rows), id).None? ==> rows == old(rows)
    {
      var f := (s: Session) => OpenedRow(s, token, expiresAt, lat, lng);
      UpdatedKeepsKeys(rows, id, f, nextId);
      rows := Updated(rows, id, f);
    }

    /** UPDATE of the row with id `id` to CLOSED, clearing token and expiry. */
    method CloseSession(id: int)
      requires Valid()
      modifies this
      ensures Valid() && nextId == old(nextId) && |rows| == |old(rows)|
      ensures forall i :: 0 <= i < |rows| ==>
        rows[i] == if old(rows)[i].id == id then ClosedRow(old(rows)[i]) else old(rows)[i]
      ensures FindSession(old(rows), id).Some? ==>
        FindSession(rows, id) == Some(ClosedRow(FindSession(old(rows), id).value))
      ensures FindSession(old(rows), id).None? ==> rows == old(rows)
    {
      var f := (s: Session) => ClosedRow(s);
      UpdatedKeepsKeys(rows, id, f, nextId);
      rows := Updated(rows, id, f);
    }

    /** `WHERE classId = ? ORDER BY sessionDate DESC`. */
    function GetSessionsByClass(classId: int): (r: seq<Session>)
      reads this
      ensures forall i, j :: 0 <= i < j < |r| ==> r[i].sessionDate >= r[j].sessionDate
      ensures multiset(r) == multiset(SessionsOfClass(rows, classId))
      ensures forall s :: s in r <==> s in rows && s.classId == classId
    {
      SortByKeepsElements(SessionsOfClass(rows, classId), DateDesc);
      SortBy(SessionsOfClass(rows, classId), DateDesc)
    }

    /** `WHERE classId IN (...)`; an absent or empty id list answers the empty list. */
    function GetSessionsByClassIds(classIds: Option<seq<int>>): (r: seq<Session>)
      reads this
      ensures (classIds.None? || classIds.value == []) ==> r == []
      ensures classIds.Some? ==> forall s :: s in r <==> s in rows && s.classId in classIds.value
    {
      if classIds.None? || |classIds.value| == 0 then [] else SessionsOfClasses(rows, classIds.value)
    }
  }
}
