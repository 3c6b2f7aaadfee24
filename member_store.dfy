/**
 * The ClassMembers table. A (class, student) pair occurs at most once (constraint uq_class_student);
 * adding an existing pair answers the stored row instead of failing.
 */
module MemberStore {
  import opened Common
  import opened Domain
  import opened Sorting

  /** No two rows share a (classId, studentId) pair. */
  predicate UniqueMemberships(rows: seq<ClassMember>)
  {
    forall i, j :: 0 <= i < j < |rows| ==>
      rows[i].classId != rows[j].classId || rows[i].studentId != rows[j].studentId
  }

  predicate DistinctMemberIds(rows: seq<ClassMember>)
  {
    forall i, j :: 0 <= i < j < |rows| ==> rows[i].id != rows[j].id
  }

  /** `SELECT 1 FROM ClassMembers WHERE classId = ? AND studentId = ?` finds a row. */
  predicate IsMember(rows: seq<ClassMember>, classId: int, studentId: int)
  {
    exists m :: m in rows && m.classId == classId && m.studentId == studentId
  }

  /** First row of the pair, or none. */
  function FindMembership(rows: seq<ClassMember>, classId: int, studentId: int): (r: Option<ClassMember>)
    ensures r.None? <==> !IsMember(rows, classId, studentId)
    ensures r.Some? ==> r.value in rows && r.value.classId == classId && r.value.studentId == studentId
  {
    if rows == [] then None
    else if rows[0].classId == classId && rows[0].studentId == studentId then Some(rows[0])
    else
      FindMembership(rows[1..], classId, studentId)
  }

  /** `findById` on the membership table. */
  function FindMemberById(rows: seq<ClassMember>, id: int): (r: Option<ClassMember>)
    ensures r.None? <==> forall m :: m in rows ==> m.id != id
    ensures r.Some? ==> r.value in rows && r.value.id == id
  {
    if rows == [] then None
    else if rows[0].id == id then Some(rows[0])
    else FindMemberById(rows[1..], id)
  }

  /** `WHERE classId = ?`, in table order. */
  function MembersOfClass(rows: seq<ClassMember>, classId: int): (r: seq<ClassMember>)
    ensures forall m :: m in r <==> m in rows && m.classId == classId
  {
    if rows == [] then []
    else
      var rest := MembersOfClass(rows[1..], classId);
      if rows[0].classId == classId then [rows[0]] + rest else rest
  }

  /** The student ids of a list of memberships, in order. */
  function StudentIds(ms: seq<ClassMember>): (r: seq<int>)
    ensures |r| == |ms|
    ensures forall i :: 0 <= i < |ms| ==> r[i] == ms[i].studentId
  {
    if ms == [] then [] else [ms[0].studentId] + StudentIds(ms[1..])
  }

  /** A row in front of rows taken from after it keeps both keys unique. */
  lemma ConsKeepsKeys(x: ClassMember, rest: seq<ClassMember>, tail: seq<ClassMember>)
    requires forall m :: m in rest ==> m in tail
    requires forall m :: m in tail ==> (m.classId != x.classId || m.studentId != x.studentId) && m.id != x.id
    requires UniqueMemberships(rest) && DistinctMemberIds(rest)
    ensures UniqueMemberships([x] + rest) && DistinctMemberIds([x] + rest)
  {
    var r := [x] + rest;
    forall j | 1 <= j < |r|
      ensures (r[0].classId != r[j].classId || r[0].studentId != r[j].studentId) && r[0].id != r[j].id
    {
      assert r[j] == rest[j - 1];
      assert rest[j - 1] in rest;
    }
  }

  /** A row of a table with unique keys differs in both keys from every later row. */
  lemma HeadKeysDiffer(rows: seq<ClassMember>)
    requires rows != [] && UniqueMemberships(rows) && DistinctMemberIds(rows)
    ensures forall m :: m in rows[1..] ==>
      (m.classId != rows[0].classId || m.studentId != rows[0].studentId) && m.id != rows[0].id
  {
    forall m | m in rows[1..]
      ensures (m.classId != rows[0].classId || m.studentId != rows[0].studentId) && m.id != rows[0].id
    {
      var k :| 0 <= k < |rows[1..]| && rows[1..][k] == m;
      assert rows[k + 1] == m;
    }
  }

  /** The memberships of one class keep both keys of the table unique. */
  lemma {:induction false} MembersOfClassKeepsKeys(rows: seq<ClassMember>, classId: int)
    requires UniqueMemberships(rows) && DistinctMemberIds(rows)
    ensures UniqueMemberships(MembersOfClass(rows, classId)) && DistinctMemberIds(MembersOfClass(rows, classId))
  {
    if rows != [] {
      MembersOfClassKeepsKeys(rows[1..], classId);
      if rows[0].classId == classId {
        HeadKeysDiffer(rows);
        ConsKeepsKeys(rows[0], MembersOfClass(rows[1..], classId), rows[1..]);
      }
    }
  }

  /** The rows without the one whose id is `id`. */
  function WithoutId(rows: seq<ClassMember>, id: int): (r: seq<ClassMember>)
    ensures forall m :: m in r <==> m in rows && m.id != id
  {
    if rows == [] then []
    else
      var rest := WithoutId(rows[1..], id);
      if rows[0].id == id then rest
      else
        assert forall m :: m in rest ==> m in rows[1..];
        [rows[0]] + rest
  }

  /** Deleting a row keeps the (class, student) pairs unique and the ids distinct. */
  lemma {:induction false} WithoutIdKeepsKeys(rows: seq<ClassMember>, id: int)
    requires UniqueMemberships(rows) && DistinctMemberIds(rows)
    ensures UniqueMemberships(WithoutId(rows, id)) && DistinctMemberIds(WithoutId(rows, id))
  {
    if rows != [] {
      WithoutIdKeepsKeys(rows[1..], id);
      if rows[0].id != id {
        HeadKeysDiffer(rows);
        ConsKeepsKeys(rows[0], WithoutId(rows[1..], id), rows[1..]);
      }
    }
  }

  function JoinedAsc(m: ClassMember): int { m.joinedAt }
  function CreatedDesc(c: ClassEntity): int { -c.createdAt }

  /** Classes joined by a student: the classes with a membership row for that student. */
  function JoinedClasses(classes: seq<ClassEntity>, rows: seq<ClassMember>, studentId: int): (r: seq<ClassEntity>)
    ensures forall c :: c in r <==> c in classes && IsMember(rows, c.id, studentId)
  {
    if classes == [] then []
    else if IsMember(rows, classes[0].id, studentId) then [classes[0]] + JoinedClasses(classes[1..], rows, studentId)
    else JoinedClasses(classes[1..], rows, studentId)
  }

  lemma StudentIdsDistinct(ms: seq<ClassMember>, classId: int)
    requires UniqueMemberships(ms)
    requires forall m :: m in ms ==> m.classId == classId
    ensures forall i, j :: 0 <= i < j < |ms| ==> StudentIds(ms)[i] != StudentIds(ms)[j]
  {
    forall i, j | 0 <= i < j < |ms|
      ensures StudentIds(ms)[i] != StudentIds(ms)[j]
    {
      assert ms[i] in ms && ms[j] in ms;
    }
  }

  class MemberTable {
    var rows: seq<ClassMember>
    var nextId: int

    ghost predicate Valid()
      reads this
    {
      UniqueMemberships(rows) && DistinctMemberIds(rows) && forall m :: m in rows ==> m.id < nextId
    }

    constructor ()
      ensures Valid() && rows == [] && nextId == 1
    {
      rows := [];
      nextId := 1;
    }

    /**
     * Adds a student to a class; when the pair already exists the duplicate-key error is caught
     * and the existing row is answered, leaving the table unchanged.
     */
    method AddStudentToClass(classId: int, studentId: int, now: Time) returns (m: ClassMember)
      requires Valid()
      modifies this
      ensures Valid()
      ensures m in rows && m.classId == classId && m.studentId == studentId
      ensures IsMember(rows, classId, studentId)
      ensures IsMember(old(rows), classId, studentId) ==>
        rows == old(rows) && nextId == old(nextId) && Some(m) == FindMembership(old(rows), classId, studentId)
      ensures !IsMember(old(rows), classId, studentId) ==>
        m == ClassMember(old(nextId), classId, studentId, now) &&
        rows == old(rows) + [m] && nextId == old(nextId) + 1
    {
      var existing := FindMembership(rows, classId, studentId);
      if existing.Some? {
        m := existing.value;
      } else {
        m := ClassMember(nextId, classId, studentId, now);
        rows := rows + [m];
        nextId := nextId + 1;
      }
    }

    /** Removes the membership row with id `id`. */
    method Delete(id: int)
      requires Valid()
      modifies this
      ensures Valid() && nextId == old(nextId)
      ensures rows == WithoutId(old(rows), id)
      ensures FindMemberById(rows, id).None?
    {
      WithoutIdKeepsKeys(rows, id);
      rows := WithoutId(rows, id);
    }

    /** Members of a class ordered by join time (`ORDER BY joinedAt ASC`). */
    function GetMembersByClass(classId: int): (r: seq<ClassMember>)
      reads this
      ensures forall i, j :: 0 <= i < j < |r| ==> r[i].joinedAt <= r[j].joinedAt
      ensures multiset(r) == multiset(MembersOfClass(rows, classId))
    {
      SortBy(MembersOfClass(rows, classId), JoinedAsc)
    }

    /** The ids of the students of a class; each student occurs once. */
    function GetStudentsByClass(classId: int): (r: seq<int>)
      reads this
      requires Valid()
      ensures forall s :: s in r <==> IsMember(rows, classId, s)
      ensures forall i, j :: 0 <= i < j < |r| ==> r[i] != r[j]
    {
      var ms := MembersOfClass(rows, classId);
      var r := StudentIds(ms);
      MembersOfClassKeepsKeys(rows, classId);
      StudentIdsDistinct(ms, classId);
      assert forall s :: IsMember(rows, classId, s) ==> s in r by {
        forall s | IsMember(rows, classId, s) ensures s in r {
          var m :| m in rows && m.classId == classId && m.studentId == s;
          var k :| 0 <= k < |ms| && ms[k] == m;
          assert r[k] == s;
        }
      }
      r
    }

    /** Classes a student has joined, newest class first (`ORDER BY c.createdAt DESC`). */
    function GetClassesByStudent(classes: seq<ClassEntity>, studentId: int): (r: seq<ClassEntity>)
      reads this
      ensures forall i, j :: 0 <= i < j < |r| ==> r[i].createdAt >= r[j].createdAt
      ensures multiset(r) == multiset(JoinedClasses(classes, rows, studentId))
    {
      SortBy(JoinedClasses(classes, rows, studentId), CreatedDesc)
    }
  }
}
