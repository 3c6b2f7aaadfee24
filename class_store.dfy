/** The Classes table: ids and class codes are unique. */
module ClassStore {
  import opened Common
  import opened Domain

  predicate DistinctClassIds(rows: seq<ClassEntity>)
  {
    forall i, j :: 0 <= i < j < |rows| ==> rows[i].id != rows[j].id
  }

  predicate DistinctCodes(rows: seq<ClassEntity>)
  {
    forall i, j :: 0 <= i < j < |rows| ==> rows[i].code != rows[j].code
  }

  predicate CodeTaken(rows: seq<ClassEntity>, code: string)
  {
    exists c :: c in rows && c.code == code
  }

  /** `findByCode`: the class holding `code`, if any. */
  function FindByCode(rows: seq<ClassEntity>, code: string): (r: Option<ClassEntity>)
    ensures r.None? <==> !CodeTaken(rows, code)
    ensures r.Some? ==> r.value in rows && r.value.code == code
  {
    if rows == [] then None
    else if rows[0].code == code then Some(rows[0])
    else FindByCode(rows[1..], code)
  }

  /** `findById` / `getById` on the Classes table. */
  function FindClass(rows: seq<ClassEntity>, id: int): (r: Option<ClassEntity>)
    ensures r.None? <==> forall c :: c in rows ==> c.id != id
    ensures r.Some? ==> r.value in rows && r.value.id == id
  {
    if rows == [] then None
    else if rows[0].id == id then Some(rows[0])
    else FindClass(rows[1..], id)
  }

  /** The class `classId` exists and belongs to `teacherId`. */
  predicate OwnedBy(rows: seq<ClassEntity>, classId: int, teacherId: int)
  {
    FindClass(rows, classId).Some? && FindClass(rows, classId).value.teacherId == teacherId
  }

  class ClassTable {
    var rows: seq<ClassEntity>
    var nextId: int

    ghost predicate Valid()
      reads this
    {
      DistinctClassIds(rows) && DistinctCodes(rows) && forall c :: c in rows ==> c.id < nextId
    }

    constructor ()
      ensures Valid() && rows == [] && nextId == 1
    {
      rows := [];
      nextId := 1;
    }

    /** INSERT of a class; a code already in use violates the unique constraint and nothing is stored. */
    method Insert(className: string, code: string, teacherId: int, now: Time) returns (r: Option<ClassEntity>)
      requires Valid()
      modifies this
      ensures Valid()
      ensures r.None? <==> CodeTaken(old(rows), code)
      ensures r.None? ==> rows == old(rows) && nextId == old(nextId)
      ensures r.Some? ==>
        r.value == ClassEntity(old(nextId), className, code, teacherId, now) &&
        rows == old(rows) + [r.value] && nextId == old(nextId) + 1
    {
      if FindByCode(rows, code).Some? {
        r := None;
      } else {
        var c := ClassEntity(nextId, className, code, teacherId, now);
        rows := rows + [c];
        nextId := nextId + 1;
        r := Some(c);
      }
    }
  }
}
