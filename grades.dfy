/** The grades service: one grade row per course in the `grade_c` table,
    found by its course id rather than by its own id. The per-category
    breakdown and the assignment list are stored as JSON text. */
module Grades {
  import opened JsValue
  import opened Remote
  import opened Failures
  import opened Replies
  import opened FieldMapping
  import Records

  const NotFound := "Grade not found"

  /** The columns every fetch asks for. */
  const Fields: seq<string> :=
    ["Name", "course_id_c", "current_grade_c", "letter_grade_c", "categories_c", "assignments_c"]

  /** The one condition of the lookup: `course_id_c` equal to the course id. */
  function CourseFilter(courseId: int): (f: Filter)
    ensures f.fieldName == "course_id_c" && f.operator == "EqualTo"
    ensures f.values == [Num(courseId)]
  {
    Filter("course_id_c", "EqualTo", [Num(courseId)])
  }

  /** `v.length`: arrays and strings have one, a plain object may carry a
      `length` property, other values have none. */
  function Length(v: Value): (n: Value)
    ensures v.Arr? ==> n == Num(|v.items|)
    ensures v.Str? ==> n == Num(|v.s|)
    ensures Nullish(v) || v.Bool? || v.Num? ==> n == Undefined
  {
    match v
    case Arr(items) => Num(|items|)
    case Str(s) => Num(|s|)
    case Obj(m) => Get(m, "length")
    case _ => Undefined
  }

  /** `v[0]`. */
  function First(v: Value): (f: Value)
    ensures v.Arr? && v.items != [] ==> f == v.items[0]
    ensures v.Str? && v.s != [] ==> f == Str(v.s[..1])
    ensures (v.Arr? && v.items == []) || (v.Str? && v.s == []) || Nullish(v) || v.Bool? || v.Num? ==> f == Undefined
  {
    match v
    case Arr(items) => if items == [] then Undefined else items[0]
    case Str(s) => if s == [] then Undefined else Str(s[..1])
    case Obj(m) => Get(m, "0")
    case _ => Undefined
  }

  /** `!data || data.length === 0`: the fetch found no grade. */
  predicate NoRows(data: Value): (none: bool)
    ensures Nullish(data) ==> none
    ensures data.Arr? ==> (none <==> data.items == [])
    ensures data.Str? ==> (none <==> data.s == [])
  {
    !Truthy(data) || Length(data) == Num(0)
  }

  /** getById after the client call: "Grade not found" when the data is
      missing or empty, otherwise its first row. */
  function LookupOutcome(reply: Reply): (o: Outcome)
    ensures reply.Rejected? ==> o == Rejection(reply)
    ensures reply.Resolved? && !Accepted(reply) ==> o == Refusal(reply)
    ensures Accepted(reply) && NoRows(reply.response.data) ==> o == Threw(Raised(Str(NotFound)))
    ensures Accepted(reply) && !NoRows(reply.response.data) ==> o == Returned(First(reply.response.data))
    ensures o.Returned? ==> Accepted(reply) && Truthy(reply.response.data)
  {
    Catch(
      match reply
      case Rejected(e) => Threw(External(e))
      case Resolved(r) =>
        if !Truthy(r.success) then Threw(Raised(r.message))
        else if NoRows(r.data) then Threw(Raised(Str(NotFound)))
        else Returned(First(r.data)))
  }

  /** For the array the client returns: no rows, missing data or null data
      give "Grade not found", and a non-empty array gives its first row. */
  lemma LookupRows(reply: Reply)
    requires Accepted(reply)
    ensures reply.response.data.Arr? ==>
              (LookupOutcome(reply) == Threw(Raised(Str(NotFound))) <==> reply.response.data.items == [])
    ensures reply.response.data.Arr? && reply.response.data.items != [] ==>
              LookupOutcome(reply) == Returned(reply.response.data.items[0])
    ensures Nullish(reply.response.data) ==> LookupOutcome(reply) == Threw(Raised(Str(NotFound)))
  {
  }

  /** getById(courseId): a fetch with exactly one filter on the course id. */
  function GetById(courseId: int, reply: Reply): (x: Exchange)
    ensures x.requests == [FetchRecords(Schema.name, Fields, Some([CourseFilter(courseId)]))]
    ensures x.outcome == LookupOutcome(reply)
  {
    Exchange([FetchRecords(Schema.name, Fields, Some([CourseFilter(courseId)]))], LookupOutcome(reply))
  }

  /** The record `create` submits. `Name` is the given name when truthy and
      otherwise "Grade for Course " followed by the stored course id;
      the other columns take the canonical key's value when truthy and
      otherwise the alias's; categories and assignments are stringified
      after that choice. */
  function CreateData(a: Payload, js: Builtins): (p: Payload)
    ensures p.Keys == {"Name", "course_id_c", "current_grade_c", "letter_grade_c", "categories_c", "assignments_c"}
    ensures Truthy(Get(a, "Name")) ==> p["Name"] == Get(a, "Name")
    ensures !Truthy(Get(a, "Name")) ==> p["Name"] == Str("Grade for Course " + js.template(p["course_id_c"]))
    ensures Truthy(p["Name"])
    ensures CanonicalElseAlias(p["course_id_c"], Get(a, "course_id_c"), Get(a, "courseId"))
    ensures CanonicalElseAlias(p["current_grade_c"], Get(a, "current_grade_c"), Get(a, "currentGrade"))
    ensures CanonicalElseAlias(p["letter_grade_c"], Get(a, "letter_grade_c"), Get(a, "letterGrade"))
    ensures Truthy(Get(a, "categories_c")) ==> p["categories_c"] == js.stringify(Get(a, "categories_c"))
    ensures !Truthy(Get(a, "categories_c")) ==> p["categories_c"] == js.stringify(Get(a, "categories"))
    ensures Truthy(Get(a, "assignments_c")) ==> p["assignments_c"] == js.stringify(Get(a, "assignments_c"))
    ensures !Truthy(Get(a, "assignments_c")) ==> p["assignments_c"] == js.stringify(Get(a, "assignments"))
  {
    var courseId := Or(Get(a, "course_id_c"), Get(a, "courseId"));
    Row(if Truthy(Get(a, "Name")) then Get(a, "Name") else Str("Grade for Course " + js.template(courseId)),
        courseId,
        Or(Get(a, "current_grade_c"), Get(a, "currentGrade")),
        Or(Get(a, "letter_grade_c"), Get(a, "letterGrade")),
        js.stringify(Or(Get(a, "categories_c"), Get(a, "categories"))),
        js.stringify(Or(Get(a, "assignments_c"), Get(a, "assignments"))))
  }

  /** A grade row with the six columns in `Fields` order. */
  function Row(name: Value, courseId: Value, currentGrade: Value, letterGrade: Value,
               categories: Value, assignments: Value): (p: Payload)
    ensures p.Keys == {"Name", "course_id_c", "current_grade_c", "letter_grade_c", "categories_c", "assignments_c"}
    ensures p["Name"] == name && p["course_id_c"] == courseId && p["current_grade_c"] == currentGrade
    ensures p["letter_grade_c"] == letterGrade && p["categories_c"] == categories && p["assignments_c"] == assignments
  {
    map["Name" := name, "course_id_c" := courseId, "current_grade_c" := currentGrade,
        "letter_grade_c" := letterGrade, "categories_c" := categories, "assignments_c" := assignments]
  }

  /** The eleven `update` lines, grouped by column: `Name` has no alias,
      categories and assignments are stringified. */
  const Columns: seq<Column> := [
    Column("Name", ["Name"], false),
    Column("course_id_c", ["course_id_c", "courseId"], false),
    Column("current_grade_c", ["current_grade_c", "currentGrade"], false),
    Column("letter_grade_c", ["letter_grade_c", "letterGrade"], false),
    Column("categories_c", ["categories_c", "categories"], true),
    Column("assignments_c", ["assignments_c", "assignments"], true)
  ]

  /** The table as the shared operations see it. `getAll()` is
      `Records.GetAll(Schema, ...)` and `create(a)` is
      `Records.Create(Schema, CreateData(a, ...), ...)`; `getById`, `update`
      and `delete` work through the course lookup below. */
  const Schema := Records.Table("grade_c", Fields, Columns)

  lemma ColumnsWellFormed()
    ensures DistinctTargets(Columns)
    ensures forall k :: 0 <= k < |Columns| ==> Columns[k].target != "Id"
    ensures |Columns[0].sources| == 1
    ensures forall k :: 1 <= k < |Columns| ==> |Columns[k].sources| == 2
    ensures forall k :: 0 <= k < |Columns| ==> Columns[k].target == Fields[k]
    ensures forall k :: 0 <= k < |Columns| ==> |Columns[k].sources| > 0 && Columns[k].sources[0] == Columns[k].target
  {
  }

  /** The update payload for a grade whose id is `id`: `Name` is written
      exactly when given, every other column exactly when its canonical key
      or its alias is defined, with the alias winning; categories and
      assignments are stringified; no other key appears. */
  lemma UpdatePayloadRule(id: Value, u: Payload, js: Builtins)
    ensures "Id" in UpdateData(id, Columns, u, js) && UpdateData(id, Columns, u, js)["Id"] == id
    ensures forall key :: key in UpdateData(id, Columns, u, js) ==> key == "Id" || key in Fields
    ensures KeyWrites(UpdateData(id, Columns, u, js), Columns[0], u, js)
    ensures forall k :: 1 <= k < |Columns| ==> AliasOverrides(UpdateData(id, Columns, u, js), Columns[k], u, js)
    ensures forall k :: 0 <= k < |Columns| ==> (Columns[k].serialize <==> Columns[k].target in {"categories_c", "assignments_c"})
  {
    ColumnsWellFormed();
    ColumnsOverride(id, Columns, u, js);
  }

  /** An update that names columns only through their aliases (`courseId`,
      `currentGrade`, ...) stores what the update giving the same values
      under the canonical keys stores. */
  lemma AliasOnlyUpdateMatchesCanonical(id: Value, u: Payload, v: Payload, js: Builtins)
    requires !Defined(u, "Name") && !Defined(v, "Name")
    requires forall k :: 1 <= k < |Columns| ==> !Defined(u, Columns[k].sources[0])
    requires forall k :: 1 <= k < |Columns| ==>
               Get(v, Columns[k].sources[0]) == Get(u, Columns[k].sources[1]) && !Defined(v, Columns[k].sources[1])
    ensures UpdateData(id, Columns, u, js) == UpdateData(id, Columns, v, js)
  {
    ColumnsWellFormed();
    AliasOnlyUpdate(id, Columns, u, v, js);
  }

  /** update as written: `this` is undefined inside a module-level arrow
      function, so reading `this.getById` throws a TypeError before any
      client call, and the catch block re-throws it unchanged. */
  function UpdateAsWritten(courseId: int, u: Payload, js: Builtins, lookup: Reply, reply: Reply): (x: Exchange)
    ensures x.requests == []
    ensures x.outcome.Threw? && x.outcome.failure == TypeErr("getById")
  {
    Exchange([], Catch(Threw(TypeErr("getById"))))
  }

  /** delete as written: the same TypeError on `this.getById`. */
  function DeleteAsWritten(courseId: int, lookup: Reply, reply: Reply): (x: Exchange)
    ensures x.requests == []
    ensures x.outcome.Threw? && x.outcome.failure == TypeErr("getById")
  {
    Exchange([], Catch(Threw(TypeErr("getById"))))
  }

  /** update with the lookup working: find the course's grade, refuse a
      falsy one, then write the payload under the grade's own `Id`. */
  method Update(courseId: int, u: Payload, js: Builtins, lookup: Reply, reply: Reply) returns (x: Exchange)
    ensures |x.requests| >= 1 && x.requests[0] == FetchRecords(Schema.name, Fields, Some([CourseFilter(courseId)]))
    ensures LookupOutcome(lookup).Threw? ==> x == Exchange(GetById(courseId, lookup).requests, LookupOutcome(lookup))
    ensures LookupOutcome(lookup).Returned? && !Truthy(LookupOutcome(lookup).value) ==>
              x == Exchange(GetById(courseId, lookup).requests, Threw(Raised(Str(NotFound))))
    ensures LookupOutcome(lookup).Returned? && Truthy(LookupOutcome(lookup).value) ==>
              && x.requests == GetById(courseId, lookup).requests
                               + [UpdateRecord(Schema.name, [UpdateData(Member(LookupOutcome(lookup).value, "Id"), Columns, u, js)])]
              && x.outcome == WriteOutcome(reply, js)
  {
    var found := GetById(courseId, lookup);
    CatchKeepsOwnErrors(found.outcome);
    match found.outcome
    case Threw(f) =>
      x := Exchange(found.requests, Catch(Threw(f)));
    case Returned(existingGrade) =>
      if !Truthy(existingGrade) {
        x := Exchange(found.requests, Catch(Threw(Raised(Str(NotFound)))));
      } else {
        var written := Records.Update(Schema, Member(existingGrade, "Id"), u, js, reply);
        x := Exchange(found.requests + written.requests, written.outcome);
      }
  }

  /** delete with the lookup working: find the course's grade, refuse a
      falsy one, then delete it by its own `Id`. */
  function Delete(courseId: int, lookup: Reply, reply: Reply): (x: Exchange)
    ensures |x.requests| >= 1 && x.requests[0] == FetchRecords(Schema.name, Fields, Some([CourseFilter(courseId)]))
    ensures LookupOutcome(lookup).Threw? ==> x == Exchange(GetById(courseId, lookup).requests, LookupOutcome(lookup))
    ensures LookupOutcome(lookup).Returned? && !Truthy(LookupOutcome(lookup).value) ==>
              x == Exchange(GetById(courseId, lookup).requests, Threw(Raised(Str(NotFound))))
    ensures LookupOutcome(lookup).Returned? && Truthy(LookupOutcome(lookup).value) ==>
              && x.requests == GetById(courseId, lookup).requests
                               + [DeleteRecord(Schema.name, [Member(LookupOutcome(lookup).value, "Id")])]
              && x.outcome == DeleteOutcome(reply)
  {
    var found := GetById(courseId, lookup);
    CatchKeepsOwnErrors(found.outcome);
    match found.outcome
    case Threw(f) => Exchange(found.requests, Catch(Threw(f)))
    case Returned(existingGrade) =>
      if !Truthy(existingGrade) then Exchange(found.requests, Catch(Threw(Raised(Str(NotFound)))))
      else
        var deleted := Records.Delete(Schema, Member(existingGrade, "Id"), reply);
        Exchange(found.requests + deleted.requests, deleted.outcome)
  }

  /** A course without a grade row: delete stops after the lookup with
      "Grade not found" and never sends a deletion. (For update, the same
      follows from the second postcondition of `Update`.) */
  lemma MissingGradeStopsDelete(courseId: int, lookup: Reply, reply: Reply)
    requires Accepted(lookup) && NoRows(lookup.response.data)
    ensures Delete(courseId, lookup, reply).outcome == Threw(Raised(Str(NotFound)))
    ensures |Delete(courseId, lookup, reply).requests| == 1
  {
  }

  /** The discrepancy for a course that has a grade: the lookup finds row
      `{Id: 7}`, and the working delete sends a deletion of record 7 and
      reports true,
      while delete and update as written throw a TypeError and send nothing. */
  lemma ThisLookupFails(js: Builtins, u: Payload)
    ensures var lookup := Resolved(Response(Bool(true), Undefined, Arr([Obj(map["Id" := Num(7)])]), None));
            var reply := Resolved(Response(Bool(true), Undefined, Undefined,
                                           Some([RecordResult(Bool(true), Undefined, Undefined, None)])));
            && LookupOutcome(lookup) == Returned(Obj(map["Id" := Num(7)]))
            && Delete(3, lookup, reply).requests[1] == DeleteRecord(Schema.name, [Num(7)])
            && Delete(3, lookup, reply).outcome == Returned(Bool(true))
            && DeleteAsWritten(3, lookup, reply).outcome == Threw(TypeErr("getById"))
            && UpdateAsWritten(3, u, js, lookup, reply).requests == []
  {
    var rs := [RecordResult(Bool(true), Undefined, Undefined, None)];
    DeleteResultsMeaning(rs);
    assert !Loud(rs[0], MessageOnly);
  }
}
