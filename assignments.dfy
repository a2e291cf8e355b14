/** The assignments service: CRUD over the `assignment_c` table. */
module Assignments {
  import opened JsValue
  import opened Remote
  import opened Failures
  import opened Replies
  import opened FieldMapping
  import Records

  /** The columns every fetch asks for. */
  const Fields: seq<string> :=
    ["Name", "course_id_c", "title_c", "description_c", "due_date_c", "priority_c", "status_c", "grade_c", "category_c"]

  /** The record `create` submits. Each column takes its canonical key's
      value when that is truthy and otherwise its alias's value, whatever
      that is (`||`); `Name` tries `Name`, then `title`, then `title_c`;
      `status_c` falls back to "pending" when neither key is truthy. */
  function CreateData(a: Payload): (p: Payload)
    ensures p.Keys == {"Name", "course_id_c", "title_c", "description_c", "due_date_c", "priority_c", "status_c", "grade_c", "category_c"}
    ensures Truthy(Get(a, "Name")) ==> p["Name"] == Get(a, "Name")
    ensures !Truthy(Get(a, "Name")) && Truthy(Get(a, "title")) ==> p["Name"] == Get(a, "title")
    ensures !Truthy(Get(a, "Name")) && !Truthy(Get(a, "title")) ==> p["Name"] == Get(a, "title_c")
    ensures CanonicalElseAlias(p["course_id_c"], Get(a, "course_id_c"), Get(a, "courseId"))
    ensures CanonicalElseAlias(p["title_c"], Get(a, "title_c"), Get(a, "title"))
    ensures CanonicalElseAlias(p["description_c"], Get(a, "description_c"), Get(a, "description"))
    ensures CanonicalElseAlias(p["due_date_c"], Get(a, "due_date_c"), Get(a, "dueDate"))
    ensures CanonicalElseAlias(p["priority_c"], Get(a, "priority_c"), Get(a, "priority"))
    ensures CanonicalElseAlias(p["grade_c"], Get(a, "grade_c"), Get(a, "grade"))
    ensures CanonicalElseAlias(p["category_c"], Get(a, "category_c"), Get(a, "category"))
    ensures Truthy(Get(a, "status_c")) ==> p["status_c"] == Get(a, "status_c")
    ensures !Truthy(Get(a, "status_c")) && Truthy(Get(a, "status")) ==> p["status_c"] == Get(a, "status")
    ensures !Truthy(Get(a, "status_c")) && !Truthy(Get(a, "status")) ==> p["status_c"] == Str("pending")
  {
    Row(Or(Or(Get(a, "Name"), Get(a, "title")), Get(a, "title_c")),
        Or(Get(a, "course_id_c"), Get(a, "courseId")),
        Or(Get(a, "title_c"), Get(a, "title")),
        Or(Get(a, "description_c"), Get(a, "description")),
        Or(Get(a, "due_date_c"), Get(a, "dueDate")),
        Or(Get(a, "priority_c"), Get(a, "priority")),
        Or(Or(Get(a, "status_c"), Get(a, "status")), Str("pending")),
        Or(Get(a, "grade_c"), Get(a, "grade")),
        Or(Get(a, "category_c"), Get(a, "category")))
  }

  /** An assignment row with the nine columns in `Fields` order. */
  function Row(name: Value, courseId: Value, title: Value, description: Value, dueDate: Value,
               priority: Value, status: Value, grade: Value, category: Value): (p: Payload)
    ensures p.Keys == {"Name", "course_id_c", "title_c", "description_c", "due_date_c", "priority_c", "status_c", "grade_c", "category_c"}
    ensures p["Name"] == name && p["course_id_c"] == courseId && p["title_c"] == title
    ensures p["description_c"] == description && p["due_date_c"] == dueDate && p["priority_c"] == priority
    ensures p["status_c"] == status && p["grade_c"] == grade && p["category_c"] == category
  {
    map["Name" := name, "course_id_c" := courseId, "title_c" := title, "description_c" := description,
        "due_date_c" := dueDate, "priority_c" := priority, "status_c" := status, "grade_c" := grade,
        "category_c" := category]
  }

  /** The stored status is never empty: it is "pending" whenever neither
      `status_c` nor `status` is truthy, even when one of them is present
      (an empty string, say). */
  lemma CreateStatusDefault(a: Payload)
    ensures Truthy(CreateData(a)["status_c"])
    ensures !Truthy(Get(a, "status_c")) && !Truthy(Get(a, "status")) ==> CreateData(a)["status_c"] == Str("pending")
    ensures Truthy(Get(a, "status_c")) ==> CreateData(a)["status_c"] == Get(a, "status_c")
  {
  }

  /** Creating `{title: "Essay", courseId: 5, status: undefined}` stores
      title "Essay" under both `Name` and `title_c`, course 5 and status
      "pending". */
  lemma CreateEssayExample()
    ensures var p := CreateData(map["title" := Str("Essay"), "courseId" := Num(5), "status" := Undefined]);
            && p["Name"] == Str("Essay") && p["title_c"] == Str("Essay")
            && p["course_id_c"] == Num(5) && p["status_c"] == Str("pending")
  {
  }

  /** The eighteen `update` lines, grouped by column; `title` is an alias of
      both `Name` and `title_c`. */
  const Columns: seq<Column> := [
    Column("Name", ["Name", "title"], false),
    Column("course_id_c", ["course_id_c", "courseId"], false),
    Column("title_c", ["title_c", "title"], false),
    Column("description_c", ["description_c", "description"], false),
    Column("due_date_c", ["due_date_c", "dueDate"], false),
    Column("priority_c", ["priority_c", "priority"], false),
    Column("status_c", ["status_c", "status"], false),
    Column("grade_c", ["grade_c", "grade"], false),
    Column("category_c", ["category_c", "category"], false)
  ]

  /** The table as the shared operations see it. `getAll()` is
      `Records.GetAll(Schema, ...)`, `getById(id)` is `Records.GetById(Schema, id, ...)`,
      `create(a)` is `Records.Create(Schema, CreateData(a...), ...)`, and
      `update(id, u)` and `delete(id)` are `Records.Update` and
      `Records.Delete` with `Num(id)` as the id. */
  const Schema := Records.Table("assignment_c", Fields, Columns)

  lemma ColumnsWellFormed()
    ensures DistinctTargets(Columns)
    ensures forall k :: 0 <= k < |Columns| ==> Columns[k].target != "Id" && |Columns[k].sources| == 2
    ensures forall k :: 0 <= k < |Columns| ==> Columns[k].target == Fields[k]
    ensures forall k :: 0 <= k < |Columns| ==> |Columns[k].sources| > 0 && Columns[k].sources[0] == Columns[k].target
  {
  }

  /** The update payload: `Id` is the integer id, every column is written
      exactly when its canonical key or its alias is defined, the alias
      wins over the canonical key, and no other key appears. */
  lemma UpdatePayloadRule(id: int, u: Payload, js: Builtins)
    ensures "Id" in UpdateData(Num(id), Columns, u, js) && UpdateData(Num(id), Columns, u, js)["Id"] == Num(id)
    ensures forall key :: key in UpdateData(Num(id), Columns, u, js) ==> key == "Id" || key in Fields
    ensures forall k :: 0 <= k < |Columns| ==> AliasOverrides(UpdateData(Num(id), Columns, u, js), Columns[k], u, js)
  {
    ColumnsWellFormed();
    ColumnsOverride(Num(id), Columns, u, js);
  }

  /** `title` is written twice: it sets both `Name` and `title_c`,
      overriding an explicit `Name` or `title_c` in the same update. */
  lemma UpdateTitleWritesBoth(id: int, u: Payload, js: Builtins)
    requires Defined(u, "title")
    ensures "Name" in UpdateData(Num(id), Columns, u, js) && UpdateData(Num(id), Columns, u, js)["Name"] == Get(u, "title")
    ensures "title_c" in UpdateData(Num(id), Columns, u, js) && UpdateData(Num(id), Columns, u, js)["title_c"] == Get(u, "title")
  {
    UpdatePayloadRule(id, u, js);
    assert AliasOverrides(UpdateData(Num(id), Columns, u, js), Columns[0], u, js);
    assert AliasOverrides(UpdateData(Num(id), Columns, u, js), Columns[2], u, js);
  }

  /** An update that names columns only through their aliases (`title`,
      `courseId`, `dueDate`, ...) stores what the update giving the same
      values under the canonical keys stores. */
  lemma AliasOnlyUpdateMatchesCanonical(id: int, u: Payload, v: Payload, js: Builtins)
    requires forall k :: 0 <= k < |Columns| ==> !Defined(u, Columns[k].sources[0])
    requires forall k :: 0 <= k < |Columns| ==>
               Get(v, Columns[k].sources[0]) == Get(u, Columns[k].sources[1]) && !Defined(v, Columns[k].sources[1])
    ensures UpdateData(Num(id), Columns, u, js) == UpdateData(Num(id), Columns, v, js)
  {
    AliasOnlyUpdate(Num(id), Columns, u, v, js);
  }

  /** create and update disagree when a canonical key and its alias are
      both given: create keeps the (truthy) canonical value, update the alias. */
  lemma CreateUpdatePrecedenceDiffers(js: Builtins)
    ensures var a := map["status_c" := Str("done"), "status" := Str("late")];
            && CreateData(a)["status_c"] == Str("done")
            && "status_c" in UpdateData(Num(1), Columns, a, js)
            && UpdateData(Num(1), Columns, a, js)["status_c"] == Str("late")
  {
    var a := map["status_c" := Str("done"), "status" := Str("late")];
    UpdatePayloadRule(1, a, js);
    assert AliasOverrides(UpdateData(Num(1), Columns, a, js), Columns[6], a, js);
  }
}
