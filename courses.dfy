/** The courses service: CRUD over the `course_c` table. The weekly
    schedule and the grade categories are stored as JSON text. */
module Courses {
  import opened JsValue
  import opened Remote
  import opened Failures
  import opened Replies
  import opened FieldMapping
  import Records

  /** The columns every fetch asks for. */
  const Fields: seq<string> :=
    ["Name", "professor_c", "credits_c", "color_c", "schedule_c", "semester_c", "grade_categories_c"]

  /** The record `create` submits. Each column takes its canonical key's
      value when that is truthy and otherwise its alias's value (`||`);
      the schedule and the grade categories are stringified after that
      choice, even when both keys are missing. */
  function CreateData(a: Payload, js: Builtins): (p: Payload)
    ensures p.Keys == {"Name", "professor_c", "credits_c", "color_c", "schedule_c", "semester_c", "grade_categories_c"}
    ensures CanonicalElseAlias(p["Name"], Get(a, "Name"), Get(a, "name"))
    ensures CanonicalElseAlias(p["professor_c"], Get(a, "professor_c"), Get(a, "professor"))
    ensures CanonicalElseAlias(p["credits_c"], Get(a, "credits_c"), Get(a, "credits"))
    ensures CanonicalElseAlias(p["color_c"], Get(a, "color_c"), Get(a, "color"))
    ensures CanonicalElseAlias(p["semester_c"], Get(a, "semester_c"), Get(a, "semester"))
    ensures Truthy(Get(a, "schedule_c")) ==> p["schedule_c"] == js.stringify(Get(a, "schedule_c"))
    ensures !Truthy(Get(a, "schedule_c")) ==> p["schedule_c"] == js.stringify(Get(a, "schedule"))
    ensures Truthy(Get(a, "grade_categories_c")) ==> p["grade_categories_c"] == js.stringify(Get(a, "grade_categories_c"))
    ensures !Truthy(Get(a, "grade_categories_c")) ==> p["grade_categories_c"] == js.stringify(Get(a, "gradeCategories"))
  {
    Row(Or(Get(a, "Name"), Get(a, "name")),
        Or(Get(a, "professor_c"), Get(a, "professor")),
        Or(Get(a, "credits_c"), Get(a, "credits")),
        Or(Get(a, "color_c"), Get(a, "color")),
        js.stringify(Or(Get(a, "schedule_c"), Get(a, "schedule"))),
        Or(Get(a, "semester_c"), Get(a, "semester")),
        js.stringify(Or(Get(a, "grade_categories_c"), Get(a, "gradeCategories"))))
  }

  /** A course row with the seven columns in `Fields` order. */
  function Row(name: Value, professor: Value, credits: Value, color: Value, schedule: Value,
               semester: Value, gradeCategories: Value): (p: Payload)
    ensures p.Keys == {"Name", "professor_c", "credits_c", "color_c", "schedule_c", "semester_c", "grade_categories_c"}
    ensures p["Name"] == name && p["professor_c"] == professor && p["credits_c"] == credits
    ensures p["color_c"] == color && p["schedule_c"] == schedule && p["semester_c"] == semester
    ensures p["grade_categories_c"] == gradeCategories
  {
    map["Name" := name, "professor_c" := professor, "credits_c" := credits, "color_c" := color,
        "schedule_c" := schedule, "semester_c" := semester, "grade_categories_c" := gradeCategories]
  }

  /** create and update store the two structured columns in the same form:
      when only the canonical key is given, and it is truthy, both store
      its stringified value. */
  lemma StructuredColumnsAgree(id: int, a: Payload, js: Builtins)
    requires Truthy(Get(a, "schedule_c")) && !Defined(a, "schedule")
    requires Truthy(Get(a, "grade_categories_c")) && !Defined(a, "gradeCategories")
    ensures "schedule_c" in UpdateData(Num(id), Columns, a, js)
    ensures UpdateData(Num(id), Columns, a, js)["schedule_c"] == CreateData(a, js)["schedule_c"] == js.stringify(Get(a, "schedule_c"))
    ensures "grade_categories_c" in UpdateData(Num(id), Columns, a, js)
    ensures UpdateData(Num(id), Columns, a, js)["grade_categories_c"] == CreateData(a, js)["grade_categories_c"]
  {
    UpdatePayloadRule(id, a, js);
    assert AliasOverrides(UpdateData(Num(id), Columns, a, js), Columns[4], a, js);
    assert AliasOverrides(UpdateData(Num(id), Columns, a, js), Columns[6], a, js);
  }

  /** The fourteen `update` lines, grouped by column; the schedule and the
      grade categories are stringified. */
  const Columns: seq<Column> := [
    Column("Name", ["Name", "name"], false),
    Column("professor_c", ["professor_c", "professor"], false),
    Column("credits_c", ["credits_c", "credits"], false),
    Column("color_c", ["color_c", "color"], false),
    Column("schedule_c", ["schedule_c", "schedule"], true),
    Column("semester_c", ["semester_c", "semester"], false),
    Column("grade_categories_c", ["grade_categories_c", "gradeCategories"], true)
  ]

  /** The table as the shared operations see it. `getAll()` is
      `Records.GetAll(Schema, ...)`, `getById(id)` is `Records.GetById(Schema, id, ...)`,
      `create(a)` is `Records.Create(Schema, CreateData(a...), ...)`, and
      `update(id, u)` and `delete(id)` are `Records.Update` and
      `Records.Delete` with `Num(id)` as the id. */
  const Schema := Records.Table("course_c", Fields, Columns)

  lemma ColumnsWellFormed()
    ensures DistinctTargets(Columns)
    ensures forall k :: 0 <= k < |Columns| ==> Columns[k].target != "Id" && |Columns[k].sources| == 2
    ensures forall k :: 0 <= k < |Columns| ==> Columns[k].target == Fields[k]
    ensures forall k :: 0 <= k < |Columns| ==> |Columns[k].sources| > 0 && Columns[k].sources[0] == Columns[k].target
  {
  }

  /** The update payload: `Id` is the integer id, every column is written
      exactly when its canonical key or its alias is defined, the alias
      wins over the canonical key, the schedule and the grade categories
      are stringified and the other columns stored as given, and no other
      key appears. */
  lemma UpdatePayloadRule(id: int, u: Payload, js: Builtins)
    ensures "Id" in UpdateData(Num(id), Columns, u, js) && UpdateData(Num(id), Columns, u, js)["Id"] == Num(id)
    ensures forall key :: key in UpdateData(Num(id), Columns, u, js) ==> key == "Id" || key in Fields
    ensures forall k :: 0 <= k < |Columns| ==> AliasOverrides(UpdateData(Num(id), Columns, u, js), Columns[k], u, js)
    ensures forall k :: 0 <= k < |Columns| ==> (Columns[k].serialize <==> Columns[k].target in {"schedule_c", "grade_categories_c"})
  {
    ColumnsWellFormed();
    ColumnsOverride(Num(id), Columns, u, js);
  }

  /** An update that names columns only through their aliases (`name`,
      `professor`, `schedule`, ...) stores what the update giving the same
      values under the canonical keys stores. */
  lemma AliasOnlyUpdateMatchesCanonical(id: int, u: Payload, v: Payload, js: Builtins)
    requires forall k :: 0 <= k < |Columns| ==> !Defined(u, Columns[k].sources[0])
    requires forall k :: 0 <= k < |Columns| ==>
               Get(v, Columns[k].sources[0]) == Get(u, Columns[k].sources[1]) && !Defined(v, Columns[k].sources[1])
    ensures UpdateData(Num(id), Columns, u, js) == UpdateData(Num(id), Columns, v, js)
  {
    AliasOnlyUpdate(Num(id), Columns, u, v, js);
  }
}
