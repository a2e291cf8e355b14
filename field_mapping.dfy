/** The update payload builder shared by the three services. Each service
    starts from `{Id}` and runs a fixed, ordered list of lines
    `if (updates.key !== undefined) updateData.column = convert(updates.key)`.
    The lines come grouped by column: the canonical key first, then its
    aliases. Because every line overwrites, the LAST defined key of a
    column wins, so an alias beats the canonical key, and a column whose
    keys are all undefined is not written at all. */
module FieldMapping {
  import opened JsValue

  /** One line: `if (updates[source] !== undefined) updateData[target] = convert(updates[source])`,
      where convert is `JSON.stringify` when `serialize` holds. */
  datatype Rule = Rule(source: string, target: string, serialize: bool)

  /** The consecutive lines that write one column, one per accepted key, in order. */
  datatype Column = Column(target: string, sources: seq<string>, serialize: bool)

  function ColumnRules(c: Column): (rs: seq<Rule>)
    ensures |rs| == |c.sources|
    ensures forall i :: 0 <= i < |rs| ==> rs[i] == Rule(c.sources[i], c.target, c.serialize)
  {
    seq(|c.sources|, i requires 0 <= i < |c.sources| => Rule(c.sources[i], c.target, c.serialize))
  }

  /** The whole list of lines, column after column. */
  function Rules(cols: seq<Column>): seq<Rule> {
    if cols == [] then [] else Rules(cols[..|cols| - 1]) + ColumnRules(cols[|cols| - 1])
  }

  function Convert(js: Builtins, serialize: bool, v: Value): Value {
    if serialize then js.stringify(v) else v
  }

  /** Running one line on the payload built so far. */
  function Step(d: Payload, r: Rule, u: Payload, js: Builtins): (e: Payload)
    ensures !Defined(u, r.source) ==> e == d
    ensures Defined(u, r.source) ==> r.target in e && e[r.target] == Convert(js, r.serialize, Get(u, r.source))
    ensures e.Keys == d.Keys || e.Keys == d.Keys + {r.target}
    ensures forall key :: key in d && key != r.target ==> e[key] == d[key]
  {
    if Defined(u, r.source) then d[r.target := Convert(js, r.serialize, Get(u, r.source))] else d
  }

  /** Running the lines in order on `d`, the last line last. */
  function ApplyRules(rules: seq<Rule>, u: Payload, js: Builtins, d: Payload): (e: Payload)
    ensures d.Keys <= e.Keys
  {
    if rules == [] then d else Step(ApplyRules(rules[..|rules| - 1], u, js, d), rules[|rules| - 1], u, js)
  }

  /** The update payload of a table whose `updateData` starts as `{Id: id}`. */
  function UpdateData(id: Value, cols: seq<Column>, u: Payload, js: Builtins): (d: Payload)
    ensures "Id" in d
    ensures d == WriteColumns(cols, u, js, map["Id" := id])
  {
    ApplyRulesByColumns(cols, u, js, map["Id" := id]);
    ApplyRules(Rules(cols), u, js, map["Id" := id])
  }

  lemma {:induction false} ApplyRulesAppend(r1: seq<Rule>, r2: seq<Rule>, u: Payload, js: Builtins, d: Payload)
    ensures ApplyRules(r1 + r2, u, js, d) == ApplyRules(r2, u, js, ApplyRules(r1, u, js, d))
  {
    if r2 == [] {
      assert r1 + r2 == r1;
    } else {
      ApplyRulesAppend(r1, r2[..|r2| - 1], u, js, d);
      assert (r1 + r2)[..|r1 + r2| - 1] == r1 + r2[..|r2| - 1];
      assert (r1 + r2)[|r1 + r2| - 1] == r2[|r2| - 1];
    }
  }

  /** i is the last of `sources` that `u` defines. */
  ghost predicate LastDefinedAt(u: Payload, sources: seq<string>, i: int) {
    && 0 <= i < |sources|
    && Defined(u, sources[i])
    && forall j :: i < j < |sources| ==> !Defined(u, sources[j])
  }

  /** The value of the last of `sources` that `u` defines, if any. */
  function LastDefined(u: Payload, sources: seq<string>): (r: Option<Value>)
    ensures r.None? <==> forall i :: 0 <= i < |sources| ==> !Defined(u, sources[i])
    ensures forall i :: LastDefinedAt(u, sources, i) ==> r == Some(Get(u, sources[i]))
    ensures r.Some? ==> r.value != Undefined
  {
    if sources == [] then None
    else if Defined(u, sources[|sources| - 1]) then Some(Get(u, sources[|sources| - 1]))
    else
      var r := LastDefined(u, sources[..|sources| - 1]);
      assert forall i :: 0 <= i < |sources| - 1 ==> sources[i] == sources[..|sources| - 1][i];
      r
  }

  /** What one column's lines do to a payload: nothing when none of its
      keys is defined, otherwise set the column to its last defined key's
      (converted) value, leaving every other key alone. */
  function ColumnWrite(c: Column, u: Payload, js: Builtins, d: Payload): Payload {
    match ColumnValue(c, u, js)
    case None => d
    case Some(v) => d[c.target := v]
  }

  /** The value a column's lines leave in the payload, if they write it:
      the last defined key's value, converted. */
  function ColumnValue(c: Column, u: Payload, js: Builtins): Option<Value> {
    match LastDefined(u, c.sources)
    case None => None
    case Some(v) => Some(Convert(js, c.serialize, v))
  }

  /** The column without its last key. */
  function InitColumn(c: Column): (c': Column)
    requires |c.sources| > 0
    ensures c'.target == c.target && c'.serialize == c.serialize
    ensures c'.sources == c.sources[..|c.sources| - 1]
  {
    Column(c.target, c.sources[..|c.sources| - 1], c.serialize)
  }

  lemma {:induction false} ColumnEffect(c: Column, u: Payload, js: Builtins, d: Payload)
    ensures ApplyRules(ColumnRules(c), u, js, d) == ColumnWrite(c, u, js, d)
    decreases |c.sources|
  {
    var n := |c.sources|;
    if n > 0 {
      var c' := InitColumn(c);
      ColumnEffect(c', u, js, d);
      LastRule(c, u, js, d);
      LastKeyWrite(c, u, js, d);
    }
  }

  /** A column's lines are the lines of its first keys, then its last key's line. */
  lemma LastRule(c: Column, u: Payload, js: Builtins, d: Payload)
    requires |c.sources| > 0
    ensures ApplyRules(ColumnRules(c), u, js, d)
            == Step(ApplyRules(ColumnRules(InitColumn(c)), u, js, d), Rule(c.sources[|c.sources| - 1], c.target, c.serialize), u, js)
  {
    assert ColumnRules(c)[..|c.sources| - 1] == ColumnRules(InitColumn(c));
  }

  /** The last key's line turns the first keys' write into the column's write. */
  lemma LastKeyWrite(c: Column, u: Payload, js: Builtins, d: Payload)
    requires |c.sources| > 0
    ensures Step(ColumnWrite(InitColumn(c), u, js, d), Rule(c.sources[|c.sources| - 1], c.target, c.serialize), u, js)
            == ColumnWrite(c, u, js, d)
  {
    var n := |c.sources|;
    var c' := InitColumn(c);
    if Defined(u, c.sources[n - 1]) {
      var v := Convert(js, c.serialize, Get(u, c.sources[n - 1]));
      assert ColumnValue(c, u, js) == Some(v);
      match ColumnValue(c', u, js)
      case None =>
      case Some(w) =>
        assert d[c.target := w][c.target := v] == d[c.target := v];
    } else {
      assert LastDefined(u, c.sources) == LastDefined(u, c'.sources);
    }
  }

  ghost predicate DistinctTargets(cols: seq<Column>) {
    forall a, b :: 0 <= a < b < |cols| ==> cols[a].target != cols[b].target
  }

  /** The columns' lines run column by column. */
  function WriteColumns(cols: seq<Column>, u: Payload, js: Builtins, d: Payload): Payload {
    if cols == [] then d else ColumnWrite(cols[|cols| - 1], u, js, WriteColumns(cols[..|cols| - 1], u, js, d))
  }

  lemma {:induction false} ApplyRulesByColumns(cols: seq<Column>, u: Payload, js: Builtins, d: Payload)
    ensures ApplyRules(Rules(cols), u, js, d) == WriteColumns(cols, u, js, d)
  {
    if cols != [] {
      var init, c := cols[..|cols| - 1], cols[|cols| - 1];
      ApplyRulesByColumns(init, u, js, d);
      ApplyRulesAppend(Rules(init), ColumnRules(c), u, js, d);
      ColumnEffect(c, u, js, ApplyRules(Rules(init), u, js, d));
    }
  }

  /** The column writes keep `Id`, which no column targets. */
  lemma {:induction false} WriteColumnsKeepsId(cols: seq<Column>, u: Payload, js: Builtins, d: Payload)
    requires forall k :: 0 <= k < |cols| ==> cols[k].target != "Id"
    requires "Id" in d
    ensures "Id" in WriteColumns(cols, u, js, d) && WriteColumns(cols, u, js, d)["Id"] == d["Id"]
  {
    if cols != [] {
      var init := cols[..|cols| - 1];
      assert forall k :: 0 <= k < |init| ==> init[k] == cols[k];
      WriteColumnsKeepsId(init, u, js, d);
    }
  }

  /** The column writes add no key but the columns' targets. */
  lemma {:induction false} WriteColumnsKeys(cols: seq<Column>, u: Payload, js: Builtins, d: Payload)
    ensures forall key :: key in WriteColumns(cols, u, js, d) ==>
              key in d || exists k :: 0 <= k < |cols| && cols[k].target == key
  {
    if cols != [] {
      var init := cols[..|cols| - 1];
      WriteColumnsKeys(init, u, js, d);
      forall key | key in WriteColumns(cols, u, js, d)
        ensures key in d || exists k :: 0 <= k < |cols| && cols[k].target == key
      {
        if key != cols[|cols| - 1].target && key !in d {
          var k :| 0 <= k < |init| && init[k].target == key;
          assert cols[k].target == key;
        }
      }
    }
  }

  /** A key that the start payload lacks and no column targets stays absent. */
  lemma {:induction false} Untouched(cols: seq<Column>, u: Payload, js: Builtins, d: Payload, key: string)
    requires key !in d
    requires forall k :: 0 <= k < |cols| ==> cols[k].target != key
    ensures key !in WriteColumns(cols, u, js, d)
  {
    if cols != [] {
      var init := cols[..|cols| - 1];
      assert forall k :: 0 <= k < |init| ==> init[k] == cols[k];
      Untouched(init, u, js, d, key);
    }
  }

  /** Writing one column leaves every other key as it was. */
  lemma ColumnWriteOther(c: Column, u: Payload, js: Builtins, d: Payload, key: string)
    requires key != c.target
    ensures key in ColumnWrite(c, u, js, d) <==> key in d
    ensures key in d ==> ColumnWrite(c, u, js, d)[key] == d[key]
  {
  }

  lemma DistinctInit(cols: seq<Column>)
    requires DistinctTargets(cols) && cols != []
    ensures DistinctTargets(cols[..|cols| - 1])
  {
    var init := cols[..|cols| - 1];
    forall a, b | 0 <= a < b < |init|
      ensures init[a].target != init[b].target
    {
      assert init[a] == cols[a] && init[b] == cols[b];
    }
  }

  /** Column k of distinct columns, absent from the start payload, is
      present after the writes exactly when one of its keys is defined,
      and then holds its column value. */
  lemma {:induction false} WriteColumnsAt(cols: seq<Column>, u: Payload, js: Builtins, d: Payload, k: int)
    requires DistinctTargets(cols)
    requires 0 <= k < |cols| && cols[k].target !in d
    ensures cols[k].target in WriteColumns(cols, u, js, d) <==> ColumnValue(cols[k], u, js).Some?
    ensures ColumnValue(cols[k], u, js).Some? ==>
              cols[k].target in WriteColumns(cols, u, js, d) &&
              WriteColumns(cols, u, js, d)[cols[k].target] == ColumnValue(cols[k], u, js).value
  {
    var n := |cols|;
    var init, last := cols[..n - 1], cols[n - 1];
    var before := WriteColumns(init, u, js, d);
    assert WriteColumns(cols, u, js, d) == ColumnWrite(last, u, js, before);
    if k == n - 1 {
      if ColumnValue(last, u, js).None? {
        assert forall j :: 0 <= j < |init| ==> init[j] == cols[j];
        Untouched(init, u, js, d, last.target);
      }
    } else {
      assert init[k] == cols[k];
      DistinctInit(cols);
      WriteColumnsAt(init, u, js, d, k);
      ColumnWriteOther(last, u, js, before, cols[k].target);
    }
  }

  /** The update payload holds `Id` and exactly the columns some key of
      which is defined; each written column holds its last defined key's
      value, converted as that column's lines convert it. */
  lemma UpdateDataMeaning(id: Value, cols: seq<Column>, u: Payload, js: Builtins)
    requires DistinctTargets(cols)
    requires forall k :: 0 <= k < |cols| ==> cols[k].target != "Id"
    ensures "Id" in UpdateData(id, cols, u, js) && UpdateData(id, cols, u, js)["Id"] == id
    ensures forall k :: 0 <= k < |cols| ==>
              (cols[k].target in UpdateData(id, cols, u, js) <==> ColumnValue(cols[k], u, js).Some?)
    ensures forall k :: 0 <= k < |cols| && ColumnValue(cols[k], u, js).Some? ==>
              UpdateData(id, cols, u, js)[cols[k].target] == ColumnValue(cols[k], u, js).value
    ensures forall key :: key in UpdateData(id, cols, u, js) ==>
              key == "Id" || exists k :: 0 <= k < |cols| && cols[k].target == key
  {
    var d := map["Id" := id];
    WriteColumnsKeepsId(cols, u, js, d);
    WriteColumnsKeys(cols, u, js, d);
    forall k | 0 <= k < |cols| {
      WriteColumnsAt(cols, u, js, d, k);
    }
  }

  /** A column written from a canonical key followed by one alias
      (`sources == [canonical, alias]`): the column is present when either
      key is defined, the alias's value wins when both are, and the
      canonical value is used only when the alias is undefined. */
  ghost predicate AliasOverrides(d: Payload, c: Column, u: Payload, js: Builtins)
    requires |c.sources| == 2
  {
    var canonical, alias := c.sources[0], c.sources[1];
    && (c.target in d <==> Defined(u, canonical) || Defined(u, alias))
    && (Defined(u, alias) ==> c.target in d && d[c.target] == Convert(js, c.serialize, Get(u, alias)))
    && (Defined(u, canonical) && !Defined(u, alias) ==> c.target in d && d[c.target] == Convert(js, c.serialize, Get(u, canonical)))
  }

  /** A column written from one key alone: present exactly when that key
      is defined, and then holding the key's converted value. */
  ghost predicate KeyWrites(d: Payload, c: Column, u: Payload, js: Builtins)
    requires |c.sources| == 1
  {
    && (c.target in d <==> Defined(u, c.sources[0]))
    && (Defined(u, c.sources[0]) ==> c.target in d && d[c.target] == Convert(js, c.serialize, Get(u, c.sources[0])))
  }

  /** What a payload that holds a column's value (or lacks the column
      when it has none) says about a one-key column. */
  lemma KeyWritesFromValue(d: Payload, c: Column, u: Payload, js: Builtins)
    requires |c.sources| == 1
    requires c.target in d <==> ColumnValue(c, u, js).Some?
    requires ColumnValue(c, u, js).Some? ==> c.target in d && d[c.target] == ColumnValue(c, u, js).value
    ensures KeyWrites(d, c, u, js)
  {
    assert Defined(u, c.sources[0]) ==> LastDefinedAt(u, c.sources, 0);
  }

  /** What a payload that holds a column's value (or lacks the column
      when it has none) says about a canonical-then-alias column. */
  lemma AliasOverridesFromValue(d: Payload, c: Column, u: Payload, js: Builtins)
    requires |c.sources| == 2
    requires c.target in d <==> ColumnValue(c, u, js).Some?
    requires ColumnValue(c, u, js).Some? ==> c.target in d && d[c.target] == ColumnValue(c, u, js).value
    ensures AliasOverrides(d, c, u, js)
  {
    var s := c.sources;
    assert LastDefinedAt(u, s, 1) || !Defined(u, s[1]);
    assert Defined(u, s[0]) && !Defined(u, s[1]) ==> LastDefinedAt(u, s, 0);
  }

  /** Every one-key column of the update payload follows `KeyWrites`,
      every canonical-then-alias column follows `AliasOverrides`, and the
      payload holds nothing but `Id` and such columns. */
  lemma ColumnsOverride(id: Value, cols: seq<Column>, u: Payload, js: Builtins)
    requires DistinctTargets(cols)
    requires forall k :: 0 <= k < |cols| ==> cols[k].target != "Id"
    ensures forall k :: 0 <= k < |cols| && |cols[k].sources| == 1 ==> KeyWrites(UpdateData(id, cols, u, js), cols[k], u, js)
    ensures forall k :: 0 <= k < |cols| && |cols[k].sources| == 2 ==> AliasOverrides(UpdateData(id, cols, u, js), cols[k], u, js)
    ensures forall key :: key in UpdateData(id, cols, u, js) ==> key == "Id" || exists k :: 0 <= k < |cols| && cols[k].target == key
    ensures "Id" in UpdateData(id, cols, u, js) && UpdateData(id, cols, u, js)["Id"] == id
  {
    UpdateDataMeaning(id, cols, u, js);
    var d := UpdateData(id, cols, u, js);
    forall k | 0 <= k < |cols| && |cols[k].sources| == 1
      ensures KeyWrites(d, cols[k], u, js)
    {
      KeyWritesFromValue(d, cols[k], u, js);
    }
    forall k | 0 <= k < |cols| && |cols[k].sources| == 2
      ensures AliasOverrides(d, cols[k], u, js)
    {
      AliasOverridesFromValue(d, cols[k], u, js);
    }
  }

  /** The payload depends on the update only through each column's last
      defined key: two updates that agree on that agree on the payload. */
  lemma {:induction false} SameColumnValuesSameWrite(cols: seq<Column>, u: Payload, v: Payload, js: Builtins, d: Payload)
    requires forall k :: 0 <= k < |cols| ==> LastDefined(u, cols[k].sources) == LastDefined(v, cols[k].sources)
    ensures WriteColumns(cols, u, js, d) == WriteColumns(cols, v, js, d)
  {
    if cols != [] {
      var init := cols[..|cols| - 1];
      assert forall k :: 0 <= k < |init| ==> init[k] == cols[k];
      SameColumnValuesSameWrite(init, u, v, js, d);
    }
  }

  lemma SameColumnValuesSameUpdate(id: Value, cols: seq<Column>, u: Payload, v: Payload, js: Builtins)
    requires forall k :: 0 <= k < |cols| ==> LastDefined(u, cols[k].sources) == LastDefined(v, cols[k].sources)
    ensures UpdateData(id, cols, u, js) == UpdateData(id, cols, v, js)
  {
    SameColumnValuesSameWrite(cols, u, v, js, map["Id" := id]);
  }

  /** An update that gives only aliases stores the same payload as the
      update giving the same values under the canonical keys (the first
      key of each column); a column without an alias is left out of both. */
  lemma AliasOnlyUpdate(id: Value, cols: seq<Column>, u: Payload, v: Payload, js: Builtins)
    requires forall k :: 0 <= k < |cols| ==> 1 <= |cols[k].sources| <= 2
    requires forall k :: 0 <= k < |cols| ==> !Defined(u, cols[k].sources[0])
    requires forall k :: 0 <= k < |cols| && |cols[k].sources| == 1 ==> !Defined(v, cols[k].sources[0])
    requires forall k :: 0 <= k < |cols| && |cols[k].sources| == 2 ==>
               Get(v, cols[k].sources[0]) == Get(u, cols[k].sources[1]) && !Defined(v, cols[k].sources[1])
    ensures UpdateData(id, cols, u, js) == UpdateData(id, cols, v, js)
  {
    forall k | 0 <= k < |cols|
      ensures LastDefined(u, cols[k].sources) == LastDefined(v, cols[k].sources)
    {
      var s := cols[k].sources;
      if |s| == 2 && Defined(u, s[1]) {
        assert LastDefinedAt(u, s, 1) && LastDefinedAt(v, s, 0);
      }
    }
    SameColumnValuesSameUpdate(id, cols, u, v, js);
  }

  /** The imperative builder: start from `{Id: id}` and run every line in
      order, writing a column only when the key is defined. */
  method BuildUpdate(id: Value, cols: seq<Column>, u: Payload, js: Builtins) returns (d: Payload)
    ensures d == UpdateData(id, cols, u, js)
  {
    var rules := Rules(cols);
    d := map["Id" := id];
    for i := 0 to |rules|
      invariant d == ApplyRules(rules[..i], u, js, map["Id" := id])
    {
      var r := rules[i];
      if Get(u, r.source) != Undefined {
        d := d[r.target := Convert(js, r.serialize, Get(u, r.source))];
      }
      assert rules[..i + 1][..i] == rules[..i];
    }
    assert rules[..|rules|] == rules;
  }
}
