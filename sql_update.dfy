/** The partial-update statements the users and gallery routes build:
    `UPDATE t SET c1 = $1, …, cn = $n, updated_at = CURRENT_TIMESTAMP
     WHERE id = $(n+1)` with the supplied values bound in order and the id
    bound last. Statements are kept as data; SQL text is not produced. */
module SqlUpdate {
  import opened Wrappers

  /** A value bound to a `$k` parameter. `NaN` is what `parseInt` yields
      for text that does not start with a number. */
  datatype SqlValue = Text(text: string) | Flag(flag: bool) | Number(number: int) | NaN

  /** One entry of a SET list: a column bound to parameter `$index`, or a
      column stamped with the current time. */
  datatype Assignment = Param(column: string, index: nat) | Now(column: string)

  /** A column the request supplied, with the value it binds. */
  datatype Field = Field(column: string, value: SqlValue)

  /** The field a request contributes: one entry when it carries the value. */
  function Supplied(column: string, v: Option<SqlValue>): seq<Field>
  {
    if v.Some? then [Field(column, v.value)] else []
  }

  /** The SET list, the bound values and the parameter number of the WHERE id. */
  datatype Update = Update(assignments: seq<Assignment>, values: seq<SqlValue>, whereParam: nat)

  /** The supplied columns bound to consecutive parameters from `$start`. */
  function Numbered(fields: seq<Field>, start: nat): (r: seq<Assignment>)
    ensures |r| == |fields|
    ensures forall i :: 0 <= i < |fields| ==> r[i] == Param(fields[i].column, start + i)
  {
    if fields == [] then []
    else [Param(fields[0].column, start)] + Numbered(fields[1..], start + 1)
  }

  function Values(fields: seq<Field>): (r: seq<SqlValue>)
    ensures |r| == |fields|
    ensures forall i :: 0 <= i < |fields| ==> r[i] == fields[i].value
  {
    if fields == [] then [] else [fields[0].value] + Values(fields[1..])
  }

  /** The statement a builder sends for the supplied fields and the row id. */
  function Statement(fields: seq<Field>, id: SqlValue): Update
  {
    Update(Numbered(fields, 1) + [Now("updated_at")], Values(fields) + [id], |fields| + 1)
  }

  /** Parameters `$1..$n` appear in SET order without gaps, the SET list
      ends with the timestamp, every parameter has a value, and the WHERE
      clause uses the next number, `$(n+1)`, which is the last value. */
  predicate WellNumbered(u: Update)
  {
    && |u.assignments| >= 1
    && u.assignments[|u.assignments| - 1] == Now("updated_at")
    && (forall i :: 0 <= i < |u.assignments| - 1 ==>
          u.assignments[i].Param? && u.assignments[i].index == i + 1)
    && |u.values| == |u.assignments|
    && u.whereParam == |u.values|
  }

  /** The value a statement writes into `column`: that of the first SET
      entry naming it; None when the statement leaves the column alone. */
  function Assigned(assignments: seq<Assignment>, values: seq<SqlValue>, column: string): Option<SqlValue>
  {
    if assignments == [] then None
    else if assignments[0].Param? && assignments[0].column == column then
      (if 1 <= assignments[0].index <= |values| then Some(values[assignments[0].index - 1]) else None)
    else Assigned(assignments[1..], values, column)
  }

  /** The value of the first supplied field named `column`. */
  function FieldValue(fields: seq<Field>, column: string): Option<SqlValue>
  {
    if fields == [] then None
    else if fields[0].column == column then Some(fields[0].value)
    else FieldValue(fields[1..], column)
  }

  lemma {:induction false} FieldValueAppend(xs: seq<Field>, ys: seq<Field>, column: string)
    ensures FieldValue(xs + ys, column) ==
      if FieldValue(xs, column).Some? then FieldValue(xs, column) else FieldValue(ys, column)
  {
    if xs != [] {
      assert (xs + ys)[0] == xs[0];
      assert (xs + ys)[1..] == xs[1..] + ys;
      FieldValueAppend(xs[1..], ys, column);
    } else {
      assert xs + ys == ys;
    }
  }

  /** Every built statement is well numbered, and binds the id in the WHERE clause. */
  lemma StatementWellNumbered(fields: seq<Field>, id: SqlValue)
    ensures WellNumbered(Statement(fields, id))
    ensures Statement(fields, id).values[Statement(fields, id).whereParam - 1] == id
    ensures |Statement(fields, id).assignments| == |fields| + 1
  {
    var u := Statement(fields, id);
    assert forall i :: 0 <= i < |u.assignments| - 1 ==> u.assignments[i] == Numbered(fields, 1)[i];
  }

  lemma {:induction false} AssignedNumbered(fields: seq<Field>, start: nat, values: seq<SqlValue>, column: string)
    requires start >= 1 && start - 1 + |fields| <= |values|
    requires forall i :: 0 <= i < |fields| ==> values[start - 1 + i] == fields[i].value
    ensures Assigned(Numbered(fields, start) + [Now("updated_at")], values, column) == FieldValue(fields, column)
  {
    var a := Numbered(fields, start) + [Now("updated_at")];
    if fields == [] {
      assert a == [Now("updated_at")];
      assert a[1..] == [];
    } else {
      assert a[0] == Param(fields[0].column, start);
      assert a[1..] == Numbered(fields[1..], start + 1) + [Now("updated_at")];
      if fields[0].column != column {
        AssignedNumbered(fields[1..], start + 1, values, column);
      }
    }
  }

  /** Executing the statement writes exactly the supplied fields: a column
      gets the value supplied for it and is untouched when none was. */
  lemma StatementWrites(fields: seq<Field>, id: SqlValue, column: string)
    ensures Assigned(Statement(fields, id).assignments, Statement(fields, id).values, column)
            == FieldValue(fields, column)
  {
    AssignedNumbered(fields, 1, Values(fields) + [id], column);
  }

  lemma NumberedSnoc(fields: seq<Field>, f: Field, start: nat)
    ensures Numbered(fields + [f], start) == Numbered(fields, start) + [Param(f.column, start + |fields|)]
  {
    var l := Numbered(fields + [f], start);
    var r := Numbered(fields, start) + [Param(f.column, start + |fields|)];
    assert |l| == |r|;
    forall i | 0 <= i < |l| ensures l[i] == r[i] {
      assert (fields + [f])[i] == if i < |fields| then fields[i] else f;
    }
  }

  lemma ValuesSnoc(fields: seq<Field>, f: Field)
    ensures Values(fields + [f]) == Values(fields) + [f.value]
  {
    var l := Values(fields + [f]);
    var r := Values(fields) + [f.value];
    assert |l| == |r|;
    forall i | 0 <= i < |l| ensures l[i] == r[i] {
      assert (fields + [f])[i] == if i < |fields| then fields[i] else f;
    }
  }

  lemma SuppliedValue(column: string, v: Option<SqlValue>, other: string)
    ensures FieldValue(Supplied(column, v), column) == v
    ensures column != other ==> FieldValue(Supplied(column, v), other) == None
  {
  }

  /** `if (v !== undefined) { updates.push(`${column} = $${paramCount++}`); values.push(v) }`:
      the SET list stays numbered from `$1` and the counter one past its end. */
  method PushSupplied(updates: seq<Assignment>, values: seq<SqlValue>, paramCount: nat,
                      ghost fields: seq<Field>, column: string, v: Option<SqlValue>)
    returns (updates': seq<Assignment>, values': seq<SqlValue>, paramCount': nat)
    requires updates == Numbered(fields, 1) && values == Values(fields)
    requires paramCount == |fields| + 1
    ensures updates' == Numbered(fields + Supplied(column, v), 1)
    ensures values' == Values(fields + Supplied(column, v))
    ensures paramCount' == |fields + Supplied(column, v)| + 1
  {
    updates', values', paramCount' := updates, values, paramCount;
    if v.Some? {
      NumberedSnoc(fields, Field(column, v.value), 1);
      ValuesSnoc(fields, Field(column, v.value));
      updates' := updates + [Param(column, paramCount)];
      values' := values + [v.value];
      paramCount' := paramCount + 1;
    } else {
      assert fields + Supplied(column, v) == fields;
    }
  }
}
