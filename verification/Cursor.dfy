/**
 Keyset cursors: the condition and the parameters generated from a cursor, and what they mean together.

 The generated text is kept as its structure: a disjunction of bracketed conjunctions of comparisons, each
 with one placeholder. Parameters are bound to placeholders by position, left to right.
 */
module Cursor {

  type Column = string

  datatype Direction = Asc | Desc

  datatype Order = Order(column: Column, direction: Direction)

  datatype Field = Field(name: Column, value: int, order: Direction)

  /** A result row; a column that is absent holds NULL. Values stand for ranks in the column's order. */
  type Row = map<Column, int>

  datatype Operator = Equal | Greater | Less

  /** `column op ?` */
  datatype Test = Test(column: Column, op: Operator)

  /** `( t0 AND t1 AND ... )` */
  type Clause = seq<Test>

  /** `c0 OR c1 OR ...`, empty when there is no condition. */
  type Condition = seq<Clause>

  // ---------- Meaning ----------

  predicate TestHolds(t: Test, row: Row, param: int) {
    && t.column in row
    && match t.op
       case Equal => row[t.column] == param
       case Greater => row[t.column] > param
       case Less => row[t.column] < param
  }

  predicate ClauseHolds(c: Clause, row: Row, params: seq<int>)
    requires |params| == |c|
  {
    forall i :: 0 <= i < |c| ==> TestHolds(c[i], row, params[i])
  }

  function Placeholders(q: Condition): nat {
    if q == [] then 0 else |q[0]| + Placeholders(q[1..])
  }

  predicate Holds(q: Condition, row: Row, params: seq<int>)
    requires |params| == Placeholders(q)
  {
    q != [] &&
    (ClauseHolds(q[0], row, params[..|q[0]|]) || Holds(q[1..], row, params[|q[0]|..]))
  }

  predicate Beyond(d: Direction, from: int, to: int) {
    if d.Asc? then to > from else to < from
  }

  /** The row's key comes strictly after the cursor's in the direction-aware lexicographic order. */
  predicate After(row: Row, fields: seq<Field>) {
    && fields != []
    && fields[0].name in row
    && (|| Beyond(fields[0].order, fields[0].value, row[fields[0].name])
        || (row[fields[0].name] == fields[0].value && After(row, fields[1..])))
  }

  // ---------- Generators ----------

  function OperatorOf(d: Direction): Operator {
    if d.Asc? then Greater else Less
  }

  /** All fields but the last are compared for equality, the last one in its direction. */
  function ClauseOf(fields: seq<Field>): (c: Clause)
    ensures |c| == |fields|
  {
    seq(|fields|, i requires 0 <= i < |fields| =>
      Test(fields[i].name, if i >= |fields| - 1 then OperatorOf(fields[i].order) else Equal))
  }

  function ValuesOf(fields: seq<Field>): (v: seq<int>)
    ensures |v| == |fields|
  {
    seq(|fields|, i requires 0 <= i < |fields| => fields[i].value)
  }

  function ConditionOf(query: Condition, fields: seq<Field>): Condition
    decreases |fields|
  {
    if fields == [] then query else ConditionOf(query + [ClauseOf(fields)], fields[..|fields| - 1])
  }

  function ParametersOf(params: seq<int>, fields: seq<Field>): seq<int>
    decreases |fields|
  {
    if fields == [] then params else ParametersOf(params + ValuesOf(fields), fields[..|fields| - 1])
  }

  /** cursor.go lines 71 to 103. */
  method CreateCursorQuery(query: Condition, fields: seq<Field>) returns (q: Condition)
    ensures q == ConditionOf(query, fields)
    decreases |fields|
  {
    if |fields| == 0 {
      return query;
    }
    var subQuery: Clause := [];
    for i := 0 to |fields|
      invariant subQuery == ClauseOf(fields)[..i]
    {
      var f := fields[i];
      var dir := Greater;
      match f.order {
        case Asc => dir := Greater;
        case Desc => dir := Less;
      }
      if i >= |fields| - 1 {
        subQuery := subQuery + [Test(f.name, dir)];
        continue;
      }
      subQuery := subQuery + [Test(f.name, Equal)];
    }
    assert subQuery == ClauseOf(fields);
    q := CreateCursorQuery(query + [subQuery], fields[..|fields| - 1]);
  }

  /** cursor.go lines 105 to 115. */
  method CreateCursorParameters(params: seq<int>, fields: seq<Field>) returns (p: seq<int>)
    ensures p == ParametersOf(params, fields)
    decreases |fields|
  {
    if |fields| == 0 {
      return params;
    }
    var extended := params;
    for i := 0 to |fields|
      invariant extended == params + ValuesOf(fields)[..i]
    {
      extended := extended + [fields[i].value];
    }
    assert extended == params + ValuesOf(fields);
    p := CreateCursorParameters(extended, fields[..|fields| - 1]);
  }

  // ---------- Accumulators can be split off ----------

  lemma {:induction false} ConditionSplits(query: Condition, fields: seq<Field>)
    ensures ConditionOf(query, fields) == query + ConditionOf([], fields)
    decreases |fields|
  {
    if fields != [] {
      var shorter := fields[..|fields| - 1];
      ConditionSplits(query + [ClauseOf(fields)], shorter);
      ConditionSplits([] + [ClauseOf(fields)], shorter);
    }
  }

  lemma {:induction false} ParametersSplit(params: seq<int>, fields: seq<Field>)
    ensures ParametersOf(params, fields) == params + ParametersOf([], fields)
    decreases |fields|
  {
    if fields != [] {
      var shorter := fields[..|fields| - 1];
      ParametersSplit(params + ValuesOf(fields), shorter);
      ParametersSplit([] + ValuesOf(fields), shorter);
    }
  }

  lemma LongestFirst(fields: seq<Field>)
    requires fields != []
    ensures var shorter := fields[..|fields| - 1];
            && ConditionOf([], fields) == [ClauseOf(fields)] + ConditionOf([], shorter)
            && ParametersOf([], fields) == ValuesOf(fields) + ParametersOf([], shorter)
  {
    var shorter := fields[..|fields| - 1];
    assert [] + [ClauseOf(fields)] == [ClauseOf(fields)];
    assert [] + ValuesOf(fields) == ValuesOf(fields);
    ConditionSplits([ClauseOf(fields)], shorter);
    ParametersSplit(ValuesOf(fields), shorter);
  }

  /** Query and parameters are generated separately and still agree on the number of placeholders. */
  lemma {:induction false} PlaceholdersMatch(fields: seq<Field>)
    ensures |ParametersOf([], fields)| == Placeholders(ConditionOf([], fields))
    decreases |fields|
  {
    if fields != [] {
      LongestFirst(fields);
      PlaceholdersMatch(fields[..|fields| - 1]);
      assert ConditionOf([], fields)[1..] == ConditionOf([], fields[..|fields| - 1]);
    }
  }

  /** There is one clause per field, so an order of one field gives no disjunction. */
  lemma {:induction false} OneClausePerField(fields: seq<Field>)
    ensures |ConditionOf([], fields)| == |fields|
    decreases |fields|
  {
    if fields != [] {
      LongestFirst(fields);
      OneClausePerField(fields[..|fields| - 1]);
    }
  }

  /** The row agrees with the cursor on the first k fields and is beyond it on the next one. */
  predicate TiesUpTo(row: Row, fields: seq<Field>, k: nat)
    requires k < |fields|
  {
    && (forall j :: 0 <= j <= k ==> fields[j].name in row)
    && (forall j :: 0 <= j < k ==> row[fields[j].name] == fields[j].value)
    && Beyond(fields[k].order, fields[k].value, row[fields[k].name])
  }

  lemma ClauseMeaning(row: Row, fields: seq<Field>)
    requires fields != []
    ensures ClauseHolds(ClauseOf(fields), row, ValuesOf(fields)) <==> TiesUpTo(row, fields, |fields| - 1)
  {
    var c, v, n := ClauseOf(fields), ValuesOf(fields), |fields| - 1;
    if ClauseHolds(c, row, v) {
      forall j | 0 <= j <= n
        ensures fields[j].name in row && (j < n ==> row[fields[j].name] == fields[j].value)
      {
        assert TestHolds(c[j], row, v[j]);
      }
      assert TestHolds(c[n], row, v[n]);
    }
  }

  lemma {:induction false} ConditionMeaning(row: Row, fields: seq<Field>)
    ensures |ParametersOf([], fields)| == Placeholders(ConditionOf([], fields))
    ensures Holds(ConditionOf([], fields), row, ParametersOf([], fields))
            <==> exists k :: 0 <= k < |fields| && TiesUpTo(row, fields, k)
    decreases |fields|
  {
    PlaceholdersMatch(fields);
    if fields != [] {
      var n := |fields| - 1;
      var shorter := fields[..n];
      LongestFirst(fields);
      ConditionMeaning(row, shorter);
      ClauseMeaning(row, fields);
      var q, p := ConditionOf([], fields), ParametersOf([], fields);
      assert q[1..] == ConditionOf([], shorter);
      assert p[..|q[0]|] == ValuesOf(fields) && p[|q[0]|..] == ParametersOf([], shorter);
      assert forall k :: 0 <= k < n ==> (TiesUpTo(row, shorter, k) <==> TiesUpTo(row, fields, k));
    }
  }

  lemma {:induction false} TiesMeanAfter(row: Row, fields: seq<Field>)
    ensures After(row, fields) <==> exists k :: 0 <= k < |fields| && TiesUpTo(row, fields, k)
  {
    if fields != [] {
      var rest := fields[1..];
      TiesMeanAfter(row, rest);
      if After(row, fields) {
        if Beyond(fields[0].order, fields[0].value, row[fields[0].name]) {
          assert TiesUpTo(row, fields, 0);
        } else {
          var k :| 0 <= k < |rest| && TiesUpTo(row, rest, k);
          assert TiesUpTo(row, fields, k + 1);
        }
      }
      if exists k :: 0 <= k < |fields| && TiesUpTo(row, fields, k) {
        var k :| 0 <= k < |fields| && TiesUpTo(row, fields, k);
        if k > 0 {
          assert TiesUpTo(row, rest, k - 1);
        }
      }
    }
  }

  /** The generated condition, with the generated parameters bound by position, holds of exactly the rows
      after the cursor, for any number of fields in any mix of directions. */
  lemma CursorSelectsRowsAfter(row: Row, fields: seq<Field>)
    ensures |ParametersOf([], fields)| == Placeholders(ConditionOf([], fields))
    ensures Holds(ConditionOf([], fields), row, ParametersOf([], fields)) <==> After(row, fields)
  {
    ConditionMeaning(row, fields);
    TiesMeanAfter(row, fields);
  }

  // ---------- Joined into a WHERE clause ----------

  /** `F AND c0 OR c1 OR ...`: without brackets around the condition, F only guards its first clause. */
  predicate UnbracketedHolds(filter: bool, q: Condition, row: Row, params: seq<int>)
    requires q != [] && |params| == Placeholders(q)
  {
    || (filter && ClauseHolds(q[0], row, params[..|q[0]|]))
    || Holds(q[1..], row, params[|q[0]|..])
  }

  /** Exactly for which rows that is what was meant: those that pass the filter, and those that are not beyond the
      cursor in the order without its last field. With one field these are all rows. */
  lemma UnbracketedExactly(filter: bool, row: Row, fields: seq<Field>)
    requires fields != []
    ensures ConditionOf([], fields) != [] && |ParametersOf([], fields)| == Placeholders(ConditionOf([], fields))
    ensures (UnbracketedHolds(filter, ConditionOf([], fields), row, ParametersOf([], fields)) <==>
             (filter && After(row, fields))) <==>
              (filter || !After(row, fields[..|fields| - 1]))
  {
    var shorter := fields[..|fields| - 1];
    LongestFirst(fields);
    CursorSelectsRowsAfter(row, fields);
    CursorSelectsRowsAfter(row, shorter);
    var q, p := ConditionOf([], fields), ParametersOf([], fields);
    assert q[1..] == ConditionOf([], shorter);
    assert p[|q[0]|..] == ParametersOf([], shorter);
  }
}
