/**
 Fetching a list page by page: every page is the answer of one query with the cursor condition in the
 HAVING clause, ORDER BY the same columns, and a LIMIT.
 */
module Pagination {
  import opened Common
  import opened Cursor

  function Key(row: Row, column: Column): int {
    if column in row then row[column] else 0
  }

  /** No NULL in an ordering column. */
  predicate Keyed(order: seq<Order>, row: Row) {
    forall o :: o in order ==> o.column in row
  }

  /** a comes before b in ORDER BY. */
  predicate Before(order: seq<Order>, a: Row, b: Row) {
    && order != []
    && var o := order[0];
       || Beyond(o.direction, Key(a, o.column), Key(b, o.column))
       || (Key(a, o.column) == Key(b, o.column) && Before(order[1..], a, b))
  }

  /** The cursor of a row: its values in the ordering columns. */
  function CursorOf(order: seq<Order>, row: Row): (fields: seq<Field>)
    ensures |fields| == |order|
  {
    seq(|order|, i requires 0 <= i < |order| =>
      Field(order[i].column, Key(row, order[i].column), order[i].direction))
  }

  function EffectiveOrder(order: seq<Order>, default: Order): seq<Order> {
    if |order| == 0 then [default] else order
  }

  /** How many of the columns the entity knows. */
  function CountKnown(order: seq<Order>, known: set<Column>): nat {
    if order == [] then 0
    else CountKnown(order[..|order| - 1], known) + One(order[|order| - 1].column in known)
  }

  lemma {:induction false} CountBounds(order: seq<Order>, known: set<Column>, k: nat)
    requires k <= |order|
    ensures CountKnown(order[..k], known) <= CountKnown(order, known) <= |order|
    ensures k < |order| && order[k].column in known ==> CountKnown(order[..k], known) < CountKnown(order, known)
  {
    if k == |order| {
      assert order[..k] == order;
      if order != [] {
        CountBounds(order[..|order| - 1], known, 0);
      }
    } else {
      var n := |order| - 1;
      CountBounds(order[..n], known, k);
      assert order[..n][..k] == order[..k];
      assert k == n ==> order[..k] == order[..n];
    }
  }

  lemma {:induction false} AllCounted(order: seq<Order>, known: set<Column>)
    requires forall i :: 0 <= i < |order| ==> order[i].column in known
    ensures CountKnown(order, known) == |order|
  {
    if order != [] {
      AllCounted(order[..|order| - 1], known);
    }
  }

  /** The fields say of each known order column, in order, the row's value and the direction, and nothing else. */
  predicate Describes(fields: seq<Field>, order: seq<Order>, known: set<Column>, row: Row) {
    && |fields| == CountKnown(order, known)
    && (forall k :: 0 <= k < |order| && order[k].column in known ==>
          && CountKnown(order[..k], known) < |fields|
          && fields[CountKnown(order[..k], known)] ==
               Field(order[k].column, Key(row, order[k].column), order[k].direction))
  }

  lemma DescribesSnoc(fields: seq<Field>, order: seq<Order>, n: nat, known: set<Column>, row: Row)
    requires n < |order| && Describes(fields, order[..n], known, row)
    ensures var o := order[n];
            Describes(if o.column in known then fields + [Field(o.column, Key(row, o.column), o.direction)] else fields,
                      order[..n + 1], known, row)
  {
    var shorter, longer := order[..n], order[..n + 1];
    assert longer[..n] == shorter;
    forall k | 0 <= k < |longer| && longer[k].column in known
      ensures longer[..k] == shorter[..k] && CountKnown(longer[..k], known) <= |fields|
    {
      CountBounds(shorter, known, k);
    }
  }

  /** The With... builders of cursor.go, of which lines 117 to 162 are typical: the row's values and the directions
      in the order columns that the entity knows, in order; without an order in the default column. */
  method BuildCursor(order: seq<Order>, default: Order, known: set<Column>, row: Row) returns (fields: seq<Field>)
    ensures Describes(fields, if |order| > 0 then order else [default], known, row)
    ensures order != [] && (forall i :: 0 <= i < |order| ==> order[i].column in known) ==>
              fields == CursorOf(order, row)
    ensures order == [] ==> fields == if default.column in known then CursorOf([default], row) else []
  {
    var effective := EffectiveOrder(order, default);
    fields := [];
    for i := 0 to |effective|
      invariant Describes(fields, effective[..i], known, row)
    {
      var o := effective[i];
      DescribesSnoc(fields, effective, i, known, row);
      if o.column in known {
        fields := fields + [Field(o.column, Key(row, o.column), o.direction)];
      }
    }
    assert effective[..|effective|] == effective;
    if forall i :: 0 <= i < |effective| ==> effective[i].column in known {
      DescribesAll(fields, effective, known, row);
    }
  }

  lemma DescribesAll(fields: seq<Field>, order: seq<Order>, known: set<Column>, row: Row)
    requires Describes(fields, order, known, row) && forall i :: 0 <= i < |order| ==> order[i].column in known
    ensures fields == CursorOf(order, row)
  {
    AllCounted(order, known);
    forall k | 0 <= k < |order|
      ensures fields[k] == CursorOf(order, row)[k]
    {
      AllCounted(order[..k], known);
    }
  }

  // ---------- The query ----------

  /** Without a cursor there is no condition. */
  predicate Passes(row: Row, after: seq<Field>) {
    PlaceholdersMatch(after);
    after == [] || Holds(ConditionOf([], after), row, ParametersOf([], after))
  }

  function Selected(rows: seq<Row>, after: seq<Field>): seq<Row> {
    if rows == [] then []
    else (if Passes(rows[0], after) then [rows[0]] else []) + Selected(rows[1..], after)
  }

  function Insert(order: seq<Order>, x: Row, rows: seq<Row>): seq<Row> {
    if rows == [] || Before(order, x, rows[0]) then [x] + rows else [rows[0]] + Insert(order, x, rows[1..])
  }

  function Sort(order: seq<Order>, rows: seq<Row>): seq<Row> {
    if rows == [] then [] else Insert(order, rows[0], Sort(order, rows[1..]))
  }

  function Take(rows: seq<Row>, n: nat): seq<Row> {
    if n < |rows| then rows[..n] else rows
  }

  /** BuildQuery with a cursor: db_object.go lines 501 to 524 and 605 to 636. */
  function Page(order: seq<Order>, rows: seq<Row>, after: seq<Field>, first: nat): seq<Row> {
    Take(Sort(order, Selected(rows, after)), first)
  }

  // ---------- Before is a strict order ----------

  lemma {:induction false} BeforeIrreflexive(order: seq<Order>, a: Row)
    ensures !Before(order, a, a)
  {
    if order != [] {
      BeforeIrreflexive(order[1..], a);
    }
  }

  lemma {:induction false} BeforeTransitive(order: seq<Order>, a: Row, b: Row, c: Row)
    requires Before(order, a, b) && Before(order, b, c)
    ensures Before(order, a, c)
  {
    var o := order[0];
    if Key(a, o.column) == Key(b, o.column) == Key(c, o.column) {
      BeforeTransitive(order[1..], a, b, c);
    }
  }

  lemma {:induction false} BeforeTotal(order: seq<Order>, o: Order, a: Row, b: Row)
    requires o in order && Key(a, o.column) != Key(b, o.column)
    ensures Before(order, a, b) || Before(order, b, a)
  {
    if Key(a, order[0].column) == Key(b, order[0].column) {
      BeforeTotal(order[1..], o, a, b);
    }
  }

  lemma {:induction false} AfterCursorIsBefore(order: seq<Order>, last: Row, row: Row)
    requires Keyed(order, row)
    ensures After(row, CursorOf(order, last)) <==> Before(order, last, row)
  {
    if order != [] {
      assert CursorOf(order, last)[1..] == CursorOf(order[1..], last);
      AfterCursorIsBefore(order[1..], last, row);
    }
  }

  lemma PassesIffBefore(order: seq<Order>, last: Row, row: Row)
    requires order != [] && Keyed(order, row)
    ensures Passes(row, CursorOf(order, last)) <==> Before(order, last, row)
  {
    CursorSelectsRowsAfter(row, CursorOf(order, last));
    AfterCursorIsBefore(order, last, row);
  }

  lemma {:induction false} BeforeSplits(order: seq<Order>, a: Row, b: Row, c: Row)
    requires Before(order, a, c)
    ensures Before(order, a, b) || Before(order, b, c)
  {
    var o := order[0];
    if Key(a, o.column) == Key(b, o.column) == Key(c, o.column) {
      BeforeSplits(order[1..], a, b, c);
    }
  }

  lemma BeforeAsymmetric(order: seq<Order>, a: Row, b: Row)
    requires Before(order, a, b)
    ensures !Before(order, b, a)
  {
    if Before(order, b, a) {
      BeforeTransitive(order, a, b, a);
      BeforeIrreflexive(order, a);
    }
  }

  // ---------- Sorting ----------

  predicate Sorted(order: seq<Order>, rows: seq<Row>) {
    forall i, j :: 0 <= i < j < |rows| ==> Before(order, rows[i], rows[j])
  }

  /** Sorted up to ties. */
  predicate InOrder(order: seq<Order>, rows: seq<Row>) {
    forall i, j :: 0 <= i < j < |rows| ==> !Before(order, rows[j], rows[i])
  }

  /** The order tells any two rows apart. */
  predicate Untied(order: seq<Order>, rows: seq<Row>) {
    forall i, j :: 0 <= i < j < |rows| ==> Before(order, rows[i], rows[j]) || Before(order, rows[j], rows[i])
  }

  predicate AllKeyed(order: seq<Order>, rows: seq<Row>) {
    forall r :: r in rows ==> Keyed(order, r)
  }

  /** The rows have no NULL keys and are told apart. */
  predicate Pageable(order: seq<Order>, rows: seq<Row>) {
    order != [] && AllKeyed(order, rows) && Untied(order, rows)
  }

  /** A unique column anywhere in the order is enough. */
  lemma UniqueColumnUnties(order: seq<Order>, rows: seq<Row>, o: Order)
    requires o in order && forall i, j :: 0 <= i < j < |rows| ==> Key(rows[i], o.column) != Key(rows[j], o.column)
    ensures Untied(order, rows)
  {
    forall i, j | 0 <= i < j < |rows|
      ensures Before(order, rows[i], rows[j]) || Before(order, rows[j], rows[i])
    {
      BeforeTotal(order, o, rows[i], rows[j]);
    }
  }

  lemma {:induction false} InsertMembers(order: seq<Order>, x: Row, rows: seq<Row>)
    ensures multiset(Insert(order, x, rows)) == multiset(rows) + multiset{x}
    ensures forall r :: r in Insert(order, x, rows) <==> r == x || r in rows
  {
    if rows != [] && !Before(order, x, rows[0]) {
      InsertMembers(order, x, rows[1..]);
      assert rows == [rows[0]] + rows[1..];
    }
  }

  lemma {:induction false} SortMembers(order: seq<Order>, rows: seq<Row>)
    ensures multiset(Sort(order, rows)) == multiset(rows)
    ensures |Sort(order, rows)| == |rows|
    ensures forall r :: r in Sort(order, rows) <==> r in rows
  {
    if rows != [] {
      SortMembers(order, rows[1..]);
      InsertMembers(order, rows[0], Sort(order, rows[1..]));
      assert rows == [rows[0]] + rows[1..];
    }
    assert |multiset(Sort(order, rows))| == |multiset(rows)|;
  }

  /** A first row that no other comes before, in front of a rest in order. */
  lemma InOrderCons(order: seq<Order>, x: Row, rows: seq<Row>)
    ensures InOrder(order, [x] + rows) <==> InOrder(order, rows) && forall r :: r in rows ==> !Before(order, r, x)
  {
    var all := [x] + rows;
    if InOrder(order, all) {
      forall i, j | 0 <= i < j < |rows|
        ensures !Before(order, rows[j], rows[i])
      {
        assert !Before(order, all[j + 1], all[i + 1]);
      }
      forall r | r in rows
        ensures !Before(order, r, x)
      {
        var k :| 0 <= k < |rows| && rows[k] == r;
        assert !Before(order, all[k + 1], all[0]);
      }
    }
    if InOrder(order, rows) && forall r :: r in rows ==> !Before(order, r, x) {
      forall i, j | 0 <= i < j < |all|
        ensures !Before(order, all[j], all[i])
      {
        assert rows[j - 1] in rows && all[j] == rows[j - 1];
        assert i > 0 ==> all[i] == rows[i - 1];
      }
    }
  }

  /** What comes before the first row in order comes before all of them. */
  lemma BeforeAll(order: seq<Order>, x: Row, rows: seq<Row>)
    requires rows != [] && InOrder(order, rows) && Before(order, x, rows[0])
    ensures forall r :: r in rows ==> Before(order, x, r) && !Before(order, r, x)
  {
    forall j | 0 <= j < |rows|
      ensures Before(order, x, rows[j]) && !Before(order, rows[j], x)
    {
      BeforeSplits(order, x, rows[j], rows[0]);
      BeforeIrreflexive(order, rows[0]);
      BeforeAsymmetric(order, x, rows[j]);
    }
  }

  lemma {:induction false} InsertInOrder(order: seq<Order>, x: Row, rows: seq<Row>)
    requires InOrder(order, rows)
    ensures InOrder(order, Insert(order, x, rows))
  {
    if rows == [] {
    } else if Before(order, x, rows[0]) {
      BeforeAll(order, x, rows);
      InOrderCons(order, x, rows);
    } else {
      assert rows == [rows[0]] + rows[1..];
      InOrderCons(order, rows[0], rows[1..]);
      InsertInOrder(order, x, rows[1..]);
      InsertMembers(order, x, rows[1..]);
      InOrderCons(order, rows[0], Insert(order, x, rows[1..]));
    }
  }

  lemma {:induction false} SortInOrder(order: seq<Order>, rows: seq<Row>)
    ensures InOrder(order, Sort(order, rows))
  {
    if rows != [] {
      SortInOrder(order, rows[1..]);
      InsertInOrder(order, rows[0], Sort(order, rows[1..]));
    }
  }

  lemma {:induction false} TwoPlaces(rows: seq<Row>, x: Row)
    requires multiset(rows)[x] >= 2
    ensures exists i, j :: 0 <= i < j < |rows| && rows[i] == x && rows[j] == x
  {
    assert rows == [rows[0]] + rows[1..];
    if rows[0] == x {
      assert x in multiset(rows[1..]);
      var k :| 0 <= k < |rows[1..]| && rows[1..][k] == x;
      assert rows[k + 1] == x;
    } else {
      TwoPlaces(rows[1..], x);
      var i, j :| 0 <= i < j < |rows[1..]| && rows[1..][i] == x && rows[1..][j] == x;
      assert rows[i + 1] == x && rows[j + 1] == x;
    }
  }

  lemma TwoOf(rows: seq<Row>, i: nat, j: nat)
    requires i < j < |rows| && rows[i] == rows[j]
    ensures multiset(rows)[rows[i]] >= 2
  {
    assert rows == rows[..j] + rows[j..];
    assert rows[..j][i] == rows[i] && rows[j..][0] == rows[i];
  }

  /** Ties do not depend on how the rows are arranged. */
  lemma UntiedPermutes(order: seq<Order>, a: seq<Row>, b: seq<Row>)
    requires Untied(order, a) && multiset(a) == multiset(b)
    ensures Untied(order, b)
  {
    forall i, j | 0 <= i < j < |b|
      ensures Before(order, b[i], b[j]) || Before(order, b[j], b[i])
    {
      if b[i] == b[j] {
        TwoOf(b, i, j);
        TwoPlaces(a, b[i]);
      } else {
        assert b[i] in multiset(a) && b[j] in multiset(a);
        var k :| 0 <= k < |a| && a[k] == b[i];
        var m :| 0 <= m < |a| && a[m] == b[j];
        assert k < m ==> Before(order, a[k], a[m]) || Before(order, a[m], a[k]);
        assert m < k ==> Before(order, a[m], a[k]) || Before(order, a[k], a[m]);
      }
    }
  }

  lemma SortSorts(order: seq<Order>, rows: seq<Row>)
    requires Untied(order, rows)
    ensures Sorted(order, Sort(order, rows))
  {
    SortInOrder(order, rows);
    SortMembers(order, rows);
    UntiedPermutes(order, rows, Sort(order, rows));
  }

  // ---------- Selecting and sorting commute ----------

  lemma {:induction false} SelectedMembers(rows: seq<Row>, after: seq<Field>)
    ensures forall r :: r in Selected(rows, after) <==> r in rows && Passes(r, after)
    ensures |Selected(rows, after)| <= |rows|
  {
    if rows != [] {
      SelectedMembers(rows[1..], after);
    }
  }

  lemma {:induction false} InsertFirst(order: seq<Order>, x: Row, rows: seq<Row>)
    requires forall r :: r in rows ==> Before(order, x, r)
    ensures Insert(order, x, rows) == [x] + rows
  {
    if rows != [] {
      assert rows[0] in rows;
    }
  }

  lemma SelectedCons(row: Row, rest: seq<Row>, after: seq<Field>)
    ensures Selected([row] + rest, after) == if Passes(row, after) then [row] + Selected(rest, after)
                                             else Selected(rest, after)
  {
    assert ([row] + rest)[1..] == rest;
    assert [] + Selected(rest, after) == Selected(rest, after);
  }

  lemma {:induction false} SelectInsert(order: seq<Order>, x: Row, rows: seq<Row>, after: seq<Field>)
    requires InOrder(order, rows)
    ensures Selected(Insert(order, x, rows), after) ==
              if Passes(x, after) then Insert(order, x, Selected(rows, after)) else Selected(rows, after)
  {
    if rows == [] {
    } else if Before(order, x, rows[0]) {
      SelectedCons(x, rows, after);
      SelectedMembers(rows, after);
      BeforeAll(order, x, rows);
      if Passes(x, after) {
        InsertFirst(order, x, Selected(rows, after));
      }
    } else {
      var first, rest := rows[0], rows[1..];
      assert rows == [first] + rest;
      InOrderCons(order, first, rest);
      SelectInsert(order, x, rest, after);
      SelectedCons(first, rest, after);
      SelectedCons(first, Insert(order, x, rest), after);
      var kept := Selected(rest, after);
      assert ([first] + kept)[1..] == kept;
    }
  }

  /** With ties or without. */
  lemma {:induction false} SortSelects(order: seq<Order>, rows: seq<Row>, after: seq<Field>)
    ensures Sort(order, Selected(rows, after)) == Selected(Sort(order, rows), after)
  {
    if rows != [] {
      SortSelects(order, rows[1..], after);
      SortInOrder(order, rows[1..]);
      SelectInsert(order, rows[0], Sort(order, rows[1..]), after);
      var kept := Selected(rows[1..], after);
      if Passes(rows[0], after) {
        assert Selected(rows, after) == [rows[0]] + kept;
        assert ([rows[0]] + kept)[1..] == kept;
      } else {
        assert Selected(rows, after) == kept;
      }
    }
  }

  lemma {:induction false} SelectedAppend(a: seq<Row>, b: seq<Row>, after: seq<Field>)
    ensures Selected(a + b, after) == Selected(a, after) + Selected(b, after)
  {
    if a == [] {
      assert a + b == b;
    } else {
      assert (a + b)[1..] == a[1..] + b;
      SelectedAppend(a[1..], b, after);
    }
  }

  predicate AllPass(rows: seq<Row>, after: seq<Field>) {
    forall i :: 0 <= i < |rows| ==> Passes(rows[i], after)
  }

  predicate NonePass(rows: seq<Row>, after: seq<Field>) {
    forall i :: 0 <= i < |rows| ==> !Passes(rows[i], after)
  }

  lemma {:induction false} SelectAll(rows: seq<Row>, after: seq<Field>)
    requires AllPass(rows, after)
    ensures Selected(rows, after) == rows
  {
    if rows != [] {
      SelectAll(rows[1..], after);
    }
  }

  lemma {:induction false} SelectNone(rows: seq<Row>, after: seq<Field>)
    requires NonePass(rows, after)
    ensures Selected(rows, after) == []
  {
    if rows != [] {
      SelectNone(rows[1..], after);
    }
  }

  /** In a list in order a row that does not come after row k, or before it, does not pass the cursor of row j if j
      and k tie. */
  lemma PrefixFails(order: seq<Order>, rows: seq<Row>, j: nat, k: nat, i: nat)
    requires order != [] && InOrder(order, rows) && AllKeyed(order, rows) && i <= k < |rows| && j < |rows|
    requires !Before(order, rows[j], rows[k])
    ensures !Passes(rows[i], CursorOf(order, rows[j]))
  {
    PassesIffBefore(order, rows[j], rows[i]);
    if Before(order, rows[j], rows[i]) {
      BeforeSplits(order, rows[j], rows[k], rows[i]);
    }
  }

  lemma PrefixNonePass(order: seq<Order>, rows: seq<Row>, j: nat, k: nat)
    requires order != [] && InOrder(order, rows) && AllKeyed(order, rows) && j <= k < |rows|
    requires !Before(order, rows[j], rows[k])
    ensures NonePass(rows[..k + 1], CursorOf(order, rows[j]))
  {
    var prefix := rows[..k + 1];
    forall i | 0 <= i < |prefix|
      ensures !Passes(prefix[i], CursorOf(order, rows[j]))
    {
      PrefixFails(order, rows, j, k, i);
    }
  }

  /** The cursor of row j selects none of the rows up to j, nor those up to k if j and k tie. */
  lemma CursorSkipsPrefix(order: seq<Order>, rows: seq<Row>, j: nat, k: nat)
    requires order != [] && InOrder(order, rows) && AllKeyed(order, rows) && j <= k < |rows|
    requires !Before(order, rows[j], rows[k])
    ensures Selected(rows, CursorOf(order, rows[j])) == Selected(rows[k + 1..], CursorOf(order, rows[j]))
  {
    var after := CursorOf(order, rows[j]);
    assert rows == rows[..k + 1] + rows[k + 1..];
    SelectedAppend(rows[..k + 1], rows[k + 1..], after);
    PrefixNonePass(order, rows, j, k);
    SelectNone(rows[..k + 1], after);
  }

  /** Rows j - 1 and j are told apart. */
  predicate CutsAt(order: seq<Order>, rows: seq<Row>, j: nat) {
    0 < j < |rows| ==> Before(order, rows[j - 1], rows[j])
  }

  lemma SuffixPasses(order: seq<Order>, rows: seq<Row>, j: nat, i: nat)
    requires order != [] && InOrder(order, rows) && AllKeyed(order, rows)
    requires j < i < |rows| && CutsAt(order, rows, j + 1)
    ensures Passes(rows[i], CursorOf(order, rows[j]))
  {
    PassesIffBefore(order, rows[j], rows[i]);
    BeforeSplits(order, rows[j], rows[i], rows[j + 1]);
    BeforeIrreflexive(order, rows[j + 1]);
  }

  lemma SuffixAllPass(order: seq<Order>, rows: seq<Row>, j: nat)
    requires order != [] && InOrder(order, rows) && AllKeyed(order, rows) && j < |rows| && CutsAt(order, rows, j + 1)
    ensures AllPass(rows[j + 1..], CursorOf(order, rows[j]))
  {
    var suffix := rows[j + 1..];
    forall i | 0 <= i < |suffix|
      ensures Passes(suffix[i], CursorOf(order, rows[j]))
    {
      SuffixPasses(order, rows, j, j + 1 + i);
    }
  }

  /** In a list in order the cursor of row j selects exactly the rows after it, if the next one does not tie. */
  lemma {:induction false} CursorSelectsSuffix(order: seq<Order>, rows: seq<Row>, j: nat)
    requires order != [] && InOrder(order, rows) && AllKeyed(order, rows) && j < |rows| && CutsAt(order, rows, j + 1)
    ensures Selected(rows, CursorOf(order, rows[j])) == rows[j + 1..]
  {
    assert !Before(order, rows[j], rows[j]) by {
      BeforeIrreflexive(order, rows[j]);
    }
    CursorSkipsPrefix(order, rows, j, j);
    SuffixAllPass(order, rows, j);
    SelectAll(rows[j + 1..], CursorOf(order, rows[j]));
  }

  /** Behind row j are at most the rows after k, if j and k tie. */
  lemma LeftBehind(order: seq<Order>, rows: seq<Row>, j: nat, k: nat)
    requires order != [] && AllKeyed(order, rows) && j <= k < |Sort(order, rows)|
    requires !Before(order, Sort(order, rows)[j], Sort(order, rows)[k])
    ensures |Selected(rows, CursorOf(order, Sort(order, rows)[j]))| <= |rows| - (k + 1)
  {
    var all := Sort(order, rows);
    var after := CursorOf(order, all[j]);
    SortMembers(order, rows);
    SortInOrder(order, rows);
    assert |Selected(rows, after)| == |Selected(all, after)| by {
      SortSelects(order, rows, after);
      SortMembers(order, Selected(rows, after));
    }
    CursorSkipsPrefix(order, all, j, k);
    SelectedMembers(all[k + 1..], after);
  }

  // ---------- Pages ----------

  /** The page fetched with the cursor of the j-th row of the full list continues right after that row, unless the
      next one ties with it. */
  lemma {:induction false} PageAfterRow(order: seq<Order>, rows: seq<Row>, j: nat, first: nat)
    requires order != [] && AllKeyed(order, rows) && j < |Sort(order, rows)| && CutsAt(order, Sort(order, rows), j + 1)
    ensures Page(order, rows, CursorOf(order, Sort(order, rows)[j]), first) == Take(Sort(order, rows)[j + 1..], first)
  {
    SortMembers(order, rows);
    SortInOrder(order, rows);
    SortSelects(order, rows, CursorOf(order, Sort(order, rows)[j]));
    CursorSelectsSuffix(order, Sort(order, rows), j);
  }

  lemma {:induction false} FirstPage(order: seq<Order>, rows: seq<Row>, first: nat)
    ensures Page(order, rows, [], first) == Take(Sort(order, rows), first)
  {
    SelectAll(rows, []);
  }

  /** A list query and the next one with a cursor that the first one returned: the cursor built for row j of the list
      in the requested order, or in the default order if none is requested, fetches the rows behind it. */
  method NextPage(order: seq<Order>, default: Order, known: set<Column>, rows: seq<Row>, j: nat, first: nat)
    returns (page: seq<Row>)
    requires var requested := if order == [] then [default] else order;
             && AllKeyed(requested, rows) && (forall i :: 0 <= i < |requested| ==> requested[i].column in known)
             && j < |Sort(requested, rows)| && CutsAt(requested, Sort(requested, rows), j + 1)
    ensures order != [] ==> page == Take(Sort(order, rows)[j + 1..], first)
    ensures order == [] ==> page == Take(Sort([default], rows)[j + 1..], first)
  {
    var listed := Sort(EffectiveOrder(order, default), rows);
    var after := BuildCursor(order, default, known, listed[j]);
    page := Page(EffectiveOrder(order, default), rows, after, first);
    PageAfterRow(EffectiveOrder(order, default), rows, j, first);
  }

  /** The list is ordered by its first column in the direction asked for. */
  lemma FirstColumnSorts(order: seq<Order>, rows: seq<Row>, i: nat, j: nat)
    requires order != [] && AllKeyed(order, rows) && i < j < |Sort(order, rows)|
    ensures var c, all := order[0].column, Sort(order, rows);
            && c in all[i] && c in all[j]
            && (order[0].direction == Asc ==> all[i][c] <= all[j][c])
            && (order[0].direction == Desc ==> all[i][c] >= all[j][c])
  {
    SortInOrder(order, rows);
    SortMembers(order, rows);
    var all := Sort(order, rows);
    assert all[i] in rows && all[j] in rows && !Before(order, all[j], all[i]);
    assert Keyed(order, all[i]) && Keyed(order, all[j]) && order[0] in order;
  }

  /** The After value of a client that has seen rows up to `last`. */
  function CursorAt(order: seq<Order>, last: Option<Row>): seq<Field> {
    if last.None? then [] else CursorOf(order, last.value)
  }

  /** The last row seen is the j-th of the full list, and does not tie with the next one. */
  ghost predicate At(order: seq<Order>, rows: seq<Row>, last: Option<Row>, j: nat) {
    && j <= |Sort(order, rows)|
    && last == (if j == 0 then None else Some(Sort(order, rows)[j - 1]))
    && CutsAt(order, Sort(order, rows), j)
  }

  lemma PageAt(order: seq<Order>, rows: seq<Row>, last: Option<Row>, j: nat, first: nat)
    requires order != [] && AllKeyed(order, rows) && At(order, rows, last, j)
    ensures Page(order, rows, CursorAt(order, last), first) == Take(Sort(order, rows)[j..], first)
  {
    var all := Sort(order, rows);
    if j == 0 {
      FirstPage(order, rows, first);
      assert all[0..] == all;
    } else {
      PageAfterRow(order, rows, j - 1, first);
      assert all[(j - 1) + 1..] == all[j..];
    }
  }

  /** A client that asks for page after page with First = first and After = the cursor of the last row it got,
      until it gets an empty page. */
  ghost predicate IsWalk(order: seq<Order>, rows: seq<Row>, last: Option<Row>, first: nat, pages: seq<seq<Row>>)
    decreases |pages|
  {
    && pages != []
    && var page := Page(order, rows, CursorAt(order, last), first);
       && pages[0] == page
       && if page == [] then |pages| == 1 else IsWalk(order, rows, Some(page[|page| - 1]), first, pages[1..])
  }

  /** From row j on, no two rows tie across the end of a page of n. */
  predicate CutsCleanly(order: seq<Order>, rows: seq<Row>, j: nat, n: nat)
    requires n > 0
    decreases |rows| - j
  {
    j + n < |rows| ==> Before(order, rows[j + n - 1], rows[j + n]) && CutsCleanly(order, rows, j + n, n)
  }

  lemma TakeFrom(rows: seq<Row>, j: nat, n: nat)
    requires j <= |rows| && n > 0
    ensures var page := Take(rows[j..], n);
            if j + n < |rows| then |page| == n && page[n - 1] == rows[j + n - 1] && rows[j..] == page + rows[j + n..]
            else page == rows[j..] && (page != [] ==> page[|page| - 1] == rows[|rows| - 1])
  {
    if j + n < |rows| {
      assert rows[j..][..n] == rows[j..j + n];
      assert rows[j..] == rows[j..j + n] + rows[j + n..];
    }
  }

  /** A page from row j on, and where the walk stands after it. */
  lemma NextPageAt(order: seq<Order>, rows: seq<Row>, last: Option<Row>, j: nat, n: nat)
    requires order != [] && AllKeyed(order, rows) && n > 0 && At(order, rows, last, j)
    ensures var all, page := Sort(order, rows), Page(order, rows, CursorAt(order, last), n);
            if j + n < |all| then
              |page| == n && page[n - 1] == all[j + n - 1] && all[j..] == page + all[j + n..]
            else page == all[j..] && (page != [] ==> At(order, rows, Some(page[|page| - 1]), |all|))
  {
    PageAt(order, rows, last, j, n);
    TakeFrom(Sort(order, rows), j, n);
  }

  /** Where at most one page is left, the walk shows it and stops. */
  lemma {:induction false} LastPages(order: seq<Order>, rows: seq<Row>, last: Option<Row>, n: nat, j: nat,
                                     pages: seq<seq<Row>>)
    requires order != [] && AllKeyed(order, rows) && n > 0 && At(order, rows, last, j)
    requires j + n >= |Sort(order, rows)| && IsWalk(order, rows, last, n, pages)
    ensures Flatten(pages) == Sort(order, rows)[j..]
    decreases |pages|
  {
    var all, page := Sort(order, rows), pages[0];
    NextPageAt(order, rows, last, j, n);
    if page == [] {
      assert Flatten(pages) == [];
    } else {
      LastPages(order, rows, Some(page[|page| - 1]), n, |all|, pages[1..]);
      assert Flatten(pages) == page + all[|all|..];
    }
  }

  lemma {:induction false} WalkFrom(order: seq<Order>, rows: seq<Row>, last: Option<Row>, n: nat, j: nat,
                                    pages: seq<seq<Row>>)
    requires order != [] && AllKeyed(order, rows) && n > 0 && At(order, rows, last, j)
    requires CutsCleanly(order, Sort(order, rows), j, n) && IsWalk(order, rows, last, n, pages)
    ensures Flatten(pages) == Sort(order, rows)[j..]
    decreases |pages|
  {
    var all := Sort(order, rows);
    if j + n < |all| {
      var next := Some(all[j + n - 1]);
      NextPageAt(order, rows, last, j, n);
      assert At(order, rows, next, j + n);
      WalkFrom(order, rows, next, n, j + n, pages[1..]);
    } else {
      LastPages(order, rows, last, n, j, pages);
    }
  }

  lemma {:induction false} SortedCutsCleanly(order: seq<Order>, rows: seq<Row>, j: nat, n: nat)
    requires n > 0 && Sorted(order, rows)
    ensures CutsCleanly(order, rows, j, n)
    decreases |rows| - j
  {
    if j + n < |rows| {
      SortedCutsCleanly(order, rows, j + n, n);
    }
  }

  /** The pages concatenate to the full ORDER BY list, and that list has every row exactly once. */
  lemma {:induction false} WalkSeesEveryRowOnce(order: seq<Order>, rows: seq<Row>, first: nat, pages: seq<seq<Row>>)
    requires Pageable(order, rows) && first > 0 && IsWalk(order, rows, None, first, pages)
    ensures Flatten(pages) == Sort(order, rows)
    ensures multiset(Flatten(pages)) == multiset(rows)
    ensures Sorted(order, Flatten(pages))
  {
    SortMembers(order, rows);
    SortSorts(order, rows);
    SortedCutsCleanly(order, Sort(order, rows), 0, first);
    WalkFrom(order, rows, None, first, 0, pages);
  }

  // ---------- Every walk ends ----------

  lemma {:induction false} SelectedTwice(rows: seq<Row>, a: seq<Field>, b: seq<Field>)
    requires forall r :: r in rows && Passes(r, b) ==> Passes(r, a)
    ensures Selected(Selected(rows, a), b) == Selected(rows, b)
  {
    if rows != [] {
      SelectedTwice(rows[1..], a, b);
      var kept := Selected(rows[1..], a);
      if Passes(rows[0], a) {
        assert Selected(rows, a) == [rows[0]] + kept;
        assert ([rows[0]] + kept)[1..] == kept;
      } else {
        assert Selected(rows, a) == kept;
      }
    }
  }

  lemma AfterLaterRow(order: seq<Order>, rows: seq<Row>, last: Option<Row>, row: Row)
    requires order != [] && AllKeyed(order, rows) && row in rows && Passes(row, CursorAt(order, last))
    ensures forall r :: r in rows && Passes(r, CursorOf(order, row)) ==> Passes(r, CursorAt(order, last))
  {
    forall r | r in rows && Passes(r, CursorOf(order, row))
      ensures Passes(r, CursorAt(order, last))
    {
      PassesIffBefore(order, row, r);
      if last.Some? {
        PassesIffBefore(order, last.value, row);
        PassesIffBefore(order, last.value, r);
        BeforeTransitive(order, last.value, row, r);
      }
    }
  }

  /** The rows of a page are gone from what is left behind its last row. */
  lemma PageMakesProgress(order: seq<Order>, rows: seq<Row>, last: Option<Row>, first: nat)
    requires order != [] && AllKeyed(order, rows) && Page(order, rows, CursorAt(order, last), first) != []
    ensures var page := Page(order, rows, CursorAt(order, last), first);
            |page| + |Selected(rows, CursorOf(order, page[|page| - 1]))| <= |Selected(rows, CursorAt(order, last))|
  {
    var left := Selected(rows, CursorAt(order, last));
    var m := |Page(order, rows, CursorAt(order, last), first)|;
    var row := Sort(order, left)[m - 1];
    assert Page(order, rows, CursorAt(order, last), first)[m - 1] == row;
    assert AllKeyed(order, left) && row in rows && Passes(row, CursorAt(order, last)) by {
      SelectedMembers(rows, CursorAt(order, last));
      SortMembers(order, left);
    }
    AfterLaterRow(order, rows, last, row);
    SelectedTwice(rows, CursorAt(order, last), CursorOf(order, row));
    BeforeIrreflexive(order, row);
    LeftBehind(order, left, m - 1, m - 1);
  }

  lemma WalkCons(order: seq<Order>, rows: seq<Row>, last: Option<Row>, first: nat, page: seq<Row>, rest: seq<seq<Row>>)
    requires page == Page(order, rows, CursorAt(order, last), first) && page != []
    requires IsWalk(order, rows, Some(page[|page| - 1]), first, rest)
    ensures IsWalk(order, rows, last, first, [page] + rest)
  {
    assert ([page] + rest)[1..] == rest;
  }

  /** Whether or not the order ties rows, the walk ends, after at most one page more than there are rows. */
  lemma {:induction false} WalkEnds(order: seq<Order>, rows: seq<Row>, last: Option<Row>, first: nat)
    returns (pages: seq<seq<Row>>)
    requires order != [] && AllKeyed(order, rows) && first > 0
    ensures IsWalk(order, rows, last, first, pages)
    ensures |pages| <= |Selected(rows, CursorAt(order, last))| + 1
    decreases |Selected(rows, CursorAt(order, last))|
  {
    var page := Page(order, rows, CursorAt(order, last), first);
    if page == [] {
      pages := [page];
    } else {
      PageMakesProgress(order, rows, last, first);
      var rest := WalkEnds(order, rows, Some(page[|page| - 1]), first);
      WalkCons(order, rows, last, first, page, rest);
      pages := [page] + rest;
    }
  }

  // ---------- Exactly when a walk is complete ----------

  /** A walk shows nothing twice. */
  lemma {:induction false} WalkIsBounded(order: seq<Order>, rows: seq<Row>, last: Option<Row>, first: nat,
                                         pages: seq<seq<Row>>)
    requires order != [] && AllKeyed(order, rows) && IsWalk(order, rows, last, first, pages)
    ensures |Flatten(pages)| <= |Selected(rows, CursorAt(order, last))|
    decreases |pages|
  {
    var page := pages[0];
    if page != [] {
      PageMakesProgress(order, rows, last, first);
      WalkIsBounded(order, rows, Some(page[|page| - 1]), first, pages[1..]);
    }
  }

  /** A tie across the end of a page loses a row. */
  lemma TieLosesRow(order: seq<Order>, rows: seq<Row>, n: nat, j: nat, pages: seq<seq<Row>>)
    requires order != [] && AllKeyed(order, rows) && n > 0 && j + n < |Sort(order, rows)|
    requires !Before(order, Sort(order, rows)[j + n - 1], Sort(order, rows)[j + n])
    requires IsWalk(order, rows, Some(Sort(order, rows)[j + n - 1]), n, pages)
    ensures |Flatten(pages)| < |Sort(order, rows)| - (j + n)
  {
    SortMembers(order, rows);
    LeftBehind(order, rows, j + n - 1, j + n);
    WalkIsBounded(order, rows, Some(Sort(order, rows)[j + n - 1]), n, pages);
  }

  lemma {:induction false} WalkFallsShort(order: seq<Order>, rows: seq<Row>, last: Option<Row>, n: nat, j: nat,
                                          pages: seq<seq<Row>>)
    requires order != [] && AllKeyed(order, rows) && n > 0 && At(order, rows, last, j)
    requires !CutsCleanly(order, Sort(order, rows), j, n) && IsWalk(order, rows, last, n, pages)
    ensures |Flatten(pages)| < |Sort(order, rows)| - j
    decreases |pages|
  {
    var all := Sort(order, rows);
    var next := Some(all[j + n - 1]);
    NextPageAt(order, rows, last, j, n);
    assert |Flatten(pages)| == n + |Flatten(pages[1..])|;
    if Before(order, all[j + n - 1], all[j + n]) {
      assert At(order, rows, next, j + n);
      WalkFallsShort(order, rows, next, n, j + n, pages[1..]);
    } else {
      TieLosesRow(order, rows, n, j, pages[1..]);
    }
  }

  /** A walk with pages of n sees every row exactly once iff no two rows tie across the end of a page. */
  lemma {:induction false} WalkCompleteExactly(order: seq<Order>, rows: seq<Row>, n: nat, pages: seq<seq<Row>>)
    requires order != [] && AllKeyed(order, rows) && n > 0 && IsWalk(order, rows, None, n, pages)
    ensures multiset(Flatten(pages)) == multiset(rows) <==> CutsCleanly(order, Sort(order, rows), 0, n)
  {
    SortMembers(order, rows);
    if CutsCleanly(order, Sort(order, rows), 0, n) {
      WalkFrom(order, rows, None, n, 0, pages);
      assert Sort(order, rows)[0..] == Sort(order, rows);
    } else {
      WalkFallsShort(order, rows, None, n, 0, pages);
      assert |multiset(Flatten(pages))| == |Flatten(pages)| && |multiset(rows)| == |rows|;
    }
  }

  ghost predicate WalksAreComplete(order: seq<Order>, rows: seq<Row>) {
    forall first: nat, pages :: first > 0 && IsWalk(order, rows, None, first, pages) ==>
      multiset(Flatten(pages)) == multiset(rows)
  }

  lemma {:induction false} SinglesSort(order: seq<Order>, rows: seq<Row>, j: nat, i: nat, k: nat)
    requires CutsCleanly(order, rows, j, 1) && j <= i < k < |rows|
    ensures Before(order, rows[i], rows[k])
    decreases |rows| - j
  {
    if j < i {
      SinglesSort(order, rows, j + 1, i, k);
    } else if i + 1 < k {
      SinglesSort(order, rows, j + 1, i + 1, k);
      BeforeTransitive(order, rows[i], rows[i + 1], rows[k]);
    }
  }

  /** Walks of every page size see every row exactly once iff the order tells any two rows apart. */
  lemma CompleteExactlyWhenUntied(order: seq<Order>, rows: seq<Row>)
    requires order != [] && AllKeyed(order, rows)
    ensures WalksAreComplete(order, rows) <==> Untied(order, rows)
  {
    if Untied(order, rows) {
      forall first: nat, pages | first > 0 && IsWalk(order, rows, None, first, pages)
        ensures multiset(Flatten(pages)) == multiset(rows)
      {
        WalkSeesEveryRowOnce(order, rows, first, pages);
      }
    }
    if WalksAreComplete(order, rows) {
      var pages := WalkEnds(order, rows, None, 1);
      WalkCompleteExactly(order, rows, 1, pages);
      var all := Sort(order, rows);
      forall i, k | 0 <= i < k < |all|
        ensures Before(order, all[i], all[k])
      {
        SinglesSort(order, all, 0, i, k);
      }
      SortMembers(order, rows);
      UntiedPermutes(order, all, rows);
    }
  }

  /** Without a column that tells rows apart the walk is not complete: of two rows with equal keys the
      first page of one row shows one, and the next page is empty. */
  lemma {:induction false} TiedRowsAreSkipped(order: seq<Order>, a: Row, b: Row)
    requires order != [] && Keyed(order, a) && Keyed(order, b) && !Before(order, a, b) && !Before(order, b, a)
    ensures var page := Page(order, [a, b], [], 1);
            |page| == 1 && Page(order, [a, b], CursorOf(order, page[0]), 1) == []
  {
    FirstPage(order, [a, b], 1);
    assert [a, b][1..] == [b] && [b][1..] == [];
    assert Sort(order, [b]) == Insert(order, b, Sort(order, []));
    assert Sort(order, [a, b]) == Insert(order, a, [b]);
    var page := Page(order, [a, b], [], 1);
    BeforeIrreflexive(order, a);
    BeforeIrreflexive(order, b);
    PassesIffBefore(order, page[0], a);
    PassesIffBefore(order, page[0], b);
    assert Selected([b], CursorOf(order, page[0])) == [] + Selected([], CursorOf(order, page[0]));
  }
}
