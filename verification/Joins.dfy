/**
 The join resolver: which joins a query gets, in which order, and why every ON clause can be read.
 Join names (N), table aliases (A) and the filter with its order (F) are parameters.
 */
module Joins {
  import opened Common

  datatype JoinType = LeftJoin | RightJoin | InnerJoin

  /** The text after JOIN, for example "IssueMatch IM", together with the alias it introduces. */
  datatype Table<A> = Table(text: string, alias: A)

  /** `uses` are the aliases the ON clause names. A missing condition means the join is always wanted. */
  datatype JoinDef<N, A, !F> = JoinDef(name: N, kind: JoinType, table: Table<A>, uses: set<A>,
                                       dependsOn: seq<N>, condition: Option<F -> bool>)

  function Find<N(==), A, F>(defs: seq<JoinDef<N, A, F>>, name: N): (d: Option<JoinDef<N, A, F>>)
    ensures d.Some? ==> d.value.name == name && d.value in defs
    ensures d.Some? <==> exists k :: 0 <= k < |defs| && defs[k].name == name
  {
    if defs == [] then None
    else if defs[0].name == name then
      assert defs[0] in defs; Some(defs[0])
    else Find(defs[1..], name)
  }

  /** Of several definitions with the name it is the first one. */
  lemma {:induction false} FindsFirst<N, A, F>(defs: seq<JoinDef<N, A, F>>, name: N) returns (k: nat)
    requires Find(defs, name).Some?
    ensures k < |defs| && Find(defs, name).value == defs[k] && forall j :: 0 <= j < k ==> defs[j].name != name
  {
    if defs[0].name == name {
      k := 0;
    } else {
      k := FindsFirst(defs[1..], name);
      k := k + 1;
    }
  }

  predicate Triggered<N, A, F>(d: JoinDef<N, A, F>, filter: F) {
    d.condition.None? || d.condition.value(filter)
  }

  /** Dependencies have smaller ranks: the table is acyclic. */
  ghost predicate Acyclic<N(!new), A, F>(defs: seq<JoinDef<N, A, F>>, rank: N -> nat) {
    forall name, dep :: Find(defs, name).Some? && dep in Find(defs, name).value.dependsOn ==> rank(dep) < rank(name)
  }

  ghost predicate DependenciesKnown<N(!new), A, F>(defs: seq<JoinDef<N, A, F>>) {
    forall name, dep :: Find(defs, name).Some? && dep in Find(defs, name).value.dependsOn ==> Find(defs, dep).Some?
  }

  /** Every alias an ON clause uses is the base table's, the join's own, or that of a direct dependency. */
  ghost predicate WellScoped<N(!new), A(!new), F>(defs: seq<JoinDef<N, A, F>>, base: A) {
    forall name, a :: Find(defs, name).Some? && a in Find(defs, name).value.uses ==>
      || a == base
      || a == Find(defs, name).value.table.alias
      || exists dep :: dep in Find(defs, name).value.dependsOn && Find(defs, dep).Some? &&
                       Find(defs, dep).value.table.alias == a
  }

  ghost predicate Closed<N(!new), A, F>(defs: seq<JoinDef<N, A, F>>, names: set<N>) {
    forall name, dep :: name in names && Find(defs, name).Some? && dep in Find(defs, name).value.dependsOn ==>
      dep in names
  }

  /** Every name is known and comes after everything it depends on. */
  ghost predicate DependenciesFirst<N(!new), A, F>(defs: seq<JoinDef<N, A, F>>, order: seq<N>) {
    forall k :: 0 <= k < |order| ==>
      && Find(defs, order[k]).Some?
      && forall dep :: dep in Find(defs, order[k]).value.dependsOn ==> dep in order[..k]
  }

  /** order lists the least closed set of names that contains the roots. */
  ghost predicate LeastClosure<N(!new), A, F>(defs: seq<JoinDef<N, A, F>>, roots: set<N>, order: seq<N>) {
    && roots <= Elems(order)
    && Closed(defs, Elems(order))
    && Needed(defs, roots, Elems(order))
  }

  /** Every closed set that contains the roots contains the names. */
  ghost predicate Needed<N(!new), A, F>(defs: seq<JoinDef<N, A, F>>, roots: set<N>, names: set<N>) {
    forall closed: set<N> :: roots <= closed && Closed(defs, closed) ==> names <= closed
  }

  lemma StillNeeded<N(!new), A, F>(defs: seq<JoinDef<N, A, F>>, roots: set<N>, names: set<N>, name: N, more: set<N>)
    requires Needed(defs, roots, names) && name in roots && Needed(defs, names + {name}, more)
    ensures Needed(defs, roots, more)
  {
  }

  /** No table twice, and each alias is the base table's, the join's own or an earlier join's. */
  ghost predicate Readable<N, A(!new), F>(joins: seq<JoinDef<N, A, F>>, base: A) {
    && (forall i, j :: 0 <= i < j < |joins| ==> joins[i].table != joins[j].table)
    && (forall j, a :: 0 <= j < |joins| && a in joins[j].uses ==> a == base || Provides(joins[..j + 1], a))
  }

  ghost predicate Provides<N, A, F>(joins: seq<JoinDef<N, A, F>>, a: A) {
    exists i :: 0 <= i < |joins| && joins[i].table.alias == a
  }

  lemma OrderIsClosed<N(!new), A, F>(defs: seq<JoinDef<N, A, F>>, order: seq<N>)
    requires DependenciesFirst(defs, order)
    ensures Closed(defs, Elems(order))
  {
    forall name, dep | name in order && dep in Find(defs, name).value.dependsOn
      ensures dep in order
    {
      var k :| 0 <= k < |order| && order[k] == name;
      assert dep in order[..k];
    }
  }

  lemma AppendKeepsOrder<N(!new), A, F>(defs: seq<JoinDef<N, A, F>>, order: seq<N>, name: N)
    requires DependenciesFirst(defs, order) && Distinct(order) && name !in order && Find(defs, name).Some?
    requires forall dep :: dep in Find(defs, name).value.dependsOn ==> dep in order
    ensures DependenciesFirst(defs, order + [name]) && Distinct(order + [name])
    ensures Elems(order + [name]) == Elems(order) + {name}
  {
    var longer := order + [name];
    forall k | 0 <= k < |longer|
      ensures Find(defs, longer[k]).Some?
      ensures forall dep :: dep in Find(defs, longer[k]).value.dependsOn ==> dep in longer[..k]
    {
      assert longer[..k] == order[..k];
      assert k == |order| ==> order[..k] == order;
    }
  }

  class JoinResolver<N(==,!new), A(==,!new), !F> {
    const defs: seq<JoinDef<N, A, F>>
    const forcedJoin: seq<N>
    var included: set<N>
    var order: seq<N>

    constructor (defs: seq<JoinDef<N, A, F>>, forcedJoin: seq<N>)
      ensures this.defs == defs && this.forcedJoin == forcedJoin && order == [] && Valid()
    {
      this.defs, this.forcedJoin := defs, forcedJoin;
      included, order := {}, [];
    }

    ghost predicate Valid()
      reads this
    {
      included == Elems(order) && Distinct(order) && DependenciesFirst(defs, order)
    }

    /** db_object.go lines 775 to 794; the result is false where the program panics on an unknown name. */
    method Require(name: N, ghost rank: N -> nat) returns (ok: bool)
      requires Valid() && Acyclic(defs, rank)
      modifies this
      ensures Valid() && old(included) <= included
      ensures ok ==> name in included
      ensures forall x :: x in included && x !in old(included) ==> rank(x) <= rank(name)
      ensures Needed(defs, old(included) + {name}, included)
      ensures DependenciesKnown(defs) && Find(defs, name).Some? ==> ok
      decreases rank(name)
    {
      if name in included {
        return true;
      }
      var def := Find(defs, name);
      if def.None? {
        return false;
      }
      var d := def.value;
      for i := 0 to |d.dependsOn|
        invariant Valid() && old(included) <= included
        invariant forall j :: 0 <= j < i ==> d.dependsOn[j] in included
        invariant forall x :: x in included && x !in old(included) ==> rank(x) < rank(name)
        invariant Needed(defs, old(included) + {name}, included)
      {
        assert d.dependsOn[i] in d.dependsOn;
        ok := Require(d.dependsOn[i], rank);
        if !ok {
          return;
        }
      }
      AppendKeepsOrder(defs, order, name);
      included := included + {name};
      order := order + [name];
      ok := true;
    }

    /** What Build has to join: the forced names and those whose condition holds. */
    ghost function Roots(filter: F): set<N> {
      Elems(forcedJoin) + set d | d in defs && (d.condition.None? || d.condition.value(filter)) :: d.name
    }

    /** db_object.go lines 796 to 842. */
    method Build(filter: F, ghost rank: N -> nat, base: A) returns (ok: bool, joins: seq<JoinDef<N, A, F>>)
      requires Valid() && order == [] && Acyclic(defs, rank)
      modifies this
      ensures Valid()
      ensures ok ==> LeastClosure(defs, Roots(filter), order)
      ensures ok ==> joins == EmittedOf(defs, order)
      ensures ok && WellScoped(defs, base) ==> Readable(joins, base)
      ensures DependenciesKnown(defs) && (forall n :: n in forcedJoin ==> Find(defs, n).Some?) ==> ok
    {
      joins := [];
      for i := 0 to |forcedJoin|
        invariant Valid() && Elems(forcedJoin[..i]) <= included
        invariant Needed(defs, Roots(filter), included)
      {
        assert forcedJoin[i] in Roots(filter);
        assert Elems(forcedJoin[..i + 1]) == Elems(forcedJoin[..i]) + {forcedJoin[i]};
        ghost var before := included;
        ok := Require(forcedJoin[i], rank);
        StillNeeded(defs, Roots(filter), before, forcedJoin[i], included);
        if !ok {
          return;
        }
      }
      assert forcedJoin[..|forcedJoin|] == forcedJoin;
      for i := 0 to |defs|
        invariant Valid() && Elems(forcedJoin) <= included
        invariant forall j :: 0 <= j < i && Triggered(defs[j], filter) ==> defs[j].name in included
        invariant Needed(defs, Roots(filter), included)
      {
        var def := defs[i];
        if def.condition.None? || def.condition.value(filter) {
          assert def in defs && def.name in Roots(filter);
          ghost var before := included;
          ok := Require(def.name, rank);
          StillNeeded(defs, Roots(filter), before, def.name, included);
          if !ok {
            return;
          }
        }
      }
      OrderIsClosed(defs, order);
      assert Roots(filter) <= included;
      joins := Emit();
      if WellScoped(defs, base) {
        EmittedIsReadable(defs, order, base);
      }
      ok := true;
    }

    /** db_object.go lines 809 to 839: one join per table, the first in order. */
    method Emit() returns (joins: seq<JoinDef<N, A, F>>)
      requires Valid()
      ensures joins == EmittedOf(defs, order)
    {
      joins := [];
      var uniqTableName: set<Table<A>> := {};
      for i := 0 to |order|
        invariant joins == EmittedOf(defs, order[..i])
        invariant uniqTableName == Tables(joins)
      {
        var j := Find(defs, order[i]).value;
        assert order[..i + 1][..i] == order[..i];
        if j.table !in uniqTableName {
          uniqTableName := uniqTableName + {j.table};
          TablesSnoc(joins, j);
          joins := joins + [j];
        }
      }
      assert order[..|order|] == order;
    }
  }

  function Tables<N, A, F>(joins: seq<JoinDef<N, A, F>>): set<Table<A>> {
    set j | 0 <= j < |joins| :: joins[j].table
  }

  lemma TablesSnoc<N, A, F>(joins: seq<JoinDef<N, A, F>>, d: JoinDef<N, A, F>)
    ensures Tables(joins + [d]) == Tables(joins) + {d.table}
  {
    var longer := joins + [d];
    forall t | t in Tables(joins) + {d.table}
      ensures t in Tables(longer)
    {
      if t == d.table {
        assert longer[|joins|].table == t;
      } else {
        var j :| 0 <= j < |joins| && joins[j].table == t;
        assert longer[j].table == t;
      }
    }
  }

  predicate Known<N(==), A, F>(defs: seq<JoinDef<N, A, F>>, order: seq<N>) {
    forall k :: 0 <= k < |order| ==> Find(defs, order[k]).Some?
  }

  /** The definitions of the ordered names, without those whose table an earlier one has. */
  function EmittedOf<N(==), A(==), F>(defs: seq<JoinDef<N, A, F>>, order: seq<N>): seq<JoinDef<N, A, F>>
    requires Known(defs, order)
  {
    if order == [] then []
    else
      var n := |order| - 1;
      var joins, d := EmittedOf(defs, order[..n]), Find(defs, order[n]).value;
      if d.table in Tables(joins) then joins else joins + [d]
  }

  /** Position k is the first of the ordered names with its table. */
  ghost predicate FirstOfTable<N, A, F>(defs: seq<JoinDef<N, A, F>>, order: seq<N>, k: nat)
    requires Known(defs, order)
  {
    k < |order| && forall j :: 0 <= j < k ==> Find(defs, order[j]).value.table != Find(defs, order[k]).value.table
  }

  /** The positions list, in order, the first name of each table. */
  ghost predicate ListsFirsts<N, A, F>(defs: seq<JoinDef<N, A, F>>, order: seq<N>, positions: seq<nat>)
    requires Known(defs, order)
  {
    && (forall i :: 0 <= i < |positions| ==> FirstOfTable(defs, order, positions[i]))
    && (forall i, j :: 0 <= i < j < |positions| ==> positions[i] < positions[j])
    && (forall k :: 0 <= k < |order| && FirstOfTable(defs, order, k) ==> k in positions)
  }

  /** The joins are the table's own definitions at these positions, kind and ON clause included. */
  ghost predicate DefinedAt<N, A, F>(defs: seq<JoinDef<N, A, F>>, order: seq<N>, positions: seq<nat>,
                                     joins: seq<JoinDef<N, A, F>>)
    requires Known(defs, order)
  {
    |positions| == |joins| &&
    forall i :: 0 <= i < |joins| ==> positions[i] < |order| && joins[i] == Find(defs, order[positions[i]]).value
  }

  lemma DefinedSnoc<N, A, F>(defs: seq<JoinDef<N, A, F>>, order: seq<N>, n: nat, positions: seq<nat>,
                             joins: seq<JoinDef<N, A, F>>)
    requires n < |order| && Known(defs, order) && DefinedAt(defs, order[..n], positions, joins)
    ensures DefinedAt(defs, order, positions, joins)
    ensures DefinedAt(defs, order, positions + [n], joins + [Find(defs, order[n]).value])
  {
    assert forall k :: 0 <= k < n ==> order[..n][k] == order[k];
  }

  lemma FirstsSame<N, A, F>(defs: seq<JoinDef<N, A, F>>, order: seq<N>, n: nat, k: nat)
    requires k < n <= |order| && Known(defs, order)
    ensures FirstOfTable(defs, order, k) <==> FirstOfTable(defs, order[..n], k)
  {
    assert forall j :: 0 <= j < n ==> order[..n][j] == order[j];
  }

  lemma FirstOrNamed<N, A, F>(defs: seq<JoinDef<N, A, F>>, order: seq<N>, n: nat)
    requires n < |order| && Known(defs, order)
    ensures FirstOfTable(defs, order, n) <==> !NamesTable(defs, order[..n], Find(defs, order[n]).value.table)
  {
    assert forall j :: 0 <= j < n ==> order[..n][j] == order[j];
  }

  lemma FirstsSnoc<N, A, F>(defs: seq<JoinDef<N, A, F>>, order: seq<N>, positions: seq<nat>)
    requires order != [] && Known(defs, order) && ListsFirsts(defs, order[..|order| - 1], positions)
    ensures var n := |order| - 1;
            ListsFirsts(defs, order, if FirstOfTable(defs, order, n) then positions + [n] else positions)
  {
    var n := |order| - 1;
    var longer := if FirstOfTable(defs, order, n) then positions + [n] else positions;
    forall i | 0 <= i < |longer|
      ensures FirstOfTable(defs, order, longer[i])
    {
      if i < |positions| {
        FirstsSame(defs, order, n, positions[i]);
      }
    }
    forall k | 0 <= k < |order| && FirstOfTable(defs, order, k)
      ensures k in longer
    {
      if k < n {
        FirstsSame(defs, order, n, k);
        assert k in positions;
      } else {
        assert longer[|positions|] == n;
      }
    }
  }

  /** What is emitted are the table's definitions of the first name of each table, in order. */
  lemma {:induction false} EmittedInOrder<N, A, F>(defs: seq<JoinDef<N, A, F>>, order: seq<N>)
    returns (positions: seq<nat>)
    requires Known(defs, order)
    ensures ListsFirsts(defs, order, positions) && DefinedAt(defs, order, positions, EmittedOf(defs, order))
  {
    positions := [];
    if order != [] {
      var n := |order| - 1;
      positions := EmittedInOrder(defs, order[..n]);
      EmittedTables(defs, order[..n], Find(defs, order[n]).value.table);
      FirstOrNamed(defs, order, n);
      FirstsSnoc(defs, order, positions);
      DefinedSnoc(defs, order, n, positions, EmittedOf(defs, order[..n]));
      if FirstOfTable(defs, order, n) {
        positions := positions + [n];
      }
    }
  }

  /** Exactly the tables of the ordered names are joined. */
  lemma {:induction false} EmittedTables<N, A, F>(defs: seq<JoinDef<N, A, F>>, order: seq<N>, t: Table<A>)
    requires Known(defs, order)
    ensures t in Tables(EmittedOf(defs, order)) <==> NamesTable(defs, order, t)
  {
    if order != [] {
      var n := |order| - 1;
      EmittedTables(defs, order[..n], t);
      NamesTableSnoc(defs, order, t);
      TablesSnoc(EmittedOf(defs, order[..n]), Find(defs, order[n]).value);
    }
  }

  ghost predicate NamesTable<N, A, F>(defs: seq<JoinDef<N, A, F>>, order: seq<N>, t: Table<A>)
    requires Known(defs, order)
  {
    exists k :: 0 <= k < |order| && Find(defs, order[k]).value.table == t
  }

  lemma NamesTableEarlier<N, A, F>(defs: seq<JoinDef<N, A, F>>, order: seq<N>, n: nat, t: Table<A>)
    requires n <= |order| && Known(defs, order) && NamesTable(defs, order[..n], t)
    ensures NamesTable(defs, order, t)
  {
    var k :| 0 <= k < n && Find(defs, order[..n][k]).value.table == t;
    assert Find(defs, order[k]).value.table == t;
  }

  lemma NamesTableSnoc<N, A, F>(defs: seq<JoinDef<N, A, F>>, order: seq<N>, t: Table<A>)
    requires order != [] && Known(defs, order)
    ensures var n := |order| - 1;
            NamesTable(defs, order, t) <==> NamesTable(defs, order[..n], t) || Find(defs, order[n]).value.table == t
  {
    var n := |order| - 1;
    if NamesTable(defs, order[..n], t) {
      NamesTableEarlier(defs, order, n, t);
    }
    if NamesTable(defs, order, t) {
      var k :| 0 <= k < |order| && Find(defs, order[k]).value.table == t;
      if k < n {
        assert order[..n][k] == order[k];
      }
    }
  }

  lemma ProvidedByTable<N, A, F>(joins: seq<JoinDef<N, A, F>>, t: Table<A>)
    requires t in Tables(joins)
    ensures Provides(joins, t.alias)
  {
    var j :| 0 <= j < |joins| && joins[j].table == t;
    assert joins[j].table.alias == t.alias;
  }

  /** No table is joined twice, and every ON clause only names aliases that are in scope. */
  lemma {:induction false} EmittedIsReadable<N(!new), A(!new), F>(defs: seq<JoinDef<N, A, F>>, order: seq<N>, base: A)
    requires DependenciesFirst(defs, order) && Known(defs, order) && WellScoped(defs, base)
    ensures Readable(EmittedOf(defs, order), base)
  {
    if order != [] {
      var n := |order| - 1;
      PrefixKeepsOrder(defs, order);
      EmittedIsReadable(defs, order[..n], base);
      var joins, d := EmittedOf(defs, order[..n]), Find(defs, order[n]).value;
      if d.table !in Tables(joins) {
        forall a | a in d.uses
          ensures a == base || Provides(joins + [d], a)
        {
          AliasInScope(defs, order, base, a);
        }
        AppendKeepsReadable(joins, d, base);
      }
    }
  }

  lemma PrefixKeepsOrder<N(!new), A, F>(defs: seq<JoinDef<N, A, F>>, order: seq<N>)
    requires order != [] && DependenciesFirst(defs, order) && Known(defs, order)
    ensures DependenciesFirst(defs, order[..|order| - 1]) && Known(defs, order[..|order| - 1])
  {
    var shorter := order[..|order| - 1];
    forall k | 0 <= k < |shorter|
      ensures forall dep :: dep in Find(defs, shorter[k]).value.dependsOn ==> dep in shorter[..k]
    {
      assert shorter[..k] == order[..k];
    }
  }

  lemma AliasInScope<N(!new), A(!new), F>(defs: seq<JoinDef<N, A, F>>, order: seq<N>, base: A, a: A)
    requires order != [] && DependenciesFirst(defs, order) && Known(defs, order) && WellScoped(defs, base)
    requires a in Find(defs, order[|order| - 1]).value.uses
    ensures Known(defs, order[..|order| - 1])
    ensures var joins := EmittedOf(defs, order[..|order| - 1]);
            a == base || Provides(joins + [Find(defs, order[|order| - 1]).value], a)
  {
    PrefixKeepsOrder(defs, order);
    var n := |order| - 1;
    var joins, d := EmittedOf(defs, order[..n]), Find(defs, order[n]).value;
    var longer := joins + [d];
    if a == d.table.alias {
      assert longer[|joins|].table.alias == a;
    } else if a != base {
      var dep :| dep in d.dependsOn && Find(defs, dep).Some? && Find(defs, dep).value.table.alias == a;
      var t := Find(defs, dep).value.table;
      assert dep in order[..n];
      var k :| 0 <= k < n && order[..n][k] == dep;
      EmittedTables(defs, order[..n], t);
      ProvidedByTable(joins, t);
      var i :| 0 <= i < |joins| && joins[i].table.alias == a;
      assert longer[i].table.alias == a;
    }
  }

  lemma AppendKeepsReadable<N, A(!new), F>(joins: seq<JoinDef<N, A, F>>, d: JoinDef<N, A, F>, base: A)
    requires Readable(joins, base) && d.table !in Tables(joins)
    requires forall a :: a in d.uses ==> a == base || Provides(joins + [d], a)
    ensures Readable(joins + [d], base)
  {
    var longer := joins + [d];
    assert longer[..|joins| + 1] == longer;
    forall j, a | 0 <= j < |joins| && a in longer[j].uses
      ensures a == base || Provides(longer[..j + 1], a)
    {
      assert longer[..j + 1] == joins[..j + 1];
    }
    forall i, j | 0 <= i < j < |longer|
      ensures longer[i].table != longer[j].table
    {
      if j == |joins| {
        assert joins[i].table in Tables(joins);
      }
    }
  }
}
