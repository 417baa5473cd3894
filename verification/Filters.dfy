/**
 The filter compiler: conditions with placeholders on one side, parameters on the other, both built from the
 same filter by separate loops, and what they mean when parameters are bound by position.
 */
module Filters {
  import opened Common
  import opened Json

  datatype Value = Number(n: int) | Text(s: string)

  /** An expression with `?` placeholders, given by what it says of a row for given parameters. */
  datatype Template<!R> = Template(placeholders: nat, holds: (R, seq<Value>) -> bool)

  /** `( e AND e AND ... )` */
  type Conjunction<!R> = seq<Template<R>>

  /** `( c OR c OR ... )`, empty for the empty text. */
  type Query<!R> = seq<Conjunction<R>>

  // ---------- Meaning ----------

  function ConjunctionHoles<R>(c: Conjunction<R>): nat {
    if c == [] then 0 else c[0].placeholders + ConjunctionHoles(c[1..])
  }

  predicate ConjunctionHolds<R>(c: Conjunction<R>, row: R, params: seq<Value>)
    requires |params| == ConjunctionHoles(c)
  {
    c == [] ||
    (c[0].holds(row, params[..c[0].placeholders]) && ConjunctionHolds(c[1..], row, params[c[0].placeholders..]))
  }

  function Holes<R>(q: Query<R>): nat {
    if q == [] then 0 else ConjunctionHoles(q[0]) + Holes(q[1..])
  }

  predicate Holds<R>(q: Query<R>, row: R, params: seq<Value>)
    requires |params| == Holes(q)
  {
    q != [] &&
    (|| ConjunctionHolds(q[0], row, params[..ConjunctionHoles(q[0])])
     || Holds(q[1..], row, params[ConjunctionHoles(q[0])..]))
  }

  function WhereHoles<R>(parts: seq<Query<R>>): nat {
    if parts == [] then 0 else Holes(parts[0]) + WhereHoles(parts[1..])
  }

  /** Every part of the WHERE clause holds, parameters running on from part to part. */
  predicate WhereHolds<R>(parts: seq<Query<R>>, row: R, params: seq<Value>)
    requires |params| == WhereHoles(parts)
  {
    parts == [] ||
    (Holds(parts[0], row, params[..Holes(parts[0])]) && WhereHolds(parts[1..], row, params[Holes(parts[0])..]))
  }

  // ---------- Filter properties ----------

  /** 0 is Active, 1 is Deleted; the type is an int, so other values exist. */
  type StateFilter = int
  const ACTIVE: StateFilter := 0
  const DELETED: StateFilter := 1

  datatype Property<!R> =
    | Plain(template: Template<R>, values: seq<Value>, nparam: nat)
    | State(states: seq<StateFilter>, isDeleted: R -> bool)
    | JsonColumn(filters: seq<Json>, lookup: (R, Path) -> Option<string>)
    | Custom(query: Query<R>)

  function Repeat(v: Value, n: nat): (r: seq<Value>)
    ensures |r| == n
  {
    seq(n, _ => v)
  }

  function RepeatAll(values: seq<Value>, n: nat): seq<Value> {
    if values == [] then [] else RepeatAll(values[..|values| - 1], n) + Repeat(values[|values| - 1], n)
  }

  function Copies<R>(t: Template<R>, n: nat): (q: Query<R>)
    ensures |q| == n
  {
    seq(n, _ => [t])
  }

  function StateTest<R>(isDeleted: R -> bool, deleted: bool): Template<R> {
    Template(0, (row, _) => isDeleted(row) == deleted)
  }

  function StateQuery<R>(states: seq<StateFilter>, isDeleted: R -> bool): Query<R> {
    if states == [] then []
    else
      var q, s := StateQuery(states[..|states| - 1], isDeleted), states[|states| - 1];
      if s == ACTIVE then q + [[StateTest(isDeleted, false)]]
      else if s == DELETED then q + [[StateTest(isDeleted, true)]]
      else q
  }

  /** JSON_VALUE(column, '$.key') = ? */
  function JsonTest<R>(lookup: (R, Path) -> Option<string>, key: Path): Template<R> {
    Template(1, (row, ps: seq<Value>) => |ps| == 1 && lookup(row, key).Some? && ps[0] == Text(lookup(row, key).value))
  }

  function JsonTests<R>(lookup: (R, Path) -> Option<string>, attributes: seq<Attribute>): (c: Conjunction<R>)
    ensures |c| == |attributes|
  {
    seq(|attributes|, i requires 0 <= i < |attributes| => JsonTest(lookup, attributes[i].key))
  }

  function Texts(attributes: seq<Attribute>): (ps: seq<Value>)
    ensures |ps| == |attributes|
  {
    seq(|attributes|, i requires 0 <= i < |attributes| => Text(attributes[i].value))
  }

  function Leaves(j: Json): seq<Attribute> {
    Attributes(j, [])
  }

  /** A filter without leaves contributes nothing. */
  function JsonQuery<R>(filters: seq<Json>, lookup: (R, Path) -> Option<string>): Query<R> {
    if filters == [] then []
    else
      var q, c := JsonQuery(filters[..|filters| - 1], lookup), JsonTests(lookup, Leaves(filters[|filters| - 1]));
      if c == [] then q else q + [c]
  }

  function JsonParams(filters: seq<Json>): seq<Value> {
    if filters == [] then [] else JsonParams(filters[..|filters| - 1]) + Texts(Leaves(filters[|filters| - 1]))
  }

  function QueryOf<R>(p: Property<R>): Query<R> {
    match p
    case Plain(t, values, _) => Copies(t, |values|)
    case State(states, isDeleted) =>
      if states == [] then [[StateTest(isDeleted, false)]] else StateQuery(states, isDeleted)
    case JsonColumn(filters, lookup) => JsonQuery(filters, lookup)
    case Custom(q) => q
  }

  function ParamsOf<R>(p: Property<R>): seq<Value> {
    match p
    case Plain(_, values, nparam) => RepeatAll(values, nparam)
    case State(_, _) => []
    case JsonColumn(filters, _) => JsonParams(filters)
    case Custom(_) => []
  }

  /** database.go lines 118 to 135. */
  method BuildFilterQuery<R>(filter: seq<Value>, expr: Template<R>) returns (q: Query<R>)
    ensures q == Copies(expr, |filter|)
  {
    q := [];
    for i := 0 to |filter|
      invariant q == Copies(expr, i)
    {
      q := q + [[expr]];
    }
  }

  /** database.go lines 141 to 149. */
  method BuildQueryParametersCount(params: seq<Value>, filter: seq<Value>, count: nat) returns (ps: seq<Value>)
    ensures ps == params + RepeatAll(filter, count)
  {
    ps := params;
    for i := 0 to |filter|
      invariant ps == params + RepeatAll(filter[..i], count)
    {
      ghost var before := ps;
      for k := 0 to count
        invariant ps == before + Repeat(filter[i], k)
      {
        ps := ps + [filter[i]];
      }
      assert filter[..i + 1][..i] == filter[..i];
    }
    assert filter[..|filter|] == filter;
  }

  /** db_object.go lines 694 to 704. */
  method GetNParameters(params: seq<Value>, count: nat) returns (nparams: seq<Value>)
    ensures nparams == RepeatAll(params, count)
  {
    nparams := BuildQueryParametersCount([], params, count);
  }

  /** database.go lines 93 to 116: empty texts are skipped. */
  method CombineFilterQueries<T>(filterQueries: seq<seq<T>>) returns (combined: seq<seq<T>>)
    ensures combined == NonEmptyOf(filterQueries)
  {
    combined := [];
    for i := 0 to |filterQueries|
      invariant combined == NonEmptyOf(filterQueries[..i])
    {
      assert filterQueries[..i + 1][..i] == filterQueries[..i];
      if |filterQueries[i]| == 0 {
        continue;
      }
      combined := combined + [filterQueries[i]];
    }
    assert filterQueries[..|filterQueries|] == filterQueries;
  }

  function NonEmptyOf<T>(qs: seq<seq<T>>): seq<seq<T>> {
    if qs == [] then []
    else NonEmptyOf(qs[..|qs| - 1]) + if |qs[|qs| - 1]| == 0 then [] else [qs[|qs| - 1]]
  }

  lemma {:induction false} NothingEmpty<T>(qs: seq<seq<T>>)
    requires forall k :: 0 <= k < |qs| ==> |qs[k]| > 0
    ensures NonEmptyOf(qs) == qs
  {
    if qs != [] {
      NothingEmpty(qs[..|qs| - 1]);
    }
  }

  /** database.go lines 399 to 418. */
  method BuildStateFilterQuery<R>(state: seq<StateFilter>, isDeleted: R -> bool) returns (q: Query<R>)
    ensures q == QueryOf(State(state, isDeleted))
  {
    var stateQueries: Query<R> := [];
    if |state| < 1 {
      stateQueries := [[StateTest(isDeleted, false)]];
    } else {
      for i := 0 to |state|
        invariant stateQueries == StateQuery(state[..i], isDeleted)
        invariant forall k :: 0 <= k < |stateQueries| ==> |stateQueries[k]| > 0
      {
        assert state[..i + 1][..i] == state[..i];
        if state[i] == ACTIVE {
          stateQueries := stateQueries + [[StateTest(isDeleted, false)]];
        } else if state[i] == DELETED {
          stateQueries := stateQueries + [[StateTest(isDeleted, true)]];
        }
      }
      assert state[..|state|] == state;
    }
    NothingEmpty(stateQueries);
    q := CombineFilterQueries(stateQueries);
  }

  /** database.go lines 420 to 438. */
  method BuildJsonFilterQuery<R>(filter: seq<Json>, lookup: (R, Path) -> Option<string>) returns (q: Query<R>)
    ensures q == JsonQuery(filter, lookup)
  {
    var conFilQueries: seq<Conjunction<R>> := [];
    for i := 0 to |filter|
      invariant NonEmptyOf(conFilQueries) == JsonQuery(filter[..i], lookup)
    {
      var attrs := SeparateJsonAttributesRecursive(filter[i], []);
      var queries: Conjunction<R> := [];
      for k := 0 to |attrs|
        invariant queries == JsonTests(lookup, attrs)[..k]
      {
        queries := queries + [JsonTest(lookup, attrs[k].key)];
      }
      assert queries == JsonTests(lookup, attrs);
      assert filter[..i + 1][..i] == filter[..i];
      assert (conFilQueries + [queries])[..|conFilQueries|] == conFilQueries;
      conFilQueries := conFilQueries + [queries];
    }
    assert filter[..|filter|] == filter;
    q := CombineFilterQueries(conFilQueries);
  }

  /** database.go lines 440 to 451: a second flattening of the same filters. */
  method BuildJsonQueryParameters(params: seq<Value>, filter: seq<Json>) returns (ps: seq<Value>)
    ensures ps == params + JsonParams(filter)
  {
    var conQueryParams: seq<Value> := [];
    for i := 0 to |filter|
      invariant conQueryParams == JsonParams(filter[..i])
    {
      var attrs := SeparateJsonAttributesRecursive(filter[i], []);
      conQueryParams := AppendTexts(conQueryParams, attrs);
      assert filter[..i + 1][..i] == filter[..i];
    }
    assert filter[..|filter|] == filter;
    ps := BuildQueryParametersCount(params, conQueryParams, 1);
    RepeatOnce(conQueryParams);
  }

  method AppendTexts(params: seq<Value>, attrs: seq<Attribute>) returns (ps: seq<Value>)
    ensures ps == params + Texts(attrs)
  {
    ps := params;
    for k := 0 to |attrs|
      invariant ps == params + Texts(attrs[..k])
    {
      assert Texts(attrs[..k + 1]) == Texts(attrs[..k]) + [Text(attrs[k].value)];
      ps := ps + [Text(attrs[k].value)];
    }
    assert attrs[..|attrs|] == attrs;
  }

  lemma {:induction false} RepeatOnce(values: seq<Value>)
    ensures RepeatAll(values, 1) == values
  {
    if values != [] {
      RepeatOnce(values[..|values| - 1]);
    }
  }

  /** Query and parameters of one property, built independently of each other: db_object.go lines 682 to 736. */
  method Compile<R>(p: Property<R>) returns (q: Query<R>, params: seq<Value>)
    ensures q == QueryOf(p) && params == ParamsOf(p)
  {
    match p {
      case Plain(t, values, nparam) =>
        q := BuildFilterQuery(values, t);
        params := GetNParameters(values, nparam);
      case State(states, isDeleted) =>
        q := BuildStateFilterQuery(states, isDeleted);
        params := [];
      case JsonColumn(filters, lookup) =>
        q := BuildJsonFilterQuery(filters, lookup);
        params := BuildJsonQueryParameters([], filters);
      case Custom(query) =>
        q, params := query, [];
    }
  }

  // ---------- Alignment and meaning ----------

  /** The repository's own duty when it declares a property. */
  ghost predicate WellDeclared<R>(p: Property<R>) {
    && (p.Plain? ==> p.nparam == p.template.placeholders)
    && (p.Custom? ==> Holes(p.query) == 0)
  }

  /** What the property is there to say. */
  ghost predicate Says<R>(p: Property<R>, row: R) {
    match p
    case Plain(t, values, n) => values == [] || exists v :: v in values && t.holds(row, Repeat(v, n))
    case State(states, isDeleted) =>
      if states == [] then !isDeleted(row)
      else
        || (forall s :: s in states ==> s != ACTIVE && s != DELETED)
        || (ACTIVE in states && !isDeleted(row))
        || (DELETED in states && isDeleted(row))
    case JsonColumn(filters, lookup) =>
      (forall j :: j in filters ==> Leaves(j) == []) || SomeMatches(filters, row, lookup)
    case Custom(q) => q == [] || (Holes(q) == 0 && Holds(q, row, []))
  }

  /** Every scalar of the filter document is found at the same path of the row's document. */
  ghost predicate MatchesAllLeaves<R>(j: Json, row: R, lookup: (R, Path) -> Option<string>) {
    forall path :: ScalarAt(j, path).Some? ==> lookup(row, path) == ScalarAt(j, path)
  }

  /** Some filter document has leaves and they all match. */
  ghost predicate SomeMatches<R>(filters: seq<Json>, row: R, lookup: (R, Path) -> Option<string>) {
    exists j :: j in filters && Leaves(j) != [] && MatchesAllLeaves(j, row, lookup)
  }

  lemma SomeMatchesSnoc<R>(filters: seq<Json>, row: R, lookup: (R, Path) -> Option<string>)
    requires filters != []
    ensures var n := |filters| - 1;
            SomeMatches(filters, row, lookup) <==>
              (SomeMatches(filters[..n], row, lookup) ||
               (Leaves(filters[n]) != [] && MatchesAllLeaves(filters[n], row, lookup)))
  {
    var n := |filters| - 1;
    assert filters == filters[..n] + [filters[n]];
    assert forall x :: x in filters <==> x in filters[..n] || x == filters[n];
  }

  lemma {:induction false} HolesAppend<R>(a: Query<R>, b: Query<R>)
    ensures Holes(a + b) == Holes(a) + Holes(b)
  {
    if a == [] {
      assert a + b == b;
    } else {
      assert (a + b)[1..] == a[1..] + b;
      HolesAppend(a[1..], b);
    }
  }

  lemma {:induction false} HoldsAppend<R>(a: Query<R>, b: Query<R>, row: R, p: seq<Value>, r: seq<Value>)
    requires |p| == Holes(a) && |r| == Holes(b)
    ensures Holes(a + b) == |p + r|
    ensures Holds(a + b, row, p + r) <==> Holds(a, row, p) || Holds(b, row, r)
  {
    HolesAppend(a, b);
    if a == [] {
      assert a + b == b && p + r == r;
    } else {
      var h := ConjunctionHoles(a[0]);
      assert (a + b)[1..] == a[1..] + b;
      assert (p + r)[..h] == p[..h] && (p + r)[h..] == p[h..] + r;
      HoldsAppend(a[1..], b, row, p[h..], r);
    }
  }

  lemma SingleHolds<R>(c: Conjunction<R>, row: R, p: seq<Value>)
    requires |p| == ConjunctionHoles(c)
    ensures Holes([c]) == |p| && (Holds([c], row, p) <==> ConjunctionHolds(c, row, p))
  {
    assert [c][1..] == [];
    assert p[..|p|] == p;
  }

  lemma OneTest<R>(t: Template<R>, row: R, p: seq<Value>)
    requires |p| == t.placeholders
    ensures ConjunctionHoles([t]) == |p| && (ConjunctionHolds([t], row, p) <==> t.holds(row, p))
  {
    assert [t][1..] == [];
    assert p[..|p|] == p;
  }

  lemma {:induction false} PlainMeaning<R>(t: Template<R>, values: seq<Value>, row: R)
    ensures Holes(Copies(t, |values|)) == |RepeatAll(values, t.placeholders)|
    ensures Holds(Copies(t, |values|), row, RepeatAll(values, t.placeholders)) <==>
              exists v :: v in values && t.holds(row, Repeat(v, t.placeholders))
  {
    if values != [] {
      var n := |values| - 1;
      var v, shorter := values[n], values[..n];
      PlainMeaning(t, shorter, row);
      OneTest(t, row, Repeat(v, t.placeholders));
      SingleHolds([t], row, Repeat(v, t.placeholders));
      assert Copies(t, n + 1) == Copies(t, n) + [[t]];
      HoldsAppend(Copies(t, n), [[t]], row, RepeatAll(shorter, t.placeholders), Repeat(v, t.placeholders));
      assert values == shorter + [v];
      assert forall x :: x in values <==> x in shorter || x == v;
    }
  }

  lemma OneHole<R>(t: Template<R>)
    ensures Holes([[t]]) == t.placeholders
  {
    var c: Conjunction<R> := [t];
    assert c[1..] == [] && ConjunctionHoles(c) == t.placeholders + ConjunctionHoles(c[1..]);
    var q: Query<R> := [c];
    assert q[1..] == [] && Holes(q) == ConjunctionHoles(q[0]) + Holes(q[1..]);
  }

  /** A declaration whose parameter count differs from its placeholders is misaligned as soon as it is used. */
  lemma {:induction false} PlainAlignment<R>(t: Template<R>, values: seq<Value>, nparam: nat)
    ensures Holes(Copies(t, |values|)) == |values| * t.placeholders
    ensures |RepeatAll(values, nparam)| == |values| * nparam
    ensures Holes(Copies(t, |values|)) == |RepeatAll(values, nparam)| <==> values == [] || nparam == t.placeholders
  {
    if values != [] {
      var n := |values| - 1;
      PlainAlignment(t, values[..n], nparam);
      assert Copies(t, n + 1) == Copies(t, n) + [[t]];
      HolesAppend(Copies(t, n), [[t]]);
      OneHole(t);
      OneMore(n, t.placeholders);
      OneMore(n, nparam);
      SameMultiple(n + 1, t.placeholders, nparam);
    }
  }

  lemma OneMore(n: nat, a: nat)
    ensures (n + 1) * a == n * a + a
  {
  }

  lemma SameMultiple(n: nat, a: nat, b: nat)
    requires n > 0
    ensures n * a == n * b <==> a == b
  {
    assert n * a - n * b == n * (a - b);
  }

  lemma {:induction false} StateMeaning<R>(states: seq<StateFilter>, isDeleted: R -> bool, row: R)
    ensures Holes(StateQuery(states, isDeleted)) == 0
    ensures Holds(StateQuery(states, isDeleted), row, []) <==>
              (ACTIVE in states && !isDeleted(row)) || (DELETED in states && isDeleted(row))
    ensures StateQuery(states, isDeleted) == [] <==> forall s :: s in states ==> s != ACTIVE && s != DELETED
  {
    if states != [] {
      var n := |states| - 1;
      var s, q := states[n], StateQuery(states[..n], isDeleted);
      StateMeaning(states[..n], isDeleted, row);
      assert states == states[..n] + [s];
      assert forall x :: x in states <==> x in states[..n] || x == s;
      if s == ACTIVE || s == DELETED {
        var t := StateTest(isDeleted, s == DELETED);
        OneTest(t, row, []);
        SingleHolds([t], row, []);
        HoldsAppend(q, [[t]], row, [], []);
        var none: seq<Value> := [];
        assert none + none == none;
        assert s in states;
      }
    }
  }

  lemma {:induction false} TestsMeaning<R>(lookup: (R, Path) -> Option<string>, attributes: seq<Attribute>, row: R)
    ensures ConjunctionHoles(JsonTests(lookup, attributes)) == |attributes|
    ensures ConjunctionHolds(JsonTests(lookup, attributes), row, Texts(attributes)) <==>
              forall a :: a in attributes ==> lookup(row, a.key) == Some(a.value)
  {
    if attributes != [] {
      var c, p, rest := JsonTests(lookup, attributes), Texts(attributes), attributes[1..];
      TestsMeaning(lookup, rest, row);
      assert c[1..] == JsonTests(lookup, rest);
      assert p[..1] == [Text(attributes[0].value)] && p[1..] == Texts(rest);
      assert attributes == [attributes[0]] + rest;
      assert c[0].holds(row, p[..1]) <==> lookup(row, attributes[0].key) == Some(attributes[0].value);
    }
  }

  /** The listed attributes are all found in the row iff every scalar of the filter is. */
  lemma LeavesMatch<R>(j: Json, row: R, lookup: (R, Path) -> Option<string>)
    ensures (forall a :: a in Leaves(j) ==> lookup(row, a.key) == Some(a.value)) <==> MatchesAllLeaves(j, row, lookup)
  {
    forall a: Attribute
      ensures a in Leaves(j) <==> ScalarAt(j, a.key) == Some(a.value)
    {
      AttributesAreLeaves(j, [], a);
      assert a.key[0..] == a.key;
    }
    if forall a :: a in Leaves(j) ==> lookup(row, a.key) == Some(a.value) {
      forall path | ScalarAt(j, path).Some?
        ensures lookup(row, path) == ScalarAt(j, path)
      {
        assert Attribute(path, ScalarAt(j, path).value) in Leaves(j);
      }
    }
  }

  lemma {:induction false} JsonMeaning<R>(filters: seq<Json>, lookup: (R, Path) -> Option<string>, row: R)
    ensures Holes(JsonQuery(filters, lookup)) == |JsonParams(filters)|
    ensures Holds(JsonQuery(filters, lookup), row, JsonParams(filters)) <==> SomeMatches(filters, row, lookup)
  {
    if filters != [] {
      var n := |filters| - 1;
      var j, q, p := filters[n], JsonQuery(filters[..n], lookup), JsonParams(filters[..n]);
      JsonMeaning(filters[..n], lookup, row);
      SomeMatchesSnoc(filters, row, lookup);
      var c, texts := JsonTests(lookup, Leaves(j)), Texts(Leaves(j));
      if c == [] {
        assert p + texts == p;
      } else {
        DocumentMeaning(j, lookup, row);
        HoldsAppend(q, [c], row, p, texts);
      }
    }
  }

  lemma {:induction false} JsonEmpty<R>(filters: seq<Json>, lookup: (R, Path) -> Option<string>)
    ensures JsonQuery(filters, lookup) == [] <==> forall j :: j in filters ==> Leaves(j) == []
  {
    if filters != [] {
      var n := |filters| - 1;
      JsonEmpty(filters[..n], lookup);
      assert filters == filters[..n] + [filters[n]];
      assert forall x :: x in filters <==> x in filters[..n] || x == filters[n];
    }
  }

  lemma DocumentMeaning<R>(j: Json, lookup: (R, Path) -> Option<string>, row: R)
    ensures Holes([JsonTests(lookup, Leaves(j))]) == |Texts(Leaves(j))|
    ensures Holds([JsonTests(lookup, Leaves(j))], row, Texts(Leaves(j))) <==> MatchesAllLeaves(j, row, lookup)
  {
    TestsMeaning(lookup, Leaves(j), row);
    LeavesMatch(j, row, lookup);
    SingleHolds(JsonTests(lookup, Leaves(j)), row, Texts(Leaves(j)));
  }

  /** For every property the two loops agree on the number of placeholders, and the compiled condition with
      its parameters says what the property is there to say. */
  lemma PropertyMeaning<R>(p: Property<R>, row: R)
    requires WellDeclared(p)
    ensures Holes(QueryOf(p)) == |ParamsOf(p)|
    ensures QueryOf(p) == [] || Holds(QueryOf(p), row, ParamsOf(p)) <==> Says(p, row)
  {
    match p
    case Plain(t, values, _) => PlainMeaning(t, values, row);
    case State(states, isDeleted) =>
      StateMeaning(states, isDeleted, row);
      if states == [] {
        OneTest(StateTest(isDeleted, false), row, []);
        SingleHolds([StateTest(isDeleted, false)], row, []);
      }
    case JsonColumn(filters, lookup) =>
      JsonMeaning(filters, lookup, row);
      JsonEmpty(filters, lookup);
    case Custom(_) =>
  }

  // ---------- The whole filter ----------

  function PartsOf<R>(properties: seq<Property<R>>): seq<Query<R>> {
    if properties == [] then []
    else
      var parts, q := PartsOf(properties[..|properties| - 1]), QueryOf(properties[|properties| - 1]);
      if q == [] then parts else parts + [q]
  }

  function AllParamsOf<R>(properties: seq<Property<R>>): seq<Value> {
    if properties == [] then []
    else
      var params, p := AllParamsOf(properties[..|properties| - 1]), properties[|properties| - 1];
      if QueryOf(p) == [] then params else params + ParamsOf(p)
  }

  /** db_object.go lines 594 to 602. */
  method AddFilter<R>(properties: seq<Property<R>>) returns (parts: seq<Query<R>>, params: seq<Value>)
    ensures parts == PartsOf(properties) && params == AllParamsOf(properties)
  {
    parts, params := [], [];
    for i := 0 to |properties|
      invariant parts == PartsOf(properties[..i]) && params == AllParamsOf(properties[..i])
    {
      assert properties[..i + 1][..i] == properties[..i];
      var q, ps := Compile(properties[i]);
      if |q| != 0 {
        parts, params := parts + [q], params + ps;
      }
    }
    assert properties[..|properties|] == properties;
  }

  lemma {:induction false} WhereAppend<R>(parts: seq<Query<R>>, q: Query<R>, row: R, p: seq<Value>, r: seq<Value>)
    requires |p| == WhereHoles(parts) && |r| == Holes(q)
    ensures WhereHoles(parts + [q]) == |p + r|
    ensures WhereHolds(parts + [q], row, p + r) <==> WhereHolds(parts, row, p) && Holds(q, row, r)
  {
    if parts == [] {
      assert parts + [q] == [q] && [q][1..] == [] && p + r == r && r[..|r|] == r;
    } else {
      var h := Holes(parts[0]);
      assert (parts + [q])[1..] == parts[1..] + [q];
      assert (p + r)[..h] == p[..h] && (p + r)[h..] == p[h..] + r;
      WhereAppend(parts[1..], q, row, p[h..], r);
    }
  }

  ghost predicate AllDeclared<R>(properties: seq<Property<R>>) {
    forall k :: 0 <= k < |properties| ==> WellDeclared(properties[k])
  }

  ghost predicate AllSay<R>(properties: seq<Property<R>>, row: R) {
    forall k :: 0 <= k < |properties| ==> Says(properties[k], row)
  }

  /** The compiled filter selects exactly the rows of which every property says what it should. */
  lemma {:induction false} FilterMeaning<R>(properties: seq<Property<R>>, row: R)
    requires AllDeclared(properties)
    ensures WhereHoles(PartsOf(properties)) == |AllParamsOf(properties)|
    ensures WhereHolds(PartsOf(properties), row, AllParamsOf(properties)) <==> AllSay(properties, row)
  {
    if properties != [] {
      var n := |properties| - 1;
      var p, shorter := properties[n], properties[..n];
      AllSnoc(properties, row);
      FilterMeaning(shorter, row);
      PropertyMeaning(p, row);
      if QueryOf(p) != [] {
        WhereAppend(PartsOf(shorter), QueryOf(p), row, AllParamsOf(shorter), ParamsOf(p));
      }
    }
  }

  lemma AllSnoc<R>(properties: seq<Property<R>>, row: R)
    requires properties != []
    ensures var n := |properties| - 1;
            && (AllDeclared(properties) ==> AllDeclared(properties[..n]) && WellDeclared(properties[n]))
            && (AllSay(properties, row) <==> AllSay(properties[..n], row) && Says(properties[n], row))
  {
    var n := |properties| - 1;
    if AllSay(properties[..n], row) && Says(properties[n], row) {
      forall k | 0 <= k < |properties|
        ensures Says(properties[k], row)
      {
        assert k < n ==> properties[..n][k] == properties[k];
      }
    }
  }
}
