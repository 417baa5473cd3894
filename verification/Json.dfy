/**
 Flattening a JSON filter into its leaves. Paths are kept as steps; the program renders the same steps as text
 such as `a.b[0]`. Keys are visited in sorted order, which is what makes two separate flattenings agree.
 */
module Json {
  import opened Common

  datatype Step = Key(name: string) | Index(position: nat)

  type Path = seq<Step>

  datatype Json =
    | Object(members: map<string, Json>)
    | Array(items: seq<Json>)
    | Scalar(text: string)

  datatype Attribute = Attribute(key: Path, value: string)

  /** The scalar at a path, if there is one. */
  function ScalarAt(j: Json, path: Path): Option<string>
    decreases |path|
  {
    if path == [] then (if j.Scalar? then Some(j.text) else None)
    else match path[0]
      case Key(name) => if j.Object? && name in j.members then ScalarAt(j.members[name], path[1..]) else None
      case Index(i) => if j.Array? && i < |j.items| then ScalarAt(j.items[i], path[1..]) else None
  }

  // ---------- Sorted keys ----------

  /** The byte-wise order of sort.Strings. */
  predicate StringLess(a: string, b: string) {
    b != [] && (a == [] || a[0] < b[0] || (a[0] == b[0] && StringLess(a[1..], b[1..])))
  }

  lemma {:induction false} StringLessTotal(a: string, b: string)
    ensures StringLess(a, b) || a == b || StringLess(b, a)
    ensures !(StringLess(a, b) && StringLess(b, a))
    ensures !StringLess(a, a)
  {
    if a != [] {
      StringLessTotal(a[1..], a[1..]);
      if b != [] {
        StringLessTotal(a[1..], b[1..]);
        if a[0] == b[0] && a[1..] == b[1..] {
          assert a == [a[0]] + a[1..] && b == [b[0]] + b[1..];
        }
      }
    }
  }

  lemma {:induction false} StringLessTransitive(a: string, b: string, c: string)
    requires StringLess(a, b) && StringLess(b, c)
    ensures StringLess(a, c)
  {
    if a != [] && a[0] == b[0] == c[0] {
      StringLessTransitive(a[1..], b[1..], c[1..]);
    }
  }

  /** The first difference decides, and a prefix comes first. */
  lemma {:induction false} StringLessMeans(a: string, b: string)
    ensures StringLess(a, b) <==>
              exists k :: 0 <= k <= |a| && k < |b| && a[..k] == b[..k] && (k == |a| || a[k] < b[k])
  {
    if b != [] && a != [] && a[0] == b[0] {
      StringLessMeans(a[1..], b[1..]);
      if StringLess(a, b) {
        var k :| 0 <= k <= |a[1..]| && k < |b[1..]| && a[1..][..k] == b[1..][..k] &&
                 (k == |a[1..]| || a[1..][k] < b[1..][k]);
        assert a[..k + 1] == [a[0]] + a[1..][..k] && b[..k + 1] == [b[0]] + b[1..][..k];
      }
      if exists k :: 0 <= k <= |a| && k < |b| && a[..k] == b[..k] && (k == |a| || a[k] < b[k]) {
        var k :| 0 <= k <= |a| && k < |b| && a[..k] == b[..k] && (k == |a| || a[k] < b[k]);
        assert k > 0;
        assert a[1..][..k - 1] == a[..k][1..] && b[1..][..k - 1] == b[..k][1..];
      }
    } else if b != [] {
      assert a[..0] == b[..0];
      assert a != [] ==> forall k :: 0 < k <= |a| && k < |b| ==> a[..k][0] != b[..k][0];
    }
  }

  predicate IsLeast(k: string, keys: set<string>) {
    k in keys && forall x :: x in keys ==> x == k || StringLess(k, x)
  }

  lemma LeastExists(keys: set<string>)
    requires keys != {}
    ensures exists k :: IsLeast(k, keys)
  {
    var x :| x in keys;
    if keys == {x} {
      assert IsLeast(x, keys);
    } else {
      LeastExists(keys - {x});
      var y :| IsLeast(y, keys - {x});
      StringLessTotal(x, y);
      if StringLess(x, y) {
        forall z | z in keys && z != x && z != y
          ensures StringLess(x, z)
        {
          StringLessTransitive(x, y, z);
        }
        assert IsLeast(x, keys);
      } else {
        assert IsLeast(y, keys);
      }
    }
  }

  lemma LeastUnique(a: string, b: string, keys: set<string>)
    requires IsLeast(a, keys) && IsLeast(b, keys)
    ensures a == b
  {
    StringLessTotal(a, b);
  }

  function Least(keys: set<string>): (k: string)
    requires keys != {}
    ensures IsLeast(k, keys)
  {
    LeastExists(keys);
    assert forall a, b :: IsLeast(a, keys) && IsLeast(b, keys) ==> a == b by {
      forall a, b | IsLeast(a, keys) && IsLeast(b, keys)
        ensures a == b
      {
        LeastUnique(a, b, keys);
      }
    }
    var k :| IsLeast(k, keys);
    k
  }

  function SortedKeys(keys: set<string>): (ks: seq<string>)
    ensures forall k :: k in ks <==> k in keys
    ensures |ks| == |keys|
  {
    if keys == {} then [] else [Least(keys)] + SortedKeys(keys - {Least(keys)})
  }

  lemma {:induction false} KeysAscend(keys: set<string>)
    ensures forall i, j :: 0 <= i < j < |SortedKeys(keys)| ==> StringLess(SortedKeys(keys)[i], SortedKeys(keys)[j])
    ensures forall i, j :: 0 <= i < j < |SortedKeys(keys)| ==> SortedKeys(keys)[i] != SortedKeys(keys)[j]
  {
    if keys != {} {
      var k, rest := Least(keys), SortedKeys(keys - {Least(keys)});
      KeysAscend(keys - {k});
      forall j | 0 <= j < |rest|
        ensures k != rest[j] && StringLess(k, rest[j])
      {
        assert rest[j] in rest;
      }
    }
  }

  // ---------- Flattening ----------

  function Attributes(j: Json, prefix: Path): seq<Attribute>
    decreases j, 1, 0
  {
    match j
    case Object(members) => MemberAttributes(j, SortedKeys(members.Keys), prefix)
    case Array(items) => ItemAttributes(j, |items|, prefix)
    case Scalar(text) => [Attribute(prefix, text)]
  }

  function MemberAttributes(j: Json, keys: seq<string>, prefix: Path): seq<Attribute>
    requires j.Object? && forall k :: k in keys ==> k in j.members
    decreases j, 0, |keys|
  {
    if keys == [] then []
    else
      assert keys[|keys| - 1] in keys;
      MemberAttributes(j, keys[..|keys| - 1], prefix) +
      Attributes(j.members[keys[|keys| - 1]], prefix + [Key(keys[|keys| - 1])])
  }

  function ItemAttributes(j: Json, n: nat, prefix: Path): seq<Attribute>
    requires j.Array? && n <= |j.items|
    decreases j, 0, n
  {
    if n == 0 then [] else ItemAttributes(j, n - 1, prefix) + Attributes(j.items[n - 1], prefix + [Index(n - 1)])
  }

  /** json_encode.go lines 59 to 92. The keys of a map come in any order and are then sorted. */
  method SeparateJsonAttributesRecursive(j: Json, prefix: Path) returns (attributes: seq<Attribute>)
    ensures attributes == Attributes(j, prefix)
    decreases j
  {
    attributes := [];
    match j {
      case Object(members) =>
        var mapKeys: set<string>, todo := {}, members.Keys;
        while todo != {}
          invariant mapKeys == members.Keys - todo && todo <= members.Keys
          decreases todo
        {
          var k :| k in todo;
          mapKeys, todo := mapKeys + {k}, todo - {k};
        }
        var sorted := SortedKeys(mapKeys);
        assert mapKeys == members.Keys;
        for i := 0 to |sorted|
          invariant attributes == MemberAttributes(j, sorted[..i], prefix)
        {
          assert sorted[i] in sorted;
          var nested := SeparateJsonAttributesRecursive(members[sorted[i]], prefix + [Key(sorted[i])]);
          assert sorted[..i + 1][..i] == sorted[..i];
          attributes := attributes + nested;
        }
        assert sorted[..|sorted|] == sorted;
      case Array(items) =>
        for i := 0 to |items|
          invariant attributes == ItemAttributes(j, i, prefix)
        {
          var nested := SeparateJsonAttributesRecursive(items[i], prefix + [Index(i)]);
          attributes := attributes + nested;
        }
      case Scalar(text) =>
        attributes := [Attribute(prefix, text)];
    }
  }

  // ---------- The leaves, each exactly once ----------

  /** Attribute a lists the scalar that j has behind the prefix. */
  ghost predicate Lists(j: Json, prefix: Path, a: Attribute) {
    prefix <= a.key && ScalarAt(j, a.key[|prefix|..]) == Some(a.value)
  }

  lemma ListsBelow(j: Json, prefix: Path, step: Step, child: Json, a: Attribute)
    requires (step.Key? && j.Object? && step.name in j.members && child == j.members[step.name]) ||
             (step.Index? && j.Array? && step.position < |j.items| && child == j.items[step.position])
    ensures Lists(child, prefix + [step], a) <==>
              Lists(j, prefix, a) && |a.key| > |prefix| && a.key[|prefix|] == step
  {
    var n := |prefix|;
    if prefix <= a.key && |a.key| > n {
      assert a.key[n..] == [a.key[n]] + a.key[n + 1..];
      assert a.key[n..][1..] == a.key[n + 1..];
      if a.key[n] == step {
        assert prefix + [step] <= a.key by {
          assert a.key[..n + 1] == a.key[..n] + [step];
        }
      }
    }
    if prefix + [step] <= a.key {
      assert a.key[n] == (prefix + [step])[n] == step;
      assert prefix <= a.key by {
        assert (prefix + [step])[..n] == prefix;
      }
    }
  }

  /** An attribute is listed iff the document has that scalar at that path. */
  lemma {:induction false} AttributesAreLeaves(j: Json, prefix: Path, a: Attribute)
    ensures a in Attributes(j, prefix) <==> Lists(j, prefix, a)
    decreases j, 1, 0
  {
    match j
    case Object(members) =>
      var keys := SortedKeys(members.Keys);
      MembersAreLeaves(j, keys, prefix, a);
      if Lists(j, prefix, a) {
        assert a.key[|prefix|..] != [];
        assert a.key[|prefix|] == a.key[|prefix|..][0];
      }
    case Array(items) =>
      ItemsAreLeaves(j, |items|, prefix, a);
      if Lists(j, prefix, a) {
        assert a.key[|prefix|..] != [];
        assert a.key[|prefix|] == a.key[|prefix|..][0];
      }
    case Scalar(text) =>
      if prefix <= a.key {
        assert a.key == prefix + a.key[|prefix|..];
        assert ScalarAt(j, []) == Some(text);
        assert Lists(j, prefix, a) <==> a.key[|prefix|..] == [] && a.value == text;
        assert a.key == prefix <==> a.key[|prefix|..] == [];
      }
  }

  lemma {:induction false} MembersAreLeaves(j: Json, keys: seq<string>, prefix: Path, a: Attribute)
    requires j.Object? && forall k :: k in keys ==> k in j.members
    ensures a in MemberAttributes(j, keys, prefix) <==>
              Lists(j, prefix, a) && |a.key| > |prefix| && a.key[|prefix|].Key? && a.key[|prefix|].name in keys
    decreases j, 0, |keys|
  {
    if keys != [] {
      var n := |keys| - 1;
      var k := keys[n];
      assert k in keys;
      MembersAreLeaves(j, keys[..n], prefix, a);
      AttributesAreLeaves(j.members[k], prefix + [Key(k)], a);
      ListsBelow(j, prefix, Key(k), j.members[k], a);
      assert keys == keys[..n] + [k];
    }
  }

  lemma {:induction false} ItemsAreLeaves(j: Json, n: nat, prefix: Path, a: Attribute)
    requires j.Array? && n <= |j.items|
    ensures a in ItemAttributes(j, n, prefix) <==>
              Lists(j, prefix, a) && |a.key| > |prefix| && a.key[|prefix|].Index? && a.key[|prefix|].position < n
    decreases j, 0, n
  {
    if n > 0 {
      ItemsAreLeaves(j, n - 1, prefix, a);
      AttributesAreLeaves(j.items[n - 1], prefix + [Index(n - 1)], a);
      ListsBelow(j, prefix, Index(n - 1), j.items[n - 1], a);
    }
  }

  ghost predicate DistinctKeys(attributes: seq<Attribute>) {
    forall i, k :: 0 <= i < k < |attributes| ==> attributes[i].key != attributes[k].key
  }

  lemma DistinctAppend(a: seq<Attribute>, b: seq<Attribute>)
    requires DistinctKeys(a) && DistinctKeys(b)
    requires forall x, y :: x in a && y in b ==> x.key != y.key
    ensures DistinctKeys(a + b)
  {
    forall i, k | 0 <= i < k < |a + b|
      ensures (a + b)[i].key != (a + b)[k].key
    {
      if i < |a| <= k {
        assert (a + b)[i] in a && (a + b)[k] in b;
      }
    }
  }

  /** No leaf is listed twice. */
  lemma {:induction false} AttributesDistinct(j: Json, prefix: Path)
    ensures DistinctKeys(Attributes(j, prefix))
    decreases j, 1, 0
  {
    match j
    case Object(members) =>
      KeysAscend(members.Keys);
      MembersDistinct(j, SortedKeys(members.Keys), prefix);
    case Array(items) => ItemsDistinct(j, |items|, prefix);
    case Scalar(_) =>
  }

  lemma {:induction false} MembersDistinct(j: Json, keys: seq<string>, prefix: Path)
    requires j.Object? && forall k :: k in keys ==> k in j.members
    requires forall i, k :: 0 <= i < k < |keys| ==> keys[i] != keys[k]
    ensures DistinctKeys(MemberAttributes(j, keys, prefix))
    decreases j, 0, |keys|
  {
    if keys != [] {
      var n := |keys| - 1;
      var k := keys[n];
      assert k in keys;
      var before, nested := MemberAttributes(j, keys[..n], prefix), Attributes(j.members[k], prefix + [Key(k)]);
      MembersDistinct(j, keys[..n], prefix);
      AttributesDistinct(j.members[k], prefix + [Key(k)]);
      forall x, y | x in before && y in nested
        ensures x.key != y.key
      {
        MembersAreLeaves(j, keys[..n], prefix, x);
        AttributesAreLeaves(j.members[k], prefix + [Key(k)], y);
        assert y.key[|prefix|] == Key(k);
      }
      DistinctAppend(before, nested);
    }
  }

  lemma {:induction false} ItemsDistinct(j: Json, n: nat, prefix: Path)
    requires j.Array? && n <= |j.items|
    ensures DistinctKeys(ItemAttributes(j, n, prefix))
    decreases j, 0, n
  {
    if n > 0 {
      var before, nested := ItemAttributes(j, n - 1, prefix), Attributes(j.items[n - 1], prefix + [Index(n - 1)]);
      ItemsDistinct(j, n - 1, prefix);
      AttributesDistinct(j.items[n - 1], prefix + [Index(n - 1)]);
      forall x, y | x in before && y in nested
        ensures x.key != y.key
      {
        ItemsAreLeaves(j, n - 1, prefix, x);
        AttributesAreLeaves(j.items[n - 1], prefix + [Index(n - 1)], y);
        assert y.key[|prefix|] == Index(n - 1);
      }
      DistinctAppend(before, nested);
    }
  }
}
