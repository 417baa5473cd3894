/** Small notions shared by the modules. */
module Common {

  datatype Option<+T> = None | Some(value: T)

  function Elems<T>(xs: seq<T>): set<T> {
    set x | x in xs
  }

  predicate Distinct<T(==)>(xs: seq<T>) {
    forall i, j :: 0 <= i < j < |xs| ==> xs[i] != xs[j]
  }

  function Flatten<T>(parts: seq<seq<T>>): seq<T> {
    if parts == [] then [] else parts[0] + Flatten(parts[1..])
  }

  function One(b: bool): nat {
    if b then 1 else 0
  }

  /** How often k occurs in the elements of xs, given how often it occurs in each. */
  function Tally<T, K>(xs: seq<T>, count: (T, K) -> nat, k: K): nat {
    if xs == [] then 0 else Tally(xs[..|xs| - 1], count, k) + count(xs[|xs| - 1], k)
  }

  lemma {:induction false} TallySnoc<T, K>(xs: seq<T>, x: T, count: (T, K) -> nat, k: K)
    ensures Tally(xs + [x], count, k) == Tally(xs, count, k) + count(x, k)
  {
    assert (xs + [x])[..|xs|] == xs;
  }

  /** Replacing one element exchanges its count and nothing else. */
  lemma {:induction false} TallyUpdate<T, K>(xs: seq<T>, i: nat, x: T, count: (T, K) -> nat, k: K)
    requires i < |xs|
    ensures Tally(xs[i := x], count, k) == Tally(xs, count, k) - count(xs[i], k) + count(x, k)
  {
    var n := |xs| - 1;
    if i == n {
      assert xs[i := x][..n] == xs[..n];
    } else {
      assert xs[i := x][..n] == xs[..n][i := x];
      TallyUpdate(xs[..n], i, x, count, k);
    }
  }

  lemma TallyZero<T, K>(xs: seq<T>, count: (T, K) -> nat, k: K)
    requires forall x :: x in xs ==> count(x, k) == 0
    ensures Tally(xs, count, k) == 0
  {
  }

  lemma {:induction false} TallyAt<T, K>(xs: seq<T>, i: nat, count: (T, K) -> nat, k: K)
    requires i < |xs|
    ensures count(xs[i], k) <= Tally(xs, count, k)
  {
    if i < |xs| - 1 {
      TallyAt(xs[..|xs| - 1], i, count, k);
    }
  }

  /** Elementwise equal counts have equal sums. */
  lemma {:induction false} TallySame<T, K>(xs: seq<T>, ys: seq<T>, count: (T, K) -> nat, k: K)
    requires |xs| == |ys| && forall i :: 0 <= i < |xs| ==> count(xs[i], k) == count(ys[i], k)
    ensures Tally(xs, count, k) == Tally(ys, count, k)
  {
    if xs != [] {
      TallySame(xs[..|xs| - 1], ys[..|ys| - 1], count, k);
    }
  }
}
