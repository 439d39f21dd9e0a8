/**
 * A JavaScript `Set` as its elements in insertion order, and
 * `Array.from(new Set(a))`, which both the faucet checkboxes and the
 * piece selection use to drop duplicates.
 */
module JsSets {

  /** No value occurs twice. */
  predicate Distinct<T(==,!new)>(s: seq<T>)
  {
    forall i, j :: 0 <= i < j < |s| ==> s[i] != s[j]
  }

  /** `set.add(x)`: a new value goes to the end, a present one stays where it is. */
  function SetAdd<T(==,!new)>(s: seq<T>, x: T): (r: seq<T>)
    requires Distinct(s)
    ensures Distinct(r)
    ensures forall y :: y in r <==> y in s || y == x
  {
    if x in s then s else s + [x]
  }

  /** `set.delete(x)`. */
  function SetDelete<T(==,!new)>(s: seq<T>, x: T): (r: seq<T>)
    requires Distinct(s)
    ensures Distinct(r) && |r| <= |s|
    ensures forall y :: y in r <==> y in s && y != x
  {
    if s == [] then []
    else
      var rest := SetDelete(s[1..], x);
      assert s[0] !in s[1..];
      if s[0] == x then rest else [s[0]] + rest
  }

  /** `Array.from(new Set(a))`: the values of `a`, each once. */
  function SetFrom<T(==,!new)>(a: seq<T>): (r: seq<T>)
    ensures Distinct(r) && |r| <= |a|
    ensures forall y :: y in r <==> y in a
  {
    if a == [] then [] else SetAdd(SetFrom(a[..|a| - 1]), a[|a| - 1])
  }

  /** Where `x` first occurs in `a`: `a.indexOf(x)`. */
  function FirstIndex<T(==,!new)>(a: seq<T>, x: T): (i: nat)
    requires x in a
    ensures i < |a| && a[i] == x && x !in a[..i]
  {
    if a[0] == x then 0 else
      var i := FirstIndex(a[1..], x);
      assert a[1..][..i] == a[1..i + 1];
      i + 1
  }

  lemma FirstIndexOfPrefix<T(!new)>(a: seq<T>, x: T, n: nat)
    requires n <= |a| && x in a[..n]
    ensures x in a && FirstIndex(a, x) == FirstIndex(a[..n], x)
  {
    var i := FirstIndex(a[..n], x);
    assert a[..n][..i] == a[..i];
    FirstIndexUnique(a, x, i);
  }

  lemma FirstIndexUnique<T(!new)>(a: seq<T>, x: T, i: nat)
    requires i < |a| && a[i] == x && x !in a[..i]
    ensures FirstIndex(a, x) == i
  {
    var k := FirstIndex(a, x);
    assert forall m :: 0 <= m < k ==> a[m] == a[..k][m];
    assert forall m :: 0 <= m < i ==> a[m] == a[..i][m];
  }

  /** Every value of `r` occurs in `a`, and `r` lists them in the order they first occur there. */
  predicate InFirstOccurrenceOrder<T(==,!new)>(a: seq<T>, r: seq<T>)
  {
    (forall y :: y in r ==> y in a) &&
    forall i, j :: 0 <= i < j < |r| ==> FirstIndex(a, r[i]) < FirstIndex(a, r[j])
  }

  /**
   * The values come out in the order of their first occurrence in `a`,
   * which is the iteration order of a `Set` built from `a`.
   */
  lemma {:induction false} SetFromFirstOccurrenceOrder<T(!new)>(a: seq<T>)
    ensures InFirstOccurrenceOrder(a, SetFrom(a))
  {
    if a != [] {
      var init := a[..|a| - 1];
      var x := a[|a| - 1];
      SetFromFirstOccurrenceOrder(init);
      assert a == init + [x];
      assert forall y :: y in SetFrom(init) <==> y in init;
      assert SetFrom(a) == SetAdd(SetFrom(init), x);
      SnocOrder(init, x, SetFrom(init));
    }
  }

  /** Adding the next value of `a` to its set keeps the set in first-occurrence order. */
  lemma SnocOrder<T(!new)>(init: seq<T>, x: T, s: seq<T>)
    requires Distinct(s) && InFirstOccurrenceOrder(init, s)
    requires forall y :: y in s <==> y in init
    ensures InFirstOccurrenceOrder(init + [x], SetAdd(s, x))
  {
    var a := init + [x];
    assert a[..|init|] == init;
    forall i | 0 <= i < |s|
      ensures s[i] in a && FirstIndex(a, s[i]) == FirstIndex(init, s[i]) < |init|
    {
      FirstIndexOfPrefix(a, s[i], |init|);
    }
    var r := SetAdd(s, x);
    if x in s {
      assert r == s;
      forall i, j | 0 <= i < j < |s|
        ensures FirstIndex(a, s[i]) < FirstIndex(a, s[j])
      {
        assert FirstIndex(init, s[i]) < FirstIndex(init, s[j]);
      }
    } else {
      assert r == s + [x];
      FirstIndexUnique(a, x, |init|);
      forall i, j | 0 <= i < j < |r|
        ensures FirstIndex(a, r[i]) < FirstIndex(a, r[j])
      {
        assert r[i] == s[i];
        if j < |s| {
          assert r[j] == s[j];
          assert FirstIndex(init, s[i]) < FirstIndex(init, s[j]);
        }
      }
      assert forall y :: y in r ==> y in a;
    }
  }

  /** A list without duplicates is its own `Array.from(new Set(...))`. */
  lemma {:induction false} SetFromDistinct<T(!new)>(a: seq<T>)
    requires Distinct(a)
    ensures SetFrom(a) == a
  {
    if a != [] {
      var init := a[..|a| - 1];
      assert Distinct(init);
      SetFromDistinct(init);
      assert a[|a| - 1] !in init;
      assert init + [a[|a| - 1]] == a;
    }
  }

  /** `a.filter(y => y !== x)`. */
  function Without<T(==,!new)>(a: seq<T>, x: T): (r: seq<T>)
    ensures forall y :: y in r <==> y in a && y != x
    ensures Distinct(a) ==> Distinct(r)
    ensures x !in a ==> r == a
  {
    if a == [] then []
    else
      var rest := Without(a[1..], x);
      assert a == [a[0]] + a[1..];
      assert Distinct(a) ==> a[0] !in a[1..] && Distinct(a[1..]);
      if a[0] == x then rest else [a[0]] + rest
  }
}
