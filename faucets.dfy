/**
 * The faucet-hole rack of a sink: nine slots in a row behind the sink, and
 * the list of enabled slots, which every checkbox toggle rebuilds as
 * `Array.from(new Set(faucets))`, with the slot added or deleted, sorted
 * numerically.
 */
module Faucets {
  import opened JsSets

  /** `HOLE_SPACING`: centre-to-centre distance of neighbouring holes (inches). */
  const HoleSpacing: real := 2.0
  /** `HOLE_DIAMETER / 2` (inches). */
  const HoleRadius: real := 0.75
  /** `HOLE_BACKSET_FROM_SINK_EDGE`: from the sink's edge to the hole centres (inches). */
  const HoleBackset: real := 2.5
  /** The rack has slots 0..8, slot 4 on the sink's centreline. */
  const SlotCount := 9

  /** One of the slot numbers 0..8. */
  predicate IsSlot(x: real)
  {
    0.0 <= x < SlotCount as real && x.Floor as real == x
  }

  /**
   * The centre of hole `idx` in the sink's own coordinates (origin at the
   * sink's centre, y growing towards the sink's front), for a sink `h` deep.
   */
  function HoleCenter(idx: real, h: real): (c: (real, real))
  {
    ((idx - 4.0) * HoleSpacing, -(h / 2.0 + HoleBackset))
  }

  /**
   * The nine slots span 16 inches, centred on the sink, two inches apart;
   * each hole lies wholly behind the sink's back edge, 1.75 inches clear.
   */
  lemma RackLayout(h: real)
    ensures HoleCenter(0.0, h).0 == -8.0 && HoleCenter(8.0, h).0 == 8.0 && HoleCenter(4.0, h).0 == 0.0
    ensures forall x :: IsSlot(x) && x < 8.0 ==> HoleCenter(x + 1.0, h).0 - HoleCenter(x, h).0 == HoleSpacing
    ensures forall x :: IsSlot(x) ==>
      -8.0 <= HoleCenter(x, h).0 <= 8.0 && HoleCenter(x, h).0 == -HoleCenter(8.0 - x, h).0
    ensures forall idx: real :: HoleCenter(idx, h).1 + HoleRadius == -h / 2.0 - 1.75
  {
  }

  /** Strictly increasing, which is sorted and duplicate-free at once. */
  predicate Increasing(s: seq<real>)
  {
    forall i, j :: 0 <= i < j < |s| ==> s[i] < s[j]
  }

  /** Inserting a new value into an increasing list keeps it increasing. */
  function Insert(x: real, s: seq<real>): (r: seq<real>)
    requires Increasing(s) && x !in s
    ensures Increasing(r) && |r| == |s| + 1
    ensures forall y :: y in r <==> y in s || y == x
  {
    if s == [] || x < s[0] then [x] + s
    else
      var tail := s[1..];
      assert Increasing(tail) && x !in tail by {
        assert forall k :: 0 <= k < |tail| ==> tail[k] == s[k + 1];
      }
      var rest := Insert(x, tail);
      assert forall y :: y in rest ==> s[0] < y by {
        assert forall k :: 0 <= k < |tail| ==> s[0] < tail[k];
      }
      ConsIncreasing(s[0], rest);
      assert forall y :: y in s <==> y == s[0] || y in tail by {
        assert s == [s[0]] + tail;
      }
      [s[0]] + rest
  }

  lemma ConsIncreasing(x: real, s: seq<real>)
    requires Increasing(s) && forall y :: y in s ==> x < y
    ensures Increasing([x] + s)
  {
    var r := [x] + s;
    forall i, j | 0 <= i < j < |r|
      ensures r[i] < r[j]
    {
      assert r[j] == s[j - 1] && s[j - 1] in s;
      if i > 0 {
        assert r[i] == s[i - 1];
      }
    }
  }

  /** `.sort((a, b) => a - b)` of a list without duplicates. */
  function Sort(s: seq<real>): (r: seq<real>)
    requires Distinct(s)
    ensures Increasing(r) && |r| == |s|
    ensures forall y :: y in r <==> y in s
  {
    if s == [] then []
    else
      var init := s[..|s| - 1];
      assert forall y :: y in init ==> y in s;
      Insert(s[|s| - 1], Sort(init))
  }

  /**
   * Toggling checkbox `i`: `new Set(faucets)`, `add(i)` when it becomes
   * checked and `delete(i)` otherwise, then sorted. The list that results
   * is sorted without duplicates, and it holds exactly the old values
   * other than `i`, plus `i` when it is checked.
   */
  function Toggled(faucets: seq<real>, i: real, checked: bool): (r: seq<real>)
    ensures Increasing(r)
    ensures forall y :: y in r <==> (y in faucets && y != i) || (checked && y == i)
    ensures (forall y :: y in faucets ==> IsSlot(y)) && IsSlot(i) ==> forall y :: y in r ==> IsSlot(y)
  {
    var s := SetFrom(faucets);
    Sort(if checked then SetAdd(s, i) else SetDelete(s, i))
  }

  /** An increasing list is fixed by the values it holds. */
  lemma {:induction false} IncreasingUnique(a: seq<real>, b: seq<real>)
    requires Increasing(a) && Increasing(b)
    requires forall y :: y in a <==> y in b
    ensures a == b
    decreases |a|
  {
    assert (a == []) == (b == []) by {
      assert a != [] ==> a[0] in a;
      assert b != [] ==> b[0] in b;
    }
    if a != [] {
      assert a[0] in a && b[0] in b;
      var j :| 0 <= j < |b| && b[j] == a[0];
      assert b[0] <= a[0];
      var k :| 0 <= k < |a| && a[k] == b[0];
      assert a[0] <= b[0];
      forall y
        ensures y in a[1..] <==> y in b[1..]
      {
        if y in a[1..] {
          assert y in b && y != b[0];
          var i :| 0 <= i < |b| && b[i] == y;
          assert b[1..][i - 1] == y;
        }
        if y in b[1..] {
          assert y in a && y != a[0];
          var i :| 0 <= i < |a| && a[i] == y;
          assert a[1..][i - 1] == y;
        }
      }
      IncreasingUnique(a[1..], b[1..]);
    }
  }

  /** Checking then unchecking a box gives the list that unchecking alone gives. */
  lemma CheckThenUncheck(faucets: seq<real>, i: real)
    ensures Toggled(Toggled(faucets, i, true), i, false) == Toggled(faucets, i, false)
  {
    IncreasingUnique(Toggled(Toggled(faucets, i, true), i, false), Toggled(faucets, i, false));
  }

  /** A toggle that agrees with the list already shown leaves a sorted list as it is. */
  lemma ToggleAgreeing(faucets: seq<real>, i: real)
    requires Increasing(faucets)
    ensures i in faucets ==> Toggled(faucets, i, true) == faucets
    ensures i !in faucets ==> Toggled(faucets, i, false) == faucets
  {
    if i in faucets {
      IncreasingUnique(Toggled(faucets, i, true), faucets);
    } else {
      IncreasingUnique(Toggled(faucets, i, false), faucets);
    }
  }

  /** The order in which two boxes are checked does not matter. */
  lemma ToggleCommutes(faucets: seq<real>, i: real, j: real, ci: bool, cj: bool)
    requires i != j
    ensures Toggled(Toggled(faucets, i, ci), j, cj) == Toggled(Toggled(faucets, j, cj), i, ci)
  {
    IncreasingUnique(Toggled(Toggled(faucets, i, ci), j, cj), Toggled(Toggled(faucets, j, cj), i, ci));
  }
}
