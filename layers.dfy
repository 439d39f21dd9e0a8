/**
 * Stacking order. Pieces are drawn in the order of a stable sort on
 * `layer`; `normalizeLayers` rewrites the layers to 0..n-1 in that
 * order, and `bringForward`/`sendBackward` swap a piece with its
 * neighbour in it. The oldest release only adds or subtracts one, and the
 * list's drag-and-drop renumbers the layers by list position.
 */
module Layers {
  import opened JsSets
  import opened Pieces

  /**
   * Whether `sort((a, b) => a.layer - b.layer)` puts the piece at `j`
   * before the one at `k`: a smaller layer first, equal layers in list
   * order (the sort is stable).
   */
  predicate Before(ls: seq<real>, j: nat, k: nat)
    requires j < |ls| && k < |ls|
  {
    ls[j] < ls[k] || (ls[j] == ls[k] && j < k)
  }

  /** `ord` lists indices of `ls` in the sort's order. */
  predicate SortedBy(ls: seq<real>, ord: seq<nat>)
  {
    (forall i :: 0 <= i < |ord| ==> ord[i] < |ls|) &&
    forall i, i' :: 0 <= i < i' < |ord| ==> Before(ls, ord[i], ord[i'])
  }

  /** Insertion of `k`, later in the list than everything in `ord`, after every index whose layer is not larger. */
  function InsertIndex(ls: seq<real>, k: nat, ord: seq<nat>): (r: seq<nat>)
    requires k < |ls| && SortedBy(ls, ord) && forall e :: e in ord ==> e < k
    ensures SortedBy(ls, r) && |r| == |ord| + 1
    ensures forall e :: e in r <==> e in ord || e == k
  {
    if ord == [] || ls[k] < ls[ord[0]] then
      assert forall i :: 0 <= i < |ord| ==> ls[ord[0]] <= ls[ord[i]] by {
        assert forall i :: 0 < i < |ord| ==> Before(ls, ord[0], ord[i]);
      }
      [k] + ord
    else
      assert ord[0] in ord && forall e :: e in ord[1..] ==> e in ord;
      var rest := InsertIndex(ls, k, ord[1..]);
      assert forall e :: e in rest ==> Before(ls, ord[0], e) by {
        assert Before(ls, ord[0], k);
        assert forall i :: 0 < i < |ord| ==> Before(ls, ord[0], ord[i]);
      }
      [ord[0]] + rest
  }

  /** The first `n` indices in the sort's order. */
  function OrderPrefix(ls: seq<real>, n: nat): (r: seq<nat>)
    requires n <= |ls|
    ensures SortedBy(ls, r) && |r| == n
    ensures forall e :: e in r <==> 0 <= e < n
  {
    if n == 0 then []
    else
      var prev := OrderPrefix(ls, n - 1);
      assert forall e :: e in prev ==> e < n - 1;
      var r := InsertIndex(ls, n - 1, prev);
      assert forall e: nat :: e < n ==> e in r by {
        forall e: nat | e < n
          ensures e in r
        {
          if e < n - 1 {
            assert e in prev;
          }
        }
      }
      r
  }

  /** `[...pieces].sort((a, b) => (a.layer || 0) - (b.layer || 0))`, as the indices of the pieces. */
  function Order(ls: seq<real>): (ord: seq<nat>)
    ensures SortedBy(ls, ord) && |ord| == |ls|
    ensures forall e :: e in ord <==> 0 <= e < |ls|
  {
    OrderPrefix(ls, |ls|)
  }

  /** `x` is one of 0, 1, ..., n-1. */
  predicate IsRank(x: real, n: nat)
  {
    0.0 <= x < n as real && x.Floor as real == x
  }

  /** The layers are 0..n-1, each once. */
  predicate IsRanking(ls: seq<real>)
  {
    (forall j :: 0 <= j < |ls| ==> IsRank(ls[j], |ls|)) && Distinct(ls)
  }

  /** The layers `normalizeLayers` writes: each piece's position in the sort. */
  function Normalized(ls: seq<real>): (r: seq<real>)
    ensures |r| == |ls|
  {
    var ord := Order(ls);
    seq(|ls|, j requires 0 <= j < |ls| => FirstIndex(ord, j) as real)
  }

  /** A piece's position in the sort as its new layer. */
  lemma NormalizedAt(ls: seq<real>, j: nat)
    requires j < |ls|
    ensures var ord := Order(ls); j in ord && Normalized(ls)[j] == FirstIndex(ord, j) as real
  {
  }

  /**
   * After `normalizeLayers` the layers are 0..n-1, and one piece is below
   * another exactly when the sort put it first.
   */
  lemma {:induction false} NormalizedRanks(ls: seq<real>)
    ensures IsRanking(Normalized(ls))
    ensures forall j, k :: 0 <= j < |ls| && 0 <= k < |ls| ==>
      (Normalized(ls)[j] < Normalized(ls)[k] <==> Before(ls, j, k))
  {
    var ord := Order(ls);
    var n := Normalized(ls);
    forall j, k | 0 <= j < |ls| && 0 <= k < |ls|
      ensures n[j] < n[k] <==> Before(ls, j, k)
      ensures j != k ==> n[j] != n[k]
    {
      NormalizedAt(ls, j);
      NormalizedAt(ls, k);
      var pj, pk := FirstIndex(ord, j), FirstIndex(ord, k);
      assert pj < pk ==> Before(ls, j, k);
      assert pk < pj ==> Before(ls, k, j);
    }
    forall j | 0 <= j < |ls|
      ensures IsRank(n[j], |ls|)
    {
      NormalizedAt(ls, j);
    }
  }

  /** Two different whole numbers are at least one apart. */
  lemma WholeStep(a: real, b: real)
    requires a < b && a.Floor as real == a && b.Floor as real == b
    ensures a + 1.0 <= b
  {
    var x, y := a.Floor, b.Floor;
    assert x < y;
  }

  /** A strictly increasing list of n ranks below n is 0, 1, ..., n-1. */
  lemma IncreasingRanks(v: seq<real>)
    requires forall i :: 0 <= i < |v| ==> IsRank(v[i], |v|)
    requires forall i :: 0 <= i < |v| - 1 ==> v[i] < v[i + 1]
    ensures forall i :: 0 <= i < |v| ==> v[i] == i as real
  {
    forall i | 0 <= i < |v|
      ensures v[i] == i as real
    {
      LowerBound(v, i);
      UpperBound(v, i);
    }
  }

  lemma {:induction false} LowerBound(v: seq<real>, m: nat)
    requires m < |v| && forall i :: 0 <= i < |v| ==> IsRank(v[i], |v|)
    requires forall i :: 0 <= i < |v| - 1 ==> v[i] < v[i + 1]
    ensures v[m] >= m as real
    decreases m
  {
    if m > 0 {
      LowerBound(v, m - 1);
      assert IsRank(v[m - 1], |v|) && IsRank(v[m], |v|);
      WholeStep(v[m - 1], v[m]);
    }
  }

  lemma {:induction false} UpperBound(v: seq<real>, m: nat)
    requires m < |v| && forall i :: 0 <= i < |v| ==> IsRank(v[i], |v|)
    requires forall i :: 0 <= i < |v| - 1 ==> v[i] < v[i + 1]
    ensures v[m] <= m as real
    decreases |v| - m
  {
    if m < |v| - 1 {
      UpperBound(v, m + 1);
      assert IsRank(v[m], |v|) && IsRank(v[m + 1], |v|);
      WholeStep(v[m], v[m + 1]);
    } else {
      assert IsRank(v[m], |v|);
      WholeStep(v[m], |v| as real);
    }
  }

  /** In the sort of a ranking, the piece with layer `i` comes `i`th. */
  lemma OrderOfRanking(ls: seq<real>)
    requires IsRanking(ls)
    ensures var ord := Order(ls); forall i :: 0 <= i < |ls| ==> ls[ord[i]] == i as real
  {
    var ord := Order(ls);
    var v := seq(|ls|, i requires 0 <= i < |ls| => ls[ord[i]]);
    forall i | 0 <= i < |ls| - 1
      ensures v[i] < v[i + 1]
    {
      assert Before(ls, ord[i], ord[i + 1]);
      assert ord[i] != ord[i + 1];
      assert ls[ord[i]] != ls[ord[i + 1]];
    }
    IncreasingRanks(v);
    assert forall i :: 0 <= i < |ls| ==> v[i] == ls[ord[i]];
  }

  /** Normalising layers that are already 0..n-1 leaves them as they are. */
  lemma NormalizedRanking(ls: seq<real>)
    requires IsRanking(ls)
    ensures Normalized(ls) == ls
  {
    OrderOfRanking(ls);
    var ord := Order(ls);
    forall j | 0 <= j < |ls|
      ensures Normalized(ls)[j] == ls[j]
    {
      NormalizedAt(ls, j);
    }
  }

  /** `normalizeLayers` twice is `normalizeLayers` once. */
  lemma NormalizeIdempotent(ls: seq<real>)
    ensures Normalized(Normalized(ls)) == Normalized(ls)
  {
    NormalizedRanks(ls);
    NormalizedRanking(Normalized(ls));
  }

  /**
   * `bringForward` (`up`) and `sendBackward`: normalise, find the piece in
   * the sort, swap layers with the next (or previous) piece there if there
   * is one, normalise again.
   */
  function Shifted(ls: seq<real>, j: nat, up: bool): (r: seq<real>)
    requires j < |ls|
    ensures |r| == |ls|
  {
    Normalized(Exchanged(Normalized(ls), j, up))
  }

  /** The swap in the middle of `Shifted`: `j` trades layers with its neighbour in the sorted order, if there is one. */
  function Exchanged(n: seq<real>, j: nat, up: bool): (r: seq<real>)
    requires j < |n|
    ensures |r| == |n| && multiset(r) == multiset(n)
    ensures forall k :: 0 <= k < |n| && r[k] != n[k] ==> k == j || n[k] == r[j]
  {
    var byLayer := Order(n);
    var i := FirstIndex(byLayer, j);
    if up && i < |n| - 1 then
      var other := byLayer[i + 1];
      SwapFacts(n, j, other);
      n[j := n[other]][other := n[j]]
    else if !up && i > 0 then
      var other := byLayer[i - 1];
      SwapFacts(n, j, other);
      n[j := n[other]][other := n[j]]
    else
      n
  }

  /** Swapping two entries keeps the multiset, and every changed entry is one of the two. */
  lemma SwapFacts(n: seq<real>, j: nat, other: nat)
    requires j < |n| && other < |n|
    ensures var r := n[j := n[other]][other := n[j]];
      |r| == |n| && multiset(r) == multiset(n) &&
      forall k :: 0 <= k < |n| && r[k] != n[k] ==> k == j || n[k] == r[j]
  {
  }

  /** The layer of `j` after the move: one up (or down) unless it is already at the top (bottom). */
  function Target(r: real, n: nat, up: bool): real
  {
    if up && r < n as real - 1.0 then r + 1.0 else if !up && r > 0.0 then r - 1.0 else r
  }

  /**
   * Bringing a piece forward (sending it backward) moves it one place up
   * (down) the normalised stack and the piece it passes one place down
   * (up); every other piece keeps its normalised layer. At the top (the
   * bottom) nothing moves.
   */
  lemma {:induction false} ShiftedSwapsNeighbour(ls: seq<real>, j: nat, up: bool)
    requires j < |ls|
    ensures var n := Normalized(ls); var t := Target(n[j], |ls|, up);
      IsRanking(Shifted(ls, j, up)) &&
      forall k :: 0 <= k < |ls| ==>
        Shifted(ls, j, up)[k] == (if k == j then t else if n[k] == t && t != n[j] then n[j] else n[k])
  {
    var n := Normalized(ls);
    NormalizedRanks(ls);
    ExchangedSwaps(n, j, up);
    NormalizedRanking(Exchanged(n, j, up));
  }

  /** On a ranking, the swap moves `j` one place and its neighbour the other way, and keeps a ranking. */
  lemma ExchangedSwaps(n: seq<real>, j: nat, up: bool)
    requires IsRanking(n) && j < |n|
    ensures var t := Target(n[j], |n|, up); var m := Exchanged(n, j, up);
      IsRanking(m) &&
      forall k :: 0 <= k < |n| ==> m[k] == (if k == j then t else if n[k] == t && t != n[j] then n[j] else n[k])
  {
    OrderOfRanking(n);
    var byLayer := Order(n);
    var i := FirstIndex(byLayer, j);
    assert n[j] == i as real;
    var t := Target(n[j], |n|, up);
    if (up && i < |n| - 1) || (!up && i > 0) {
      var other := if up then byLayer[i + 1] else byLayer[i - 1];
      assert n[other] == t;
      assert other != j;
      forall k | 0 <= k < |n| && k != j && k != other
        ensures n[k] != t && n[k] != n[j]
      {
      }
      SwapKeepsRanking(n, j, other);
    }
  }

  lemma SwapKeepsRanking(n: seq<real>, j: nat, k: nat)
    requires IsRanking(n) && j < |n| && k < |n| && j != k
    ensures IsRanking(n[j := n[k]][k := n[j]])
  {
    var m := n[j := n[k]][k := n[j]];
    forall a, b | 0 <= a < b < |m|
      ensures m[a] != m[b]
    {
    }
  }

  /** The layers of a list of pieces. */
  function Keys(ps: seq<Piece>): (ls: seq<real>)
    ensures |ls| == |ps| && forall i :: 0 <= i < |ps| ==> ls[i] == ps[i].layer
  {
    seq(|ps|, i requires 0 <= i < |ps| => ps[i].layer)
  }

  /** The pieces with their layers replaced and nothing else changed. */
  function WithLayers(ps: seq<Piece>, ls: seq<real>): (r: seq<Piece>)
    requires |ls| == |ps|
    ensures |r| == |ps| && Keys(r) == ls
    ensures forall i :: 0 <= i < |ps| ==> r[i] == ps[i].(layer := ls[i])
  {
    seq(|ps|, i requires 0 <= i < |ps| => ps[i].(layer := ls[i]))
  }

  /**
   * The list's drag-and-drop: `splice(from, 1)` then `splice(to, 0, item)`
   * (past the end appends); nothing happens when `to` is `from` or negative.
   */
  function Moved<T>(s: seq<T>, from: nat, to: int): (r: seq<T>)
    requires from < |s|
    ensures |r| == |s| && multiset(r) == multiset(s)
    ensures to == from || to < 0 ==> r == s
    ensures to != from && to >= 0 ==>
      var t := if to < |s| - 1 then to else |s| - 1;
      r[t] == s[from] && r[..t] + r[t + 1..] == s[..from] + s[from + 1..]
  {
    if to == from || to < 0 then s
    else
      var rest := s[..from] + s[from + 1..];
      var t := if to < |rest| then to else |rest|;
      var r := rest[..t] + [s[from]] + rest[t..];
      InsertedParts(rest, t, s[from]);
      RemovedMultiset(s, from);
      r
  }

  /** Putting `x` at `t` leaves the rest around it and adds `x` to the multiset. */
  lemma InsertedParts<T>(rest: seq<T>, t: nat, x: T)
    requires t <= |rest|
    ensures var r := rest[..t] + [x] + rest[t..];
      |r| == |rest| + 1 && r[t] == x && r[..t] + r[t + 1..] == rest &&
      multiset(r) == multiset(rest) + multiset{x}
  {
    var r := rest[..t] + [x] + rest[t..];
    assert r[..t] == rest[..t] && r[t + 1..] == rest[t..];
    assert rest == rest[..t] + rest[t..];
    calc {
      multiset(r);
      multiset(rest[..t] + [x]) + multiset(rest[t..]);
      multiset(rest[..t]) + multiset{x} + multiset(rest[t..]);
      multiset(rest) + multiset{x};
    }
  }

  /** Taking element `i` out removes it from the multiset. */
  lemma RemovedMultiset<T>(s: seq<T>, i: nat)
    requires i < |s|
    ensures multiset(s[..i] + s[i + 1..]) + multiset{s[i]} == multiset(s)
  {
    assert s == s[..i] + [s[i]] + s[i + 1..];
    calc {
      multiset(s);
      multiset(s[..i] + [s[i]]) + multiset(s[i + 1..]);
      multiset(s[..i]) + multiset{s[i]} + multiset(s[i + 1..]);
      multiset(s[..i] + s[i + 1..]) + multiset{s[i]};
    }
  }

  /** `pieces.forEach((p, i) => p.layer = i)`. */
  function ByPosition(n: nat): (ls: seq<real>)
    ensures |ls| == n && forall i :: 0 <= i < n ==> ls[i] == i as real
  {
    seq(n, i => i as real)
  }

  /** Numbering the pieces by position gives the ranking that keeps the list order. */
  lemma ByPositionRanks(n: nat)
    ensures IsRanking(ByPosition(n)) && Normalized(ByPosition(n)) == ByPosition(n)
  {
    var ls := ByPosition(n);
    forall i, j | 0 <= i < j < n
      ensures ls[i] != ls[j]
    {
    }
    forall i | 0 <= i < n
      ensures IsRank(ls[i], n)
    {
      assert (i as real).Floor == i;
    }
    NormalizedRanking(ls);
  }
}
